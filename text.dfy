/** String helpers with the behaviour of the JavaScript built-ins the core
    relies on: `String.prototype.trim`, the regular-expression class `\s`,
    `toLowerCase` on ASCII letters, `split` on one character, `join`, and
    `String(x ?? '')`. */
module Text {
  import opened Wrappers

  /** The characters JavaScript's `trim` removes and `\s` matches: the
      WhiteSpace and LineTerminator productions of ECMAScript. */
  predicate IsSpace(c: char) {
    || c == ' ' || c == '\t' || c == '\n' || c == '\U{000B}' || c == '\U{000C}' || c == '\r'
    || c == '\U{00A0}' || c == '\U{1680}' || ('\U{2000}' <= c <= '\U{200A}')
    || c == '\U{2028}' || c == '\U{2029}' || c == '\U{202F}' || c == '\U{205F}'
    || c == '\U{3000}' || c == '\U{FEFF}'
  }

  /** Neither end of `s` is a whitespace character. */
  predicate IsTrimmed(s: string) {
    s == [] || (!IsSpace(s[0]) && !IsSpace(s[|s| - 1]))
  }

  /** `s` without its leading whitespace. */
  function TrimStart(s: string): (r: string)
    ensures |r| <= |s| && r == s[|s| - |r|..]
    ensures forall k :: 0 <= k < |s| - |r| ==> IsSpace(s[k])
    ensures r == [] || !IsSpace(r[0])
    decreases |s|
  {
    if s != [] && IsSpace(s[0]) then TrimStart(s[1..]) else s
  }

  /** `s` without its trailing whitespace. */
  function TrimEnd(s: string): (r: string)
    ensures |r| <= |s| && r == s[..|r|]
    ensures forall k :: |r| <= k < |s| ==> IsSpace(s[k])
    ensures r == [] || !IsSpace(r[|r| - 1])
    decreases |s|
  {
    if s != [] && IsSpace(s[|s| - 1]) then TrimEnd(s[..|s| - 1]) else s
  }

  /** JavaScript's `s.trim()`. */
  function Trim(s: string): (r: string)
    ensures IsTrimmed(r)
    ensures |r| <= |s|
    ensures r == [] <==> forall k :: 0 <= k < |s| ==> IsSpace(s[k])
  {
    var t := TrimStart(s);
    var r := TrimEnd(t);
    assert r != [] ==> !IsSpace(r[0]) by {
      if r != [] { assert r[0] == t[0]; }
    }
    assert r == [] ==> forall k :: 0 <= k < |s| ==> IsSpace(s[k]) by {
      if r == [] {
        assert t == [];
      }
    }
    assert (forall k :: 0 <= k < |s| ==> IsSpace(s[k])) ==> r == [] by {
      if r != [] { assert r[0] == s[|s| - |t|]; }
    }
    r
  }

  /** Where the text `trim` keeps starts in its input. */
  function TrimLead(s: string): (i: nat)
    ensures i <= |s|
  {
    |s| - |TrimStart(s)|
  }

  /** `trim` keeps the part of its input that starts at `TrimLead`. */
  lemma TrimSlice(s: string)
    ensures TrimLead(s) + |Trim(s)| <= |s|
    ensures Trim(s) == s[TrimLead(s)..TrimLead(s) + |Trim(s)|]
  {
    var t := TrimStart(s);
    assert t == s[TrimLead(s)..];
    assert Trim(s) == TrimEnd(t) == t[..|Trim(s)|];
  }

  /** `trim` keeps a contiguous part of its input and removes only the
      whitespace before and after it. */
  lemma TrimRemovesEnds(s: string)
    ensures TrimLead(s) + |Trim(s)| <= |s|
    ensures Trim(s) == s[TrimLead(s)..TrimLead(s) + |Trim(s)|]
    ensures forall k :: 0 <= k < TrimLead(s) ==> IsSpace(s[k])
    ensures forall k :: TrimLead(s) + |Trim(s)| <= k < |s| ==> IsSpace(s[k])
  {
    TrimSlice(s);
    var t := TrimStart(s);
    var i := TrimLead(s);
    forall k | i + |Trim(s)| <= k < |s| ensures IsSpace(s[k]) {
      assert s[k] == t[k - i];
    }
  }

  /** Trimming a string that is already trimmed changes nothing. */
  lemma TrimTrimmed(s: string)
    requires IsTrimmed(s)
    ensures Trim(s) == s
  {
    if s != [] {
      assert TrimStart(s) == s;
      assert TrimEnd(s) == s;
    }
  }

  /** `trim` is idempotent. */
  lemma TrimIdempotent(s: string)
    ensures Trim(Trim(s)) == Trim(s)
  {
    TrimTrimmed(Trim(s));
  }

  /** One character of `toLowerCase`, restricted to the ASCII letters. */
  function LowerChar(c: char): (r: char)
    ensures 'A' <= c <= 'Z' ==> 'a' <= r <= 'z'
    ensures !('A' <= c <= 'Z') ==> r == c
  {
    if 'A' <= c <= 'Z' then (c as int + 32) as char else c
  }

  /** `s.toLowerCase()` on ASCII letters; every other character is kept. */
  function Lower(s: string): (r: string)
    ensures |r| == |s|
    ensures forall k :: 0 <= k < |s| ==> r[k] == LowerChar(s[k])
  {
    seq(|s|, k requires 0 <= k < |s| => LowerChar(s[k]))
  }

  /** No ASCII upper-case letter occurs in `s`. */
  predicate IsLower(s: string) {
    forall k :: 0 <= k < |s| ==> !('A' <= s[k] <= 'Z')
  }

  /** Lower-casing gives a lower-case string, and a lower-case string is its own lower case. */
  lemma LowerIsLower(s: string)
    ensures IsLower(Lower(s))
    ensures IsLower(s) ==> Lower(s) == s
  {
  }

  /** Lower-casing never turns a character into whitespace or back, so it
      keeps a trimmed string trimmed. */
  lemma LowerKeepsTrimmed(s: string)
    requires IsTrimmed(s)
    ensures IsTrimmed(Lower(s))
  {
  }

  /** `String(v ?? '')`: a missing (`null`/`undefined`) value becomes the empty string. */
  function Coerce(v: Option<string>): (r: string)
    ensures v == None ==> r == ""
    ensures v.Some? ==> r == v.value
  {
    v.GetOr("")
  }

  /** JavaScript truthiness of an optional string: present and not empty. */
  predicate Truthy(v: Option<string>) {
    v.Some? && v.value != ""
  }

  /** `s.indexOf(c)`, with |s| standing for JavaScript's -1. */
  function IndexOf(s: string, c: char): (k: nat)
    ensures k <= |s|
    ensures k < |s| ==> s[k] == c
    ensures forall j :: 0 <= j < k ==> s[j] != c
    ensures k == |s| <==> c !in s
    decreases |s|
  {
    if s == [] then 0
    else if s[0] == c then 0
    else 1 + IndexOf(s[1..], c)
  }

  /** `parts.join(sep)`. */
  function Join(parts: seq<string>, sep: string): (r: string)
    decreases |parts|
  {
    if |parts| == 0 then ""
    else if |parts| == 1 then parts[0]
    else parts[0] + sep + Join(parts[1..], sep)
  }

  /** `s.split(sep)` for a one-character separator: the pieces between the
      separators, in order, always at least one. */
  function Split(s: string, sep: char): (r: seq<string>)
    ensures |r| >= 1
    ensures forall i :: 0 <= i < |r| ==> sep !in r[i]
    ensures Join(r, [sep]) == s
    decreases |s|
  {
    var k := IndexOf(s, sep);
    if k == |s| then [s]
    else
      var rest := Split(s[k + 1..], sep);
      var r := [s[..k]] + rest;
      assert r[1..] == rest;
      assert s == s[..k] + [sep] + s[k + 1..];
      r
  }

  /** Splitting a join recovers the parts when no part holds the separator. */
  lemma {:induction false} SplitJoin(parts: seq<string>, sep: char)
    requires |parts| >= 1
    requires forall i :: 0 <= i < |parts| ==> sep !in parts[i]
    ensures Split(Join(parts, [sep]), sep) == parts
    decreases |parts|
  {
    if |parts| > 1 {
      var s := Join(parts, [sep]);
      var tail := Join(parts[1..], [sep]);
      assert s == parts[0] + [sep] + tail;
      assert IndexOf(s, sep) == |parts[0]| by {
        assert s[|parts[0]|] == sep;
        forall j | 0 <= j < |parts[0]| ensures s[j] != sep { assert s[j] == parts[0][j]; }
      }
      assert s[..|parts[0]|] == parts[0];
      assert s[|parts[0]| + 1..] == tail;
      SplitJoin(parts[1..], sep);
    }
  }

  /** Joining two non-empty lists puts one separator between their joins. */
  lemma {:induction false} JoinAppend(xs: seq<string>, ys: seq<string>, sep: string)
    requires xs != [] && ys != []
    ensures Join(xs + ys, sep) == Join(xs, sep) + sep + Join(ys, sep)
    decreases |xs|
  {
    if |xs| == 1 {
      assert (xs + ys)[1..] == ys;
    } else {
      assert (xs + ys)[1..] == xs[1..] + ys;
      JoinAppend(xs[1..], ys, sep);
    }
  }

  /** Each line followed by a line feed: the text of a file made of `lines`. */
  function Unlines(lines: seq<string>): string
    decreases |lines|
  {
    if lines == [] then "" else lines[0] + "\n" + Unlines(lines[1..])
  }

  /** The text of two blocks of lines is the text of one, then of the other. */
  lemma {:induction false} UnlinesAppend(xs: seq<string>, ys: seq<string>)
    ensures Unlines(xs + ys) == Unlines(xs) + Unlines(ys)
    decreases |xs|
  {
    if xs == [] {
      assert xs + ys == ys;
    } else {
      assert (xs + ys)[0] == xs[0] && (xs + ys)[1..] == xs[1..] + ys;
      UnlinesAppend(xs[1..], ys);
      assert Unlines(xs + ys) == xs[0] + "\n" + (Unlines(xs[1..]) + Unlines(ys));
    }
  }

  /** A join by line feeds, with one more line feed, is the text of the lines. */
  lemma {:induction false} JoinLines(xs: seq<string>)
    requires xs != []
    ensures Join(xs, "\n") + "\n" == Unlines(xs)
    decreases |xs|
  {
    if |xs| > 1 {
      JoinLines(xs[1..]);
    }
  }

  /** No line of `lines` holds a line feed. */
  predicate NoLineFeeds(lines: seq<string>) {
    forall i :: 0 <= i < |lines| ==> '\n' !in lines[i]
  }

  /** Text made of lines splits back into those lines, and a last empty piece
      after the final line feed, when no line holds a line feed. */
  lemma SplitUnlines(xs: seq<string>)
    requires NoLineFeeds(xs)
    ensures Split(Unlines(xs), '\n') == xs + [""]
  {
    var ys := xs + [""];
    assert forall i :: 0 <= i < |ys| ==> '\n' !in ys[i] by {
      forall i | 0 <= i < |ys| ensures '\n' !in ys[i] {
        if i < |xs| { assert ys[i] == xs[i]; }
      }
    }
    if xs == [] {
      assert ys == [""];
      assert Join(ys, "\n") == "" == Unlines(xs);
    } else {
      JoinLines(xs);
      JoinAppend(xs, [""], "\n");
      assert Join([""], "\n") == "";
      assert Join(ys, "\n") == Unlines(xs);
    }
    SplitJoin(ys, '\n');
  }

  /** The elements of `xs` that are not empty, in order. */
  function NonEmpty(xs: seq<string>): (r: seq<string>)
    ensures |r| <= |xs|
    ensures forall i :: 0 <= i < |r| ==> r[i] != ""
    decreases |xs|
  {
    if xs == [] then []
    else if xs[0] == "" then NonEmpty(xs[1..])
    else [xs[0]] + NonEmpty(xs[1..])
  }

  /** The positions of the non-empty elements: increasing, and exactly those. */
  function NonEmptyAt(xs: seq<string>): (p: seq<nat>)
    ensures forall i :: 0 <= i < |p| ==> p[i] < |xs| && xs[p[i]] != ""
    ensures forall i, j :: 0 <= i < j < |p| ==> p[i] < p[j]
    ensures forall j :: 0 <= j < |xs| && xs[j] != "" ==> j in p
    decreases |xs|
  {
    if xs == [] then []
    else
      var n := |xs| - 1;
      var init := NonEmptyAt(xs[..n]);
      assert forall j :: 0 <= j < n ==> xs[..n][j] == xs[j];
      init + (if xs[n] != "" then [n] else [])
  }

  /** Filtering distributes over concatenation. */
  lemma {:induction false} NonEmptyAppend(xs: seq<string>, ys: seq<string>)
    ensures NonEmpty(xs + ys) == NonEmpty(xs) + NonEmpty(ys)
    decreases |xs|
  {
    if xs == [] {
      assert xs + ys == ys;
    } else {
      assert (xs + ys)[1..] == xs[1..] + ys;
      NonEmptyAppend(xs[1..], ys);
    }
  }

  /** A single element is kept exactly when it is not empty. */
  lemma NonEmptySingle(x: string)
    ensures NonEmpty([x]) == if x == "" then [] else [x]
  {
    assert [x][1..] == [];
  }

  /** The kept elements are, one for one and in order, the elements at the
      positions of the non-empty ones. */
  lemma {:induction false} NonEmptyIndexed(xs: seq<string>)
    ensures |NonEmpty(xs)| == |NonEmptyAt(xs)|
    ensures forall k :: 0 <= k < |NonEmpty(xs)| ==> NonEmpty(xs)[k] == xs[NonEmptyAt(xs)[k]]
    decreases |xs|
  {
    if xs != [] {
      var n := |xs| - 1;
      var front := xs[..n];
      NonEmptyIndexed(front);
      assert xs == front + [xs[n]];
      NonEmptyAppend(front, [xs[n]]);
      NonEmptySingle(xs[n]);
      var init, pinit := NonEmpty(front), NonEmptyAt(front);
      var last, plast := if xs[n] == "" then [] else [xs[n]], if xs[n] != "" then [n] else [];
      assert NonEmpty(xs) == init + last;
      assert NonEmptyAt(xs) == pinit + plast;
      forall k | 0 <= k < |init| ensures (init + last)[k] == xs[(pinit + plast)[k]] {
        assert front[pinit[k]] == xs[pinit[k]];
      }
    }
  }

  /** Each element trimmed; `xs.map((s) => s.trim())`. */
  function TrimAll(xs: seq<string>): (r: seq<string>)
    ensures |r| == |xs|
    ensures forall i :: 0 <= i < |xs| ==> r[i] == Trim(xs[i])
  {
    seq(|xs|, i requires 0 <= i < |xs| => Trim(xs[i]))
  }

  /** JavaScript's `length` of a string: UTF-16 code units, so a character
      outside the Basic Multilingual Plane counts twice. */
  function Utf16Length(s: string): (n: nat)
    ensures |s| <= n <= 2 * |s|
    decreases |s|
  {
    if s == [] then 0 else (if s[0] as int >= 0x1_0000 then 2 else 1) + Utf16Length(s[1..])
  }
}
