/** The pure helpers of scripts/new-song.mjs that turn the author's answers
    into a markdown file with YAML front matter. */
module Song {
  import opened Wrappers
  import opened Text

  // ---------------------------------------------------------------------------
  // yamlEscape

  /** `.replace(/\\/g, '\\\\')`: each backslash doubled. */
  function EscapeBackslashes(s: string): string
    decreases |s|
  {
    if s == [] then [] else (if s[0] == '\\' then "\\\\" else [s[0]]) + EscapeBackslashes(s[1..])
  }

  /** `.replace(/"/g, '\\"')`: each double quote preceded by a backslash. */
  function EscapeQuotes(s: string): string
    decreases |s|
  {
    if s == [] then [] else (if s[0] == '"' then "\\\"" else [s[0]]) + EscapeQuotes(s[1..])
  }

  /** `.replace(/\r?\n/g, '\\n')`: each line break, LF or CR LF, written as
      the two characters `\n`. A carriage return not followed by LF stays. */
  function EscapeLineBreaks(s: string): (r: string)
    ensures '\n' !in r
    decreases |s|
  {
    if s == [] then []
    else if |s| >= 2 && s[0] == '\r' && s[1] == '\n' then "\\n" + EscapeLineBreaks(s[2..])
    else if s[0] == '\n' then "\\n" + EscapeLineBreaks(s[1..])
    else [s[0]] + EscapeLineBreaks(s[1..])
  }

  /** The text between the quotes of `yamlEscape(s)`. */
  function EscapeText(s: string): (r: string)
    ensures '\n' !in r
  {
    EscapeLineBreaks(EscapeQuotes(EscapeBackslashes(s)))
  }

  /** `yamlEscape(v)`: `String(v ?? '')` escaped and wrapped in double quotes. */
  function YamlEscape(v: Option<string>): (r: string)
    ensures |r| >= 2 && r[0] == '"' && r[|r| - 1] == '"'
    ensures v == None ==> r == "\"\""
    ensures '\n' !in r
  {
    "\"" + EscapeText(Coerce(v)) + "\""
  }

  /** How a YAML double-quoted scalar reads the escapes `yamlEscape` writes:
      `\n` is a line feed and a backslash before any other character stands
      for that character. */
  function Unescape(t: string): string
    decreases |t|
  {
    if |t| >= 2 && t[0] == '\\' then [if t[1] == 'n' then '\n' else t[1]] + Unescape(t[2..])
    else if t == [] then []
    else [t[0]] + Unescape(t[1..])
  }

  /** One character's escape, as the three passes together write it. */
  function EscapeChar(c: char): string {
    if c == '\\' then "\\\\" else if c == '"' then "\\\"" else if c == '\n' then "\\n" else [c]
  }

  lemma {:induction false} EscapeQuotesConcat(a: string, b: string)
    ensures EscapeQuotes(a + b) == EscapeQuotes(a) + EscapeQuotes(b)
    decreases |a|
  {
    if a != [] {
      var ab := a + b;
      assert ab[0] == a[0];
      assert ab[1..] == a[1..] + b;
      var head := if a[0] == '"' then "\\\"" else [a[0]];
      assert EscapeQuotes(ab) == head + EscapeQuotes(ab[1..]);
      assert EscapeQuotes(a) == head + EscapeQuotes(a[1..]);
      EscapeQuotesConcat(a[1..], b);
      var x, y := EscapeQuotes(a[1..]), EscapeQuotes(b);
      assert head + (x + y) == (head + x) + y;
    } else {
      assert a + b == b;
    }
  }

  lemma {:induction false} EscapeLineBreaksConcat(a: string, b: string)
    requires '\r' !in a
    ensures EscapeLineBreaks(a + b) == EscapeLineBreaks(a) + EscapeLineBreaks(b)
    decreases |a|
  {
    if a != [] {
      var ab := a + b;
      assert ab[0] == a[0] && a[0] != '\r';
      assert ab[1..] == a[1..] + b;
      var head := if a[0] == '\n' then "\\n" else [a[0]];
      assert EscapeLineBreaks(ab) == head + EscapeLineBreaks(ab[1..]);
      assert EscapeLineBreaks(a) == head + EscapeLineBreaks(a[1..]);
      EscapeLineBreaksConcat(a[1..], b);
      var x, y := EscapeLineBreaks(a[1..]), EscapeLineBreaks(b);
      assert head + (x + y) == (head + x) + y;
    } else {
      assert a + b == b;
    }
  }

  lemma {:induction false} NoCarriageReturnAdded(s: string)
    requires '\r' !in s
    ensures '\r' !in EscapeBackslashes(s)
    ensures '\r' !in EscapeQuotes(s)
    decreases |s|
  {
    if s != [] {
      NoCarriageReturnAdded(s[1..]);
    }
  }

  /** Without carriage returns the three passes escape character by character. */
  lemma EscapeTextCons(s: string)
    requires s != [] && '\r' !in s
    ensures EscapeText(s) == EscapeChar(s[0]) + EscapeText(s[1..])
  {
    var head := if s[0] == '\\' then "\\\\" else [s[0]];
    var rest := EscapeBackslashes(s[1..]);
    assert EscapeBackslashes(s) == head + rest;
    EscapeQuotesConcat(head, rest);
    var qHead := EscapeQuotes(head);
    NoCarriageReturnAdded(s[1..]);
    NoCarriageReturnAdded(rest);
    if s[0] == '\\' {
      assert EscapeQuotes(['\\']) == ['\\'];
      assert qHead == ['\\'] + EscapeQuotes(['\\']);
      assert EscapeLineBreaks(['\\']) == ['\\'];
      assert EscapeLineBreaks(qHead) == ['\\'] + EscapeLineBreaks(['\\']);
    } else if s[0] == '"' {
      assert qHead == "\\\"" + EscapeQuotes([]);
      assert EscapeLineBreaks(['"']) == ['"'];
      assert EscapeLineBreaks(qHead) == ['\\'] + EscapeLineBreaks(['"']);
    }
    assert EscapeLineBreaks(qHead) == EscapeChar(s[0]);
    EscapeLineBreaksConcat(qHead, EscapeQuotes(rest));
  }

  /** Reading back the escaped text of a string without carriage returns
      gives the string: nothing is lost and no quote or backslash can end the
      scalar early. */
  lemma {:induction false} UnescapeEscapeText(s: string)
    requires '\r' !in s
    ensures Unescape(EscapeText(s)) == s
    decreases |s|
  {
    if s != [] {
      EscapeTextCons(s);
      UnescapeEscapeText(s[1..]);
      var t := EscapeText(s[1..]);
      var e := EscapeChar(s[0]);
      if |e| == 2 {
        assert (e + t)[2..] == t;
      } else {
        assert (e + t)[1..] == t;
      }
    }
  }

  // ---------------------------------------------------------------------------
  // normalizeListFromCSV

  /** `normalizeListFromCSV(input)`: the comma-separated pieces of the trimmed
      input, each trimmed, empty pieces dropped, in input order. */
  function NormalizeListFromCsv(input: Option<string>): (r: seq<string>)
    ensures Trim(Coerce(input)) == "" ==> r == []
    ensures forall i :: 0 <= i < |r| ==> r[i] != "" && IsTrimmed(r[i]) && ',' !in r[i]
  {
    var raw := Trim(Coerce(input));
    if raw == "" then []
    else
      var pieces := Split(raw, ',');
      CleanPieces(pieces);
      var r := NonEmpty(TrimAll(pieces));
      r
  }

  /** The comma pieces of the trimmed answer, each trimmed. */
  function CsvPieces(input: Option<string>): seq<string> {
    TrimAll(Split(Trim(Coerce(input)), ','))
  }

  /** The normalised list is, one for one and in input order, the trimmed
      comma pieces that are not empty (`NonEmptyAt` gives their positions);
      a blank answer has no such piece. */
  lemma NormalizeListPieces(input: Option<string>)
    ensures |NormalizeListFromCsv(input)| == |NonEmptyAt(CsvPieces(input))|
    ensures forall k :: 0 <= k < |NormalizeListFromCsv(input)| ==>
              NormalizeListFromCsv(input)[k] == CsvPieces(input)[NonEmptyAt(CsvPieces(input))[k]]
  {
    var ps := CsvPieces(input);
    NonEmptyIndexed(ps);
    if Trim(Coerce(input)) == "" {
      assert Split("", ',') == [""];
      assert ps == [""];
      assert NonEmptyAt(ps) == [];
    }
  }

  /** Comma-free pieces, trimmed and with the empty ones dropped, are clean:
      non-empty, trimmed and comma-free. */
  lemma CleanPieces(pieces: seq<string>)
    requires forall i :: 0 <= i < |pieces| ==> ',' !in pieces[i]
    ensures forall i :: 0 <= i < |NonEmpty(TrimAll(pieces))| ==>
              var x := NonEmpty(TrimAll(pieces))[i]; x != "" && IsTrimmed(x) && ',' !in x
  {
    var ts := TrimAll(pieces);
    forall i | 0 <= i < |ts| ensures IsTrimmed(ts[i]) && ',' !in ts[i] {
      TrimIsInfix(pieces[i]);
    }
    NonEmptyKeeps(ts);
    var r := NonEmpty(ts);
    forall i | 0 <= i < |r| ensures IsTrimmed(r[i]) && ',' !in r[i] {
      assert r[i] in ts;
    }
  }

  /** Filtering keeps only elements it was given. */
  lemma {:induction false} NonEmptyKeeps(xs: seq<string>)
    ensures forall x :: x in NonEmpty(xs) ==> x in xs
    decreases |xs|
  {
    if xs != [] {
      NonEmptyKeeps(xs[1..]);
    }
  }

  /** Filtering a list with no empty element keeps all of it. */
  lemma {:induction false} NonEmptyOfNonEmpty(xs: seq<string>)
    requires forall i :: 0 <= i < |xs| ==> xs[i] != ""
    ensures NonEmpty(xs) == xs
    decreases |xs|
  {
    if xs != [] {
      NonEmptyOfNonEmpty(xs[1..]);
    }
  }

  /** Trimming only removes characters: what is left occurs in the input. */
  lemma TrimIsInfix(s: string)
    ensures forall c :: c in Trim(s) ==> c in s
  {
    TrimSlice(s);
    forall c | c in Trim(s) ensures c in s {
      var k :| 0 <= k < |Trim(s)| && Trim(s)[k] == c;
      assert c == s[TrimLead(s) + k];
    }
  }

  /** A comma-joined list of clean items (non-empty, trimmed, comma-free)
      normalises back to that list. */
  lemma {:induction false} NormalizeJoin(items: seq<string>)
    requires forall i :: 0 <= i < |items| ==> items[i] != "" && IsTrimmed(items[i]) && ',' !in items[i]
    ensures NormalizeListFromCsv(Some(Join(items, ","))) == items
  {
    if items != [] {
      var raw := Join(items, ",");
      JoinOfCleanIsTrimmed(items);
      SplitJoin(items, ',');
      NormalizeClean(raw, items);
    }
  }

  /** A comma-join of clean items is non-empty and trimmed. */
  lemma JoinOfCleanIsTrimmed(items: seq<string>)
    requires items != []
    requires forall i :: 0 <= i < |items| ==> items[i] != "" && IsTrimmed(items[i])
    ensures Join(items, ",") != "" && Trim(Join(items, ",")) == Join(items, ",")
  {
    JoinEnds(items, ",");
    TrimTrimmed(Join(items, ","));
  }

  /** A trimmed input whose comma-pieces are clean normalises to those pieces. */
  lemma NormalizeClean(raw: string, items: seq<string>)
    requires raw != "" && Trim(raw) == raw && Split(raw, ',') == items
    requires forall i :: 0 <= i < |items| ==> items[i] != "" && IsTrimmed(items[i])
    ensures NormalizeListFromCsv(Some(raw)) == items
  {
    assert Coerce(Some(raw)) == raw;
    TrimAllTrimmed(items);
    NonEmptyOfNonEmpty(items);
  }

  lemma TrimAllTrimmed(xs: seq<string>)
    requires forall i :: 0 <= i < |xs| ==> IsTrimmed(xs[i])
    ensures TrimAll(xs) == xs
  {
    forall i | 0 <= i < |xs| ensures Trim(xs[i]) == xs[i] { TrimTrimmed(xs[i]); }
  }

  /** A join of non-empty parts starts like its first part and ends like its last. */
  lemma {:induction false} JoinEnds(parts: seq<string>, sep: string)
    requires |parts| >= 1 && forall i :: 0 <= i < |parts| ==> parts[i] != ""
    ensures Join(parts, sep) != []
    ensures Join(parts, sep)[0] == parts[0][0]
    ensures var j := Join(parts, sep); j[|j| - 1] == parts[|parts| - 1][|parts[|parts| - 1]| - 1]
    decreases |parts|
  {
    if |parts| > 1 {
      JoinEnds(parts[1..], sep);
    }
  }

  // ---------------------------------------------------------------------------
  // buildStreamingLinks

  /** One entry of `streamingLinks`; `title` is its YAML `label`. */
  datatype Link = Link(title: string, url: string)

  /** The streaming-service answers: four optional URLs and the CSV of extra `Label=URL` items. */
  datatype Services = Services(spotify: Option<string>, appleMusic: Option<string>,
                               youtube: Option<string>, bandcamp: Option<string>, other: Option<string>)

  /** The fixed services, in their fixed order. */
  const ServiceTitles: seq<string> := ["Spotify", "Apple Music", "YouTube", "Bandcamp"]

  /** The answers for the fixed services, in the same order. */
  function Answers(s: Services): (a: seq<Option<string>>)
    ensures |a| == |ServiceTitles|
  {
    [s.spotify, s.appleMusic, s.youtube, s.bandcamp]
  }

  /** The positions of the truthy answers: increasing, and exactly those. */
  function TruthyAt(urls: seq<Option<string>>): (p: seq<nat>)
    ensures forall i :: 0 <= i < |p| ==> p[i] < |urls| && Truthy(urls[p[i]])
    ensures forall i, j :: 0 <= i < j < |p| ==> p[i] < p[j]
    ensures forall j :: 0 <= j < |urls| && Truthy(urls[j]) ==> j in p
    decreases |urls|
  {
    if urls == [] then []
    else
      var n := |urls| - 1;
      var init := TruthyAt(urls[..n]);
      assert forall j :: 0 <= j < n ==> urls[..n][j] == urls[j];
      init + (if Truthy(urls[n]) then [n] else [])
  }

  /** A link for each truthy answer, under the title beside it, in order. */
  function Present(titles: seq<string>, urls: seq<Option<string>>): seq<Link>
    requires |titles| == |urls|
    decreases |urls|
  {
    if urls == [] then []
    else
      var n := |urls| - 1;
      Present(titles[..n], urls[..n]) + (if Truthy(urls[n]) then [Link(titles[n], urls[n].value)] else [])
  }

  /** The links are, one for one, the truthy answers in order, each under its
      own title with its own answer. */
  lemma {:induction false} PresentIndexed(titles: seq<string>, urls: seq<Option<string>>)
    requires |titles| == |urls|
    ensures var r, p := Present(titles, urls), TruthyAt(urls);
            && |r| == |p|
            && forall i :: 0 <= i < |r| ==> p[i] < |urls| && r[i] == Link(titles[p[i]], Coerce(urls[p[i]]))
    decreases |urls|
  {
    if urls != [] {
      var n := |urls| - 1;
      PresentIndexed(titles[..n], urls[..n]);
      var init, pinit := Present(titles[..n], urls[..n]), TruthyAt(urls[..n]);
      assert forall i :: 0 <= i < |init| ==> init[i] == Link(titles[pinit[i]], Coerce(urls[pinit[i]]));
    }
  }

  /** The links for the four fixed services. */
  function ServiceLinks(s: Services): seq<Link> {
    Present(ServiceTitles, Answers(s))
  }

  /** The fixed services' links are, one for one, the services whose answer
      is truthy, in the fixed order, each under its own title with its own
      answer; so a service has a link exactly when its answer is truthy. */
  lemma ServiceLinksIndexed(s: Services)
    ensures var r, p := ServiceLinks(s), TruthyAt(Answers(s));
            && |r| == |p|
            && (forall i :: 0 <= i < |r| ==> p[i] < 4 && r[i] == Link(ServiceTitles[p[i]], Coerce(Answers(s)[p[i]])))
            && (forall i, j :: 0 <= i < j < |p| ==> p[i] < p[j])
            && (forall k :: 0 <= k < 4 ==> (k in p <==> Truthy(Answers(s)[k])))
  {
    PresentIndexed(ServiceTitles, Answers(s));
  }

  /** The four fixed services one after another. */
  lemma ServiceLinksUnfold(s: Services)
    ensures ServiceLinks(s) ==
              (if Truthy(s.spotify) then [Link("Spotify", s.spotify.value)] else [])
              + (if Truthy(s.appleMusic) then [Link("Apple Music", s.appleMusic.value)] else [])
              + (if Truthy(s.youtube) then [Link("YouTube", s.youtube.value)] else [])
              + (if Truthy(s.bandcamp) then [Link("Bandcamp", s.bandcamp.value)] else [])
  {
    var t, a := ServiceTitles, Answers(s);
    var l0 := if Truthy(s.spotify) then [Link("Spotify", s.spotify.value)] else [];
    var l1 := if Truthy(s.appleMusic) then [Link("Apple Music", s.appleMusic.value)] else [];
    var l2 := if Truthy(s.youtube) then [Link("YouTube", s.youtube.value)] else [];
    var l3 := if Truthy(s.bandcamp) then [Link("Bandcamp", s.bandcamp.value)] else [];
    assert t[..1][..0] == [] && a[..1][..0] == [];
    assert Present(t[..1], a[..1]) == l0;
    assert t[..2][..1] == t[..1] && a[..2][..1] == a[..1];
    assert Present(t[..2], a[..2]) == l0 + l1;
    assert t[..3][..2] == t[..2] && a[..3][..2] == a[..2];
    assert Present(t[..3], a[..3]) == l0 + l1 + l2;
  }

  /** What an extra link can be: a non-empty trimmed title without `=`, and a
      non-empty trimmed URL. */
  predicate IsExtraLink(l: Link) {
    && l.title != "" && IsTrimmed(l.title) && '=' !in l.title
    && l.url != "" && IsTrimmed(l.url)
  }

  /** One extra item split at its first `=`: kept when the `=` is not the
      first character and both trimmed sides are non-empty. */
  function ParseExtra(item: string): Option<Link> {
    var eq := IndexOf(item, '=');
    if 0 < eq < |item| then
      var title := Trim(item[..eq]);
      var url := Trim(item[eq + 1..]);
      if title != "" && url != "" then Some(Link(title, url)) else None
    else None
  }

  /** An item written as `title=url` is read back as that link; the URL may
      itself contain `=`. */
  lemma ParseExtraOfPair(title: string, url: string)
    requires IsExtraLink(Link(title, url))
    ensures ParseExtra(title + "=" + url) == Some(Link(title, url))
  {
    var item := title + "=" + url;
    assert IndexOf(item, '=') == |title| by {
      assert item[|title|] == '=';
      forall j | 0 <= j < |title| ensures item[j] != '=' { assert item[j] == title[j]; }
    }
    assert item[..|title|] == title;
    assert item[|title| + 1..] == url;
    TrimTrimmed(title);
    TrimTrimmed(url);
  }

  /** A parsed item is a well-formed extra link. */
  lemma ParseExtraWellFormed(item: string)
    ensures ParseExtra(item).Some? ==> IsExtraLink(ParseExtra(item).value)
  {
    var eq := IndexOf(item, '=');
    if 0 < eq < |item| {
      TrimIsInfix(item[..eq]);
    }
  }

  /** The values `parse` gives for `items`, in order, skipping the items it rejects. */
  function Kept(parse: string -> Option<Link>, items: seq<string>): seq<Link>
    decreases |items|
  {
    if items == [] then []
    else
      var init := Kept(parse, items[..|items| - 1]);
      match parse(items[|items| - 1])
      case Some(link) => init + [link]
      case None => init
  }

  /** One more item adds the value it parses to, if any. */
  lemma KeptSnoc(parse: string -> Option<Link>, items: seq<string>, i: nat)
    requires i < |items|
    ensures Kept(parse, items[..i + 1]) ==
              Kept(parse, items[..i]) + (match parse(items[i]) case Some(l) => [l] case None => [])
  {
    assert items[..i + 1][..i] == items[..i];
  }

  /** Every kept value is one that `parse` gives for some item, and there are
      no more of them than items. */
  lemma {:induction false} KeptFrom(parse: string -> Option<Link>, items: seq<string>)
    ensures |Kept(parse, items)| <= |items|
    ensures forall l :: l in Kept(parse, items) ==> exists k :: 0 <= k < |items| && parse(items[k]) == Some(l)
    decreases |items|
  {
    if items != [] {
      var init := items[..|items| - 1];
      KeptFrom(parse, init);
      forall l | l in Kept(parse, items)
        ensures exists k :: 0 <= k < |items| && parse(items[k]) == Some(l)
      {
        if l in Kept(parse, init) {
          var k :| 0 <= k < |init| && parse(init[k]) == Some(l);
          assert items[k] == init[k];
        } else {
          assert parse(items[|items| - 1]) == Some(l);
        }
      }
    }
  }

  /** The links the extra items give, in order. */
  function ExtraLinks(items: seq<string>): seq<Link> {
    Kept(ParseExtra, items)
  }

  /** Every extra link is well formed, and each comes from one item. */
  lemma ExtraLinksWellFormed(items: seq<string>)
    ensures |ExtraLinks(items)| <= |items|
    ensures forall l :: l in ExtraLinks(items) ==> IsExtraLink(l)
  {
    KeptFrom(ParseExtra, items);
    forall l | l in ExtraLinks(items) ensures IsExtraLink(l) {
      var k :| 0 <= k < |items| && ParseExtra(items[k]) == Some(l);
      ParseExtraWellFormed(items[k]);
    }
  }

  /** How an author writes an extra link in the `other` answer: `Label=URL`. */
  function PairItem(l: Link): string {
    l.title + "=" + l.url
  }

  function PairItems(ls: seq<Link>): (items: seq<string>)
    ensures |items| == |ls|
    ensures forall i :: 0 <= i < |ls| ==> items[i] == PairItem(ls[i])
  {
    seq(|ls|, i requires 0 <= i < |ls| => PairItem(ls[i]))
  }

  /** When every item parses, all of their values are kept, in order. */
  lemma {:induction false} KeptAll(parse: string -> Option<Link>, items: seq<string>, ls: seq<Link>)
    requires |items| == |ls|
    requires forall i :: 0 <= i < |items| ==> parse(items[i]) == Some(ls[i])
    ensures Kept(parse, items) == ls
    decreases |items|
  {
    if items != [] {
      var n := |items| - 1;
      KeptAll(parse, items[..n], ls[..n]);
      assert ls == ls[..n] + [ls[n]];
    }
  }

  /** Items written from well-formed links parse back to those links, in order. */
  lemma KeptPairs(ls: seq<Link>)
    requires forall i :: 0 <= i < |ls| ==> IsExtraLink(ls[i])
    ensures Kept(ParseExtra, PairItems(ls)) == ls
  {
    var items := PairItems(ls);
    forall i | 0 <= i < |items| ensures ParseExtra(items[i]) == Some(ls[i]) {
      ParseExtraOfPair(ls[i].title, ls[i].url);
    }
    KeptAll(ParseExtra, items, ls);
  }

  /** An `other` answer written as `Label=URL, Label=URL, ...` from
      well-formed links without commas gives back exactly those links. */
  lemma ExtraLinksRoundTrip(ls: seq<Link>)
    requires forall i :: 0 <= i < |ls| ==> IsExtraLink(ls[i]) && ',' !in ls[i].title && ',' !in ls[i].url
    ensures ExtraLinks(NormalizeListFromCsv(Some(Join(PairItems(ls), ",")))) == ls
  {
    var items := PairItems(ls);
    forall i | 0 <= i < |items| ensures items[i] != "" && IsTrimmed(items[i]) && ',' !in items[i] {
      var l := ls[i];
      assert items[i] == l.title + "=" + l.url;
      assert items[i][0] == l.title[0];
      assert items[i][|items[i]| - 1] == l.url[|l.url| - 1];
    }
    NormalizeJoin(items);
    KeptPairs(ls);
  }

  /** `buildStreamingLinks(...)`: the fixed services first, then the extras. */
  method BuildStreamingLinks(s: Services) returns (links: seq<Link>)
    ensures links == ServiceLinks(s) + ExtraLinks(NormalizeListFromCsv(s.other))
  {
    ghost var l0 := if Truthy(s.spotify) then [Link("Spotify", s.spotify.value)] else [];
    ghost var l1 := if Truthy(s.appleMusic) then [Link("Apple Music", s.appleMusic.value)] else [];
    ghost var l2 := if Truthy(s.youtube) then [Link("YouTube", s.youtube.value)] else [];
    ghost var l3 := if Truthy(s.bandcamp) then [Link("Bandcamp", s.bandcamp.value)] else [];
    links := [];
    if Truthy(s.spotify) { links := links + [Link("Spotify", s.spotify.value)]; }
    assert links == l0;
    if Truthy(s.appleMusic) { links := links + [Link("Apple Music", s.appleMusic.value)]; }
    assert links == l0 + l1;
    if Truthy(s.youtube) { links := links + [Link("YouTube", s.youtube.value)]; }
    assert links == l0 + l1 + l2;
    if Truthy(s.bandcamp) { links := links + [Link("Bandcamp", s.bandcamp.value)]; }
    assert links == l0 + l1 + l2 + l3;
    ServiceLinksUnfold(s);
    ghost var fixed := ServiceLinks(s);
    assert links == fixed;
    var extra := NormalizeListFromCsv(s.other);
    links := PushParsed(links, extra, ParseExtra);
  }

  /** The loop of `buildStreamingLinks` over the extra items: every item that
      `parse` accepts is pushed, in order. */
  method PushParsed(init: seq<Link>, items: seq<string>, parse: string -> Option<Link>) returns (links: seq<Link>)
    ensures links == init + Kept(parse, items)
  {
    links := init;
    for i := 0 to |items|
      invariant links == init + Kept(parse, items[..i])
    {
      KeptSnoc(parse, items, i);
      match parse(items[i]) {
        case Some(link) => links := links + [link];
        case None =>
      }
    }
    assert items[..|items|] == items;
  }

  /** The streaming links the script writes: `buildStreamingLinks` of the answers. */
  function StreamingLinks(s: Services): seq<Link> {
    ServiceLinks(s) + ExtraLinks(NormalizeListFromCsv(s.other))
  }

  // ---------------------------------------------------------------------------
  // renderYamlListOfStrings and renderYamlLinks

  /** The line `renderYamlListOfStrings` writes for one item. */
  function ItemLine(x: string, indent: string): string {
    indent + "- " + YamlEscape(Some(x))
  }

  /** The lines of a rendered list of strings: `indent[]` when it is empty. */
  function ItemLines(items: seq<string>, indent: string): (lines: seq<string>)
    ensures items == [] ==> lines == [indent + "[]"]
    ensures items != [] ==> |lines| == |items|
    ensures items != [] ==> forall i :: 0 <= i < |items| ==> lines[i] == ItemLine(items[i], indent)
  {
    if items == [] then [indent + "[]"] else seq(|items|, i requires 0 <= i < |items| => ItemLine(items[i], indent))
  }

  /** `renderYamlListOfStrings(items, indent)`. */
  function RenderYamlListOfStrings(items: seq<string>, indent: string): string {
    if items == [] then indent + "[]"
    else Join(seq(|items|, i requires 0 <= i < |items| => ItemLine(items[i], indent)), "\n")
  }

  /** The rendered list, with the line feed after it, is the text of its
      lines; an item can add no line of its own, and each line holds the
      escaped item, which a YAML reader reads back as the item when it has
      no carriage return. */
  lemma RenderedListLines(items: seq<string>, indent: string)
    requires '\n' !in indent
    ensures RenderYamlListOfStrings(items, indent) + "\n" == Unlines(ItemLines(items, indent))
    ensures forall i :: 0 <= i < |items| ==>
              ItemLines(items, indent)[i] == indent + "- \"" + EscapeText(items[i]) + "\""
    ensures forall i :: 0 <= i < |items| && '\r' !in items[i] ==> Unescape(EscapeText(items[i])) == items[i]
  {
    var lines := ItemLines(items, indent);
    forall i | 0 <= i < |items|
      ensures lines[i] == indent + "- \"" + EscapeText(items[i]) + "\""
    {
      var e := EscapeText(items[i]);
      assert lines[i] == indent + "- " + ("\"" + e + "\"");
      assert indent + "- " + ("\"" + e + "\"") == indent + "- \"" + e + "\"";
    }
    forall i | 0 <= i < |items| && '\r' !in items[i]
      ensures Unescape(EscapeText(items[i])) == items[i]
    {
      UnescapeEscapeText(items[i]);
    }
    if items == [] {
      assert Unlines(lines) == lines[0] + "\n" + Unlines(lines[1..]);
    } else {
      JoinLines(lines);
    }
  }

  /** No item can add a line of its own to a rendered list. */
  lemma ItemLinesFree(items: seq<string>, indent: string)
    requires '\n' !in indent
    ensures NoLineFeeds(ItemLines(items, indent))
  {
    var lines := ItemLines(items, indent);
    forall i | 0 <= i < |lines| ensures '\n' !in lines[i] {
      if items != [] {
        assert lines[i] == indent + "- " + YamlEscape(Some(items[i]));
      }
    }
  }

  /** The two lines `renderYamlLinks` writes for one link. */
  function LinkEntryLines(l: Link, indent: string): seq<string> {
    [indent + "- label: " + YamlEscape(Some(l.title)), indent + "  url: " + YamlEscape(Some(l.url))]
  }

  /** The map step of `renderYamlLinks`: one link's two lines as one string. */
  function LinkEntry(l: Link, indent: string): string {
    indent + "- label: " + YamlEscape(Some(l.title)) + "\n" + indent + "  url: " + YamlEscape(Some(l.url))
  }

  /** `renderYamlLinks(items, indent)`. */
  function RenderYamlLinks(links: seq<Link>, indent: string): string {
    if links == [] then indent + "[]"
    else Join(seq(|links|, i requires 0 <= i < |links| => LinkEntry(links[i], indent)), "\n")
  }

  /** The lines of the rendered links: a `label` line then a `url` line per
      link, or `indent[]` when there are none. */
  function LinkLines(links: seq<Link>, indent: string): (lines: seq<string>)
    ensures links == [] ==> lines == [indent + "[]"]
    ensures links != [] ==> |lines| == 2 * |links|
    ensures links != [] ==> forall i :: 0 <= i < |links| ==>
              lines[2 * i] == indent + "- label: " + YamlEscape(Some(links[i].title))
              && lines[2 * i + 1] == indent + "  url: " + YamlEscape(Some(links[i].url))
    decreases |links|
  {
    if links == [] then [indent + "[]"]
    else if |links| == 1 then LinkEntryLines(links[0], indent)
    else
      var rest := LinkLines(links[1..], indent);
      PairShift(LinkEntryLines(links[0], indent), rest);
      LinkEntryLines(links[0], indent) + rest
  }

  /** Behind a first pair, the lines of pair `i` are those of pair `i - 1` of the rest. */
  lemma PairShift(first: seq<string>, rest: seq<string>)
    requires |first| == 2
    ensures forall i :: 1 <= i && 2 * i + 1 < |first + rest| ==>
              (first + rest)[2 * i] == rest[2 * (i - 1)] && (first + rest)[2 * i + 1] == rest[2 * (i - 1) + 1]
  {
  }

  /** Joining the links' two-line entries is joining all their lines. */
  lemma {:induction false} JoinLinkEntries(links: seq<Link>, indent: string)
    requires links != []
    ensures RenderYamlLinks(links, indent) == Join(LinkLines(links, indent), "\n")
    decreases |links|
  {
    var entries := seq(|links|, i requires 0 <= i < |links| => LinkEntry(links[i], indent));
    var pair := LinkEntryLines(links[0], indent);
    assert Join(pair, "\n") == LinkEntry(links[0], indent);
    if |links| > 1 {
      JoinLinkEntries(links[1..], indent);
      assert entries[1..] == seq(|links| - 1, i requires 0 <= i < |links| - 1 => LinkEntry(links[1..][i], indent));
      JoinAppend(pair, LinkLines(links[1..], indent), "\n");
    }
  }

  /** The rendered links, with the line feed after them, are the text of their
      lines, and no title or URL can add a line of its own. */
  lemma RenderedLinkLines(links: seq<Link>, indent: string)
    requires '\n' !in indent
    ensures RenderYamlLinks(links, indent) + "\n" == Unlines(LinkLines(links, indent))
  {
    var lines := LinkLines(links, indent);
    if links == [] {
      assert Unlines(lines) == lines[0] + "\n" + Unlines(lines[1..]);
    } else {
      JoinLinkEntries(links, indent);
      JoinLines(lines);
    }
  }

  /** No title or URL can add a line of its own to the rendered links. */
  lemma {:induction false} LinkLinesFree(links: seq<Link>, indent: string)
    requires '\n' !in indent
    ensures NoLineFeeds(LinkLines(links, indent))
    decreases |links|
  {
    if |links| > 1 {
      LinkLinesFree(links[1..], indent);
      NoLineFeedsAppend(LinkEntryLines(links[0], indent), LinkLines(links[1..], indent));
    }
  }

  // ---------------------------------------------------------------------------
  // The markdown file

  /** Where the audio comes from: files under the song's media folder,
      external links, or both. */
  datatype AudioMode = Files | Links | Both

  /** The answers to the prompts; a prompt that was skipped or left blank is
      `None` or `Some("")`. */
  datatype SongAnswers = SongAnswers(
    slug: Option<string>, name: Option<string>,
    releaseDate: Option<string>, language: Option<string>, description: Option<string>,
    services: Services,
    audioMode: AudioMode, audioFiles: Option<string>, audioLinks: Option<string>,
    hasImage: bool, imageFiles: Option<string>,
    lyrics: Option<string>, credits: Option<string>)

  /** The audio files listed: only in the `files` and `both` modes. */
  function AudioFilesOf(a: SongAnswers): seq<string> {
    if a.audioMode == Files || a.audioMode == Both then NormalizeListFromCsv(a.audioFiles) else []
  }

  /** The audio links listed: only in the `links` and `both` modes. */
  function AudioLinksOf(a: SongAnswers): seq<string> {
    if a.audioMode == Links || a.audioMode == Both then NormalizeListFromCsv(a.audioLinks) else []
  }

  /** The image files listed: only when an image was asked for. */
  function ImageFilesOf(a: SongAnswers): seq<string> {
    if a.hasImage then NormalizeListFromCsv(a.imageFiles) else []
  }

  /** The fixed lines between the rendered lists. */
  const MidFiles: seq<string> := ["", "audio:", "  files:"]
  const MidLinks: seq<string> := ["  links:"]
  const MidImages: seq<string> := ["", "images:"]

  /** The front matter's first ten lines. */
  function HeadLines(a: SongAnswers): seq<string>
    requires Truthy(a.slug)
  {
    ["---", "type: \"song\"",
     "name: " + YamlEscape(a.name),
     "slug: " + YamlEscape(a.slug),
     "releaseDate: " + YamlEscape(a.releaseDate),
     "language: " + YamlEscape(a.language),
     "description: " + YamlEscape(a.description),
     "mediaRoot: " + YamlEscape(Some("/songs/" + a.slug.value + "/")),
     "", "streamingLinks:"]
  }

  /** The front matter's last three lines. */
  function TailLines(a: SongAnswers): seq<string>
    requires Truthy(a.name)
  {
    ["---", "", "# " + a.name.value]
  }

  /** The lines of the front matter: a fixed skeleton, one line per scalar
      field, and the lines of each rendered list. */
  function FrontMatterLines(a: SongAnswers): seq<string>
    requires Truthy(a.slug) && Truthy(a.name)
  {
    HeadLines(a)
    + LinkLines(StreamingLinks(a.services), "  ")
    + MidFiles
    + ItemLines(AudioFilesOf(a), "    ")
    + MidLinks
    + ItemLines(AudioLinksOf(a), "    ")
    + MidImages
    + ItemLines(ImageFilesOf(a), "  ")
    + TailLines(a)
  }

  /** The front-matter template for a slug and a name that are present: its
      fixed lines, written as the text of those lines, around the rendered
      lists. `releaseDate || ''` and the like are `yamlEscape` of the optional
      answer, which writes a missing one as `""`. */
  function FrontMatter(a: SongAnswers): string
    requires Truthy(a.slug) && Truthy(a.name)
  {
    Unlines(HeadLines(a))
    + RenderYamlLinks(StreamingLinks(a.services), "  ") + "\n"
    + Unlines(MidFiles)
    + RenderYamlListOfStrings(AudioFilesOf(a), "    ") + "\n"
    + Unlines(MidLinks)
    + RenderYamlListOfStrings(AudioLinksOf(a), "    ") + "\n"
    + Unlines(MidImages)
    + RenderYamlListOfStrings(ImageFilesOf(a), "  ") + "\n"
    + Unlines(TailLines(a))
  }

  /** The template's shape, with its pieces left abstract: blocks of lines
      and the text of each rendered list. */
  lemma TemplateShape(head: seq<string>, links: seq<string>, mid1: seq<string>, files: seq<string>,
                      mid2: seq<string>, alinks: seq<string>, mid3: seq<string>, images: seq<string>,
                      tail: seq<string>, tLinks: string, tFiles: string, tAlinks: string, tImages: string)
    requires tLinks + "\n" == Unlines(links) && tFiles + "\n" == Unlines(files)
    requires tAlinks + "\n" == Unlines(alinks) && tImages + "\n" == Unlines(images)
    ensures Unlines(head) + tLinks + "\n" + Unlines(mid1) + tFiles + "\n" + Unlines(mid2)
            + tAlinks + "\n" + Unlines(mid3) + tImages + "\n" + Unlines(tail)
            == Unlines(head + links + mid1 + files + mid2 + alinks + mid3 + images + tail)
  {
    var a1 := head + links;
    GlueRendered(head, links, Unlines(head), tLinks);
    var a2 := a1 + mid1;
    UnlinesAppend(a1, mid1);
    var a3 := a2 + files;
    GlueRendered(a2, files, Unlines(a1) + Unlines(mid1), tFiles);
    var a4 := a3 + mid2;
    UnlinesAppend(a3, mid2);
    var a5 := a4 + alinks;
    GlueRendered(a4, alinks, Unlines(a3) + Unlines(mid2), tAlinks);
    var a6 := a5 + mid3;
    UnlinesAppend(a5, mid3);
    var a7 := a6 + images;
    GlueRendered(a6, images, Unlines(a5) + Unlines(mid3), tImages);
    UnlinesAppend(a7, tail);
  }

  /** A text of whole lines followed by a rendered block and its line feed is
      the text of both blocks of lines. */
  lemma GlueRendered(acc: seq<string>, block: seq<string>, tAcc: string, tBlock: string)
    requires tAcc == Unlines(acc) && tBlock + "\n" == Unlines(block)
    ensures tAcc + tBlock + "\n" == Unlines(acc + block)
  {
    UnlinesAppend(acc, block);
    assert tAcc + tBlock + "\n" == tAcc + (tBlock + "\n");
  }

  /** The front matter is the text of its lines. */
  lemma FrontMatterIsLines(a: SongAnswers)
    requires Truthy(a.slug) && Truthy(a.name)
    ensures FrontMatter(a) == Unlines(FrontMatterLines(a))
  {
    RenderedLinkLines(StreamingLinks(a.services), "  ");
    RenderedListLines(AudioFilesOf(a), "    ");
    RenderedListLines(AudioLinksOf(a), "    ");
    RenderedListLines(ImageFilesOf(a), "  ");
    TemplateShape(HeadLines(a), LinkLines(StreamingLinks(a.services), "  "), MidFiles,
                  ItemLines(AudioFilesOf(a), "    "), MidLinks, ItemLines(AudioLinksOf(a), "    "),
                  MidImages, ItemLines(ImageFilesOf(a), "  "), TailLines(a),
                  RenderYamlLinks(StreamingLinks(a.services), "  "),
                  RenderYamlListOfStrings(AudioFilesOf(a), "    "),
                  RenderYamlListOfStrings(AudioLinksOf(a), "    "),
                  RenderYamlListOfStrings(ImageFilesOf(a), "  "));
  }

  /** No answer can add a line to the front matter, except a line feed in the
      song's name, which the `# name` heading writes unescaped: the front
      matter splits into exactly its lines (and the empty piece after the last
      line feed). */
  lemma FrontMatterSplits(a: SongAnswers)
    requires Truthy(a.slug) && Truthy(a.name)
    requires '\n' !in a.name.value
    ensures Split(FrontMatter(a), '\n') == FrontMatterLines(a) + [""]
  {
    FrontMatterIsLines(a);
    FrontMatterLinesFree(a);
    SplitUnlines(FrontMatterLines(a));
  }

  /** The front matter's lines hold no line feed when the name holds none. */
  lemma FrontMatterLinesFree(a: SongAnswers)
    requires Truthy(a.slug) && Truthy(a.name)
    requires '\n' !in a.name.value
    ensures NoLineFeeds(FrontMatterLines(a))
  {
    LinkLinesFree(StreamingLinks(a.services), "  ");
    ItemLinesFree(AudioFilesOf(a), "    ");
    ItemLinesFree(AudioLinksOf(a), "    ");
    ItemLinesFree(ImageFilesOf(a), "  ");
    HeadLinesFree(a);
    TailLinesFree(a);
    MidLinesFree();
    BlocksFree(HeadLines(a), LinkLines(StreamingLinks(a.services), "  "), MidFiles,
               ItemLines(AudioFilesOf(a), "    "), MidLinks, ItemLines(AudioLinksOf(a), "    "),
               MidImages, ItemLines(ImageFilesOf(a), "  "), TailLines(a));
  }

  /** Nine blocks of lines without line feeds put together have none either. */
  lemma BlocksFree(b1: seq<string>, b2: seq<string>, b3: seq<string>, b4: seq<string>, b5: seq<string>,
                   b6: seq<string>, b7: seq<string>, b8: seq<string>, b9: seq<string>)
    requires NoLineFeeds(b1) && NoLineFeeds(b2) && NoLineFeeds(b3) && NoLineFeeds(b4) && NoLineFeeds(b5)
    requires NoLineFeeds(b6) && NoLineFeeds(b7) && NoLineFeeds(b8) && NoLineFeeds(b9)
    ensures NoLineFeeds(b1 + b2 + b3 + b4 + b5 + b6 + b7 + b8 + b9)
  {
    NoLineFeedsAppend(b1, b2);
    NoLineFeedsAppend(b1 + b2, b3);
    NoLineFeedsAppend(b1 + b2 + b3, b4);
    NoLineFeedsAppend(b1 + b2 + b3 + b4, b5);
    NoLineFeedsAppend(b1 + b2 + b3 + b4 + b5, b6);
    NoLineFeedsAppend(b1 + b2 + b3 + b4 + b5 + b6, b7);
    NoLineFeedsAppend(b1 + b2 + b3 + b4 + b5 + b6 + b7, b8);
    NoLineFeedsAppend(b1 + b2 + b3 + b4 + b5 + b6 + b7 + b8, b9);
  }

  /** The fixed and scalar lines at the top hold no line feed. */
  lemma HeadLinesFree(a: SongAnswers)
    requires Truthy(a.slug)
    ensures NoLineFeeds(HeadLines(a))
  {
    var h := HeadLines(a);
    forall i | 0 <= i < |h| ensures '\n' !in h[i] {
      if i == 0 { assert h[i] == "---"; }
      else if i == 1 { assert h[i] == "type: \"song\""; }
      else if i == 2 { FieldLineFree("name: ", a.name); }
      else if i == 3 { FieldLineFree("slug: ", a.slug); }
      else if i == 4 { FieldLineFree("releaseDate: ", a.releaseDate); }
      else if i == 5 { FieldLineFree("language: ", a.language); }
      else if i == 6 { FieldLineFree("description: ", a.description); }
      else if i == 7 { FieldLineFree("mediaRoot: ", Some("/songs/" + a.slug.value + "/")); }
      else if i == 8 { assert h[i] == ""; }
      else { assert h[i] == "streamingLinks:"; }
    }
  }

  /** A key followed by an escaped value is one line. */
  lemma FieldLineFree(key: string, v: Option<string>)
    requires '\n' !in key
    ensures '\n' !in key + YamlEscape(v)
  {
    var e := YamlEscape(v);
    forall j | 0 <= j < |key + e| ensures (key + e)[j] != '\n' {
      if j < |key| { assert (key + e)[j] == key[j]; } else { assert (key + e)[j] == e[j - |key|]; }
    }
  }

  /** The closing lines hold no line feed when the name holds none. */
  lemma TailLinesFree(a: SongAnswers)
    requires Truthy(a.name) && '\n' !in a.name.value
    ensures NoLineFeeds(TailLines(a))
  {
    var t := TailLines(a);
    assert t[2] == "# " + a.name.value;
  }

  /** The fixed lines between the lists hold no line feed. */
  lemma MidLinesFree()
    ensures NoLineFeeds(MidFiles) && NoLineFeeds(MidLinks) && NoLineFeeds(MidImages)
  {
  }

  /** Two blocks of lines without line feeds put together have none either. */
  lemma NoLineFeedsAppend(xs: seq<string>, ys: seq<string>)
    requires NoLineFeeds(xs) && NoLineFeeds(ys)
    ensures NoLineFeeds(xs + ys)
  {
    forall i | 0 <= i < |xs + ys| ensures '\n' !in (xs + ys)[i] {
      if i >= |xs| { assert (xs + ys)[i] == ys[i - |xs|]; }
    }
  }

  /** A body section: a second-level heading, a blank line, the text. */
  function Section(title: string, text: string): string {
    "## " + title + "\n\n" + text + "\n"
  }

  /** Whether an optional answer has text once trimmed: `x && String(x).trim()`. */
  predicate HasText(v: Option<string>) {
    Truthy(v) && Trim(v.value) != ""
  }

  /** `bodyParts`: a Lyrics section, then a Credits section, each only when
      its answer has text, holding that text trimmed. */
  function BodyParts(a: SongAnswers): (parts: seq<string>)
    ensures |parts| == (if HasText(a.lyrics) then 1 else 0) + (if HasText(a.credits) then 1 else 0)
    ensures HasText(a.lyrics) ==> parts[0] == Section("Lyrics", Trim(a.lyrics.value))
    ensures HasText(a.credits) ==> parts[|parts| - 1] == Section("Credits", Trim(a.credits.value))
  {
    (if HasText(a.lyrics) then [Section("Lyrics", Trim(a.lyrics.value))] else [])
    + (if HasText(a.credits) then [Section("Credits", Trim(a.credits.value))] else [])
  }

  /** What follows the front matter: `'\n' + bodyParts.join('\n')`, or a
      lone `'\n'` when there are no parts. */
  function Body(parts: seq<string>): string {
    if |parts| > 0 then "\n" + Join(parts, "\n") else "\n"
  }

  /** The markdown file the script writes, or `None` when it exits because
      the slug or the name is missing; the file starts with the front matter. */
  function SongMarkdown(a: SongAnswers): (md: Option<string>)
    ensures md.None? <==> !Truthy(a.slug) || !Truthy(a.name)
    ensures md.Some? ==> |FrontMatter(a)| < |md.value| && md.value[..|FrontMatter(a)|] == FrontMatter(a)
    // What follows the front matter is the body of the non-empty sections.
    ensures md.Some? ==> md.value == FrontMatter(a) + Body(BodyParts(a))
  {
    if !Truthy(a.slug) || !Truthy(a.name) then None
    else Some(FrontMatter(a) + Body(BodyParts(a)))
  }

  /** The name of the markdown file: `${slug}.md`. */
  function MarkdownFileName(a: SongAnswers): (f: Option<string>)
    ensures f.Some? <==> SongMarkdown(a).Some?
    ensures f.Some? ==> f.value == a.slug.value + ".md"
  {
    if !Truthy(a.slug) || !Truthy(a.name) then None else Some(a.slug.value + ".md")
  }

  /** After the front matter: a blank line alone when there is neither
      lyrics nor credits; otherwise a blank line and the sections, separated
      by blank lines, Lyrics first. */
  lemma BodyCases(a: SongAnswers)
    ensures !HasText(a.lyrics) && !HasText(a.credits) ==> Body(BodyParts(a)) == "\n"
    ensures HasText(a.lyrics) && HasText(a.credits) ==>
              Body(BodyParts(a)) == "\n" + Section("Lyrics", Trim(a.lyrics.value))
                                    + "\n" + Section("Credits", Trim(a.credits.value))
    ensures HasText(a.lyrics) && !HasText(a.credits) ==>
              Body(BodyParts(a)) == "\n" + Section("Lyrics", Trim(a.lyrics.value))
    ensures !HasText(a.lyrics) && HasText(a.credits) ==>
              Body(BodyParts(a)) == "\n" + Section("Credits", Trim(a.credits.value))
  {
    var parts := BodyParts(a);
    if |parts| == 2 {
      BodyOfTwo(parts);
    } else if |parts| == 1 {
      assert Join(parts, "\n") == parts[0];
    }
  }

  /** Two parts are joined by one line feed. */
  lemma BodyOfTwo(parts: seq<string>)
    requires |parts| == 2
    ensures Body(parts) == "\n" + parts[0] + "\n" + parts[1]
  {
    assert parts[1..] == [parts[1]];
    assert Join(parts[1..], "\n") == parts[1];
    assert Join(parts, "\n") == parts[0] + "\n" + parts[1];
  }
}
