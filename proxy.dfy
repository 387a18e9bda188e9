/** The path-rewrite filter of src/proxy.ts: `/<token>.png` is served by the
    QR route `/qr/<token>`; every other request passes through. */
module Proxy {
  import opened Wrappers
  import opened Text

  /** The request URL as far as the filter is concerned. A rewrite works on a
      clone and changes only its pathname. */
  datatype Url = Url(origin: string, pathname: string, search: string, hash: string)

  /** `NextResponse.rewrite(url)` or `NextResponse.next()`. */
  datatype Decision = Rewrite(target: Url) | Next

  /** The character class `[a-z0-9-_]` under the `i` flag. */
  predicate IsTokenChar(c: char) {
    ('a' <= c <= 'z') || ('A' <= c <= 'Z') || ('0' <= c <= '9') || c == '-' || c == '_'
  }

  /** The characters of a rewritten slug: `[a-z0-9_-]`. */
  predicate IsSlugChar(c: char) {
    ('a' <= c <= 'z') || ('0' <= c <= '9') || c == '-' || c == '_'
  }

  /** A non-empty run of token characters. */
  predicate IsToken(t: string) {
    |t| > 0 && forall k :: 0 <= k < |t| ==> IsTokenChar(t[k])
  }

  /** The length of the longest prefix of `s` made of token characters: how
      far the greedy `[a-z0-9-_]+` reaches. */
  function TokenSpan(s: string): (n: nat)
    ensures n <= |s|
    ensures forall k :: 0 <= k < n ==> IsTokenChar(s[k])
    ensures n < |s| ==> !IsTokenChar(s[n])
    decreases |s|
  {
    if s != [] && IsTokenChar(s[0]) then 1 + TokenSpan(s[1..]) else 0
  }

  /** The matcher for `^\/([a-z0-9-_]+)\.png$` with the `i` flag: the captured
      token when the whole pathname matches. The greedy run cannot give back
      characters usefully, since `.` is not a token character. */
  function MatchPngPath(p: string): (m: Option<string>)
    ensures m.Some? ==> var t := m.value;
              IsToken(t) && |p| == |t| + 5 && p == "/" + t + p[|t| + 1..] && Lower(p[|t| + 1..]) == ".png"
  {
    if |p| == 0 || p[0] != '/' then None
    else
      var n := TokenSpan(p[1..]);
      if n > 0 && Lower(p[1 + n..]) == ".png" then Some(p[1..1 + n]) else None
  }

  /** Every path of that shape matches, capturing its token. */
  lemma MatchPngPathComplete(t: string, ext: string)
    requires IsToken(t) && Lower(ext) == ".png"
    ensures MatchPngPath("/" + t + ext) == Some(t)
  {
    var p := "/" + t + ext;
    assert p[1..] == t + ext;
    TokenSpanStops(t, ext);
    assert p[1 + |t|..] == ext;
    assert p[1..1 + |t|] == t;
  }

  /** The greedy run stops at the end of a token followed by a non-token character. */
  lemma {:induction false} TokenSpanStops(t: string, rest: string)
    requires forall k :: 0 <= k < |t| ==> IsTokenChar(t[k])
    requires rest == [] || !IsTokenChar(rest[0])
    ensures TokenSpan(t + rest) == |t|
    decreases |t|
  {
    if t != [] {
      assert (t + rest)[1..] == t[1..] + rest;
      TokenSpanStops(t[1..], rest);
    }
  }

  /** `proxy(req)`. */
  function Filter(url: Url): (d: Decision)
    ensures d.Next? <==> MatchPngPath(url.pathname).None?
    ensures d.Rewrite? ==> d.target == url.(pathname := "/qr/" + Lower(MatchPngPath(url.pathname).value))
  {
    match MatchPngPath(url.pathname)
    case Some(token) => Rewrite(url.(pathname := "/qr/" + Lower(token)))
    case None => Next
  }

  /** A rewrite keeps the origin, query and fragment, and its path is `/qr/`
      followed by a non-empty slug of `[a-z0-9_-]`: it cannot contain `/` or `.`. */
  lemma RewriteTarget(url: Url)
    requires Filter(url).Rewrite?
    ensures var t := Filter(url).target;
            && t.origin == url.origin && t.search == url.search && t.hash == url.hash
            && |t.pathname| > 4 && t.pathname[..4] == "/qr/"
            && forall k :: 4 <= k < |t.pathname| ==> IsSlugChar(t.pathname[k])
  {
    var token := MatchPngPath(url.pathname).value;
    var p := Filter(url).target.pathname;
    forall k | 4 <= k < |p| ensures IsSlugChar(p[k]) {
      assert p[k] == LowerChar(token[k - 4]);
    }
  }

  /** A `/qr/...` path never matches the pattern, so a rewritten request is
      not rewritten again. */
  lemma QrPathNeverMatches(s: string)
    ensures MatchPngPath("/qr/" + s) == None
  {
    var p := "/qr/" + s;
    assert p[1..] == "qr" + ("/" + s);
    TokenSpanStops("qr", "/" + s);
    assert p[3] == '/';
  }

  /** Rewriting is not re-triggered by its own output. */
  lemma RewriteIsFinal(url: Url)
    requires Filter(url).Rewrite?
    ensures Filter(Filter(url).target).Next?
  {
    var token := MatchPngPath(url.pathname).value;
    QrPathNeverMatches(Lower(token));
  }
}
