/** The link directory: a slug → URL map read from a spreadsheet and kept
    in memory for 60 seconds (src/lib/linkStore.ts). */
module LinkStore {
  import opened Wrappers
  import opened Text

  /** One sheet row: its cells in column order, slug column first, URL column second. */
  type Row = seq<string>

  /** How long a freshly built map is served, in milliseconds. */
  const CacheTtlMs: int := 60000

  /** The sheet range read when GOOGLE_SHEETS_RANGE is unset. */
  const DefaultRange: string := "Links!A:B"

  /** The cached map and the time (ms since the epoch) from which it is stale. */
  datatype Snapshot = Snapshot(links: map<string, string>, expiresAt: int)

  /** The environment variables the lookup reads; "" stands for an unset variable
      (every use tests truthiness, so the two behave alike). */
  datatype Env = Env(sheetsId: string, sheetsRange: string, serviceEmail: string, privateKey: string)

  /** The service-account identity handed to the JWT client. */
  datatype Credentials = Credentials(email: string, key: string)

  /** The one request a refresh sends to the Sheets API. */
  datatype SheetRequest = SheetRequest(spreadsheetId: string, range: string, auth: Credentials)

  /** What the Sheets API call gives: `resp.data.values`, possibly absent, or a thrown error. */
  datatype FetchOutcome = Fetched(values: Option<seq<Row>>) | FetchFailed(reason: string)

  /** The errors a lookup propagates to its caller. */
  datatype LookupError = ConfigError(message: string) | SourceFetchError(reason: string)

  // ---------------------------------------------------------------------------
  // Credentials

  /** A backslash immediately followed by `n`: a newline escaped in a secret store. */
  predicate HasEscapedNewline(s: string) {
    exists k :: 0 <= k < |s| - 1 && s[k] == '\\' && s[k + 1] == 'n'
  }

  /** `key.replace(/\\n/g, '\n')`: every two-character `\n`, scanned left to
      right, becomes a real newline. */
  function UnescapeNewlines(s: string): (r: string)
    ensures (r == []) == (s == [])
    ensures r != [] ==> r[0] == (if |s| >= 2 && s[0] == '\\' && s[1] == 'n' then '\n' else s[0])
    ensures !HasEscapedNewline(r)
    decreases |s|
  {
    if |s| >= 2 && s[0] == '\\' && s[1] == 'n' then
      var r := "\n" + UnescapeNewlines(s[2..]);
      assert forall k :: 1 <= k < |r| ==> r[k] == r[1..][k - 1];
      r
    else if s == [] then []
    else
      var r := [s[0]] + UnescapeNewlines(s[1..]);
      assert forall k :: 1 <= k < |r| ==> r[k] == r[1..][k - 1];
      r
  }

  /** The inverse direction: how a secret store writes each newline as `\n`. */
  function EscapeNewlines(s: string): (r: string)
    ensures (r == []) == (s == [])
    ensures s != [] ==> r[0] == (if s[0] == '\n' then '\\' else s[0])
    decreases |s|
  {
    if s == [] then []
    else if s[0] == '\n' then "\\n" + EscapeNewlines(s[1..])
    else [s[0]] + EscapeNewlines(s[1..])
  }

  /** A key whose newlines were escaped by the secret store is restored
      exactly, provided it had no literal `\n` of its own. */
  lemma {:induction false} UnescapeEscapeNewlines(s: string)
    requires !HasEscapedNewline(s)
    ensures UnescapeNewlines(EscapeNewlines(s)) == s
    decreases |s|
  {
    if s != [] {
      assert !HasEscapedNewline(s[1..]);
      UnescapeEscapeNewlines(s[1..]);
      var e := EscapeNewlines(s[1..]);
      if s[0] == '\n' {
        assert EscapeNewlines(s) == "\\n" + e;
        assert ("\\n" + e)[2..] == e;
      } else {
        assert EscapeNewlines(s) == [s[0]] + e;
        assert ([s[0]] + e)[1..] == e;
        if s[0] == '\\' && e != [] {
          assert s[1] != 'n';
        }
      }
    }
  }

  /** `getAuth`: both service-account variables must be set; the key's escaped
      newlines are restored. */
  function GetAuth(env: Env): (r: Result<Credentials, LookupError>)
    ensures r.Err? <==> env.serviceEmail == "" || env.privateKey == ""
    ensures r.Err? ==> r.error == ConfigError("Missing Google service account env vars")
    ensures r.Ok? ==> r.value.email == env.serviceEmail && !HasEscapedNewline(r.value.key)
    ensures r.Ok? ==> r.value.key == UnescapeNewlines(env.privateKey)
  {
    if env.serviceEmail == "" || env.privateKey == "" then
      Err(ConfigError("Missing Google service account env vars"))
    else
      Ok(Credentials(env.serviceEmail, UnescapeNewlines(env.privateKey)))
  }

  /** A private key stored with its newlines escaped reaches the credentials
      exactly as it was before the store escaped it. */
  lemma GetAuthRestoresKey(env: Env, key: string)
    requires env.serviceEmail != "" && key != "" && !HasEscapedNewline(key)
    requires env.privateKey == EscapeNewlines(key)
    ensures GetAuth(env) == Ok(Credentials(env.serviceEmail, key))
  {
    UnescapeEscapeNewlines(key);
  }

  /** The request a refresh sends, or the configuration error it throws first:
      the sheet id is checked before the credentials. */
  function RequestFor(env: Env): (r: Result<SheetRequest, LookupError>)
    ensures env.sheetsId == "" ==> r == Err(ConfigError("Missing GOOGLE_SHEETS_ID"))
    ensures env.sheetsId != "" ==> (r.Err? <==> GetAuth(env).Err?)
    ensures r.Ok? ==> r.value.spreadsheetId == env.sheetsId && r.value.spreadsheetId != ""
    ensures r.Ok? ==> r.value.range == (if env.sheetsRange == "" then DefaultRange else env.sheetsRange)
    ensures r.Ok? ==> r.value.auth == GetAuth(env).value
  {
    if env.sheetsId == "" then Err(ConfigError("Missing GOOGLE_SHEETS_ID"))
    else
      match GetAuth(env)
      case Err(e) => Err(e)
      case Ok(auth) =>
        Ok(SheetRequest(env.sheetsId, if env.sheetsRange == "" then DefaultRange else env.sheetsRange, auth))
  }

  // ---------------------------------------------------------------------------
  // Building the map

  /** Cell `i` of a row, absent when the row is shorter. */
  function Cell(row: Row, i: nat): Option<string> {
    if i < |row| then Some(row[i]) else None
  }

  /** A normalised map key: trimmed, lower case, not empty, not the header word. */
  predicate IsKey(k: string) {
    k != "" && k != "slug" && IsTrimmed(k) && IsLower(k)
  }

  /** The (key, URL) entry a row contributes, or None for a skipped row. */
  function RowEntry(row: Row): Option<(string, string)>
  {
    var s := Cell(row, 0);
    var url := Cell(row, 1);
    if !Truthy(s) || !Truthy(url) then None
    else
      var key := Lower(Trim(s.value));
      if key == "" || key == "slug" then None
      else Some((key, Trim(url.value)))
  }

  /** A row is kept exactly when both cells are present and not empty and
      the normalised slug is neither empty nor the header word; its key is
      then normalised and its value is the trimmed URL cell. */
  lemma RowEntryKept(row: Row)
    ensures RowEntry(row).Some? <==> && Truthy(Cell(row, 0)) && Truthy(Cell(row, 1))
                                     && Lower(Trim(row[0])) != "" && Lower(Trim(row[0])) != "slug"
    ensures RowEntry(row).Some? ==> IsKey(RowEntry(row).value.0)
    ensures RowEntry(row).Some? ==> RowEntry(row).value == (Lower(Trim(row[0])), Trim(row[1]))
  {
    if RowEntry(row).Some? {
      LowerKeepsTrimmed(Trim(row[0]));
      LowerIsLower(Trim(row[0]));
    }
  }

  /** What one row contributes, for each row in order. */
  function EntriesOf(rows: seq<Row>): (es: seq<Option<(string, string)>>)
    ensures |es| == |rows|
    ensures forall i :: 0 <= i < |rows| ==> es[i] == RowEntry(rows[i])
  {
    seq(|rows|, i requires 0 <= i < |rows| => RowEntry(rows[i]))
  }

  /** Applies the entries in order to an empty map with `map.set`, so a later
      entry for a key overrides an earlier one. */
  function MapOf(es: seq<Option<(string, string)>>): map<string, string>
    decreases |es|
  {
    if es == [] then map[]
    else
      var m := MapOf(es[..|es| - 1]);
      var e := es[|es| - 1];
      if e.Some? then m[e.value.0 := e.value.1] else m
  }

  /** The map the refresh loop builds from `rows`. */
  function LinkMapOf(rows: seq<Row>): map<string, string> {
    MapOf(EntriesOf(rows))
  }

  /** The rows of a response; absent `values` count as no rows. */
  function RowsOf(values: Option<seq<Row>>): (rows: seq<Row>)
    ensures values == None ==> rows == []
  {
    values.GetOr([])
  }

  /** `map.get(slug) ?? null`; the slug is used exactly as given. */
  function Lookup(m: map<string, string>, slug: string): (r: Option<string>)
    ensures r.Some? <==> slug in m
    ensures r.Some? ==> r.value == m[slug]
  {
    if slug in m then Some(m[slug]) else None
  }

  /** A key is in the map exactly when some entry carries it. */
  lemma {:induction false} MapOfHasKey(es: seq<Option<(string, string)>>, k: string)
    ensures k in MapOf(es) <==> exists i :: 0 <= i < |es| && es[i].Some? && es[i].value.0 == k
    decreases |es|
  {
    if es != [] {
      var init := es[..|es| - 1];
      MapOfHasKey(init, k);
      if exists i :: 0 <= i < |es| && es[i].Some? && es[i].value.0 == k {
        var i :| 0 <= i < |es| && es[i].Some? && es[i].value.0 == k;
        if i < |init| { assert init[i] == es[i]; }
      }
      if k in MapOf(es) && k !in MapOf(init) {
        assert es[|es| - 1].Some? && es[|es| - 1].value.0 == k;
      }
    }
  }

  /** The value stored for a key is the one carried by the last entry with that key. */
  lemma {:induction false} MapOfLastWins(es: seq<Option<(string, string)>>, i: nat)
    requires i < |es| && es[i].Some?
    requires forall j :: i < j < |es| ==> es[j].None? || es[j].value.0 != es[i].value.0
    ensures es[i].value.0 in MapOf(es) && MapOf(es)[es[i].value.0] == es[i].value.1
    decreases |es|
  {
    if i < |es| - 1 {
      var init := es[..|es| - 1];
      assert init[i] == es[i];
      forall j | i < j < |init| ensures init[j].None? || init[j].value.0 != init[i].value.0 {
        assert init[j] == es[j];
      }
      MapOfLastWins(init, i);
    }
  }

  /** Every stored value is carried, with its key, by some entry. */
  lemma {:induction false} MapOfFromEntry(es: seq<Option<(string, string)>>, k: string)
    requires k in MapOf(es)
    ensures exists i :: 0 <= i < |es| && es[i] == Some((k, MapOf(es)[k]))
    decreases |es|
  {
    var init := es[..|es| - 1];
    var e := es[|es| - 1];
    if e.Some? && e.value.0 == k {
      assert es[|es| - 1] == Some((k, MapOf(es)[k]));
    } else {
      MapOfFromEntry(init, k);
      var i :| 0 <= i < |init| && init[i] == Some((k, MapOf(init)[k]));
      assert es[i] == Some((k, MapOf(es)[k]));
    }
  }

  /** An absent entry makes no difference wherever it stands. */
  lemma {:induction false} MapOfSkipsNone(before: seq<Option<(string, string)>>, after: seq<Option<(string, string)>>)
    ensures MapOf(before + [None] + after) == MapOf(before + after)
    decreases |after|
  {
    var whole := before + [None] + after;
    if after == [] {
      assert whole[..|whole| - 1] == before;
      assert before + after == before;
    } else {
      var init := after[..|after| - 1];
      assert whole[..|whole| - 1] == before + [None] + init;
      assert (before + after)[..|before + after| - 1] == before + init;
      assert whole[|whole| - 1] == (before + after)[|before + after| - 1];
      MapOfSkipsNone(before, init);
    }
  }

  /** A key is in the built map exactly when some row contributes it. */
  lemma LinkMapHasKey(rows: seq<Row>, k: string)
    ensures k in LinkMapOf(rows) <==>
            exists i :: 0 <= i < |rows| && RowEntry(rows[i]).Some? && RowEntry(rows[i]).value.0 == k
  {
    MapOfHasKey(EntriesOf(rows), k);
  }

  /** Every key of a built map is normalised, and its URL is the trimmed URL
      cell of a row that carries that key. */
  lemma LinkMapEntries(rows: seq<Row>, k: string)
    requires k in LinkMapOf(rows)
    ensures IsKey(k)
    ensures exists i :: 0 <= i < |rows| && RowEntry(rows[i]) == Some((k, LinkMapOf(rows)[k]))
  {
    MapOfFromEntry(EntriesOf(rows), k);
    var i :| 0 <= i < |rows| && EntriesOf(rows)[i] == Some((k, LinkMapOf(rows)[k]));
    RowEntryKept(rows[i]);
  }

  /** Duplicate keys resolve to the URL of the last row that carries the key. */
  lemma LinkMapLastWins(rows: seq<Row>, i: nat)
    requires i < |rows| && RowEntry(rows[i]).Some?
    requires forall j :: i < j < |rows| ==> RowEntry(rows[j]).None? || RowEntry(rows[j]).value.0 != RowEntry(rows[i]).value.0
    ensures RowEntry(rows[i]).value.0 in LinkMapOf(rows)
    ensures LinkMapOf(rows)[RowEntry(rows[i]).value.0] == RowEntry(rows[i]).value.1
  {
    MapOfLastWins(EntriesOf(rows), i);
  }

  /** A skipped row (the header, a blank or an incomplete row) makes no
      difference wherever it stands. */
  lemma SkippedRowIrrelevant(before: seq<Row>, row: Row, after: seq<Row>)
    requires RowEntry(row).None?
    ensures LinkMapOf(before + [row] + after) == LinkMapOf(before + after)
  {
    EntriesOfAppend(before + [row], after);
    EntriesOfAppend(before, [row]);
    EntriesOfAppend(before, after);
    assert EntriesOf([row]) == [None];
    MapOfSkipsNone(EntriesOf(before), EntriesOf(after));
  }

  /** The entries of two row lists put together are the entries of each. */
  lemma EntriesOfAppend(xs: seq<Row>, ys: seq<Row>)
    ensures EntriesOf(xs + ys) == EntriesOf(xs) + EntriesOf(ys)
  {
    var l, r := EntriesOf(xs + ys), EntriesOf(xs) + EntriesOf(ys);
    forall i | 0 <= i < |l| ensures l[i] == r[i] {
      if i < |xs| {
        assert (xs + ys)[i] == xs[i];
      } else {
        assert (xs + ys)[i] == ys[i - |xs|];
      }
    }
  }

  /** The refresh loop of getLinkForSlug (the `for (const row of rows)` filling `map`). */
  method BuildLinkMap(rows: seq<Row>) returns (m: map<string, string>)
    ensures m == LinkMapOf(rows)
  {
    m := map[];
    for i := 0 to |rows|
      invariant m == LinkMapOf(rows[..i])
    {
      assert EntriesOf(rows[..i + 1])[..i] == EntriesOf(rows[..i]);
      var s := Cell(rows[i], 0);
      var url := Cell(rows[i], 1);
      if !Truthy(s) || !Truthy(url) {
        continue;
      }
      var key := Lower(Trim(s.value));
      if key == "" || key == "slug" {
        continue;
      }
      m := m[key := Trim(url.value)];
    }
    assert rows[..|rows|] == rows;
  }

  // ---------------------------------------------------------------------------
  // The cache

  /** The module-level `cache` of linkStore.ts, made an object. `fetches`
      records every request sent to the Sheets API, oldest first. */
  class LinkDirectory {
    var cache: Option<Snapshot>
    ghost var fetches: seq<SheetRequest>

    constructor ()
      ensures cache == None && fetches == []
    {
      cache := None;
      fetches := [];
    }

    /** A snapshot exists and has not reached its expiry time. */
    predicate IsFresh(now: int)
      reads this
    {
      cache.Some? && cache.value.expiresAt > now
    }

    /** `getLinkForSlug(slug)` at time `now`, where `sheet` gives what the
        Sheets API would answer to a request sent at this moment. */
    method GetLinkForSlug(slug: string, now: int, env: Env, sheet: SheetRequest -> FetchOutcome)
      returns (r: Result<Option<string>, LookupError>)
      modifies this
      // Fast path: answer from the snapshot, no fetch, nothing changes.
      ensures old(IsFresh(now)) ==>
                r == Ok(Lookup(old(cache).value.links, slug)) && cache == old(cache) && fetches == old(fetches)
      // Missing configuration: the error propagates, no fetch, the old snapshot stays.
      ensures !old(IsFresh(now)) && RequestFor(env).Err? ==>
                r == Err(RequestFor(env).error) && cache == old(cache) && fetches == old(fetches)
      // Otherwise exactly one request is sent ...
      ensures !old(IsFresh(now)) && RequestFor(env).Ok? ==> fetches == old(fetches) + [RequestFor(env).value]
      // ... a failed request propagates and leaves the old snapshot in place ...
      ensures !old(IsFresh(now)) && RequestFor(env).Ok? && sheet(RequestFor(env).value).FetchFailed? ==>
                r == Err(SourceFetchError(sheet(RequestFor(env).value).reason)) && cache == old(cache)
      // ... and a successful one replaces the snapshot wholesale for 60 s and answers from it.
      ensures !old(IsFresh(now)) && RequestFor(env).Ok? && sheet(RequestFor(env).value).Fetched? ==>
                && cache == Some(Snapshot(LinkMapOf(RowsOf(sheet(RequestFor(env).value).values)), now + CacheTtlMs))
                && r == Ok(Lookup(cache.value.links, slug))
    {
      if cache.Some? && cache.value.expiresAt > now {
        return Ok(Lookup(cache.value.links, slug));
      }
      if env.sheetsId == "" {
        return Err(ConfigError("Missing GOOGLE_SHEETS_ID"));
      }
      var auth := GetAuth(env);
      if auth.Err? {
        return Err(auth.error);
      }
      var range := if env.sheetsRange == "" then DefaultRange else env.sheetsRange;
      var request := SheetRequest(env.sheetsId, range, auth.value);
      fetches := fetches + [request];
      var resp := sheet(request);
      if resp.FetchFailed? {
        return Err(SourceFetchError(resp.reason));
      }
      var links := BuildLinkMap(RowsOf(resp.values));
      cache := Some(Snapshot(links, now + CacheTtlMs));
      return Ok(Lookup(links, slug));
    }
  }

  /** Two lookups in a row: a refresh at `t0` and a second lookup, for any
      slug, before `t0 + 60 s`. The second is answered from the refreshed map,
      whatever the sheet holds by then, without a second request. */
  method LookupWithinWindow(dir: LinkDirectory, slug: string, slug2: string, t0: int, t1: int,
                            env: Env, sheet0: SheetRequest -> FetchOutcome, sheet1: SheetRequest -> FetchOutcome)
    returns (first: Result<Option<string>, LookupError>, second: Result<Option<string>, LookupError>)
    requires !dir.IsFresh(t0) && t0 <= t1 < t0 + CacheTtlMs
    modifies dir
    ensures first.Ok? ==> |dir.fetches| == |old(dir.fetches)| + 1
    // Both answers come from the map built from the sheet as the first request saw it.
    ensures first.Ok? ==> RequestFor(env).Ok? && sheet0(RequestFor(env).value).Fetched?
    ensures first.Ok? ==>
              && first == Ok(Lookup(LinkMapOf(RowsOf(sheet0(RequestFor(env).value).values)), slug))
              && second == Ok(Lookup(LinkMapOf(RowsOf(sheet0(RequestFor(env).value).values)), slug2))
    ensures first.Ok? && slug2 == slug ==> second == first
  {
    first := dir.GetLinkForSlug(slug, t0, env, sheet0);
    second := dir.GetLinkForSlug(slug2, t1, env, sheet1);
  }

  /** A lookup at or after the expiry of a snapshot sends exactly one new
      request (when configured), even though a snapshot exists. */
  method LookupAfterExpiry(dir: LinkDirectory, slug: string, now: int, env: Env, sheet: SheetRequest -> FetchOutcome)
    returns (r: Result<Option<string>, LookupError>)
    requires dir.cache.Some? && now >= dir.cache.value.expiresAt
    requires RequestFor(env).Ok?
    modifies dir
    ensures dir.fetches == old(dir.fetches) + [RequestFor(env).value]
  {
    r := dir.GetLinkForSlug(slug, now, env, sheet);
  }
}
