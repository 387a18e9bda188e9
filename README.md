# A verified model of the portfolio site's core logic

This project models, in Dafny, the logic at the heart of the portfolio
website delesslingw/portfolio (Next.js and Node scripts), and proves
properties of that model. It covers six parts:

- **Short-link store** (`src/lib/linkStore.ts`). `getLinkForSlug` answers
  from an in-memory snapshot of a Google Sheet (slug → URL) while the
  snapshot is less than 60 s old. Otherwise it checks its configuration,
  sends one Sheets request, rebuilds the map row by row and replaces the
  snapshot. `getAuth` checks the service-account variables and restores the
  escaped newlines in the private key. The cache becomes a class
  `LinkDirectory` with a `cache` field, and the row loop becomes a `method`
  with loop invariants, proved equal to a fold (`LinkMapOf`).
- **Request filter** (`src/proxy.ts`). It decides between an internal
  rewrite `/<slug>.png` → `/qr/<slug>` and passing the request through.
- **Colour codec** (`src/lib/forceLightBackground.ts`). It covers `clamp`,
  `hexToRgb` and `rgbToHex`.
- **Contact endpoint** (`src/app/api/contact/route.tsx`). `isValidEmail`
  and the chain of checks in `POST`, in source order: the honeypot, the
  required fields, the address, the length and the configuration. Then the
  one email sent and the mail service's answer.
- **Song scaffolding** (`scripts/new-song.mjs`). It covers:
  - `yamlEscape`;
  - the CSV list normaliser;
  - `buildStreamingLinks`, with its loop over the extra `Label=URL` items
    as a method;
  - the two YAML list renderers;
  - the front matter and markdown body of a new song, and the exit when
    the slug or the name is missing.
- **Project records** (`src/lib/projects.ts`). It covers:
  - `filterArray`;
  - the `.md` file name → slug rule;
  - the record built for each file: defaults, `mediaRoot` prefixes, and
    the failure when `filterArray` throws;
  - an unreadable directory giving no projects.

The environment (unset variables are `""`), the clock (`now`), the Sheets
API, the mail service and the file system are all parameters: a value, or
a function from request to answer.

The files are:

| file | module |
|---|---|
| `wrappers.dfy` | `Wrappers`: Option and Result |
| `text.dfy` | `Text`: JavaScript's `trim`, ASCII `toLowerCase`, `split`/`join`, `String(x ?? '')` |
| `link_store.dfy` | `LinkStore` |
| `proxy.dfy` | `Proxy` |
| `color.dfy` | `Color` |
| `contact.dfy` | `Contact` |
| `song.dfy` | `Song` |
| `projects.dfy` | `Projects` |

## Model

| member | source | states |
|---|---|---|
| LinkStore.UnescapeNewlines | src/lib/linkStore.ts:67 | The result is empty only for an empty key. Its first character is a line feed when the key starts with the two characters `\n` or with a line feed; otherwise it is the key's first character. No `\n` pair is left anywhere in it. |
| LinkStore.UnescapeEscapeNewlines | src/lib/linkStore.ts:60-67 | A PEM key whose line feeds a secret store wrote as `\n` is restored exactly, provided the key held no literal `\n` pair of its own. |
| LinkStore.GetAuth | src/lib/linkStore.ts:52-67 | Fails with "Missing Google service account env vars" exactly when the email or the key is unset. Otherwise it passes the email through, and the key is the stored key with every `\n` pair turned into a newline, so no escaped newline is left. |
| LinkStore.GetAuthRestoresKey | src/lib/linkStore.ts:52-67 | A key stored with its newlines escaped reaches the credentials exactly as it was before escaping, provided it had no literal `\n` pair of its own. |
| LinkStore.RequestFor | src/lib/linkStore.ts:117-139 | A missing sheet id fails first, with "Missing GOOGLE_SHEETS_ID". Otherwise it fails exactly when `getAuth` does. The request carries the id, the credentials `getAuth` returns, and the range, which defaults to `Links!A:B`. |
| LinkStore.RowEntry | src/lib/linkStore.ts:155-163 | The entry one row contributes, if any. `RowEntryKept` specifies it. |
| LinkStore.RowEntryKept | src/lib/linkStore.ts:155-163 | A row contributes an entry exactly when both cells are present and non-empty and the trimmed, lower-cased slug is neither empty nor `slug`. The entry is (lower(trim(slug)), trim(url)). |
| LinkStore.RowsOf | src/lib/linkStore.ts:141 | A response without `values` has no rows. |
| LinkStore.Lookup | src/lib/linkStore.ts:102 | `map.get(slug) ?? null`: a value exactly when the slug, as given, is a key, and then the stored URL. |
| LinkStore.MapOfHasKey | src/lib/linkStore.ts:142-164 | A key is in the map built by successive `map.set` calls exactly when some entry carries it. |
| LinkStore.MapOfLastWins | src/lib/linkStore.ts:163 | The value stored for a key is the one from the last entry that carries it. |
| LinkStore.MapOfFromEntry | src/lib/linkStore.ts:163 | Every stored (key, value) pair comes from some entry. |
| LinkStore.MapOfSkipsNone | src/lib/linkStore.ts:158-161 | A skipped entry makes no difference, wherever it stands. |
| LinkStore.LinkMapOf | src/lib/linkStore.ts:142-164 | The map the rows build. `LinkMapHasKey`, `LinkMapEntries` and `LinkMapLastWins` specify it, and `BuildLinkMap` is its loop. |
| LinkStore.LinkMapHasKey | src/lib/linkStore.ts:155-164 | A key is in the built map exactly when some row contributes it. |
| LinkStore.LinkMapEntries | src/lib/linkStore.ts:160-163 | Every key of the built map is normalised, and its URL comes trimmed from a row carrying that key. |
| LinkStore.LinkMapLastWins | src/lib/linkStore.ts:163 | When rows repeat a slug, the last such row's URL wins. |
| LinkStore.SkippedRowIrrelevant | src/lib/linkStore.ts:158-161 | Removing a header row, a blank row or an incomplete row leaves the built map unchanged. |
| LinkStore.BuildLinkMap | src/lib/linkStore.ts:142-164 | The row loop builds exactly `LinkMapOf(rows)`, the fold that the lemmas above describe. |
| LinkStore.LinkDirectory.constructor | src/lib/linkStore.ts:37 | The store starts with no snapshot and has sent no request. |
| LinkStore.LinkDirectory.IsFresh | src/lib/linkStore.ts:101 | The fast-path test: a snapshot exists and its expiry is still ahead of `now`. `GetLinkForSlug` and `LookupAfterExpiry` state what each outcome of it does. |
| LinkStore.LinkDirectory.GetLinkForSlug | src/lib/linkStore.ts:94-184 | A fresh snapshot answers with no request and no change. A configuration error propagates with no request, and the old snapshot stays. Otherwise exactly one request is sent. A failed request propagates and keeps the old snapshot. A successful one replaces the snapshot with the map of the returned rows, valid until now + 60000 ms, and answers from it. |
| LinkStore.LinkDirectory.LookupWithinWindow | src/lib/linkStore.ts:101-103 | After a successful refresh at t0, a second lookup for any slug before t0 + 60000 sends no request. Both answers are lookups in the one map built from the rows the first request returned, whatever the sheet holds at the second lookup. The same slug gives the same answer. |
| LinkStore.LinkDirectory.LookupAfterExpiry | src/lib/linkStore.ts:101-139 | A lookup at or after the snapshot's expiry sends exactly one new request. |
| Proxy.TokenSpan | src/proxy.ts:9 | The greedy run of `[a-z0-9-_]` (case-insensitive) at the start of a string: every character in it is a token character, and the next one is not. |
| Proxy.MatchPngPath | src/proxy.ts:9 | A match captures a non-empty token, and the path is exactly `/`, the token, and `.png` in any letter case. |
| Proxy.MatchPngPathComplete | src/proxy.ts:9 | Every path of that shape matches and captures its token. Together with `MatchPngPath`, this means the matcher accepts exactly the regular expression's language. |
| Proxy.Filter | src/proxy.ts:5-22 | Passes the request through exactly when the path does not match. Otherwise it rewrites to the same URL with the path `/qr/` + lower(token). |
| Proxy.RewriteTarget | src/proxy.ts:12-18 | A rewrite keeps the origin, query and fragment. Its path is `/qr/` followed by a non-empty run of `[a-z0-9_-]`. |
| Proxy.QrPathNeverMatches | src/proxy.ts:9-16 | No `/qr/...` path matches the pattern. |
| Proxy.RewriteIsFinal | src/proxy.ts:9-21 | Filtering a rewritten URL again passes it through. |
| Color.Clamp | src/lib/forceLightBackground.ts:1-3 | For min <= max the result lies between them and equals n when n does. For min > max the result is max. |
| Color.StripFirstHash | src/lib/forceLightBackground.ts:6 | `replace('#', '')` removes one `#` when there is one, and otherwise changes nothing. |
| Color.StripFirstHashRemovesFirst | src/lib/forceLightBackground.ts:6 | When there is a `#`, the first one is removed and every other character is kept, in order. |
| Color.Expand | src/lib/forceLightBackground.ts:7-13 | Three characters are doubled one by one; any other length is kept. |
| Color.Unpack | src/lib/forceLightBackground.ts:16-18 | Every component is a byte. |
| Color.ParseHex | src/lib/forceLightBackground.ts:14 | `parseInt(full, 16)` of a hex string. `ParseSixDigits` and `ParseEncoded` specify it. |
| Color.ParseSixDigits | src/lib/forceLightBackground.ts:14 | `parseInt` of six hex digits is the three two-digit bytes, packed most significant first. |
| Color.UnpackBytes | src/lib/forceLightBackground.ts:16-18 | The shifts and masks recover three packed bytes. |
| Color.HexToRgb | src/lib/forceLightBackground.ts:5-20 | For 3- or 6-digit colours, with or without `#`, every component is a byte. |
| Color.HexToRgbBytes | src/lib/forceLightBackground.ts:5-20 | The components are the three bytes that the six-digit form spells. |
| Color.ToHex | src/lib/forceLightBackground.ts:23 | `toString(16)` is one lower-case digit below 16 and two digits below 256. |
| Color.To2 | src/lib/forceLightBackground.ts:23 | A byte is written as exactly two lower-case digits (`padStart(2, '0')`). |
| Color.To2Reads | src/lib/forceLightBackground.ts:23 | Those two digits read back as the byte. |
| Color.RgbToHex | src/lib/forceLightBackground.ts:22-25 | For bytes, the result is `#` and six lower-case hex digits. |
| Color.DecodeEncode | src/lib/forceLightBackground.ts:5-25 | `hexToRgb(rgbToHex(r, g, b))` gives (r, g, b) back for every byte triple. |
| Color.EncodeDecode | src/lib/forceLightBackground.ts:5-25 | `rgbToHex` of a decoded colour is `#` and the lower-cased six-digit form of the input. |
| Color.ParseEncoded | src/lib/forceLightBackground.ts:5-25 | The six digits `rgbToHex` writes for three bytes are hexadecimal digits whose value is the three bytes packed high to low. |
| Color.ShortFormExpands | src/lib/forceLightBackground.ts:7-13 | A 3-digit colour decodes like its doubled 6-digit form. |
| Color.HashIsOptional | src/lib/forceLightBackground.ts:6 | A leading `#` does not change the decoded colour. |
| Contact.IsValidEmail | src/app/api/contact/route.tsx:8-10 | The address test. `IsValidEmailMatchesShape` proves that it accepts exactly the language of the regular expression. |
| Contact.ValidEmailHasShape | src/app/api/contact/route.tsx:8-10 | Every accepted address is a run, `@`, a run, `.`, a run, where each run is non-empty and free of whitespace and `@`. |
| Contact.ShapeIsValidEmail | src/app/api/contact/route.tsx:8-10 | Every string of that shape is accepted. |
| Contact.IsValidEmailMatchesShape | src/app/api/contact/route.tsx:9 | Both directions together: `isValidEmail` accepts exactly the language of `/^[^\s@]+@[^\s@]+\.[^\s@]+$/`. |
| Contact.Field | src/app/api/contact/route.tsx:16-21 | `String(body?.x ?? '').trim()`. Each field is coerced and trimmed before any check, and `Validate` states every check on these values. |
| Contact.Validate | src/app/api/contact/route.tsx:16-44 | A request passes exactly when the honeypot is empty, every field is present, the address has the shape, and the message has at most 5000 UTF-16 units. A filled honeypot is answered 200 before anything else. With the honeypot empty, a blank field gives 400 "Missing required fields."; otherwise a malformed address gives 400 "Invalid email address."; otherwise a message over the limit gives 400 "Message is too long.". Each of the last two is reached only past the earlier checks. |
| Contact.Compose | src/app/api/contact/route.tsx:56-63 | The email goes from the configured sender to the submitter. It is blind-copied to the owner, and replies go to the submitter. |
| Contact.ComposedText | src/app/api/contact/route.tsx:56-75 | The subject begins by thanking the sender by name. The text begins `Hi <name>`, holds the message on lines of its own between two rules of twenty dashes, and ends with the signature. |
| Contact.Post | src/app/api/contact/route.tsx:12-85 | A body that does not parse gives 400 "Invalid request.". An early answer of the input checks is the response, and nothing is sent. Good input without the API key, sender or BCC address gives 500 "Server is not configured.", and nothing is sent. Otherwise one email goes out, to the submitted (trimmed) address, from the configured sender, blind-copied to the owner. A 500 means the input was good. The mail service's answer decides the final response: 200, 502 with its message, or 400 when it throws. |
| Song.YamlEscape | scripts/new-song.mjs:18-22 | The result is quoted and holds no line feed. A missing value is `""`. |
| Song.EscapeBackslashes | scripts/new-song.mjs:21 | The first `replace` of `yamlEscape`: each backslash doubled. `EscapeTextCons` and `UnescapeEscapeText` specify the chain it starts. |
| Song.EscapeQuotes | scripts/new-song.mjs:21 | The second `replace`: each double quote preceded by a backslash. `EscapeQuotesConcat` specifies it over concatenation. |
| Song.EscapeLineBreaks | scripts/new-song.mjs:21 | No line feed is left after `\r?\n` is replaced by `\n`. |
| Song.EscapeText | scripts/new-song.mjs:21 | The whole replace chain, with no line feed left. `UnescapeEscapeText` shows a YAML double-quoted reader reads it back as its input when it has no carriage return. |
| Song.EscapeQuotesConcat | scripts/new-song.mjs:21 | The quote pass works piece by piece. |
| Song.EscapeLineBreaksConcat | scripts/new-song.mjs:21 | The line-break pass works piece by piece when the first piece has no carriage return. |
| Song.EscapeTextCons | scripts/new-song.mjs:21 | Without carriage returns, the three replace passes escape character by character. |
| Song.UnescapeEscapeText | scripts/new-song.mjs:18-22 | Reading a quoted string the way a YAML double-quoted scalar is read gives back the original string, when it holds no carriage return. |
| Song.NormalizeListFromCsv | scripts/new-song.mjs:24-31 | Blank input gives `[]`. Every item is non-empty, trimmed and free of commas. |
| Song.NormalizeListPieces | scripts/new-song.mjs:24-31 | The list is, one for one and in input order, the trimmed comma pieces of the trimmed answer that are not empty. |
| Song.NonEmptyKeeps | scripts/new-song.mjs:30 | `filter(Boolean)` keeps only items that were there. |
| Song.NonEmptyOfNonEmpty | scripts/new-song.mjs:30 | `filter(Boolean)` keeps a list of non-empty items whole. |
| Song.NormalizeJoin | scripts/new-song.mjs:24-31 | Joining clean items with commas and normalising gives the items back. |
| Song.TrimAllTrimmed | scripts/new-song.mjs:29 | Trimming trimmed items changes nothing. |
| Song.TruthyAt | scripts/new-song.mjs:41-44 | The positions of the given URLs, strictly increasing, and all of them. |
| Song.PresentIndexed | scripts/new-song.mjs:41-44 | The pushed links are, in order, (title, url) for exactly the given URLs. |
| Song.ServiceLinksIndexed | scripts/new-song.mjs:41-44 | A service gets a link exactly when its URL is truthy, in the order Spotify, Apple Music, YouTube, Bandcamp. |
| Song.ServiceLinksUnfold | scripts/new-song.mjs:40-44 | The service links are the four conditional pushes, in order. |
| Song.ParseExtra | scripts/new-song.mjs:49-53 | One `Label=URL` item. `ParseExtraOfPair` and `ParseExtraWellFormed` specify it. |
| Song.ParseExtraOfPair | scripts/new-song.mjs:48-54 | Every clean `Label=URL` item is parsed into that link. |
| Song.ParseExtraWellFormed | scripts/new-song.mjs:49-53 | A parsed extra link has a non-empty, trimmed label without `=` and a non-empty, trimmed URL. |
| Song.KeptSnoc | scripts/new-song.mjs:48-55 | One more loop iteration adds at most the one parsed item. |
| Song.KeptFrom | scripts/new-song.mjs:48-55 | There are no more links than items, and every link comes from some item. |
| Song.ExtraLinksWellFormed | scripts/new-song.mjs:46-55 | There are at most as many extra links as items, and each is well-formed. |
| Song.KeptAll | scripts/new-song.mjs:48-55 | When every item parses, the loop keeps all their values, in order. |
| Song.KeptPairs | scripts/new-song.mjs:48-55 | Items written `title=url` from well-formed links parse back to exactly those links. |
| Song.ExtraLinksRoundTrip | scripts/new-song.mjs:46-55 | An `other` answer written `Label=URL, Label=URL, ...` from well-formed links without commas gives back exactly those links, in order. |
| Song.StreamingLinks | scripts/new-song.mjs:33-57 | The service links followed by the extra links. `BuildStreamingLinks` is its loop, and `ServiceLinksIndexed` and `ExtraLinksRoundTrip` specify its parts. |
| Song.BuildStreamingLinks | scripts/new-song.mjs:33-57 | The links are the service links followed by the links parsed from the extra items, in order. |
| Song.PushParsed | scripts/new-song.mjs:48-55 | The loop appends to the list exactly the items that parse, in order. |
| Song.RenderYamlListOfStrings | scripts/new-song.mjs:59-62 | The rendered string list. `ItemLines` and `RenderedListLines` specify it, and `ItemLinesFree` shows no item breaks a line. |
| Song.ItemLines | scripts/new-song.mjs:59-62 | An empty list is the one line `indent + "[]"`. Otherwise there is one line per item. |
| Song.RenderedListLines | scripts/new-song.mjs:59-62 | The rendered text is those lines. Each line is indent, `- `, and the quoted escaped item. For items without a carriage return, that escaped text reads back as the item. |
| Song.ItemLinesFree | scripts/new-song.mjs:59-62 | No item can add a line of its own. |
| Song.RenderYamlLinks | scripts/new-song.mjs:64-72 | The rendered link list. `LinkLines`, `RenderedLinkLines` and `JoinLinkEntries` specify it, and `LinkLinesFree` shows no link breaks a line. |
| Song.LinkLines | scripts/new-song.mjs:64-72 | An empty list is `indent + "[]"`. Otherwise each link gives two lines: `- label:` and `  url:`. |
| Song.JoinLinkEntries | scripts/new-song.mjs:66-71 | Joining the per-link entries is joining their lines. |
| Song.RenderedLinkLines | scripts/new-song.mjs:64-72 | The rendered text is those lines. |
| Song.LinkLinesFree | scripts/new-song.mjs:64-72 | No title or URL can add a line of its own. |
| Song.AudioFilesOf | scripts/new-song.mjs:220-248 | The audio files are listed only in the `files` and `both` modes, and otherwise the list is empty. It places the list in `FrontMatterLines`, which `FrontMatterSplits` shows are the lines of the file. |
| Song.AudioLinksOf | scripts/new-song.mjs:221-250 | The audio links are listed only in the `links` and `both` modes, and otherwise the list is empty. It places the list in `FrontMatterLines`, which `FrontMatterSplits` shows are the lines of the file. |
| Song.ImageFilesOf | scripts/new-song.mjs:222 | The image files are listed only when an image was asked for. It places the list in `FrontMatterLines`, which `FrontMatterSplits` shows are the lines of the file. |
| Song.HeadLines | scripts/new-song.mjs:234-243 | The template's opening lines, from `---` to `streamingLinks:`. Together with `MidFiles`, `MidLinks` and `MidImages` (lines 245-252) they are the fixed lines. `HeadLinesFree` and `FrontMatterSplits` specify them. |
| Song.TailLines | scripts/new-song.mjs:254-256 | The closing `---`, a blank line, and `# <name>`. `TailLinesFree` specifies them. |
| Song.FrontMatter | scripts/new-song.mjs:234-257 | The front matter. `FrontMatterIsLines`, `FrontMatterSplits` and `FrontMatterLinesFree` specify it. |
| Song.FrontMatterIsLines | scripts/new-song.mjs:234-257 | The front matter is the sequence of lines of `FrontMatterLines`, each followed by a line feed. |
| Song.FrontMatterSplits | scripts/new-song.mjs:234-257 | When the name has no line feed, splitting the front matter at line feeds gives exactly the template's lines: the header, the escaped scalars, `mediaRoot` `/songs/<slug>/`, the streaming links, the audio files, links and images in their indents, the closing `---` and the `# name` title. |
| Song.FrontMatterLinesFree | scripts/new-song.mjs:234-257 | Under the same condition, no line of the front matter holds a line feed. |
| Song.HeadLinesFree | scripts/new-song.mjs:234-243 | The scalar lines cannot break. |
| Song.TailLinesFree | scripts/new-song.mjs:254-256 | The title line of a name without line feeds cannot break. |
| Song.HasText | scripts/new-song.mjs:262-266 | `x && String(x).trim()`: the answer is present and not blank. `BodyParts` states its effect. |
| Song.Section | scripts/new-song.mjs:262-268 | A `## <title>` heading, a blank line and the trimmed text. `BodyParts` states when each section appears. |
| Song.BodyParts | scripts/new-song.mjs:260-268 | There is one part per answer, lyrics or credits, that has text once trimmed. Lyrics come first and credits last, each holding its text trimmed. |
| Song.Body | scripts/new-song.mjs:270 | The text after the front matter. `BodyCases` and `BodyOfTwo` specify it. |
| Song.BodyCases | scripts/new-song.mjs:262-270 | The body is a lone line feed without sections. With sections, it is a line feed and the sections separated by line feeds. |
| Song.BodyOfTwo | scripts/new-song.mjs:270 | Two parts are joined by one line feed. |
| Song.SongMarkdown | scripts/new-song.mjs:213-270 | There is no file exactly when the slug or the name is falsy. Otherwise the file is the whole front matter followed by the body of the non-empty Lyrics and Credits sections (see `BodyParts` and `BodyCases`). |
| Song.MarkdownFileName | scripts/new-song.mjs:213-216 | The file is `<slug>.md` exactly when a file is written. |
| Projects.Get | src/lib/projects.ts:39-44 | A missing key reads as `undefined`. |
| Projects.NonEmptyStrings | src/lib/projects.ts:60 | There are no more results than entries, and every result is non-empty. |
| Projects.NonEmptyStringsAppend | src/lib/projects.ts:60 | Filtering two arrays put together gives the kept items of each, in order. |
| Projects.NonEmptyStringsSingle | src/lib/projects.ts:60 | A single entry is kept, as its string, exactly when it is a non-empty string. Together with the lemma above, this fixes the filter's result. |
| Projects.NonEmptyStringsMembers | src/lib/projects.ts:60 | A string is kept exactly when it is non-empty and some entry holds it. |
| Projects.FilterArray | src/lib/projects.ts:54-61 | `undefined`, `null`, numbers, dates and mappings throw. A string gives `[]` when empty and throws otherwise. An array gives its non-empty string entries, in order. |
| Projects.SlugOf | src/lib/projects.ts:31 | The slug followed by `.md` is the file name. |
| Projects.IsMarkdown | src/lib/projects.ts:25 | `f.endsWith(".md")`. `SlugOf` and `MarkdownFilesMembers` specify its use. |
| Projects.MarkdownFiles | src/lib/projects.ts:25 | Every kept entry ends in `.md`. |
| Projects.MarkdownFilesMembers | src/lib/projects.ts:25 | An entry is kept exactly when it ends in `.md`. |
| Projects.MarkdownFilesAppend | src/lib/projects.ts:25 | The listing order is kept. |
| Projects.OrEmpty | src/lib/projects.ts:41-42 | `undefined` and `null` become `""`. Anything else is kept. |
| Projects.Prefixed | src/lib/projects.ts:43-44 | The strings are `root + entry`, one per entry, in order. |
| Projects.Stringify | src/lib/projects.ts:43-44 | `${data.mediaRoot}` as a template literal writes it: `undefined`, `null`, the string, or an array's elements joined by commas. `ProjectOf` uses it for the media prefix. |
| Projects.MediaList | src/lib/projects.ts:43-44 | The mediaRoot-prefixed media list. Its result appears in the `ProjectOf` contract. |
| Projects.ProjectOf | src/lib/projects.ts:30-46 | The record names its file and passes title, dates and HTML through. A missing location or description defaults to `""`. Its media are `mediaRoot` + each kept entry, same count and order. It fails exactly when `filterArray` throws for images or audio, so it fails when `images` is missing. |
| Projects.AllProjects | src/lib/projects.ts:29-48 | There is one record per file, in order, each named after its file. It fails exactly when some file cannot be read or its record fails. `AllProjectsRecords` gives the records' contents. |
| Projects.AllProjectsRecords | src/lib/projects.ts:29-48 | On success, record i is, field for field, the record built from file i, and file i was read. |
| Projects.SomeFileFailsAt | src/lib/projects.ts:29-48 | A directory's records fail exactly when there is a file, at some position, that cannot be read or whose record fails. |
| Projects.GetAllProjects | src/lib/projects.ts:22-52 | A directory that cannot be read gives `[]`. Otherwise the result is what `AllProjects` gives for its `.md` entries, in listing order. |
| Projects.GetAllProjectsRecords | src/lib/projects.ts:22-52 | On success, the projects are, one for one and in listing order, the records built from the directory's `.md` entries. |
| Projects.GetAllProjectsSlugs | src/lib/projects.ts:22-52 | On success, the `.md` entries of the directory are exactly the files named by the projects. |
| Text.Lower | src/proxy.ts:12 | `toLowerCase` on ASCII: same length, each character mapped by `LowerChar`. `LowerIsLower` shows the result has no capitals. |
| Text.Coerce | scripts/new-song.mjs:20 | `String(v ?? '')`: a missing value is the empty string, and a present one is kept. |
| Text.IndexOf | scripts/new-song.mjs:49 | `indexOf`: the first position of the character, or the length when it is absent. |
| Text.Join | scripts/new-song.mjs:61 | `join(sep)`. `SplitJoin`, `JoinAppend` and `JoinLines` specify it. |
| Text.TrimAll | scripts/new-song.mjs:29 | `map((s) => s.trim())`: one trimmed element per element. |
| Text.NonEmpty | scripts/new-song.mjs:30 | `filter(Boolean)` on strings. `NonEmptyAt`, `NonEmptyIndexed`, `NonEmptyAppend` and `NonEmptySingle` specify it. |
| Text.Utf16Length | src/app/api/contact/route.tsx:39 | `message.length`: UTF-16 code units, at least one and at most two per character. |
| Text.Trim | scripts/new-song.mjs:25 | The result is trimmed, no longer than the input, and empty exactly when the input is all whitespace. |
| Text.TrimRemovesEnds | scripts/new-song.mjs:25 | `trim` keeps a contiguous part of its input, removing only whitespace before and after it. |
| Text.NonEmptyAt | scripts/new-song.mjs:30 | The positions of the non-empty items, increasing, and exactly those. |
| Text.NonEmptyIndexed | scripts/new-song.mjs:30 | `filter(Boolean)` keeps, one for one and in order, the items at those positions. |
| Text.NonEmptyAppend | scripts/new-song.mjs:30 | The filter distributes over concatenation. |
| Text.NonEmptySingle | scripts/new-song.mjs:30 | A single item is kept exactly when it is non-empty. |
| Text.Split | scripts/new-song.mjs:28 | There is at least one piece, no piece holds the separator, and joining the pieces gives the input back. |
| Text.SplitJoin | scripts/new-song.mjs:28 | Splitting a join of separator-free pieces at the separator gives the pieces back. |
| Text.TrimIdempotent | scripts/new-song.mjs:25 | Trimming a trimmed string changes nothing. |

## Left out

- `rgbToHsl`, `hslToRgb` and the other floating-point colour code of `forceLightBackground.ts` are left out. `clamp` is modelled on reals.
- Color.HexToRgb: it requires a 3- or 6-digit colour. A colour that `validateColorParam` accepts is `#` and 3 or 6 hex digits. The palette of `@/lib/colors`, its other source, is not part of this model and is assumed to hold 3- or 6-digit codes. `parseInt` of other strings is not modelled, and neither is its `NaN`.
- Color.RgbToHex: the bytes contract covers integers 0..255. `toString(16)` of fractional numbers is not modelled.
- Google authentication (the JWT client), the Sheets API, the Resend client and the file system are function parameters or values. Their internals are not modelled.
- LinkStore.LinkDirectory.GetLinkForSlug: concurrent lookups that overlap during a refresh are not modelled. Calls are sequential.
- `toLowerCase` is ASCII-only. Non-ASCII capitals in sheet slugs are left unchanged rather than lower-cased.
- Contact.Post: only string or absent JSON fields are modelled. `String()` of numbers, objects and arrays in the body is not.
- The prompts of `new-song.mjs` (lines 74-211) and their validation are left out. Their answers are the input `SongAnswers`.
- The directory creation, the copying of example assets and the writing of the file by `new-song.mjs` (lines 272 onward) are file-system I/O. They are left out.
- `process.exit(1)` is the `None` result of `SongMarkdown`.
- Song.PushParsed: the loop of `buildStreamingLinks` takes its item parser as a parameter, and `BuildStreamingLinks` passes `ParseExtra`. The `label` field of a link is named `title`, because `label` is a Dafny keyword.
- Song.UnescapeEscapeText: the read-back holds for strings without carriage returns. A lone `\r` is written as-is, and a YAML reader folds it.
- Song.FrontMatterSplits: the line structure is proved for names without line feeds. The other answers are escaped and cannot break a line.
- Gray-matter's front-matter parsing and the remark markdown-to-HTML conversion are left out. A parsed file is its front-matter map and the HTML of its body.
- Proxy.Filter: the `config.matcher` of `proxy.ts` (lines 25-27), which keeps Next's internals and a few static paths away from the proxy, is not modelled. `Filter` is the proxy function itself. It therefore also rewrites paths the matcher keeps away, such as `/_next.png` or `/faviconXico.png`, whose dots the matcher reads as any character.
- `console.log` calls are left out.
- Projects.FilterArray: a mapping that has a `length` key of 0 would give `[]` in JavaScript. The model treats every mapping as throwing.
- Projects.AllProjects: `Promise.all` rejects with whichever failure happens first. The model reports the first failing file in listing order.
