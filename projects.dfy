/** The record derivation of src/lib/projects.ts: `filterArray`, the `.md`
    file name to slug rule, and the project record `getAllProjects` builds
    for each file from its parsed front matter. */
module Projects {
  import opened Wrappers
  import opened Text

  /** A value the front-matter parser can produce, as JavaScript sees it. */
  datatype Yaml =
    | Undefined                // a key the front matter does not have
    | Null                     // `key:` with no value, or `~`
    | Str(s: string)
    | Scalar(text: string)     // a number, boolean or date, held as `String(value)`
    | List(items: seq<Yaml>)
    | Object                   // a mapping

  /** The front matter of a file, keyed by name. */
  type FrontData = map<string, Yaml>

  /** `data.key`: a missing key reads as `undefined`. */
  function Get(data: FrontData, key: string): (v: Yaml)
    ensures key !in data ==> v == Undefined
    ensures key in data ==> v == data[key]
  {
    if key in data then data[key] else Undefined
  }

  /** `String(v)`, as a template literal writes it. An array writes its
      elements separated by commas, `null` and `undefined` ones as nothing. */
  function Stringify(v: Yaml): string
    decreases v, 0
  {
    match v
    case Undefined => "undefined"
    case Null => "null"
    case Str(s) => s
    case Scalar(t) => t
    case List(items) => Join(seq(|items|, i requires 0 <= i < |items| => Element(items[i])), ",")
    case Object => "[object Object]"
  }

  /** One element of an array written by `Array.prototype.toString`. */
  function Element(v: Yaml): string
    decreases v, 1
  {
    if v.Undefined? || v.Null? then "" else Stringify(v)
  }

  /** Whether `filterArray` keeps an array entry: a non-empty string. */
  predicate IsKept(v: Yaml) {
    v.Str? && v.s != ""
  }

  /** `arr.filter(entry => typeof entry === "string" && entry.length > 0)`. */
  function NonEmptyStrings(items: seq<Yaml>): (r: seq<string>)
    ensures |r| <= |items|
    ensures forall i :: 0 <= i < |r| ==> r[i] != ""
  {
    if items == [] then []
    else (if IsKept(items[0]) then [items[0].s] else []) + NonEmptyStrings(items[1..])
  }

  /** The kept strings of two arrays put together are the kept strings of
      each, in order. */
  lemma {:induction false} NonEmptyStringsAppend(xs: seq<Yaml>, ys: seq<Yaml>)
    ensures NonEmptyStrings(xs + ys) == NonEmptyStrings(xs) + NonEmptyStrings(ys)
    decreases |xs|
  {
    if xs == [] {
      assert xs + ys == ys;
    } else {
      assert (xs + ys)[0] == xs[0];
      assert (xs + ys)[1..] == xs[1..] + ys;
      NonEmptyStringsAppend(xs[1..], ys);
    }
  }

  /** A single entry is kept, as its string, exactly when it is a non-empty
      string. */
  lemma NonEmptyStringsSingle(v: Yaml)
    ensures IsKept(v) ==> NonEmptyStrings([v]) == [v.s]
    ensures !IsKept(v) ==> NonEmptyStrings([v]) == []
  {
    assert [v][1..] == [];
  }

  /** A string is in the result exactly when a non-empty string entry
      holds it. */
  lemma {:induction false} NonEmptyStringsMembers(items: seq<Yaml>, x: string)
    ensures x in NonEmptyStrings(items) <==> x != "" && Str(x) in items
    decreases |items|
  {
    if items != [] {
      NonEmptyStringsMembers(items[1..], x);
      assert items == [items[0]] + items[1..];
    }
  }

  /** `filterArray(arr)`: `Err` where reading `arr.length` or calling
      `arr.filter` throws. An empty array or an empty string gives `[]`
      (`length === 0`); any other string, and every value that is not an
      array, has no `filter` and throws. */
  function FilterArray(arr: Yaml): (r: Result<seq<string>, string>)
    ensures arr.Undefined? || arr.Null? || arr.Scalar? || arr.Object? ==> r.Err?
    ensures arr.Str? ==> (r.Ok? <==> arr.s == "") && (r.Ok? ==> r.value == [])
    ensures arr.List? ==> r == Ok(NonEmptyStrings(arr.items))
  {
    match arr
    case Undefined => Err("TypeError: Cannot read properties of undefined (reading 'length')")
    case Null => Err("TypeError: Cannot read properties of null (reading 'length')")
    case Str(s) => if s == "" then Ok([]) else Err("TypeError: arr.filter is not a function")
    case List(items) => if |items| == 0 then Ok([]) else Ok(NonEmptyStrings(items))
    case Scalar(_) => Err("TypeError: arr.filter is not a function")
    case Object => Err("TypeError: arr.filter is not a function")
  }

  /** `file.endsWith(".md")`. */
  predicate IsMarkdown(file: string) {
    |file| >= 3 && file[|file| - 3..] == ".md"
  }

  /** `file.replace(/\.md$/, "")` on a name that ends in `.md`. */
  function SlugOf(file: string): (slug: string)
    requires IsMarkdown(file)
    ensures slug + ".md" == file
  {
    file[..|file| - 3]
  }

  /** `readdir(DIR).filter(f => f.endsWith(".md"))`. */
  function MarkdownFiles(entries: seq<string>): (files: seq<string>)
    ensures |files| <= |entries|
    ensures forall i :: 0 <= i < |files| ==> IsMarkdown(files[i])
  {
    if entries == [] then []
    else (if IsMarkdown(entries[0]) then [entries[0]] else []) + MarkdownFiles(entries[1..])
  }

  /** A directory entry becomes a project file exactly when it ends in `.md`. */
  lemma {:induction false} MarkdownFilesMembers(entries: seq<string>, f: string)
    ensures f in MarkdownFiles(entries) <==> f in entries && IsMarkdown(f)
    decreases |entries|
  {
    if entries != [] {
      MarkdownFilesMembers(entries[1..], f);
      assert entries == [entries[0]] + entries[1..];
    }
  }

  /** The listing order is kept: the Markdown files of two listings put
      together are those of each, in order. */
  lemma {:induction false} MarkdownFilesAppend(xs: seq<string>, ys: seq<string>)
    ensures MarkdownFiles(xs + ys) == MarkdownFiles(xs) + MarkdownFiles(ys)
    decreases |xs|
  {
    if xs == [] {
      assert xs + ys == ys;
    } else {
      assert (xs + ys)[0] == xs[0];
      assert (xs + ys)[1..] == xs[1..] + ys;
      MarkdownFilesAppend(xs[1..], ys);
    }
  }

  /** A project as `getAllProjects` returns it. `title` and `dates` are
      passed through from the front matter untouched. */
  datatype Project = Project(
    slug: string,
    title: Yaml,
    dates: Yaml,
    location: Yaml,
    description: Yaml,
    images: seq<string>,
    audio: seq<string>,
    contentHtml: string)

  /** What reading and parsing one file gives: its front matter and the HTML
      its markdown body renders to. */
  datatype Parsed = Parsed(data: FrontData, html: string)

  /** `v ?? ""`. */
  function OrEmpty(v: Yaml): (r: Yaml)
    ensures v.Undefined? || v.Null? ==> r == Str("")
    ensures !(v.Undefined? || v.Null?) ==> r == v
  {
    if v.Undefined? || v.Null? then Str("") else v
  }

  /** `` files.map(file => `${root}${file}`) ``. */
  function Prefixed(root: string, files: seq<string>): (r: seq<string>)
    ensures |r| == |files|
    ensures forall i :: 0 <= i < |files| ==> r[i] == root + files[i]
  {
    if files == [] then [] else [root + files[0]] + Prefixed(root, files[1..])
  }

  /** `filterArray(data[key]).map(file => `${data.mediaRoot}${file}`)`. */
  function MediaList(data: FrontData, key: string): (r: Result<seq<string>, string>)
  {
    match FilterArray(Get(data, key))
    case Err(e) => Err(e)
    case Ok(kept) => Ok(Prefixed(Stringify(Get(data, "mediaRoot")), kept))
  }

  /** The record built for one Markdown file. It names its file, passes the
      title, the dates and the rendered body through, defaults a missing
      location or description to `""`, and holds `mediaRoot` before each
      kept media entry, in order. It fails exactly when `filterArray` throws
      for the images or the audio, so a file without `images` fails. */
  function ProjectOf(file: string, p: Parsed): (r: Result<Project, string>)
    requires IsMarkdown(file)
    ensures r.Err? <==> FilterArray(Get(p.data, "images")).Err? || FilterArray(Get(p.data, "audio")).Err?
    ensures "images" !in p.data ==> r.Err?
    ensures r.Ok? ==>
              && r.value.slug + ".md" == file
              && r.value.title == Get(p.data, "title")
              && r.value.dates == Get(p.data, "dates")
              && r.value.location == OrEmpty(Get(p.data, "location"))
              && r.value.description == OrEmpty(Get(p.data, "description"))
              && r.value.contentHtml == p.html
    ensures r.Ok? ==>
              var root := Stringify(Get(p.data, "mediaRoot"));
              var images, audio := FilterArray(Get(p.data, "images")).value, FilterArray(Get(p.data, "audio")).value;
              && |r.value.images| == |images| && |r.value.audio| == |audio|
              && (forall i :: 0 <= i < |images| ==> r.value.images[i] == root + images[i])
              && (forall i :: 0 <= i < |audio| ==> r.value.audio[i] == root + audio[i])
  {
    match MediaList(p.data, "images")
    case Err(e) => Err(e)
    case Ok(images) =>
      match MediaList(p.data, "audio")
      case Err(e) => Err(e)
      case Ok(audio) =>
        Ok(Project(SlugOf(file), Get(p.data, "title"), Get(p.data, "dates"),
                   OrEmpty(Get(p.data, "location")), OrEmpty(Get(p.data, "description")),
                   images, audio, p.html))
  }

  /** Whether reading a file, or building its record, fails. */
  predicate FileFails(file: string, read: string -> Result<Parsed, string>)
    requires IsMarkdown(file)
  {
    read(file).Err? || ProjectOf(file, read(file).value).Err?
  }

  /** Whether some file of the list fails. */
  predicate SomeFileFails(files: seq<string>, read: string -> Result<Parsed, string>)
    requires forall i :: 0 <= i < |files| ==> IsMarkdown(files[i])
  {
    files != [] && (FileFails(files[0], read) || SomeFileFails(files[1..], read))
  }

  /** Some file fails exactly when one at some position does. */
  lemma {:induction false} SomeFileFailsAt(files: seq<string>, read: string -> Result<Parsed, string>)
    requires forall i :: 0 <= i < |files| ==> IsMarkdown(files[i])
    ensures SomeFileFails(files, read) <==> exists i :: 0 <= i < |files| && FileFails(files[i], read)
    decreases |files|
  {
    if files != [] {
      SomeFileFailsAt(files[1..], read);
      if exists i :: 0 <= i < |files| && FileFails(files[i], read) {
        var i :| 0 <= i < |files| && FileFails(files[i], read);
        if i > 0 {
          assert files[1..][i - 1] == files[i];
        }
      }
      if exists i :: 0 <= i < |files[1..]| && FileFails(files[1..][i], read) {
        var i :| 0 <= i < |files[1..]| && FileFails(files[1..][i], read);
        assert files[i + 1] == files[1..][i];
      }
    }
  }

  /** `Promise.all(files.map(...))`: every file read and turned into a record,
      or the first failure. */
  function AllProjects(files: seq<string>, read: string -> Result<Parsed, string>): (r: Result<seq<Project>, string>)
    requires forall i :: 0 <= i < |files| ==> IsMarkdown(files[i])
    ensures r.Ok? ==> |r.value| == |files|
    ensures r.Ok? ==> forall i :: 0 <= i < |files| ==> r.value[i].slug + ".md" == files[i]
    ensures r.Err? <==> SomeFileFails(files, read)
  {
    if files == [] then Ok([])
    else
      var first := match read(files[0])
                   case Err(e) => Err(e)
                   case Ok(p) => ProjectOf(files[0], p);
      match first
      case Err(e) => Err(e)
      case Ok(project) =>
        match AllProjects(files[1..], read)
        case Err(e) => Err(e)
        case Ok(rest) => Ok([project] + rest)
  }

  /** Each record is the one built from its own file: the file was read, and
      its record is the `i`-th project. */
  lemma {:induction false} AllProjectsRecords(files: seq<string>, read: string -> Result<Parsed, string>)
    requires forall i :: 0 <= i < |files| ==> IsMarkdown(files[i])
    ensures AllProjects(files, read).Ok? ==>
              forall i :: 0 <= i < |files| ==>
                read(files[i]).Ok? && ProjectOf(files[i], read(files[i]).value) == Ok(AllProjects(files, read).value[i])
    decreases |files|
  {
    var r := AllProjects(files, read);
    if files != [] && r.Ok? {
      AllProjectsRecords(files[1..], read);
      var rest := AllProjects(files[1..], read);
      assert rest.Ok? && r.value == [r.value[0]] + rest.value;
      forall i | 0 <= i < |files|
        ensures read(files[i]).Ok? && ProjectOf(files[i], read(files[i]).value) == Ok(r.value[i])
      {
        if i > 0 {
          assert files[1..][i - 1] == files[i];
          assert r.value[i] == rest.value[i - 1];
        }
      }
    }
  }

  /** `getAllProjects()`: a directory that cannot be listed gives no projects;
      otherwise one record per Markdown file, in listing order. */
  function GetAllProjects(listing: Result<seq<string>, string>, read: string -> Result<Parsed, string>): (r: Result<seq<Project>, string>)
    ensures listing.Err? ==> r == Ok([])
    ensures listing.Ok? ==> r == AllProjects(MarkdownFiles(listing.value), read)
  {
    match listing
    case Err(_) => Ok([])
    case Ok(entries) => AllProjects(MarkdownFiles(entries), read)
  }

  /** On success, the projects of a listed directory are, one for one and in
      listing order, the records built from its Markdown entries. */
  lemma GetAllProjectsRecords(entries: seq<string>, read: string -> Result<Parsed, string>)
    ensures GetAllProjects(Ok(entries), read).Ok? ==>
              && |GetAllProjects(Ok(entries), read).value| == |MarkdownFiles(entries)|
              && forall i :: 0 <= i < |MarkdownFiles(entries)| ==>
                   read(MarkdownFiles(entries)[i]).Ok?
                   && ProjectOf(MarkdownFiles(entries)[i], read(MarkdownFiles(entries)[i]).value)
                      == Ok(GetAllProjects(Ok(entries), read).value[i])
  {
    AllProjectsRecords(MarkdownFiles(entries), read);
  }

  /** Every project comes from a Markdown entry of the directory, and every
      Markdown entry gives a project. */
  lemma GetAllProjectsSlugs(entries: seq<string>, read: string -> Result<Parsed, string>)
    ensures var r := GetAllProjects(Ok(entries), read);
            r.Ok? ==> forall f :: f in entries && IsMarkdown(f) <==>
                                  exists i :: 0 <= i < |r.value| && r.value[i].slug + ".md" == f
  {
    var files := MarkdownFiles(entries);
    var r := GetAllProjects(Ok(entries), read);
    if r.Ok? {
      forall f ensures f in entries && IsMarkdown(f) <==>
                       exists i :: 0 <= i < |r.value| && r.value[i].slug + ".md" == f {
        MarkdownFilesMembers(entries, f);
        if f in files {
          var i :| 0 <= i < |files| && files[i] == f;
          assert r.value[i].slug + ".md" == f;
        }
      }
    }
  }
}
