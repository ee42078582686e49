/** `application/utils/find_resume.py`: listing the stems of the files of
    an upload directory, and loading a JSON file from it by name with or
    without its `.json` extension. The file system is a value: each
    directory maps to its entries in listing order, and a file's content is
    the JSON it parses to, if it does. */
module FindResume {
  import opened Wrappers
  import opened Text
  import opened Json

  /** A directory entry: its name, whether it is a regular file, and the
      JSON its content parses to (`None` when it is not valid JSON). */
  datatype Entry = Entry(name: string, isFile: bool, content: Option<Json>)

  type FileSystem = map<string, seq<Entry>>

  /** The exceptions the two functions raise. */
  datatype FsError =
    | DirectoryNotFound(directory: string)
    | FileNotFound(name: string)
    | IsADirectory(name: string)
    | InvalidJson(name: string)

  /** Position of the last `.` in `name`, -1 when there is none. */
  function LastDot(name: string): (i: int)
    ensures -1 <= i < |name|
    ensures i >= 0 ==> name[i] == '.'
    ensures forall j :: i < j < |name| ==> name[j] != '.'
  {
    if name == [] then -1
    else if name[|name| - 1] == '.' then |name| - 1
    else LastDot(name[..|name| - 1])
  }

  /** `PurePath.stem`: the name without its last suffix, where a suffix is
      a last `.` that neither starts nor ends the name. */
  function Stem(name: string): (r: string)
    ensures |r| <= |name| && r == name[..|r|]
    ensures |r| < |name| ==> 0 < |r| < |name| - 1 && name[|r|] == '.' && forall j :: |r| < j < |name| ==> name[j] != '.'
    ensures |r| == |name| ==> forall i :: 0 < i < |name| - 1 && name[i] == '.' ==> exists j :: i < j < |name| && name[j] == '.'
  {
    var i := LastDot(name);
    if 0 < i < |name| - 1 then name[..i] else name
  }

  /** The stem of a name made of a non-empty stem and a suffix is that
      stem. */
  lemma StemOfSuffixed(stem: string, ext: string)
    requires stem != "" && |ext| >= 2 && ext[0] == '.' && forall j :: 0 < j < |ext| ==> ext[j] != '.'
    ensures Stem(stem + ext) == stem
  {
    var name := stem + ext;
    assert name[|stem|] == '.';
    assert forall j :: |stem| < j < |name| ==> name[j] == ext[j - |stem|];
    assert name[..|stem|] == stem;
  }

  /** The entries `glob("*" + extension)` yields, or all of them when no
      extension (or an empty one) is given. */
  predicate Matches(e: Entry, extension: Option<string>) {
    extension.None? || extension.value == "" || EndsWith(e.name, extension.value)
  }

  /** The stems of the matching regular files, in listing order. */
  function ListedStems(entries: seq<Entry>, extension: Option<string>): seq<string> {
    if entries == [] then []
    else
      var e := entries[|entries| - 1];
      ListedStems(entries[..|entries| - 1], extension) + (if e.isFile && Matches(e, extension) then [Stem(e.name)] else [])
  }

  /** `get_uploaded_file_names`. */
  function GetUploadedFileNames(fs: FileSystem, directory: string, extension: Option<string>): (r: Result<seq<string>, FsError>)
    ensures directory !in fs <==> r == Err(DirectoryNotFound(directory))
    ensures r.Err? ==> r == Err(DirectoryNotFound(directory))
  {
    if directory !in fs then Err(DirectoryNotFound(directory))
    else Ok(ListedStems(fs[directory], extension))
  }

  /** The listing holds the stem of every matching regular file, and only
      those. */
  lemma {:induction false} ListedStemsSpec(entries: seq<Entry>, extension: Option<string>)
    ensures forall s :: s in ListedStems(entries, extension) <==>
      exists e :: e in entries && e.isFile && Matches(e, extension) && Stem(e.name) == s
    ensures |ListedStems(entries, extension)| <= |entries|
  {
    if entries != [] {
      var init := entries[..|entries| - 1];
      ListedStemsSpec(init, extension);
      assert entries == init + [entries[|entries| - 1]];
    }
  }

  /** With no extension the listing is that of every regular file; an
      empty extension filters nothing either. */
  lemma {:induction false} EmptyExtensionListsAll(entries: seq<Entry>)
    ensures ListedStems(entries, Some("")) == ListedStems(entries, None)
  {
    if entries != [] {
      EmptyExtensionListsAll(entries[..|entries| - 1]);
    }
  }

  /** The name looked up: `filename` if it already ends with `.json`,
      otherwise `filename + ".json"`. */
  function JsonName(filename: string): (r: string)
    ensures EndsWith(r, ".json")
    ensures EndsWith(filename, ".json") ==> r == filename
    ensures !EndsWith(filename, ".json") ==> r == filename + ".json"
  {
    if EndsWith(filename, ".json") then filename
    else
      var r := filename + ".json";
      assert r[|r| - 5..] == ".json";
      r
  }

  /** Normalising twice is normalising once. */
  lemma JsonNameIdempotent(filename: string)
    ensures JsonName(JsonName(filename)) == JsonName(filename)
  {
  }

  /** The first entry named `name`. */
  function Lookup(entries: seq<Entry>, name: string): (r: Option<Entry>)
    ensures r.Some? ==> r.value in entries && r.value.name == name
    ensures r.None? ==> forall e :: e in entries ==> e.name != name
  {
    if entries == [] then None
    else if entries[0].name == name then Some(entries[0])
    else Lookup(entries[1..], name)
  }

  /** `load_json_from_file`: the directory is checked first, then the
      normalised file name; an entry that is a directory cannot be opened,
      and content that is not JSON does not load. */
  function LoadJsonFromFile(fs: FileSystem, directory: string, filename: string): (r: Result<Json, FsError>)
    ensures directory !in fs ==> r == Err(DirectoryNotFound(directory))
    ensures directory in fs && (forall e :: e in fs[directory] ==> e.name != JsonName(filename)) ==>
      r == Err(FileNotFound(JsonName(filename)))
    ensures r.Ok? ==>
      (directory in fs && exists e :: e in fs[directory] && e.name == JsonName(filename) && e.isFile && e.content == Some(r.value))
    ensures directory in fs && Lookup(fs[directory], JsonName(filename)).Some? ==>
      var e := Lookup(fs[directory], JsonName(filename)).value;
      && (!e.isFile ==> r == Err(IsADirectory(JsonName(filename))))
      && (e.isFile && e.content.None? ==> r == Err(InvalidJson(JsonName(filename))))
      && (e.isFile && e.content.Some? ==> r == Ok(e.content.value))
  {
    if directory !in fs then Err(DirectoryNotFound(directory))
    else
      var name := JsonName(filename);
      match Lookup(fs[directory], name)
      case None => Err(FileNotFound(name))
      case Some(e) =>
        if !e.isFile then Err(IsADirectory(name))
        else if e.content.None? then Err(InvalidJson(name))
        else Ok(e.content.value)
  }

  /** Asking for `x` and for `x.json` loads the same file. */
  lemma ExtensionOptional(fs: FileSystem, directory: string, filename: string)
    ensures LoadJsonFromFile(fs, directory, filename) == LoadJsonFromFile(fs, directory, JsonName(filename))
  {
    JsonNameIdempotent(filename);
  }

  /** A missing directory is reported whatever the file name: the file is
      not looked for. */
  lemma MissingDirectoryFirst(fs: FileSystem, directory: string, a: string, b: string)
    requires directory !in fs
    ensures LoadJsonFromFile(fs, directory, a) == LoadJsonFromFile(fs, directory, b)
  {
  }
}
