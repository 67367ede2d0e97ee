/**
 * The uploads of src/components/FileManagerComp/index.tsx: files picked with
 * the context menu's Upload item, and files and folders dropped from the
 * operating system, whose relative paths `processEntry` builds while walking
 * each dropped entry. Every upload lands in the folder on display.
 */
module Upload {
  import opened Wrappers
  import opened Tree
  import opened Strings

  /** A `File` handed over by the browser; the widget reads only its name. */
  datatype OsFile = OsFile(name: string, handle: nat)

  /** `FileWithPath`: a file and the path it is to be stored under. */
  datatype FileWithPath = FileWithPath(file: OsFile, path: string)

  /** The call `onUpload(to, files)`. */
  datatype UploadCall = UploadCall(to: Node, files: seq<FileWithPath>)

  /**
   * A dropped `FileSystemEntry`: a file (its entry name and the `File` it
   * yields), a directory with every entry its reader lists, in order, or an
   * entry of any other kind.
   */
  datatype Entry = FileEntry(name: string, file: OsFile) | DirEntry(name: string, entries: seq<Entry>) | OtherEntry

  /** The folder's path with a "/" put after it unless it already ends in one. */
  function FolderDir(path: string): (r: string)
    ensures EndsWith(r, "/") && StartsWith(r, path)
    ensures |path| <= |r| <= |path| + 1
    ensures EndsWith(path, "/") <==> r == path
  {
    if EndsWith(path, "/") then path else path + "/"
  }

  /**
   * `handleContextMenuUpload`'s change handler: each picked file is stored
   * directly in the current folder under its own name, and `onUpload` is
   * called only when at least one file was picked.
   */
  function PickedUpload(folder: Node, files: seq<OsFile>): (r: Option<UploadCall>)
    ensures r.Some? <==> |files| > 0
    ensures r.Some? ==> r.value.to == folder && |r.value.files| == |files|
    ensures r.Some? ==> forall k :: 0 <= k < |files| ==>
      r.value.files[k].file == files[k] &&
      StartsWith(r.value.files[k].path, FolderDir(folder.path)) &&
      r.value.files[k].path[|FolderDir(folder.path)|..] == files[k].name
  {
    var dir := FolderDir(folder.path);
    if |files| > 0 then
      Some(UploadCall(folder, seq(|files|, k requires 0 <= k < |files| => FileWithPath(files[k], dir + files[k].name))))
    else None
  }

  /** `processEntry(entry, basePath)`: a file is stored at `basePath/name`; a directory passes `basePath/name` to its entries. */
  function ProcessEntry(e: Entry, base: string): seq<FileWithPath>
    decreases e
  {
    match e
    case FileEntry(name, file) => [FileWithPath(file, base + "/" + name)]
    case DirEntry(name, entries) => ProcessAll(entries, base + "/" + name)
    case OtherEntry => []
  }

  /** The entries of one directory, one after another (`Promise.all` keeps their order, `flat` joins them). */
  function ProcessAll(es: seq<Entry>, base: string): seq<FileWithPath>
    decreases es
  {
    if es == [] then [] else ProcessEntry(es[0], base) + ProcessAll(es[1..], base)
  }

  /** A file found inside a dropped entry, with the names leading down to it, its own name last. */
  datatype Leaf = Leaf(file: OsFile, names: seq<string>)

  /** Every file inside an entry, in reading order: the reference for what `processEntry` collects. */
  function Leaves(e: Entry): (r: seq<Leaf>)
    ensures forall k :: 0 <= k < |r| ==> |r[k].names| >= 1
    decreases e
  {
    match e
    case FileEntry(name, file) => [Leaf(file, [name])]
    case DirEntry(name, entries) => Prefixed(name, LeavesAll(entries))
    case OtherEntry => []
  }

  function LeavesAll(es: seq<Entry>): (r: seq<Leaf>)
    ensures forall k :: 0 <= k < |r| ==> |r[k].names| >= 1
    decreases es
  {
    if es == [] then [] else Leaves(es[0]) + LeavesAll(es[1..])
  }

  /** The leaves of a directory's entries, seen from outside that directory. */
  function Prefixed(name: string, ls: seq<Leaf>): (r: seq<Leaf>)
    ensures |r| == |ls|
    ensures forall k :: 0 <= k < |ls| ==> r[k] == Leaf(ls[k].file, [name] + ls[k].names)
  {
    seq(|ls|, k requires 0 <= k < |ls| => Leaf(ls[k].file, [name] + ls[k].names))
  }

  /** Each name preceded by "/": `/a/b/c` for ["a", "b", "c"]. */
  function Slashed(names: seq<string>): string {
    if names == [] then "" else "/" + names[0] + Slashed(names[1..])
  }

  /** Where each leaf ends up below `base`. */
  function Paths(base: string, ls: seq<Leaf>): (r: seq<FileWithPath>)
    ensures |r| == |ls|
    ensures forall k :: 0 <= k < |ls| ==> r[k] == FileWithPath(ls[k].file, base + Slashed(ls[k].names))
  {
    seq(|ls|, k requires 0 <= k < |ls| => FileWithPath(ls[k].file, base + Slashed(ls[k].names)))
  }

  lemma PathsAppend(base: string, a: seq<Leaf>, b: seq<Leaf>)
    ensures Paths(base, a + b) == Paths(base, a) + Paths(base, b)
  {
    assert |Paths(base, a + b)| == |Paths(base, a) + Paths(base, b)|;
  }

  lemma PathsPrefixed(base: string, name: string, ls: seq<Leaf>)
    ensures Paths(base, Prefixed(name, ls)) == Paths(base + "/" + name, ls)
  {
    forall k | 0 <= k < |ls|
      ensures Paths(base, Prefixed(name, ls))[k] == Paths(base + "/" + name, ls)[k]
    {
      var names := ls[k].names;
      assert ([name] + names)[0] == name && ([name] + names)[1..] == names;
      Associative(base, "/" + name, Slashed(names));
      Associative(base, "/", [] + name);
      assert "/" + name + Slashed(names) == ("/" + name) + Slashed(names);
    }
  }

  /**
   * `processEntry` stores every file inside the entry, in reading order, at
   * `basePath` followed by "/" and each name on the way down to it: the
   * folders a dropped directory contains are kept under the upload folder.
   */
  lemma {:induction false} EntryPaths(e: Entry, base: string)
    ensures ProcessEntry(e, base) == Paths(base, Leaves(e))
    decreases e
  {
    match e
    case FileEntry(name, file) =>
      assert [name][1..] == [];
      assert Slashed([name]) == "/" + name;
      Associative(base, "/", name);
      assert Paths(base, Leaves(e))[0] == FileWithPath(file, base + "/" + name);
    case DirEntry(name, entries) =>
      AllPaths(entries, base + "/" + name);
      PathsPrefixed(base, name, LeavesAll(entries));
    case OtherEntry =>
  }

  lemma {:induction false} AllPaths(es: seq<Entry>, base: string)
    ensures ProcessAll(es, base) == Paths(base, LeavesAll(es))
    decreases es
  {
    if es != [] {
      EntryPaths(es[0], base);
      AllPaths(es[1..], base);
      PathsAppend(base, Leaves(es[0]), LeavesAll(es[1..]));
    }
  }

  lemma {:induction false} ProcessAllAppend(a: seq<Entry>, b: seq<Entry>, base: string)
    ensures ProcessAll(a + b, base) == ProcessAll(a, base) + ProcessAll(b, base)
    decreases |a|
  {
    if a == [] {
      assert a + b == b;
    } else {
      assert (a + b)[0] == a[0] && (a + b)[1..] == a[1..] + b;
      ProcessAllAppend(a[1..], b, base);
      Associative(ProcessEntry(a[0], base), ProcessAll(a[1..], base), ProcessAll(b, base));
    }
  }

  /** The entries `webkitGetAsEntry` yields for the dropped items, in order; items without one are skipped. */
  function Present(items: seq<Option<Entry>>): (r: seq<Entry>)
    ensures |r| <= |items|
    ensures forall e :: e in r <==> Some(e) in items
  {
    if items == [] then []
    else
      var front := items[..|items| - 1];
      var last := items[|items| - 1];
      assert items == front + [last];
      Present(front) + (if last.Some? then [last.value] else [])
  }

  /** `path.slice(1)`: everything after the first character, and "" for "". */
  function AfterFirst(s: string): (r: string)
    ensures |s| > 0 ==> r == s[1..]
    ensures |s| == 0 ==> r == ""
  {
    if |s| == 0 then s else s[1..]
  }

  /** The paths of one dropped entry moved under the folder: `folderPath + path.slice(1)`. */
  function Rebase(dir: string, fs: seq<FileWithPath>): (r: seq<FileWithPath>)
    ensures |r| == |fs|
    ensures forall k :: 0 <= k < |fs| ==> r[k] == FileWithPath(fs[k].file, dir + AfterFirst(fs[k].path))
  {
    seq(|fs|, k requires 0 <= k < |fs| => FileWithPath(fs[k].file, dir + AfterFirst(fs[k].path)))
  }

  lemma RebaseAppend(dir: string, a: seq<FileWithPath>, b: seq<FileWithPath>)
    ensures Rebase(dir, a + b) == Rebase(dir, a) + Rebase(dir, b)
  {
    assert |Rebase(dir, a + b)| == |Rebase(dir, a) + Rebase(dir, b)|;
  }

  /** What a drop onto a folder with path `path` uploads. */
  function DropList(path: string, items: seq<Option<Entry>>): seq<FileWithPath> {
    Rebase(FolderDir(path), ProcessAll(Present(items), ""))
  }

  /**
   * A drop uploads every file inside the dropped entries, in order, each at
   * the folder's path with a "/" ensured, followed by the names on the way
   * down to the file joined with "/": the dropped entry's own name first.
   */
  lemma DropListLeaves(path: string, items: seq<Option<Entry>>)
    ensures |DropList(path, items)| == |LeavesAll(Present(items))|
    ensures forall k :: 0 <= k < |DropList(path, items)| ==>
      DropList(path, items)[k].file == LeavesAll(Present(items))[k].file &&
      DropList(path, items)[k].path ==
        FolderDir(path) + LeavesAll(Present(items))[k].names[0] + Slashed(LeavesAll(Present(items))[k].names[1..])
  {
    var ls := LeavesAll(Present(items));
    var dir := FolderDir(path);
    AllPaths(Present(items), "");
    var fs := ProcessAll(Present(items), "");
    assert fs == Paths("", ls);
    forall k | 0 <= k < |ls|
      ensures DropList(path, items)[k].path == dir + ls[k].names[0] + Slashed(ls[k].names[1..])
    {
      assert fs[k].path == "" + Slashed(ls[k].names);
      RebasedLeaf(dir, ls[k].names);
    }
  }

  /** Moving a leaf's path from the empty base under a folder drops its leading "/". */
  lemma RebasedLeaf(dir: string, names: seq<string>)
    requires names != []
    ensures dir + AfterFirst("" + Slashed(names)) == dir + names[0] + Slashed(names[1..])
  {
    var rest := names[0] + Slashed(names[1..]);
    Associative("/", names[0], Slashed(names[1..]));
    assert Slashed(names) == "/" + rest;
    assert ("/" + rest)[1..] == rest;
    assert "" + Slashed(names) == Slashed(names);
    Associative(dir, names[0], Slashed(names[1..]));
  }

  /** Collecting the entries one item at a time. */
  lemma PresentStep(items: seq<Option<Entry>>, i: int)
    requires 0 <= i < |items|
    ensures Present(items[..i + 1]) == Present(items[..i]) + (if items[i].Some? then [items[i].value] else [])
  {
    assert items[..i + 1][..i] == items[..i];
  }

  /** Processing the entries one at a time. */
  lemma ProcessStep(es: seq<Entry>, j: int)
    requires 0 <= j < |es|
    ensures ProcessAll(es[..j + 1], "") == ProcessAll(es[..j], "") + ProcessEntry(es[j], "")
  {
    TakeOneMore(es, j);
    ProcessAllAppend(es[..j], [es[j]], "");
    assert [es[j]][1..] == [];
    assert ProcessAll([es[j]], "") == ProcessEntry(es[j], "") + [];
  }

  /**
   * `handleFileDrop`: collect the items' entries, process each from an empty
   * base path, move its files under the current folder, and call `onUpload`
   * only when at least one file came out.
   */
  method HandleFileDrop(currentFolder: Node, items: seq<Option<Entry>>) returns (call: Option<UploadCall>)
    ensures call.Some? <==> DropList(currentFolder.path, items) != []
    ensures call.Some? ==> call.value == UploadCall(currentFolder, DropList(currentFolder.path, items))
  {
    var entryList: seq<Entry> := [];
    var filesWithPath: seq<FileWithPath> := [];
    var currentFolderPath := if EndsWith(currentFolder.path, "/") then currentFolder.path else currentFolder.path + "/";
    for i := 0 to |items|
      invariant entryList == Present(items[..i])
    {
      PresentStep(items, i);
      if items[i].Some? {
        entryList := entryList + [items[i].value];
      }
    }
    assert items[..|items|] == items;
    for j := 0 to |entryList|
      invariant filesWithPath == Rebase(currentFolderPath, ProcessAll(entryList[..j], ""))
    {
      var entryFiles := ProcessEntry(entryList[j], "");
      ProcessStep(entryList, j);
      RebaseAppend(currentFolderPath, ProcessAll(entryList[..j], ""), entryFiles);
      filesWithPath := filesWithPath + Rebase(currentFolderPath, entryFiles);
    }
    assert entryList[..|entryList|] == entryList;
    if |filesWithPath| > 0 {
      call := Some(UploadCall(currentFolder, filesWithPath));
    } else {
      call := None;
    }
  }
}
