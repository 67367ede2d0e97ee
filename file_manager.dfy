/**
 * The widget's own state (src/components/FileManagerComp/index.tsx): the
 * path shown, the navigation history, the selection, the copy and cut lists
 * and the folder on display, with the handlers the list, grid and context
 * menu call. Every `await onX(...)` is an outcome parameter `ok`: when the
 * callback rejects, the statements after the `await` do not run.
 */
module FileManager {
  import opened Wrappers
  import opened Tree
  import opened DeepFind
  import opened RealFiles
  import opened Sorting
  import opened History

  /** The ids of items, in order (`items.map(it => it.id)`). */
  function IdsOf(items: seq<Node>): (r: seq<string>)
    ensures |r| == |items|
    ensures forall i :: 0 <= i < |items| ==> r[i] == items[i].id
  {
    seq(|items|, i requires 0 <= i < |items| => items[i].id)
  }

  /** `FileItemWithFrom`: an item on the cut list and the folder it was cut from. */
  datatype CutItem = CutItem(item: Node, from: Node)

  /** The cut list made from the selection: every item tagged with the same folder. */
  function Tagged(items: seq<Node>, from: Node): (r: seq<CutItem>)
    ensures |r| == |items|
    ensures forall i :: 0 <= i < |items| ==> r[i] == CutItem(items[i], from)
  {
    seq(|items|, i requires 0 <= i < |items| => CutItem(items[i], from))
  }

  /** The call `onNavigate(file, path)`; `file` is null when no folder has that path. */
  datatype NavigateCall = NavigateCall(file: Node?, path: string)

  /** What Paste calls: `onPaste(to, files)`, `onMove(from, to, files)`, or nothing. */
  datatype PasteCall = NoPaste | PasteFiles(to: Node, files: seq<Node>) | MoveFiles(from: Node, to: Node, moved: seq<CutItem>)

  /** The call `onDelete(from, ids, files)`. */
  datatype DeleteCall = DeleteCall(from: Node, ids: seq<string>, files: seq<Node>)

  /** The call `onRename(file, value)`. */
  datatype RenameCall = RenameCall(file: Node, value: string)

  /** The entry the history starts with: the root, with "0" and "/" standing in for an empty id and path. */
  function InitialEntry(root: Node): (r: HistoryEntry)
    ensures r.record == root && r.id != "" && r.path != ""
    ensures root.id != "" ==> r.id == root.id
    ensures root.path != "" ==> r.path == root.path
  {
    HistoryEntry(if root.path == "" then "/" else root.path, if root.id == "" then "0" else root.id, root)
  }

  /** The predicate the `root` memo and the `openedKey` effect search with. */
  function HasId(key: string): (Node, Node?) -> bool {
    (n: Node, p: Node?) => n.id == key
  }

  /**
   * A copy of a folder whose children are re-sorted, as `{...folder,
   * children: sortFiles(folder.children)}` makes: a new object, every other
   * field copied, the children themselves shared.
   */
  method WithSortedChildren(folder: Node, cfg: SortConfig) returns (copy: Node)
    ensures fresh(copy)
    ensures copy.children == SortFiles(cfg, folder.children)
    ensures copy.id == folder.id && copy.name == folder.name && copy.path == folder.path
    ensures copy.kind == folder.kind && copy.size == folder.size && copy.modified == folder.modified
    ensures copy.parent == folder.parent && copy.editing == folder.editing
  {
    copy := new Node(folder.id, folder.name, folder.path, folder.kind, folder.size, folder.modified, SortFiles(cfg, folder.children));
    copy.parent := folder.parent;
    copy.editing := folder.editing;
  }

  /**
   * `deepFind(files, item => item.id === key)`, the lookup the `root` memo
   * and the `openedKey` effect make: the first node in pre-order with that
   * id, or null.
   */
  method FindById(files: seq<Node>, key: string) returns (found: Node?)
    requires IsForest(files)
    ensures found == Found(Walk(files, null, false), HasId(key))
    ensures found != null ==> found.id == key
  {
    var outcome, calls := Search(ArrayOrigin(files), HasId(key), false);
    found := outcome.found;
    if found != null {
      FirstMatchIsFirst(Walk(files, null, false), HasId(key));
    }
  }

  /** Every field but the children is the same in `copy` as in `folder`. */
  ghost predicate SameFields(copy: Node, folder: Node)
    reads copy, folder
  {
    copy.id == folder.id && copy.name == folder.name && copy.path == folder.path &&
    copy.kind == folder.kind && copy.size == folder.size && copy.modified == folder.modified &&
    copy.parent == folder.parent && copy.editing == folder.editing
  }

  /** Sorting the children keeps the same nodes. */
  lemma SortFilesMembers(cfg: SortConfig, s: seq<Node>)
    ensures forall n :: n in SortFiles(cfg, s) <==> n in s
  {
    var r := SortFiles(cfg, s);
    forall n ensures n in r <==> n in s {
      assert n in r <==> n in multiset(r);
      assert n in s <==> n in multiset(s);
    }
  }

  /**
   * The `editing` flag cleared, in place, on every item of the re-sorted
   * children (`it.editing = false`); `all` is the children in their own order.
   */
  method ClearEditing(sorted: seq<Node>, all: seq<Node>)
    requires forall n :: n in sorted <==> n in all
    modifies all`editing
    ensures forall n :: n in all ==> !n.editing
  {
    for i := 0 to |sorted|
      invariant forall k :: 0 <= k < i ==> !sorted[k].editing
    {
      assert sorted[i] in sorted;
      sorted[i].editing := false;
    }
  }

  /**
   * A copy of the folder around its re-sorted children, every one of which
   * has its `editing` flag cleared in place.
   */
  method ResortClearing(folder: Node, cfg: SortConfig) returns (copy: Node)
    modifies folder.children`editing
    ensures fresh(copy) && copy.children == SortFiles(cfg, folder.children)
    ensures copy.id == folder.id && copy.path == folder.path && copy.kind == folder.kind
    ensures copy.name == folder.name && copy.size == folder.size && copy.modified == folder.modified
    ensures copy.parent == old(folder.parent) && copy.editing == old(folder.editing)
    ensures forall n :: n in folder.children ==> !n.editing
  {
    copy := WithSortedChildren(folder, cfg);
    assert forall n :: n in copy.children <==> n in folder.children by {
      SortFilesMembers(cfg, folder.children);
    }
    ClearEditing(copy.children, folder.children);
  }

  /**
   * The `editing` flag set, in place, on every item of the re-sorted
   * children whose id is in `ids` (`if (ids.includes(it.id)) it.editing =
   * true`); the others keep theirs.
   */
  method MarkEditing(sorted: seq<Node>, all: seq<Node>, ids: seq<string>)
    requires forall n :: n in sorted <==> n in all
    modifies all`editing
    ensures forall n :: n in all ==> n.editing == (n.id in ids || old(n.editing))
  {
    for i := 0 to |sorted|
      invariant forall n :: n in sorted[..i] ==> n.editing == (n.id in ids || old(n.editing))
      invariant forall n :: n in all && n !in sorted[..i] ==> n.editing == old(n.editing)
    {
      TakeOneMore(sorted, i);
      assert sorted[i] in sorted;
      if sorted[i].id in ids {
        sorted[i].editing := true;
      }
    }
    assert sorted[..|sorted|] == sorted;
  }

  /**
   * A copy of the folder around its re-sorted children, every one of which
   * whose id is in `ids` gets `editing` set in place.
   */
  method ResortMarking(folder: Node, cfg: SortConfig, ids: seq<string>) returns (copy: Node)
    modifies folder.children`editing
    ensures fresh(copy) && copy.children == SortFiles(cfg, folder.children)
    ensures copy.id == folder.id && copy.path == folder.path && copy.kind == folder.kind
    ensures copy.name == folder.name && copy.size == folder.size && copy.modified == folder.modified
    ensures copy.parent == old(folder.parent) && copy.editing == old(folder.editing)
    ensures forall n :: n in folder.children ==> n.editing == (n.id in ids || old(n.editing))
  {
    copy := WithSortedChildren(folder, cfg);
    assert forall n :: n in copy.children <==> n in folder.children by {
      SortFilesMembers(cfg, folder.children);
    }
    MarkEditing(copy.children, folder.children, ids);
  }

  class Manager {
    /** The `root` memo: the folder Home leads to. */
    const root: Node
    /** `realFiles`: the caller's tree hung under the widget's own root folder. */
    const realFiles: seq<Node>
    /** `flatRealFiles`. */
    const flat: seq<Node>
    var path: string
    var historyStack: seq<HistoryEntry>
    var currentHistory: HistoryEntry
    var selectedIds: seq<string>
    var selectedItems: seq<Node>
    var copyItems: seq<Node>
    var cutItems: seq<CutItem>
    var currentFolder: Node
    var sortConfig: SortConfig

    /**
     * What every handler keeps: the history ids are distinct and the current
     * entry is in the stack, the id list is the ids of the selected items,
     * and at most one of the copy and cut lists holds anything.
     */
    ghost predicate Valid()
      reads this
    {
      Consistent(historyStack, currentHistory) &&
      selectedIds == IdsOf(selectedItems) &&
      (copyItems == [] || cutItems == [])
    }

    /**
     * The step the tool bar's Navigate, Up and Home share once navigation
     * resolves: the entry's path is shown and the entry is appended at the
     * end of the stack, keeping any forward history, and made current.
     */
    method AppendEntry(entry: HistoryEntry)
      requires Valid() && entry.id !in Ids(historyStack)
      modifies this
      ensures Valid()
      ensures path == entry.path && currentHistory == entry && historyStack == old(historyStack) + [entry]
      ensures selectedIds == old(selectedIds) && selectedItems == old(selectedItems)
      ensures copyItems == old(copyItems) && cutItems == old(cutItems)
      ensures currentFolder == old(currentFolder) && sortConfig == old(sortConfig)
    {
      var stack := historyStack + [entry];
      assert Consistent(stack, entry) by {
        AppendAtEnd(historyStack, currentHistory, entry);
      }
      path, currentHistory, historyStack := entry.path, entry, stack;
    }

    /**
     * The history step of navigating from the file list: every entry after
     * the current one is dropped, and the entry is appended and made current.
     */
    method BranchEntry(entry: HistoryEntry)
      requires Valid() && entry.id !in Ids(historyStack)
      modifies this
      ensures Valid()
      ensures currentHistory == entry
      ensures historyStack == old(historyStack)[..HistoryIndex(old(historyStack), old(currentHistory)) + 1] + [entry]
      ensures path == old(path) && selectedIds == old(selectedIds) && selectedItems == old(selectedItems)
      ensures copyItems == old(copyItems) && cutItems == old(cutItems)
      ensures currentFolder == old(currentFolder) && sortConfig == old(sortConfig)
    {
      var stack := historyStack[..HistoryIndex(historyStack, currentHistory) + 1] + [entry];
      assert Consistent(stack, entry) by {
        BranchFromCurrent(historyStack, currentHistory, entry);
      }
      historyStack, currentHistory := stack, entry;
    }

    /** The first render's state, before any effect runs. */
    constructor (root: Node, realFiles: seq<Node>, flat: seq<Node>)
      ensures this.root == root && this.realFiles == realFiles && this.flat == flat
      ensures path == "/" && currentFolder == root
      ensures currentHistory == InitialEntry(root) && historyStack == [currentHistory]
      ensures selectedIds == [] && selectedItems == [] && copyItems == [] && cutItems == []
      ensures sortConfig == SortConfig(Name, Asc)
      ensures Valid()
    {
      this.root := root;
      this.realFiles := realFiles;
      this.flat := flat;
      path := "/";
      currentFolder := root;
      currentHistory := InitialEntry(root);
      historyStack := [InitialEntry(root)];
      selectedIds := [];
      selectedItems := [];
      copyItems := [];
      cutItems := [];
      sortConfig := SortConfig(Name, Asc);
    }

    /**
     * The `openedKey` effect: when some node of `realFiles` has the key as
     * its id, the first such node in pre-order is shown, with its children
     * re-sorted, and its path becomes the path shown; otherwise nothing
     * changes.
     */
    method OpenKey(openedKey: string)
      requires Valid() && IsForest(realFiles)
      modifies this
      ensures Valid()
      ensures Found(Walk(realFiles, null, false), HasId(openedKey)) == null ==>
        path == old(path) && currentFolder == old(currentFolder)
      ensures Found(Walk(realFiles, null, false), HasId(openedKey)) != null ==>
        path == Found(Walk(realFiles, null, false), HasId(openedKey)).path &&
        fresh(currentFolder) &&
        currentFolder.id == openedKey &&
        currentFolder.children == SortFiles(sortConfig, Found(Walk(realFiles, null, false), HasId(openedKey)).children) &&
        SameFields(currentFolder, Found(Walk(realFiles, null, false), HasId(openedKey)))
      ensures historyStack == old(historyStack) && currentHistory == old(currentHistory)
      ensures selectedIds == old(selectedIds) && selectedItems == old(selectedItems)
      ensures copyItems == old(copyItems) && cutItems == old(cutItems) && sortConfig == old(sortConfig)
    {
      var cur := FindById(realFiles, openedKey);
      if cur != null {
        var copy := WithSortedChildren(cur, sortConfig);
        Show(copy);
      }
    }

    /** A folder put on display: its path is shown with it, and nothing else changes. */
    method Show(folder: Node)
      requires Valid()
      modifies this
      ensures Valid()
      ensures path == folder.path && currentFolder == folder
      ensures historyStack == old(historyStack) && currentHistory == old(currentHistory)
      ensures selectedIds == old(selectedIds) && selectedItems == old(selectedItems)
      ensures copyItems == old(copyItems) && cutItems == old(cutItems) && sortConfig == old(sortConfig)
    {
      path, currentFolder := folder.path, folder;
    }

    /**
     * `handleFileListNavigate(file)`: `onNavigate(file, file.path)` is called;
     * once it resolves, everything after the current entry is dropped, a
     * fresh entry for the file is put after it and made current, the path
     * becomes the file's path and the selection is cleared. When it rejects,
     * nothing changes. `freshId` stands for `v4()`.
     */
    method HandleFileListNavigate(file: Node, freshId: string, ok: bool) returns (call: NavigateCall)
      requires Valid() && freshId !in Ids(historyStack)
      modifies this
      ensures Valid()
      ensures call == NavigateCall(file, file.path)
      ensures !ok ==> (path == old(path) && historyStack == old(historyStack) && currentHistory == old(currentHistory) &&
                       selectedIds == old(selectedIds) && selectedItems == old(selectedItems))
      ensures ok ==> (currentHistory == HistoryEntry(file.path, freshId, file) &&
                      historyStack == old(historyStack)[..HistoryIndex(old(historyStack), old(currentHistory)) + 1] + [currentHistory] &&
                      path == file.path && selectedIds == [] && selectedItems == [])
      ensures copyItems == old(copyItems) && cutItems == old(cutItems)
      ensures currentFolder == old(currentFolder) && sortConfig == old(sortConfig)
    {
      call := NavigateCall(file, file.path);
      if !ok {
        return;
      }
      BranchEntry(HistoryEntry(file.path, freshId, file));
      path := file.path;
      selectedIds := [];
      selectedItems := [];
    }

    /** `handleFileListSelect(files)`: the ids and the items are set together. */
    method HandleFileListSelect(files: seq<Node>)
      requires Valid()
      modifies this
      ensures Valid()
      ensures selectedItems == files && selectedIds == IdsOf(files)
      ensures path == old(path) && historyStack == old(historyStack) && currentHistory == old(currentHistory)
      ensures copyItems == old(copyItems) && cutItems == old(cutItems)
      ensures currentFolder == old(currentFolder) && sortConfig == old(sortConfig)
    {
      selectedIds := IdsOf(files);
      selectedItems := files;
    }

    /**
     * `handleFileListRename(file, value)`: the folder on display is replaced
     * by a copy with its children re-sorted, every child's `editing` flag is
     * cleared in place, and `onRename(file, value)` is called.
     */
    method HandleFileListRename(file: Node, value: string) returns (call: RenameCall)
      requires Valid()
      modifies this, currentFolder.children`editing
      ensures Valid()
      ensures call == RenameCall(file, value)
      ensures fresh(currentFolder) && currentFolder.children == SortFiles(sortConfig, old(currentFolder).children)
      ensures currentFolder.id == old(currentFolder).id && currentFolder.path == old(currentFolder).path
      ensures currentFolder.name == old(currentFolder).name && currentFolder.kind == old(currentFolder).kind
      ensures currentFolder.size == old(currentFolder).size && currentFolder.modified == old(currentFolder).modified
      ensures currentFolder.parent == old(currentFolder.parent) && currentFolder.editing == old(currentFolder.editing)
      ensures forall n :: n in old(currentFolder).children ==> !n.editing
      ensures path == old(path) && historyStack == old(historyStack) && currentHistory == old(currentHistory)
      ensures selectedIds == old(selectedIds) && selectedItems == old(selectedItems)
      ensures copyItems == old(copyItems) && cutItems == old(cutItems) && sortConfig == old(sortConfig)
    {
      currentFolder := ResortClearing(currentFolder, sortConfig);
      call := RenameCall(file, value);
    }

    /** `handleContextMenuCopy`: the copy list becomes the selection and the cut list is emptied. */
    method HandleContextMenuCopy()
      requires Valid()
      modifies this
      ensures Valid()
      ensures copyItems == old(selectedItems) && cutItems == []
      ensures path == old(path) && historyStack == old(historyStack) && currentHistory == old(currentHistory)
      ensures selectedIds == old(selectedIds) && selectedItems == old(selectedItems)
      ensures currentFolder == old(currentFolder) && sortConfig == old(sortConfig)
    {
      copyItems := selectedItems;
      cutItems := [];
    }

    /** `handleContextMenuCut`: the copy list is emptied and the cut list becomes the selection, tagged with the folder on display. */
    method HandleContextMenuCut()
      requires Valid()
      modifies this
      ensures Valid()
      ensures copyItems == [] && cutItems == Tagged(old(selectedItems), old(currentFolder))
      ensures path == old(path) && historyStack == old(historyStack) && currentHistory == old(currentHistory)
      ensures selectedIds == old(selectedIds) && selectedItems == old(selectedItems)
      ensures currentFolder == old(currentFolder) && sortConfig == old(sortConfig)
    {
      copyItems := [];
      cutItems := Tagged(selectedItems, currentFolder);
    }

    /**
     * `handleContextMenuPaste`: the copy list, when it holds anything, goes to
     * `onPaste` into the folder on display; otherwise a non-empty cut list
     * goes to `onMove` from the folder its first item was cut from. Once the
     * awaited call resolves (or when there was none) the cut list is emptied;
     * the copy list is kept, so the same items can be pasted again.
     */
    method HandleContextMenuPaste(ok: bool) returns (call: PasteCall)
      requires Valid()
      modifies this
      ensures Valid()
      ensures old(copyItems) != [] ==> call == PasteFiles(old(currentFolder), old(copyItems))
      ensures old(copyItems) == [] && old(cutItems) != [] ==> call == MoveFiles(old(cutItems)[0].from, old(currentFolder), old(cutItems))
      ensures old(copyItems) == [] && old(cutItems) == [] ==> call == NoPaste
      ensures cutItems == if call.NoPaste? || ok then [] else old(cutItems)
      ensures copyItems == old(copyItems)
      ensures path == old(path) && historyStack == old(historyStack) && currentHistory == old(currentHistory)
      ensures selectedIds == old(selectedIds) && selectedItems == old(selectedItems)
      ensures currentFolder == old(currentFolder) && sortConfig == old(sortConfig)
    {
      if |copyItems| > 0 {
        call := PasteFiles(currentFolder, copyItems);
      } else if |cutItems| > 0 {
        call := MoveFiles(cutItems[0].from, currentFolder, cutItems);
      } else {
        call := NoPaste;
      }
      if call.NoPaste? || ok {
        cutItems := [];
      }
    }

    /** `handleContextMenuDelete`: `onDelete` gets the folder on display and the selected items with their ids. */
    method HandleContextMenuDelete() returns (call: DeleteCall)
      requires Valid()
      ensures call.from == currentFolder && call.files == selectedItems
      ensures call.ids == selectedIds
      ensures |call.ids| == |call.files| && forall i :: 0 <= i < |call.files| ==> call.ids[i] == call.files[i].id
    {
      call := DeleteCall(currentFolder, IdsOf(selectedItems), selectedItems);
    }

    /**
     * `handleContextMenuRename`: the folder on display is replaced by a copy
     * with its children re-sorted, and every child whose id is selected gets
     * `editing` set in place; the other children keep their flag.
     */
    method HandleContextMenuRename()
      requires Valid()
      modifies this, currentFolder.children`editing
      ensures Valid()
      ensures fresh(currentFolder) && currentFolder.children == SortFiles(sortConfig, old(currentFolder).children)
      ensures currentFolder.id == old(currentFolder).id && currentFolder.path == old(currentFolder).path
      ensures currentFolder.name == old(currentFolder).name && currentFolder.kind == old(currentFolder).kind
      ensures currentFolder.size == old(currentFolder).size && currentFolder.modified == old(currentFolder).modified
      ensures currentFolder.parent == old(currentFolder.parent) && currentFolder.editing == old(currentFolder.editing)
      ensures forall n :: n in old(currentFolder).children ==> n.editing == (n.id in selectedIds || old(n.editing))
      ensures path == old(path) && historyStack == old(historyStack) && currentHistory == old(currentHistory)
      ensures selectedIds == old(selectedIds) && selectedItems == old(selectedItems)
      ensures copyItems == old(copyItems) && cutItems == old(cutItems) && sortConfig == old(sortConfig)
    {
      var copy := ResortMarking(currentFolder, sortConfig, selectedIds);
      currentFolder := copy;
    }

    /** `handleContextMenuDownload`: `onDownload` gets the first selected item, or `undefined` (`None`) when there is none. */
    method HandleContextMenuDownload() returns (file: Option<Node>)
      ensures file.Some? <==> selectedItems != []
      ensures file.Some? ==> file.value == selectedItems[0]
    {
      file := if |selectedItems| > 0 then Some(selectedItems[0]) else None;
    }

    /** `handleContextMenuCreateFolder`: `onCreateFolder` gets the folder on display. */
    method HandleContextMenuCreateFolder() returns (from: Node)
      ensures from == currentFolder
    {
      from := currentFolder;
    }

    /** `handleContextMenuSelectAll`: every child of the folder on display is selected, ids and items alike. */
    method SelectAll()
      requires Valid()
      modifies this
      ensures Valid()
      ensures selectedItems == currentFolder.children && selectedIds == IdsOf(currentFolder.children)
      ensures path == old(path) && historyStack == old(historyStack) && currentHistory == old(currentHistory)
      ensures copyItems == old(copyItems) && cutItems == old(cutItems)
      ensures currentFolder == old(currentFolder) && sortConfig == old(sortConfig)
    {
      selectedIds := IdsOf(currentFolder.children);
      selectedItems := currentFolder.children;
    }

    /** `resetState`, run on every click and context-menu event anywhere: the selection is cleared. */
    method ResetState()
      requires Valid()
      modifies this
      ensures Valid()
      ensures selectedIds == [] && selectedItems == []
      ensures path == old(path) && historyStack == old(historyStack) && currentHistory == old(currentHistory)
      ensures copyItems == old(copyItems) && cutItems == old(cutItems)
      ensures currentFolder == old(currentFolder) && sortConfig == old(sortConfig)
    {
      selectedIds := [];
      selectedItems := [];
    }
  }

  /**
   * The `root` memo: the first node of the caller's tree, in pre-order,
   * whose id is the initial `openedKey`; without one, a new folder with id
   * "0" and path "/" holding the whole tree.
   */
  method RootFolder(files: seq<Node>, homeKey: string, now: int) returns (root: Node)
    requires IsForest(files)
    ensures Found(Walk(files, null, false), HasId(homeKey)) != null ==>
      root == Found(Walk(files, null, false), HasId(homeKey)) && root.id == homeKey
    ensures Found(Walk(files, null, false), HasId(homeKey)) == null ==>
      fresh(root) && root.id == "0" && root.path == "/" && root.kind == Folder &&
      root.children == files && root.size == 0 && root.modified == now && root.parent == null
  {
    var cur := FindById(files, homeKey);
    if cur != null {
      return cur;
    }
    root := new Node("0", "根目录", "/", Folder, 0, now, files);
  }

  /**
   * Mounting the widget: the root memo, the widget's own tree (which stamps
   * `parent` onto the caller's nodes), its flat list, the first render's
   * state, then the `openedKey` effect with the initial key.
   */
  method Mount(files: seq<Node>, openedKey: string, now: int) returns (m: Manager)
    requires IsForest(files)
    modifies NodeSet(Walk(files, null, true))`parent
    ensures fresh(m) && m.Valid() && IsForest(m.realFiles)
    ensures |m.realFiles| == 1 && m.realFiles[0].children == files && m.realFiles[0].id == "0"
    ensures m.flat == Flat(m.realFiles)
    ensures Found(Walk(files, null, false), HasId(openedKey)) != null ==> m.root == Found(Walk(files, null, false), HasId(openedKey))
    ensures Found(Walk(files, null, false), HasId(openedKey)) == null ==> m.root.id == "0" && m.root.children == files
    ensures m.historyStack == [m.currentHistory] && m.currentHistory == InitialEntry(m.root)
    ensures m.selectedIds == [] && m.copyItems == [] && m.cutItems == []
    ensures m.sortConfig == SortConfig(Name, Asc)
    ensures Found(Walk(m.realFiles, null, false), HasId(openedKey)) == null ==>
      m.path == "/" && m.currentFolder == m.root
    ensures Found(Walk(m.realFiles, null, false), HasId(openedKey)) != null ==>
      m.path == Found(Walk(m.realFiles, null, false), HasId(openedKey)).path &&
      fresh(m.currentFolder) && m.currentFolder.id == openedKey &&
      m.currentFolder.children == SortFiles(m.sortConfig, Found(Walk(m.realFiles, null, false), HasId(openedKey)).children) &&
      SameFields(m.currentFolder, Found(Walk(m.realFiles, null, false), HasId(openedKey)))
    ensures DistinctNodes(Walk(files, null, true)) ==> ParentsLinked(files, m.realFiles[0])
  {
    var root := RootFolder(files, openedKey, now);
    var realFiles := UpdateRealFiles(files, now);
    assert DistinctNodes(Walk(files, null, true)) ==> ParentsLinked(files, realFiles[0]);
    ghost var v := Walk(files, realFiles[0], true);
    forall j | 0 <= j < |v| ensures allocated(v[j].node) {
      WalkAllocated(files, realFiles[0], true);
      InNodeSet(v, v[j].node);
    }
    var flat := FlatRealFiles(realFiles);
    m := new Manager(root, realFiles, flat);
    m.OpenKey(openedKey);
  }
}
