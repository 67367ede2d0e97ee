/**
 * The tool bar (src/components/FileManagerComp/ToolBar/index.tsx): the
 * address-bar navigation and the Back, Forward, Up and Home buttons, which
 * work on the widget's history and path. The `onNavigate` the tool bar
 * receives is the wrapper of src/components/FileManagerComp/index.tsx that
 * clears the selection and then calls the caller's `onNavigate`; so the
 * selection is cleared whenever the tool bar calls it, whether or not the
 * call then resolves.
 */
module ToolBar {
  import opened Wrappers
  import opened Tree
  import opened History
  import opened FileManager

  /** `flatRealFiles.find(item => item.path === path)`: the first node with that path. */
  function FindByPath(flat: seq<Node>, path: string): (r: Option<Node>)
    ensures r.None? <==> forall i :: 0 <= i < |flat| ==> flat[i].path != path
    ensures r.Some? ==> r.value in flat && r.value.path == path
  {
    if flat == [] then None
    else if flat[0].path == path then Some(flat[0])
    else
      var rest := FindByPath(flat[1..], path);
      assert forall i :: 1 <= i < |flat| ==> flat[i] == flat[1..][i - 1];
      rest
  }

  /** The nodes before the one `FindByPath` returns all have other paths. */
  lemma {:induction false} FindByPathIsFirst(flat: seq<Node>, path: string)
    ensures FindByPath(flat, path).Some? ==>
      exists i :: 0 <= i < |flat| && flat[i] == FindByPath(flat, path).value &&
        forall j :: 0 <= j < i ==> flat[j].path != path
  {
    if flat != [] && flat[0].path != path {
      FindByPathIsFirst(flat[1..], path);
      if FindByPath(flat, path).Some? {
        var i :| 0 <= i < |flat[1..]| && flat[1..][i] == FindByPath(flat[1..], path).value &&
          forall j :: 0 <= j < i ==> flat[1..][j].path != path;
        assert flat[i + 1] == FindByPath(flat, path).value;
        forall j | 0 <= j < i + 1 ensures flat[j].path != path {
          if j > 0 {
            assert flat[j] == flat[1..][j - 1];
          }
        }
      }
    }
  }

  /** `canGoHome` and `canGoUp`: both hold exactly when the path shown is not the root's. */
  predicate CanGoHome(path: string, root: Node) {
    path != root.path
  }

  /**
   * `handleToolBarNavigate(path)`, used by the address bar. When no node of
   * the flat tree has the path, `onNavigate(null, path)` is called and the
   * path and history stay. Otherwise the first such node is navigated to;
   * once that resolves, the path becomes its path and a fresh entry for it is
   * appended at the end of the stack, without dropping any forward history,
   * and made current.
   */
  method Navigate(m: Manager, path: string, freshId: string, ok: bool) returns (call: NavigateCall)
    requires m.Valid() && freshId !in Ids(m.historyStack)
    modifies m
    ensures m.Valid()
    ensures FindByPath(m.flat, path).None? ==>
      (call == NavigateCall(null, path) && m.path == old(m.path) &&
       m.historyStack == old(m.historyStack) && m.currentHistory == old(m.currentHistory))
    ensures FindByPath(m.flat, path).Some? ==>
      (call == NavigateCall(FindByPath(m.flat, path).value, path) &&
       (!ok ==> m.path == old(m.path) && m.historyStack == old(m.historyStack) && m.currentHistory == old(m.currentHistory)) &&
       (ok ==> m.path == path &&
               m.currentHistory == HistoryEntry(path, freshId, FindByPath(m.flat, path).value) &&
               m.historyStack == old(m.historyStack) + [m.currentHistory]))
    ensures m.selectedIds == [] && m.selectedItems == []
    ensures m.copyItems == old(m.copyItems) && m.cutItems == old(m.cutItems)
    ensures m.currentFolder == old(m.currentFolder) && m.sortConfig == old(m.sortConfig)
  {
    var found := FindByPath(m.flat, path);
    m.selectedIds := [];
    m.selectedItems := [];
    if found.None? {
      return NavigateCall(null, path);
    }
    var folder := found.value;
    call := NavigateCall(folder, path);
    if !ok {
      return;
    }
    m.AppendEntry(HistoryEntry(folder.path, freshId, folder));
  }

  /**
   * `handleToolBarGoBack`: with an entry before the current one, that entry
   * is navigated to and, once that resolves, becomes current and its path is
   * shown; the stack itself never changes. Without one, nothing happens, and
   * that is exactly when `canGoBack` disables the button.
   */
  method GoBack(m: Manager, ok: bool) returns (call: Option<NavigateCall>)
    requires m.Valid()
    modifies m
    ensures m.Valid()
    ensures call.Some? <==> CanGoBack(old(m.historyStack), old(m.currentHistory))
    ensures call.None? ==>
      (m.path == old(m.path) && m.currentHistory == old(m.currentHistory) &&
       m.selectedIds == old(m.selectedIds) && m.selectedItems == old(m.selectedItems))
    ensures call.Some? ==>
      (var prev := old(m.historyStack)[HistoryIndex(old(m.historyStack), old(m.currentHistory)) - 1];
       call.value == NavigateCall(prev.record, prev.path) &&
       m.selectedIds == [] && m.selectedItems == [] &&
       (ok ==> m.currentHistory == prev && m.path == prev.path) &&
       (!ok ==> m.currentHistory == old(m.currentHistory) && m.path == old(m.path)))
    ensures m.historyStack == old(m.historyStack)
    ensures m.copyItems == old(m.copyItems) && m.cutItems == old(m.cutItems)
    ensures m.currentFolder == old(m.currentFolder) && m.sortConfig == old(m.sortConfig)
  {
    GuardsMatchNeighbours(m.historyStack, m.currentHistory);
    var index := HistoryIndex(m.historyStack, m.currentHistory);
    if index - 1 < 0 {
      return None;
    }
    var prevHistory := m.historyStack[index - 1];
    m.selectedIds := [];
    m.selectedItems := [];
    call := Some(NavigateCall(prevHistory.record, prevHistory.path));
    if !ok {
      return;
    }
    m.path := prevHistory.path;
    m.currentHistory := prevHistory;
  }

  /**
   * `handleToolBarGoForward`: the same with the entry after the current one;
   * it acts exactly when `canGoForward` enables the button.
   */
  method GoForward(m: Manager, ok: bool) returns (call: Option<NavigateCall>)
    requires m.Valid()
    modifies m
    ensures m.Valid()
    ensures call.Some? <==> CanGoForward(old(m.historyStack), old(m.currentHistory))
    ensures call.None? ==>
      (m.path == old(m.path) && m.currentHistory == old(m.currentHistory) &&
       m.selectedIds == old(m.selectedIds) && m.selectedItems == old(m.selectedItems))
    ensures call.Some? ==>
      (var next := old(m.historyStack)[HistoryIndex(old(m.historyStack), old(m.currentHistory)) + 1];
       call.value == NavigateCall(next.record, next.path) &&
       m.selectedIds == [] && m.selectedItems == [] &&
       (ok ==> m.currentHistory == next && m.path == next.path) &&
       (!ok ==> m.currentHistory == old(m.currentHistory) && m.path == old(m.path)))
    ensures m.historyStack == old(m.historyStack)
    ensures m.copyItems == old(m.copyItems) && m.cutItems == old(m.cutItems)
    ensures m.currentFolder == old(m.currentFolder) && m.sortConfig == old(m.sortConfig)
  {
    GuardsMatchNeighbours(m.historyStack, m.currentHistory);
    var index := HistoryIndex(m.historyStack, m.currentHistory);
    if index + 1 >= |m.historyStack| {
      return None;
    }
    var nextHistory := m.historyStack[index + 1];
    m.selectedIds := [];
    m.selectedItems := [];
    call := Some(NavigateCall(nextHistory.record, nextHistory.path));
    if !ok {
      return;
    }
    m.path := nextHistory.path;
    m.currentHistory := nextHistory;
  }

  /**
   * `handleToolBarGoUp`: without a parent of the folder on display nothing
   * happens. Otherwise the parent is navigated to and, once that resolves,
   * a fresh entry for it is appended and made current and its path is shown.
   */
  method GoUp(m: Manager, freshId: string, ok: bool) returns (call: Option<NavigateCall>)
    requires m.Valid() && freshId !in Ids(m.historyStack)
    modifies m
    ensures m.Valid()
    ensures call.Some? <==> old(m.currentFolder.parent) != null
    ensures call.None? ==>
      (m.path == old(m.path) && m.historyStack == old(m.historyStack) && m.currentHistory == old(m.currentHistory) &&
       m.selectedIds == old(m.selectedIds) && m.selectedItems == old(m.selectedItems))
    ensures call.Some? ==>
      (var parent := old(m.currentFolder.parent);
       call.value == NavigateCall(parent, parent.path) &&
       m.selectedIds == [] && m.selectedItems == [] &&
       (ok ==> m.currentHistory == HistoryEntry(parent.path, freshId, parent) &&
               m.historyStack == old(m.historyStack) + [m.currentHistory] && m.path == parent.path) &&
       (!ok ==> m.path == old(m.path) && m.historyStack == old(m.historyStack) && m.currentHistory == old(m.currentHistory)))
    ensures m.copyItems == old(m.copyItems) && m.cutItems == old(m.cutItems)
    ensures m.currentFolder == old(m.currentFolder) && m.sortConfig == old(m.sortConfig)
  {
    var parentFolder := m.currentFolder.parent;
    if parentFolder == null {
      return None;
    }
    var newHistory := HistoryEntry(parentFolder.path, freshId, parentFolder);
    m.selectedIds := [];
    m.selectedItems := [];
    call := Some(NavigateCall(parentFolder, parentFolder.path));
    if !ok {
      return;
    }
    m.AppendEntry(newHistory);
  }

  /**
   * `handleToolBarGoHome`: the root is navigated to and, once that
   * resolves, its path is shown and a fresh entry for it is appended and
   * made current; Home and Up are then disabled.
   */
  method GoHome(m: Manager, freshId: string, ok: bool) returns (call: NavigateCall)
    requires m.Valid() && freshId !in Ids(m.historyStack)
    modifies m
    ensures m.Valid()
    ensures call == NavigateCall(m.root, m.root.path)
    ensures m.selectedIds == [] && m.selectedItems == []
    ensures ok ==>
      (m.path == m.root.path && !CanGoHome(m.path, m.root) &&
       m.currentHistory == HistoryEntry(m.root.path, freshId, m.root) &&
       m.historyStack == old(m.historyStack) + [m.currentHistory])
    ensures !ok ==> m.path == old(m.path) && m.historyStack == old(m.historyStack) && m.currentHistory == old(m.currentHistory)
    ensures m.copyItems == old(m.copyItems) && m.cutItems == old(m.cutItems)
    ensures m.currentFolder == old(m.currentFolder) && m.sortConfig == old(m.sortConfig)
  {
    m.selectedIds := [];
    m.selectedItems := [];
    call := NavigateCall(m.root, m.root.path);
    if !ok {
      return;
    }
    m.AppendEntry(HistoryEntry(m.root.path, freshId, m.root));
  }
}
