/**
 * The selection rules that FileList and FileGrid share, written out twice in
 * the widget (src/components/FileManagerComp/FileList/index.tsx:157-198,
 * 240-251 and src/components/FileManagerComp/FileGrid/index.tsx:35-76,
 * 104-124). Items are compared by reference (`includes`, `filter(item =>
 * item !== file)`, `findIndex(f => f === file)`), which is Dafny's equality
 * on `Node` objects.
 */
module Selection {
  import opened Wrappers
  import opened Tree
  import opened Lists

  /**
   * Ctrl/Meta-click: drop the item if it is selected, keeping the others in
   * order (`Remove`, whose order `RemoveAppend` states); otherwise add it at
   * the end.
   */
  function Toggle(selected: seq<Node>, file: Node): (r: seq<Node>)
    ensures file in r <==> file !in selected
    ensures file !in selected ==> r == selected + [file]
    ensures file in selected ==> r == Remove(selected, file)
    ensures forall i :: 0 <= i < |selected| && selected[i] != file ==> selected[i] in r
    ensures forall i :: 0 <= i < |r| && r[i] != file ==> r[i] in selected
  {
    if file in selected then Remove(selected, file) else selected + [file]
  }

  /** Toggling an unselected item twice gives back the selection it started from. */
  lemma ToggleTwice(selected: seq<Node>, file: Node)
    requires file !in selected
    ensures Toggle(Toggle(selected, file), file) == selected
  {
    var once := selected + [file];
    assert once == selected + [file];
    RemoveLast(selected, file);
  }

  lemma {:induction false} RemoveLast(s: seq<Node>, x: Node)
    requires x !in s
    ensures Remove(s + [x], x) == s
  {
    if s == [] {
      assert [x][1..] == [];
    } else {
      assert (s + [x])[1..] == s[1..] + [x];
      RemoveLast(s[1..], x);
    }
  }

  /** The items from position `i` to position `j`, both included, whichever comes first. */
  function Range(children: seq<Node>, i: int, j: int): (r: seq<Node>)
    requires 0 <= i < |children| && 0 <= j < |children|
    ensures children[i] in r && children[j] in r
    ensures |r| == (if i <= j then j - i else i - j) + 1
    ensures forall k :: 0 <= k < |r| ==> r[k] in children
  {
    var start := if i <= j then i else j;
    var end := if i <= j then j else i;
    assert children[i] == children[start..end + 1][i - start];
    assert children[j] == children[start..end + 1][j - start];
    children[start..end + 1]
  }

  /** What a click on an item does: the list handed to `onSelect` (if any) and the new anchor. */
  datatype Click = Click(selection: Option<seq<Node>>, anchor: Node?)

  /**
   * `handleItemClick`. `anchor` is `lastSelectedItem`. The Ctrl/Meta test
   * comes first, so the union inside the Shift branch is never taken (see
   * `CtrlShiftIsCtrlClick`).
   */
  function ItemClick(file: Node, children: seq<Node>, selected: seq<Node>, anchor: Node?, ctrl: bool, meta: bool, shift: bool): (r: Click)
    ensures ctrl || meta ==> r.anchor == file && r.selection.Some? && (file in r.selection.value <==> file !in selected)
    ensures !ctrl && !meta && shift && anchor != null ==> r.anchor == anchor
    ensures r.selection.Some? && !ctrl && !meta && shift && anchor != null ==>
      anchor in r.selection.value && file in r.selection.value
  {
    if ctrl || meta then
      Click(Some(Toggle(selected, file)), file)
    else if shift && anchor != null then
      var startIndex := IndexOf(children, anchor);
      var endIndex := IndexOf(children, file);
      if startIndex != -1 && endIndex != -1 then
        var range := Range(children, startIndex, endIndex);
        Click(Some(if ctrl || meta then Dedup(selected + range) else range), anchor)
      else
        Click(None, anchor)
    else
      Click(Some([file]), file)
  }

  /** A plain click, or a Shift-click before any anchor exists, selects the item alone and anchors there. */
  lemma PlainClick(file: Node, children: seq<Node>, selected: seq<Node>, anchor: Node?, shift: bool)
    requires !shift || anchor == null
    ensures ItemClick(file, children, selected, anchor, false, false, shift) == Click(Some([file]), file)
  {
  }

  /** With Ctrl or Meta held, Shift makes no difference: the range union is unreachable. */
  lemma CtrlShiftIsCtrlClick(file: Node, children: seq<Node>, selected: seq<Node>, anchor: Node?, ctrl: bool, meta: bool)
    requires ctrl || meta
    ensures ItemClick(file, children, selected, anchor, ctrl, meta, true) == ItemClick(file, children, selected, anchor, ctrl, meta, false)
    ensures ItemClick(file, children, selected, anchor, ctrl, meta, true).selection == Some(Toggle(selected, file))
  {
  }

  /**
   * Shift-click with an anchor, both items among the children: the selection
   * becomes exactly the children from the first position of one to the first
   * position of the other, in folder order, and the anchor stays.
   */
  lemma ShiftClickSelectsRange(file: Node, children: seq<Node>, selected: seq<Node>, anchor: Node, i: int, j: int)
    requires 0 <= i < |children| && children[i] == anchor && anchor !in children[..i]
    requires 0 <= j < |children| && children[j] == file && file !in children[..j]
    ensures ItemClick(file, children, selected, anchor, false, false, true) ==
      Click(Some(if i <= j then children[i..j + 1] else children[j..i + 1]), anchor)
  {
    IndexOfAt(children, i);
    IndexOfAt(children, j);
    var r := Range(children, i, j);
    assert r == if i <= j then children[i..j + 1] else children[j..i + 1];
  }

  /** Shift-click with the anchor or the clicked item outside the folder changes nothing. */
  lemma ShiftClickOutside(file: Node, children: seq<Node>, selected: seq<Node>, anchor: Node)
    requires anchor !in children || file !in children
    ensures ItemClick(file, children, selected, anchor, false, false, true) == Click(None, anchor)
  {
  }

  /**
   * Right-click replaces the selection with the clicked item only while at
   * most one item is selected, so the menu then acts on the clicked item or
   * on a selection of several.
   */
  function ContextSelect(file: Node, selected: seq<Node>): (r: Option<seq<Node>>)
    ensures r.Some? <==> |selected| <= 1
    ensures r.Some? ==> r.value == [file]
    ensures var after := if r.Some? then r.value else selected; file in after || |after| >= 2
  {
    if |selected| <= 1 then Some([file]) else None
  }

  /** A drag carries the selection when there is one, otherwise the dragged item; never nothing. */
  function DraggedItems(file: Node, selected: seq<Node>): (r: seq<Node>)
    ensures r != []
    ensures selected != [] ==> r == selected
    ensures selected == [] ==> r == [file]
  {
    if |selected| > 0 then selected else [file]
  }

  /** A double-click opens folders only: the node handed to `onNavigate`, if any. */
  function DoubleClick(file: Node): (r: Option<Node>)
    ensures r.Some? <==> file.kind == Folder
    ensures r.Some? ==> r.value == file
  {
    if file.kind == Folder then Some(file) else None
  }
}
