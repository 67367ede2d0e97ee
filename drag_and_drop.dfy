/**
 * `useDragAndDrop` (src/components/FileManagerComp/hooks/useDragAndDrop.ts):
 * moving items of the file view onto a folder by dragging. The hook
 * remembers the folder the drag started in and the dragged items; a drop
 * onto one of those items, or onto anything inside one of them, is refused.
 */
module DragAndDrop {
  import opened Strings
  import opened Tree
  import opened Wrappers

  /** The target is the item itself or lies inside it: `to.path === item.path || to.path.startsWith(item.path + "/")`. */
  predicate Covers(itemPath: string, targetPath: string) {
    targetPath == itemPath || StartsWith(targetPath, itemPath + "/")
  }

  /** `draggedOver.some(...)` of useDragAndDrop.ts:39-41. */
  function IsInvalidMove(dragged: seq<Node>, to: Node): (r: bool)
    ensures r <==> exists i :: 0 <= i < |dragged| && Covers(dragged[i].path, to.path)
  {
    if dragged == [] then false
    else Covers(dragged[0].path, to.path) || IsInvalidMove(dragged[1..], to)
  }

  /**
   * Containment is transitive: a folder cannot be dropped anywhere below its
   * own subfolders either.
   */
  lemma CoversTransitive(a: string, b: string, c: string)
    requires Covers(a, b) && Covers(b, c)
    ensures Covers(a, c)
  {
    if b != a && c != b {
      var x := b[|a| + 1..];
      var y := c[|b| + 1..];
      assert b == (a + "/") + x;
      assert c == (b + "/") + y;
      assert c == (a + "/") + (x + "/" + y);
    }
  }

  /** The `"/"` in the test keeps siblings apart: `/a` may go into `/ab`, but not into `/a/b`. */
  lemma SiblingsWithCommonPrefix()
    ensures !Covers("/a", "/ab") && Covers("/a", "/a/b")
  {
    assert "/ab"[..3] == "/ab" != "/a/";
    assert "/a/b"[..3] == "/a/";
  }

  /** The call `onMove(from, to, files)` a valid drop makes. */
  datatype MoveCall = MoveCall(from: Node?, to: Node, files: seq<Node>)

  /**
   * The hook's state. `hasOnMove` says whether the component was given an
   * `onMove` callback (`onMove?.(...)`).
   */
  class DragState {
    const hasOnMove: bool
    var draggedOver: seq<Node>
    var from: Node?

    constructor (hasOnMove: bool)
      ensures this.hasOnMove == hasOnMove && draggedOver == [] && from == null
    {
      this.hasOnMove := hasOnMove;
      draggedOver := [];
      from := null;
    }

    /** `handleDragStart`: remember the source folder and the dragged items as given. */
    method HandleDragStart(source: Node, files: seq<Node>)
      modifies this
      ensures from == source && draggedOver == files
    {
      from := source;
      draggedOver := files;
    }

    /**
     * `handleDragOver`: the browser's default handling is prevented and the
     * event goes no further; the drag state is left as it is.
     */
    method HandleDragOver() returns (prevented: bool, stopped: bool)
      ensures prevented && stopped
    {
      prevented, stopped := true, true;
    }

    /**
     * `handleDragLeave`: the same as `handleDragOver`. The drag state is
     * kept, because the lines that would clear it are commented out.
     */
    method HandleDragLeave() returns (prevented: bool, stopped: bool)
      ensures prevented && stopped
    {
      prevented, stopped := true, true;
    }

    /**
     * `handleDrop` onto `to`. An invalid move returns before anything else,
     * so no callback runs and the drag state is kept. Otherwise `onMove` is
     * called once with the remembered state, and the state is cleared
     * whether or not that call fails, because its failure is caught.
     */
    method HandleDrop(to: Node) returns (call: Option<MoveCall>)
      modifies this
      ensures IsInvalidMove(old(draggedOver), to) ==> call == None && draggedOver == old(draggedOver) && from == old(from)
      ensures !IsInvalidMove(old(draggedOver), to) ==>
        call == (if hasOnMove then Some(MoveCall(old(from), to, old(draggedOver))) else None) &&
        draggedOver == [] && from == null
    {
      var isInvalidMove := IsInvalidMove(draggedOver, to);
      if isInvalidMove {
        return None;
      }
      call := if hasOnMove then Some(MoveCall(from, to, draggedOver)) else None;
      draggedOver := [];
      from := null;
    }
  }
}
