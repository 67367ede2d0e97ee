/**
 * The grid view (src/components/FileManagerComp/FileGrid/index.tsx): the
 * same click rules as the list, kept with their own anchor, plus the
 * keyboard commit of an in-place rename.
 */
module FileGrid {
  import opened Wrappers
  import opened Tree
  import opened Selection

  /**
   * A key pressed in the rename box: Enter commits what was typed, Escape
   * commits the original name (so the rename is undone by the callback),
   * and any other key commits nothing. The result is the `value` handed to
   * `onRename(file, value)`.
   */
  function RenameKey(file: Node, key: string, typed: string): (r: Option<string>)
    ensures r.Some? <==> key == "Enter" || key == "Escape"
    ensures key == "Escape" ==> r == Some(file.name)
    ensures key == "Enter" ==> r == Some(typed)
  {
    if key == "Enter" then Some(typed)
    else if key == "Escape" then Some(file.name)
    else None
  }

  /** Escape and an Enter on an untouched box commit the same name. */
  lemma EscapeIsUntouchedEnter(file: Node)
    ensures RenameKey(file, "Escape", "") == RenameKey(file, "Enter", file.name)
  {
  }

  class FileGridView {
    var anchor: Node?

    constructor ()
      ensures anchor == null
    {
      anchor := null;
    }

    /** `handleItemClick(file, event)`, as in the list view. */
    method HandleItemClick(file: Node, children: seq<Node>, selected: seq<Node>, ctrl: bool, meta: bool, shift: bool)
      returns (selection: Option<seq<Node>>)
      modifies this
      ensures Click(selection, anchor) == ItemClick(file, children, selected, old(anchor), ctrl, meta, shift)
    {
      var click := ItemClick(file, children, selected, anchor, ctrl, meta, shift);
      selection := click.selection;
      anchor := click.anchor;
    }
  }
}
