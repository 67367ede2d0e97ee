/**
 * The list view (src/components/FileManagerComp/FileList/index.tsx): column
 * headers that choose the sort order, and clicks that change the selection.
 * The component keeps two pieces of state of its own, the sort order and the
 * anchor of range selection (`lastSelectedItem`); the selection itself is
 * handed to the `onSelect` callback.
 */
module FileList {
  import opened Wrappers
  import opened Tree
  import opened Sorting
  import opened Selection

  /** `handleSort`'s new order: descending only when the same header is clicked while ascending. */
  function NextConfig(current: SortConfig, field: Field): (r: SortConfig)
    ensures r.field == field
    ensures r.direction == Desc <==> current == SortConfig(field, Asc)
  {
    SortConfig(field, if current.field == field && current.direction == Asc then Desc else Asc)
  }

  /** Clicking the same header again always reverses the direction. */
  lemma SameHeaderAlternates(current: SortConfig, field: Field)
    ensures NextConfig(NextConfig(current, field), field).direction != NextConfig(current, field).direction
  {
  }

  /** Clicking a different header always starts ascending. */
  lemma OtherHeaderStartsAscending(current: SortConfig, field: Field)
    requires current.field != field
    ensures NextConfig(current, field) == SortConfig(field, Asc)
  {
  }

  class FileListView {
    var sortConfig: SortConfig
    var anchor: Node?

    constructor ()
      ensures sortConfig == SortConfig(Name, Asc) && anchor == null
    {
      sortConfig := SortConfig(Name, Asc);
      anchor := null;
    }

    /**
     * `handleSort(field)`: the new order is stored and the current folder's
     * children are re-sorted by it; `shown` is the new `children`.
     */
    method HandleSort(field: Field, children: seq<Node>) returns (shown: seq<Node>)
      modifies this
      ensures sortConfig == NextConfig(old(sortConfig), field) && anchor == old(anchor)
      ensures shown == SortFiles(sortConfig, children)
      ensures multiset(shown) == multiset(children)
    {
      sortConfig := NextConfig(sortConfig, field);
      shown := SortFiles(sortConfig, children);
    }

    /**
     * `handleItemClick(file, event)`: `selection` is what goes to
     * `onSelect` (nothing when the call is skipped), and the anchor moves as
     * `ItemClick` says.
     */
    method HandleItemClick(file: Node, children: seq<Node>, selected: seq<Node>, ctrl: bool, meta: bool, shift: bool)
      returns (selection: Option<seq<Node>>)
      modifies this
      ensures Click(selection, anchor) == ItemClick(file, children, selected, old(anchor), ctrl, meta, shift)
      ensures sortConfig == old(sortConfig)
    {
      var click := ItemClick(file, children, selected, anchor, ctrl, meta, shift);
      selection := click.selection;
      anchor := click.anchor;
    }
  }
}
