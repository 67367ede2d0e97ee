/**
 * `useFileDrop` (src/components/FileManagerComp/hooks/useFileDrop.ts): the
 * `isDragging` flag that lights up the drop zone while files from the
 * operating system are dragged over the widget.
 */
module FileDrop {
  import opened Wrappers

  class DropTarget {
    const disabled: bool
    var isDragging: bool

    /** The flag is never raised on a disabled target. */
    ghost predicate Valid()
      reads this
    {
      disabled ==> !isDragging
    }

    constructor (disabled: bool)
      ensures this.disabled == disabled && !isDragging && Valid()
    {
      this.disabled := disabled;
      isDragging := false;
    }

    /** `handleDragEnter`: raise the flag, unless disabled or the drag carries no files. */
    method DragEnter(types: seq<string>)
      requires Valid()
      modifies this
      ensures Valid()
      ensures isDragging == if !disabled && "Files" in types then true else old(isDragging)
    {
      if disabled || "Files" !in types {
        return;
      }
      isDragging := true;
    }

    /** `handleDragLeave`: a move into one of the container's own descendants keeps the flag; leaving the container lowers it. */
    method DragLeave(intoDescendant: bool)
      requires Valid()
      modifies this
      ensures Valid()
      ensures isDragging == if intoDescendant then old(isDragging) else false
    {
      if intoDescendant {
        return;
      }
      isDragging := false;
    }

    /** `handleDragOver`: the drop effect it asks for (`"copy"` unless disabled); the flag is untouched. */
    method DragOver() returns (dropEffect: Option<string>)
      ensures dropEffect == if disabled then None else Some("copy")
    {
      if disabled {
        return None;
      }
      dropEffect := Some("copy");
    }

    /** `handleDrop`: always lower the flag; hand every item to `onFileDrop` only when enabled. */
    method Drop<T>(items: seq<T>) returns (delivered: Option<seq<T>>)
      requires Valid()
      modifies this
      ensures Valid() && !isDragging
      ensures delivered == if disabled then None else Some(items)
    {
      isDragging := false;
      if disabled {
        return None;
      }
      delivered := Some(items);
    }
  }
}
