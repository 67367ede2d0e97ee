/**
 * The address bar (src/components/FileManagerComp/AddressBar/index.tsx): a
 * text input over the flat list of folders with a drop-down of matching
 * folders and a highlighted row moved by the arrow keys. `folders` is the
 * widget's flat tree and a navigation goes to the tool bar's `Navigate`.
 */
module AddressBar {
  import opened Wrappers
  import opened Tree
  import opened Strings

  /**
   * The drop-down's test: a folder whose lower-cased path starts with the
   * lower-cased input, or whose lower-cased name contains it.
   */
  predicate Matches(folder: Node, value: string) {
    folder.kind == Folder &&
    (StartsWith(Lower(folder.path), Lower(value)) || Contains(Lower(folder.name), Lower(value)))
  }

  /** `handleFilterFolders(value)`: the matching folders, in the order of the flat list. */
  function FilterFolders(folders: seq<Node>, value: string): (r: seq<Node>)
    ensures |r| <= |folders|
    ensures forall i :: 0 <= i < |r| ==> r[i] in folders && Matches(r[i], value)
    ensures forall i :: 0 <= i < |folders| && Matches(folders[i], value) ==> folders[i] in r
  {
    if folders == [] then []
    else (if Matches(folders[0], value) then [folders[0]] else []) + FilterFolders(folders[1..], value)
  }

  /** Filtering keeps the relative order: the result is what remains of the list after dropping the rest. */
  lemma {:induction false} FilterAppend(a: seq<Node>, b: seq<Node>, value: string)
    ensures FilterFolders(a + b, value) == FilterFolders(a, value) + FilterFolders(b, value)
  {
    if a == [] {
      assert a + b == b;
    } else {
      assert (a + b)[0] == a[0] && (a + b)[1..] == a[1..] + b;
      FilterAppend(a[1..], b, value);
      Associative(if Matches(a[0], value) then [a[0]] else [], FilterFolders(a[1..], value), FilterFolders(b, value));
    }
  }

  /** Filtering twice by the same input changes nothing. */
  lemma {:induction false} FilterIdempotent(folders: seq<Node>, value: string)
    ensures FilterFolders(FilterFolders(folders, value), value) == FilterFolders(folders, value)
  {
    if folders != [] {
      FilterIdempotent(folders[1..], value);
      var head := if Matches(folders[0], value) then [folders[0]] else [];
      FilterAppend(head, FilterFolders(folders[1..], value), value);
      if Matches(folders[0], value) {
        assert [folders[0]][1..] == [];
        assert FilterFolders(head, value) == head + [];
      }
    }
  }

  /** An empty input matches every folder and nothing else. */
  lemma {:induction false} EmptyInputListsAllFolders(folders: seq<Node>)
    ensures forall n :: n in FilterFolders(folders, "") <==> n in folders && n.kind == Folder
  {
    forall n | n in folders && n.kind == Folder ensures Matches(n, "") {
      assert Lower("") == "";
      assert StartsWith(Lower(n.path), "");
    }
  }

  /** A folder that matches the longer input also matches the shorter one. */
  lemma MatchesShorter(folder: Node, value: string, c: char)
    requires Matches(folder, value + [c])
    ensures Matches(folder, value)
  {
    LowerAppend(value, c);
    var lv := Lower(value);
    var lc := Lower(value + [c]);
    assert lc[..|lv|] == lv;
    if StartsWith(Lower(folder.path), lc) {
      assert Lower(folder.path)[..|lv|] == lc[..|lv|];
    } else {
      var name := Lower(folder.name);
      var i :| 0 <= i <= |name| && StartsWith(name[i..], lc);
      assert name[i..][..|lv|] == lc[..|lv|];
      assert StartsWith(name[i..], lv);
    }
  }

  /**
   * Typing one more character only narrows the drop-down: filtering the
   * current list by the longer input gives the same as filtering all folders.
   */
  lemma {:induction false} TypingNarrows(folders: seq<Node>, value: string, c: char)
    ensures FilterFolders(FilterFolders(folders, value), value + [c]) == FilterFolders(folders, value + [c])
  {
    if folders != [] {
      TypingNarrows(folders[1..], value, c);
      var head := if Matches(folders[0], value) then [folders[0]] else [];
      FilterAppend(head, FilterFolders(folders[1..], value), value + [c]);
      if Matches(folders[0], value) {
        assert [folders[0]][1..] == [];
      } else if Matches(folders[0], value + [c]) {
        MatchesShorter(folders[0], value, c);
      }
    }
  }

  /** ArrowDown: one row further down, unless already on (or past) the last row. */
  function ArrowDownIndex(index: int, len: int): (r: int)
    ensures index <= r <= index + 1
    ensures r == index <==> index >= len - 1
    ensures index < len ==> r < len
  {
    if index < len - 1 then index + 1 else index
  }

  /** ArrowUp: one row further up while above the first row. */
  function ArrowUpIndex(index: int): (r: int)
    ensures index - 1 <= r <= index
    ensures r == index <==> index <= 0
    ensures index >= -1 ==> r >= -1
  {
    if index > 0 then index - 1 else index
  }

  /** The row after pressing ArrowDown `n` times. */
  function Downs(index: int, len: int, n: nat): int
    decreases n
  {
    if n == 0 then index else Downs(ArrowDownIndex(index, len), len, n - 1)
  }

  /** The row after pressing ArrowUp `n` times. */
  function Ups(index: int, n: nat): int
    decreases n
  {
    if n == 0 then index else Ups(ArrowUpIndex(index), n - 1)
  }

  /**
   * From no highlighted row, `n` ArrowDown presses highlight row `n - 1`,
   * stopping at the last row; with an empty list nothing is ever highlighted.
   */
  lemma {:induction false} DownsFromNothing(len: nat, n: nat)
    ensures Downs(-1, len, n) == if len == 0 then -1 else Min(n - 1, len - 1)
  {
    DownsFrom(-1, len, n);
  }

  function Min(a: int, b: int): int { if a < b then a else b }

  lemma {:induction false} DownsFrom(index: int, len: nat, n: nat)
    requires -1 <= index && (len == 0 ==> index == -1) && (len > 0 ==> index <= len - 1)
    ensures Downs(index, len, n) == if len == 0 then -1 else Min(index + n, len - 1)
    decreases n
  {
    if n > 0 {
      DownsFrom(ArrowDownIndex(index, len), len, n - 1);
    }
  }

  /** ArrowUp presses walk back to the first row and stay there; no highlight stays none. */
  lemma {:induction false} UpsStop(index: int, n: nat)
    ensures Ups(index, n) == if index <= 0 then index else if index - n > 0 then index - n else 0
    decreases n
  {
    if n > 0 {
      UpsStop(ArrowUpIndex(index), n - 1);
    }
  }

  class AddressBarState {
    /** The `folders` prop: the widget's flat tree. */
    const folders: seq<Node>
    /** The `path` prop: the path shown by the widget. */
    var path: string
    var inputValue: string
    var showDropdown: bool
    var filtered: seq<Node>
    var selectedIndex: int

    /**
     * The highlight is never below -1. It is not always within the list:
     * re-filtering (on focus, or on an input change without a key press)
     * leaves it alone, which is why Enter and Tab check it.
     */
    ghost predicate Valid()
      reads this
    {
      selectedIndex >= -1
    }

    constructor (path: string, folders: seq<Node>)
      ensures this.path == path && this.folders == folders
      ensures inputValue == path && !showDropdown && filtered == [] && selectedIndex == -1
      ensures Valid()
    {
      this.path := path;
      this.folders := folders;
      inputValue := path;
      showDropdown := false;
      filtered := [];
      selectedIndex := -1;
    }

    /**
     * The `path` prop on a re-render. The effect depends on `[path]`, so only
     * a path that differs from the last one overwrites whatever was typed;
     * the same path leaves the input alone.
     */
    method PathChanged(newPath: string)
      requires Valid()
      modifies this
      ensures Valid()
      ensures path == newPath
      ensures inputValue == if newPath == old(path) then old(inputValue) else newPath
      ensures showDropdown == old(showDropdown) && filtered == old(filtered) && selectedIndex == old(selectedIndex)
    {
      if newPath != path {
        inputValue := newPath;
      }
      path := newPath;
    }

    /** `handleInputChange`: the typed value is kept and the drop-down re-filtered by it. */
    method InputChange(value: string)
      requires Valid()
      modifies this
      ensures Valid()
      ensures inputValue == value && filtered == FilterFolders(folders, value)
      ensures path == old(path) && showDropdown == old(showDropdown) && selectedIndex == old(selectedIndex)
    {
      inputValue := value;
      filtered := FilterFolders(folders, value);
    }

    /** The input's focus handler: the drop-down opens, filtered by the current input. */
    method Focus()
      requires Valid()
      modifies this
      ensures Valid()
      ensures showDropdown && filtered == FilterFolders(folders, inputValue)
      ensures path == old(path) && inputValue == old(inputValue) && selectedIndex == old(selectedIndex)
    {
      showDropdown := true;
      filtered := FilterFolders(folders, inputValue);
    }

    /** `handleMouseEnter(index)` on a row of the open drop-down: that row is highlighted. */
    method MouseEnter(index: int)
      requires Valid() && showDropdown && 0 <= index < |filtered|
      modifies this
      ensures Valid()
      ensures selectedIndex == index
      ensures path == old(path) && inputValue == old(inputValue) && showDropdown == old(showDropdown) && filtered == old(filtered)
    {
      selectedIndex := index;
    }

    /**
     * `handleFolderSelect`, on a click on a row of the open drop-down or on
     * Enter: navigate to that folder's path and close the drop-down.
     */
    method FolderSelect(index: int) returns (navigate: string)
      requires Valid() && 0 <= index < |filtered|
      modifies this
      ensures Valid()
      ensures navigate == old(filtered)[index].path && !showDropdown
      ensures path == old(path) && inputValue == old(inputValue) && filtered == old(filtered) && selectedIndex == old(selectedIndex)
    {
      navigate := filtered[index].path;
      showDropdown := false;
    }

    /** The outside-click listener: the drop-down closes. */
    method ClickOutside()
      requires Valid()
      modifies this
      ensures Valid()
      ensures !showDropdown
      ensures path == old(path) && inputValue == old(inputValue) && filtered == old(filtered) && selectedIndex == old(selectedIndex)
    {
      showDropdown := false;
    }

    /**
     * `handleKeyDown(key)`; `navigate` is the path handed to `onNavigate`.
     * Enter navigates to the highlighted folder when a row within the list
     * is highlighted and to the typed text otherwise, and closes the
     * drop-down. Escape closes it, restores the path shown and drops the
     * highlight. ArrowDown opens it and moves the highlight down, never past
     * the last row; ArrowUp moves it up, never above the first row. Tab
     * copies the highlighted folder's path into the input. Any other key
     * drops the highlight.
     */
    method KeyDown(key: string) returns (navigate: Option<string>)
      requires Valid()
      modifies this
      ensures Valid()
      ensures navigate.Some? <==> key == "Enter"
      ensures key == "Enter" ==>
        (navigate.value == (if 0 <= old(selectedIndex) < |old(filtered)| then old(filtered)[old(selectedIndex)].path else old(inputValue)) &&
         !showDropdown && inputValue == old(inputValue) && selectedIndex == old(selectedIndex))
      ensures key == "Escape" ==> !showDropdown && inputValue == path && selectedIndex == -1
      ensures key == "ArrowDown" ==>
        showDropdown && inputValue == old(inputValue) && selectedIndex == ArrowDownIndex(old(selectedIndex), |filtered|)
      ensures key == "ArrowUp" ==>
        showDropdown == old(showDropdown) && inputValue == old(inputValue) && selectedIndex == ArrowUpIndex(old(selectedIndex))
      ensures key == "Tab" ==>
        (showDropdown == old(showDropdown) && selectedIndex == old(selectedIndex) &&
         inputValue == (if 0 <= old(selectedIndex) < |old(filtered)| then old(filtered)[old(selectedIndex)].path else old(inputValue)))
      ensures key !in ["Enter", "Escape", "ArrowDown", "ArrowUp", "Tab"] ==>
        showDropdown == old(showDropdown) && inputValue == old(inputValue) && selectedIndex == -1
      ensures old(selectedIndex) < |old(filtered)| ==> selectedIndex < |filtered|
      ensures path == old(path) && filtered == old(filtered)
    {
      navigate := None;
      if key == "Enter" {
        if selectedIndex >= 0 && selectedIndex < |filtered| {
          var folderPath := FolderSelect(selectedIndex);
          navigate := Some(folderPath);
        } else {
          navigate := Some(inputValue);
          showDropdown := false;
        }
      } else if key == "Escape" {
        showDropdown := false;
        inputValue := path;
        selectedIndex := -1;
      } else if key == "ArrowDown" {
        if !showDropdown {
          showDropdown := true;
        }
        selectedIndex := ArrowDownIndex(selectedIndex, |filtered|);
      } else if key == "ArrowUp" {
        selectedIndex := ArrowUpIndex(selectedIndex);
      } else if key == "Tab" {
        if selectedIndex >= 0 && selectedIndex < |filtered| {
          inputValue := filtered[selectedIndex].path;
        }
      } else {
        selectedIndex := -1;
      }
    }
  }
}
