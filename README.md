# react-file-mng, modelled in Dafny

This project models the logic under the JSX of the React file-manager widget
`react-file-mng`, and proves what that logic promises. It covers:

- the tree search `deepFind` and the tree the widget derives from the caller's files;
- folder-first sorting;
- the navigation history behind the Back, Forward, Up and Home buttons;
- the selection, clipboard and rename handlers;
- drag-and-drop moves and the upload paths of dropped OS files;
- the address-bar autocomplete;
- the keyboard shortcuts;
- the context menu's rules for disabled entries;
- `isImageExtension`.

Each source file becomes one module:

| module | source file | form |
|---|---|---|
| `Tree` | `types/index.ts` (`FileItem`) | `class Node`; `parent` and `editing` are mutable, the rest is constant. The pre-order `Walk` of a forest |
| `DeepFind` | `src/utils/deepFind.ts` | imperative search over a forest. It may stamp `parent` in place and is specified by the pure `Found`/`Visited` |
| `ImageExtension`, `Strings` | `src/utils/isImageExtension.ts` and the string helpers used throughout | functions |
| `DragAndDrop`, `FileDrop` | `hooks/useDragAndDrop.ts`, `hooks/useFileDrop.ts` | classes holding the hooks' state |
| `Shortcuts` | `hooks/useGlobalShortcuts.ts` | a function from key event to action |
| `Sorting`, `Selection`, `FileList`, `FileGrid` | `FileList/index.tsx`, `FileGrid/index.tsx`, and `sortFiles` in `index.tsx` | functions for the comparator, the sort and the click rules; classes for the views' anchor and sort state |
| `History`, `RealFiles`, `Upload`, `FileManager` | `FileManagerComp/index.tsx` | `class Manager` holds the widget's state. Its methods are the handlers |
| `ToolBar` | `ToolBar/index.tsx` | methods on a `Manager` |
| `AddressBar` | `AddressBar/index.tsx` | `class AddressBarState` and the pure filter |
| `ContextMenu` | `ContextMenu/index.tsx` | functions |

Every `await onX(...)` becomes a boolean parameter `ok`: the caller's promise
resolved or rejected. When it rejects, the statements after the `await` do not
run. `uuid v4` becomes a `freshId` parameter that is not already an id in the
history stack. `Date.now()` becomes a `now` parameter. A dropped entry that
the browser reads from disk becomes a value of `Upload.Entry`. The selection
code compares items by reference (`includes`, `findIndex`, `!==`). The model
compares `Node` objects by identity, so it needs no assumption that ids are
unique.

Some details of the code that the model follows as written:

- `updateRealFiles` (`index.tsx:107-134`) stamps `parent` onto the caller's
  own nodes and returns them. It does not copy them.
- The tool bar's `onNavigate` is the wrapper at `index.tsx:643-647`. The
  wrapper clears the selection before awaiting, so a failed navigation still
  clears it.
- A rejected paste skips `setCutSelectedItems([])`, so the cut list survives.
- In `FileList` and `FileGrid`, Ctrl and Meta are tested before Shift. So
  Ctrl+Shift behaves exactly like Ctrl, and the union code at
  `FileList/index.tsx:185-188` cannot be reached.
- In the address bar, neither choosing a folder nor re-filtering resets the
  highlight index. The index can therefore point past the end of a shorter
  list. Enter and Tab check the range before using it, so the only invariant
  kept is `selectedIndex >= -1`. `KeyDown` proves that it never moves an
  in-range index out of range.
- `deepFind` with `structure` is never called by the widget itself, which
  uses it only for lookups.

## Model

| member | source | states |
|---|---|---|
| Tree.Node.constructor | src/components/FileManagerComp/types/index.ts:5-17 | a new item carries the given id, name, path, type, size, date and children, with no parent and not in rename mode |
| DeepFind.Search | src/utils/deepFind.ts:1-29 | throws exactly when the input is not an array. Otherwise returns the first node, in depth-first pre-order, that the predicate accepts, or undefined. The predicate is called on exactly the visits up to and including that match. With `structure` set, every visited node's `parent` becomes its enclosing node, and nodes that were not visited keep theirs |
| DeepFind.Core | src/utils/deepFind.ts:14-25 | `core(arr, parent)` returns the first accepted node of the pre-order walk below `parent` and makes exactly the calls up to it. It stamps exactly those calls' parents |
| DeepFind.Step | src/utils/deepFind.ts:15-24 | one iteration of the `for` loop: either the match is in this item's subtree and the search stops, or the walk continues with the next sibling |
| DeepFind.SetParent | src/utils/deepFind.ts:18 | `item.parent = parent` changes that one field and records it |
| DeepFind.FirstMatchIsFirst | src/utils/deepFind.ts:16-22 | every visit before the match is rejected by the predicate, and the match is accepted |
| DeepFind.FoundAppend | src/utils/deepFind.ts:15-24 | searching two walks in a row finds the first walk's match if it has one, and otherwise continues into the second; the calls made agree |
| DeepFind.Visited | src/utils/deepFind.ts:16-22 | the calls made form a prefix of the pre-order walk: nothing after the match is visited |
| DeepFind.StampAt | src/utils/deepFind.ts:18 | when no node occurs twice, stamping gives every visited node the parent it was visited under |
| DeepFind.StampOutside | src/utils/deepFind.ts:18 | a node that was not visited keeps its `parent` |
| Tree.WalkAppend | src/utils/deepFind.ts:15-23 | the pre-order walk of two sibling lists is the walk of the first followed by the walk of the second |
| ImageExtension.IsImageExtension | src/utils/isImageExtension.ts:1-20 | true exactly when the lowercased text after the last dot is one of the nine listed extensions; the extension is then non-empty and ends the name |
| ImageExtension.LastDotDecides | src/utils/isImageExtension.ts:14 | only the text after the last dot counts: `p + "." + e` answers as `e` does |
| ImageExtension.WholeNameWithoutDot | src/utils/isImageExtension.ts:14 | a name without a dot is tested whole, so "png" is an image |
| ImageExtension.CaseInsensitive | src/utils/isImageExtension.ts:17 | two names that differ only in letter case get the same answer |
| ImageExtension.EmptyExtension | src/utils/isImageExtension.ts:15 | an empty name, or a name ending in a dot, is never an image |
| ImageExtension.AfterLastDotSplit | src/utils/isImageExtension.ts:14 | `split('.').at(-1)` of `p + "." + e` is `e` when `e` has no dot |
| Strings.AfterLastDot | src/utils/isImageExtension.ts:14 | the text after the last dot, or the whole string without one: it has no dot and ends the string |
| Strings.Lower | src/utils/isImageExtension.ts:17 | `toLowerCase` keeps the length and maps each character |
| Strings.Upper | src/components/FileManagerComp/hooks/useGlobalShortcuts.ts:37 | `toUpperCase` keeps the length and maps each character |
| Strings.StrCmp | src/components/FileManagerComp/index.tsx:167 | `localeCompare` as a three-way comparison returning -1, 0 or 1 |
| Strings.StrCmpZero | src/components/FileManagerComp/index.tsx:167 | the comparison is zero exactly on equal strings |
| Strings.StrCmpAntisymmetric | src/components/FileManagerComp/index.tsx:167 | swapping the operands negates the comparison |
| Strings.StrCmpTransitive | src/components/FileManagerComp/index.tsx:167 | the comparison is transitive |
| DragAndDrop.IsInvalidMove | src/components/FileManagerComp/hooks/useDragAndDrop.ts:39-41 | a drop is invalid exactly when some dragged item's path is the target's path, or a prefix of it followed by "/" |
| DragAndDrop.SiblingsWithCommonPrefix | src/components/FileManagerComp/hooks/useDragAndDrop.ts:40 | `/a` onto `/ab` is allowed and `/a` onto `/a/b` is rejected |
| DragAndDrop.CoversTransitive | src/components/FileManagerComp/hooks/useDragAndDrop.ts:40 | a folder's subtree contains the subtrees of the folders inside it |
| DragAndDrop.DragState.constructor | src/components/FileManagerComp/hooks/useDragAndDrop.ts:9-10 | nothing is dragged and there is no source at first |
| DragAndDrop.DragState.HandleDragStart | src/components/FileManagerComp/hooks/useDragAndDrop.ts:12-18 | records the source folder and the dragged list exactly as given |
| DragAndDrop.DragState.HandleDragOver | src/components/FileManagerComp/hooks/useDragAndDrop.ts:20-23 | prevents the default and stops propagation; the drag state is not touched |
| DragAndDrop.DragState.HandleDragLeave | src/components/FileManagerComp/hooks/useDragAndDrop.ts:25-30 | the same: the drag state is kept, because the clearing lines are commented out |
| DragAndDrop.DragState.HandleDrop | src/components/FileManagerComp/hooks/useDragAndDrop.ts:32-56 | an invalid drop calls nothing and keeps the drag state. A valid one calls `onMove(from, to, draggedOver)` once and then clears the state, whatever the call's outcome |
| FileDrop.DropTarget.constructor | src/components/FileManagerComp/hooks/useFileDrop.ts:12 | starts not dragging |
| FileDrop.DropTarget.DragEnter | src/components/FileManagerComp/hooks/useFileDrop.ts:14-25 | sets `isDragging` only when enabled and the data types include "Files"; otherwise nothing changes |
| FileDrop.DropTarget.DragLeave | src/components/FileManagerComp/hooks/useFileDrop.ts:27-35 | a leave into a descendant changes nothing; any other leave clears `isDragging` |
| FileDrop.DropTarget.DragOver | src/components/FileManagerComp/hooks/useFileDrop.ts:37-48 | never changes `isDragging`; sets the copy effect only when enabled |
| FileDrop.DropTarget.Drop | src/components/FileManagerComp/hooks/useFileDrop.ts:50-63 | always clears `isDragging`, and hands every item on only when enabled |
| Shortcuts.HandleKeyDown | src/components/FileManagerComp/hooks/useGlobalShortcuts.ts:26-88 | at most one action fires, never from an input or textarea or while disabled, and default handling is prevented exactly when one fires |
| Shortcuts.IsMac | src/components/FileManagerComp/hooks/useGlobalShortcuts.ts:37 | the platform string, upper-cased, contains "MAC" |
| Shortcuts.Modifier | src/components/FileManagerComp/hooks/useGlobalShortcuts.ts:38 | the command key is Meta on a Mac and Ctrl elsewhere. `Shortcuts.DispatchMatchesBindings` states its use |
| Shortcuts.DispatchMatchesBindings | src/components/FileManagerComp/hooks/useGlobalShortcuts.ts:37-87 | an action fires exactly when its binding is pressed. The bindings are Ctrl (Cmd on a Mac) with c, x, v, a or n, matched without case, and F2 and Delete without the modifier, matched exactly |
| Shortcuts.UnboundKeyDoesNothing | src/components/FileManagerComp/hooks/useGlobalShortcuts.ts:47-87 | a key that matches no binding neither fires nor prevents anything |
| Shortcuts.ModifierKeysIgnoreCase | src/components/FileManagerComp/hooks/useGlobalShortcuts.ts:48 | with the modifier held, an upper-case key acts as its lower-case form |
| Sorting.SortFiles | src/components/FileManagerComp/index.tsx:151-197 | the result is a permutation of the input; every folder comes before every file; within each group, neighbours in any order are in comparator order |
| Sorting.Compare | src/components/FileManagerComp/index.tsx:164-187 | `compareItems` by name, extension, size or date, in the configured direction, with ties on size and date broken by ascending name. Its properties are the lemmas below |
| Sorting.CompareZero | src/components/FileManagerComp/index.tsx:164-187 | two items compare level exactly when their names agree and, for size or date, so do their sizes or dates |
| Sorting.Ext | src/components/FileManagerComp/index.tsx:159-161 | the extension compared by type: no longer than the name, with no dot and no upper-case letter |
| Sorting.Folders | src/components/FileManagerComp/index.tsx:154 | `filter(type === "folder")`: only folders |
| Sorting.NonFolders | src/components/FileManagerComp/index.tsx:155 | `filter(type !== "folder")`: no folders |
| Sorting.NameAndTypeFollowDirection | src/components/FileManagerComp/index.tsx:166-172 | for name and type, descending is exactly the negation of ascending |
| Sorting.EqualKeysTieOnNameAscending | src/components/FileManagerComp/index.tsx:174-182 | for size and date, equal keys fall back to ascending name whatever the direction |
| Sorting.CompareAntisymmetric | src/components/FileManagerComp/index.tsx:164-187 | swapping two items negates `compareItems` |
| Sorting.CompareTransitive | src/components/FileManagerComp/index.tsx:164-187 | `compareItems` is transitive for every field and direction |
| Sorting.CompareIsTotalPreorder | src/components/FileManagerComp/index.tsx:164-187 | `compareItems` is a consistent comparator, as `Array.prototype.sort` requires |
| Sorting.Sort | src/components/FileManagerComp/index.tsx:190-191 | `[...xs].sort(cmp)` returns a permutation that is sorted whenever the comparator is consistent |
| Sorting.Insert | src/components/FileManagerComp/index.tsx:190-191 | inserting one item adds exactly that item |
| Sorting.InsertSorted | src/components/FileManagerComp/index.tsx:190-191 | inserting into a sorted list keeps it sorted |
| Sorting.SplitByKind | src/components/FileManagerComp/index.tsx:154-155 | the folders and the other items together are exactly the input |
| Sorting.JoinGroups | src/components/FileManagerComp/index.tsx:194 | joining the sorted folders and the sorted files puts all folders first and keeps each group in order |
| Sorting.SortKeepsKind | src/components/FileManagerComp/index.tsx:190-191 | sorting a group of one kind yields only that kind |
| Lists.IndexOf | src/components/FileManagerComp/FileList/index.tsx:169-174 | `findIndex`/`indexOf`: the first position holding the value, or -1 exactly when it is absent |
| Lists.Remove | src/components/FileManagerComp/FileList/index.tsx:161 | `filter(item => item !== file)`: no kept item is the removed value, every other item is kept, and nothing changes when the value is absent |
| Lists.RemoveAppend | src/components/FileManagerComp/FileList/index.tsx:161 | filtering a concatenation filters each part, so the kept items stay in their order |
| Lists.RemoveOne | src/components/FileManagerComp/FileList/index.tsx:161 | on one item, the filter keeps it exactly when it is not the removed value |
| Lists.Dedup | src/components/FileManagerComp/FileList/index.tsx:187 | `Array.from(new Set(...))`: the same members, each once, in the order of their first occurrence |
| Selection.RemoveLast | src/components/FileManagerComp/FileList/index.tsx:160-162 | removing an item just appended to a list without it gives the list back |
| Selection.Toggle | src/components/FileManagerComp/FileList/index.tsx:160-162 | the clicked item is in the result exactly when it was not selected. An unselected item is appended at the end. A selected one is filtered out, and the others keep their order |
| Selection.ToggleTwice | src/components/FileManagerComp/FileList/index.tsx:160-162 | two Ctrl-clicks on an unselected item restore the selection |
| Selection.Range | src/components/FileManagerComp/FileList/index.tsx:177-182 | the inclusive slice between two positions holds both ends and only children |
| Selection.ItemClick | src/components/FileManagerComp/FileList/index.tsx:157-198 | Ctrl or Meta toggles the item and makes it the anchor. Shift with an anchor keeps the anchor and selects a range holding both ends |
| Selection.PlainClick | src/components/FileManagerComp/FileList/index.tsx:194-197 | a plain click, or Shift without an anchor, selects only the item and makes it the anchor |
| Selection.CtrlShiftIsCtrlClick | src/components/FileManagerComp/FileList/index.tsx:159-188 | with Ctrl or Meta held, Shift makes no difference, so the union at lines 185-188 never runs |
| Selection.ShiftClickSelectsRange | src/components/FileManagerComp/FileList/index.tsx:168-190 | Shift with an anchor selects exactly the children between the anchor's and the item's first positions, inclusive, and keeps the anchor |
| Selection.ShiftClickOutside | src/components/FileManagerComp/FileList/index.tsx:176 | when the anchor or the item is not a child, Shift-click selects nothing new and keeps the anchor |
| Selection.ContextSelect | src/components/FileManagerComp/FileList/index.tsx:240-242 | right-click replaces the selection with exactly `[file]` when at most one item is selected, and otherwise keeps the selection |
| Selection.DraggedItems | src/components/FileManagerComp/FileList/index.tsx:250 | dragging carries the selection when it is non-empty, and otherwise just the item |
| Selection.DoubleClick | src/components/FileManagerComp/FileGrid/index.tsx:112-116 | a double-click navigates exactly on folders, to that folder |
| FileList.NextConfig | src/components/FileManagerComp/FileList/index.tsx:104-111 | the new field is the clicked one; it is descending exactly when the same field was ascending |
| FileList.SameHeaderAlternates | src/components/FileManagerComp/FileList/index.tsx:105-111 | clicking the same header twice flips the direction each time |
| FileList.OtherHeaderStartsAscending | src/components/FileManagerComp/FileList/index.tsx:105-111 | a different header starts ascending |
| FileList.FileListView.constructor | src/components/FileManagerComp/FileList/index.tsx:29-57 | the list starts sorted by name, ascending, with no anchor |
| FileList.FileListView.HandleSort | src/components/FileManagerComp/FileList/index.tsx:104-117 | stores the next sort setting and shows the folder's children sorted by it, a permutation of them |
| FileList.FileListView.HandleItemClick | src/components/FileManagerComp/FileList/index.tsx:157-198 | the new selection and anchor are those of the click rules |
| FileGrid.FileGridView.constructor | src/components/FileManagerComp/FileGrid/index.tsx:31-33 | the grid starts with no anchor |
| FileGrid.FileGridView.HandleItemClick | src/components/FileManagerComp/FileGrid/index.tsx:35-76 | the grid follows the same click rules as the list |
| FileGrid.RenameKey | src/components/FileManagerComp/FileGrid/index.tsx:153-163 | only Enter and Escape commit; Enter commits the typed text and Escape the original name |
| FileGrid.EscapeIsUntouchedEnter | src/components/FileManagerComp/FileGrid/index.tsx:155-161 | Escape commits what Enter would with the name left as it was |
| History.HistoryIndex | src/components/FileManagerComp/index.tsx:240-242 | the position of the current entry's id in the stack, or -1 exactly when no entry has it |
| History.HistoryIndexAt | src/components/FileManagerComp/index.tsx:240-242 | with distinct ids, an entry's index is its position |
| History.CurrentFound | src/components/FileManagerComp/index.tsx:240-242 | in a consistent history the current entry is found, at its own position |
| History.CanGoBack | src/components/FileManagerComp/ToolBar/index.tsx:54-57 | Back is enabled only when the current index is above 0 |
| History.CanGoForward | src/components/FileManagerComp/ToolBar/index.tsx:58-62 | Forward is enabled only when the current index is below the last |
| History.GuardsMatchNeighbours | src/components/FileManagerComp/ToolBar/index.tsx:54-84 | Back (Forward) is enabled exactly when an entry exists before (after) the current one; a one-entry stack allows neither |
| History.BranchFromCurrent | src/components/FileManagerComp/index.tsx:255-263 | cutting after the current entry and appending a fresh one keeps ids distinct; the new entry is last and current, Forward is disabled, Back is enabled and leads to the old current entry |
| History.AppendAtEnd | src/components/FileManagerComp/ToolBar/index.tsx:45-51 | appending a fresh entry keeps ids distinct and makes it last and current, and any forward entries stay in the stack |
| History.BackThenForward | src/components/FileManagerComp/ToolBar/index.tsx:66-84 | Back then Forward returns to the same entry |
| History.ForwardThenBack | src/components/FileManagerComp/ToolBar/index.tsx:66-84 | Forward then Back returns to the same entry |
| History.AppendFresh | src/components/FileManagerComp/ToolBar/index.tsx:47 | a fresh id keeps the stack's ids distinct |
| RealFiles.UpdateRealFiles | src/components/FileManagerComp/index.tsx:107-134 | returns one new root folder: id "0", path "/", size 0, the given time, no parent, and the caller's files as its children. When no node occurs twice, every nested node's `parent` becomes its enclosing folder (`RealFiles.ParentsLinked`) |
| RealFiles.DeepMap | src/components/FileManagerComp/index.tsx:108-119 | returns the same list and stamps `parent` on every linked node of the pre-order walk |
| RealFiles.MapStep | src/components/FileManagerComp/index.tsx:112-118 | one item of `arr.map`: stamps the item under its parent and recurses into its children |
| RealFiles.RootWalk | src/components/FileManagerComp/index.tsx:120-133 | the walk from the new root is the root followed by the caller's files visited under it |
| RealFiles.FlatRealFiles | src/components/FileManagerComp/index.tsx:211-226 | the flat list is the pre-order walk's nodes |
| RealFiles.Flat | src/components/FileManagerComp/index.tsx:211-226 | the pre-order list of every node, descending into every node. `RealFiles.FlatIsWalk` states it equals the walk |
| RealFiles.FlatMap | src/components/FileManagerComp/index.tsx:214-221 | `flatMap(arr)` appends exactly the pre-order of `arr` to `result` |
| RealFiles.FlatIsWalk | src/components/FileManagerComp/index.tsx:211-226 | the flat list is the pre-order walk, whatever parent it is walked under |
| RealFiles.FlatDistinct | src/components/FileManagerComp/index.tsx:211-226 | when no node occurs twice in the tree, every node appears in the flat list exactly once |
| FileManager.IdsOf | src/components/FileManagerComp/index.tsx:276 | the ids of the items, position by position |
| FileManager.Tagged | src/components/FileManagerComp/index.tsx:307-309 | each selected item, in order, tagged with the folder it was cut from |
| FileManager.InitialEntry | src/components/FileManagerComp/index.tsx:232-236 | the first history entry records the start folder; an empty id becomes "0" and an empty path becomes "/" |
| FileManager.WithSortedChildren | src/components/FileManagerComp/index.tsx:204-207 | a fresh copy of the folder with every field kept and the children sorted |
| FileManager.SortFilesMembers | src/components/FileManagerComp/index.tsx:151-197 | sorting keeps exactly the same members |
| FileManager.ClearEditing | src/components/FileManagerComp/index.tsx:284-287 | every child leaves rename mode |
| FileManager.MarkEditing | src/components/FileManagerComp/index.tsx:337-342 | exactly the children whose ids are selected enter rename mode; the others keep their flag |
| FileManager.ResortClearing | src/components/FileManagerComp/index.tsx:282-288 | the shown folder becomes a fresh copy that keeps its id, name, path, type, size, date, parent and flag, with its children re-sorted; none of them is in rename mode |
| FileManager.ResortMarking | src/components/FileManagerComp/index.tsx:334-344 | the shown folder becomes a fresh copy that keeps its id, name, path, type, size, date, parent and flag, with its children re-sorted; the selected children are in rename mode |
| FileManager.FindById | src/components/FileManagerComp/index.tsx:93 | `deepFind(files, item => item.id === key)`: the first node in pre-order with that id, which then has the key as its id, or null when there is none |
| FileManager.RootFolder | src/components/FileManagerComp/index.tsx:89-105 | the root is the first node whose id is the initial key; failing that, a new "/" folder with id "0" holding the files |
| FileManager.Mount | src/components/FileManagerComp/index.tsx:89-209 | mounting builds the root, the parent-linked tree and its flat list. It starts with one history entry and no selection or clipboard. It then applies the opened key: either the found node's sorted copy and path, or the root and "/". When no node occurs twice, every nested node's `parent` is its enclosing folder |
| FileManager.Manager.constructor | src/components/FileManagerComp/index.tsx:72-239 | the first render's state: path "/", the root shown, one history entry, nothing selected, copied or cut, sorted by name ascending |
| FileManager.Manager.OpenKey | src/components/FileManagerComp/index.tsx:200-209 | when a node has the opened key, the first one in pre-order is shown as a fresh copy. The copy has the node's id, name, path, type, size, date and parent, with its children sorted. Its path becomes the path shown. Otherwise nothing changes |
| FileManager.Manager.Show | src/components/FileManagerComp/index.tsx:203-207 | `setPath(cur.path)` with `setCurrentFolder(...)`: the folder shown and its path change together, and nothing else |
| FileManager.Manager.HandleFileListNavigate | src/components/FileManagerComp/index.tsx:249-274 | calls `onNavigate(file, file.path)`. On success the stack is cut after the current entry and a fresh entry for the file is appended and made current, the path is set and the selection cleared; on failure nothing changes |
| FileManager.Manager.BranchEntry | src/components/FileManagerComp/index.tsx:255-263 | the history step of that navigation, keeping ids distinct and the current entry in the stack |
| FileManager.Manager.AppendEntry | src/components/FileManagerComp/ToolBar/index.tsx:44-51 | the tool bar's step after a navigation resolves: the path is shown and a fresh entry is appended at the end and made current |
| FileManager.Manager.HandleFileListSelect | src/components/FileManagerComp/index.tsx:275-278 | the items and their ids are set together, so the two lists stay in step |
| FileManager.Manager.HandleFileListRename | src/components/FileManagerComp/index.tsx:279-292 | calls `onRename(file, value)` after clearing every child's rename flag and re-sorting the shown folder, whose copy keeps every other field of the folder; the rest of the state is unchanged |
| FileManager.Manager.HandleContextMenuCopy | src/components/FileManagerComp/index.tsx:299-303 | the copy list becomes the selection and the cut list is emptied |
| FileManager.Manager.HandleContextMenuCut | src/components/FileManagerComp/index.tsx:304-310 | the copy list is emptied and the cut list becomes the selection tagged with the shown folder |
| FileManager.Manager.HandleContextMenuPaste | src/components/FileManagerComp/index.tsx:311-324 | pastes the copy list if there is one, otherwise moves the cut list from its first item's folder, otherwise calls nothing. The cut list is emptied unless the call fails; the copy list is kept |
| FileManager.Manager.HandleContextMenuDelete | src/components/FileManagerComp/index.tsx:325-331 | calls `onDelete` with the shown folder, the selected ids and the selected items, which agree position by position |
| FileManager.Manager.HandleContextMenuRename | src/components/FileManagerComp/index.tsx:332-345 | re-sorts the shown folder, whose copy keeps every other field of the folder, and puts exactly the selected children into rename mode; the rest of the state is unchanged |
| FileManager.Manager.HandleContextMenuDownload | src/components/FileManagerComp/index.tsx:346-348 | downloads the first selected item, and undefined when nothing is selected |
| FileManager.Manager.HandleContextMenuCreateFolder | src/components/FileManagerComp/index.tsx:373-375 | `onCreateFolder` gets the shown folder |
| FileManager.Manager.SelectAll | src/components/FileManagerComp/ContextMenu/index.tsx:70-73 | selects every child of the shown folder, ids and items in step |
| FileManager.Manager.ResetState | src/components/FileManagerComp/index.tsx:583-587 | a click elsewhere clears the selection and nothing else |
| Upload.FolderDir | src/components/FileManagerComp/index.tsx:354-356 | the folder path ends in "/" and extends the path by at most that "/"; it is the path itself exactly when the path already ends in "/" |
| Upload.ProcessEntry | src/components/FileManagerComp/index.tsx:383-426 | `processEntry`. What it collects is stated by `Upload.EntryPaths` against the reference `Upload.Leaves` |
| Upload.ProcessAll | src/components/FileManagerComp/index.tsx:397-421 | a directory's entries processed in order and joined. It is stated by `Upload.AllPaths` |
| Upload.AfterFirst | src/components/FileManagerComp/index.tsx:497 | `path.slice(1)`: everything after the first character, and "" for "" |
| Upload.PickedUpload | src/components/FileManagerComp/index.tsx:349-372 | `onUpload` is called exactly when at least one file was picked; each file goes directly under the folder under its own name |
| Upload.EntryPaths | src/components/FileManagerComp/index.tsx:383-426 | `processEntry(entry, base)` gives each file inside the entry the path `base` followed by "/name" for every name on the way down; other entries give nothing |
| Upload.AllPaths | src/components/FileManagerComp/index.tsx:383-426 | processing a list of entries gives all their files, in order, with those paths |
| Upload.PathsPrefixed | src/components/FileManagerComp/index.tsx:397-421 | recursing into a directory is the same as extending the base path by "/" and its name |
| Upload.Present | src/components/FileManagerComp/index.tsx:485-490 | the entries collected are exactly the items that have one |
| Upload.Rebase | src/components/FileManagerComp/index.tsx:495-498 | each path is moved under the folder by dropping its first character |
| Upload.DropListLeaves | src/components/FileManagerComp/index.tsx:476-514 | a drop uploads every file inside the dropped entries, in order, at the folder path ending in "/" followed by the names down to the file joined with "/" |
| Upload.HandleFileDrop | src/components/FileManagerComp/index.tsx:476-514 | `onUpload` is called exactly when the drop yields files, with the shown folder and exactly that list |
| ToolBar.FindByPath | src/components/FileManagerComp/ToolBar/index.tsx:37 | finds a node with the path, in the flat list, exactly when there is one |
| ToolBar.FindByPathIsFirst | src/components/FileManagerComp/ToolBar/index.tsx:37 | the node found is the first one with that path |
| ToolBar.Navigate | src/components/FileManagerComp/ToolBar/index.tsx:35-52 | an unknown path calls `onNavigate(null, path)` and keeps path and history. A known one navigates to the first node with it and, on success, shows its path and appends a fresh entry at the end without cutting anything. The selection is cleared either way |
| ToolBar.GoBack | src/components/FileManagerComp/ToolBar/index.tsx:66-74 | acts exactly when Back is enabled: navigates to the previous entry and, on success, makes it current and shows its path; the stack never changes |
| ToolBar.GoForward | src/components/FileManagerComp/ToolBar/index.tsx:76-84 | the same with the next entry, exactly when Forward is enabled |
| ToolBar.GoUp | src/components/FileManagerComp/ToolBar/index.tsx:86-98 | acts exactly when the shown folder has a parent: navigates there and, on success, appends a fresh entry for it and shows its path |
| ToolBar.GoHome | src/components/FileManagerComp/ToolBar/index.tsx:100-110 | navigates to the root and, on success, shows its path and appends a fresh entry, after which Home and Up are disabled |
| ToolBar.CanGoHome | src/components/FileManagerComp/ToolBar/index.tsx:63-64 | Home and Up are enabled exactly when the path shown is not the root's. `ToolBar.GoHome` proves a successful Home disables them |
| AddressBar.FilterFolders | src/components/FileManagerComp/AddressBar/index.tsx:29-46 | keeps, in order, exactly the folders whose lowercased path starts with the lowercased input or whose lowercased name contains it |
| AddressBar.Matches | src/components/FileManagerComp/AddressBar/index.tsx:36-42 | the filter test: a folder whose lowercased path starts with the lowercased input, or whose lowercased name contains it. `AddressBar.FilterFolders` and the lemmas after it state its consequences |
| AddressBar.FilterAppend | src/components/FileManagerComp/AddressBar/index.tsx:37-42 | filtering a concatenation filters each part |
| AddressBar.FilterIdempotent | src/components/FileManagerComp/AddressBar/index.tsx:37-42 | filtering twice with the same input changes nothing |
| AddressBar.EmptyInputListsAllFolders | src/components/FileManagerComp/AddressBar/index.tsx:37-42 | an empty input lists every folder and no file |
| AddressBar.MatchesShorter | src/components/FileManagerComp/AddressBar/index.tsx:39-41 | a folder matching an input also matches the input without its last character |
| AddressBar.TypingNarrows | src/components/FileManagerComp/AddressBar/index.tsx:37-42 | typing one more character filters the previous list down to the new one |
| AddressBar.DownsFromNothing | src/components/FileManagerComp/AddressBar/index.tsx:89-91 | from -1, n ArrowDowns reach n-1 but never pass the last index, and stay at -1 on an empty list |
| AddressBar.DownsFrom | src/components/FileManagerComp/AddressBar/index.tsx:89-91 | ArrowDown moves a valid index up by one per press and stops at the last |
| AddressBar.UpsStop | src/components/FileManagerComp/AddressBar/index.tsx:94 | ArrowUp moves down by one per press while above 0; 0 and -1 stay put |
| AddressBar.ArrowDownIndex | src/components/FileManagerComp/AddressBar/index.tsx:89-91 | one ArrowDown moves by at most one, stays exactly at or past the last row, and never leaves the list from inside it |
| AddressBar.ArrowUpIndex | src/components/FileManagerComp/AddressBar/index.tsx:94 | one ArrowUp moves by at most one, stays exactly at 0 or -1, and never goes below -1 from -1 or above |
| AddressBar.AddressBarState.constructor | src/components/FileManagerComp/AddressBar/index.tsx:16-19 | the input starts as the path, with the dropdown closed, an empty list and no highlight |
| AddressBar.AddressBarState.PathChanged | src/components/FileManagerComp/AddressBar/index.tsx:25-27 | a path different from the last one overwrites the typed input; the same path leaves it alone, as the `[path]` dependency does; nothing else changes |
| AddressBar.AddressBarState.InputChange | src/components/FileManagerComp/AddressBar/index.tsx:49-53 | typing sets the input and re-filters for it |
| AddressBar.AddressBarState.Focus | src/components/FileManagerComp/AddressBar/index.tsx:131-134 | focus opens the dropdown and re-filters for the input |
| AddressBar.AddressBarState.MouseEnter | src/components/FileManagerComp/AddressBar/index.tsx:63-65 | hovering a folder highlights it |
| AddressBar.AddressBarState.FolderSelect | src/components/FileManagerComp/AddressBar/index.tsx:56-60 | choosing a folder navigates to its path and closes the dropdown |
| AddressBar.AddressBarState.ClickOutside | src/components/FileManagerComp/AddressBar/index.tsx:108-121 | a click outside closes the dropdown and nothing else |
| AddressBar.AddressBarState.KeyDown | src/components/FileManagerComp/AddressBar/index.tsx:67-105 | Enter navigates to the highlighted folder's path when the highlight is in range, and to the input otherwise, and closes the dropdown. Escape closes it, restores the input and clears the highlight. ArrowDown opens it and steps down; ArrowUp steps up. Tab completes the input from an in-range highlight. Any other key clears the highlight. An in-range highlight stays in range |
| ContextMenu.DefaultItem | src/components/FileManagerComp/ContextMenu/index.tsx:75-132 | each of the widget's actions has its default entry, which runs that action |
| ContextMenu.DefaultMenu | src/components/FileManagerComp/ContextMenu/index.tsx:75-132 | ten entries with separators after Paste and after Upload, none giving a `type` |
| ContextMenu.DefaultItemInMenu | src/components/FileManagerComp/ContextMenu/index.tsx:75-132 | every action's default entry is in the default menu |
| ContextMenu.DefaultDisabled | src/components/FileManagerComp/ContextMenu/index.tsx:80-131 | Copy, Cut and Delete are disabled exactly when nothing is selected. Rename is disabled unless exactly one item is selected, and Download unless exactly one file is. Paste is disabled exactly when `canPaste` is false. Upload and New Folder never are |
| ContextMenu.MenuItems | src/components/FileManagerComp/ContextMenu/index.tsx:134 | the caller's entries, even an empty list, replace the defaults entirely |
| ContextMenu.IsDisabled | src/components/FileManagerComp/ContextMenu/index.tsx:195-198 | `disabled` as the click handler reads it: a rule is applied, a value is taken as is, absence is enabled. `ContextMenu.Click` states its use |
| ContextMenu.Click | src/components/FileManagerComp/ContextMenu/index.tsx:194-213 | a click does nothing exactly when the entry is disabled, whether by value or by rule; otherwise the entry's `onClick` runs and the menu closes |
| ContextMenu.DefaultClick | src/components/FileManagerComp/ContextMenu/index.tsx:194-213 | a default entry runs its action exactly when it is enabled |
| ContextMenu.WidgetPasteAlwaysEnabled | src/components/FileManagerComp/index.tsx:681 | the widget passes `canPaste`, so its Paste entry is always enabled |
| ContextMenu.ButtonsAsWritten | src/components/FileManagerComp/ContextMenu/index.tsx:174-177 | the entries drawn as buttons when anything with a `type` key is drawn as a separator |
| ContextMenu.Buttons | src/components/FileManagerComp/ContextMenu/index.tsx:174-177 | the entries drawn as buttons when only separators are drawn as separators |
| ContextMenu.EveryItemIsAButton | src/components/FileManagerComp/ContextMenu/index.tsx:18-43 | with the corrected test, every menu item is drawn as a button |
| ContextMenu.DefaultMenuUnaffected | src/components/FileManagerComp/ContextMenu/index.tsx:75-132 | the default menu is drawn the same under either test |
| ContextMenu.TaggedItemDrawnAsSeparator | src/components/FileManagerComp/ContextMenu/index.tsx:175 | an item that sets `type: "item"` is drawn as a separator as written, but as a button under the corrected test |

## Left out

- `formatByte` relies on floating point (`Math.log`, `Math.pow`, `toFixed`), so it is not part of this model.
- Rendering, styling, icons, `DropZone`, `moment` date formatting, `viewMode`, and the context menu's position are not modelled.
- Browser plumbing is not modelled: the hidden `<input type="file">`, focus and blur, the global `click`, `contextmenu`, `mousedown` and `keydown` listeners, and `useImperativeHandle`.
- `Promise.all` concurrency is not modelled. Its results come back in entry order, and that order is what the model builds.
- The `FileSystemDirectoryReader` batching (`readEntries` until empty) is not modelled. A directory entry carries the full list of its children.
- `localeCompare` is modelled as lexicographic comparison of code points, not locale collation.
- `toLowerCase` and `toUpperCase` are modelled as ASCII-only case mapping.
- `modifiedDate` is modelled as a number. A date string that `Number()` turns into NaN is not modelled.
- Optional callbacks (`onNavigate?.()` and the rest) are treated as supplied. A missing one counts as a call that resolves.
- `ContextMenu` calls `useGlobalShortcuts` with arguments that do not match the hook's own signature. The model uses the hook's `switch` dispatch as written.
- ContextMenu.IsDisabled: a `disabled` rule receives the entry's key rather than the whole entry, because a menu entry cannot hold a function that takes a menu entry.
- `FileList` keeps its own sort setting (`FileList/index.tsx:29`), and its own `openedKey` effect re-sorts with it. The widget's setting in `index.tsx` never changes after mount. `FileList.FileListView.HandleSort` models the list's own setting.
- Later changes to the `files` prop are not modelled. The widget recomputes `root`, `realFiles` and `flatRealFiles` through `useMemo`/`useEffect` whenever `files` changes (`index.tsx:92-105`, `139-141`, `211-226`). In `FileManager.Manager` they are constants fixed at mount.
- FileManager.Tagged: each cut item keeps the selected `Node` object next to its folder. The widget stores a shallow copy `{...item, from}` (`index.tsx:308`), so the items handed to `onMove` are not the same objects as the selection, although every field is equal.
- The `childrenKey` option of `deepFind` (`src/utils/deepFind.ts:5`) is fixed to `children`, the only key the widget uses.
- DeepFind.Search: the parent-stamping guarantee is stated for trees in which no node object occurs twice. When a node is shared, it keeps the parent of its last visit.
- RealFiles.UpdateRealFiles: the parent-linking guarantee has the same condition, that no node object occurs twice.
- AddressBar.AddressBarState.MouseEnter: requires an open dropdown and an index into the list, because only then is a row drawn to hover over.
- AddressBar.AddressBarState.FolderSelect: requires an index into the list, because the handler is only called with a drawn row's folder.

## Findings

| source | as written | input that shows it | evidently intended | confidence | as-written member | corrected member |
|---|---|---|---|---|---|---|
| src/components/FileManagerComp/ContextMenu/index.tsx:175 | an entry is drawn as a separator when `"type" in item`, yet `MenuItem` itself allows `type: "item"` | caller items `[{ key: "_share", type: "item", onClick }]`: the entry is drawn as a separator line and can never be clicked | only `SeparatorItem` (`type === "separator"`) is drawn as a separator | high; not executed | ContextMenu.TaggedItemDrawnAsSeparator | ContextMenu.EveryItemIsAButton |
