/**
 * The context menu (src/components/FileManagerComp/ContextMenu/index.tsx):
 * the default entries and when each is disabled, the caller's entries that
 * replace them, and what a click on an entry does.
 */
module ContextMenu {
  import opened Wrappers
  import opened Tree

  /** What an entry's `onClick` does: one of the widget's actions, or a caller's own. */
  datatype Command = Copy | Cut | Paste | Delete | Rename | Download | Upload | CreateFolder | Custom(name: string)

  /**
   * An entry's `disabled`: absent, a value, or a rule over the selection, the
   * folder on display and the entry (given here by its key).
   */
  datatype Disabled = NotGiven | Flag(value: bool) | Rule(test: (seq<Node>, Node, string) -> bool)

  /** The optional `type` of a `MenuItem`: absent or `"item"`. */
  datatype ItemTag = Untagged | TaggedItem

  /** `MenuItem` (key, type, disabled, onClick) or `SeparatorItem`. */
  datatype MenuEntry =
    | Item(key: string, tag: ItemTag, disabled: Disabled, onClick: Option<Command>)
    | Separator

  /** Whether an item is disabled for this selection and folder: a rule is applied, a missing value is false. */
  function IsDisabled(d: Disabled, selected: seq<Node>, folder: Node, key: string): bool {
    match d
    case NotGiven => false
    case Flag(b) => b
    case Rule(test) => test(selected, folder, key)
  }

  /** The default item that runs one of the widget's actions, with its `disabled` computed from the selection. */
  function DefaultItem(selected: seq<Node>, canPaste: bool, cmd: Command): (r: MenuEntry)
    requires !cmd.Custom?
    ensures r.Item? && r.tag == Untagged && r.onClick == Some(cmd)
  {
    match cmd
    case Copy => Item("_copy", Untagged, Flag(|selected| == 0), Some(Copy))
    case Cut => Item("_cut", Untagged, Flag(|selected| == 0), Some(Cut))
    case Paste => Item("_paste", Untagged, Flag(!canPaste), Some(Paste))
    case Delete => Item("_delete", Untagged, Flag(|selected| == 0), Some(Delete))
    case Rename => Item("_rename", Untagged, Flag(|selected| != 1), Some(Rename))
    case Download =>
      Item("_download", Untagged, Flag(|selected| != 1 || (|selected| > 0 && selected[0].kind == Folder)), Some(Download))
    case Upload => Item("_upload", Untagged, NotGiven, Some(Upload))
    case CreateFolder => Item("_createFolder", Untagged, NotGiven, Some(CreateFolder))
  }

  /** The default entries in menu order, with separators after Paste and after Upload. */
  function DefaultMenu(selected: seq<Node>, canPaste: bool): (r: seq<MenuEntry>)
    ensures |r| == 10 && r[3] == Separator && r[8] == Separator
    ensures forall i :: 0 <= i < |r| ==> r[i].Separator? || r[i].tag == Untagged
  {
    [ DefaultItem(selected, canPaste, Copy),
      DefaultItem(selected, canPaste, Cut),
      DefaultItem(selected, canPaste, Paste),
      Separator,
      DefaultItem(selected, canPaste, Delete),
      DefaultItem(selected, canPaste, Rename),
      DefaultItem(selected, canPaste, Download),
      DefaultItem(selected, canPaste, Upload),
      Separator,
      DefaultItem(selected, canPaste, CreateFolder) ]
  }

  /** Every one of the widget's actions has its entry in the default menu. */
  lemma DefaultItemInMenu(selected: seq<Node>, canPaste: bool, cmd: Command)
    requires !cmd.Custom?
    ensures DefaultItem(selected, canPaste, cmd) in DefaultMenu(selected, canPaste)
  {
    var menu := DefaultMenu(selected, canPaste);
    var k := match cmd
      case Copy => 0 case Cut => 1 case Paste => 2 case Delete => 4 case Rename => 5
      case Download => 6 case Upload => 7 case _ => 9;
    assert menu[k] == DefaultItem(selected, canPaste, cmd);
  }

  /**
   * Whether the default entry for a command is disabled: Copy, Cut and Delete
   * need a selection; Rename needs exactly one item; Download needs exactly
   * one item, and not a folder; Paste follows `canPaste`; Upload and New
   * Folder are always available.
   */
  function DefaultDisabled(selected: seq<Node>, canPaste: bool, folder: Node, cmd: Command): (r: bool)
    requires !cmd.Custom?
    ensures cmd in {Copy, Cut, Delete} ==> (r <==> selected == [])
    ensures cmd == Rename ==> (r <==> |selected| != 1)
    ensures cmd == Download ==> (r <==> !(|selected| == 1 && selected[0].kind == File))
    ensures cmd == Paste ==> (r <==> !canPaste)
    ensures cmd in {Upload, CreateFolder} ==> !r
  {
    var e := DefaultItem(selected, canPaste, cmd);
    IsDisabled(e.disabled, selected, folder, e.key)
  }

  /** `items ?? defaultMenuItems`: the caller's entries, even an empty list, replace the defaults entirely. */
  function MenuItems(items: Option<seq<MenuEntry>>, selected: seq<Node>, canPaste: bool): (r: seq<MenuEntry>)
    ensures items.Some? ==> r == items.value
    ensures items.None? ==> r == DefaultMenu(selected, canPaste)
  {
    match items
    case Some(given) => given
    case None => DefaultMenu(selected, canPaste)
  }

  /** What a click on a drawn entry does. */
  datatype ClickOutcome = Ignored | Activated(ran: Option<Command>)

  /**
   * A click on an item: nothing when it is disabled; otherwise its `onClick`
   * runs (when it has one) and then the menu's `onClose`.
   */
  function Click(e: MenuEntry, selected: seq<Node>, folder: Node): (r: ClickOutcome)
    requires e.Item?
    ensures r.Ignored? <==> IsDisabled(e.disabled, selected, folder, e.key)
    ensures r.Activated? ==> r.ran == e.onClick
  {
    if IsDisabled(e.disabled, selected, folder, e.key) then Ignored else Activated(e.onClick)
  }

  /**
   * A click on a default entry runs its command exactly when the entry is
   * enabled, and does nothing otherwise.
   */
  lemma DefaultClick(selected: seq<Node>, canPaste: bool, folder: Node, cmd: Command)
    requires !cmd.Custom?
    ensures Click(DefaultItem(selected, canPaste, cmd), selected, folder) ==
      if DefaultDisabled(selected, canPaste, folder, cmd) then Ignored else Activated(Some(cmd))
  {
  }

  /** The widget passes `canPaste` as true, so its own Paste entry is never disabled. */
  lemma WidgetPasteAlwaysEnabled(selected: seq<Node>, folder: Node)
    ensures !DefaultDisabled(selected, true, folder, Paste)
    ensures Click(DefaultItem(selected, true, Paste), selected, folder) == Activated(Some(Paste))
  {
  }

  /**
   * How a drawn entry is told apart from a separator, as written: `"type"
   * in item`, which also holds for a `MenuItem` whose optional `type` is
   * given as "item".
   */
  predicate DrawnAsSeparatorAsWritten(e: MenuEntry) {
    e.Separator? || e.tag == TaggedItem
  }

  /** The evident intent: only a `SeparatorItem` is drawn as a separator. */
  predicate DrawnAsSeparator(e: MenuEntry) {
    e.Separator?
  }

  /** The entries drawn as buttons, as written. */
  function ButtonsAsWritten(menu: seq<MenuEntry>): (r: seq<MenuEntry>)
    ensures forall i :: 0 <= i < |r| ==> r[i] in menu && !DrawnAsSeparatorAsWritten(r[i])
  {
    if menu == [] then []
    else (if DrawnAsSeparatorAsWritten(menu[0]) then [] else [menu[0]]) + ButtonsAsWritten(menu[1..])
  }

  /** The entries drawn as buttons, as intended. */
  function Buttons(menu: seq<MenuEntry>): (r: seq<MenuEntry>)
    ensures forall i :: 0 <= i < |r| ==> r[i] in menu && r[i].Item?
  {
    if menu == [] then []
    else (if DrawnAsSeparator(menu[0]) then [] else [menu[0]]) + Buttons(menu[1..])
  }

  /** As intended, every item of the menu is drawn as a button and so can be clicked. */
  lemma {:induction false} EveryItemIsAButton(menu: seq<MenuEntry>)
    ensures forall i :: 0 <= i < |menu| && menu[i].Item? ==> menu[i] in Buttons(menu)
  {
    if menu != [] {
      EveryItemIsAButton(menu[1..]);
      forall i | 0 <= i < |menu| && menu[i].Item? ensures menu[i] in Buttons(menu) {
        if i > 0 {
          assert menu[i] == menu[1..][i - 1];
        }
      }
    }
  }

  /** The default menu draws the same buttons either way: none of its items gives a `type`. */
  lemma DefaultMenuUnaffected(selected: seq<Node>, canPaste: bool)
    ensures ButtonsAsWritten(DefaultMenu(selected, canPaste)) == Buttons(DefaultMenu(selected, canPaste))
  {
    SameButtons(DefaultMenu(selected, canPaste));
  }

  lemma {:induction false} SameButtons(menu: seq<MenuEntry>)
    requires forall i :: 0 <= i < |menu| ==> menu[i].Separator? || menu[i].tag == Untagged
    ensures ButtonsAsWritten(menu) == Buttons(menu)
  {
    if menu != [] {
      SameButtons(menu[1..]);
    }
  }

  /**
   * A caller's item that sets `type: "item"` is drawn as a separator as
   * written, so it can never be clicked; as intended it is a button.
   */
  lemma TaggedItemDrawnAsSeparator()
    ensures ButtonsAsWritten([Item("_share", TaggedItem, NotGiven, Some(Custom("share")))]) == []
    ensures Buttons([Item("_share", TaggedItem, NotGiven, Some(Custom("share")))]) ==
      [Item("_share", TaggedItem, NotGiven, Some(Custom("share")))]
  {
    var e := Item("_share", TaggedItem, NotGiven, Some(Custom("share")));
    assert [e][1..] == [];
  }
}
