/**
 * The keyboard shortcut dispatch of `useGlobalShortcuts`
 * (src/components/FileManagerComp/hooks/useGlobalShortcuts.ts): a keydown
 * either fires exactly one of seven actions, with the browser's default
 * handling prevented, or does nothing at all.
 */
module Shortcuts {
  import opened Strings
  import opened Wrappers

  /** The element the keydown was aimed at; text fields keep their own keys. */
  datatype Target = TextInput | TextArea | OtherElement

  datatype KeyEvent = KeyEvent(target: Target, key: string, ctrlKey: bool, metaKey: bool)

  datatype Action = Copy | Cut | Paste | SelectAll | CreateFolder | Rename | Delete

  /** What one keydown does: whether default handling was prevented, and the callback it ran. */
  datatype Dispatch = Dispatch(prevented: bool, action: Option<Action>)

  /** `navigator.platform.toUpperCase().indexOf('MAC') >= 0`. */
  predicate IsMac(platform: string) {
    Contains(Upper(platform), "MAC")
  }

  /** The command key: Meta on a Mac, Ctrl elsewhere. */
  function Modifier(e: KeyEvent, platform: string): bool {
    if IsMac(platform) then e.metaKey else e.ctrlKey
  }

  function Fire(a: Action): Dispatch {
    Dispatch(true, Some(a))
  }

  /** `handleKeyDown` of useGlobalShortcuts.ts:29-87. */
  function HandleKeyDown(e: KeyEvent, platform: string, disabled: bool): (r: Dispatch)
    ensures r.prevented <==> r.action.Some?
    ensures r.action.Some? ==> e.target == OtherElement && !disabled
  {
    if e.target != OtherElement || disabled then Dispatch(false, None)
    else if Modifier(e, platform) then
      var k := Lower(e.key);
      if k == "c" then Fire(Copy)
      else if k == "x" then Fire(Cut)
      else if k == "v" then Fire(Paste)
      else if k == "a" then Fire(SelectAll)
      else if k == "n" then Fire(CreateFolder)
      else Dispatch(false, None)
    else if e.key == "F2" then Fire(Rename)
    else if e.key == "Delete" then Fire(Delete)
    else Dispatch(false, None)
  }

  /** The binding of each action: whether the command key is held, and the key. */
  datatype Binding = Binding(withModifier: bool, key: string)

  function BindingOf(a: Action): Binding {
    match a
    case Copy => Binding(true, "c")
    case Cut => Binding(true, "x")
    case Paste => Binding(true, "v")
    case SelectAll => Binding(true, "a")
    case CreateFolder => Binding(true, "n")
    case Rename => Binding(false, "F2")
    case Delete => Binding(false, "Delete")
  }

  /** The event presses the binding: with the command key the letter is matched in either case, without it the key name exactly. */
  predicate Presses(e: KeyEvent, platform: string, b: Binding) {
    Modifier(e, platform) == b.withModifier &&
    (if b.withModifier then Lower(e.key) == b.key else e.key == b.key)
  }

  /**
   * An action fires exactly when the event reaches the handler (not aimed at
   * a text field, hook enabled) and presses that action's binding.
   */
  lemma DispatchMatchesBindings(e: KeyEvent, platform: string, disabled: bool, a: Action)
    ensures HandleKeyDown(e, platform, disabled).action == Some(a) <==>
      e.target == OtherElement && !disabled && Presses(e, platform, BindingOf(a))
  {
  }

  /** No binding pressed, nothing fires and the default handling stays. */
  lemma UnboundKeyDoesNothing(e: KeyEvent, platform: string, disabled: bool)
    requires forall a: Action :: !Presses(e, platform, BindingOf(a))
    ensures HandleKeyDown(e, platform, disabled) == Dispatch(false, None)
  {
    var r := HandleKeyDown(e, platform, disabled);
    if r.action.Some? {
      DispatchMatchesBindings(e, platform, disabled, r.action.value);
    }
  }

  /** With the command key held, the letter's case does not matter (`Ctrl+C` and `Ctrl+c` copy alike). */
  lemma ModifierKeysIgnoreCase(e: KeyEvent, platform: string, disabled: bool)
    requires Modifier(e, platform)
    ensures HandleKeyDown(e.(key := Upper(e.key)), platform, disabled) == HandleKeyDown(e, platform, disabled)
  {
    LowerUpper(e.key);
  }
}
