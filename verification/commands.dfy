/**
 * The split revision's command vocabulary (src/command.rs:19-125): what a
 * button can be bound to, the events other components report, and which
 * commands get a prompt in the prompt bar.
 */
module Commands {
  import opened Buttons
  import opened Toasts

  /** egui's `FocusDirection`. */
  datatype FocusDirection = FocusLeft | FocusRight | FocusUp | FocusDown | FocusNext | FocusPrevious

  /** `Command`; `NoCommand` is the source's `Command::None`, the default of every table slot. */
  datatype Command =
    | NoCommand
    | ShowMiniSeek | ShowUi | HideUi | ShowMediaMenu | ShowHomeMenu
    | MoveFocus(dir: FocusDirection) | Activate
    | TogglePause
    | StartSeeking | SeekBackward | SeekForward | SeekBackwardStateless | SeekForwardStateless
    | DoneSeeking | CancelSeeking | SeekFaster | SeekSlower | SeekExact
    | VolumeUp | VolumeDown
    | Quit

  /** `Event`: what the gamepad and DLNA components hand to the application. */
  datatype Event = ToastEvent(toast: Toast) | LastGamepadDisconnected

  type Table = Actions<Command>

  /** A button's command in a table: its field, `NoCommand` for a button outside the table. */
  function Lookup(t: Table, b: Button): Command {
    Slot(t, b, NoCommand)
  }

  /** Reading the field is what `Command::get` does by scanning `iter`. */
  lemma LookupIsGet(t: Table, b: Button)
    ensures Lookup(t, b) == Get(t, b, NoCommand)
    ensures b !in Bound ==> Lookup(t, b) == NoCommand
  {
    GetSlot(t, b, NoCommand);
  }

  /** `Actions::default()`: every slot unbound. */
  function Unbound(): (t: Table)
    ensures forall b :: Lookup(t, b) == NoCommand
  {
    Empty(NoCommand)
  }

  /**
   * `show_prompt`: every command is prompted except the unbound slot,
   * ShowUi, the four seek directions, focus moves and Activate.
   */
  predicate ShowPrompt(c: Command) {
    !(c.NoCommand? || c.ShowUi? || c.SeekBackward? || c.SeekForward? ||
      c.SeekBackwardStateless? || c.SeekForwardStateless? || c.MoveFocus? || c.Activate?)
  }

  /**
   * The prompted commands, listed: the view changes other than ShowUi, the
   * pause toggle, the session commands other than the two seek directions,
   * the volume steps and Quit.
   */
  lemma ShowPromptCases(c: Command)
    ensures ShowPrompt(c) <==> c in {ShowMiniSeek, HideUi, ShowMediaMenu, ShowHomeMenu, TogglePause,
                                     StartSeeking, DoneSeeking, CancelSeeking, SeekFaster, SeekSlower,
                                     SeekExact, VolumeUp, VolumeDown, Quit}
  {
  }

  /** The prompt bar of a table: its prompted pairs, left-hand buttons and right-hand buttons apart. */
  function PromptBar(t: Table): (bar: (seq<(Button, Command)>, seq<(Button, Command)>))
    ensures bar == (ShownAt(Iter(t), ShowPrompt, Left), ShownAt(Iter(t), ShowPrompt, Right))
    ensures forall i :: 0 <= i < |bar.0| ==> ShowPrompt(bar.0[i].1) && bar.0[i] in Iter(t)
    ensures forall i :: 0 <= i < |bar.1| ==> ShowPrompt(bar.1[i].1) && bar.1[i] in Iter(t)
  {
    PromptsSplit(t, ShowPrompt);
    Prompts(t, ShowPrompt)
  }
}
