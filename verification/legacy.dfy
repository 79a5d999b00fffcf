/**
 * The older revision's single-file state machine (src/main.rs): its own
 * views, commands and menu, the button tables, command and event handling,
 * and the order of work in one frame.
 *
 * The player is the seek-session model and the gamepad the gamepad model.
 * Drawing, the `sub-pos` adjustment and the first-frame font and style
 * set-up are not part of this model; of the player connection's `update`
 * only its success is.
 */
module Legacy {
  import opened Wrappers
  import opened Buttons
  import opened Toasts
  import opened SeekSession
  import Commands
  import MpvCommand
  import Time
  import Clock
  import Gamepad

  /** `MenuEntry`: the older menu's five entries. */
  datatype MenuEntry = Volume | Subtitles | AudioTrack | PlaybackSpeed | Playlist

  /** `View`. */
  datatype View = Hidden | MiniSeek | SeekBar | Seeking | Menu(submenu: Option<MenuEntry>) | Characters

  /** `Command`; `NoCommand` is the source's `Command::None`. */
  datatype Command =
    | NoCommand
    | ShowMiniSeek | ShowUi | HideUi | ShowMenu
    | MoveFocus(dir: Commands.FocusDirection) | Activate
    | TogglePause
    | StartSeeking | SeekBackward | SeekForward | SeekBackwardStateless | SeekForwardStateless
    | DoneSeeking | CancelSeeking | SeekFaster | SeekSlower | SeekExact
    | CharactersDebug
    | Quit

  type Table = Actions<Command>

  datatype App = App(view: View, mpv: Player, gamepad: Gamepad.State, toasts: seq<Toast>, exit: bool)

  /** The older stateless seek step: ten seconds, in keyframe mode. */
  const StatelessStep: real := 10.0

  /** A button's command in a table: its field, `NoCommand` for a button outside the table. */
  function Lookup(t: Table, b: Button): Command {
    Slot(t, b, NoCommand)
  }

  /** Reading the field is what `Actions::get` does by scanning `iter`. */
  lemma LookupIsGet(t: Table, b: Button)
    ensures Lookup(t, b) == Get(t, b, NoCommand)
  {
    GetSlot(t, b, NoCommand);
  }

  /** `View::button_actions`: the hidden and mini-seek views share one table. */
  function ButtonActions(v: View): Table {
    var none := Empty(NoCommand);
    match v
    case Hidden | MiniSeek =>
      none.(a := StartSeeking, b := ShowUi, x := TogglePause, y := ShowUi,
            left := SeekBackwardStateless, right := SeekForwardStateless,
            l2 := CharactersDebug, select := ShowMiniSeek, start := ShowMenu)
    case SeekBar =>
      none.(a := StartSeeking, b := HideUi, x := TogglePause,
            left := SeekBackwardStateless, right := SeekForwardStateless, start := ShowMenu)
    case Seeking =>
      none.(a := DoneSeeking, b := CancelSeeking, y := SeekExact, up := SeekFaster,
            down := SeekSlower, left := SeekBackward, right := SeekForward)
    case Menu(submenu) =>
      none.(a := Activate, b := if submenu.Some? then ShowMenu else HideUi,
            up := MoveFocus(Commands.FocusUp), down := MoveFocus(Commands.FocusDown),
            left := MoveFocus(Commands.FocusLeft), right := MoveFocus(Commands.FocusRight),
            start := HideUi)
    case Characters => none.(b := HideUi)
  }

  /** The hidden and mini-seek views answer every button alike; b leaves a submenu for the menu and the menu for the overlay. */
  lemma TableFacts(b: Button, sub: Option<MenuEntry>)
    ensures Lookup(ButtonActions(Hidden), b) == Lookup(ButtonActions(MiniSeek), b)
    ensures Lookup(ButtonActions(Menu(sub)), South) == if sub.Some? then ShowMenu else HideUi
    ensures Lookup(ButtonActions(Hidden), LeftTrigger2) == CharactersDebug
    ensures Lookup(ButtonActions(Seeking), b) != TogglePause
  {
  }

  /** `show_prompts`: off exactly for the hidden, mini-seek and menu views. */
  function ShowPrompts(v: View): (show: bool)
    ensures !show <==> v == Hidden || v == MiniSeek || v.Menu?
  {
    !(v.Hidden? || v.MiniSeek? || v.Menu?)
  }

  /** `hide_on_inactive`, in nanoseconds: 2 s for mini-seek, 5 s for the seek bar, none otherwise. */
  function HideOnInactive(v: View): (d: Option<nat>)
    ensures d.Some? <==> v == MiniSeek || v == SeekBar
    ensures v == MiniSeek ==> d == Some(2 * Clock.Second)
    ensures v == SeekBar ==> d == Some(5 * Clock.Second)
  {
    match v
    case MiniSeek => Some(2 * Clock.Second)
    case SeekBar => Some(5 * Clock.Second)
    case _ => None
  }

  /** `change_view`: nothing happens when the view is already current; otherwise the view is replaced. */
  function ChangeView(app: App, v: View): (r: App)
    ensures r.view == v
    ensures r == app.(view := v)
    ensures app.view == v ==> r == app
  {
    if app.view == v then app else app.(view := v)
  }

  /** The commands that change the view. */
  predicate ChangesView(c: Command) {
    c in {ShowMiniSeek, ShowUi, HideUi, ShowMenu, StartSeeking, DoneSeeking, CancelSeeking, CharactersDebug}
  }

  /** The commands that talk to the player or touch its seek session. */
  predicate UsesPlayer(c: Command) {
    c in {TogglePause, StartSeeking, SeekBackward, SeekForward, SeekBackwardStateless, SeekForwardStateless,
          DoneSeeking, CancelSeeking, SeekFaster, SeekSlower, SeekExact}
  }

  /** The commands whose player call `handle_command` unwraps, so that mpv refusing it is a panic. */
  predicate Unwraps(c: Command) {
    c in {TogglePause, SeekForward, SeekBackward, SeekForwardStateless, SeekBackwardStateless, DoneSeeking}
  }

  /**
   * The player call behind an unwrapping command. It fails exactly when it
   * sent something and mpv refused the last command it sent. This is the
   * older revision's counterpart of `App.PlayerCall` (with `Unwrap` below,
   * of `App.Unwrap`): the same calls over this revision's commands, with a
   * 10 s stateless step instead of 5 s.
   */
  function PlayerCall(cmd: Command, p: Player, now: int, ans: Answers): (o: Outcome)
    requires Unwraps(cmd)
    ensures o.ok <==> o.player.trace == p.trace || ans.accepts(o.player.trace)
  {
    match cmd
    case TogglePause => Send(p, MpvCommand.Cycle("pause"), ans)
    case SeekForward => SeekSession.SeekForward(p, now, ans)
    case SeekBackward => SeekSession.SeekBackward(p, now, ans)
    case SeekForwardStateless => SeekStateless(p, StatelessStep, false, ans)
    case SeekBackwardStateless => SeekStateless(p, -StatelessStep, false, ans)
    case DoneSeeking => FinishSeek(p, now, ans)
  }

  /** `.unwrap()` on a player call: its player on success, a panic otherwise. */
  function Unwrap(app: App, o: Outcome): Option<App> {
    if o.ok then Some(app.(mpv := o.player)) else None
  }

  /**
   * `handle_command` at time `now`, with mpv answering by `ans`; `None`
   * is the panic of an unwrapped player call. As in `SeekSession.Acquire`,
   * the session's snapshot reads are taken to succeed. Each command touches only its
   * own part of the application.
   */
  function HandleCommand(cmd: Command, app: App, now: int, ans: Answers): (r: Option<App>)
    ensures r.None? <==> Unwraps(cmd) && !PlayerCall(cmd, app.mpv, now, ans).ok
    ensures r.Some? ==> r.value.toasts == app.toasts && r.value.gamepad == app.gamepad
    ensures r.Some? ==> (r.value.exit <==> app.exit || cmd == Quit)
    ensures r.Some? ==> (r.value.view != app.view ==> ChangesView(cmd))
    ensures r.Some? ==> (r.value.mpv != app.mpv ==> UsesPlayer(cmd))
  {
    match cmd
    case NoCommand => Some(app)
    case ShowMiniSeek => if app.view == MiniSeek then Some(ChangeView(app, Hidden)) else Some(ChangeView(app, MiniSeek))
    case ShowUi => Some(ChangeView(app, SeekBar))
    case HideUi => Some(ChangeView(app, Hidden))
    case ShowMenu => Some(ChangeView(app, Menu(None)))
    case MoveFocus(_) => Some(app)
    case Activate => Some(app)
    case TogglePause | SeekForward | SeekBackward | SeekForwardStateless | SeekBackwardStateless =>
      Unwrap(app, PlayerCall(cmd, app.mpv, now, ans))
    case StartSeeking => Some(ChangeView(app.(mpv := Acquire(app.mpv, now, ans)), Seeking))
    case DoneSeeking => Unwrap(ChangeView(app, SeekBar), PlayerCall(cmd, app.mpv, now, ans))
    case CancelSeeking => Some(ChangeView(app, SeekBar).(mpv := CancelSeek(app.mpv, ans).player))
    case SeekFaster => Some(app.(mpv := SeekSession.SeekFaster(app.mpv)))
    case SeekSlower => Some(app.(mpv := SeekSession.SeekSlower(app.mpv)))
    case SeekExact => Some(app.(mpv := ToggleSeekExact(app.mpv)))
    case CharactersDebug => Some(ChangeView(app, Characters))
    case Quit => Some(app.(exit := true))
  }

  /** ShowMiniSeek closes the mini-seek view and opens it from anywhere else; ShowMenu always opens the top menu. */
  lemma ShowCommands(app: App, now: int, ans: Answers)
    ensures var r := HandleCommand(ShowMiniSeek, app, now, ans);
            r.Some? && r.value.view == if app.view == MiniSeek then Hidden else MiniSeek
    ensures var r := HandleCommand(ShowMenu, app, now, ans);
            r.Some? && r.value.view == Menu(None)
  {
  }

  /**
   * Stateless seeks send one ten-second keyframe seek and leave the seek
   * session alone; each panics exactly when mpv refuses it.
   */
  lemma StatelessSeeks(app: App, now: int, ans: Answers)
    ensures var t := app.mpv.trace + [MpvCommand.Seek(10.0, false)];
            var r := HandleCommand(SeekForwardStateless, app, now, ans);
            (r.Some? <==> ans.accepts(t)) && (r.Some? ==> r.value.mpv.session == app.mpv.session && r.value.mpv.trace == t)
    ensures var t := app.mpv.trace + [MpvCommand.Seek(-10.0, false)];
            var r := HandleCommand(SeekBackwardStateless, app, now, ans);
            (r.Some? <==> ans.accepts(t)) && (r.Some? ==> r.value.mpv.session == app.mpv.session && r.value.mpv.trace == t)
  {
    assert HandleCommand(SeekForwardStateless, app, now, ans) == Unwrap(app, SeekStateless(app.mpv, 10.0, false, ans));
    assert HandleCommand(SeekBackwardStateless, app, now, ans) == Unwrap(app, SeekStateless(app.mpv, -10.0, false, ans));
  }

  /**
   * `handle_event`: a toast is shown; losing the last gamepad hides the
   * overlay, without a toast of its own in this revision.
   */
  function HandleEvent(ev: Gamepad.Event, app: App): (r: App)
    ensures r.mpv == app.mpv && r.gamepad == app.gamepad && r.exit == app.exit
    ensures ev.NoEvent? ==> r == app
    ensures ev.ToastEvent? ==> r == app.(toasts := app.toasts + [ev.toast])
    ensures ev.LastDisconnected? ==> r.view == Hidden && r.toasts == app.toasts
  {
    match ev
    case NoEvent => app
    case ToastEvent(t) => app.(toasts := app.toasts + [t])
    case LastDisconnected => ChangeView(app, Hidden)
  }

  /** The commands a frame's presses stand for, all read from one table. */
  function LookupAll(t: Table, pressed: seq<Button>): (cmds: seq<Command>)
    ensures |cmds| == |pressed| && forall i :: 0 <= i < |pressed| ==> cmds[i] == Lookup(t, pressed[i])
  {
    seq(|pressed|, i requires 0 <= i < |pressed| => Lookup(t, pressed[i]))
  }

  /** The commands handled one after another; the first panic ends the run. */
  function RunCommands(app: App, cmds: seq<Command>, now: int, ans: Answers): (r: Option<App>)
    ensures r.Some? ==> r.value.toasts == app.toasts && r.value.gamepad == app.gamepad
    ensures (forall i :: 0 <= i < |cmds| ==> !Unwraps(cmds[i])) ==> r.Some?
    decreases |cmds|
  {
    if |cmds| == 0 then Some(app)
    else
      match RunCommands(app, cmds[..|cmds| - 1], now, ans)
      case None => None
      case Some(a) => HandleCommand(cmds[|cmds| - 1], a, now, ans)
  }

  /**
   * The `for button in just_pressed` loop: each button is looked up in the
   * table taken before the loop, however the view changes on the way.
   */
  method Dispatch(app: App, t: Table, pressed: seq<Button>, now: int, ans: Answers) returns (r: Option<App>)
    ensures r == RunCommands(app, LookupAll(t, pressed), now, ans)
  {
    r := Some(app);
    var i := 0;
    while i < |pressed|
      invariant 0 <= i <= |pressed|
      invariant r == RunCommands(app, LookupAll(t, pressed[..i]), now, ans)
    {
      var cmds := LookupAll(t, pressed[..i + 1]);
      assert cmds[..i] == LookupAll(t, pressed[..i]);
      if r.Some? {
        r := HandleCommand(Lookup(t, pressed[i]), r.value, now, ans);
      }
      i := i + 1;
    }
    assert pressed[..i] == pressed;
  }

  /** What one frame leaves: the application and the gamepad events not yet taken. */
  datatype Frame = Frame(app: App, rest: seq<Gamepad.RawEvent>)

  /**
   * The per-frame order of `update`: gamepad events, then the player
   * connection's update (`connected` says whether it succeeded; a broken
   * connection is a panic), then the buttons pressed, all looked up in the
   * table of the view after the event, then the inactivity check against
   * the view the buttons left.
   */
  function Tick(app: App, events: seq<Gamepad.RawEvent>, name: nat -> string, now: int, connected: bool, ans: Answers): (f: Option<Frame>)
    ensures !connected ==> f.None?
    ensures f.Some? ==> f.value.app.toasts == HandleEvent(Gamepad.Update(app.gamepad, events, name, now).event, app).toasts
    ensures f.Some? ==> f.value.app.gamepad == Gamepad.Update(app.gamepad, events, name, now).state
    ensures f.Some? ==> f.value.rest == Gamepad.Update(app.gamepad, events, name, now).rest
  {
    var g := Gamepad.Update(app.gamepad, events, name, now);
    var a1 := HandleEvent(g.event, app.(gamepad := g.state));
    if !connected then None
    else
      match RunCommands(a1, LookupAll(ButtonActions(a1.view), g.state.justPressed), now, ans)
      case None => None
      case Some(a2) =>
        if HideOnInactive(a2.view).Some? && Gamepad.InactiveFor(a2.gamepad, HideOnInactive(a2.view).value, now)
        then Some(Frame(HandleCommand(HideUi, a2, now, ans).value, g.rest))
        else Some(Frame(a2, g.rest))
  }

  /** Two presses in a row end the gamepad loop with both presses collected and no event. */
  lemma TwoPresses(st: Gamepad.State, id: nat, name: nat -> string, now: int)
    ensures var e := Gamepad.RawEvent(id, Gamepad.ButtonPressed(South));
            var t := Gamepad.Update(st, [e, e], name, now);
            t.event.NoEvent? && t.rest == [] && t.state.justPressed == [South, South] && t.state.lastInput == now
  {
    var e := Gamepad.RawEvent(id, Gamepad.ButtonPressed(South));
    Gamepad.ProcessDrains(st.(justPressed := []), [e, e], name, now);
    assert [e, e][..2] == [e, e] && [e, e][1..] == [e] && [e][1..] == [];
    assert Gamepad.Presses([e]) == [South];
    assert Gamepad.Presses([e, e]) == [South, South];
  }

  /** Both presses read the hidden view's table, so both show the seek bar. */
  lemma TwiceShowUi(app: App, now: int, ans: Answers)
    requires app.view == Hidden
    ensures var r := RunCommands(app, LookupAll(ButtonActions(Hidden), [South, South]), now, ans);
            r.Some? && r.value.view == SeekBar
  {
    var cmds := LookupAll(ButtonActions(Hidden), [South, South]);
    assert cmds == [ShowUi, ShowUi];
    assert cmds[..1] == [ShowUi];
    assert cmds[..1][..0] == [];
  }

  /**
   * Two presses of b on the hidden overlay open the seek bar and keep it:
   * the second press is read from the hidden view's table (ShowUi), not
   * the seek bar's (HideUi).
   */
  lemma TickUsesFrameTable(app: App, id: nat, name: nat -> string, now: int, ans: Answers)
    requires app.view == Hidden
    ensures var events := [Gamepad.RawEvent(id, Gamepad.ButtonPressed(South)), Gamepad.RawEvent(id, Gamepad.ButtonPressed(South))];
            var f := Tick(app, events, name, now, true, ans);
            f.Some? && f.value.app.view == SeekBar
  {
    var events := [Gamepad.RawEvent(id, Gamepad.ButtonPressed(South)), Gamepad.RawEvent(id, Gamepad.ButtonPressed(South))];
    TwoPresses(app.gamepad, id, name, now);
    var g := Gamepad.Update(app.gamepad, events, name, now);
    var a1 := HandleEvent(g.event, app.(gamepad := g.state));
    assert a1 == app.(gamepad := g.state);
    TwiceShowUi(a1, now, ans);
    var a2 := RunCommands(a1, LookupAll(ButtonActions(a1.view), g.state.justPressed), now, ans);
    assert a2.Some? && a2.value.view == SeekBar && a2.value.gamepad == g.state;
    Gamepad.InactiveForStrict(g.state, 5 * Clock.Second, now);
    assert Tick(app, events, name, now, true, ans) == Some(Frame(a2.value, g.rest));
  }

  /** A frame with no gamepad input and a live player connection hides a view whose timeout has passed. */
  lemma TickHidesWhenIdle(app: App, name: nat -> string, now: int, ans: Answers)
    requires HideOnInactive(app.view).Some?
    requires Gamepad.InactiveFor(app.gamepad, HideOnInactive(app.view).value, now)
    ensures var f := Tick(app, [], name, now, true, ans);
            f.Some? && f.value.app.view == Hidden
  {
    var g := Gamepad.Update(app.gamepad, [], name, now);
    assert g.state.justPressed == [];
    assert LookupAll(ButtonActions(app.view), []) == [];
  }

  /** Any gamepad event in a frame refreshes the input time, so that frame never hides the overlay for inactivity. */
  lemma InputPreventsHide(app: App, events: seq<Gamepad.RawEvent>, name: nat -> string, now: int, connected: bool, ans: Answers)
    requires |events| > 0
    ensures var f := Tick(app, events, name, now, connected, ans);
            f.Some? ==> !Gamepad.InactiveFor(f.value.app.gamepad, 0, now)
  {
    var st := app.gamepad.(justPressed := []);
    var g := Gamepad.Update(app.gamepad, events, name, now);
    assert |g.rest| < |events| by {
      if !Gamepad.Returns(events[0].event) {
        assert g == Gamepad.ProcessRest(st, events, name, now);
      }
    }
    assert |events[..|events| - |g.rest|]| > 0;
  }

  // ---------------------------------------------------------------------
  // The older menu
  // ---------------------------------------------------------------------

  /** `MenuEntry::iter()`: the order the entries are listed in. */
  const Entries: seq<MenuEntry> := [Volume, Subtitles, AudioTrack, PlaybackSpeed, Playlist]

  function Label(e: MenuEntry): string {
    match e
    case Volume => "Volume"
    case Subtitles => "Subtitles"
    case AudioTrack => "Audio Track"
    case PlaybackSpeed => "Playback Speed"
    case Playlist => "Playlist"
  }

  /** Every entry is listed once, and no two entries share a label. */
  lemma EntriesDistinct(i: nat, j: nat)
    requires i < j < |Entries|
    ensures Entries[i] != Entries[j] && Label(Entries[i]) != Label(Entries[j])
  {
  }

  /** `enabled`: subtitles need a subtitle track, the audio entry needs a choice of two; the rest are always on. */
  function Enabled(e: MenuEntry, subTracks: nat, audioTracks: nat): (on: bool)
    ensures e == Subtitles ==> (on <==> subTracks > 0)
    ensures e == AudioTrack ==> (on <==> audioTracks > 1)
    ensures e !in {Subtitles, AudioTrack} ==> on
  {
    match e
    case Subtitles => subTracks != 0
    case AudioTrack => audioTracks > 1
    case _ => true
  }

  /** `width`: the playlist panel is wider. */
  function Width(e: MenuEntry): (w: nat)
    ensures e == Playlist <==> w == 500
    ensures e != Playlist <==> w == 200
  {
    match e
    case Playlist => 500
    case _ => 200
  }

  /** `seconds_to_mmss`: the same formatting as `Time::mmss`. */
  function SecondsToMmss(seconds: real): string {
    Time.Mmss(Time.Time(seconds))
  }

  /** Formatting whole seconds and reading them back gives the seconds. */
  lemma SecondsToMmssRoundTrip(s: nat)
    requires s / 60 <= Time.U32Max
    ensures Time.ParseMmss(SecondsToMmss(s as real)) == Some(s)
  {
    Time.MmssRoundTrip(s);
  }
}
