/**
 * The split revision's application state and what a command or an event
 * does to it (`Command::execute` and `Event::execute`, src/command.rs:127-221).
 *
 * The player is the seek-session model; the renderers are the DLNA model.
 * egui's focus memory and `Activated` flag, which `MoveFocus` and
 * `Activate` write, are drawing state and are not part of the model.
 * `App::change_view` is not part of this model's sources; a view change
 * replaces the view.
 */
module App {
  import opened Wrappers
  import opened Json
  import opened Buttons
  import opened Toasts
  import opened Commands
  import opened Views
  import opened SeekSession
  import MpvCommand
  import Utf8
  import Dlna

  datatype App = App(
    view: View,
    mpv: Player,
    devices: seq<Dlna.Device>,
    toasts: seq<Toast>,
    posts: seq<Dlna.Post>,
    exit: bool)

  /** The step of a seek outside a session, in seconds, in keyframe mode. */
  const StatelessStep: real := 5.0

  /** The volume step of VolumeUp and VolumeDown. */
  const VolumeStep: int := 5

  /** `as u8` on a float: saturates at both ends. */
  function SaturateU8(x: int): (b: Utf8.byte)
    ensures 0 <= x < 256 ==> b as int == x
    ensures x < 0 ==> b == 0
    ensures x > 255 ==> b == 255
  {
    if x < 0 then 0 else if x > 255 then 255 else x as Utf8.byte
  }

  /** The cast picks the nearest byte: it lies between x and any byte, and casting a byte back changes nothing. */
  lemma SaturateU8Nearest(x: int, b: Utf8.byte)
    ensures x <= SaturateU8(x) as int <= b as int || b as int <= SaturateU8(x) as int <= x
    ensures SaturateU8(SaturateU8(x) as int) == SaturateU8(x)
  {
  }

  /**
   * VolumeUp / VolumeDown: only the first renderer, if any, is asked for its
   * volume plus `delta`. `None` is the panic of a renderer without a usable
   * location.
   */
  function ChangeVolume(app: App, delta: int): (r: Option<App>)
    ensures |app.devices| == 0 ==> r == Some(app)
    ensures r.None? <==> |app.devices| > 0 && Dlna.ControlUrl(app.devices[0].location).None?
    ensures r.Some? ==> r.value.view == app.view && r.value.mpv == app.mpv &&
                        r.value.toasts == app.toasts && r.value.exit == app.exit
    ensures r.Some? ==> |r.value.devices| == |app.devices| && (|app.devices| > 0 ==> r.value.devices[1..] == app.devices[1..])
    ensures r.Some? && |app.devices| > 0 ==>
              r.value.devices[0] == app.devices[0].(volume := r.value.devices[0].volume) &&
              r.value.devices[0].volume == Dlna.ClampVolume(SaturateU8(app.devices[0].volume as int + delta)) &&
              |r.value.posts| == |app.posts| + 1 && r.value.posts[..|app.posts|] == app.posts
  {
    if |app.devices| == 0 then Some(app)
    else
      var d := app.devices[0];
      match Dlna.SetVolume(d, SaturateU8(d.volume as int + delta))
      case None => None
      case Some((d', post)) =>
        assert ([d'] + app.devices[1..])[1..] == app.devices[1..];
        Some(app.(devices := [d'] + app.devices[1..], posts := app.posts + [post]))
  }

  /** The commands that change the view. */
  predicate ChangesView(c: Command) {
    c.ShowMiniSeek? || c.ShowUi? || c.HideUi? || c.ShowMediaMenu? || c.ShowHomeMenu? ||
    c.StartSeeking? || c.DoneSeeking? || c.CancelSeeking?
  }

  /** The commands that talk to the player or touch its seek session. */
  predicate UsesPlayer(c: Command) {
    c.TogglePause? || c.StartSeeking? || c.SeekBackward? || c.SeekForward? ||
    c.SeekBackwardStateless? || c.SeekForwardStateless? || c.DoneSeeking? || c.CancelSeeking? ||
    c.SeekFaster? || c.SeekSlower? || c.SeekExact?
  }

  /** The commands whose player call `execute` unwraps, so that mpv refusing it is a panic. */
  predicate Unwraps(c: Command) {
    c.TogglePause? || c.SeekForward? || c.SeekBackward? ||
    c.SeekForwardStateless? || c.SeekBackwardStateless? || c.DoneSeeking?
  }

  /**
   * The player call behind an unwrapping command. It fails exactly when it
   * sent something and mpv refused the last command it sent.
   */
  function PlayerCall(cmd: Command, p: Player, now: int, ans: Answers): (o: Outcome)
    requires Unwraps(cmd)
    ensures o.ok <==> o.player.trace == p.trace || ans.accepts(o.player.trace)
  {
    match cmd
    case TogglePause => Send(p, MpvCommand.Cycle("pause"), ans)
    case SeekForward => SeekSession.SeekForward(p, now, ans)
    case SeekBackward => SeekSession.SeekBackward(p, now, ans)
    case SeekForwardStateless => SeekStateless(p, StatelessStep, false, ans)
    case SeekBackwardStateless => SeekStateless(p, -StatelessStep, false, ans)
    case DoneSeeking => FinishSeek(p, now, ans)
  }

  /** `.unwrap()` on a player call: its player on success, a panic otherwise. */
  function Unwrap(app: App, o: Outcome): Option<App> {
    if o.ok then Some(app.(mpv := o.player)) else None
  }

  /**
   * `Command::execute` at time `now`, with mpv answering by `ans`;
   * `None` is a panic, of a renderer or of an unwrapped player call.
   */
  function Execute(cmd: Command, app: App, now: int, ans: Answers): (r: Option<App>)
    ensures r.Some? ==> r.value.toasts == app.toasts
  {
    match cmd
    case NoCommand => Some(app)
    case ShowMiniSeek => Some(app.(view := MiniSeekView))
    case ShowUi => Some(app.(view := SeekBarView))
    case HideUi => Some(app.(view := HiddenView))
    case ShowMediaMenu => Some(app.(view := MediaMain()))
    case ShowHomeMenu => Some(app.(view := HomeMain()))
    case MoveFocus(_) => Some(app)
    case Activate => Some(app)
    case TogglePause | SeekForward | SeekBackward | SeekForwardStateless | SeekBackwardStateless | DoneSeeking =>
      // DoneSeeking shows the seek bar before it finishes the session
      Unwrap(if cmd == DoneSeeking then app.(view := SeekBarView) else app, PlayerCall(cmd, app.mpv, now, ans))
    case StartSeeking => Some(app.(mpv := Acquire(app.mpv, now, ans), view := SeekingView))
    case CancelSeeking => Some(app.(view := SeekBarView, mpv := CancelSeek(app.mpv, ans).player))
    case SeekFaster => Some(app.(mpv := SeekSession.SeekFaster(app.mpv)))
    case SeekSlower => Some(app.(mpv := SeekSession.SeekSlower(app.mpv)))
    case SeekExact => Some(app.(mpv := ToggleSeekExact(app.mpv)))
    case VolumeUp => ChangeVolume(app, VolumeStep)
    case VolumeDown => ChangeVolume(app, -VolumeStep)
    case Quit => Some(app.(exit := true))
  }

  /**
   * A command panics exactly in two ways: a volume step on a first renderer
   * whose location gives no control URL, or an unwrapped player call whose
   * last command mpv refuses. The session's snapshot reads are taken to
   * succeed (see `SeekSession.Acquire`), so starting a seek never panics on
   * a refused pause, and cancelling never panics.
   */
  lemma ExecuteFails(cmd: Command, app: App, now: int, ans: Answers)
    ensures Execute(cmd, app, now, ans).None? <==>
              ((cmd == VolumeUp || cmd == VolumeDown) &&
               |app.devices| > 0 && Dlna.ControlUrl(app.devices[0].location).None?) ||
              (Unwraps(cmd) && !PlayerCall(cmd, app.mpv, now, ans).ok)
  {
    if Unwraps(cmd) {
      ExecuteUnwraps(cmd, app, now, ans);
    } else if cmd == VolumeUp || cmd == VolumeDown {
      assert Execute(cmd, app, now, ans) == ChangeVolume(app, if cmd == VolumeUp then VolumeStep else -VolumeStep);
    } else {
      ExecuteTotal(cmd, app, now, ans);
    }
  }

  /** An unwrapping command's outcome is its player call, unwrapped. */
  lemma ExecuteUnwraps(cmd: Command, app: App, now: int, ans: Answers)
    requires Unwraps(cmd)
    ensures Execute(cmd, app, now, ans) ==
            Unwrap(if cmd == DoneSeeking then app.(view := SeekBarView) else app, PlayerCall(cmd, app.mpv, now, ans))
  {
    match cmd
    case TogglePause =>
    case SeekForward =>
    case SeekBackward =>
    case SeekForwardStateless =>
    case SeekBackwardStateless =>
    case DoneSeeking =>
  }

  /** The commands that neither unwrap a player call nor step the volume always succeed. */
  lemma ExecuteTotal(cmd: Command, app: App, now: int, ans: Answers)
    requires !Unwraps(cmd) && cmd != VolumeUp && cmd != VolumeDown
    ensures Execute(cmd, app, now, ans).Some?
  {
  }

  /** Each command touches only its own part of the application. */
  lemma ExecuteScope(cmd: Command, app: App, now: int, ans: Answers)
    requires Execute(cmd, app, now, ans).Some?
    ensures var r := Execute(cmd, app, now, ans).value;
            (r.exit <==> app.exit || cmd == Quit) &&
            (r.view != app.view ==> ChangesView(cmd)) &&
            (r.mpv != app.mpv ==> UsesPlayer(cmd)) &&
            (r.devices != app.devices || r.posts != app.posts ==> cmd == VolumeUp || cmd == VolumeDown)
  {
  }

  /** The five navigation commands land on their views, menus without a submenu. */
  lemma NavigationTargets(app: App, now: int, ans: Answers)
    ensures Execute(ShowMiniSeek, app, now, ans) == Some(app.(view := MiniSeekView))
    ensures Execute(ShowUi, app, now, ans) == Some(app.(view := SeekBarView))
    ensures Execute(HideUi, app, now, ans) == Some(app.(view := HiddenView))
    ensures Execute(ShowMediaMenu, app, now, ans) == Some(app.(view := MediaMenuView(None)))
    ensures Execute(ShowHomeMenu, app, now, ans) == Some(app.(view := HomeMenuView(None)))
  {
  }

  /** The select button toggles between the hidden and the mini-seek view. */
  lemma SelectToggles(app: App, now: int, ans: Answers)
    ensures app.view == HiddenView ==>
              Execute(Lookup(ButtonActions(app.view), Select), app, now, ans) == Some(app.(view := MiniSeekView))
    ensures app.view == MiniSeekView ==>
              Execute(Lookup(ButtonActions(app.view), Select), app, now, ans) == Some(app.(view := HiddenView))
  {
    MiniSeekDiffersOnlyInSelect(Select);
  }

  /**
   * While seeking, every button either stays in the seeking view or goes to
   * the seek bar, and only a (done) and b (cancel) leave; none toggles
   * pause. Only the two seek directions and done can panic.
   */
  lemma SeekingExits(app: App, b: Button, now: int, ans: Answers)
    requires app.view == SeekingView
    ensures var r := Execute(Lookup(ButtonActions(app.view), b), app, now, ans);
            (r.None? ==> b in {DPadLeft, DPadRight, East}) &&
            (r.Some? ==> r.value.view in {SeekingView, SeekBarView} &&
                         (r.value.view == SeekBarView <==> b in {East, South}))
    ensures Lookup(ButtonActions(app.view), b) != TogglePause
  {
    SeekingBindings(b);
  }

  /**
   * Starting to seek ignores a refused pause, acquires a live session and
   * shows the seeking view; its snapshot reads are taken to succeed.
   */
  lemma StartSeekingAcquires(app: App, now: int, ans: Answers)
    ensures Execute(StartSeeking, app, now, ans).Some?
    ensures var r := Execute(StartSeeking, app, now, ans).value;
            r.view == SeekingView && r.mpv.session.Some? && r.mpv.session.value.ended.None?
    ensures app.mpv.session.None? ==>
              var r := Execute(StartSeeking, app, now, ans).value;
              r.mpv.session.value.speed == SeekSpeeds.FiveSeconds && !r.mpv.session.value.exact &&
              r.mpv.trace == app.mpv.trace + [MpvCommand.SetProperty("pause", Bool(true))]
  {
  }

  /**
   * Done returns to the seek bar and ends a session that was playing
   * before; it panics exactly when mpv refuses to resume playback.
   */
  lemma DoneSeekingReturns(app: App, now: int, ans: Answers)
    ensures var r := Execute(DoneSeeking, app, now, ans);
            r.None? <==> app.mpv.session.Some? && !app.mpv.session.value.paused &&
                         !ans.accepts(app.mpv.trace + [MpvCommand.SetProperty("pause", Bool(false))])
    ensures var r := Execute(DoneSeeking, app, now, ans);
            r.Some? ==> r.value.view == SeekBarView &&
                        (app.mpv.session.Some? && !app.mpv.session.value.paused ==>
                           r.value.mpv.session.value.ended == Some(now))
  {
    assert Execute(DoneSeeking, app, now, ans) == Unwrap(app.(view := SeekBarView), FinishSeek(app.mpv, now, ans));
  }

  /**
   * Cancel never panics: it returns to the seek bar and drops the session,
   * and it restores the position the session started from unless mpv
   * refuses the restore.
   */
  lemma CancelSeekingReturns(app: App, now: int, ans: Answers)
    ensures Execute(CancelSeeking, app, now, ans).Some?
    ensures Execute(CancelSeeking, app, now, ans).value.view == SeekBarView
    ensures Execute(CancelSeeking, app, now, ans).value.mpv.session.None?
    ensures app.mpv.session.Some? ==>
              var pos := app.mpv.session.value.pos;
              (Execute(CancelSeeking, app, now, ans).value.mpv.percentPos == pos <==>
               ans.accepts(app.mpv.trace + [MpvCommand.SetProperty("percent-pos", Num(pos))]) || app.mpv.percentPos == pos)
  {
    assert Execute(CancelSeeking, app, now, ans) ==
           Some(app.(view := SeekBarView, mpv := CancelSeek(app.mpv, ans).player));
  }

  /**
   * Stateless seeks send one five-second keyframe seek and leave the seek
   * session and the view alone; each panics exactly when mpv refuses it.
   */
  lemma StatelessSeeks(app: App, now: int, ans: Answers)
    ensures var t := app.mpv.trace + [MpvCommand.Seek(5.0, false)];
            var r := Execute(SeekForwardStateless, app, now, ans);
            (r.Some? <==> ans.accepts(t)) &&
            (r.Some? ==> r.value.mpv.session == app.mpv.session && r.value.view == app.view && r.value.mpv.trace == t)
    ensures var t := app.mpv.trace + [MpvCommand.Seek(-5.0, false)];
            var r := Execute(SeekBackwardStateless, app, now, ans);
            (r.Some? <==> ans.accepts(t)) &&
            (r.Some? ==> r.value.mpv.session == app.mpv.session && r.value.view == app.view && r.value.mpv.trace == t)
  {
    assert Execute(SeekForwardStateless, app, now, ans) == Unwrap(app, SeekStateless(app.mpv, 5.0, false, ans));
    assert Execute(SeekBackwardStateless, app, now, ans) == Unwrap(app, SeekStateless(app.mpv, -5.0, false, ans));
  }

  /**
   * TogglePause is `cycle pause`: it panics exactly when mpv refuses it, and
   * otherwise flips the pause flag and nothing else the player observes.
   */
  lemma TogglePauseFlips(app: App, now: int, ans: Answers)
    ensures var t := app.mpv.trace + [MpvCommand.CycleProperty("pause")];
            var r := Execute(TogglePause, app, now, ans);
            (r.Some? <==> ans.accepts(t)) &&
            (r.Some? ==> r.value.mpv == app.mpv.(pause := !app.mpv.pause, trace := t) && r.value.view == app.view)
  {
  }

  /**
   * The inactivity hide does what a button of the view could do, and it
   * settles: the hidden view has no timeout and draws no prompts.
   */
  lemma InactivityHideSettles(app: App, now: int, ans: Answers)
    ensures HideOnInactive(app.view).Some? ==> exists b :: Lookup(ButtonActions(app.view), b) == HideUi
    ensures var r := Execute(HideUi, app, now, ans);
            r == Some(app.(view := HiddenView)) && HideOnInactive(r.value.view).None? && !ShowPrompts(r.value.view)
  {
    TimeoutHasButton(app.view);
  }

  /**
   * Opening an entry of the media menu and pressing b comes back to the
   * main media menu; when the entry is disabled the view stayed on the main
   * menu, so the same press leaves the menu.
   */
  lemma MediaEntryRoundTrip(app: App, i: nat, media: Media, now: int, ans: Answers)
    requires i < |MediaEntries|
    ensures var v := ActivateMediaEntry(i, media);
            Execute(Lookup(ButtonActions(v), South), app.(view := v), now, ans) ==
            Some(app.(view := if MediaEnabled(MediaEntries[i], media) then MediaMain() else HiddenView))
  {
    MediaMenuBack(ActivateMediaEntry(i, media).media);
  }

  /** Opening the library and pressing b comes back to the main home menu. */
  lemma HomeEntryRoundTrip(app: App, i: nat, now: int, ans: Answers)
    requires i < |HomeEntries|
    ensures var v := ActivateHomeEntry(i);
            Execute(Lookup(ButtonActions(v), South), app.(view := v), now, ans) == Some(app.(view := HomeMain()))
  {
    HomeMenuBindings(Some(LibraryMenu));
  }

  /** VolumeUp gives the first renderer its volume plus five, at most 100. */
  lemma VolumeUpStep(app: App, now: int, ans: Answers)
    requires |app.devices| > 0 && Dlna.ControlUrl(app.devices[0].location).Some?
    ensures var v := app.devices[0].volume as int;
            Execute(VolumeUp, app, now, ans).value.devices[0].volume as int == if v + 5 > 100 then 100 else v + 5
  {
  }

  /** VolumeDown gives the first renderer its volume minus five, at least 0 and at most 100. */
  lemma VolumeDownStep(app: App, now: int, ans: Answers)
    requires |app.devices| > 0 && Dlna.ControlUrl(app.devices[0].location).Some?
    ensures var v := app.devices[0].volume as int;
            Execute(VolumeDown, app, now, ans).value.devices[0].volume as int ==
            if v - 5 < 0 then 0 else if v - 5 > 100 then 100 else v - 5
  {
  }

  /** Without renderers the volume buttons do nothing. */
  lemma VolumeWithoutDevices(app: App, now: int, ans: Answers)
    requires |app.devices| == 0
    ensures Execute(VolumeUp, app, now, ans) == Some(app) && Execute(VolumeDown, app, now, ans) == Some(app)
  {
  }

  /**
   * `Event::execute`: a toast is shown; losing the last gamepad hides the
   * overlay with a toast, unless it is hidden already.
   */
  function ExecuteEvent(ev: Event, app: App): (r: App)
    ensures r.mpv == app.mpv && r.devices == app.devices && r.posts == app.posts && r.exit == app.exit
    ensures ev.ToastEvent? ==> r == app.(toasts := app.toasts + [ev.toast])
    ensures ev.LastGamepadDisconnected? && app.view == HiddenView ==> r == app
    ensures ev.LastGamepadDisconnected? && app.view != HiddenView ==>
              r.view == HiddenView && r.toasts == app.toasts + [Toasts.LastGamepadDisconnected]
  {
    match ev
    case ToastEvent(t) => app.(toasts := app.toasts + [t])
    case LastGamepadDisconnected =>
      if app.view != HiddenView then
        app.(toasts := app.toasts + [Toasts.LastGamepadDisconnected], view := HiddenView)
      else app
  }

  /** Every event leaves the overlay visible only if it was, and adds at most one toast. */
  lemma EventsAddOneToast(ev: Event, app: App)
    ensures var r := ExecuteEvent(ev, app);
            |app.toasts| <= |r.toasts| <= |app.toasts| + 1 && r.toasts[..|app.toasts|] == app.toasts
    ensures app.view == HiddenView ==> ExecuteEvent(ev, app).view == HiddenView
  {
  }
}
