/**
 * The split revision's views (src/ui/mod.rs and the files under src/ui/views): a closed
 * set of views, each with its button table, whether it shows the prompt
 * bar, and after how long without input it hides itself.
 *
 * `Command::ShowMenu`, which the hidden view, the seek bar and the media
 * menu bind but the command enum does not define, is read as
 * `ShowMediaMenu`.
 */
module Views {
  import opened Wrappers
  import opened Buttons
  import opened Commands
  import opened Clock
  import Tracks

  /** The media menu's submenus (src/ui/views/media_menu/mod.rs:16-24). */
  datatype MediaEntry = PlaylistMenu | ChaptersMenu | TrackMenu(kind: Tracks.TrackType)

  /** The home menu's submenus (src/ui/views/home_menu/mod.rs:14-16). */
  datatype HomeEntry = LibraryMenu

  datatype View =
    | HiddenView
    | MiniSeekView
    | SeekBarView
    | SeekingView
    | MediaMenuView(media: Option<MediaEntry>)
    | HomeMenuView(home: Option<HomeEntry>)

  /** `Box<dyn View>::default()`. */
  function DefaultView(): (v: View)
    ensures !ShowPrompts(v) && HideOnInactive(v).None?
  {
    HiddenView
  }

  /** The substitute for the undefined `Command::ShowMenu`. */
  const ShowMenu: Command := ShowMediaMenu

  function HiddenActions(): Table {
    Unbound().(a := StartSeeking, b := ShowUi, x := TogglePause, y := ShowUi,
               left := SeekBackwardStateless, right := SeekForwardStateless,
               up := VolumeUp, down := VolumeDown, select := ShowMiniSeek, start := ShowMenu)
  }

  function MiniSeekActions(): Table {
    HiddenActions().(select := HideUi)
  }

  function SeekBarActions(): Table {
    Unbound().(a := StartSeeking, b := HideUi, x := TogglePause,
               left := SeekBackwardStateless, right := SeekForwardStateless, start := ShowMenu)
  }

  function SeekingActions(): Table {
    Unbound().(a := DoneSeeking, b := CancelSeeking, y := SeekExact, up := SeekFaster,
               down := SeekSlower, left := SeekBackward, right := SeekForward)
  }

  function MediaMenuActions(sub: Option<MediaEntry>): Table {
    Unbound().(a := Activate, b := if sub.Some? then ShowMenu else HideUi, x := TogglePause,
               up := MoveFocus(FocusUp), down := MoveFocus(FocusDown),
               left := SeekBackwardStateless, right := SeekForwardStateless, start := HideUi)
  }

  /** `HomeMenu::catch_left_right`: no home submenu overrides the default. */
  function CatchLeftRight(e: HomeEntry): (c: bool)
    ensures !c
  {
    false
  }

  function HomeMenuActions(sub: Option<HomeEntry>): Table {
    var leftRight := if sub.Some? && CatchLeftRight(sub.value) then Unbound()
                     else Unbound().(left := SeekBackwardStateless, right := SeekForwardStateless);
    leftRight.(a := Activate, b := if sub.Some? then ShowHomeMenu else HideUi, x := TogglePause,
               up := MoveFocus(FocusUp), down := MoveFocus(FocusDown), home := HideUi)
  }

  /** `View::button_actions`. */
  function ButtonActions(v: View): Table {
    match v
    case HiddenView => HiddenActions()
    case MiniSeekView => MiniSeekActions()
    case SeekBarView => SeekBarActions()
    case SeekingView => SeekingActions()
    case MediaMenuView(sub) => MediaMenuActions(sub)
    case HomeMenuView(sub) => HomeMenuActions(sub)
  }

  /** `View::show_prompts`: on by default, off for the hidden and mini-seek views. */
  function ShowPrompts(v: View): (show: bool)
    ensures !show <==> v == HiddenView || v == MiniSeekView
  {
    !(v.HiddenView? || v.MiniSeekView?)
  }

  /** `View::hide_on_inactive`, in nanoseconds: none by default, 2 s for mini-seek, 5 s for the seek bar. */
  function HideOnInactive(v: View): (d: Option<nat>)
    ensures d.Some? <==> v == MiniSeekView || v == SeekBarView
    ensures v == MiniSeekView ==> d == Some(2 * Second)
    ensures v == SeekBarView ==> d == Some(5 * Second)
  {
    match v
    case MiniSeekView => Some(2 * Second)
    case SeekBarView => Some(5 * Second)
    case _ => None
  }

  /** The prompt bar is drawn exactly in the views whose b button has a prompt to show. */
  lemma PromptsFollowBack(v: View)
    ensures ShowPrompts(v) <==> ShowPrompt(Lookup(ButtonActions(v), South))
  {
  }

  /** A view that hides itself after a while can also be hidden at once by one of its buttons. */
  lemma TimeoutHasButton(v: View)
    ensures HideOnInactive(v).Some? ==> exists b :: Lookup(ButtonActions(v), b) == HideUi
  {
    if v == MiniSeekView {
      assert Lookup(ButtonActions(v), Select) == HideUi;
    } else if v == SeekBarView {
      assert Lookup(ButtonActions(v), South) == HideUi;
    }
  }

  // ---------------------------------------------------------------------
  // Tables, read through `get`
  // ---------------------------------------------------------------------

  /** The hidden view binds ten buttons and leaves the shoulder buttons, home, C, Z, the thumbs and unknown buttons unbound. */
  lemma HiddenBindings(b: Button)
    ensures var c := Lookup(HiddenActions(), b);
            (b == East ==> c == StartSeeking) && (b == South ==> c == ShowUi) &&
            (b == North ==> c == TogglePause) && (b == West ==> c == ShowUi) &&
            (b == DPadLeft ==> c == SeekBackwardStateless) && (b == DPadRight ==> c == SeekForwardStateless) &&
            (b == DPadUp ==> c == VolumeUp) && (b == DPadDown ==> c == VolumeDown) &&
            (b == Select ==> c == ShowMiniSeek) && (b == Start ==> c == ShowMediaMenu) &&
            (b in {LeftTrigger, LeftTrigger2, RightTrigger, RightTrigger2, Mode, C, Z, LeftThumb, RightThumb, Unknown} ==>
               c == NoCommand)
  {
  }

  /** The mini-seek table is the hidden one with Select rebound to HideUi. */
  lemma MiniSeekDiffersOnlyInSelect(b: Button)
    ensures b != Select ==> Lookup(MiniSeekActions(), b) == Lookup(HiddenActions(), b)
    ensures Lookup(MiniSeekActions(), Select) == HideUi && Lookup(HiddenActions(), Select) == ShowMiniSeek
  {
  }

  /** The seek bar binds six buttons; Y, up, down and Select are unbound. */
  lemma SeekBarBindings(b: Button)
    ensures var c := Lookup(SeekBarActions(), b);
            (b == East ==> c == StartSeeking) && (b == South ==> c == HideUi) &&
            (b == North ==> c == TogglePause) && (b == DPadLeft ==> c == SeekBackwardStateless) &&
            (b == DPadRight ==> c == SeekForwardStateless) && (b == Start ==> c == ShowMediaMenu) &&
            (b in {West, DPadUp, DPadDown, Select} ==> c == NoCommand)
  {
  }

  /**
   * While seeking, every binding is a session command: the seek directions,
   * the step, the exact flag, done and cancel. Pause cannot be toggled and
   * no menu can be opened.
   */
  lemma SeekingBindings(b: Button)
    ensures var c := Lookup(SeekingActions(), b);
            c in {NoCommand, DoneSeeking, CancelSeeking, SeekExact, SeekFaster, SeekSlower, SeekBackward, SeekForward}
    ensures b in {North, Select, Start} ==> Lookup(SeekingActions(), b) == NoCommand
    ensures Lookup(SeekingActions(), b) == DoneSeeking <==> b == East
    ensures Lookup(SeekingActions(), b) == CancelSeeking <==> b == South
  {
  }

  /** In the media menu B goes back to the menu from a submenu and hides the menu otherwise. */
  lemma MediaMenuBack(sub: Option<MediaEntry>)
    ensures Lookup(MediaMenuActions(sub), South) == if sub.Some? then ShowMediaMenu else HideUi
    ensures Lookup(MediaMenuActions(sub), East) == Activate && Lookup(MediaMenuActions(sub), Start) == HideUi
    ensures Lookup(MediaMenuActions(sub), DPadLeft) == SeekBackwardStateless
  {
  }

  /**
   * In the home menu B goes back to the menu from a submenu and hides it
   * otherwise; left and right keep seeking because no submenu catches them;
   * Start is unbound and home hides the menu.
   */
  lemma HomeMenuBindings(sub: Option<HomeEntry>)
    ensures Lookup(HomeMenuActions(sub), South) == if sub.Some? then ShowHomeMenu else HideUi
    ensures Lookup(HomeMenuActions(sub), DPadLeft) == SeekBackwardStateless
    ensures Lookup(HomeMenuActions(sub), DPadRight) == SeekForwardStateless
    ensures Lookup(HomeMenuActions(sub), Start) == NoCommand && Lookup(HomeMenuActions(sub), Mode) == HideUi
  {
  }

  // ---------------------------------------------------------------------
  // Menus
  // ---------------------------------------------------------------------

  const MediaEntries: seq<MediaEntry> :=
    [PlaylistMenu, ChaptersMenu, TrackMenu(Tracks.Video), TrackMenu(Tracks.Audio), TrackMenu(Tracks.Sub)]

  const HomeEntries: seq<HomeEntry> := [LibraryMenu]

  /** `MediaMenuView::main()` and `MediaMenuView::sub(m)`. */
  function MediaMain(): (v: View)
    ensures v.MediaMenuView? && v.media.None?
  {
    MediaMenuView(None)
  }

  function MediaSub(m: MediaEntry): (v: View)
    ensures v.MediaMenuView? && v.media == Some(m)
  {
    MediaMenuView(Some(m))
  }

  function HomeMain(): (v: View)
    ensures v.HomeMenuView? && v.home.None?
  {
    HomeMenuView(None)
  }

  function HomeSub(m: HomeEntry): (v: View)
    ensures v.HomeMenuView? && v.home == Some(m)
  {
    HomeMenuView(Some(m))
  }

  /** What the player offers: the inputs the submenus' `enabled` consult. */
  datatype Media = Media(playlistLen: nat, chapters: nat, video: nat, audio: nat, subs: nat)

  function MediaLabel(m: MediaEntry): string {
    match m
    case PlaylistMenu => "Playlist"
    case ChaptersMenu => "Chapters"
    case TrackMenu(kind) => Tracks.MenuLabel(kind)
  }

  /** Labels tell the five entries apart, which the menu's autofocus memory relies on. */
  lemma MediaLabelsDistinct(i: nat, j: nat)
    requires i < j < |MediaEntries|
    ensures MediaLabel(MediaEntries[i]) != MediaLabel(MediaEntries[j])
  {
  }

  /** `MediaMenu::enabled`: a playlist of two or more, any chapter, or the track rule. */
  function MediaEnabled(m: MediaEntry, media: Media): (e: bool)
    ensures m == PlaylistMenu ==> (e <==> media.playlistLen > 1)
    ensures m == ChaptersMenu ==> (e <==> media.chapters > 0)
    ensures m.TrackMenu? ==> e == Tracks.Enabled(m.kind, match m.kind
                                                        case Video => media.video
                                                        case Audio => media.audio
                                                        case Sub => media.subs)
  {
    match m
    case PlaylistMenu => media.playlistLen > 1
    case ChaptersMenu => media.chapters > 0
    case TrackMenu(kind) =>
      Tracks.Enabled(kind, match kind
                           case Video => media.video
                           case Audio => media.audio
                           case Sub => media.subs)
  }

  /** `MediaMenu::width`: the playlist is wider than the 300-point default. */
  function MediaWidth(m: MediaEntry): (w: nat)
    ensures w == if m == PlaylistMenu then 500 else 300
  {
    if m == PlaylistMenu then 500 else 300
  }

  /** `HomeMenu::width` defaults to 300 and the library does not override it. */
  function HomeWidth(m: HomeEntry): (w: nat)
    ensures w == 300
  {
    300
  }

  /** More of what the player offers never disables a media entry. */
  lemma MediaEnabledMonotone(m: MediaEntry, a: Media, b: Media)
    requires a.playlistLen <= b.playlistLen && a.chapters <= b.chapters
    requires a.video <= b.video && a.audio <= b.audio && a.subs <= b.subs
    ensures MediaEnabled(m, a) ==> MediaEnabled(m, b)
  {
  }

  /** The playlist is the widest panel of either menu, and the only one that wide. */
  lemma PlaylistWidest(m: MediaEntry, h: HomeEntry)
    ensures MediaWidth(m) <= MediaWidth(PlaylistMenu)
    ensures MediaWidth(m) == MediaWidth(PlaylistMenu) <==> m == PlaylistMenu
    ensures HomeWidth(h) == MediaWidth(ChaptersMenu) < MediaWidth(PlaylistMenu)
  {
  }

  /**
   * Activating the i-th entry of the main media menu opens its submenu;
   * a disabled entry cannot be activated, so the view stays.
   */
  function ActivateMediaEntry(i: nat, media: Media): (v: View)
    requires i < |MediaEntries|
    ensures MediaEnabled(MediaEntries[i], media) ==> v == MediaSub(MediaEntries[i])
    ensures !MediaEnabled(MediaEntries[i], media) ==> v == MediaMain()
  {
    if MediaEnabled(MediaEntries[i], media) then MediaSub(MediaEntries[i]) else MediaMain()
  }

  /** Activating the library entry of the home menu opens it: the library is always enabled. */
  function ActivateHomeEntry(i: nat): (v: View)
    requires i < |HomeEntries|
    ensures v == HomeSub(LibraryMenu)
  {
    HomeSub(HomeEntries[i])
  }

  /** The video track submenu can never be opened, whatever the player offers. */
  lemma VideoTracksUnreachable(media: Media)
    ensures ActivateMediaEntry(2, media) == MediaMain()
  {
  }
}
