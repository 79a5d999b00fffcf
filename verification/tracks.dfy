/**
 * The track submenus of the media menu (src/ui/views/media_menu/tracks.rs):
 * when a kind of track is offered, how a track is labelled, which button is
 * highlighted, and which properties a choice sets.
 *
 * The player's track list is an input; the buttons the user activated in
 * one frame are a sequence of flags, the first for "None" and one per track.
 */
module Tracks {
  import opened Wrappers
  import opened Json
  import opened Strings
  import MpvCommand

  datatype TrackType = Video | Audio | Sub

  datatype Track = Track(id: int, title: Option<string>, lang: Option<string>, codec: Option<string>, selected: bool)

  /** The submenu's entry in the media menu. */
  function MenuLabel(kind: TrackType): (l: string)
    ensures kind == Video <==> l == "Video Tracks"
    ensures kind == Audio <==> l == "Audio Tracks"
    ensures kind == Sub <==> l == "Subtitles"
  {
    match kind
    case Video => "Video Tracks"
    case Audio => "Audio Tracks"
    case Sub => "Subtitles"
  }

  /** The three submenus are told apart by their labels. */
  lemma MenuLabelInjective(a: TrackType, b: TrackType)
    ensures MenuLabel(a) == MenuLabel(b) <==> a == b
  {
  }

  /**
   * `TrackMenu::enabled`: video never (its only arm with tracks answers
   * false), audio with at least two tracks to choose between, subtitles
   * with at least one.
   */
  function Enabled(kind: TrackType, count: nat): (e: bool)
    ensures kind == Video ==> !e
    ensures kind == Audio ==> (e <==> count >= 2)
    ensures kind == Sub ==> (e <==> count >= 1)
  {
    match kind
    case Video => false
    case Audio => count >= 2
    case Sub => count >= 1
  }

  /** A submenu is only offered when there is a track in it, and more tracks never take it away. */
  lemma EnabledMonotone(kind: TrackType, m: nat, n: nat)
    requires m <= n
    ensures Enabled(kind, m) ==> m > 0 && Enabled(kind, n)
  {
  }

  /** The label fallback chain: "title (lang)", title, lang, "(codec)", "#id". */
  function Label(t: Track): (l: string)
    ensures t.title.Some? && t.lang.Some? ==> l == t.title.value + " (" + t.lang.value + ")"
    ensures t.title.Some? && t.lang.None? ==> l == t.title.value
    ensures t.title.None? && t.lang.Some? ==> l == t.lang.value
    ensures t.title.None? && t.lang.None? && t.codec.Some? ==> l == "(" + t.codec.value + ")"
    ensures t.title.None? && t.lang.None? && t.codec.None? ==> l == "#" + IntToString(t.id)
  {
    match (t.title, t.lang, t.codec)
    case (Some(title), Some(lang), _) => title + " (" + lang + ")"
    case (Some(title), None, _) => title
    case (None, Some(lang), _) => lang
    case (None, None, Some(codec)) => "(" + codec + ")"
    case (None, None, None) => "#" + IntToString(t.id)
  }

  /** A track with nothing but an id is labelled by that id: the label reads back as it. */
  lemma IdLabelReadsBack(t: Track)
    requires t.title.None? && t.lang.None? && t.codec.None? && t.id >= 0
    ensures Label(t)[0] == '#' && AllDigits(Label(t)[1..]) && DigitsValue(Label(t)[1..]) == t.id
  {
    assert Label(t)[1..] == NatToString(t.id);
  }

  /** Tracks known only by their ids get the same label exactly when they have the same id. */
  lemma IdLabelsDistinct(s: Track, t: Track)
    requires s.title.None? && s.lang.None? && s.codec.None?
    requires t.title.None? && t.lang.None? && t.codec.None?
    ensures Label(s) == Label(t) <==> s.id == t.id
  {
    if Label(s) == Label(t) {
      var a, b := IntToString(s.id), IntToString(t.id);
      assert a == Label(s)[1..] && b == Label(t)[1..];
      if s.id < 0 {
        assert DigitsValue(NatToString(-s.id)) == DigitsValue(NatToString(-t.id));
      } else {
        assert DigitsValue(NatToString(s.id)) == DigitsValue(NatToString(t.id));
      }
    }
  }

  /** Subtitles count as hidden when `sub-visibility` is off; other kinds never do. */
  predicate Hidden(kind: TrackType, subVisibility: bool) {
    kind == Sub && !subVisibility
  }

  /** No track of the list is selected: the "None" entry then takes the focus. */
  predicate Disabled(tracks: seq<Track>) {
    forall i :: 0 <= i < |tracks| ==> !tracks[i].selected
  }

  /** The "None" entry is drawn highlighted when nothing is selected or subtitles are hidden. */
  predicate NoneHighlighted(tracks: seq<Track>, hidden: bool) {
    Disabled(tracks) || hidden
  }

  /** A track entry is drawn highlighted when it is selected and not hidden. */
  predicate TrackHighlighted(t: Track, hidden: bool) {
    !hidden && t.selected
  }

  /**
   * Exactly one of the two kinds of entry is highlighted: "None" is
   * highlighted if and only if no track entry is.
   */
  lemma NoneHighlightedIffNoTrack(tracks: seq<Track>, hidden: bool)
    ensures NoneHighlighted(tracks, hidden) <==> forall i :: 0 <= i < |tracks| ==> !TrackHighlighted(tracks[i], hidden)
  {
  }

  /** The property that selects a track of each kind. */
  function Property(kind: TrackType): (p: string)
    ensures p in {"vid", "aid", "sid"}
    ensures (kind == Video <==> p == "vid") && (kind == Audio <==> p == "aid") && (kind == Sub <==> p == "sid")
  {
    match kind
    case Video => "vid"
    case Audio => "aid"
    case Sub => "sid"
  }

  /** Each kind has its own property. */
  lemma PropertyInjective(k1: TrackType, k2: TrackType)
    requires Property(k1) == Property(k2)
    ensures k1 == k2
  {
  }

  /** The last activated entry of the frame's buttons, if any. */
  function LastOn(activated: seq<bool>): (r: Option<nat>)
    ensures r.None? <==> forall i :: 0 <= i < |activated| ==> !activated[i]
    ensures r.Some? ==> r.value < |activated| && activated[r.value] &&
                        forall k :: r.value < k < |activated| ==> !activated[k]
    decreases |activated|
  {
    if |activated| == 0 then None
    else if activated[|activated| - 1] then Some(|activated| - 1)
    else LastOn(activated[..|activated| - 1])
  }

  /**
   * The id chosen in one frame: the last activated entry wins, "None"
   * meaning id 0; nothing when no entry was activated.
   */
  function SetTrack(tracks: seq<Track>, activated: seq<bool>): (r: Option<int>)
    requires |activated| == |tracks| + 1
    ensures r.None? <==> forall i :: 0 <= i < |activated| ==> !activated[i]
    ensures r.Some? ==> (exists i :: 0 < i < |activated| && activated[i] && tracks[i - 1].id == r.value &&
                                     forall k :: i < k < |activated| ==> !activated[k]) ||
                        (r.value == 0 && activated[0] && forall k :: 0 < k < |activated| ==> !activated[k])
  {
    match LastOn(activated)
    case None => None
    case Some(i) => if i == 0 then Some(0) else Some(tracks[i - 1].id)
  }

  /**
   * The requests a choice sends: hidden subtitles are made visible first,
   * then the kind's property is set to the id.
   */
  function Select(kind: TrackType, hidden: bool, id: int): (rs: seq<MpvCommand.Request>)
    ensures |rs| == if hidden then 2 else 1
    ensures rs[|rs| - 1] == MpvCommand.Set(Property(kind), Num(id as real))
    ensures hidden ==> rs[0] == MpvCommand.Set("sub-visibility", Bool(true))
  {
    (if hidden then [MpvCommand.Set("sub-visibility", Bool(true))] else []) +
    [MpvCommand.Set(Property(kind), Num(id as real))]
  }

  /** One frame of the submenu: what the activated entries send, in order. */
  function Draw(kind: TrackType, tracks: seq<Track>, subVisibility: bool, activated: seq<bool>): (rs: seq<MpvCommand.Request>)
    requires |activated| == |tracks| + 1
    ensures rs == [] <==> forall i :: 0 <= i < |activated| ==> !activated[i]
    ensures rs != [] ==> rs == Select(kind, Hidden(kind, subVisibility), SetTrack(tracks, activated).value)
  {
    match SetTrack(tracks, activated)
    case None => []
    case Some(id) => Select(kind, Hidden(kind, subVisibility), id)
  }

  /**
   * Choosing "None" alone deselects: the kind's property is set to 0, and
   * only hidden subtitles are made visible first.
   */
  lemma ChoosingNone(kind: TrackType, tracks: seq<Track>, subVisibility: bool, activated: seq<bool>)
    requires |activated| == |tracks| + 1 && activated[0]
    requires forall k :: 0 < k < |activated| ==> !activated[k]
    ensures var rs := Draw(kind, tracks, subVisibility, activated);
            rs[|rs| - 1] == MpvCommand.Set(Property(kind), Num(0.0)) &&
            (|rs| == 2 <==> kind == Sub && !subVisibility)
  {
  }
}
