/**
 * The split revision's views and menus against those of the older
 * single-file revision (src/ui against src/main.rs): what carried over
 * unchanged and what the split changed.
 */
module Revisions {
  import opened Wrappers
  import Views
  import Legacy
  import Tracks

  /** The older view each newer one replaces; both newer menus replace the older single menu. */
  function Older(v: Views.View): (o: Legacy.View)
    ensures o.Menu? <==> v.MediaMenuView? || v.HomeMenuView?
  {
    match v
    case HiddenView => Legacy.Hidden
    case MiniSeekView => Legacy.MiniSeek
    case SeekBarView => Legacy.SeekBar
    case SeekingView => Legacy.Seeking
    case MediaMenuView(_) => Legacy.Menu(None)
    case HomeMenuView(_) => Legacy.Menu(None)
  }

  /** Both revisions hide the same views after the same idle time. */
  lemma TimeoutsCarriedOver(v: Views.View)
    ensures Legacy.HideOnInactive(Older(v)) == Views.HideOnInactive(v)
  {
  }

  /** The menus gained the prompt bar in the split; every other view kept its choice. */
  lemma MenusGainedPrompts(v: Views.View)
    ensures Legacy.ShowPrompts(Older(v)) <==> Views.ShowPrompts(v) && !v.MediaMenuView? && !v.HomeMenuView?
  {
  }

  /** The track entries kept their rule; the playlist entry went from always on to needing two items. */
  lemma EnabledCarriedOver(media: Views.Media)
    ensures Legacy.Enabled(Legacy.Subtitles, media.subs, media.audio) == Views.MediaEnabled(Views.TrackMenu(Tracks.Sub), media)
    ensures Legacy.Enabled(Legacy.AudioTrack, media.subs, media.audio) == Views.MediaEnabled(Views.TrackMenu(Tracks.Audio), media)
    ensures Legacy.Enabled(Legacy.Playlist, media.subs, media.audio)
    ensures Views.MediaEnabled(Views.PlaylistMenu, media) <==> media.playlistLen > 1
  {
  }

  /** The playlist panel kept its width; the other panels grew by 100. */
  lemma WidthsWidened(e: Legacy.MenuEntry, m: Views.MediaEntry)
    ensures Legacy.Width(Legacy.Playlist) == Views.MediaWidth(Views.PlaylistMenu)
    ensures e != Legacy.Playlist && m != Views.PlaylistMenu ==> Views.MediaWidth(m) == Legacy.Width(e) + 100
  {
  }

  /** The subtitle and playlist entries kept their labels; the audio entry became plural. */
  lemma LabelsCarriedOver()
    ensures Legacy.Label(Legacy.Subtitles) == Tracks.MenuLabel(Tracks.Sub)
    ensures Legacy.Label(Legacy.AudioTrack) + "s" == Tracks.MenuLabel(Tracks.Audio)
    ensures Legacy.Label(Legacy.Playlist) == Views.MediaLabel(Views.PlaylistMenu)
  {
  }
}
