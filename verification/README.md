# htpc-overlay, modelled in Dafny

htpc-overlay is a full-screen overlay for a living-room PC. It draws over
an mpv player and is driven by a gamepad. This project models its
behaviour, without the drawing:

- **The player client** (`MpvClient`, `MpvCommand`). The client speaks to
  mpv in JSON lines. It buffers the events that arrive while it waits for a
  command's response, and applies them to a property cache in arrival
  order. It allocates observe ids, and on a cache miss it reads a property
  from the first buffered change.
- **The seek session** (`SeekSession`, `SeekSpeeds`, `Time`). A session is
  absent, live or ended. A live session holds a seek step from a five-rung
  ladder, an exact/keyframes flag, and a snapshot of position and pause to
  restore on cancel. An ended session can be resumed for 60 s. Every
  command the session logic sends is appended to a trace. mpv's answer
  to it is a parameter, so each player call can be refused just as it can
  fail over the socket. So is the position a relative seek lands on. The reads `seek_state` makes through
  `get_property` are not in that trace (see "Left out").
- **The views and commands** (`Views`, `Commands`, `Buttons`, `App`). This
  is the state machine of the newer, split revision:
  - a closed set of views, each with a button-to-command table;
  - which prompts are shown, and on which side of the prompt bar;
  - command and event execution;
  - the DLNA volume buttons.
- **The older revision's state machine** (`Legacy`). The older
  single-file revision has its own views, commands and menu. This module
  also models the order of work in one frame: the gamepad and its event,
  then the player connection's `update`, which panics when the connection
  is broken, then every pressed button looked up in the one table of the
  view after the gamepad event, and last the inactivity hide.
- **The two revisions side by side** (`Revisions`). The older view of each
  newer view, and the timeouts, prompts, menu entries, widths and labels
  the newer revision keeps or changes.
- **Gamepad bookkeeping** (`Gamepad`, `Clock`): registered pads,
  just-pressed buttons, connect and disconnect notifications, and the
  quantisation of the left stick to a d-pad.
- **DLNA renderers** (`Ssdp`, `Dlna`, `Utf8`, `Strings`):
  - the M-SEARCH request and the parser for its responses (UPnP Device
    Architecture 1.1, section 1.3.3);
  - the device list;
  - the SetVolume body splice and the `<CurrentVolume>` extraction
    (UPnP RenderingControl:1, section 2.4).
- **The media library** (`Library`):
  - the extended-M3U line scanner (`#EXTM3U`, `#PLAYLIST:`; RFC 8216,
    section 4.3.1.1);
  - the classification of folders and files;
  - entry labels;
  - sorting the listing by path;
  - the enable and "go up" rules.
- **Track submenus** (`Tracks`) and **SponsorBlock segments**
  (`SponsorBlock`).

The outside world becomes function parameters: the socket's lines, the
clock, the file system, the description fetch and the HTTP replies. mpv's
answers are `Answers`, made of two functions of the trace sent so far. One
(`Verdict`) is true when mpv accepts the last command of the trace. The other
gives the position that an accepted seek ending the trace lands on. A player call returns an `Outcome` whose
`ok` flag is false when a command was refused. A Rust panic (`unwrap`,
`expect`, `assert_eq!`) becomes `None` or an explicit `Panicked` outcome,
so an unwrapped refused player call makes the command `None`, while
`.ok()` keeps the player state and carries on. The one exception is the
session's snapshot reads through `get_property`: their panics and their
endless wait are not modelled (see `SeekSession.Acquire` under "## Left
out"). `f32` becomes `real`.
Durations and instants are integer nanoseconds.

In these places the code is incomplete or does less than its names
suggest, and the model follows the code as written:

- A session seek has no clamp at the end of the media. `seek_inner` sends
  a relative seek of ± the step and nothing else.
- The split revision's views bind `Command::ShowMenu`, but
  `src/command.rs` does not define it. The model maps it to
  `ShowMediaMenu`.
- The split revision calls `start_seek` and `seek_stateless`, and
  `src/mpv/mod.rs` defines neither. `start_seek` is modelled as the session
  acquisition `seek_state` (`SeekSession.Acquire`). A stateless seek is one
  relative `seek` command in keyframe mode: ±5 s in the split revision and
  ±10 s in the older one.
- `Dlna::update` returns `Event::None`, which `src/command.rs` does not
  define. The model returns an `Idle` outcome instead of an event.

## Model

| member | source | states |
|---|---|---|
| SeekSpeeds.Default | src/mpv/seek_speed.rs:3-11 | The default step is five seconds, and it can be both lengthened and shortened. |
| SeekSpeeds.Longer | src/mpv/seek_speed.rs:34-42 | `longer` fails exactly at ten minutes; otherwise it moves one rung up to a strictly longer duration. |
| SeekSpeeds.Shorter | src/mpv/seek_speed.rs:44-52 | `shorter` fails exactly at one second; otherwise it moves one rung down to a strictly shorter duration. |
| SeekSpeeds.LongerShorterInverse | src/mpv/seek_speed.rs:34-52 | `shorter(longer(s)) == s` whenever `longer(s)` exists, and symmetrically. |
| SeekSpeeds.SecondsMonotone | src/mpv/seek_speed.rs:14-22 | The durations 1, 5, 30, 60 and 600 s increase strictly along the ladder, in both directions of the iff. |
| SeekSpeeds.RankInjective | src/mpv/seek_speed.rs:3-11 | Distinct rungs have distinct positions on the ladder. |
| SeekSpeeds.LabelsDistinct | src/mpv/seek_speed.rs:24-32 | No two steps share a label. |
| SeekSpeeds.LongerReachesNone | src/mpv/seek_speed.rs:34-42 | n repeated `longer` steps fail exactly when n exceeds the rungs left above s, so at most five steps reach None. |
| SeekSpeeds.ShorterReachesNone | src/mpv/seek_speed.rs:44-52 | n repeated `shorter` steps fail exactly when n exceeds the rungs below s. |
| Time.MinutesAreSixtySeconds | src/mpv/time.rs:12-18 | `Time::minutes(n)` is the same time as `Time::seconds(60 n)`, and for any non-zero n the ratio of n minutes to n seconds is 60. |
| Time.ZeroIdentity | src/mpv/time.rs:27-49 | `ZERO` is the identity of `+` and `-`; t - t and t + (-t) are `ZERO`. |
| Time.Ratio | src/mpv/time.rs:51-57 | Dividing two times is defined exactly for a non-zero divisor, and the quotient times the divisor gives back the dividend. |
| Time.Scale | src/mpv/time.rs:59-65 | Dividing a time by a non-zero factor is undone by multiplying by that factor. |
| Time.SaturateU32 | src/mpv/time.rs:21-22 | The `as u32` cast lands in [0, u32::MAX] and keeps every value already in range. |
| Time.FModRange | src/mpv/time.rs:22 | The `%` remainder of a non-negative time by 60 lies in [0, 60). |
| Time.SecondsFieldRange | src/mpv/time.rs:22 | The seconds field of `mmss` is below 60, including for negative times. |
| Time.MmssWhole | src/mpv/time.rs:20-24 | For whole seconds s >= 0, `mmss` is the decimal of s div 60, a colon, and s mod 60 padded to two digits. |
| Time.MmssSecondsField | src/mpv/time.rs:22-23 | The text after the colon is exactly two digits, and their value is below 60. |
| Time.MmssRoundTrip | src/mpv/time.rs:20-24 | Reading `mmss(s)` back as 60·M + SS gives s for every whole s >= 0. |
| Time.MmssNegative | src/mpv/time.rs:20-24 | A negative time formats as `0:00`, because the saturating cast sends both fields to zero. |
| MpvCommand.ObserveProperty | src/mpv/command.rs:12-16 | `observe_property(id, p)` encodes as `["observe_property", id, p]`, and the encoding decodes back to that request. |
| MpvCommand.SetProperty | src/mpv/command.rs:18-24 | `set_property(n, v)` encodes as `["set_property", n, v]`, and it decodes back to that request. |
| MpvCommand.CycleProperty | src/mpv/command.rs:26-30 | `cycle(n)` encodes as `["cycle", n]`, and it decodes back. |
| MpvCommand.AddProperty | src/mpv/command.rs:32-36 | `add(n, x)` encodes as `["add", n, x]`, and it decodes back. |
| MpvCommand.Seek | src/mpv/command.rs:38-42 | `seek(s, exact)` is a three-element command whose flag is `"exact"` iff exact and `"keyframes"` iff not, and it decodes back. |
| MpvCommand.DecodeEncode | src/mpv/command.rs:12-42 | Every outbound request decodes back from its JSON encoding. |
| MpvCommand.EncodeInjective | src/mpv/command.rs:12-42 | Two requests with the same encoding are the same request. |
| MpvCommand.DecodeEvent | src/mpv/command.rs:51-63 | An event needs a string `event` tag. `property-change` needs `name`, and its `data` defaults to null. `seek` is a seek event. Any other tag is Unknown instead of an error. |
| MpvCommand.DecodeResponse | src/mpv/command.rs:45-49 | A response needs a string `error` and may carry `data`; a missing or null `data` gives no data. |
| MpvCommand.DecodeLine | src/mpv/command.rs:65-70 | A line that decodes as an event is an event; otherwise it is read as a response, including a line with an `event` tag that fails as an event. A line tagged with an event other than `property-change` is always an event. |
| MpvClient.FirstGetObserves | src/mpv/mod.rs:145-186 | On a new client, the first `get_property` misses the empty cache, writes `observe_property` with id 0, moves the counter to 1 and leaves the cache empty. |
| MpvClient.ReadResponse | src/mpv/mod.rs:81-96 | Waiting for a response changes only the buffer, and only by appending one entry per line consumed. Running out of lines is the EOF error. The only errors are EOF and a malformed line. |
| MpvClient.ReadResponseEvents | src/mpv/mod.rs:85-90 | Each event read while waiting is appended to the buffer in arrival order; none is dropped. |
| MpvClient.ReadResponseStops | src/mpv/mod.rs:91-95 | A successful wait stops at the first response line and leaves the lines after it unread. A malformed result stops at a line that does not decode. |
| MpvClient.ReadEvents | src/mpv/mod.rs:98-103 | Draining reads every given line as an event and appends it in order. It fails exactly at the first line that is not an event. |
| MpvClient.HandleEvent | src/mpv/mod.rs:131-143 | A property change writes its data under its name; every other event leaves the cache alone. |
| MpvClient.ApplyLastWriteWins | src/mpv/mod.rs:123-143 | After the events are applied, each property holds its last change in the sequence. A property with no change keeps its old entry or stays absent. |
| MpvClient.Update | src/mpv/mod.rs:123-129 | A successful `update` applies the old buffer plus the drained events in FIFO order and leaves the buffer empty. It does not touch the observe id or the written commands. |
| MpvClient.UpdateLastWriteWins | src/mpv/mod.rs:123-129 | After `update`, each property holds the last change among the previously buffered and newly drained events. |
| MpvClient.SendCommand | src/mpv/mod.rs:105-121 | `command` writes the request, and it succeeds with the response's data exactly when `error == "success"`. Any other error string fails the command. |
| MpvClient.Observe | src/mpv/mod.rs:145-151 | `observe_property` uses the current id and increments the counter even when the command fails. The cache is untouched. |
| MpvClient.GetPropertyCached | src/mpv/mod.rs:153-159 | A cached property decodes from the cache; an absent one gives None. |
| MpvClient.FirstChange | src/mpv/mod.rs:168-184 | The earliest buffered change of a property, and None exactly when the buffer holds no change of it. |
| MpvClient.GetProperty | src/mpv/mod.rs:161-186 | A cache hit returns without I/O. A miss observes with a fresh id and returns the first buffered change of the property. It never drains the buffer or writes the cache. It waits forever (Hang) only when no change arrives. |
| MpvClient.GetPropertyPrefersBuffered | src/mpv/mod.rs:168-184 | On a miss, a change already in the buffer wins over any change that arrives later. |
| SeekSession.Send | src/mpv/mod.rs:188-204 | A command is appended to the trace, and the call succeeds exactly when mpv accepts it. A refused command changes nothing but the trace. An accepted `pause` or `percent-pos` setting takes its value. An accepted `cycle pause` flips the pause flag. An accepted seek moves the position to where mpv lands it. The session is untouched. |
| SeekSession.Acquire | src/mpv/mod.rs:206-241 | A live session is returned unchanged. One that ended under 60 s ago keeps its step and flag with a fresh snapshot. Otherwise a default session is made. A new or resumed session sends one `pause`, whose refusal is ignored: the player is then paused only if mpv accepted or it already was. |
| SeekSession.SeekInner | src/mpv/mod.rs:243-255 | A session seek acquires a session, then sends one relative seek of ± the step's seconds with the session's exact flag, with no clamp. It fails exactly when mpv refuses that seek, and the acquired session survives the failure. An accepted seek moves the position to where mpv lands it. |
| SeekSession.SeekFaster | src/mpv/mod.rs:265-274 | `seek_faster` lengthens the step of an existing session and saturates at ten minutes. It sends nothing. |
| SeekSession.SeekSlower | src/mpv/mod.rs:276-285 | `seek_slower` shortens the step of an existing session and saturates at one second. It sends nothing. |
| SeekSession.ToggleSeekExact | src/mpv/mod.rs:291-295 | `toggle_seek_exact` flips the flag of an existing session and sends nothing. |
| SeekSession.SeekSpeedOf | src/mpv/mod.rs:297-299 | `seek_speed` is None exactly when there is no session. |
| SeekSession.SeekExact | src/mpv/mod.rs:287-289 | `seek_exact` is true exactly when a session exists with its flag set. |
| SeekSession.FinishSeek | src/mpv/mod.rs:301-312 | `finish_seek` acts only when the snapshot was unpaused. It marks the session ended at `now` before it unpauses, so the session stays ended even when mpv refuses. The call fails exactly on that refusal. Otherwise nothing changes and it succeeds. |
| SeekSession.CancelSeek | src/mpv/mod.rs:314-322 | `cancel_seek` always leaves no session. With one, it restores the snapshot position; a refused restore fails the call before any unpause. After an accepted restore it unpauses iff the snapshot was unpaused, and fails iff that unpause is refused. With no session it sends nothing and succeeds. |
| SeekSession.SeekStateless | src/command.rs:164-169 | A stateless seek sends one relative seek and leaves the session and the pause flag alone. It fails exactly when mpv refuses the seek, and otherwise moves the position to where mpv lands it. |
| SeekSession.RunKeepsSnapshot | src/mpv/mod.rs:243-299 | Any run of seeks and step or flag changes keeps a live session live, keeps its snapshot and keeps the pause flag, whatever mpv answers. |
| SeekSession.CancelRestores | src/mpv/mod.rs:206-322 | When mpv accepts every command, starting a session, doing any seeks and then cancelling succeeds. The seeks may have moved the position, but cancelling puts the position and the pause state back to what they were before the session. |
| SeekSession.SeekThenCancel | src/mpv/mod.rs:243-322 | When mpv accepts every command, a session seek leaves the position where mpv lands it, and cancelling then returns the position to where it was before the session. |
| SeekSession.CancelRefused | src/mpv/mod.rs:314-322 | When mpv refuses the restore, cancelling still drops the session but fails, and a session started from playback leaves the player paused. |
| SeekSession.CycleThenSession | src/mpv/mod.rs:206-312 | After an accepted `cycle pause` from playback, a new session snapshots the player as paused, so finishing it sends nothing and does not resume playback. |
| SeekSession.FinishThenResume | src/mpv/mod.rs:208-224 | Reacquiring a session less than 60 s after it finished keeps its step and flag. |
| SeekSession.FinishThenExpire | src/mpv/mod.rs:226-238 | Reacquiring 60 s or more after it finished starts over with the default step and keyframes. |
| SeekSession.PausedSessionStaysLive | src/mpv/mod.rs:301-312 | A session started while paused is not ended by `finish_seek`, so the next acquisition returns it unchanged. |
| Commands.LookupIsGet | src/command.rs:246-251 | `Actions::get` is the command of the button's field, and None for buttons outside the fifteen fields. |
| Commands.Unbound | src/command.rs:58-75 | The default table binds every button to None. |
| Commands.ShowPromptCases | src/command.rs:113-125 | `show_prompt` is false exactly for None, ShowUi, the four seek-direction commands, MoveFocus and Activate. |
| Commands.PromptBar | src/ui/mod.rs:59-64 | The prompt bar shows exactly the table's pairs whose command shows a prompt, split into left and right, each in iteration order. |
| Buttons.PositionsInOrder | src/ui/mod.rs:95-120 | In `iter` order, the four face buttons and the d-pad (indices 0-3 and 8-11) prompt on the right. The triggers, select, start and home (indices 4-7 and 12-14) prompt on the left. |
| Buttons.Iter | src/command.rs:224-244 | `iter` yields fifteen pairs, with the buttons in one fixed order: the a, b, x and y face buttons, the four triggers, the d-pad, select, start and home. Which command goes with which button is stated by Buttons.IterSlot. |
| Buttons.BoundDistinct | src/command.rs:224-244 | The fifteen buttons are pairwise distinct. Unknown, C, Z and the thumbs are not among them. |
| Buttons.Empty | src/command.rs:58-75 | A table filled with one command yields that command for every pair. |
| Buttons.Find | src/command.rs:246-251 | The search finds nothing exactly when no pair has the button. Otherwise it returns the command of the first pair with that button. |
| Buttons.GetIter | src/command.rs:246-251 | Looking up the button of any pair from `iter` gives that pair's command. |
| Buttons.GetUnbound | src/command.rs:246-251 | A button outside the fifteen gives the default. |
| Buttons.GetSlot | src/command.rs:246-251 | Looking up a bound button returns its field. |
| Buttons.IterSlot | src/command.rs:224-244 | Each bound button appears in `iter` at its own index, paired with the command in its own field. |
| Buttons.Filter | src/ui/mod.rs:59-62 | `filter` keeps only elements of the input that satisfy the predicate. |
| Buttons.FilterCons | src/ui/mod.rs:59-62 | Filtering `x` followed by s gives x, when it satisfies the predicate, followed by the filtered s. So `filter` keeps input order. |
| Buttons.Partition | src/ui/mod.rs:59-64 | `partition` gives, on the left, exactly the matching elements in input order and, on the right, exactly the others in input order. Together they are a permutation of the input. |
| Buttons.ShownAt | src/ui/mod.rs:59-64 | Every prompt on one side is from the table, shows a prompt and sits on that side. |
| Buttons.PartitionShown | src/ui/mod.rs:59-64 | Filtering then partitioning gives the shown pairs of each side, in order. |
| Buttons.PromptsSplit | src/ui/mod.rs:52-93 | `button_prompts` draws the shown left pairs and the shown right pairs of the view's table. |
| Views.DefaultView | src/ui/mod.rs:37-41 | The initial view, Hidden, hides prompts and has no inactivity timeout. |
| Views.PromptsFollowBack | src/ui/mod.rs:22-24 | A view shows prompts exactly when its b binding is a command that shows a prompt: the views that draw a prompt bar are those whose back button is worth prompting. |
| Views.TimeoutHasButton | src/ui/mod.rs:26-28 | Every view with an inactivity timeout also has a button bound to HideUi. |
| Views.HiddenBindings | src/ui/views/hidden.rs:12-26 | Hidden binds a, b/y, x, left/right, up/down, select and start to their commands. l1, l2, r1, r2 and home stay None. |
| Views.MiniSeekDiffersOnlyInSelect | src/ui/views/miniseek.rs:45-50 | MiniSeek's table equals Hidden's except that select hides the UI. |
| Views.SeekBarBindings | src/ui/views/seekbar.rs:44-54 | SeekBar binds a, b, x, left/right and start, and leaves y, up, down and select unbound. |
| Views.SeekingBindings | src/ui/views/seeking.rs:55-66 | Seeking binds only session commands. a alone finishes, b alone cancels, and x, select and start are unbound. |
| Views.MediaMenuBack | src/ui/views/media_menu/mod.rs:109-127 | In the media menu, b goes back to the main menu from a submenu, or hides the UI from the main menu. a activates and start hides. |
| Views.HomeMenuBindings | src/ui/views/home_menu/mod.rs:96-122 | In the home menu, b goes back or hides, left/right seek statelessly (`catch_left_right` is false for every home submenu), start is unbound and home hides. |
| Views.MediaLabelsDistinct | src/ui/views/media_menu/mod.rs:16-24 | The five media entries have pairwise distinct labels. |
| Views.MediaEnabledMonotone | src/ui/views/media_menu/mod.rs:16-24 | Enablement only grows with the media: an entry enabled for some counts stays enabled when the playlist, chapters or tracks grow. |
| Views.PlaylistWidest | src/ui/views/media_menu/mod.rs:133-135 | The playlist submenu is the widest, and it is the only one that wide. Every home submenu is as wide as the chapter list and narrower than the playlist. |
| Views.ActivateHomeEntry | src/ui/views/home_menu/mod.rs:14-16 | The only home entry opens the library. |
| Views.VideoTracksUnreachable | src/ui/views/media_menu/tracks.rs:17-24 | The video-tracks submenu can never be opened. |
| App.Execute | src/command.rs:127-203 | Executing a command never touches the notifications. |
| App.ExecuteFails | src/command.rs:154-197 | With the session's snapshot reads taken to succeed, execution panics exactly in two cases. One is an unwrapped player call (pause toggle, session or stateless seek, DoneSeeking) whose command mpv refuses. The other is a volume step on a first device whose location has no scheme or authority, which panics in `set_volume`. |
| App.ExecuteScope | src/command.rs:127-203 | Only Quit sets the exit flag. Only view commands change the view. Only player commands change the player. Only the volume commands change the devices or post requests. |
| App.NavigationTargets | src/command.rs:131-145 | ShowMiniSeek, ShowUi, HideUi, ShowMediaMenu and ShowHomeMenu lead to MiniSeek, SeekBar, Hidden, and the media and home menus without a submenu. |
| App.SelectToggles | src/ui/views/hidden.rs:22 | Select toggles Hidden and MiniSeek. |
| App.SeekingExits | src/ui/views/seeking.rs:55-66 | From Seeking only left, right and a can panic, on a refused seek or unpause. Otherwise every button stays in Seeking or goes to SeekBar, and only a and b go to SeekBar. No button toggles pause. |
| App.StartSeekingAcquires | src/command.rs:158-161 | StartSeeking never panics on a refused pause, and its snapshot reads are taken to succeed. It acquires a live session and then shows Seeking. From no session it gets the default step in keyframe mode and sends one `pause`. |
| App.DoneSeekingReturns | src/command.rs:170-173 | DoneSeeking panics exactly when a session started from playback exists and mpv refuses the unpause. Otherwise it shows SeekBar, and such a session is marked ended now. |
| App.CancelSeekingReturns | src/command.rs:174-177 | CancelSeeking never panics, because its result is discarded with `.ok()`. It shows SeekBar and leaves no session. The snapshot position is back exactly when mpv accepted the restore or the position had not moved. |
| App.StatelessSeeks | src/command.rs:164-169 | A stateless seek sends one seek of +5 s or -5 s in keyframe mode. It succeeds exactly when mpv accepts it, and then touches neither the session nor the view. |
| App.VolumeUpStep | src/command.rs:188-192 | VolumeUp sets device 0 to min(v + 5, 100). |
| App.VolumeDownStep | src/command.rs:193-197 | VolumeDown sets device 0 to v - 5 cast to u8 and clamped to 100: 0 below zero, otherwise min(v - 5, 100). |
| App.VolumeWithoutDevices | src/command.rs:188-197 | With no devices, the volume commands change nothing. |
| App.TogglePauseFlips | src/command.rs:154-156 | TogglePause panics exactly when mpv refuses `cycle pause`. Otherwise it flips the pause flag, adds that one command to the trace and changes nothing else of the player or the view. |
| App.InactivityHideSettles | src/command.rs:137-139 | A view with an inactivity timeout has a button bound to HideUi. HideUi never panics and goes to Hidden, which has no timeout and shows no prompts, so the inactivity hide fires once and then stays quiet. |
| App.MediaEntryRoundTrip | src/ui/views/media_menu/mod.rs:91-127 | Opening the i-th media entry and pressing b comes back to the main media menu when the entry is enabled. A disabled entry stays on the main menu, so the b press hides the overlay. |
| App.HomeEntryRoundTrip | src/ui/views/home_menu/mod.rs:57-113 | Opening the home entry and pressing b comes back to the main home menu. |
| App.ChangeVolume | src/command.rs:188-197 | A volume step changes only device 0 and posts one SetVolume request. The new volume is the `as u8` cast of the step, clamped to 100. It panics exactly when device 0's location gives no control URL. |
| App.SaturateU8Nearest | src/command.rs:190-195 | The float-to-`u8` cast `as u8` gives the byte nearest to its input: it lies between the input and any byte, and casting a cast value again changes nothing. |
| App.ExecuteEvent | src/command.rs:206-222 | A toast event appends that toast. LastGamepadDisconnected from a visible view appends a toast and goes to Hidden, and from Hidden it does nothing. |
| App.EventsAddOneToast | src/command.rs:206-222 | An event adds at most one notification and keeps the earlier ones. It never leaves Hidden. |
| Tracks.MenuLabelInjective | src/ui/views/media_menu/tracks.rs:9-15 | Two track menus have the same label exactly when they are the same menu. |
| Tracks.EnabledMonotone | src/ui/views/media_menu/tracks.rs:17-24 | An enabled track menu needs at least one track, and it stays enabled when more tracks arrive. |
| Tracks.IdLabelsDistinct | src/ui/views/media_menu/tracks.rs:47-53 | Two tracks with no title, language or codec get the same `#id` label exactly when their ids are equal. |
| Tracks.IdLabelReadsBack | src/ui/views/media_menu/tracks.rs:52 | A track with no title, language or codec has a label that reads back as its id. |
| Tracks.NoneHighlightedIffNoTrack | src/ui/views/media_menu/tracks.rs:29-37 | "None" is highlighted exactly when no track is highlighted. |
| Tracks.Property | src/ui/views/media_menu/tracks.rs:75-79 | Video tracks are selected through `vid`, audio through `aid` and subtitles through `sid`, each in both directions. |
| Tracks.PropertyInjective | src/ui/views/media_menu/tracks.rs:75-79 | The three track types set distinct properties. |
| Tracks.SetTrack | src/ui/views/media_menu/tracks.rs:42-67 | Nothing is chosen exactly when nothing was activated. The last activated button decides, and "None" means id 0. |
| Tracks.Select | src/ui/views/media_menu/tracks.rs:70-81 | A choice sets the track property, preceded by `sub-visibility = true` when the subtitles were hidden. |
| Tracks.Draw | src/ui/views/media_menu/tracks.rs:26-82 | A frame sends commands only when some button was activated, and then sends the selection for the chosen id. |
| Tracks.ChoosingNone | src/ui/views/media_menu/tracks.rs:42-44 | Activating only "None" sets the property to 0. |
| Gamepad.QuantiseMonotone | src/gamepad.rs:163-169 | Snapping the stick never reverses order: a larger value never snaps lower. |
| Gamepad.QuantiseOdd | src/gamepad.rs:163-169 | For a non-negative threshold the snap is symmetric about zero. Below a threshold of 1, snapping a snapped value changes nothing. |
| Gamepad.LeftStickToDPad | src/gamepad.rs:151-187 | The left stick axes become the d-pad axes with quantised values. Every other event passes unchanged. |
| Gamepad.LeftStickToDPadIdempotent | src/gamepad.rs:151-187 | Filtering twice is filtering once. |
| Gamepad.Register | src/gamepad.rs:49-51 | A pad id is registered once and kept; registering it again changes nothing. |
| Gamepad.Remove | src/gamepad.rs:69 | `retain` removes exactly that id and keeps the list free of duplicates. |
| Gamepad.RemoveOnly | src/gamepad.rs:69-71 | Removing the only registered id empties the list. |
| Gamepad.Notify | src/gamepad.rs:59-78 | Connect ends the loop with a Connected toast. Disconnect removes the id and ends with LastGamepadDisconnected if none remain, else with a Disconnected toast. |
| Gamepad.Process | src/gamepad.rs:31-84 | The loop consumes events up to the first connect or disconnect. It collects presses and repeats in order, refreshes the input time when it took any event, and keeps the ids free of duplicates. |
| Gamepad.ProcessRest | src/gamepad.rs:46-81 | A first event that is not a connect or disconnect is always taken. The loop then collects its press, refreshes the input time and goes on with the rest, with no event ending it early. |
| Gamepad.DisconnectOutcome | src/gamepad.rs:64-78 | A disconnect is registered first, so the empty check never fires. The result is LastGamepadDisconnected exactly when the pad was the only one. |
| Gamepad.ProcessDrains | src/gamepad.rs:46-83 | Without connect or disconnect events, the loop drains them all and returns no event. |
| Gamepad.InactiveForStrict | src/gamepad.rs:90-92 | `inactive_for(d)` holds exactly when the clock is strictly past the last input plus d, so it is false at exactly d. |
| Clock.ElapsedAdds | src/gamepad.rs:90-92 | Elapsed time adds up over consecutive instants, and d nanoseconds after an instant exactly d have elapsed. |
| Clock.ElapsedMonotone | src/gamepad.rs:90-92 | A later clock reading never shows less elapsed time. |
| Legacy.LookupIsGet | src/main.rs:645-650 | The older `get` is the field's command, or None for buttons outside the table. |
| Legacy.TableFacts | src/main.rs:497-549 | Hidden and MiniSeek share one table. In the menu, b goes back or hides. l2 opens the character view. Seeking has no pause toggle. |
| Revisions.MenusGainedPrompts | src/main.rs:304-306 | The older revision shows prompts in the same views as the newer one, except in the menus, where only the newer one shows them. |
| Revisions.TimeoutsCarriedOver | src/main.rs:308-314 | Every view hides after the same inactivity timeout in both revisions. |
| Legacy.ChangeView | src/main.rs:280-287 | Changing to the current view is a no-op; otherwise only the view is replaced. |
| Legacy.HandleCommand | src/main.rs:197-266 | With the session's snapshot reads taken to succeed, a command panics exactly when it unwraps a player call that mpv refuses. Otherwise it never touches the toasts or the gamepad, only Quit exits, only view commands change the view and only player commands touch the player. |
| Legacy.ShowCommands | src/main.rs:201-215 | ShowMiniSeek goes from MiniSeek to Hidden and from anywhere else to MiniSeek. ShowMenu always opens the top menu. |
| Legacy.StatelessSeeks | src/main.rs:234-239 | An older stateless seek sends one seek of +10 s or -10 s in keyframe mode, and succeeds exactly when mpv accepts it. |
| Legacy.HandleEvent | src/main.rs:268-278 | None changes nothing. A toast is appended. LastGamepadDisconnected forces Hidden without a toast. |
| Legacy.LookupAll | src/main.rs:114-118 | Every pressed button is looked up in one table, in order. |
| Legacy.RunCommands | src/main.rs:115-118 | The first panicking command ends the run. A run that does not panic never touches the toasts or the gamepad, and a run with no unwrapping command never panics, given that the session's snapshot reads succeed. |
| Legacy.Dispatch | src/main.rs:110-118 | The dispatch loop runs the commands of the pressed buttons from the frame's table, in order, and stops at the first panic. |
| Legacy.Tick | src/main.rs:105-124 | A frame panics when the player connection is broken. Otherwise its toasts are those of the gamepad event, and it keeps the gamepad state and unread events of the gamepad update. |
| Legacy.TwoPresses | src/gamepad.rs:31-84 | Two presses in one frame are both collected, and the loop ends with no event. |
| Legacy.TwiceShowUi | src/main.rs:110-118 | Two b presses on Hidden both run ShowUi from the Hidden table, so the frame ends in SeekBar. |
| Legacy.TickUsesFrameTable | src/main.rs:110-118 | In a whole frame with a working connection, two b presses on Hidden leave SeekBar showing: the second press does not use SeekBar's table. |
| Legacy.TickHidesWhenIdle | src/main.rs:120-124 | A frame without input and with a working connection hides a view whose timeout has passed. |
| Legacy.InputPreventsHide | src/main.rs:120-124 | A frame with any gamepad event that does not panic does not hide for inactivity. |
| Legacy.EntriesDistinct | src/main.rs:829-849 | The five menu entries and their labels are pairwise distinct. |
| Revisions.EnabledCarriedOver | src/main.rs:851-857 | The subtitle and audio entries are enabled in the older menu exactly when the newer track menus are. The older playlist entry is always enabled, the newer one only with more than one item. |
| Revisions.WidthsWidened | src/main.rs:859-864 | The playlist submenu is equally wide in both revisions; every other submenu is 100 wider in the newer one. |
| Revisions.LabelsCarriedOver | src/main.rs:829-849 | The newer menus keep the older labels "Subtitles" and "Playlist", and pluralise "Audio Track". |
| Legacy.SecondsToMmssRoundTrip | src/main.rs:763-767 | The older `seconds_to_mmss` reads back as its whole input. |
| Ssdp.MSearchShape | src/dlna/search.rs:3-9 | The M-SEARCH request ends with a blank CRLF line and targets MediaRenderer:1. |
| Ssdp.CrLfLinesNoBareLf | src/dlna/search.rs:3-9 | Joining lines with CRLF leaves no line feed without a carriage return before it. |
| Ssdp.CrLfLinesEndsBlank | src/dlna/search.rs:8-9 | A CRLF text whose last line is empty ends in an empty line. |
| Ssdp.TrimAsciiCr | src/dlna/search.rs:18-20 | A trailing carriage return is trimmed, so CRLF responses are read like LF ones. |
| Ssdp.TrimLines | src/dlna/search.rs:18-20 | Each line is ASCII-trimmed. |
| Ssdp.FromResponse | src/dlna/search.rs:17-36 | A first line without a space gives None. Any result comes from the header that decides the scan. |
| Ssdp.FromResponseDecides | src/dlna/search.rs:26-33 | The first Location header, matched case-insensitively before the first line without a colon, decides the result. |
| Ssdp.ScanHeadersFinds | src/dlna/search.rs:26-33 | Scanning returns the value of the first Location header before any line without a colon. An invalid value gives None, with no fallback. |
| Ssdp.ScanHeadersOnlyAt | src/dlna/search.rs:26-35 | A found location always comes from such a header; with none the result is None. |
| Dlna.ControlUrl | src/dlna/mod.rs:144-149 | The control URL keeps the location's scheme and authority with path `/upnp/control/RenderingControl1`, and fails exactly when either is missing. |
| Dlna.Splice | src/dlna/mod.rs:141-142 | The body is the template with its first `%%VOL%%` replaced by the value. Without one it fails. |
| Dlna.SpliceFirst | src/dlna/mod.rs:141-142 | Splicing into `before + %%VOL%% + after` gives `before + value + after`. |
| Dlna.TemplateHasPlaceholder | src/dlna/mod.rs:130-141 | The SetVolume template holds the placeholder, so the `unwrap` never panics. |
| Dlna.ClampVolumeNearest | src/dlna/mod.rs:128 | The clamped volume is the value nearest to the input that is at most 100, and clamping twice is clamping once. |
| Dlna.SetVolume | src/dlna/mod.rs:127-160 | The device stores the clamped volume, regardless of the HTTP outcome. The posted body is the template with that decimal spliced in. |
| Dlna.Tagged | src/dlna/mod.rs:190-197 | The text between the first `<CurrentVolume>` and the next `</CurrentVolume>`. |
| Dlna.TaggedText | src/dlna/mod.rs:190-197 | A reply with one tagged number yields exactly that text. |
| Dlna.ReadVolume | src/dlna/mod.rs:190-199 | A volume is read only from valid UTF-8, between both tags, as a u8. |
| Dlna.ReadVolumeOfReply | src/dlna/mod.rs:190-199 | Reading a reply that carries the decimal of v gives v. |
| Dlna.ReadVolumeNeedsTag | src/dlna/mod.rs:192-193 | A reply without the opening tag gives no volume. |
| Dlna.GetVolume | src/dlna/mod.rs:162-200 | `get_volume` changes only the volume, and succeeds exactly when the URL, the reply and the parse all succeed. |
| Dlna.Received | src/dlna/mod.rs:45-51 | A datagram is read into a 2048-byte buffer, so longer ones are truncated to their prefix. |
| Dlna.Discover | src/dlna/mod.rs:57-76 | A discovered device keeps the announced location and takes the description's friendly name. |
| Dlna.Update | src/dlna/mod.rs:44-89 | A discovery appends exactly one device and returns its name. Every outcome consumes at least one datagram. |
| Dlna.Skipped | src/dlna/mod.rs:52-55 | The count of leading datagrams that fail to parse. |
| Dlna.UpdateSkipsLeading | src/dlna/mod.rs:52-55 | `update` behaves as if the unparseable datagrams in front were absent. |
| Dlna.UpdateDiscovers | src/dlna/mod.rs:52-78 | A discovery comes from the first parseable datagram, at its location, and leaves the datagrams after it unread. |
| Dlna.UpdateSkips | src/dlna/mod.rs:52-55 | An unparseable datagram is skipped. |
| Dlna.UpdateIdle | src/dlna/mod.rs:80-86 | Would-block and socket errors end `update` with no event. |
| Library.Parent | src/ui/views/home_menu/library.rs:54-67 | A path has a parent exactly when it is not the root, and the parent plus the last component is the path. |
| Library.DecodeLines | src/ui/views/home_menu/library.rs:258 | `lines().map_while(Result::ok)` reads at most one line per piece. |
| Library.DecodeLinesRead | src/ui/views/home_menu/library.rs:258 | Each line read is the decoding of its own piece, in order. |
| Library.DecodeLinesStop | src/ui/views/home_menu/library.rs:258 | Reading stops at the first piece that is not UTF-8, or at the empty piece after a final newline. |
| Library.DecodeLinesComplete | src/ui/views/home_menu/library.rs:258 | A fully valid file gives one line per newline-separated piece, without a trailing empty one. |
| Library.ScanLineCases | src/ui/views/home_menu/library.rs:259-273 | A non-empty line without `#` counts an entry. A `#PLAYLIST:` line sets the trimmed title. `#EXTM3U`, other `#` lines and empty lines change nothing. |
| Library.ScanCounts | src/ui/views/home_menu/library.rs:269-271 | The entry count is the number of entry lines. |
| Library.ScanNoTitle | src/ui/views/home_menu/library.rs:264-268 | Without a `#PLAYLIST:` line the title is unchanged. |
| Library.ScanLastTitle | src/ui/views/home_menu/library.rs:264-268 | The last `#PLAYLIST:` line wins. |
| Library.ScanFile | src/ui/views/home_menu/library.rs:256-276 | The scan loop keeps the index path and counts exactly the entry lines. |
| Library.IndexFile | src/ui/views/home_menu/library.rs:245-248 | `index.m3u8` is preferred over `index.m3u`. With neither there is no index. |
| Library.PlaylistFromPath | src/ui/views/home_menu/library.rs:244-277 | A folder without an index is no playlist. A playlist keeps its index path and the scan of its readable lines. |
| Library.InfoFromPath | src/ui/views/home_menu/library.rs:168-180 | Folders are MediaFolder or RawFolder, and files are MediaFile or OtherFile, decided by the playlist and the probe. |
| Library.FolderIndex | src/ui/views/home_menu/library.rs:168-174 | A folder with `index.m3u8` uses it, and one with neither index is a RawFolder. |
| Library.Label | src/ui/views/home_menu/library.rs:144-152 | The label is the media or playlist title when present, else the file name. |
| Library.Enabled | src/ui/views/home_menu/library.rs:72 | An entry is enabled unless it is another file, and entry 0 always is. |
| Library.GoUp | src/ui/views/home_menu/library.rs:54-67 | "Go up" is offered exactly away from `/data/index` and the root, and it leads to the parent. |
| Library.Activate | src/ui/views/home_menu/library.rs:83-106 | Media files play themselves, media folders play their index, raw folders are entered, and other files do nothing. |
| Library.EnterThenGoUp | src/ui/views/home_menu/library.rs:54-104 | Entering a folder and going up returns to where one was, unless that folder is `/data/index`. |
| Library.PathLeqTotal | src/ui/views/home_menu/library.rs:125 | The path order compares any two paths. |
| Library.PathLeqTrans | src/ui/views/home_menu/library.rs:125 | The path order is transitive. |
| Library.Insert | src/ui/views/home_menu/library.rs:125 | Insertion keeps a sorted listing sorted and adds exactly the one entry. |
| Library.SortByPath | src/ui/views/home_menu/library.rs:125 | Sorting gives a permutation of the listing, in path order. |
| Library.Fetch | src/ui/views/home_menu/library.rs:116-127 | An unreadable folder lists nothing. Otherwise the listing holds one classified entry per readable path, sorted by path. |
| SponsorBlock.Name | src/mpv/sponsorblock.rs:54-65 | The wire names are non-empty and lower case. |
| SponsorBlock.CategoryRoundTrip | src/mpv/sponsorblock.rs:54-65 | A JSON value decodes to a category exactly when it is that category's encoding. |
| SponsorBlock.NamesDistinct | src/mpv/sponsorblock.rs:54-65 | No two categories share a wire name. |
| SponsorBlock.LabelsDistinct | src/mpv/sponsorblock.rs:67-79 | No two categories share a label. |
| SponsorBlock.CategoriesParam | src/mpv/sponsorblock.rs:13-22 | The request asks for sponsor, selfpromo, intro and outro, in that order. |
| SponsorBlock.RequestedDecode | src/mpv/sponsorblock.rs:15-20 | Each requested name decodes back to its category. The other four categories are not asked for. |
| SponsorBlock.ContainsBounds | src/mpv/sponsorblock.rs:40-51 | A segment holds its start iff it is non-empty and never holds its end. An empty or reversed segment holds nothing. |
| SponsorBlock.AdjacentSegments | src/mpv/sponsorblock.rs:49-51 | Two segments meeting at a point cover the union of their spans without overlap. |
| SponsorBlock.DecodeSegment | src/mpv/sponsorblock.rs:31-38 | A segment decodes from an object with a two-number `segment`, a string `UUID` and a known category. |
| SponsorBlock.SegmentRoundTrip | src/mpv/sponsorblock.rs:31-38 | Decoding a segment's encoding gives it back. |
| SponsorBlock.DecodeSegments | src/mpv/sponsorblock.rs:26-28 | A reply decodes exactly when it is an array of decodable segments, one result per element, in order. |
| Utf8.DecodeFirst | src/dlna/search.rs:29 | One character takes one to four bytes, and an ASCII byte is itself. |
| Utf8.DecodeEncodeChar | src/dlna/search.rs:29 | Each character's encoding decodes back to it, with its length. |
| Utf8.DecodeEncode | src/dlna/mod.rs:190-191 | `str::from_utf8` accepts every encoded string and gives it back. |
| Utf8.DecodeAscii | src/dlna/search.rs:29 | ASCII bytes decode one to one. |
| Utf8.RejectsLeadingContinuation | src/dlna/search.rs:29 | A continuation byte cannot start a character. |
| Utf8.RejectsSurrogate | src/dlna/search.rs:29 | Encoded surrogates are rejected. |
| Strings.NatToString | src/mpv/time.rs:23 | `{}` on a number writes its decimal digits with no leading zero, and they read back as the number. |
| Strings.IntToString | src/mpv/time.rs:23 | Signed numbers get a leading minus exactly when negative. |
| Strings.Pad2 | src/mpv/time.rs:23 | `{:02}` writes at least two digits with the same value, exactly two below 100. |
| Strings.ParseU8 | src/dlna/mod.rs:198 | `parse::<u8>` yields values below 256. |
| Strings.ParseU8OfNatToString | src/dlna/mod.rs:198 | Every value below 256 parses back from its decimal. |
| Strings.ParseU8RejectsNonDigits | src/dlna/mod.rs:198 | `parse::<u8>` rejects the empty text, a lone `+`, and any text with a non-digit other than one leading `+`. |
| Strings.TrimStartBy | src/dlna/search.rs:20 | Trimming the front drops exactly the leading whitespace. |
| Strings.TrimEndBy | src/dlna/search.rs:20 | Trimming the back drops exactly the trailing whitespace. |
| Strings.TrimBySlice | src/dlna/search.rs:20 | A trimmed text is a slice of the original, with no whitespace at either end. |
| Strings.FindFrom | src/dlna/mod.rs:192-195 | The search finds the first occurrence at or after the start, or reports that there is none. |
| Strings.SplitOnce | src/dlna/mod.rs:141 | `split_once` succeeds exactly when the pattern occurs. It splits at the first occurrence, and the pieces with the pattern rebuild the text. |
| Strings.SplitOnceAtFirst | src/dlna/search.rs:26 | Splitting at a separator absent from the front gives the front and the rest. |
| Strings.SplitOnceBefore | src/dlna/mod.rs:141 | Splitting `a + pat + b` at pat gives a and b when pat does not start earlier. |
| Strings.StripPrefix | src/ui/views/home_menu/library.rs:265 | `strip_prefix` succeeds exactly for texts that start with the prefix, and the prefix plus the rest is the text. |
| Strings.IndexOf | src/dlna/search.rs:26 | The first position of a byte, or None when it is absent. |
| Strings.SplitOn | src/dlna/search.rs:19 | `split` yields at least one piece, and no piece holds the separator. |
| Strings.JoinSplitOn | src/dlna/search.rs:19 | Joining the pieces with the separator gives the text back. |
| Strings.StripCr | src/ui/views/home_menu/library.rs:258 | `lines` drops at most one trailing carriage return. |
| Json.MemberOfStored | src/mpv/command.rs:45-63 | Reading back a key just stored in an object gives its value, and other keys read as before. A string member of that key exists exactly when the value is a string, and is that string. |

## Left out

- I/O is not modelled: the Unix socket, blocking and non-blocking modes, UDP multicast, HTTP and the ffprobe subprocess. The model reads inbound lines, datagrams, replies, file-system answers and probe results from parameters.
- The 1 ms polling in `get_property` is not modelled. The loop is one step over the lines given, and `Hang` marks a wait that never ends.
- JSON text is not parsed or printed. JSON values are a datatype, and a protocol line is one value. The serde forms that read a struct or tagged enum from an array are not modelled.
- Floating point is not modelled: `f32` and `f64` are `real`. `Time`'s `%` is the real remainder, so there is no NaN, infinity or rounding.
- The drawing is not modelled: egui, layout, focus, the `Activated` flag, toast animation and expiry, the clock in the prompt bar, the `sub-pos` adjustment and the first-frame style set-up. MoveFocus and Activate leave the model's state unchanged.
- The Characters debug view and font enumeration are not modelled: they only draw. The older `CharactersDebug` command only switches to that view.
- Button glyphs and prompt labels are not modelled, apart from the labels whose distinctness is stated.
- Command labels, including the pause and exact-mode labels read from the player, are not modelled.
- The device description XML is not modelled. The friendly name comes from a `describe` parameter.
- CEC is not modelled: it wraps a foreign library.
- The SponsorBlock HTTP fetch, URL construction and query encoding are not modelled. The category list is a JSON value, and the reply is a JSON value.
- The chapters, playlist, info and volume submenus are not modelled. They draw player accessors that the player client shown does not define. Their entry rules (enablement and width) are modelled.
- `ViewTaken` is not modelled: it has no behaviour.
- `EXIT` and `EXITED` are not modelled. The model keeps an `exit` flag on the application.
- Paths are sequences of components under an implicit root. Path ordering is the lexicographic order on components, which matches `Path::cmp` for the normalised absolute paths the library reads.
- `MediaInfo` reads ffprobe's JSON, and `youtube_id_from_url` is not part of this model. A probe parameter gives the title and id.
- The gilrs filters `axis_dpad_to_button` and `Repeat` are not modelled. Events arrive already filtered, apart from the stick quantisation.
- Dlna.Splice: replaces only the first `%%VOL%%`, as `split_once` does. No template with a second placeholder is considered.
- Dlna.Discover: a missing description or a failed volume read, both of which panic in the source, become `None`, and `Update` turns that into `Panicked`.
- App.Execute: its own contract only keeps the notifications. The per-command effects are stated by the lemmas about it.
- SeekSession.Acquire: the snapshot reads of `percent-pos` and `pause` through `get_property` are not in the trace. On a cache miss each of them sends an `observe_property` command first, and the snapshot takes the player's position and pause flag rather than cached values. `get_property` itself is modelled by MpvClient.GetProperty. Inside a snapshot, the reads never panic and never wait in the model. In the source, a cache miss panics when mpv refuses the `observe_property`, when reading the socket fails, or when the value does not decode. One example is `percent-pos` with no file loaded, whose change carries null data. A miss also waits forever when no change arrives. Threading those outcomes through every session command would multiply the cases of every command-level proof.
- App.ExecuteFails: its two panic cases leave out the snapshot reads' panics and endless wait, for the reason given under SeekSession.Acquire. They are reachable by StartSeeking, and by a session seek, without a live session.
- App.StartSeekingAcquires: "never panics" holds only for the pause it sends; the snapshot reads' panics and endless wait are left out as under SeekSession.Acquire.
- Legacy.HandleCommand: its panic condition leaves out the snapshot reads' panics and endless wait reachable by StartSeeking, SeekForward and SeekBackward, as under SeekSession.Acquire.
- Legacy.RunCommands: a run with no unwrapping command can still panic in a StartSeeking snapshot read in the source; the model leaves that out as under SeekSession.Acquire.
- MpvClient.Observe: the observe id is an unbounded integer. The source's `next_observe_id` is an `i32` incremented by `+= 1` (src/mpv/mod.rs:21, 147), which overflows after 2^31 observes: a panic in debug builds and a wrap in release builds. That many observes cannot happen in one run of the overlay.
- SeekSession.Send: mpv's answer and the position a seek lands on are functions of the trace sent so far, with no constraint on the landing, so no property depends on the media's length or keyframes. A refusal is the `error` field of a response; losing the socket or a malformed line is not told apart from it.
- Legacy.Tick: of the player connection's `update` only whether it succeeds is modelled (the `connected` parameter); a failure is the `expect` panic. The property changes it applies to the cache are modelled by MpvClient.Update, not inside the frame.
- Gamepad.Process: the last-input time is abstract nanoseconds from a caller's clock, not `Instant::now()` per event.
