/**
 * The seek session of the player client (src/mpv/mod.rs:206-322).
 *
 * A session is absent, live (`ended` is None) or ended at some instant. The
 * player is abstract: the values `get_property("percent-pos")` and
 * `get_property("pause")` would return, an output trace of the commands
 * sent, and the session. How mpv answers is supplied by the caller
 * (`Answers`): whether it accepts each command, and where a relative seek
 * lands. An accepted `set_property` of `pause` or `percent-pos`, `cycle
 * pause` and `seek` are applied to the observed values. Clocks are integer
 * nanoseconds passed in by the caller.
 */
module SeekSession {
  import opened Wrappers
  import opened Json
  import opened SeekSpeeds
  import MpvCommand
  import opened Clock

  /** `SeekState`: ladder step, exact flag, end instant, and the snapshot from before the session. */
  datatype Session = Session(speed: SeekSpeed, exact: bool, ended: Option<int>, pos: real, paused: bool)

  datatype Player = Player(percentPos: real, pause: bool, session: Option<Session>, trace: seq<MpvCommand.Command>)

  /**
   * mpv's answer to the last command of a trace, given every command sent
   * before it: true for a response whose `error` is "success", false for
   * any other response or a broken socket (the round trip itself is
   * `MpvClient.SendCommand`).
   */
  type Verdict = seq<MpvCommand.Command> -> bool

  /**
   * How mpv answers: which commands it accepts, and the position an
   * accepted relative seek lands on, given the trace that ends in that
   * seek. The landing is left free, because it depends on the media's
   * length and keyframes, which the model does not hold.
   */
  datatype Answers = Answers(accepts: Verdict, lands: seq<MpvCommand.Command> -> real)

  /** The player after a fallible call, and whether the call returned `Ok`. */
  datatype Outcome = Outcome(player: Player, ok: bool)

  /** A session that ended less than this long ago is resumed. */
  const GraceNs: int := 60 * Clock.Second

  /**
   * `command()` for a request without data: the request is written and
   * enters the trace whatever mpv answers, the call fails exactly when mpv
   * refuses it, and only an accepted command changes what is observed: a
   * set of `pause` or `percent-pos`, a `cycle pause`, or a seek.
   */
  function Send(p: Player, r: MpvCommand.Request, ans: Answers): (o: Outcome)
    ensures o.player.trace == p.trace + [MpvCommand.Encode(r)]
    ensures o.player.session == p.session
    ensures o.ok <==> ans.accepts(o.player.trace)
    ensures !o.ok ==> o.player.pause == p.pause && o.player.percentPos == p.percentPos
    ensures o.ok ==> o.player.pause == (if r == MpvCommand.Set("pause", Bool(true)) then true
                                        else if r == MpvCommand.Set("pause", Bool(false)) then false
                                        else if r == MpvCommand.Cycle("pause") then !p.pause
                                        else p.pause)
    ensures o.ok ==> o.player.percentPos == (if r.Set? && r.name == "percent-pos" && r.value.Num? then r.value.n
                                             else if r.SeekBy? then ans.lands(o.player.trace)
                                             else p.percentPos)
  {
    var p' := p.(trace := p.trace + [MpvCommand.Encode(r)]);
    if !ans.accepts(p'.trace) then Outcome(p', false)
    else match r
      case Set(name, Bool(b)) => Outcome(if name == "pause" then p'.(pause := b) else p', true)
      case Set(name, Num(x)) => Outcome(if name == "percent-pos" then p'.(percentPos := x) else p', true)
      case Cycle(name) => Outcome(if name == "pause" then p'.(pause := !p.pause) else p', true)
      case SeekBy(_, _) => Outcome(p'.(percentPos := ans.lands(p'.trace)), true)
      case _ => Outcome(p', true)
  }

  /** Whether a session ended less than the grace period before `now`. */
  predicate Resumable(p: Player, now: int) {
    p.session.Some? && p.session.value.ended.Some? && Elapsed(now, p.session.value.ended.value) < GraceNs
  }

  /**
   * `seek_state()`: acquires a live session. A recently ended session is
   * resumed with a fresh snapshot; a live one is returned untouched;
   * otherwise a default session is created. Resuming and creating both ask
   * mpv to pause, and a refusal is ignored (`pause().ok()`).
   */
  function Acquire(p: Player, now: int, ans: Answers): (q: Player)
    ensures q.session.Some? && q.session.value.ended.None?
    ensures p.session.Some? && p.session.value.ended.None? ==> q == p
    ensures Resumable(p, now) ==>
              q.session == Some(Session(p.session.value.speed, p.session.value.exact, None, p.percentPos, p.pause))
    ensures (p.session.None? || (p.session.value.ended.Some? && !Resumable(p, now))) ==>
              q.session == Some(Session(Default(), false, None, p.percentPos, p.pause))
    ensures q != p ==>
              q.trace == p.trace + [MpvCommand.SetProperty("pause", Bool(true))] &&
              q.pause == (ans.accepts(q.trace) || p.pause) && q.percentPos == p.percentPos
  {
    match p.session
    case Some(s) =>
      if s.ended.None? then p
      else if Elapsed(now, s.ended.value) < GraceNs then
        var q := Send(p, MpvCommand.Set("pause", Bool(true)), ans).player;
        q.(session := Some(s.(pos := p.percentPos, paused := p.pause, ended := None)))
      else
        var q := Send(p, MpvCommand.Set("pause", Bool(true)), ans).player;
        q.(session := Some(Session(Default(), false, None, p.percentPos, p.pause)))
    case None =>
      var q := Send(p, MpvCommand.Set("pause", Bool(true)), ans).player;
      q.(session := Some(Session(Default(), false, None, p.percentPos, p.pause)))
  }

  /**
   * `seek_inner(forward)`: acquire, then one seek by the current step,
   * signed by direction, with no clamp. It fails exactly when mpv refuses
   * that seek.
   */
  function SeekInner(p: Player, forward: bool, now: int, ans: Answers): (o: Outcome)
    ensures o.player.session == Acquire(p, now, ans).session
    ensures var s := Acquire(p, now, ans).session.value;
            var secs := Seconds(s.speed) as real;
            o.player.trace == Acquire(p, now, ans).trace + [MpvCommand.Seek(if forward then secs else -secs, s.exact)]
    ensures o.ok <==> ans.accepts(o.player.trace)
    ensures o.player.pause == Acquire(p, now, ans).pause
    ensures o.player.percentPos == if o.ok then ans.lands(o.player.trace) else p.percentPos
  {
    var a := Acquire(p, now, ans);
    var s := a.session.value;
    var secs := Seconds(s.speed) as real;
    Send(a, MpvCommand.SeekBy(if forward then secs else -secs, s.exact), ans)
  }

  function SeekForward(p: Player, now: int, ans: Answers): Outcome {
    SeekInner(p, true, now, ans)
  }

  function SeekBackward(p: Player, now: int, ans: Answers): Outcome {
    SeekInner(p, false, now, ans)
  }

  /** `seek_faster()`: one step up the ladder on any session, saturating at the top. */
  function SeekFaster(p: Player): (q: Player)
    ensures q.trace == p.trace && q.pause == p.pause && q.percentPos == p.percentPos
    ensures q.session.None? <==> p.session.None?
    ensures p.session.Some? ==>
              q.session.value == p.session.value.(speed := Longer(p.session.value.speed).GetOr(p.session.value.speed))
  {
    match p.session
    case None => p
    case Some(s) => p.(session := Some(s.(speed := Longer(s.speed).GetOr(s.speed))))
  }

  /** `seek_slower()`: one step down the ladder on any session, saturating at the bottom. */
  function SeekSlower(p: Player): (q: Player)
    ensures q.trace == p.trace && q.pause == p.pause && q.percentPos == p.percentPos
    ensures q.session.None? <==> p.session.None?
    ensures p.session.Some? ==>
              q.session.value == p.session.value.(speed := Shorter(p.session.value.speed).GetOr(p.session.value.speed))
  {
    match p.session
    case None => p
    case Some(s) => p.(session := Some(s.(speed := Shorter(s.speed).GetOr(s.speed))))
  }

  /** `toggle_seek_exact()`: flips the exact flag of any session. */
  function ToggleSeekExact(p: Player): (q: Player)
    ensures q.trace == p.trace && q.pause == p.pause && q.percentPos == p.percentPos
    ensures q.session.None? <==> p.session.None?
    ensures p.session.Some? ==> q.session.value == p.session.value.(exact := !p.session.value.exact)
  {
    match p.session
    case None => p
    case Some(s) => p.(session := Some(s.(exact := !s.exact)))
  }

  /** `seek_speed()`: the step of the session, live or ended. */
  function SeekSpeedOf(p: Player): (r: Option<SeekSpeed>)
    ensures r.None? <==> p.session.None?
    ensures r.Some? ==> r.value == p.session.value.speed
  {
    match p.session
    case None => None
    case Some(s) => Some(s.speed)
  }

  /** `seek_exact()`: the exact flag, false without a session. */
  function SeekExact(p: Player): (r: bool)
    ensures r <==> p.session.Some? && p.session.value.exact
  {
    p.session.Some? && p.session.value.exact
  }

  /**
   * `finish_seek()`: only a session whose snapshot was playing is ended,
   * stamped with `now`, and playback resumes; the session stays ended even
   * when mpv refuses to resume. Otherwise nothing happens.
   */
  function FinishSeek(p: Player, now: int, ans: Answers): (o: Outcome)
    ensures p.session.None? || p.session.value.paused ==> o == Outcome(p, true)
    ensures p.session.Some? && !p.session.value.paused ==>
              o.player.session == Some(p.session.value.(ended := Some(now))) &&
              o.player.trace == p.trace + [MpvCommand.SetProperty("pause", Bool(false))] &&
              (o.ok <==> ans.accepts(o.player.trace)) &&
              o.player.pause == (if o.ok then false else p.pause) && o.player.percentPos == p.percentPos
  {
    match p.session
    case Some(s) =>
      if s.paused then Outcome(p, true)
      else Send(p.(session := Some(s.(ended := Some(now)))), MpvCommand.Set("pause", Bool(false)), ans)
    case None => Outcome(p, true)
  }

  /**
   * `cancel_seek()`: takes the session away; with one, restores the
   * snapshot position and then resumes playback iff the snapshot was
   * playing. A refused restore ends the call before the resume.
   */
  function CancelSeek(p: Player, ans: Answers): (o: Outcome)
    ensures o.player.session.None?
    ensures p.session.None? ==> o == Outcome(p, true)
    ensures p.session.Some? ==>
              var s := p.session.value;
              var t1 := p.trace + [MpvCommand.SetProperty("percent-pos", Num(s.pos))];
              var t2 := t1 + [MpvCommand.SetProperty("pause", Bool(false))];
              (!ans.accepts(t1) ==> o == Outcome(p.(session := None, trace := t1), false)) &&
              (ans.accepts(t1) && s.paused ==> o == Outcome(p.(session := None, trace := t1, percentPos := s.pos), true)) &&
              (ans.accepts(t1) && !s.paused ==>
                 o.player == p.(session := None, trace := t2, percentPos := s.pos,
                                pause := if ans.accepts(t2) then false else p.pause) &&
                 (o.ok <==> ans.accepts(t2)))
  {
    match p.session
    case None => Outcome(p, true)
    case Some(s) =>
      var q := Send(p.(session := None), MpvCommand.Set("percent-pos", Num(s.pos)), ans);
      if !q.ok || s.paused then q else Send(q.player, MpvCommand.Set("pause", Bool(false)), ans)
  }

  /** A seek outside any session: one seek command, the session untouched; it fails exactly when mpv refuses it. */
  function SeekStateless(p: Player, seconds: real, exact: bool, ans: Answers): (o: Outcome)
    ensures o.player.session == p.session && o.player.pause == p.pause
    ensures o.player.percentPos == if o.ok then ans.lands(o.player.trace) else p.percentPos
    ensures o.player.trace == p.trace + [MpvCommand.Seek(seconds, exact)]
    ensures o.ok <==> ans.accepts(o.player.trace)
  {
    Send(p, MpvCommand.SeekBy(seconds, exact), ans)
  }

  // ---------------------------------------------------------------------
  // Properties across several calls
  // ---------------------------------------------------------------------

  /** What may happen while a session is live. */
  datatype SessionOp = Forward | Backward | Faster | Slower | ToggleExact

  /** One operation, keeping the player it leaves whether or not mpv accepted its command. */
  function Step(p: Player, op: SessionOp, now: int, ans: Answers): Player {
    match op
    case Forward => SeekForward(p, now, ans).player
    case Backward => SeekBackward(p, now, ans).player
    case Faster => SeekFaster(p)
    case Slower => SeekSlower(p)
    case ToggleExact => ToggleSeekExact(p)
  }

  function Run(p: Player, ops: seq<SessionOp>, now: int, ans: Answers): Player
    decreases |ops|
  {
    if |ops| == 0 then p else Run(Step(p, ops[0], now, ans), ops[1..], now, ans)
  }

  /**
   * Operations on a live session keep it live, keep its snapshot, and leave
   * the pause flag alone, whatever mpv answers. The seeks move the position.
   */
  lemma {:induction false} RunKeepsSnapshot(p: Player, ops: seq<SessionOp>, now: int, ans: Answers)
    requires p.session.Some? && p.session.value.ended.None?
    ensures var q := Run(p, ops, now, ans);
            q.session.Some? && q.session.value.ended.None? &&
            q.session.value.pos == p.session.value.pos && q.session.value.paused == p.session.value.paused &&
            q.pause == p.pause
    decreases |ops|
  {
    if |ops| > 0 {
      RunKeepsSnapshot(Step(p, ops[0], now, ans), ops[1..], now, ans);
    }
  }

  /**
   * Starting a session, doing anything within it and cancelling it puts the
   * player back where it was, when mpv accepts the commands: same position,
   * same pause state, no session.
   */
  lemma CancelRestores(p: Player, ops: seq<SessionOp>, now: int, ans: Answers)
    requires p.session.None?
    requires forall t :: ans.accepts(t)
    ensures var o := CancelSeek(Run(Acquire(p, now, ans), ops, now, ans), ans);
            o.ok && o.player.session.None? && o.player.percentPos == p.percentPos && o.player.pause == p.pause
  {
    var a := Acquire(p, now, ans);
    RunKeepsSnapshot(a, ops, now, ans);
  }

  /**
   * The restore is what brings the position back: a session seek moves the
   * position to wherever mpv lands it, and cancelling returns it to where
   * it was before the session.
   */
  lemma SeekThenCancel(p: Player, forward: bool, now: int, ans: Answers)
    requires p.session.None?
    requires forall t :: ans.accepts(t)
    ensures var q := SeekInner(Acquire(p, now, ans), forward, now, ans).player;
            q.percentPos == ans.lands(q.trace) &&
            CancelSeek(q, ans).player.percentPos == p.percentPos
  {
  }

  /**
   * A pause toggled before the session is part of its snapshot: a session
   * started after an accepted `cycle pause` from playback remembers the
   * player as paused, so finishing it sends nothing and does not resume.
   */
  lemma CycleThenSession(p: Player, now: int, later: int, ans: Answers)
    requires p.session.None? && !p.pause
    requires ans.accepts(p.trace + [MpvCommand.Encode(MpvCommand.Cycle("pause"))])
    ensures var c := Send(p, MpvCommand.Cycle("pause"), ans).player;
            var a := Acquire(c, now, ans);
            c.pause && a.session.value.paused && FinishSeek(a, later, ans) == Outcome(a, true)
  {
  }

  /**
   * A refused restore still drops the session, and playback is not resumed:
   * a session started from playback leaves the player paused.
   */
  lemma CancelRefused(p: Player, now: int, ans: Answers)
    requires p.session.None? && !p.pause
    requires ans.accepts(p.trace + [MpvCommand.SetProperty("pause", Bool(true))])
    requires !ans.accepts(p.trace + [MpvCommand.SetProperty("pause", Bool(true)),
                                 MpvCommand.SetProperty("percent-pos", Num(p.percentPos))])
    ensures var o := CancelSeek(Acquire(p, now, ans), ans);
            !o.ok && o.player.session.None? && o.player.pause
  {
    var a := Acquire(p, now, ans);
    assert a.trace + [MpvCommand.SetProperty("percent-pos", Num(p.percentPos))] ==
           p.trace + [MpvCommand.SetProperty("pause", Bool(true)), MpvCommand.SetProperty("percent-pos", Num(p.percentPos))];
  }

  /**
   * A session finished and re-acquired within the grace period keeps its
   * step and exact flag, also when mpv refused to resume in between.
   */
  lemma FinishThenResume(p: Player, t1: int, t2: int, ans: Answers)
    requires p.session.Some? && p.session.value.ended.None? && !p.session.value.paused
    requires t1 <= t2 < t1 + GraceNs
    ensures var q := Acquire(FinishSeek(p, t1, ans).player, t2, ans);
            q.session.value.speed == p.session.value.speed && q.session.value.exact == p.session.value.exact
  {
  }

  /** Re-acquired a grace period or more after finishing, the session starts afresh. */
  lemma FinishThenExpire(p: Player, t1: int, t2: int, ans: Answers)
    requires p.session.Some? && p.session.value.ended.None? && !p.session.value.paused
    requires t1 + GraceNs <= t2
    ensures var q := Acquire(FinishSeek(p, t1, ans).player, t2, ans);
            q.session.value.speed == Default() && !q.session.value.exact
  {
  }

  /** A session whose snapshot was paused is never ended: finishing it keeps it live. */
  lemma PausedSessionStaysLive(p: Player, now: int, later: int, ans: Answers)
    requires p.session.Some? && p.session.value.ended.None? && p.session.value.paused
    ensures FinishSeek(p, now, ans) == Outcome(p, true)
    ensures Acquire(FinishSeek(p, now, ans).player, later, ans) == p
  {
  }
}
