/** The seek-speed ladder (src/mpv/seek_speed.rs): five steps, no wrap-around. */
module SeekSpeeds {
  import opened Wrappers

  datatype SeekSpeed = Second | FiveSeconds | ThirtySeconds | Minute | TenMinutes

  /** The `#[default]` speed. */
  function Default(): (s: SeekSpeed)
    ensures Seconds(s) == 5
    ensures Longer(s).Some? && Shorter(s).Some?
  {
    FiveSeconds
  }

  /** `duration()`, in whole seconds. */
  function Seconds(s: SeekSpeed): nat {
    match s
    case Second => 1
    case FiveSeconds => 5
    case ThirtySeconds => 30
    case Minute => 60
    case TenMinutes => 600
  }

  function Label(s: SeekSpeed): string {
    match s
    case Second => "1s"
    case FiveSeconds => "5s"
    case ThirtySeconds => "30s"
    case Minute => "1m"
    case TenMinutes => "10m"
  }

  /** Position on the ladder, counted from the shortest step; the reference order. */
  function Rank(s: SeekSpeed): (k: nat)
    ensures k < 5
  {
    match s
    case Second => 0
    case FiveSeconds => 1
    case ThirtySeconds => 2
    case Minute => 3
    case TenMinutes => 4
  }

  /** The next longer step; None at the top of the ladder. */
  function Longer(s: SeekSpeed): (r: Option<SeekSpeed>)
    ensures r.None? <==> s == TenMinutes
    ensures r.Some? ==> Rank(r.value) == Rank(s) + 1
    ensures r.Some? ==> Seconds(s) < Seconds(r.value)
  {
    match s
    case Second => Some(FiveSeconds)
    case FiveSeconds => Some(ThirtySeconds)
    case ThirtySeconds => Some(Minute)
    case Minute => Some(TenMinutes)
    case TenMinutes => None
  }

  /** The next shorter step; None at the bottom of the ladder. */
  function Shorter(s: SeekSpeed): (r: Option<SeekSpeed>)
    ensures r.None? <==> s == Second
    ensures r.Some? ==> Rank(r.value) + 1 == Rank(s)
    ensures r.Some? ==> Seconds(r.value) < Seconds(s)
  {
    match s
    case Second => None
    case FiveSeconds => Some(Second)
    case ThirtySeconds => Some(FiveSeconds)
    case Minute => Some(ThirtySeconds)
    case TenMinutes => Some(Minute)
  }

  /** Rank determines the step, so the ladder is a chain of five distinct steps. */
  lemma RankInjective(s: SeekSpeed, t: SeekSpeed)
    requires Rank(s) == Rank(t)
    ensures s == t
  {
  }

  /** `longer` and `shorter` undo each other wherever they are defined. */
  lemma LongerShorterInverse(s: SeekSpeed)
    ensures Longer(s).Some? ==> Shorter(Longer(s).value) == Some(s)
    ensures Shorter(s).Some? ==> Longer(Shorter(s).value) == Some(s)
  {
  }

  /** Durations grow strictly with rank: the ladder is ordered by duration. */
  lemma SecondsMonotone(s: SeekSpeed, t: SeekSpeed)
    ensures Rank(s) < Rank(t) <==> Seconds(s) < Seconds(t)
  {
  }

  /** The labels are pairwise distinct. */
  lemma LabelsDistinct(s: SeekSpeed, t: SeekSpeed)
    requires s != t
    ensures Label(s) != Label(t)
  {
  }

  /** `n` applications of `longer`, stopping at None. */
  function LongerN(s: SeekSpeed, n: nat): Option<SeekSpeed>
    decreases n
  {
    if n == 0 then Some(s)
    else match Longer(s)
      case None => None
      case Some(t) => LongerN(t, n - 1)
  }

  /** `n` applications of `shorter`, stopping at None. */
  function ShorterN(s: SeekSpeed, n: nat): Option<SeekSpeed>
    decreases n
  {
    if n == 0 then Some(s)
    else match Shorter(s)
      case None => None
      case Some(t) => ShorterN(t, n - 1)
  }

  /** Repeated `longer` runs off the top after exactly 5 - rank steps. */
  lemma {:induction false} LongerReachesNone(s: SeekSpeed, n: nat)
    ensures LongerN(s, n).None? <==> n > 4 - Rank(s)
    ensures LongerN(s, n).Some? ==> Rank(LongerN(s, n).value) == Rank(s) + n
    decreases n
  {
    if n > 0 {
      match Longer(s)
      case None =>
      case Some(t) => LongerReachesNone(t, n - 1);
    }
  }

  /** Repeated `shorter` runs off the bottom after exactly rank + 1 steps. */
  lemma {:induction false} ShorterReachesNone(s: SeekSpeed, n: nat)
    ensures ShorterN(s, n).None? <==> n > Rank(s)
    ensures ShorterN(s, n).Some? ==> Rank(ShorterN(s, n).value) + n == Rank(s)
    decreases n
  {
    if n > 0 {
      match Shorter(s)
      case None =>
      case Some(t) => ShorterReachesNone(t, n - 1);
    }
  }
}
