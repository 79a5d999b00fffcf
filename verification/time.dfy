/**
 * Playback time (src/mpv/time.rs): a seconds scalar. The source stores an
 * `f32`; here it is a real, so rounding, infinities and NaN are not
 * modelled. The float-to-`u32` casts of `mmss` are modelled exactly: they
 * saturate at 0 and at 2^32 - 1.
 */
module Time {
  import opened Wrappers
  import opened Strings

  datatype Time = Time(secs: real)

  const Zero: Time := Time(0.0)

  const U32Max: int := 0xFFFF_FFFF

  function Seconds(n: real): (t: Time)
    ensures t.secs == n
  {
    Time(n)
  }

  function Minutes(n: real): (t: Time)
    ensures t.secs == 60.0 * Seconds(n).secs
  {
    Time(n * 60.0)
  }

  /** n minutes are 60·n seconds, so their ratio to n seconds is 60 for any non-zero n. */
  lemma MinutesAreSixtySeconds(n: real)
    ensures Minutes(n) == Seconds(60.0 * n)
    ensures n != 0.0 ==> Ratio(Minutes(n), Seconds(n)) == Some(60.0)
  {
    if n != 0.0 {
      calc {
        (n * 60.0) / n;
        60.0 * (n / n);
        60.0;
      }
    }
  }

  function Add(a: Time, b: Time): Time {
    Time(a.secs + b.secs)
  }

  function Sub(a: Time, b: Time): Time {
    Time(a.secs - b.secs)
  }

  function Neg(a: Time): Time {
    Time(-a.secs)
  }

  /** `Time / Time`: a ratio; None stands for the non-finite float a zero divisor gives. */
  function Ratio(a: Time, b: Time): (r: Option<real>)
    ensures r.Some? <==> b.secs != 0.0
    ensures r.Some? ==> r.value * b.secs == a.secs
  {
    if b.secs == 0.0 then None else Some(a.secs / b.secs)
  }

  /** `Time / f32`; None stands for the non-finite float a zero divisor gives. */
  function Scale(a: Time, x: real): (r: Option<Time>)
    ensures r.Some? <==> x != 0.0
    ensures r.Some? ==> r.value.secs * x == a.secs
  {
    if x == 0.0 then None else Some(Time(a.secs / x))
  }

  /** `ZERO` is the additive identity, and subtraction is addition of the negation. */
  lemma ZeroIdentity(a: Time)
    ensures Add(a, Zero) == a && Add(Zero, a) == a
    ensures Sub(a, a) == Zero
    ensures Sub(a, Zero) == a
    ensures Add(a, Neg(a)) == Zero
  {
  }

  // ---------------------------------------------------------------------
  // mm:ss formatting
  // ---------------------------------------------------------------------

  /** Rounds toward zero. */
  function Trunc(r: real): int {
    if r >= 0.0 then r.Floor else -((-r).Floor)
  }

  /** Float `%`: the remainder takes the sign of the dividend. */
  function FMod(x: real, y: real): real
    requires y != 0.0
  {
    x - y * (Trunc(x / y) as real)
  }

  /** A float-to-`u32` `as` cast of an already integral value: saturating. */
  function SaturateU32(i: int): (r: nat)
    ensures r <= U32Max
    ensures 0 <= i <= U32Max ==> r == i
  {
    if i < 0 then 0 else if i > U32Max then U32Max else i
  }

  /** `mmss()`: whole minutes, a colon, and whole seconds zero-padded to two digits. */
  function Mmss(t: Time): string {
    var minutes := SaturateU32((t.secs / 60.0).Floor);
    var seconds := SaturateU32(FMod(t.secs, 60.0).Floor);
    NatToString(minutes) + ":" + Pad2(seconds)
  }

  /** Reads `M:SS` back into a number of seconds; the reference reading of the format. */
  function ParseMmss(s: string): Option<nat> {
    match SplitOnce(s, ":")
    case None => None
    case Some((m, ss)) =>
      if 0 < |m| && AllDigits(m) && |ss| == 2 && AllDigits(ss) && DigitsValue(ss) < 60 then
        Some(60 * DigitsValue(m) + DigitsValue(ss))
      else None
  }

  lemma FloorOfQuotient(s: nat, d: nat)
    requires 0 < d
    ensures (s as real / d as real).Floor == s / d
  {
    var q := s / d;
    var r := s % d;
    assert s == q * d + r;
    assert (s as real) / (d as real) == (q as real) + (r as real) / (d as real);
    assert 0.0 <= (r as real) / (d as real) < 1.0;
  }

  /** For whole seconds, the two fields are the quotient and remainder by 60. */
  lemma MmssWhole(s: nat)
    requires s / 60 <= U32Max
    ensures Mmss(Time(s as real)) == NatToString(s / 60) + ":" + Pad2(s % 60)
  {
    FloorOfQuotient(s, 60);
    var x := s as real;
    assert Trunc(x / 60.0) == s / 60;
    assert FMod(x, 60.0) == (s % 60) as real;
  }

  /** For a non-negative dividend the float remainder by 60 lies in [0, 60). */
  lemma FModRange(x: real)
    requires 0.0 <= x
    ensures 0.0 <= FMod(x, 60.0) < 60.0
  {
    var q := Trunc(x / 60.0);
    assert q == (x / 60.0).Floor;
    assert q as real <= x / 60.0 < q as real + 1.0;
  }

  /** The seconds field of a non-negative time is below 60, so it is exactly two digits. */
  lemma SecondsFieldRange(t: Time)
    requires 0.0 <= t.secs
    ensures SaturateU32(FMod(t.secs, 60.0).Floor) < 60
  {
    FModRange(t.secs);
  }

  /**
   * Any non-negative time formats as minutes, a colon and the seconds
   * field: the text ends in a colon and two digits worth less than 60.
   */
  lemma MmssSecondsField(t: Time)
    requires 0.0 <= t.secs
    ensures var text := Mmss(t);
            |text| >= 4 && text[|text| - 3] == ':' &&
            AllDigits(text[|text| - 2..]) && DigitsValue(text[|text| - 2..]) < 60
  {
    SecondsFieldRange(t);
    FieldsShape(NatToString(SaturateU32((t.secs / 60.0).Floor)), SaturateU32(FMod(t.secs, 60.0).Floor));
  }

  lemma FieldsShape(m: string, sec: nat)
    requires sec < 60 && |m| > 0
    ensures var text := m + ":" + Pad2(sec);
            |text| >= 4 && text[|text| - 3] == ':' &&
            AllDigits(text[|text| - 2..]) && DigitsValue(text[|text| - 2..]) < 60
  {
    var text := m + ":" + Pad2(sec);
    assert text[|text| - 2..] == Pad2(sec);
  }

  /** Formatting whole seconds and reading the result back reconstructs the input: 60 M + SS = s. */
  lemma MmssRoundTrip(s: nat)
    requires s / 60 <= U32Max
    ensures ParseMmss(Mmss(Time(s as real))) == Some(s)
  {
    MmssWhole(s);
    var m := NatToString(s / 60);
    var ss := Pad2(s % 60);
    assert ':' !in m;
    SplitOnceAtFirst(m, ':', ss);
    assert m + ":" + ss == m + [':'] + ss;
  }

  /** A negative time formats as `0:00`: both casts saturate at zero. */
  lemma MmssNegative(t: Time)
    requires t.secs < 0.0
    ensures Mmss(t) == "0:00"
  {
    assert (t.secs / 60.0).Floor < 0;
    var q := Trunc(t.secs / 60.0);
    assert FMod(t.secs, 60.0) <= 0.0;
    assert FMod(t.secs, 60.0).Floor <= 0;
    assert Pad2(0) == "00";
  }
}
