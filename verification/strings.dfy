/**
 * Text helpers the Rust standard library provides to the program:
 * decimal formatting (`{}` / `{:02}`), `u8::from_str`, `trim`, `split`,
 * `split_once`, `strip_prefix` and `BufRead::lines`. Each is written
 * generically over sequences where the program uses it on both `str` and
 * `[u8]`.
 */
module Strings {
  import opened Wrappers

  // ---------------------------------------------------------------------
  // Decimal digits
  // ---------------------------------------------------------------------

  predicate IsDigit(c: char) {
    '0' <= c <= '9'
  }

  predicate AllDigits(s: string) {
    forall i :: 0 <= i < |s| ==> IsDigit(s[i])
  }

  function DigitChar(d: nat): (c: char)
    requires d < 10
    ensures IsDigit(c)
  {
    (('0' as int) + d) as char
  }

  function DigitValue(c: char): nat
    requires IsDigit(c)
  {
    (c as int) - ('0' as int)
  }

  /** The number a string of decimal digits denotes (most significant first). */
  function DigitsValue(s: string): nat
    requires AllDigits(s)
  {
    if |s| == 0 then 0 else DigitsValue(s[..|s| - 1]) * 10 + DigitValue(s[|s| - 1])
  }

  /** `format!("{}", n)` for an unsigned integer: shortest decimal form. */
  function NatToString(n: nat): (s: string)
    ensures 1 <= |s|
    ensures AllDigits(s)
    ensures |s| > 1 ==> s[0] != '0'
    ensures DigitsValue(s) == n
    decreases n
  {
    if n < 10 then [DigitChar(n)]
    else
      var prefix := NatToString(n / 10);
      var s := prefix + [DigitChar(n % 10)];
      assert s[..|s| - 1] == prefix;
      s
  }

  /** `format!("{}", i)` for a signed integer. */
  function IntToString(i: int): (s: string)
    ensures 1 <= |s|
    ensures i < 0 <==> s[0] == '-'
    ensures i >= 0 ==> s == NatToString(i)
    ensures i < 0 ==> s[1..] == NatToString(-i)
  {
    if i < 0 then "-" + NatToString(-i) else NatToString(i)
  }

  /** `format!("{:02}", n)`: at least two digits, zero-padded on the left. */
  function Pad2(n: nat): (s: string)
    ensures 2 <= |s|
    ensures AllDigits(s)
    ensures DigitsValue(s) == n
    ensures n < 100 ==> |s| == 2
  {
    if n < 10 then
      var s := ['0', DigitChar(n)];
      assert s[..1] == ['0'];
      assert DigitsValue(['0']) == DigitsValue([]) * 10 + 0;
      s
    else if n < 100 then
      var s := [DigitChar(n / 10), DigitChar(n % 10)];
      assert s[..1] == [DigitChar(n / 10)];
      assert DigitsValue(s[..1]) == DigitsValue([]) * 10 + n / 10;
      s
    else NatToString(n)
  }

  /**
   * `str::parse::<u8>()`: an optional leading `+` followed by one or more
   * ASCII digits whose value is at most 255. Anything else (empty text, a
   * sign alone, a `-`, a space, an overflow) is an error.
   */
  function ParseU8(s: string): (r: Option<nat>)
    ensures r.Some? ==> r.value < 256
  {
    var digits := if 0 < |s| && s[0] == '+' then s[1..] else s;
    if 0 < |digits| && AllDigits(digits) && DigitsValue(digits) < 256 then
      Some(DigitsValue(digits))
    else None
  }

  /** Formatting a `u8` and parsing it back gives the same number. */
  lemma ParseU8OfNatToString(n: nat)
    requires n < 256
    ensures ParseU8(NatToString(n)) == Some(n)
  {
  }

  /**
   * Any character that is not a digit rejects the text, wherever it sits,
   * except a single leading `+`: so do a `-` sign, surrounding blanks and
   * a second sign. Text without a digit is rejected too.
   */
  lemma ParseU8RejectsNonDigits(s: string, i: nat)
    requires i < |s| && !IsDigit(s[i]) && !(i == 0 && s[0] == '+')
    ensures ParseU8(s) == None
    ensures ParseU8([]) == None && ParseU8("+") == None
  {
    if s[0] == '+' {
      assert s[1..][i - 1] == s[i];
    }
  }

  // ---------------------------------------------------------------------
  // Whitespace and trimming
  // ---------------------------------------------------------------------

  /** `char::is_whitespace`: the Unicode White_Space property. */
  predicate IsWhitespace(c: char) {
    || c == '\t' || c == '\n' || c == '\U{000B}' || c == '\U{000C}' || c == '\r' || c == ' '
    || c == '\U{0085}' || c == '\U{00A0}' || c == '\U{1680}'
    || ('\U{2000}' <= c <= '\U{200A}')
    || c == '\U{2028}' || c == '\U{2029}' || c == '\U{202F}' || c == '\U{205F}' || c == '\U{3000}'
  }

  /** Drops the longest prefix whose elements satisfy `ws`. */
  function TrimStartBy<T>(s: seq<T>, ws: T -> bool): (r: seq<T>)
    ensures |r| <= |s| && r == s[|s| - |r|..]
    ensures |r| > 0 ==> !ws(r[0])
    ensures forall i :: 0 <= i < |s| - |r| ==> ws(s[i])
  {
    if |s| > 0 && ws(s[0]) then
      var r := TrimStartBy(s[1..], ws);
      assert forall i :: 1 <= i < |s| - |r| ==> s[i] == s[1..][i - 1];
      r
    else s
  }

  /** Drops the longest suffix whose elements satisfy `ws`. */
  function TrimEndBy<T>(s: seq<T>, ws: T -> bool): (r: seq<T>)
    ensures |r| <= |s| && r == s[..|r|]
    ensures |r| > 0 ==> !ws(r[|r| - 1])
    ensures forall i :: |r| <= i < |s| ==> ws(s[i])
  {
    if |s| > 0 && ws(s[|s| - 1]) then
      var r := TrimEndBy(s[..|s| - 1], ws);
      assert forall i :: |r| <= i < |s| - 1 ==> s[i] == s[..|s| - 1][i];
      r
    else s
  }

  /** Drops both the longest leading and the longest trailing run of `ws`. */
  function TrimBy<T>(s: seq<T>, ws: T -> bool): (r: seq<T>)
  {
    TrimEndBy(TrimStartBy(s, ws), ws)
  }

  /** The trimmed text is a slice of the input that neither starts nor ends with `ws`. */
  lemma TrimBySlice<T>(s: seq<T>, ws: T -> bool)
    ensures exists i, j :: 0 <= i <= j <= |s| && TrimBy(s, ws) == s[i..j]
    ensures |TrimBy(s, ws)| > 0 ==> !ws(TrimBy(s, ws)[0]) && !ws(TrimBy(s, ws)[|TrimBy(s, ws)| - 1])
  {
    var t := TrimStartBy(s, ws);
    var r := TrimEndBy(t, ws);
    var i := |s| - |t|;
    assert t == s[i..];
    assert r == t[..|r|];
    assert t[..|r|] == s[i..i + |r|];
  }

  /** `str::trim`. */
  function Trim(s: string): string {
    TrimBy(s, IsWhitespace)
  }

  // ---------------------------------------------------------------------
  // Searching and splitting
  // ---------------------------------------------------------------------

  /** `pat` occurs in `s` at offset `i`. */
  predicate OccursAt<T(==)>(s: seq<T>, pat: seq<T>, i: nat) {
    i + |pat| <= |s| && s[i..i + |pat|] == pat
  }

  /** First offset at or after `from` where `pat` occurs. */
  function FindFrom<T(==)>(s: seq<T>, pat: seq<T>, from: nat): (r: Option<nat>)
    ensures r.Some? ==> from <= r.value && OccursAt(s, pat, r.value)
    ensures r.Some? ==> forall k :: from <= k < r.value ==> !OccursAt(s, pat, k)
    ensures r.None? ==> forall k :: from <= k ==> !OccursAt(s, pat, k)
    decreases |s| - from
  {
    if from + |pat| > |s| then None
    else if s[from..from + |pat|] == pat then Some(from)
    else FindFrom(s, pat, from + 1)
  }

  /** `split_once(pat)`: the text before and after the first occurrence of `pat`. */
  function SplitOnce<T(==)>(s: seq<T>, pat: seq<T>): (r: Option<(seq<T>, seq<T>)>)
    ensures r.Some? <==> exists k :: OccursAt(s, pat, k)
    ensures r.Some? ==> r.value.0 + pat + r.value.1 == s
    ensures r.Some? ==> forall k: nat :: k < |r.value.0| ==> !OccursAt(s, pat, k)
  {
    match FindFrom(s, pat, 0)
    case None => None
    case Some(i) =>
      assert s == s[..i] + s[i..i + |pat|] + s[i + |pat|..];
      Some((s[..i], s[i + |pat|..]))
  }

  /** Splitting at a separator absent from the text before it gives back the two halves. */
  lemma SplitOnceAtFirst<T>(a: seq<T>, sep: T, b: seq<T>)
    requires sep !in a
    ensures SplitOnce(a + [sep] + b, [sep]) == Some((a, b))
  {
    var s := a + [sep] + b;
    assert OccursAt(s, [sep], |a|);
    forall k: nat | k < |a|
      ensures !OccursAt(s, [sep], k)
    {
      assert s[k] == a[k];
    }
    var r := SplitOnce(s, [sep]);
    assert |r.value.0| == |a|;
    assert r.value.0 == s[..|a|] == a;
    assert r.value.1 == s[|a| + 1..] == b;
  }

  /** Splitting at a pattern whose first element is absent from the text before it gives back the two halves. */
  lemma SplitOnceBefore<T>(a: seq<T>, pat: seq<T>, b: seq<T>)
    requires |pat| > 0 && pat[0] !in a
    ensures SplitOnce(a + pat + b, pat) == Some((a, b))
  {
    var s := a + pat + b;
    assert s[|a|..|a| + |pat|] == pat;
    assert OccursAt(s, pat, |a|);
    forall k: nat | k < |a|
      ensures !OccursAt(s, pat, k)
    {
      assert s[k] == a[k];
    }
    var r := SplitOnce(s, pat);
    var n := |r.value.0|;
    assert s[n..n + |pat|] == pat by {
      assert s == r.value.0 + pat + r.value.1;
    }
    assert OccursAt(s, pat, n);
    assert n == |a|;
    assert r.value.0 == s[..|a|] == a;
    assert r.value.1 == s[|a| + |pat|..] == b;
  }

  /** `strip_prefix(p)`. */
  function StripPrefix<T(==)>(s: seq<T>, p: seq<T>): (r: Option<seq<T>>)
    ensures r.Some? <==> (|p| <= |s| && s[..|p|] == p)
    ensures r.Some? ==> p + r.value == s
  {
    if |p| <= |s| && s[..|p|] == p then Some(s[|p|..]) else None
  }

  /** Re-inserts `sep` between consecutive pieces. */
  function Join<T>(pieces: seq<seq<T>>, sep: T): seq<T>
    requires 1 <= |pieces|
  {
    if |pieces| == 1 then pieces[0] else pieces[0] + [sep] + Join(pieces[1..], sep)
  }

  /** First index of `x` in `s`. */
  function IndexOf<T(==)>(s: seq<T>, x: T): (r: Option<nat>)
    ensures r.Some? ==> r.value < |s| && s[r.value] == x && x !in s[..r.value]
    ensures r.None? <==> x !in s
  {
    if |s| == 0 then None
    else if s[0] == x then Some(0)
    else match IndexOf(s[1..], x)
      case None => None
      case Some(i) =>
        assert s[..i + 1] == [s[0]] + s[1..][..i];
        Some(i + 1)
  }

  /** `split(|x| x == sep)`: the maximal runs between separators, empty runs included. */
  function SplitOn<T(==)>(s: seq<T>, sep: T): (pieces: seq<seq<T>>)
    ensures 1 <= |pieces|
    ensures forall i :: 0 <= i < |pieces| ==> sep !in pieces[i]
    decreases |s|
  {
    match IndexOf(s, sep)
    case None => [s]
    case Some(i) => [s[..i]] + SplitOn(s[i + 1..], sep)
  }

  /** Splitting and joining again gives back the input. */
  lemma {:induction false} JoinSplitOn<T>(s: seq<T>, sep: T)
    ensures Join(SplitOn(s, sep), sep) == s
    decreases |s|
  {
    match IndexOf(s, sep)
    case None =>
    case Some(i) =>
      var rest := SplitOn(s[i + 1..], sep);
      var pieces := [s[..i]] + rest;
      assert SplitOn(s, sep) == pieces;
      assert pieces[1..] == rest;
      calc {
        Join(pieces, sep);
        pieces[0] + [sep] + Join(rest, sep);
        { JoinSplitOn(s[i + 1..], sep); }
        s[..i] + [sep] + s[i + 1..];
        { assert s == s[..i] + [sep] + s[i + 1..]; }
        s;
      }
  }

  /** Removes one trailing `\r`. */
  function StripCr(line: string): (r: string)
    ensures r == line || (r + "\r" == line)
    ensures forall c :: c in r ==> c in line
  {
    if 0 < |line| && line[|line| - 1] == '\r' then line[..|line| - 1] else line
  }
}
