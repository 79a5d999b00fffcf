/**
 * Monotonic instants (`std::time::Instant`) as integer nanoseconds read
 * from a clock the caller supplies.
 */
module Clock {
  /** Nanoseconds per second. */
  const Second: nat := 1_000_000_000

  /** `Instant::elapsed`: saturates at zero when the clock reads earlier than the instant. */
  function Elapsed(now: int, since: int): (d: nat)
    ensures now >= since ==> d == now - since
    ensures now < since ==> d == 0
  {
    if now >= since then now - since else 0
  }

  /** Elapsed time adds up along ordered instants, and an instant d after `since` is d past it. */
  lemma ElapsedAdds(a: int, b: int, c: int, d: nat)
    ensures a <= b <= c ==> Elapsed(c, a) == Elapsed(c, b) + Elapsed(b, a)
    ensures Elapsed(a + d, a) == d
  {
  }

  /** A later clock reading never shows less elapsed time. */
  lemma ElapsedMonotone(now: int, later: int, since: int)
    requires now <= later
    ensures Elapsed(now, since) <= Elapsed(later, since)
  {
  }
}
