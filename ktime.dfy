/**
 * Kernel time values. A ktime is a signed 64-bit count of nanoseconds; a
 * timespec is the (seconds, nanoseconds) pair user space passes in and gets
 * back. Only the conversions and the saturating addition the alarm timer
 * code relies on are modelled.
 */
module Ktime {
  const NSEC_PER_SEC: int := 1_000_000_000
  const KTIME_MAX: int := 0x7fff_ffff_ffff_ffff
  /** Largest second count a ktime can carry (KTIME_MAX / NSEC_PER_SEC). */
  const KTIME_SEC_MAX: int := 9_223_372_036
  const TWO_POW_64: int := 0x1_0000_0000_0000_0000

  /** The first instant whose second count ktime_set clamps: below it a ktime and its timespec convert both ways. */
  const KTIME_SEC_MAX_NS: int := KTIME_SEC_MAX * NSEC_PER_SEC

  predicate IsKtime(t: int) {
    -KTIME_MAX - 1 <= t <= KTIME_MAX
  }

  datatype Timespec = Timespec(sec: int, nsec: int)

  /** struct itimerspec: a timer's repeat interval and its (next) value. */
  datatype ITimerSpec = ITimerSpec(interval: Timespec, value: Timespec)

  /** What the posix layer accepts from user space before calling in (timespec_valid). */
  predicate TimespecValid(ts: Timespec) {
    ts.sec >= 0 && 0 <= ts.nsec < NSEC_PER_SEC
  }

  /**
   * timespec_to_ktime, through the 64-bit ktime_set: a second count of
   * KTIME_SEC_MAX or more clamps to KTIME_MAX; below it the result is the
   * exact nanosecond count, under KTIME_SEC_MAX_NS.
   */
  function TimespecToKtime(ts: Timespec): (t: int)
    ensures TimespecValid(ts) ==> 0 <= t <= KTIME_MAX
    ensures ts.sec >= KTIME_SEC_MAX ==> t == KTIME_MAX
    ensures TimespecValid(ts) && ts.sec < KTIME_SEC_MAX ==> t < KTIME_SEC_MAX_NS && t / NSEC_PER_SEC == ts.sec && t % NSEC_PER_SEC == ts.nsec
  {
    if ts.sec >= KTIME_SEC_MAX then KTIME_MAX else ts.sec * NSEC_PER_SEC + ts.nsec
  }

  /** ktime_to_timespec (ns_to_timespec): floor division, so the nanoseconds are never negative. */
  function KtimeToTimespec(t: int): (ts: Timespec)
    ensures 0 <= ts.nsec < NSEC_PER_SEC
    ensures 0 <= t ==> TimespecValid(ts)
    ensures t < KTIME_SEC_MAX_NS ==> TimespecToKtime(ts) == t
  {
    Timespec(t / NSEC_PER_SEC, t % NSEC_PER_SEC)
  }

  /** Converting a normalised timespec to a ktime and back gives it back unchanged. */
  lemma TimespecRoundTrip(ts: Timespec)
    requires 0 <= ts.nsec < NSEC_PER_SEC && ts.sec < KTIME_SEC_MAX
    ensures KtimeToTimespec(TimespecToKtime(ts)) == ts
  {
    var t := ts.sec * NSEC_PER_SEC + ts.nsec;
    var q, r := t / NSEC_PER_SEC, t % NSEC_PER_SEC;
    assert t == q * NSEC_PER_SEC + r;
    assert (q - ts.sec) * NSEC_PER_SEC == ts.nsec - r;
  }

  /** Two's complement wrap-around of a 64-bit signed addition. */
  function Wrap64(x: int): (r: int)
    ensures IsKtime(r)
    ensures IsKtime(x) ==> r == x
    ensures KTIME_MAX < x < KTIME_MAX + TWO_POW_64 ==> r == x - TWO_POW_64
  {
    (x + KTIME_MAX + 1) % TWO_POW_64 - KTIME_MAX - 1
  }

  /**
   * ktime_add_safe: the wrapped sum, replaced by ktime_set(KTIME_SEC_MAX, 0)
   * whenever it came out negative or below either operand. With the 64-bit
   * ktime_set that replacement is KTIME_MAX, so the result is never
   * negative.
   */
  function AddSafe(lhs: int, rhs: int): (r: int)
    requires IsKtime(lhs) && IsKtime(rhs)
    ensures 0 <= r <= KTIME_MAX
    ensures r == KTIME_MAX || r == Wrap64(lhs + rhs)
  {
    var res := Wrap64(lhs + rhs);
    if res < 0 || res < lhs || res < rhs then TimespecToKtime(Timespec(KTIME_SEC_MAX, 0)) else res
  }

  /** For the non-negative operands the sleep code passes, AddSafe is the exact sum until it would overflow, and KTIME_MAX after. */
  lemma AddSafeExact(lhs: int, rhs: int)
    requires 0 <= lhs <= KTIME_MAX && 0 <= rhs <= KTIME_MAX
    ensures AddSafe(lhs, rhs) == if lhs + rhs <= KTIME_MAX then lhs + rhs else KTIME_MAX
  {
    if lhs + rhs > KTIME_MAX {
      assert Wrap64(lhs + rhs) == lhs + rhs - TWO_POW_64;
    }
  }
}
