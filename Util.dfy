/** `timediff` (util.c): the signed distance in microseconds between two timestamps. */
module Util {
  const MICROS_PER_SECOND: int := 1000000

  /** A `struct timeval`: whole seconds and microseconds. */
  datatype Timeval = Timeval(sec: int, usec: int)

  /** A timestamp as the C library produces it, with tv_usec in [0, 10^6). */
  predicate Normalized(t: Timeval) { 0 <= t.usec < MICROS_PER_SECOND }

  function Micros(t: Timeval): int { t.sec * MICROS_PER_SECOND + t.usec }

  /** Microseconds from `start` to `end`: the difference of the two instants. */
  function TimeDiff(start: Timeval, end: Timeval): (d: int)
    ensures d == Micros(end) - Micros(start)
  {
    (end.sec - start.sec) * MICROS_PER_SECOND + end.usec - start.usec
  }

  lemma TimeDiffSelf(a: Timeval)
    ensures TimeDiff(a, a) == 0
  {
  }

  lemma TimeDiffAntisymmetric(a: Timeval, b: Timeval)
    ensures TimeDiff(a, b) == -TimeDiff(b, a)
  {
  }

  lemma TimeDiffAdditive(a: Timeval, b: Timeval, c: Timeval)
    ensures TimeDiff(a, b) + TimeDiff(b, c) == TimeDiff(a, c)
  {
  }

  /** `end` is not earlier than `start`: a later second, or the same second and no fewer microseconds. */
  predicate NotEarlier(start: Timeval, end: Timeval)
  {
    start.sec < end.sec || (start.sec == end.sec && start.usec <= end.usec)
  }

  /**
   * For normalized timestamps the difference is non-negative exactly when
   * `end` is not earlier than `start`.
   */
  lemma TimeDiffNonNegative(start: Timeval, end: Timeval)
    requires Normalized(start) && Normalized(end)
    ensures TimeDiff(start, end) >= 0 <==> NotEarlier(start, end)
  {
    if start.sec < end.sec {
      assert (end.sec - start.sec) * MICROS_PER_SECOND >= MICROS_PER_SECOND;
    } else if start.sec > end.sec {
      assert (start.sec - end.sec) * MICROS_PER_SECOND >= MICROS_PER_SECOND;
    }
  }

  /** Multiplying by the same factor keeps the order; shared by the block and slice arithmetic. */
  lemma MulMonotone(q: nat, a: nat, b: nat)
    requires a <= b
    ensures q * a <= q * b
  {
  }
}
