/**
 * The optimal write block size probe (block_size_test.c). Block sizes are
 * powers of two, 2^(pow + 9) bytes for pow = 0 (512 bytes) to 17 (64 MiB);
 * only a range of them derived from the largest request the device accepts
 * is tried, and the fastest one wins unless a later, bigger size is more
 * than 5% faster still.
 *
 * Each size's measured rate is an input: None when a write or the seek back
 * to the start failed for that size. Rates are exact reals here.
 */
module BlockSize {
  datatype Option<T> = None | Some(value: T)

  /** Largest power index; labels and rates exist for 0..LAST_POW. */
  const LAST_POW: nat := 17

  function Pow2(n: nat): (r: nat)
    ensures r >= 1
  {
    if n == 0 then 1 else 2 * Pow2(n - 1)
  }

  lemma {:induction false} Pow2Grows(a: nat, b: nat)
    requires a < b
    ensures Pow2(a) < Pow2(b)
    decreases b
  {
    if a < b - 1 {
      Pow2Grows(a, b - 1);
    }
  }

  lemma Pow2Order(a: nat, b: nat)
    ensures a < b ==> Pow2(a) < Pow2(b)
  {
    if a < b {
      Pow2Grows(a, b);
    }
  }

  /** The block size of power index `pow`, in bytes. */
  function BlockSizeOf(pow: nat): nat
  {
    Pow2(pow + 9)
  }

  /** Power 0 is the 512-byte sector size. */
  lemma SmallestBlockSize()
    ensures BlockSizeOf(0) == 512
  {
  }

  /**
   * The lower bound of the search: the smallest power not above LAST_POW + 1
   * whose block size covers `request` bytes, or LAST_POW + 1 if none does.
   */
  function MinPowFrom(request: nat, p: nat): (m: nat)
    requires p <= LAST_POW + 1
    ensures p <= m <= LAST_POW + 1
    ensures m <= LAST_POW ==> BlockSizeOf(m) >= request
    ensures forall q :: p <= q < m ==> BlockSizeOf(q) < request
    decreases LAST_POW + 1 - p
  {
    if BlockSizeOf(p) < request && p <= LAST_POW then MinPowFrom(request, p + 1) else p
  }

  function MinPow(request: nat): (m: nat)
    ensures m <= LAST_POW + 1
    ensures m <= LAST_POW ==> BlockSizeOf(m) >= request
    ensures forall q: nat :: q < m ==> BlockSizeOf(q) < request
  {
    MinPowFrom(request, 0)
  }

  /**
   * The upper bound of the search: counting down from LAST_POW while the
   * block size exceeds `request` and the power is above min + 1.
   */
  function MaxPowFrom(request: nat, min: nat, p: nat): (m: nat)
    requires p <= LAST_POW
    ensures m <= p
    ensures m < p ==> m >= min + 1
    ensures BlockSizeOf(m) <= request || m <= min + 1
    ensures forall q :: m < q <= p ==> BlockSizeOf(q) > request && q > min + 1
  {
    if BlockSizeOf(p) > request && p > min + 1 then MaxPowFrom(request, min, p - 1) else p
  }

  function MaxPow(request: nat, min: nat): (m: nat)
    ensures m <= LAST_POW
  {
    MaxPowFrom(request, min, LAST_POW)
  }

  /** The first search loop of probe_for_optimal_block_size. */
  method FindMinPow(request: nat) returns (min: nat)
    ensures min == MinPow(request)
  {
    min := 0;
    while BlockSizeOf(min) < request && min <= LAST_POW
      invariant min <= LAST_POW + 1
      invariant MinPowFrom(request, min) == MinPow(request)
      decreases LAST_POW + 1 - min
    {
      min := min + 1;
    }
  }

  /** The second search loop of probe_for_optimal_block_size. */
  method FindMaxPow(request: nat, min: nat) returns (max: nat)
    ensures max == MaxPow(request, min)
  {
    max := LAST_POW;
    while BlockSizeOf(max) > request && max > min + 1
      invariant max <= LAST_POW
      invariant MaxPowFrom(request, min, max) == MaxPow(request, min)
    {
      max := max - 1;
    }
  }

  /**
   * The sizes actually tried: the two smallest covering the request, or only
   * the largest when the smallest covering one is it, or none when no size
   * covers the request. Only indices up to LAST_POW are ever used.
   */
  lemma {:induction false} TriedPowers(request: nat)
    ensures var min := MinPow(request);
            var max := MaxPow(request, min);
            (min <= LAST_POW - 1 ==> max == min + 1)
            && (min == LAST_POW ==> max == LAST_POW)
            && (min == LAST_POW + 1 ==> max < min)
  {
    if MinPow(request) <= LAST_POW - 1 {
      TriedPowersCovering(request);
    }
  }

  /** When a size below the largest covers the request, the range is that size and the next. */
  lemma TriedPowersCovering(request: nat)
    requires MinPow(request) <= LAST_POW - 1
    ensures MaxPow(request, MinPow(request)) == MinPow(request) + 1
  {
    var min := MinPow(request);
    var max := MaxPow(request, min);
    Pow2Grows(min + 9, min + 10);
    assert BlockSizeOf(min + 1) > request;
    if max > min + 1 {
      Pow2Grows(min + 9, max + 9);
    }
  }

  /**
   * The running choice of the per-size loop after the powers min..p-1: it
   * starts at power 0 with rate 0, and a size replaces it only when its rate
   * is more than 5% above the running best.
   */
  function Best(min: nat, p: nat, rate: nat -> Option<real>): (best: (nat, real))
    requires forall q :: min <= q < p ==> rate(q).Some?
    decreases p
  {
    if p <= min then (0, 0.0)
    else
      var prev := Best(min, p - 1, rate);
      if rate(p - 1).value > prev.1 * 1.05 then (p - 1, rate(p - 1).value) else prev
  }

  /**
   * What the running choice means: it is power 0 at rate 0, or a tried power
   * at its own positive rate that was more than 5% faster than the choice
   * before it; every earlier size is slower, and no tried size is more than
   * 5% faster.
   */
  lemma {:induction false} BestProperties(min: nat, p: nat, rate: nat -> Option<real>)
    requires forall q :: min <= q < p ==> rate(q).Some?
    ensures var (pow, r) := Best(min, p, rate);
            && r >= 0.0
            && (r == 0.0 ==> pow == 0)
            && (r > 0.0 ==> min <= pow < p && r == rate(pow).value && r > Best(min, pow, rate).1 * 1.05)
            && (forall q :: min <= q < p ==> rate(q).value <= 1.05 * r)
            && (forall q :: min <= q < pow ==> rate(q).value < r)
    decreases p
  {
    if p > min {
      BestProperties(min, p - 1, rate);
      var prev := Best(min, p - 1, rate);
      if rate(p - 1).value > prev.1 * 1.05 {
        assert Best(min, p, rate) == (p - 1, rate(p - 1).value);
      } else {
        assert Best(min, p, rate) == prev;
      }
    }
  }

  /**
   * Rates 10 and 10.4 for powers 0 and 1: 10.4 is within 5% of 10, so the
   * first size stays the choice.
   */
  lemma WithinFivePercentKeepsEarlier()
    ensures Best(0, 2, p => Some(if p == 0 then 10.0 else 10.4)) == (0, 10.0)
  {
  }

  /** One more tried size: it replaces the running choice only when more than 5% faster. */
  lemma BestStep(min: nat, p: nat, rate: nat -> Option<real>)
    requires min <= p && forall q :: min <= q <= p ==> rate(q).Some?
    ensures var prev := Best(min, p, rate);
            Best(min, p + 1, rate) == if rate(p).value > prev.1 * 1.05 then (p, rate(p).value) else prev
  {
  }

  /**
   * The per-size loop over the powers min..max. `ok` is false when a size's
   * write or seek failed (the probe then returns -1); otherwise the choice
   * is the running best after all of them.
   */
  method ChooseBestPow(min: nat, max: nat, rate: nat -> Option<real>) returns (ok: bool, bestPow: nat, highestRate: real)
    requires max <= LAST_POW
    ensures ok <==> forall p :: min <= p <= max ==> rate(p).Some?
    ensures ok ==> (bestPow, highestRate) == Best(min, max + 1, rate)
  {
    highestRate := 0.0;
    bestPow := 0;
    var cur := min;
    while cur <= max
      invariant min <= cur <= max + 1 || cur == min
      invariant forall p :: min <= p < cur ==> rate(p).Some?
      invariant (bestPow, highestRate) == Best(min, cur, rate)
      decreases max + 1 - cur
    {
      if rate(cur).None? {
        return false, bestPow, highestRate;
      }
      var r := rate(cur).value;
      BestStep(min, cur, rate);
      if r > highestRate * 1.05 {
        highestRate := r;
        bestPow := cur;
      }
      cur := cur + 1;
    }
    ok := true;
  }

  /** What the probe records in the device testing context. */
  class OptimalBlockSizeTestInfo {
    var testPerformed: bool
    var optimalBlockSize: nat

    constructor ()
      ensures !testPerformed && optimalBlockSize == 0
    {
      testPerformed := false;
      optimalBlockSize := 0;
    }

    /**
     * probe_for_optimal_block_size. `locked` and `bufferReady` say whether the
     * lock file and the 256 MiB buffer were obtained; `request` is
     * max_sectors_per_request times the sector size. Returns 0 and records
     * the chosen size, or -1 and leaves the record alone.
     */
    method ProbeForOptimalBlockSize(locked: bool, bufferReady: bool, request: nat, rate: nat -> Option<real>)
      returns (ret: int)
      modifies this
      ensures ret == 0 || ret == -1
      ensures ret == -1 ==> testPerformed == old(testPerformed) && optimalBlockSize == old(optimalBlockSize)
      ensures ret == 0 <==> (locked && bufferReady
                             && forall p :: MinPow(request) <= p <= MaxPow(request, MinPow(request)) ==> rate(p).Some?)
      ensures ret == 0 ==> testPerformed
                           && optimalBlockSize == BlockSizeOf(Best(MinPow(request), MaxPow(request, MinPow(request)) + 1, rate).0)
      ensures ret == 0 && MaxPow(request, MinPow(request)) < MinPow(request) ==> optimalBlockSize == 512
    {
      if !locked {
        return -1;
      }
      var min := FindMinPow(request);
      var max := FindMaxPow(request, min);
      if !bufferReady {
        return -1;
      }
      var ok, bestPow, highestRate := ChooseBestPow(min, max, rate);
      if !ok {
        return -1;
      }
      SmallestBlockSize();
      testPerformed := true;
      optimalBlockSize := BlockSizeOf(bestPow);
      return 0;
    }
  }
}
