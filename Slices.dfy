/**
 * How an endurance-test round walks the device (mfst.c): the 16 slices, the
 * random slice order, the per-slice generator seed and the blocks a slice is
 * written in.
 */
module Slices {
  import Rng
  import opened Util

  const NUM_SLICES: nat := 16
  const RAND_MAX: bv32 := 0x7FFF_FFFF
  const TWO_TO_32: nat := 0x1_0000_0000

  // ---------------------------------------------------------------------------
  // The slice partition

  /** `get_slice_start`: slice k begins at (n / 16) * k. */
  function SliceStart(n: nat, k: nat): nat
  {
    (n / NUM_SLICES) * k
  }

  /** One past the last sector of slice k: the next slice's start, or n for the last slice. */
  function SliceEnd(n: nat, k: nat): nat
  {
    if k == NUM_SLICES - 1 then n else SliceStart(n, k + 1)
  }

  /** The slices are contiguous, in order, start at 0 and end at n. */
  lemma SlicesContiguous(n: nat, k: nat)
    requires k < NUM_SLICES
    ensures SliceStart(n, 0) == 0 && SliceEnd(n, NUM_SLICES - 1) == n
    ensures SliceStart(n, k) <= SliceEnd(n, k)
    ensures k + 1 < NUM_SLICES ==> SliceEnd(n, k) == SliceStart(n, k + 1)
  {
    var q := n / NUM_SLICES;
    assert q * 15 <= q * 16 <= n;
    if k < NUM_SLICES - 1 {
      assert q * k <= q * (k + 1);
    } else {
      assert q * k == q * 15;
    }
  }

  /** The slice that holds sector s. */
  function SliceOf(n: nat, s: nat): (k: nat)
    requires s < n
    ensures k < NUM_SLICES && SliceStart(n, k) <= s < SliceEnd(n, k)
  {
    var q := n / NUM_SLICES;
    if q == 0 then NUM_SLICES - 1
    else
      var k := if s / q < NUM_SLICES - 1 then s / q else NUM_SLICES - 1;
      assert q * k <= q * (s / q) <= s by { MulMonotone(q, k, s / q); }
      assert k < NUM_SLICES - 1 ==> s < q * (k + 1);
      k
  }

  /** Every sector of the device lies in exactly one slice. */
  lemma {:induction false} SliceUnique(n: nat, s: nat, k: nat)
    requires s < n && k < NUM_SLICES
    requires SliceStart(n, k) <= s < SliceEnd(n, k)
    ensures k == SliceOf(n, s)
  {
    var m := SliceOf(n, s);
    var q := n / NUM_SLICES;
    if k < m {
      MulMonotone(q, k + 1, m);
      assert false;
    } else if m < k {
      MulMonotone(q, m + 1, k);
      assert false;
    }
  }

  // ---------------------------------------------------------------------------
  // The random slice order

  /** The index `random_list` takes from a generator output among m remaining entries. */
  function Pick(draw: bv32, m: nat): (j: nat)
    requires m > 0
    ensures j < m
  {
    ((draw & RAND_MAX) as nat) % m
  }

  function RemoveAt(s: seq<int>, j: nat): (r: seq<int>)
    requires j < |s|
    ensures |r| == |s| - 1
  {
    s[..j] + s[j + 1..]
  }

  /** The order `random_list` builds: repeatedly take the picked entry out of what remains. */
  function Shuffle(source: seq<int>, draws: seq<bv32>): (r: seq<int>)
    requires |draws| >= |source|
    ensures |r| == |source|
  {
    if |source| == 0 then []
    else
      var j := Pick(draws[0], |source|);
      [source[j]] + Shuffle(RemoveAt(source, j), draws[1..])
  }

  function Identity(n: nat): (r: seq<int>)
    ensures |r| == n && forall i :: 0 <= i < n ==> r[i] == i
  {
    seq(n, i => i)
  }

  /** Whatever the generator produces, the shuffle is a permutation of its source. */
  lemma {:induction false} ShuffleIsPermutation(source: seq<int>, draws: seq<bv32>)
    requires |draws| >= |source|
    ensures multiset(Shuffle(source, draws)) == multiset(source)
    decreases |source|
  {
    if |source| > 0 {
      var j := Pick(draws[0], |source|);
      ShuffleIsPermutation(RemoveAt(source, j), draws[1..]);
      assert source == source[..j] + [source[j]] + source[j + 1..];
    }
  }

  /** `random_list` yields each slice number 0..15 exactly once. */
  lemma SliceOrderIsPermutation(draws: seq<bv32>, k: int)
    requires |draws| >= NUM_SLICES
    ensures |Shuffle(Identity(NUM_SLICES), draws)| == NUM_SLICES
    ensures k in Shuffle(Identity(NUM_SLICES), draws) <==> 0 <= k < NUM_SLICES
    ensures multiset(Shuffle(Identity(NUM_SLICES), draws))[k] == if 0 <= k < NUM_SLICES then 1 else 0
  {
    var id := Identity(NUM_SLICES);
    ShuffleIsPermutation(id, draws);
    IdentityCounts(NUM_SLICES, k);
    assert k in Shuffle(id, draws) <==> k in multiset(Shuffle(id, draws));
    assert k in id <==> k in multiset(id);
  }

  lemma {:induction false} IdentityCounts(n: nat, k: int)
    ensures multiset(Identity(n))[k] == if 0 <= k < n then 1 else 0
  {
    if n > 0 {
      IdentityCounts(n - 1, k);
      assert Identity(n) == Identity(n - 1) + [n - 1];
    }
  }

  /** The next `count` outputs of the device's generator, starting `from` draws after seeding. */
  function Draws(gen: (bv32, nat) -> bv32, seed: bv32, from: nat, count: nat): (d: seq<bv32>)
    requires Rng.Generator(gen)
    ensures |d| == count
  {
    seq(count, t requires 0 <= t < count => Rng.Mix(seed, gen(seed, from + t)))
  }

  /** Entry i of the draws is the output at draw number `d` = from + i. */
  lemma DrawAt(gen: (bv32, nat) -> bv32, seed: bv32, from: nat, count: nat, i: nat, d: nat)
    requires Rng.Generator(gen) && i < count && d == from + i
    ensures Draws(gen, seed, from, count)[i] == Rng.Mix(seed, gen(seed, d))
  {
  }

  /**
   * `random_list`: draws 16 generator outputs and builds the slice order from
   * them, moving the survivors of each pick through `temp` back into `source`.
   */
  method RandomList(rng: Rng.RngState, gen: (bv32, nat) -> bv32) returns (list: array<int>)
    requires Rng.Generator(gen)
    modifies rng
    ensures fresh(list) && list.Length == NUM_SLICES
    ensures rng.currentSeed == old(rng.currentSeed) && rng.drawn == old(rng.drawn) + NUM_SLICES
    ensures list[..] == Shuffle(Identity(NUM_SLICES), Draws(gen, rng.currentSeed, old(rng.drawn), NUM_SLICES))
  {
    list := new int[NUM_SLICES];
    var source := new int[NUM_SLICES];
    var temp := new int[NUM_SLICES];
    FillIdentity(source);
    assert source[..NUM_SLICES] == Identity(NUM_SLICES);
    PickAll(rng, gen, source, temp, list, NUM_SLICES);
    assert list[..] == list[..NUM_SLICES];
  }

  /** The initialisation loop of `random_list`: source[i] = i. */
  method FillIdentity(source: array<int>)
    modifies source
    ensures source[..] == Identity(source.Length)
  {
    var i := 0;
    while i < source.Length
      invariant i <= source.Length
      invariant forall t :: 0 <= t < i ==> source[t] == t
    {
      source[i] := i;
      i := i + 1;
    }
  }

  /**
   * The picking loop of `random_list` over the first m entries of `source`:
   * entry i of `list` is the i-th pick among the entries not yet taken.
   */
  method PickAll(rng: Rng.RngState, gen: (bv32, nat) -> bv32, source: array<int>, temp: array<int>, list: array<int>, m: nat)
    requires Rng.Generator(gen)
    requires source != temp && source != list && temp != list
    requires m <= source.Length && m <= temp.Length && m <= list.Length
    modifies rng, source, temp, list
    ensures rng.currentSeed == old(rng.currentSeed) && rng.drawn == old(rng.drawn) + m
    ensures list[..m] == Shuffle(old(source[..m]), Draws(gen, rng.currentSeed, old(rng.drawn), m))
  {
    ghost var seed := rng.currentSeed;
    ghost var drawn0 := rng.drawn;
    ghost var all := Draws(gen, seed, drawn0, m);
    ghost var whole := Shuffle(source[..m], all);
    var i := 0;
    while i < m
      invariant i <= m
      invariant rng.currentSeed == seed && rng.drawn == drawn0 + i
      invariant list[..i] == whole[..i]
      invariant Shuffle(source[..m - i], all[i..]) == whole[i..]
    {
      PickNext(rng, gen, source, temp, list, m, i, all, whole);
      i := i + 1;
    }
  }

  /** One round of the picking loop: draw, take the picked entry, close the gap; the shuffle advances by one. */
  method PickNext(rng: Rng.RngState, gen: (bv32, nat) -> bv32, source: array<int>, temp: array<int>, list: array<int>,
                  m: nat, i: nat, ghost all: seq<bv32>, ghost whole: seq<int>)
    requires Rng.Generator(gen)
    requires source != temp && source != list && temp != list
    requires i < m <= source.Length && m <= temp.Length && m <= list.Length
    requires i <= rng.drawn && all == Draws(gen, rng.currentSeed, rng.drawn - i, m) && |whole| == m
    requires list[..i] == whole[..i] && Shuffle(source[..m - i], all[i..]) == whole[i..]
    modifies rng, source, temp, list
    ensures rng.currentSeed == old(rng.currentSeed) && rng.drawn == old(rng.drawn) + 1
    ensures list[..i + 1] == whole[..i + 1] && Shuffle(source[..m - i - 1], all[i + 1..]) == whole[i + 1..]
  {
    ghost var rest := source[..m - i];
    DrawAt(gen, rng.currentSeed, rng.drawn - i, m, i, rng.drawn);
    var r := rng.GetRandomNumber(gen);
    var j := Pick(r, m - i);
    TakeAt(source, temp, list, m, i, j, rest, whole[..i]);
    ShuffleStep(rest, all, whole, i, j);
    assert whole[..i + 1] == whole[..i] + [whole[i]];
  }

  /** `list[i] = source[j]`, then entry j is removed from the first m - i entries of `source`. */
  method TakeAt(source: array<int>, temp: array<int>, list: array<int>, m: nat, i: nat, j: nat,
                ghost rest: seq<int>, ghost prefix: seq<int>)
    requires source != temp && source != list && temp != list
    requires i < m <= source.Length && m <= temp.Length && m <= list.Length && j < m - i
    requires source[..m - i] == rest && list[..i] == prefix
    modifies source, temp, list
    ensures list[..i + 1] == prefix + [rest[j]]
    ensures source[..m - i - 1] == RemoveAt(rest, j)
  {
    list[i] := source[j];
    assert list[..i + 1] == prefix + [rest[j]];
    RemoveInto(source, temp, m - i, j);
    CopyBack(temp, source, m - i - 1);
  }

  /** Taking the picked entry out of what remains continues the same shuffle. */
  lemma ShuffleStep(rest: seq<int>, all: seq<bv32>, whole: seq<int>, i: nat, j: nat)
    requires 0 < |rest| && i + |rest| <= |all| && i <= |whole|
    requires Shuffle(rest, all[i..]) == whole[i..] && j == Pick(all[i], |rest|)
    ensures whole[i] == rest[j] && Shuffle(RemoveAt(rest, j), all[i + 1..]) == whole[i + 1..]
  {
    assert all[i..][0] == all[i] && all[i..][1..] == all[i + 1..];
    assert whole[i..][1..] == whole[i + 1..];
  }

  /** The `memcpy` of the survivors back into `source`. */
  method CopyBack(temp: array<int>, source: array<int>, m: nat)
    requires temp != source && m <= temp.Length && m <= source.Length
    modifies source
    ensures source[..m] == old(temp[..m]) && source[m..] == old(source[m..])
  {
    forall t | 0 <= t < m {
      source[t] := temp[t];
    }
  }

  /** Copies the first m entries of `source` into `temp`, skipping entry j. */
  method RemoveInto(source: array<int>, temp: array<int>, m: nat, j: nat)
    requires source != temp && j < m <= source.Length && m - 1 <= temp.Length
    modifies temp
    ensures temp[..m - 1] == RemoveAt(old(source[..m]), j)
  {
    var k, l := 0, 0;
    while k < m
      invariant k <= m
      invariant l == if k <= j then k else k - 1
      invariant temp[..l] == if k <= j then source[..k] else source[..j] + source[j + 1..k]
    {
      if k != j {
        temp[l] := source[k];
        l := l + 1;
      }
      k := k + 1;
    }
    assert source[..m][..j] == source[..j];
    assert source[..m][j + 1..] == source[j + 1..m];
  }

  // ---------------------------------------------------------------------------
  // Seeds

  /**
   * The generator seed of a slice in a round, as passed (as an `unsigned int`)
   * both when the slice is written and when it is read back.
   */
  function SliceSeed(initialSeed: nat, slice: nat, round: nat): (seed: nat)
    ensures seed < TWO_TO_32
    ensures (seed - (initialSeed + slice + NUM_SLICES * round)) % TWO_TO_32 == 0
  {
    (initialSeed + slice + NUM_SLICES * round) % TWO_TO_32
  }

  /**
   * Within 2^28 consecutive rounds no two (slice, round) pairs share a seed,
   * so every slice of every such round is filled with its own stream.
   */
  lemma SeedsDistinct(initialSeed: nat, s1: nat, r1: nat, s2: nat, r2: nat)
    requires s1 < NUM_SLICES && s2 < NUM_SLICES
    requires r1 <= r2 < r1 + 0x1000_0000
    requires (s1, r1) != (s2, r2)
    ensures SliceSeed(initialSeed, s1, r1) != SliceSeed(initialSeed, s2, r2)
  {
    var a := initialSeed + s1 + NUM_SLICES * r1;
    var b := initialSeed + s2 + NUM_SLICES * r2;
    if r1 == r2 {
      assert a != b;
    } else {
      assert NUM_SLICES * r2 >= NUM_SLICES * (r1 + 1);
      assert a < b;
    }
    assert 0 < b - a < TWO_TO_32 || 0 < a - b < TWO_TO_32;
  }

  // ---------------------------------------------------------------------------
  // Blocks of a slice

  /** The blocks cover [first, last) in order: each starts where the previous ended and holds 1..spb sectors, all but the last exactly spb. */
  predicate Tiles(starts: seq<nat>, counts: seq<nat>, first: nat, last: nat, spb: nat)
  {
    && |starts| == |counts|
    && (|starts| == 0 <==> first >= last)
    && (|starts| > 0 ==> starts[0] == first && starts[|starts| - 1] + counts[|counts| - 1] == last)
    && (forall b :: 0 <= b < |starts| - 1 ==> starts[b + 1] == starts[b] + counts[b] && counts[b] == spb)
    && (forall b :: 0 <= b < |counts| ==> 0 < counts[b] <= spb)
  }

  /**
   * The block loop of `endurance_test_write_slice`: full blocks of
   * `sectorsPerBlock` sectors from the slice start, and a shorter last block
   * where the slice end cuts one off. A zero block size would never advance,
   * so it is excluded.
   */
  method SliceBlocks(n: nat, slice: nat, sectorsPerBlock: nat) returns (starts: seq<nat>, counts: seq<nat>)
    requires slice < NUM_SLICES && sectorsPerBlock > 0
    ensures Tiles(starts, counts, SliceStart(n, slice), SliceEnd(n, slice), sectorsPerBlock)
  {
    var last := SliceEnd(n, slice);
    var cur := SliceStart(n, slice);
    starts, counts := [], [];
    while cur < last
      invariant |starts| == |counts|
      invariant |starts| == 0 ==> cur == SliceStart(n, slice)
      invariant |starts| > 0 ==> starts[0] == SliceStart(n, slice) && starts[|starts| - 1] + counts[|counts| - 1] == cur && cur <= last
      invariant forall b :: 0 <= b < |starts| - 1 ==> starts[b + 1] == starts[b] + counts[b] && counts[b] == sectorsPerBlock
      invariant forall b :: 0 <= b < |counts| ==> 0 < counts[b] <= sectorsPerBlock
      invariant |counts| > 0 && cur < last ==> counts[|counts| - 1] == sectorsPerBlock
      decreases last - cur
    {
      var inBlock := if cur + sectorsPerBlock > last then last - cur else sectorsPerBlock;
      starts, counts := starts + [cur], counts + [inBlock];
      cur := cur + inBlock;
    }
  }
}
