/**
 * The per-device random number generator (rng.c). The underlying
 * `initstate_r`/`srandom_r`/`random_r` generator is not part of this model: it
 * is the parameter `gen`, where gen(seed, k) is the k-th output (in
 * [0, 0x7FFFFFFF]) after seeding with `seed`. Seeding therefore fixes every
 * later output.
 */
module Rng {
  import Codec

  const RANDOM_MAX: bv32 := 0x7FFF_FFFF

  /** The outputs of `random_r` lie in [0, 0x7FFFFFFF]. */
  ghost predicate Generator(gen: (bv32, nat) -> bv32)
  {
    forall seed, k :: gen(seed, k) <= RANDOM_MAX
  }

  /** The top bit `rng_get_random_number` adds: (seed & r & 1) | (~(seed & (r >> 1)) & 1). */
  function TopBit(seed: bv32, r: bv32): (b: bv32)
    ensures b <= 1
  {
    (seed & r & 1) | (!(seed & (r >> 1)) & 1)
  }

  /** An output of `random_r` with the top bit mixed in. */
  function Mix(seed: bv32, r: bv32): (m: bv32)
    requires r <= RANDOM_MAX
    ensures m & RANDOM_MAX == r
    ensures m >> 31 == TopBit(seed, r)
  {
    r | (TopBit(seed, r) << 31)
  }

  /** Bit 31 is set exactly when bit 0 of both seed and output is set, or bit 0 of the seed and bit 1 of the output are not both set. */
  lemma TopBitRule(seed: bv32, r: bv32)
    requires r <= RANDOM_MAX
    ensures Mix(seed, r) >= 0x8000_0000 <==> (seed & 1 == 1 && r & 1 == 1) || !(seed & 1 == 1 && r & 2 == 2)
  {
  }

  /** The bytes of `words` outputs, starting with output k after seeding, each stored little-endian. */
  function FillBytes(gen: (bv32, nat) -> bv32, seed: bv32, k: nat, words: nat): (b: seq<bv8>)
    requires Generator(gen)
    ensures |b| == 4 * words
    decreases words
  {
    if words == 0 then []
    else FillBytes(gen, seed, k, words - 1) + Codec.Le32Bytes(Mix(seed, gen(seed, k + words - 1)))
  }

  /**
   * Filling a words and then b words continues the same stream as filling
   * a + b words at once: how a slice is cut into blocks does not change its
   * data, provided every block is a whole number of 32-bit words.
   */
  lemma {:induction false} FillBytesConcat(gen: (bv32, nat) -> bv32, seed: bv32, k: nat, a: nat, b: nat)
    requires Generator(gen)
    ensures FillBytes(gen, seed, k, a) + FillBytes(gen, seed, k + a, b) == FillBytes(gen, seed, k, a + b)
    decreases b
  {
    if b > 0 {
      FillBytesConcat(gen, seed, k, a, b - 1);
      assert k + a + b - 1 == k + (a + b) - 1;
    }
  }

  /** The generator part of a device's testing context. */
  class RngState {
    var currentSeed: bv32
    /** Outputs drawn since the generator was last seeded. */
    var drawn: nat

    constructor ()
      ensures currentSeed == 0 && drawn == 0
    {
      currentSeed, drawn := 0, 0;
    }

    /** `rng_init`: records the seed and restarts the generator from it. */
    method Init(seed: bv32)
      modifies this
      ensures currentSeed == seed && drawn == 0
    {
      currentSeed, drawn := seed, 0;
    }

    /** `rng_reseed`: records the seed and reseeds the generator with it. */
    method Reseed(seed: bv32)
      modifies this
      ensures currentSeed == seed && drawn == 0
    {
      currentSeed, drawn := seed, 0;
    }

    /** `rng_get_random_number`: the next generator output with bit 31 mixed in. */
    method GetRandomNumber(gen: (bv32, nat) -> bv32) returns (result: bv32)
      requires Generator(gen)
      modifies this
      ensures currentSeed == old(currentSeed) && drawn == old(drawn) + 1
      ensures result == Mix(currentSeed, gen(currentSeed, old(drawn)))
    {
      var r := gen(currentSeed, drawn);
      drawn := drawn + 1;
      result := r | (TopBit(currentSeed, r) << 31);
    }

    /**
     * `rng_fill_buffer`: stores size / 4 outputs as 32-bit words; the last
     * size mod 4 bytes of the requested size are not written.
     */
    method FillBuffer(buffer: array<bv8>, size: nat, gen: (bv32, nat) -> bv32)
      requires Generator(gen) && size <= buffer.Length
      modifies this, buffer
      ensures currentSeed == old(currentSeed) && drawn == old(drawn) + size / 4
      ensures buffer[..4 * (size / 4)] == FillBytes(gen, currentSeed, old(drawn), size / 4)
      ensures buffer[4 * (size / 4)..] == old(buffer[4 * (size / 4)..])
    {
      ghost var orig := buffer[..];
      ghost var d0 := drawn;
      var i := 0;
      while i < size / 4
        invariant i <= size / 4
        invariant currentSeed == old(currentSeed) && drawn == d0 + i
        invariant buffer[..4 * i] == FillBytes(gen, currentSeed, d0, i)
        invariant buffer[4 * i..] == orig[4 * i..]
      {
        ghost var prev := buffer[..];
        FillBytesSnoc(gen, currentSeed, d0, i, drawn);
        var word := GetRandomNumber(gen);
        StoreWord(buffer, 4 * i, word);
        SuffixOfSuffix(prev, orig, 4 * i, 4);
        i := i + 1;
      }
      assert orig[4 * i..] == old(buffer[4 * i..]);
    }
  }

  /** One more word continues the stream with output number d = k + words. */
  lemma FillBytesSnoc(gen: (bv32, nat) -> bv32, seed: bv32, k: nat, words: nat, d: nat)
    requires Generator(gen) && d == k + words
    ensures FillBytes(gen, seed, k, words + 1) == FillBytes(gen, seed, k, words) + Codec.Le32Bytes(Mix(seed, gen(seed, d)))
  {
  }

  lemma SuffixOfSuffix(a: seq<bv8>, b: seq<bv8>, at: nat, n: nat)
    requires at + n <= |a| == |b| && a[at..] == b[at..]
    ensures a[at + n..] == b[at + n..]
  {
    assert a[at + n..] == a[at..][n..];
    assert b[at + n..] == b[at..][n..];
  }

  /** Stores one 32-bit word little-endian at `at`, leaving the rest of the buffer unchanged. */
  method StoreWord(buffer: array<bv8>, at: nat, word: bv32)
    requires at + 4 <= buffer.Length
    modifies buffer
    ensures buffer[..at + 4] == old(buffer[..at]) + Codec.Le32Bytes(word)
    ensures buffer[at + 4..] == old(buffer[at + 4..])
  {
    var bytes := Codec.Le32Bytes(word);
    buffer[at] := bytes[0];
    buffer[at + 1] := bytes[1];
    buffer[at + 2] := bytes[2];
    buffer[at + 3] := bytes[3];
    assert buffer[..at + 4] == old(buffer[..at]) + bytes;
  }
}
