/**
 * Bits of the one-byte-per-sector flag map kept by the endurance test.
 * The header that defines them is not part of this model; the values are the
 * ones the code relies on: FAILED is bit 0x01 (it is the bit packed into the
 * state file and skipped when sampling UUIDs), WRITTEN/READ_THIS_ROUND are
 * 0x02/0x04 (the colour tests of the display), DO_NOT_USE is 0x08 (the
 * OR-mask 0x09 of the consolidated map), and FAILED_THIS_ROUND is one more
 * distinct bit.
 */
module Flags {
  const FAILED: bv8 := 0x01
  const WRITTEN_THIS_ROUND: bv8 := 0x02
  const READ_THIS_ROUND: bv8 := 0x04
  const DO_NOT_USE: bv8 := 0x08
  const FAILED_THIS_ROUND: bv8 := 0x10

  /** The flags that survive the start of a round. */
  const PERSISTENT: bv8 := DO_NOT_USE | FAILED

  predicate IsFailed(f: bv8) { f & FAILED != 0 }

  predicate IsUnwritable(f: bv8) { f & DO_NOT_USE != 0 }

  /** Number of sectors of `s` whose FAILED bit is set. */
  function CountFailed(s: seq<bv8>): (c: nat)
    ensures c <= |s|
  {
    if s == [] then 0
    else CountFailed(s[..|s| - 1]) + (if IsFailed(s[|s| - 1]) then 1 else 0)
  }

  /** Two maps that agree on every sector's FAILED bit have the same count. */
  lemma {:induction false} CountFailedSameFailedBits(s: seq<bv8>, t: seq<bv8>)
    requires |s| == |t|
    requires forall i :: 0 <= i < |s| ==> IsFailed(s[i]) == IsFailed(t[i])
    ensures CountFailed(s) == CountFailed(t)
  {
    if s != [] {
      CountFailedSameFailedBits(s[..|s| - 1], t[..|t| - 1]);
    }
  }

  /** Changing one sector changes the count by the change of its FAILED bit. */
  lemma {:induction false} CountFailedUpdate(s: seq<bv8>, k: nat, v: bv8)
    requires k < |s|
    ensures CountFailed(s[k := v]) + (if IsFailed(s[k]) then 1 else 0)
         == CountFailed(s) + (if IsFailed(v) then 1 else 0)
  {
    var t := s[k := v];
    if k == |s| - 1 {
      assert t[..|t| - 1] == s[..|s| - 1];
    } else {
      assert t[..|t| - 1] == s[..|s| - 1][k := v];
      CountFailedUpdate(s[..|s| - 1], k, v);
    }
  }

  /** Counting a prefix one sector longer adds that sector's FAILED bit. */
  lemma CountFailedPrefix(s: seq<bv8>, j: nat)
    requires j < |s|
    ensures CountFailed(s[..j + 1]) == CountFailed(s[..j]) + (if IsFailed(s[j]) then 1 else 0)
  {
    assert s[..j + 1][..j] == s[..j];
  }
}
