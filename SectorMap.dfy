/**
 * The endurance test's sector map (mfst.c): one flag byte per physical
 * sector, updated in place, together with the running count of sectors whose
 * FAILED bit is set.
 */
module SectorMap {
  import opened Flags

  /** `s` with `bit` OR-ed into every sector of [start, end). */
  function WithFlagInRange(s: seq<bv8>, start: nat, end: nat, bit: bv8): (r: seq<bv8>)
    ensures |r| == |s|
  {
    seq(|s|, i requires 0 <= i < |s| => if start <= i < end then s[i] | bit else s[i])
  }

  /** Flagging one more sector extends the flagged range by one. */
  lemma WithFlagStep(s: seq<bv8>, start: nat, i: nat, bit: bv8)
    requires start <= i < |s|
    ensures WithFlagInRange(s, start, i, bit)[i] == s[i]
    ensures WithFlagInRange(s, start, i, bit)[i := s[i] | bit] == WithFlagInRange(s, start, i + 1, bit)
  {
  }

  /** Two ends that cover the same sectors of the map flag the same sectors. */
  lemma WithFlagSameRange(s: seq<bv8>, start: nat, a: nat, b: nat, bit: bv8)
    requires a == b || (a <= start && b <= start) || (a >= |s| && b >= |s|)
    ensures WithFlagInRange(s, start, a, bit) == WithFlagInRange(s, start, b, bit)
  {
  }

  /** `s` with every sector of [start, end) stripped down to its persistent flags. */
  function ResetInRange(s: seq<bv8>, start: nat, end: nat): (r: seq<bv8>)
    ensures |r| == |s|
  {
    seq(|s|, i requires 0 <= i < |s| => if start <= i < end then s[i] & PERSISTENT else s[i])
  }

  /**
   * Marking a range touches only `bit`: every other bit of every sector is
   * kept, `bit` is set exactly in the range or where it already was.
   */
  lemma WithFlagInRangeOnlyOwnBit(s: seq<bv8>, start: nat, end: nat, bit: bv8, i: nat)
    requires i < |s|
    ensures WithFlagInRange(s, start, end, bit)[i] & !bit == s[i] & !bit
    ensures (WithFlagInRange(s, start, end, bit)[i] & bit == bit) <==> (start <= i < end || s[i] & bit == bit)
  {
  }

  /** Marking sectors written or read leaves the number of failed sectors alone. */
  lemma WithFlagKeepsFailedCount(s: seq<bv8>, start: nat, end: nat, bit: bv8)
    requires bit & FAILED == 0
    ensures CountFailed(WithFlagInRange(s, start, end, bit)) == CountFailed(s)
  {
    CountFailedSameFailedBits(s, WithFlagInRange(s, start, end, bit));
  }

  /** A reset keeps only DO_NOT_USE and FAILED inside the range and nothing changes outside it. */
  lemma ResetKeepsOnlyPersistent(s: seq<bv8>, start: nat, end: nat, i: nat)
    requires i < |s|
    ensures start <= i < end ==> ResetInRange(s, start, end)[i] & !PERSISTENT == 0
    ensures ResetInRange(s, start, end)[i] & PERSISTENT == s[i] & PERSISTENT
    ensures !(start <= i < end) ==> ResetInRange(s, start, end)[i] == s[i]
  {
  }

  /** Resetting twice is the same as resetting once. */
  lemma ResetIdempotent(s: seq<bv8>, start: nat, end: nat)
    ensures ResetInRange(ResetInRange(s, start, end), start, end) == ResetInRange(s, start, end)
  {
  }

  /** A reset leaves the number of failed sectors alone. */
  lemma ResetKeepsFailedCount(s: seq<bv8>, start: nat, end: nat)
    ensures CountFailed(ResetInRange(s, start, end)) == CountFailed(s)
  {
    CountFailedSameFailedBits(s, ResetInRange(s, start, end));
  }

  /**
   * The flag map of one device under test together with the counter of bad
   * sectors. `sectorMap.Length` is the number of physical sectors.
   */
  class EnduranceSectorMap {
    var sectorMap: array<bv8>
    var totalBadSectors: nat

    /** The counter invariant: `total_bad_sectors` is the number of FAILED sectors. */
    ghost predicate Valid()
      reads this, sectorMap
    {
      totalBadSectors == CountFailed(sectorMap[..])
    }

    /** A fresh, all-clear sector map of `numPhysicalSectors` entries (mfst.c main). */
    constructor (numPhysicalSectors: nat)
      ensures fresh(sectorMap) && sectorMap.Length == numPhysicalSectors
      ensures forall i :: 0 <= i < numPhysicalSectors ==> sectorMap[i] == 0
      ensures totalBadSectors == 0 && Valid()
    {
      sectorMap := new bv8[numPhysicalSectors](_ => 0);
      totalBadSectors := 0;
      new;
      CountFailedSameFailedBits(sectorMap[..], seq(numPhysicalSectors, _ => 0 as bv8));
      ZeroMapHasNoFailures(numPhysicalSectors);
    }

    static lemma {:induction false} ZeroMapHasNoFailures(n: nat)
      ensures CountFailed(seq(n, _ => 0 as bv8)) == 0
    {
      if n > 0 {
        assert seq(n, _ => 0 as bv8)[..n - 1] == seq(n - 1, _ => 0 as bv8);
        ZeroMapHasNoFailures(n - 1);
      }
    }

    /** Sets WRITTEN_THIS_ROUND on [start, min(end, number of sectors)). */
    method MarkSectorsWritten(start: nat, end: nat)
      modifies sectorMap
      ensures sectorMap[..] == WithFlagInRange(old(sectorMap[..]), start, end, WRITTEN_THIS_ROUND)
      ensures old(Valid()) ==> Valid()
    {
      MarkRange(start, end, WRITTEN_THIS_ROUND);
    }

    /** Sets READ_THIS_ROUND on [start, min(end, number of sectors)). */
    method MarkSectorsRead(start: nat, end: nat)
      modifies sectorMap
      ensures sectorMap[..] == WithFlagInRange(old(sectorMap[..]), start, end, READ_THIS_ROUND)
      ensures old(Valid()) ==> Valid()
    {
      MarkRange(start, end, READ_THIS_ROUND);
    }

    method MarkRange(start: nat, end: nat, bit: bv8)
      requires bit & FAILED == 0
      modifies sectorMap
      ensures sectorMap[..] == WithFlagInRange(old(sectorMap[..]), start, end, bit)
      ensures old(Valid()) ==> Valid()
    {
      ghost var orig := sectorMap[..];
      var i := start;
      while i < end && i < sectorMap.Length
        invariant start <= i && (i <= end || i == start)
        invariant sectorMap[..] == WithFlagInRange(orig, start, i, bit)
        decreases end - i
      {
        WithFlagStep(orig, start, i, bit);
        sectorMap[i] := sectorMap[i] | bit;
        i := i + 1;
      }
      WithFlagSameRange(orig, start, i, end, bit);
      WithFlagKeepsFailedCount(orig, start, end, bit);
    }

    /**
     * Marks one sector bad: the counter goes up exactly when the sector was
     * not already FAILED, and FAILED and FAILED_THIS_ROUND are then set.
     */
    method MarkSectorBad(sector: nat)
      requires sector < sectorMap.Length
      modifies this, sectorMap
      ensures sectorMap == old(sectorMap)
      ensures totalBadSectors == old(totalBadSectors) + (if IsFailed(old(sectorMap[sector])) then 0 else 1)
      ensures sectorMap[..] == old(sectorMap[..])[sector := old(sectorMap[sector]) | FAILED_THIS_ROUND | FAILED]
      ensures old(Valid()) ==> Valid()
    {
      if sectorMap[sector] & FAILED == 0 {
        totalBadSectors := totalBadSectors + 1;
      }
      sectorMap[sector] := sectorMap[sector] | FAILED_THIS_ROUND | FAILED;
      CountFailedUpdate(old(sectorMap[..]), sector, sectorMap[sector]);
    }

    /** Whether the sector's FAILED bit is set. */
    method IsSectorBad(sector: nat) returns (bad: bool)
      requires sector < sectorMap.Length
      ensures bad <==> sectorMap[sector] & FAILED == FAILED
    {
      bad := sectorMap[sector] & FAILED != 0;
    }

    /** Start-of-round reset of every sector. */
    method ResetSectorMap()
      modifies sectorMap
      ensures sectorMap[..] == ResetInRange(old(sectorMap[..]), 0, sectorMap.Length)
      ensures old(Valid()) ==> Valid()
    {
      ResetSectorMapPartial(0, sectorMap.Length);
    }

    /** Reset of the sectors in [start, end), used when a slice has to be rewritten. */
    method ResetSectorMapPartial(start: nat, end: nat)
      requires end <= sectorMap.Length
      modifies sectorMap
      ensures sectorMap[..] == ResetInRange(old(sectorMap[..]), start, end)
      ensures old(Valid()) ==> Valid()
    {
      var j := start;
      while j < end
        invariant start <= j && (j <= end || j == start)
        invariant forall k :: 0 <= k < sectorMap.Length ==>
          sectorMap[k] == if start <= k < j then old(sectorMap[k]) & PERSISTENT else old(sectorMap[k])
        decreases end - j
      {
        sectorMap[j] := sectorMap[j] & PERSISTENT;
        j := j + 1;
      }
      assert forall k :: 0 <= k < sectorMap.Length ==>
        sectorMap[..][k] == ResetInRange(old(sectorMap[..]), start, end)[k];
      ResetKeepsFailedCount(old(sectorMap[..]), start, end);
    }

    /**
     * The length of the run of sectors from `start`, at most `maxSectors`
     * long, whose DO_NOT_USE bit is clear.
     */
    method MaxWritableSectors(start: nat, maxSectors: nat) returns (out: nat)
      requires start + maxSectors <= sectorMap.Length
      ensures out <= maxSectors
      ensures forall k :: start <= k < start + out ==> !IsUnwritable(sectorMap[k])
      ensures out < maxSectors ==> IsUnwritable(sectorMap[start + out])
    {
      out := 0;
      while out < maxSectors && sectorMap[start + out] & DO_NOT_USE == 0
        invariant out <= maxSectors
        invariant forall k :: start <= k < start + out ==> !IsUnwritable(sectorMap[k])
      {
        out := out + 1;
      }
    }

    /**
     * The length of the run of sectors from `start`, at most `maxSectors`
     * long, whose DO_NOT_USE bit is set.
     */
    method MaxUnwritableSectors(start: nat, maxSectors: nat) returns (out: nat)
      requires start + maxSectors <= sectorMap.Length
      ensures out <= maxSectors
      ensures forall k :: start <= k < start + out ==> IsUnwritable(sectorMap[k])
      ensures out < maxSectors ==> !IsUnwritable(sectorMap[start + out])
    {
      out := 0;
      while out < maxSectors && sectorMap[start + out] & DO_NOT_USE != 0
        invariant out <= maxSectors
        invariant forall k :: start <= k < start + out ==> IsUnwritable(sectorMap[k])
      {
        out := out + 1;
      }
    }

    /** Sets DO_NOT_USE on one sector; no other sector or bit changes. */
    method MarkSectorUnwritable(sector: nat)
      requires sector < sectorMap.Length
      modifies sectorMap
      ensures sectorMap[..] == old(sectorMap[..])[sector := old(sectorMap[sector]) | DO_NOT_USE]
      ensures old(Valid()) ==> Valid()
    {
      sectorMap[sector] := sectorMap[sector] | DO_NOT_USE;
      CountFailedUpdate(old(sectorMap[..]), sector, sectorMap[sector]);
    }

    /**
     * The recount after a saved state is loaded: every FAILED sector adds one
     * to the counter (which a new context starts at 0).
     */
    method RecountBadSectors()
      modifies this`totalBadSectors
      ensures sectorMap == old(sectorMap) && sectorMap[..] == old(sectorMap[..])
      ensures totalBadSectors == old(totalBadSectors) + CountFailed(sectorMap[..])
      ensures old(totalBadSectors) == 0 ==> Valid()
    {
      var j := 0;
      while j < sectorMap.Length
        invariant j <= sectorMap.Length
        invariant totalBadSectors == old(totalBadSectors) + CountFailed(sectorMap[..j])
      {
        CountFailedPrefix(sectorMap[..], j);
        assert sectorMap[..][..j + 1] == sectorMap[..j + 1] && sectorMap[..][..j] == sectorMap[..j];
        if sectorMap[j] & FAILED != 0 {
          totalBadSectors := totalBadSectors + 1;
        }
        j := j + 1;
      }
      assert sectorMap[..sectorMap.Length] == sectorMap[..];
    }
  }
}
