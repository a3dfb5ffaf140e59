/**
 * How a device is recognised by its data (device.c): the comparison of the
 * beginning-of-device (BOD) and middle-of-device (MOD) areas with the copies
 * the test kept, and the sampling of embedded device UUIDs.
 *
 * The device reads themselves are inputs: an area is the bytes the read
 * loops produced (sectors that failed to read or are unwritable already
 * zeroed), or None when a step before or during that read failed.
 */
module DeviceCompare {
  import Flags
  import Codec

  datatype Option<T> = None | Some(value: T)

  // ---------------------------------------------------------------------
  // compare_bod_mod_data
  // ---------------------------------------------------------------------

  /** The sector of `s` that starts at byte `off`. */
  function SectorAt(s: seq<bv8>, off: nat, size: nat): seq<bv8>
    requires off + size <= |s|
  {
    s[off..off + size]
  }

  /** A whole number of sectors is left after `off`. */
  predicate WholeSectorsFrom(len: nat, off: nat, size: nat)
  {
    size > 0 && off <= len && (len - off) % size == 0
  }

  /** Division by a positive sector size has a unique quotient and remainder. */
  lemma DivUnique(d: int, size: int, q: int, r: int)
    requires size > 0 && 0 <= r < size && d == q * size + r
    ensures d / size == q && d % size == r
  {
    var e := q - d / size;
    assert e * size == d % size - r;
  }

  lemma NextSector(len: nat, off: nat, size: nat)
    requires WholeSectorsFrom(len, off, size) && off < len
    ensures off + size <= len && WholeSectorsFrom(len, off + size, size)
    ensures (len - off) / size == (len - (off + size)) / size + 1
  {
    var d := len - off;
    var q := d / size;
    assert d == q * size;
    assert d - size == (q - 1) * size;
    DivUnique(d - size, size, q - 1, 0);
  }

  /** Number of sectors from byte `off` on on which `data` agrees with `expected`. */
  function MatchingFrom(data: seq<bv8>, expected: seq<bv8>, off: nat, size: nat): (m: nat)
    requires |data| == |expected| && WholeSectorsFrom(|expected|, off, size)
    ensures m <= (|expected| - off) / size
    decreases |expected| - off
  {
    if off == |expected| then 0
    else
      NextSector(|expected|, off, size);
      (if SectorAt(data, off, size) == SectorAt(expected, off, size) then 1 else 0)
        + MatchingFrom(data, expected, off + size, size)
  }

  /** Number of sectors of the area on which the bytes read agree with the kept copy. */
  function MatchingSectors(data: seq<bv8>, expected: seq<bv8>, size: nat): (m: nat)
    requires |data| == |expected| && WholeSectorsFrom(|expected|, 0, size)
  {
    MatchingFrom(data, expected, 0, size)
  }

  /** Every sector agrees exactly when the whole area agrees. */
  lemma {:induction false} AllMatchIffEqualFrom(data: seq<bv8>, expected: seq<bv8>, off: nat, size: nat)
    requires |data| == |expected| && WholeSectorsFrom(|expected|, off, size)
    ensures MatchingFrom(data, expected, off, size) == (|expected| - off) / size <==> data[off..] == expected[off..]
    decreases |expected| - off
  {
    if off < |expected| {
      NextSector(|expected|, off, size);
      AllMatchIffEqualFrom(data, expected, off + size, size);
      assert data[off..] == SectorAt(data, off, size) + data[off + size..];
      assert expected[off..] == SectorAt(expected, off, size) + expected[off + size..];
      if data[off..] == expected[off..] {
        assert SectorAt(data, off, size) == data[off..][..size];
        assert SectorAt(expected, off, size) == expected[off..][..size];
        assert data[off + size..] == data[off..][size..];
        assert expected[off + size..] == expected[off..][size..];
      }
    }
  }

  lemma AllMatchIffEqual(data: seq<bv8>, expected: seq<bv8>, size: nat)
    requires |data| == |expected| && WholeSectorsFrom(|expected|, 0, size)
    ensures MatchingSectors(data, expected, size) == |expected| / size <==> data == expected
  {
    AllMatchIffEqualFrom(data, expected, 0, size);
    assert data[0..] == data && expected[0..] == expected;
  }

  /**
   * The sector-by-sector count of one area: sectors are compared at byte
   * offsets 0, size, 2 size, ... of the buffer.
   */
  method CountMatchingSectors(data: seq<bv8>, expected: seq<bv8>, size: nat) returns (count: nat)
    requires |data| == |expected| && WholeSectorsFrom(|expected|, 0, size)
    ensures count == MatchingSectors(data, expected, size)
  {
    count := 0;
    var off: nat := 0;
    while off < |expected|
      invariant WholeSectorsFrom(|expected|, off, size)
      invariant count + MatchingFrom(data, expected, off, size) == MatchingSectors(data, expected, size)
      decreases |expected| - off
    {
      NextSector(|expected|, off, size);
      if data[off..off + size] == expected[off..off + size] {
        count := count + 1;
      }
      off := off + size;
    }
  }

  /**
   * compare_bod_mod_data. `bodRead` is None when allocating the read buffer,
   * querying the sector size, or a seek of the BOD read failed; `modRead` is
   * None when a seek of the MOD read failed. Returns 0 when the device holds
   * the expected data, 1 when it does not, -1 on an error.
   */
  method CompareBodModData(bodRead: Option<seq<bv8>>, modRead: Option<seq<bv8>>,
                           bod: seq<bv8>, mod: seq<bv8>, sectorSize: nat) returns (ret: int)
    requires |mod| == |bod| && WholeSectorsFrom(|bod|, 0, sectorSize)
    requires bodRead.Some? ==> |bodRead.value| == |bod|
    requires modRead.Some? ==> |modRead.value| == |mod|
    ensures ret == -1 <==> bodRead.None? || (bodRead.value != bod && modRead.None?)
    ensures ret == 0 <==>
      bodRead.Some? && (bodRead.value == bod
        || (modRead.Some? && (modRead.value == mod
          || MatchingSectors(bodRead.value, bod, sectorSize) + MatchingSectors(modRead.value, mod, sectorSize)
               >= |bod| / sectorSize)))
    ensures ret == -1 || ret == 0 || ret == 1
  {
    if bodRead.None? {
      return -1;
    }
    var threshold := |bod| / sectorSize;
    if bodRead.value == bod {
      return 0;
    }
    var matching := CountMatchingSectors(bodRead.value, bod, sectorSize);
    if modRead.None? {
      return -1;
    }
    if modRead.value == mod {
      return 0;
    }
    var modMatching := CountMatchingSectors(modRead.value, mod, sectorSize);
    matching := matching + modMatching;
    if matching >= threshold {
      return 0;
    }
    return 1;
  }

  /**
   * The partial-match threshold is half of all sectors compared: a device
   * is recognised as soon as half the sectors of the two areas together
   * agree, and never when fewer do.
   */
  lemma PartialMatchIsHalf(bodData: seq<bv8>, modData: seq<bv8>, bod: seq<bv8>, mod: seq<bv8>, sectorSize: nat)
    requires |mod| == |bod| && |bodData| == |bod| && |modData| == |mod| && WholeSectorsFrom(|bod|, 0, sectorSize)
    ensures var total := MatchingSectors(bodData, bod, sectorSize) + MatchingSectors(modData, mod, sectorSize);
            var sectors := 2 * (|bod| / sectorSize);
            total <= sectors && (total >= |bod| / sectorSize <==> 2 * total >= sectors)
  {
  }

  // ---------------------------------------------------------------------
  // compare_device_uuids
  // ---------------------------------------------------------------------

  /** How many sectors are sampled, and how many of them must carry the expected UUID. */
  const SECTORS_TO_CHECK: nat := 4096
  const MATCHES_NEEDED: nat := SECTORS_TO_CHECK / 2

  /** The scan of the sector map for sectors whose FAILED bit is set. */
  method CountBadSectors(sectorMap: seq<bv8>, numSectors: nat) returns (bad: nat)
    requires numSectors <= |sectorMap|
    ensures bad == Flags.CountFailed(sectorMap[..numSectors])
  {
    bad := 0;
    var k: nat := 0;
    while k < numSectors
      invariant k <= numSectors
      invariant bad == Flags.CountFailed(sectorMap[..k])
    {
      Flags.CountFailedPrefix(sectorMap, k);
      if sectorMap[k] & Flags.FAILED != 0 {
        bad := bad + 1;
      }
      k := k + 1;
    }
  }

  /** There are enough sectors not marked FAILED to draw every sample from. */
  predicate EnoughGoodSectors(sectorMap: seq<bv8>, numSectors: nat)
    requires numSectors <= |sectorMap|
  {
    numSectors >= Flags.CountFailed(sectorMap[..numSectors]) + SECTORS_TO_CHECK
  }

  /**
   * The sectors chosen from the random 64-bit values `draws`, taken in order:
   * each value is reduced modulo the number of sectors and kept unless that
   * sector is marked FAILED, was already chosen, or enough were chosen.
   */
  function Selected(sectorMap: seq<bv8>, numSectors: nat, draws: seq<nat>): (r: seq<nat>)
    requires 0 < numSectors <= |sectorMap|
    ensures |r| <= SECTORS_TO_CHECK
    ensures forall i :: 0 <= i < |r| ==> r[i] < numSectors && !Flags.IsFailed(sectorMap[r[i]])
    ensures forall i, j :: 0 <= i < j < |r| ==> r[i] != r[j]
  {
    if draws == [] then []
    else
      var prev := Selected(sectorMap, numSectors, draws[..|draws| - 1]);
      var cur := draws[|draws| - 1] % numSectors;
      if |prev| < SECTORS_TO_CHECK && !Flags.IsFailed(sectorMap[cur]) && cur !in prev then prev + [cur] else prev
  }

  /** Whether `cur` is marked FAILED or among the first `count` chosen sectors. */
  method AlreadyExcluded(sectorMap: seq<bv8>, chosen: array<nat>, count: nat, cur: nat) returns (found: bool)
    requires cur < |sectorMap| && count <= chosen.Length
    ensures found <==> Flags.IsFailed(sectorMap[cur]) || cur in chosen[..count]
  {
    found := sectorMap[cur] & Flags.FAILED != 0;
    var j := 0;
    while j < count && !found
      invariant j <= count
      invariant found <==> Flags.IsFailed(sectorMap[cur]) || cur in chosen[..j]
      invariant !found ==> cur !in chosen[..j]
    {
      assert chosen[..j + 1] == chosen[..j] + [chosen[j]];
      if chosen[j] == cur {
        found := true;
      }
      j := j + 1;
    }
    if !found {
      assert j == count;
    }
  }

  lemma SelectedStep(sectorMap: seq<bv8>, numSectors: nat, draws: seq<nat>, used: nat)
    requires 0 < numSectors <= |sectorMap| && used < |draws|
    ensures var prev := Selected(sectorMap, numSectors, draws[..used]);
            var cur := draws[used] % numSectors;
            Selected(sectorMap, numSectors, draws[..used + 1])
              == if |prev| < SECTORS_TO_CHECK && !Flags.IsFailed(sectorMap[cur]) && cur !in prev then prev + [cur] else prev
  {
    assert draws[..used + 1][..used] == draws[..used];
  }

  /** One draw: its sector is appended to the chosen ones unless it is excluded. */
  method ChooseNext(sectorMap: seq<bv8>, numSectors: nat, draws: seq<nat>, used: nat, chosen: array<nat>, i: nat)
    returns (next: nat)
    requires 0 < numSectors <= |sectorMap| && used < |draws| && i < chosen.Length == SECTORS_TO_CHECK
    requires chosen[..i] == Selected(sectorMap, numSectors, draws[..used])
    modifies chosen
    ensures i <= next <= i + 1
    ensures chosen[..next] == Selected(sectorMap, numSectors, draws[..used + 1])
  {
    var cur := draws[used] % numSectors;
    SelectedStep(sectorMap, numSectors, draws, used);
    var found := AlreadyExcluded(sectorMap, chosen, i, cur);
    next := i;
    if !found {
      Append(chosen, i, cur);
      next := i + 1;
    }
  }

  /** Stores `cur` after the first i chosen sectors. */
  method Append(chosen: array<nat>, i: nat, cur: nat)
    requires i < chosen.Length
    modifies chosen
    ensures chosen[..i + 1] == old(chosen[..i]) + [cur]
  {
    chosen[i] := cur;
    assert chosen[..i + 1] == chosen[..i] + [cur];
  }

  /** While fewer than the full sample are chosen, some draw is still unused. */
  lemma DrawsRemain(sectorMap: seq<bv8>, numSectors: nat, draws: seq<nat>, used: nat)
    requires 0 < numSectors <= |sectorMap| && used <= |draws|
    requires |Selected(sectorMap, numSectors, draws[..used])| < |Selected(sectorMap, numSectors, draws)|
    ensures used < |draws|
  {
    assert draws[..|draws|] == draws;
  }

  /**
   * The choice of the sectors to sample: random values are drawn until
   * SECTORS_TO_CHECK distinct sectors not marked FAILED have been chosen.
   * `used` is the number of values drawn.
   */
  method SelectSectorsToCheck(sectorMap: seq<bv8>, numSectors: nat, draws: seq<nat>) returns (chosen: seq<nat>, used: nat)
    requires 0 < numSectors <= |sectorMap|
    requires |Selected(sectorMap, numSectors, draws)| == SECTORS_TO_CHECK
    ensures used <= |draws| && chosen == Selected(sectorMap, numSectors, draws[..used])
    ensures |chosen| == SECTORS_TO_CHECK
  {
    var sectorsToCheck := new nat[SECTORS_TO_CHECK];
    var i := 0;
    used := 0;
    while i < SECTORS_TO_CHECK
      invariant used <= |draws| && i <= SECTORS_TO_CHECK
      invariant sectorsToCheck[..i] == Selected(sectorMap, numSectors, draws[..used])
      decreases |draws| - used
    {
      DrawsRemain(sectorMap, numSectors, draws, used);
      i := ChooseNext(sectorMap, numSectors, draws, used, sectorsToCheck, i);
      used := used + 1;
    }
    chosen := sectorsToCheck[..];
    assert sectorsToCheck[..] == sectorsToCheck[..i];
  }

  /** What reading one sampled sector gave. */
  datatype SampleRead = SeekError | ReadError | ShortRead(got: nat) | Sector(data: seq<bv8>)

  /**
   * A sample counts when the sector was read whole, its CRC-32C residue
   * (`residue`, computed over the whole sector) is zero and the UUID embedded
   * in it is the expected one.
   */
  predicate CarriesUuid(r: SampleRead, uuid: seq<bv8>, residue: seq<bv8> -> bv32)
  {
    r.Sector? && residue(r.data) == 0 && |r.data| >= Codec.KEY_AREA_END && Codec.EmbeddedUuid(r.data) == uuid
  }

  /** Number of the samples that carry the expected UUID. */
  function Matches(samples: seq<SampleRead>, uuid: seq<bv8>, residue: seq<bv8> -> bv32): (m: nat)
    ensures m <= |samples|
  {
    if samples == [] then 0
    else Matches(samples[..|samples| - 1], uuid, residue) + (if CarriesUuid(samples[|samples| - 1], uuid, residue) then 1 else 0)
  }

  lemma MatchesPrefix(samples: seq<SampleRead>, uuid: seq<bv8>, residue: seq<bv8> -> bv32, i: nat)
    requires i < |samples|
    ensures Matches(samples[..i + 1], uuid, residue) == Matches(samples[..i], uuid, residue) + (if CarriesUuid(samples[i], uuid, residue) then 1 else 0)
  {
    assert samples[..i + 1][..i] == samples[..i];
  }

  /** A longer prefix has at least as many matches, and at most one more per sample. */
  lemma {:induction false} MatchesGrow(samples: seq<SampleRead>, uuid: seq<bv8>, residue: seq<bv8> -> bv32, i: nat, j: nat)
    requires i <= j <= |samples|
    ensures Matches(samples[..i], uuid, residue) <= Matches(samples[..j], uuid, residue) <= Matches(samples[..i], uuid, residue) + (j - i)
    decreases j - i
  {
    if i < j {
      MatchesGrow(samples, uuid, residue, i, j - 1);
      MatchesPrefix(samples, uuid, residue, j - 1);
    }
  }

  /** Index of the first sample whose seek failed, or the number of samples if none did. */
  function FirstSeekError(samples: seq<SampleRead>): (p: nat)
    ensures p <= |samples|
    ensures forall k :: 0 <= k < p ==> !samples[k].SeekError?
    ensures p < |samples| ==> samples[p].SeekError?
  {
    if samples == [] then 0
    else if samples[0].SeekError? then 0
    else 1 + FirstSeekError(samples[1..])
  }

  /** The scan ends in a match: enough samples before the first failed seek carry the UUID. */
  predicate ScanMatches(samples: seq<SampleRead>, uuid: seq<bv8>, residue: seq<bv8> -> bv32)
  {
    Matches(samples[..FirstSeekError(samples)], uuid, residue) >= MATCHES_NEEDED
  }

  /**
   * The scan ends in an error: a seek fails while a match is still possible
   * and has not been reached.
   */
  predicate ScanFails(samples: seq<SampleRead>, uuid: seq<bv8>, residue: seq<bv8> -> bv32)
  {
    var p := FirstSeekError(samples);
    var m := Matches(samples[..p], uuid, residue);
    p < |samples| && m < MATCHES_NEEDED && m + (|samples| - p) >= MATCHES_NEEDED
  }

  /**
   * The sampling loop of compare_device_uuids over the outcomes of reading
   * the chosen sectors in order: unreadable, short and corrupt samples are
   * skipped, the scan stops with 0 as soon as MATCHES_NEEDED samples match,
   * with -1 on a failed seek, and with 1 once too few samples are left.
   */
  method CheckSamples(samples: seq<SampleRead>, uuid: seq<bv8>, residue: seq<bv8> -> bv32) returns (ret: int)
    requires |samples| == SECTORS_TO_CHECK
    ensures ret == 0 <==> ScanMatches(samples, uuid, residue)
    ensures ret == -1 <==> ScanFails(samples, uuid, residue)
    ensures ret == -1 || ret == 0 || ret == 1
  {
    ghost var p := FirstSeekError(samples);
    var matching := 0;
    var i := 0;
    while i < SECTORS_TO_CHECK && matching + (SECTORS_TO_CHECK - i) >= MATCHES_NEEDED
      invariant i <= p
      invariant matching == Matches(samples[..i], uuid, residue) < MATCHES_NEEDED
    {
      MatchesPrefix(samples, uuid, residue, i);
      if samples[i].SeekError? {
        return -1;
      }
      if CarriesUuid(samples[i], uuid, residue) {
        matching := matching + 1;
        if matching >= MATCHES_NEEDED {
          MatchesGrow(samples, uuid, residue, i + 1, p);
          return 0;
        }
      }
      i := i + 1;
    }
    MatchesGrow(samples, uuid, residue, i, p);
    return 1;
  }

  /** The outcomes of reading the chosen sectors, in the order they are checked. */
  function SampleReads(chosen: seq<nat>, readSector: nat -> SampleRead): (r: seq<SampleRead>)
    ensures |r| == |chosen|
  {
    seq(|chosen|, i requires 0 <= i < |chosen| => readSector(chosen[i]))
  }

  /**
   * compare_device_uuids. `sectorSize` is None when the sector size query
   * fails; `bufferReady` says whether the one-sector buffer was obtained;
   * `draws` are the random 64-bit values, `readSector` what reading each
   * sector gives, `residue` the CRC-32C of a whole sector. Returns 0 when at
   * least half the samples carry the expected UUID, 1 when they do not, -1
   * on an error or when fewer than SECTORS_TO_CHECK sectors are good.
   */
  method CompareDeviceUuids(deviceSize: nat, sectorSize: Option<nat>, bufferReady: bool, sectorMap: seq<bv8>, draws: seq<nat>,
                            readSector: nat -> SampleRead, uuid: seq<bv8>, residue: seq<bv8> -> bv32)
    returns (ret: int, ghost used: nat)
    requires sectorSize.Some? ==> sectorSize.value > 0 && deviceSize / sectorSize.value <= |sectorMap|
    requires sectorSize.Some? && EnoughGoodSectors(sectorMap, deviceSize / sectorSize.value)
             ==> |Selected(sectorMap, deviceSize / sectorSize.value, draws)| == SECTORS_TO_CHECK
    ensures ret == -1 || ret == 0 || ret == 1
    ensures used <= |draws|
    ensures ret != -1 ==> sectorSize.Some? && EnoughGoodSectors(sectorMap, deviceSize / sectorSize.value) && bufferReady
    ensures sectorSize.Some? && EnoughGoodSectors(sectorMap, deviceSize / sectorSize.value) && bufferReady ==>
      var samples := SampleReads(Selected(sectorMap, deviceSize / sectorSize.value, draws[..used]), readSector);
      (ret == 0 <==> ScanMatches(samples, uuid, residue)) && (ret == -1 <==> ScanFails(samples, uuid, residue))
  {
    used := 0;
    if sectorSize.None? {
      return -1, used;
    }
    var numSectors := deviceSize / sectorSize.value;
    var bad := CountBadSectors(sectorMap, numSectors);
    if numSectors < bad + SECTORS_TO_CHECK {
      return -1, used;
    }
    if !bufferReady {
      return -1, used;
    }
    var chosen;
    chosen, used := SelectSectorsToCheck(sectorMap, numSectors, draws);
    ret := CheckSamples(SampleReads(chosen, readSector), uuid, residue);
  }
}
