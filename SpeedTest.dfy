/**
 * The read/write speed probe and the SD card speed marks it reports
 * (device_speed_test.c). Speeds are exact reals here; the clock, the random
 * numbers and every read, write and seek are inputs.
 */
module SpeedTest {
  // ---------------------------------------------------------------------
  // Speed-mark qualifications
  // ---------------------------------------------------------------------

  /** The measured speeds: sequential in bytes per second, random in operations per second. */
  datatype Speeds = Speeds(sequentialWriteSpeed: real, sequentialReadSpeed: real, randomWriteIops: real, randomReadIops: real)

  datatype Mark = Class2 | Class4 | Class6 | Class10 | U1 | U3 | V6 | V10 | V30 | V60 | V90 | A1 | A2

  /** What the screen shows next to a mark. */
  datatype Verdict = Yes | No | Unknown

  predicate IsSequentialMark(m: Mark)
  {
    !(m == A1 || m == A2)
  }

  /** The sequential write speed, in bytes per second, a sequential mark asks for. */
  function SequentialThreshold(m: Mark): real
    requires IsSequentialMark(m)
  {
    match m
    case Class2 => 2000000.0
    case Class4 => 4000000.0
    case Class6 | V6 => 6000000.0
    case Class10 | U1 | V10 => 10000000.0
    case U3 | V30 => 30000000.0
    case V60 => 60000000.0
    case V90 => 90000000.0
  }

  /** The verdict print_class_marking_qualifications shows for a mark. */
  function ScreenVerdict(s: Speeds, m: Mark): Verdict
  {
    match m
    case A1 =>
      if s.randomReadIops == 0.0 || s.randomWriteIops == 0.0 then Unknown
      else if s.randomReadIops >= 2000.0 && s.randomWriteIops >= 500.0 then Yes else No
    case A2 =>
      if s.randomReadIops == 0.0 || s.randomWriteIops == 0.0 then Unknown
      else if s.randomReadIops >= 4000.0 && s.randomWriteIops >= 2000.0 then Yes else No
    case _ =>
      if s.sequentialWriteSpeed == 0.0 then Unknown
      else if s.sequentialWriteSpeed >= SequentialThreshold(m) then Yes else No
  }

  /** The Yes/No verdict probe_device_speeds writes to the log for a mark. */
  function LogVerdict(s: Speeds, m: Mark): bool
  {
    match m
    case A1 => s.sequentialWriteSpeed >= 10485760.0 && s.randomReadIops >= 1500.0 && s.randomWriteIops >= 500.0
    case A2 => s.sequentialWriteSpeed >= 10485760.0 && s.randomReadIops >= 4000.0 && s.randomWriteIops >= 2000.0
    case _ => s.sequentialWriteSpeed >= SequentialThreshold(m)
  }

  /** The Class marks qualify exactly from 2, 4, 6 and 10 MB/s on, and show Unknown without a write speed. */
  lemma ClassThresholds(s: Speeds)
    ensures s.sequentialWriteSpeed != 0.0 ==>
      && (ScreenVerdict(s, Class2) == Yes <==> s.sequentialWriteSpeed >= 2000000.0)
      && (ScreenVerdict(s, Class4) == Yes <==> s.sequentialWriteSpeed >= 4000000.0)
      && (ScreenVerdict(s, Class6) == Yes <==> s.sequentialWriteSpeed >= 6000000.0)
      && (ScreenVerdict(s, Class10) == Yes <==> s.sequentialWriteSpeed >= 10000000.0)
    ensures s.sequentialWriteSpeed == 0.0 <==> forall m :: IsSequentialMark(m) ==> ScreenVerdict(s, m) == Unknown
  {
    if s.sequentialWriteSpeed != 0.0 {
      assert ScreenVerdict(s, Class2) != Unknown;
    }
  }

  /** Marks that share a threshold always agree: V6 with Class 6, U1 and V10 with Class 10, V30 with U3. */
  lemma SharedThresholdsAgree(s: Speeds)
    ensures ScreenVerdict(s, V6) == ScreenVerdict(s, Class6)
    ensures ScreenVerdict(s, U1) == ScreenVerdict(s, Class10) && ScreenVerdict(s, V10) == ScreenVerdict(s, Class10)
    ensures ScreenVerdict(s, V30) == ScreenVerdict(s, U3)
  {
  }

  /**
   * The application marks need both random rates: Unknown unless both are
   * non-zero, and then A1 asks for 2000 read and 500 write operations per
   * second, A2 for 4000 and 2000; every A2 card is an A1 card.
   */
  lemma AppMarkThresholds(s: Speeds)
    ensures ScreenVerdict(s, A1) == Unknown <==> s.randomReadIops == 0.0 || s.randomWriteIops == 0.0
    ensures ScreenVerdict(s, A2) == Unknown <==> ScreenVerdict(s, A1) == Unknown
    ensures ScreenVerdict(s, A1) == Yes <==> s.randomReadIops >= 2000.0 && s.randomWriteIops >= 500.0
    ensures ScreenVerdict(s, A2) == Yes <==> s.randomReadIops >= 4000.0 && s.randomWriteIops >= 2000.0
    ensures ScreenVerdict(s, A2) == Yes ==> ScreenVerdict(s, A1) == Yes
  {
  }

  /** A faster card qualifies for every sequential mark a slower one does. */
  lemma SequentialMarksMonotone(s: Speeds, t: Speeds, m: Mark)
    requires IsSequentialMark(m) && 0.0 < s.sequentialWriteSpeed <= t.sequentialWriteSpeed
    ensures ScreenVerdict(s, m) == Yes ==> ScreenVerdict(t, m) == Yes
  {
  }

  /** For the sequential marks the log agrees with a screen that knows the write speed. */
  lemma LogAgreesOnSequentialMarks(s: Speeds, m: Mark)
    requires IsSequentialMark(m)
    ensures s.sequentialWriteSpeed != 0.0 ==> (LogVerdict(s, m) <==> ScreenVerdict(s, m) == Yes)
    ensures s.sequentialWriteSpeed == 0.0 ==> !LogVerdict(s, m)
  {
  }

  /**
   * For A1 the screen and the log follow different rules: the screen asks
   * for 2000 read IOPS and no sequential speed, the log for 1500 read IOPS
   * and 10 MiB/s, so each can say Yes where the other says No.
   */
  lemma A1ScreenAndLogDisagree()
    ensures var slow := Speeds(5000000.0, 5000000.0, 600.0, 2500.0);
            ScreenVerdict(slow, A1) == Yes && !LogVerdict(slow, A1)
    ensures var fast := Speeds(20000000.0, 20000000.0, 600.0, 1600.0);
            ScreenVerdict(fast, A1) == No && LogVerdict(fast, A1)
  {
  }

  // ---------------------------------------------------------------------
  // probe_device_speeds
  // ---------------------------------------------------------------------

  /**
   * The two draws joined into 64 bits. The first draw is shifted into the
   * high word. The second is an `int32_t` OR-ed into a `uint64_t`, so a draw
   * with bit 31 set is negative and sign-extends: the high word becomes all
   * ones, whatever the first draw was.
   */
  function JoinDraws(hi: nat, lo: nat): (j: nat)
    requires hi < 0x1_0000_0000 && lo < 0x1_0000_0000
    ensures j < 0x1_0000_0000_0000_0000
    ensures j % 0x1_0000_0000 == lo
    ensures j / 0x1_0000_0000 == if lo < 0x8000_0000 then hi else 0xFFFF_FFFF
  {
    (if lo < 0x8000_0000 then hi else 0xFFFF_FFFF) * 0x1_0000_0000 + lo
  }

  /**
   * The modulus of the sector choice: the sector count less one 4 KiB block,
   * as an unsigned 64-bit subtraction, so a device smaller than one block
   * wraps around to a huge range.
   */
  function SampleRange(numSectors: nat, sectorSize: nat): (m: nat)
    requires sectorSize != 0 && numSectors < 0x1_0000_0000_0000_0000
    ensures m < 0x1_0000_0000_0000_0000
    ensures numSectors >= 4096 / sectorSize ==> m == numSectors - 4096 / sectorSize
    ensures numSectors < 4096 / sectorSize ==> m > numSectors
  {
    (numSectors - 4096 / sectorSize) % 0x1_0000_0000_0000_0000
  }

  /**
   * The sector a random-access operation uses: the joined draws with the
   * sign bit dropped, reduced modulo the sample range, and the low three
   * bits cleared, which on these unsigned values rounds down to a multiple
   * of 8 sectors. A zero sample range is a division by zero in the source.
   */
  function RandomSector(hi: nat, lo: nat, numSectors: nat, sectorSize: nat): (cur: nat)
    requires hi < 0x1_0000_0000 && lo < 0x1_0000_0000
    requires sectorSize != 0 && numSectors < 0x1_0000_0000_0000_0000
    requires SampleRange(numSectors, sectorSize) != 0
    ensures cur % 8 == 0
    ensures cur < SampleRange(numSectors, sectorSize)
    ensures var v := JoinDraws(hi, lo) % 0x8000_0000_0000_0000 % SampleRange(numSectors, sectorSize);
            cur <= v < cur + 8
  {
    var v := JoinDraws(hi, lo) % 0x8000_0000_0000_0000 % SampleRange(numSectors, sectorSize);
    v - v % 8
  }

  /** A second draw with bit 31 set hides the first draw entirely. */
  lemma SecondDrawSignHidesFirst(hi1: nat, hi2: nat, lo: nat, numSectors: nat, sectorSize: nat)
    requires hi1 < 0x1_0000_0000 && hi2 < 0x1_0000_0000 && 0x8000_0000 <= lo < 0x1_0000_0000
    requires sectorSize != 0 && numSectors < 0x1_0000_0000_0000_0000
    requires SampleRange(numSectors, sectorSize) != 0
    ensures RandomSector(hi1, lo, numSectors, sectorSize) == RandomSector(hi2, lo, numSectors, sectorSize)
  {
  }

  /**
   * Two draws 0 and 0x8000_0000 on a device of 2^40 + 8 sectors of 512
   * bytes: the sign-extended high word puts the sector at 0xFF_8000_0000,
   * not at 0x8000_0000.
   */
  lemma SignExtendedSector()
    ensures RandomSector(0, 0x8000_0000, 0x100_0000_0008, 512) == 0xFF_8000_0000
  {
    assert JoinDraws(0, 0x8000_0000) == 0xFFFF_FFFF_8000_0000;
    assert 0xFFFF_FFFF_8000_0000 % 0x8000_0000_0000_0000 == 0x7FFF_FFFF_8000_0000;
    assert SampleRange(0x100_0000_0008, 512) == 0x100_0000_0000;
    assert 0x7FFF_FFFF_8000_0000 % 0x100_0000_0000 == 0xFF_8000_0000;
  }

  /** A device of 4 sectors of 512 bytes is smaller than one 4 KiB block: the range wraps past the device. */
  lemma SmallDeviceRangeWraps()
    ensures SampleRange(4, 512) == 0x1_0000_0000_0000_0000 - 4
  {
  }

  /**
   * One read or write of a pass: whether the seek to a random sector
   * succeeded (random passes only), what the transfer returned (-1 on an
   * error, else the byte count), and the elapsed seconds read afterwards.
   */
  datatype Transfer = Transfer(seekOk: bool, ret: int, secsAfter: real)

  /** One of the four timed passes: whether the seek to the start succeeded (sequential passes only) and its transfers. */
  datatype Pass = Pass(startSeekOk: bool, transfers: seq<Transfer>)

  predicate WellFormedPass(p: Pass)
  {
    && (forall j :: 0 <= j < |p.transfers| ==> p.transfers[j].ret >= -1)
    && exists j :: 0 <= j < |p.transfers| && p.transfers[j].secsAfter >= 30.0
  }

  /** The transfer after which the 30 seconds are up. */
  function DoneIndex(ts: seq<Transfer>): (d: nat)
    requires exists j :: 0 <= j < |ts| && ts[j].secsAfter >= 30.0
    ensures d < |ts| && ts[d].secsAfter >= 30.0
    ensures forall k :: 0 <= k < d ==> ts[k].secsAfter < 30.0
  {
    if ts[0].secsAfter >= 30.0 then 0
    else
      var j :| 0 <= j < |ts| && ts[j].secsAfter >= 30.0;
      assert ts[1..][j - 1] == ts[j];
      1 + DoneIndex(ts[1..])
  }

  predicate TransferFails(random: bool, t: Transfer)
  {
    (random && !t.seekOk) || t.ret == -1
  }

  /** The pass ends in an error: its starting seek, or a seek or transfer within the 30 seconds, fails. */
  predicate PassFails(random: bool, p: Pass)
    requires WellFormedPass(p)
  {
    (!random && !p.startSeekOk)
    || exists j :: 0 <= j <= DoneIndex(p.transfers) && TransferFails(random, p.transfers[j])
  }

  /** What a pass counts over its first n transfers: operations for a random pass, bytes for a sequential one. */
  function PassCount(random: bool, ts: seq<Transfer>, n: nat): int
    requires n <= |ts|
  {
    if n == 0 then 0 else PassCount(random, ts, n - 1) + (if random then 1 else ts[n - 1].ret)
  }

  /** The speed a completed pass records: its count over the elapsed time. */
  function PassRate(random: bool, p: Pass): real
    requires WellFormedPass(p)
  {
    var d := DoneIndex(p.transfers);
    (PassCount(random, p.transfers, d + 1) as real) / p.transfers[d].secsAfter
  }

  /**
   * One timed pass of probe_device_speeds: transfers are issued until the
   * clock reads 30 seconds; ok is false if a seek or transfer fails first.
   */
  method RunPass(random: bool, p: Pass) returns (ok: bool, rate: real)
    requires WellFormedPass(p)
    ensures ok <==> !PassFails(random, p)
    ensures ok ==> rate == PassRate(random, p)
  {
    if !random && !p.startSeekOk {
      return false, 0.0;
    }
    var ts := p.transfers;
    ghost var d := DoneIndex(ts);
    var ctr := 0;
    var secs := 0.0;
    var j := 0;
    while secs < 30.0
      invariant j <= d + 1
      invariant j == 0 ==> secs == 0.0
      invariant j > 0 ==> secs == ts[j - 1].secsAfter
      invariant forall k :: 0 <= k < j ==> !TransferFails(random, ts[k])
      invariant ctr == PassCount(random, ts, j)
      decreases d + 1 - j
    {
      var t := ts[j];
      if random && !t.seekOk {
        return false, 0.0;
      }
      if t.ret == -1 {
        return false, 0.0;
      }
      ctr := ctr + (if random then 1 else t.ret);
      secs := t.secsAfter;
      j := j + 1;
    }
    assert j == d + 1;
    return true, (ctr as real) / secs;
  }

  /** The measured speeds the speed test keeps for the whole run. */
  class DeviceSpeeds {
    var sequentialWriteSpeed: real
    var sequentialReadSpeed: real
    var randomWriteIops: real
    var randomReadIops: real

    constructor ()
      ensures sequentialWriteSpeed == 0.0 && sequentialReadSpeed == 0.0
      ensures randomWriteIops == 0.0 && randomReadIops == 0.0
    {
      sequentialWriteSpeed := 0.0;
      sequentialReadSpeed := 0.0;
      randomWriteIops := 0.0;
      randomReadIops := 0.0;
    }

    function Current(): Speeds
      reads this
    {
      Speeds(sequentialWriteSpeed, sequentialReadSpeed, randomWriteIops, randomReadIops)
    }

    /**
     * probe_device_speeds. The passes run in the order sequential read,
     * sequential write, random read, random write. Every speed is zeroed
     * first; a pass records its speed when it completes, and the probe stops
     * with -1 at the first pass that fails, or before any I/O when the lock
     * file or the buffer cannot be had.
     */
    method ProbeDeviceSpeeds(locked: bool, bufferReady: bool,
                             seqRead: Pass, seqWrite: Pass, randRead: Pass, randWrite: Pass) returns (ret: int)
      requires WellFormedPass(seqRead) && WellFormedPass(seqWrite) && WellFormedPass(randRead) && WellFormedPass(randWrite)
      modifies this
      ensures ret == 0 || ret == -1
      ensures ret == 0 <==> locked && bufferReady && !PassFails(false, seqRead) && !PassFails(false, seqWrite)
                            && !PassFails(true, randRead) && !PassFails(true, randWrite)
      ensures var started := locked && bufferReady;
        && sequentialReadSpeed == (if started && !PassFails(false, seqRead) then PassRate(false, seqRead) else 0.0)
        && sequentialWriteSpeed == (if started && !PassFails(false, seqRead) && !PassFails(false, seqWrite)
                                    then PassRate(false, seqWrite) else 0.0)
        && randomReadIops == (if ret == 0 || (started && !PassFails(false, seqRead) && !PassFails(false, seqWrite)
                                              && !PassFails(true, randRead))
                              then PassRate(true, randRead) else 0.0)
        && randomWriteIops == (if ret == 0 then PassRate(true, randWrite) else 0.0)
    {
      sequentialWriteSpeed := 0.0;
      sequentialReadSpeed := 0.0;
      randomWriteIops := 0.0;
      randomReadIops := 0.0;
      if !locked || !bufferReady {
        return -1;
      }
      var ok, rate := RunPass(false, seqRead);
      if !ok {
        return -1;
      }
      sequentialReadSpeed := rate;
      ok, rate := RunPass(false, seqWrite);
      if !ok {
        return -1;
      }
      sequentialWriteSpeed := rate;
      ok, rate := RunPass(true, randRead);
      if !ok {
        return -1;
      }
      randomReadIops := rate;
      ok, rate := RunPass(true, randWrite);
      if !ok {
        return -1;
      }
      randomWriteIops := rate;
      return 0;
    }
  }
}
