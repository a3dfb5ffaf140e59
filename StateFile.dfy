/**
 * The state file (state.c): the sector map packed to one bit per sector, and
 * the loader's two validation passes, which must both succeed before anything
 * is stored. JSON parsing and Base64 are not part of this model: the parsed
 * file is a map from JSON pointer to value, and Base64 decoding is the
 * parameter `decode`.
 */
module StateFile {
  import Flags

  datatype Option<T> = None | Some(value: T)

  // ---------------------------------------------------------------------------
  // Packing the sector map

  /** The number of bytes of a packed map of n sectors: ceil(n / 8). */
  function PackedLength(n: nat): (len: nat)
    ensures 8 * len >= n && (len == 0 || 8 * (len - 1) < n)
  {
    n / 8 + (if n % 8 != 0 then 1 else 0)
  }

  /** The bit packed for sector index idx: its FAILED flag, or 0 past the last sector. */
  function SectorBit(s: seq<bv8>, n: nat, idx: nat): (b: bv8)
    requires n <= |s|
    ensures b <= 1
  {
    if idx < n then s[idx] & Flags.FAILED else 0
  }

  /** The byte after shifting in the bits of sectors base .. base + j - 1, first sector first. */
  function ShiftIn(s: seq<bv8>, n: nat, base: nat, j: nat): bv8
    requires n <= |s|
  {
    if j == 0 then 0 else (ShiftIn(s, n, base, j - 1) << 1) | SectorBit(s, n, base + j - 1)
  }

  /** The packed map: byte k holds sectors 8k .. 8k + 7, the first in the most significant bit. */
  function Packed(s: seq<bv8>, n: nat): (p: seq<bv8>)
    requires n <= |s|
    ensures |p| == PackedLength(n)
  {
    seq(PackedLength(n), k requires 0 <= k < PackedLength(n) => ShiftIn(s, n, 8 * k, 8))
  }

  /** Bit l (counting from the most significant) of a byte. */
  function BitFromTop(b: bv8, l: nat): bv8
    requires l < 8
  {
    (b >> (7 - l)) & 1
  }

  lemma ShiftInBits(s: seq<bv8>, n: nat, base: nat, l: nat)
    requires n <= |s| && l < 8
    ensures BitFromTop(ShiftIn(s, n, base, 8), l) == SectorBit(s, n, base + l)
  {
    var b0, b1, b2, b3 := SectorBit(s, n, base), SectorBit(s, n, base + 1), SectorBit(s, n, base + 2), SectorBit(s, n, base + 3);
    var b4, b5, b6, b7 := SectorBit(s, n, base + 4), SectorBit(s, n, base + 5), SectorBit(s, n, base + 6), SectorBit(s, n, base + 7);
    var x := ShiftIn(s, n, base, 8);
    var x0 := ShiftIn(s, n, base, 0);
    var x1 := ShiftIn(s, n, base, 1);
    var x2 := ShiftIn(s, n, base, 2);
    var x3 := ShiftIn(s, n, base, 3);
    var x4 := ShiftIn(s, n, base, 4);
    var x5 := ShiftIn(s, n, base, 5);
    var x6 := ShiftIn(s, n, base, 6);
    var x7 := ShiftIn(s, n, base, 7);
    assert x0 == 0;
    assert x1 == (x0 << 1) | b0;
    assert x2 == (x1 << 1) | b1;
    assert x3 == (x2 << 1) | b2;
    assert x4 == (x3 << 1) | b3;
    assert x5 == (x4 << 1) | b4;
    assert x6 == (x5 << 1) | b5;
    assert x7 == (x6 << 1) | b6;
    assert x == (x7 << 1) | b7;
    if l == 0 { assert BitFromTop(x, 0) == b0; }
    else if l == 1 { assert BitFromTop(x, 1) == b1; }
    else if l == 2 { assert BitFromTop(x, 2) == b2; }
    else if l == 3 { assert BitFromTop(x, 3) == b3; }
    else if l == 4 { assert BitFromTop(x, 4) == b4; }
    else if l == 5 { assert BitFromTop(x, 5) == b5; }
    else if l == 6 { assert BitFromTop(x, 6) == b6; }
    else { assert BitFromTop(x, 7) == b7; }
  }

  /**
   * Each sector's FAILED flag sits at bit 7 - (i mod 8) of byte i / 8, and the
   * padding bits of the last byte are zero.
   */
  lemma PackedLayout(s: seq<bv8>, n: nat, idx: nat)
    requires n <= |s| && idx < 8 * PackedLength(n)
    ensures BitFromTop(Packed(s, n)[idx / 8], idx % 8) == (if idx < n then s[idx] & Flags.FAILED else 0)
  {
    ShiftInBits(s, n, 8 * (idx / 8), idx % 8);
  }

  /**
   * The packing loop of `save_state`: for each group of eight sectors, shift
   * in each sector's FAILED bit, or a zero past the last sector.
   */
  method PackSectorMap(sectorMap: array<bv8>, n: nat) returns (packed: array<bv8>)
    requires n <= sectorMap.Length
    ensures fresh(packed)
    ensures packed[..] == Packed(sectorMap[..], n)
  {
    packed := new bv8[PackedLength(n)];
    var i, k := 0, 0;
    while i < n
      invariant i == 8 * k && k <= PackedLength(n)
      invariant i < n ==> k < PackedLength(n)
      invariant i >= n ==> k == PackedLength(n)
      invariant forall t :: 0 <= t < k ==> packed[t] == ShiftIn(sectorMap[..], n, 8 * t, 8)
    {
      packed[k] := 0;
      var j := 0;
      while j < 8
        invariant j <= 8
        invariant packed[k] == ShiftIn(sectorMap[..], n, i, j)
        invariant forall t :: 0 <= t < k ==> packed[t] == ShiftIn(sectorMap[..], n, 8 * t, 8)
      {
        if i + j < n {
          packed[k] := (packed[k] << 1) | (sectorMap[i + j] & 0x01);
        } else {
          packed[k] := packed[k] << 1;
        }
        j := j + 1;
      }
      i, k := i + 8, k + 1;
    }
    assert packed[..] == Packed(sectorMap[..], n);
  }

  // ---------------------------------------------------------------------------
  // Unpacking the sector map

  /** The flag byte a packed map restores for sector idx: the bit stored for it. */
  function UnpackedSector(packed: seq<bv8>, idx: nat): bv8
    requires idx / 8 < |packed|
  {
    BitFromTop(packed[idx / 8], idx % 8)
  }

  /** The flag bytes a packed map restores for n sectors. */
  function Unpacked(packed: seq<bv8>, n: nat): seq<bv8>
    requires |packed| == PackedLength(n)
  {
    seq(n, idx requires 0 <= idx < n => UnpackedSector(packed, idx))
  }

  /** Packing then unpacking restores each sector's FAILED flag and clears its other flags. */
  lemma PackUnpackRoundTrip(s: seq<bv8>, n: nat, idx: nat)
    requires n <= |s| && idx < n
    ensures idx / 8 < PackedLength(n)
    ensures UnpackedSector(Packed(s, n), idx) == s[idx] & Flags.FAILED
  {
    PackedLayout(s, n, idx);
  }

  /** The unpack loop's guard as written: sector 8k + l is restored only when k + l is below the packed length. */
  predicate RestoredAsWritten(idx: nat, packedLength: nat)
  {
    idx / 8 + idx % 8 < packedLength
  }

  /**
   * The unpack loop of `load_state` as written: for byte k and bit l it
   * restores sector 8k + l only when k + l < packed length. In byte n - 1 - j
   * of n packed bytes (j < 7) only the first j + 1 sectors are restored, so
   * once the map has at least seven bytes, 28 sectors of its last seven
   * bytes keep whatever the fresh allocation held.
   */
  method UnpackSectorMapAsWritten(packed: seq<bv8>, sectorMap: array<bv8>)
    requires |packed| == PackedLength(sectorMap.Length)
    modifies sectorMap
    ensures forall idx :: 0 <= idx < sectorMap.Length ==>
      sectorMap[idx] == if RestoredAsWritten(idx, |packed|) then UnpackedSector(packed, idx) else old(sectorMap[idx])
  {
    var k := 0;
    while k < |packed|
      invariant k <= |packed|
      invariant forall idx :: 0 <= idx < sectorMap.Length ==>
        sectorMap[idx] == if idx / 8 < k && RestoredAsWritten(idx, |packed|) then UnpackedSector(packed, idx) else old(sectorMap[idx])
    {
      var l := 0;
      while l < 8
        invariant l <= 8
        invariant forall idx :: 0 <= idx < sectorMap.Length ==>
          sectorMap[idx] == if (idx / 8 < k || (idx / 8 == k && idx % 8 < l)) && RestoredAsWritten(idx, |packed|)
                            then UnpackedSector(packed, idx) else old(sectorMap[idx])
      {
        if k + l < |packed| {
          assert 8 * k + l < sectorMap.Length;
          sectorMap[8 * k + l] := (packed[k] >> (7 - l)) & 0x01;
        }
        l := l + 1;
      }
      k := k + 1;
    }
  }

  /**
   * A map of 16 sectors packs to 2 bytes; the guard as written restores
   * exactly sectors 0, 1 and 8, and skips 2 to 7 and 9 to 15.
   */
  lemma UnpackAsWrittenSkipsSectors()
    ensures PackedLength(16) == 2
    ensures forall idx: nat :: idx < 16 ==> (RestoredAsWritten(idx, 2) <==> idx == 0 || idx == 1 || idx == 8)
  {
  }

  /**
   * Where the guard as written bites in a map of n packed bytes: every
   * sector of the first n - 7 bytes is restored, and in byte k only the
   * first n - k sectors are, so only the last seven bytes lose sectors.
   */
  lemma UnpackAsWrittenSkipsOnlyTail(n: nat, k: nat, l: nat)
    requires k < n && l < 8
    ensures k + 8 <= n ==> RestoredAsWritten(8 * k + l, n)
    ensures RestoredAsWritten(8 * k + l, n) <==> l < n - k
  {
    assert (8 * k + l) / 8 == k && (8 * k + l) % 8 == l;
  }

  /** The unpack loop with the guard 8k + l < n: every sector of the map is restored. */
  method UnpackSectorMap(packed: seq<bv8>, sectorMap: array<bv8>)
    requires |packed| == PackedLength(sectorMap.Length)
    modifies sectorMap
    ensures sectorMap[..] == Unpacked(packed, sectorMap.Length)
  {
    var k := 0;
    while k < |packed|
      invariant k <= |packed|
      invariant forall idx :: 0 <= idx < sectorMap.Length && idx / 8 < k ==> sectorMap[idx] == UnpackedSector(packed, idx)
    {
      var l := 0;
      while l < 8
        invariant l <= 8
        invariant forall idx :: 0 <= idx < sectorMap.Length && (idx / 8 < k || (idx / 8 == k && idx % 8 < l)) ==>
          sectorMap[idx] == UnpackedSector(packed, idx)
      {
        if 8 * k + l < sectorMap.Length {
          sectorMap[8 * k + l] := (packed[k] >> (7 - l)) & 0x01;
        }
        l := l + 1;
      }
      k := k + 1;
    }
    assert sectorMap[..] == Unpacked(packed, sectorMap.Length);
  }

  // ---------------------------------------------------------------------------
  // The loader's property table and validation

  /** The JSON types the loader can demand of a property. */
  datatype DeclaredType = StringType | IntType | DoubleType | BooleanType

  /** A parsed JSON value; objects and arrays are `Compound`, which no property accepts. */
  datatype JsonValue = Null | Str(s: string) | Int(i: int) | Double(d: real) | Boolean(b: bool) | Compound

  /** The JSON pointers the loader looks up. */
  datatype Pointer =
    | DeviceUuid
    | ReportedSize
    | DetectedSize
    | SectorSize
    | BlockSize
    | SequentialReadSpeed
    | SequentialWriteSpeed
    | RandomReadIops
    | RandomWriteIops
    | DisableCurses
    | StatsFile
    | LogFile
    | LockFile
    | StatsInterval
    | SectorMapData
    | BodData
    | ModData
    | RoundsCompleted
    | BytesRead
    | BytesWritten
    | FirstFailureRound
    | TenPercentFailureRound
    | TwentyFivePercentFailureRound

  /** The text of each pointer. */
  function PointerText(ptr: Pointer): string
  {
    match ptr
    case DeviceUuid => "/device_uuid"
    case ReportedSize => "/device_geometry/reported_size"
    case DetectedSize => "/device_geometry/detected_size"
    case SectorSize => "/device_geometry/sector_size"
    case BlockSize => "/device_info/block_size"
    case SequentialReadSpeed => "/device_info/sequential_read_speed"
    case SequentialWriteSpeed => "/device_info/sequential_write_speed"
    case RandomReadIops => "/device_info/random_read_iops"
    case RandomWriteIops => "/device_info/random_write_iops"
    case DisableCurses => "/program_options/disable_curses"
    case StatsFile => "/program_options/stats_file"
    case LogFile => "/program_options/log_file"
    case LockFile => "/program_options/lock_file"
    case StatsInterval => "/program_options/stats_interval"
    case SectorMapData => "/state/sector_map"
    case BodData => "/state/beginning_of_device_data"
    case ModData => "/state/middle_of_device_data"
    case RoundsCompleted => "/state/rounds_completed"
    case BytesRead => "/state/bytes_read"
    case BytesWritten => "/state/bytes_written"
    case FirstFailureRound => "/state/first_failure_round"
    case TenPercentFailureRound => "/state/ten_percent_failure_round"
    case TwentyFivePercentFailureRound => "/state/twenty_five_percent_failure_round"
  }

  /** The parsed state file, as the value at each JSON pointer that resolves. */
  type Document = map<Pointer, JsonValue>

  /** One row of the loader's tables: pointer, declared type, required, Base64-encoded. */
  datatype Property = Property(path: Pointer, declared: DeclaredType, required: bool, base64: bool)

  const PROPERTIES: seq<Property> := [
      Property(DeviceUuid, StringType, false, false),
      Property(ReportedSize, IntType, true, false),
      Property(DetectedSize, IntType, true, false),
      Property(SectorSize, IntType, true, false),
      Property(BlockSize, IntType, true, false),
      Property(SequentialReadSpeed, DoubleType, true, false),
      Property(SequentialWriteSpeed, DoubleType, true, false),
      Property(RandomReadIops, DoubleType, true, false),
      Property(RandomWriteIops, DoubleType, true, false),
      Property(DisableCurses, BooleanType, false, false),
      Property(StatsFile, StringType, false, false),
      Property(LogFile, StringType, false, false),
      Property(LockFile, StringType, false, false),
      Property(StatsInterval, IntType, false, false),
      Property(SectorMapData, StringType, true, true),
      Property(BodData, StringType, true, true),
      Property(ModData, StringType, true, true),
      Property(RoundsCompleted, IntType, true, false),
      Property(BytesRead, IntType, true, false),
      Property(BytesWritten, IntType, true, false),
      Property(FirstFailureRound, IntType, false, false),
      Property(TenPercentFailureRound, IntType, false, false),
      Property(TwentyFivePercentFailureRound, IntType, false, false)
  ]

  const DETECTED_SIZE := 2
  const SECTOR_SIZE := 3
  const BLOCK_SIZE := 4
  const SECTOR_MAP := 14
  const BOD_DATA := 15
  const MOD_DATA := 16
  const ROUNDS_COMPLETED := 17
  const FIRST_FAILURE_ROUND := 20
  const TEN_PERCENT_FAILURE_ROUND := 21
  const TWENTY_FIVE_PERCENT_FAILURE_ROUND := 22

  /** The only Base64 properties are the sector map and the BOD and MOD buffers. */
  lemma Base64Properties(idx: nat)
    requires idx < |PROPERTIES|
    ensures PROPERTIES[idx].base64 <==> idx == SECTOR_MAP || idx == BOD_DATA || idx == MOD_DATA
    ensures PROPERTIES[idx].base64 ==> PROPERTIES[idx].declared == StringType
  {
  }

  /** json_object_get_uint64 of an integer: a negative value reads as 0. */
  function Uint64Of(i: int): (n: nat)
    ensures n == 0 <==> i <= 0
  {
    if i < 0 then 0 else i
  }

  /** json_object_get_double of an integer or a double. */
  function DoubleOf(v: JsonValue): real
    requires v.Int? || v.Double?
  {
    if v.Int? then v.i as real else v.d
  }

  /** The value has exactly the JSON type t. */
  predicate HasType(v: JsonValue, t: DeclaredType)
  {
    match t
    case StringType => v.Str?
    case IntType => v.Int?
    case DoubleType => v.Double?
    case BooleanType => v.Boolean?
  }

  /** The type check of the first pass: a declared double also takes an integer. */
  predicate TypeAccepted(t: DeclaredType, v: JsonValue)
  {
    if t == DoubleType then v.Int? || v.Double? else HasType(v, t)
  }

  /** The first pass's verdict on a value that is present. */
  predicate ValueAccepted(p: Property, v: JsonValue, decode: string -> Option<seq<bv8>>)
  {
    v.Null? ||
    (TypeAccepted(p.declared, v) &&
     (p.declared == IntType ==> Uint64Of(v.i) != 0) &&
     (p.declared == DoubleType ==> DoubleOf(v) > 0.0) &&
     (p.declared == StringType && p.base64 ==> decode(v.s).Some?))
  }

  /** The first pass's verdict on one property: a missing one is rejected only when required. */
  predicate PropertyAccepted(p: Property, doc: Document, decode: string -> Option<seq<bv8>>)
  {
    if p.path in doc then ValueAccepted(p, doc[p.path], decode) else !p.required
  }

  predicate AllPropertiesAccepted(doc: Document, decode: string -> Option<seq<bv8>>)
  {
    forall idx :: 0 <= idx < |PROPERTIES| ==> PropertyAccepted(PROPERTIES[idx], doc, decode)
  }

  /** The property is present and not null, so the populate pass stores it. */
  predicate Populates(doc: Document, idx: nat)
    requires idx < |PROPERTIES|
  {
    PROPERTIES[idx].path in doc && !doc[PROPERTIES[idx].path].Null?
  }

  /** The bytes the first pass decodes for a Base64 property, and none for any other. */
  function DecodedValue(p: Property, doc: Document, decode: string -> Option<seq<bv8>>): seq<bv8>
  {
    if p.base64 && p.path in doc && doc[p.path].Str? && decode(doc[p.path].s).Some?
    then decode(doc[p.path].s).value else []
  }

  function Decoded(doc: Document, decode: string -> Option<seq<bv8>>, idx: nat): seq<bv8>
    requires idx < |PROPERTIES|
  {
    DecodedValue(PROPERTIES[idx], doc, decode)
  }

  /**
   * The size the first pass records for the detected size or the sector size;
   * when that property is null the variable is never assigned, and its
   * indeterminate value is the parameter `uninitialised`.
   */
  function SizeOf(doc: Document, idx: nat, uninitialised: nat): nat
    requires idx < |PROPERTIES|
  {
    if PROPERTIES[idx].path in doc && doc[PROPERTIES[idx].path].Int? then Uint64Of(doc[PROPERTIES[idx].path].i) else uninitialised
  }

  /** The number of sectors, detected size over sector size. */
  function NumSectors(detectedSize: nat, sectorSize: nat): nat
    requires sectorSize > 0
  {
    detectedSize / sectorSize
  }

  /** The decoded length the second pass demands of a Base64 property. */
  function ExpectedLength(idx: nat, numSectors: nat, bodModSize: nat): nat
  {
    if idx == SECTOR_MAP then PackedLength(numSectors) else bodModSize
  }

  /** The second pass's verdict: every Base64 property decoded to exactly its expected length. */
  predicate LengthsAccepted(doc: Document, decode: string -> Option<seq<bv8>>, numSectors: nat, bodModSize: nat)
  {
    forall idx :: 0 <= idx < |PROPERTIES| && PROPERTIES[idx].base64 ==>
      |Decoded(doc, decode, idx)| == ExpectedLength(idx, numSectors, bodModSize)
  }

  /** One iteration of the first pass: the checks on one property, and its decoded buffer. */
  method CheckProperty(p: Property, doc: Document, decode: string -> Option<seq<bv8>>) returns (ok: bool, buffer: seq<bv8>)
    ensures ok <==> PropertyAccepted(p, doc, decode)
    ensures ok ==> buffer == DecodedValue(p, doc, decode)
  {
    buffer := [];
    if p.required && p.path !in doc {
      return false, buffer;
    }
    if p.path in doc && !doc[p.path].Null? {
      var v := doc[p.path];
      if (p.declared == DoubleType && !v.Int? && !v.Double?) || (p.declared != DoubleType && !HasType(v, p.declared)) {
        return false, buffer;
      }
      if p.declared == IntType {
        if Uint64Of(v.i) == 0 {
          return false, buffer;
        }
      } else if p.declared == DoubleType {
        if DoubleOf(v) <= 0.0 {
          return false, buffer;
        }
      } else if p.declared == StringType && p.base64 {
        var decoded := decode(v.s);
        if decoded.None? {
          return false, buffer;
        }
        buffer := decoded.value;
      }
    }
    ok := true;
  }

  /** The first pass accepts properties 0 .. n - 1. */
  predicate AcceptedPrefix(doc: Document, decode: string -> Option<seq<bv8>>, n: nat)
  {
    forall t :: 0 <= t < n && t < |PROPERTIES| ==> PropertyAccepted(PROPERTIES[t], doc, decode)
  }

  /** The buffers the first pass has filled for properties 0 .. n - 1. */
  function DecodedPrefix(doc: Document, decode: string -> Option<seq<bv8>>, n: nat): (buffers: seq<seq<bv8>>)
    requires n <= |PROPERTIES|
    ensures |buffers| == n && forall t :: 0 <= t < n ==> buffers[t] == Decoded(doc, decode, t)
  {
    seq(n, t requires 0 <= t < n => Decoded(doc, decode, t))
  }

  lemma DecodedPrefixStep(doc: Document, decode: string -> Option<seq<bv8>>, n: nat)
    requires n < |PROPERTIES|
    ensures DecodedPrefix(doc, decode, n + 1) == DecodedPrefix(doc, decode, n) + [Decoded(doc, decode, n)]
  {
  }

  /** The first pass of `load_state`, which stops at the first property it rejects, recording the decoded buffers and the two sizes. */
  method ValidateProperties(doc: Document, decode: string -> Option<seq<bv8>>, uninitDetected: nat, uninitSectorSize: nat)
    returns (ok: bool, buffers: seq<seq<bv8>>, detectedSize: nat, sectorSize: nat)
    ensures ok <==> AllPropertiesAccepted(doc, decode)
    ensures ok ==> buffers == DecodedPrefix(doc, decode, |PROPERTIES|)
    ensures ok ==> detectedSize == SizeOf(doc, DETECTED_SIZE, uninitDetected)
    ensures ok ==> sectorSize == SizeOf(doc, SECTOR_SIZE, uninitSectorSize)
  {
    buffers, detectedSize, sectorSize := [], uninitDetected, uninitSectorSize;
    var i := 0;
    while i < |PROPERTIES|
      invariant 0 <= i <= |PROPERTIES|
      invariant AcceptedPrefix(doc, decode, i)
      invariant buffers == DecodedPrefix(doc, decode, i)
      invariant detectedSize == if i > DETECTED_SIZE then SizeOf(doc, DETECTED_SIZE, uninitDetected) else uninitDetected
      invariant sectorSize == if i > SECTOR_SIZE then SizeOf(doc, SECTOR_SIZE, uninitSectorSize) else uninitSectorSize
    {
      var p := PROPERTIES[i];
      var accepted, buffer := CheckProperty(p, doc, decode);
      if !accepted {
        ok := false;
        return;
      }
      if i == DETECTED_SIZE {
        detectedSize := RecordedSize(p, doc, decode, detectedSize);
      } else if i == SECTOR_SIZE {
        sectorSize := RecordedSize(p, doc, decode, sectorSize);
      }
      DecodedPrefixStep(doc, decode, i);
      buffers := buffers + [buffer];
      i := i + 1;
    }
    ok := true;
  }

  /** The size the first pass records from an accepted integer property, or the old value when it is null. */
  method RecordedSize(p: Property, doc: Document, decode: string -> Option<seq<bv8>>, current: nat) returns (size: nat)
    requires p.declared == IntType && PropertyAccepted(p, doc, decode)
    ensures size == if p.path in doc && doc[p.path].Int? then Uint64Of(doc[p.path].i) else current
  {
    size := current;
    if p.path in doc && !doc[p.path].Null? {
      size := Uint64Of(doc[p.path].i);
    }
  }

  /** The second pass of `load_state`: each Base64 buffer's length against its expected length. */
  method CheckLengths(bufferLengths: seq<nat>, numSectors: nat, bodModSize: nat) returns (ok: bool)
    requires |bufferLengths| == |PROPERTIES|
    ensures ok <==> forall idx :: 0 <= idx < |PROPERTIES| && PROPERTIES[idx].base64 ==>
                      bufferLengths[idx] == ExpectedLength(idx, numSectors, bodModSize)
  {
    var i := 0;
    while i < |PROPERTIES|
      invariant 0 <= i <= |PROPERTIES|
      invariant forall t :: 0 <= t < i && PROPERTIES[t].base64 ==> bufferLengths[t] == ExpectedLength(t, numSectors, bodModSize)
    {
      if PROPERTIES[i].base64 && bufferLengths[i] != ExpectedLength(i, numSectors, bodModSize) {
        return false;
      }
      i := i + 1;
    }
    return true;
  }

  /** The number of sectors the loader allocates and unpacks: detected size over sector size. */
  function NumSectorsOf(doc: Document, uninitDetected: nat, uninitSectorSize: nat): nat
  {
    var sectorSize := SizeOf(doc, SECTOR_SIZE, uninitSectorSize);
    // The first pass rejects a zero sector size; the test only makes the division total.
    if sectorSize == 0 then 0 else SizeOf(doc, DETECTED_SIZE, uninitDetected) / sectorSize
  }

  /** Both validation passes accept the file. */
  predicate StateFileAccepted(doc: Document, decode: string -> Option<seq<bv8>>, bodModSize: nat, uninitDetected: nat, uninitSectorSize: nat)
  {
    AllPropertiesAccepted(doc, decode) &&
    LengthsAccepted(doc, decode, NumSectorsOf(doc, uninitDetected, uninitSectorSize), bodModSize)
  }

  /** A missing required property rejects the whole file. */
  lemma MissingRequiredRejected(doc: Document, decode: string -> Option<seq<bv8>>, idx: nat)
    requires idx < |PROPERTIES| && PROPERTIES[idx].required && PROPERTIES[idx].path !in doc
    ensures !AllPropertiesAccepted(doc, decode)
  {
    assert !PropertyAccepted(PROPERTIES[idx], doc, decode);
  }

  /** A null value passes the first pass whatever its declared type, and is then not stored. */
  lemma NullSkipped(doc: Document, decode: string -> Option<seq<bv8>>, idx: nat)
    requires idx < |PROPERTIES| && PROPERTIES[idx].path in doc && doc[PROPERTIES[idx].path] == Null
    ensures PropertyAccepted(PROPERTIES[idx], doc, decode) && !Populates(doc, idx)
  {
  }

  /** A zero or negative integer rejects the file, a saved round count of 0 included. */
  lemma NonPositiveIntegerRejected(doc: Document, decode: string -> Option<seq<bv8>>, idx: nat, n: int)
    requires idx < |PROPERTIES| && PROPERTIES[idx].declared == IntType
    requires PROPERTIES[idx].path in doc && doc[PROPERTIES[idx].path] == Int(n) && n <= 0
    ensures !AllPropertiesAccepted(doc, decode)
  {
    assert !PropertyAccepted(PROPERTIES[idx], doc, decode);
  }

  /** A property declared double takes a positive integer, and no other property takes a value of another type. */
  lemma TypeRule(p: Property, v: JsonValue, decode: string -> Option<seq<bv8>>)
    requires !v.Null?
    ensures p.declared == DoubleType && v.Int? && v.i > 0 ==> ValueAccepted(p, v, decode)
    ensures p.declared != DoubleType && !HasType(v, p.declared) ==> !ValueAccepted(p, v, decode)
    ensures v.Compound? ==> !ValueAccepted(p, v, decode)
  {
  }

  /** The sector map that `save_state` packs for n sectors has the length the loader demands when the file describes n sectors. */
  lemma SavedMapLengthAccepted(s: seq<bv8>, n: nat, doc: Document, uninitDetected: nat, uninitSectorSize: nat, bodModSize: nat)
    requires n <= |s| && NumSectorsOf(doc, uninitDetected, uninitSectorSize) == n
    ensures |Packed(s, n)| == ExpectedLength(SECTOR_MAP, NumSectorsOf(doc, uninitDetected, uninitSectorSize), bodModSize)
  {
  }

  // ---------------------------------------------------------------------------
  // Populating the destinations

  /** A value the populate pass stores through `destinations[]`. */
  datatype Stored = Count(n: int) | Rate(r: real) | Switch(b: bool) | Text(s: string)

  /** json_object_get_int of a 64-bit integer, which saturates at the 32-bit range. */
  function Int32Of(i: int): (r: int)
    ensures -0x8000_0000 <= r <= 0x7FFF_FFFF
    ensures -0x8000_0000 <= i <= 0x7FFF_FFFF ==> r == i
  {
    if i > 0x7FFF_FFFF then 0x7FFF_FFFF else if i < -0x8000_0000 then -0x8000_0000 else i
  }

  /**
   * The value stored for property idx: the sector and block sizes as `int`,
   * the three failure rounds as `ssize_t`, the other integers as `size_t`.
   */
  function Converted(idx: nat, v: JsonValue): Stored
    requires idx < |PROPERTIES| && TypeAccepted(PROPERTIES[idx].declared, v)
  {
    match PROPERTIES[idx].declared
    case IntType =>
      if idx == SECTOR_SIZE || idx == BLOCK_SIZE then Count(Int32Of(v.i))
      else if idx == FIRST_FAILURE_ROUND || idx == TEN_PERCENT_FAILURE_ROUND || idx == TWENTY_FIVE_PERCENT_FAILURE_ROUND then Count(v.i)
      else Count(Uint64Of(v.i))
    case DoubleType => Rate(DoubleOf(v))
    case BooleanType => Switch(v.b)
    case StringType => Text(v.s)
  }

  /** Every value the populate pass stores has its declared type, so it can be converted. */
  predicate TypesAccepted(doc: Document)
  {
    forall idx :: 0 <= idx < |PROPERTIES| && Populates(doc, idx) ==> TypeAccepted(PROPERTIES[idx].declared, doc[PROPERTIES[idx].path])
  }

  lemma AcceptedTypes(doc: Document, decode: string -> Option<seq<bv8>>)
    requires AllPropertiesAccepted(doc, decode)
    ensures TypesAccepted(doc)
  {
    forall idx | 0 <= idx < |PROPERTIES| && Populates(doc, idx)
      ensures TypeAccepted(PROPERTIES[idx].declared, doc[PROPERTIES[idx].path])
    {
      assert PropertyAccepted(PROPERTIES[idx], doc, decode);
    }
  }

  /** The scalar and string destinations after the populate pass has stored properties 0 .. n - 1. */
  function PopulatedValues(doc: Document, before: seq<Stored>, n: nat): seq<Stored>
    requires |before| == |PROPERTIES| && TypesAccepted(doc)
  {
    seq(|before|, idx requires 0 <= idx < |before| =>
      if idx < n && Populates(doc, idx) && !PROPERTIES[idx].base64 then Converted(idx, doc[PROPERTIES[idx].path]) else before[idx])
  }

  /** Storing property i extends the populated prefix by one. */
  lemma PopulatedValuesStep(doc: Document, before: seq<Stored>, i: nat)
    requires |before| == |PROPERTIES| && TypesAccepted(doc) && i < |PROPERTIES|
    ensures PopulatedValues(doc, before, i + 1) ==
      if Populates(doc, i) && !PROPERTIES[i].base64
      then PopulatedValues(doc, before, i)[i := Converted(i, doc[PROPERTIES[i].path])]
      else PopulatedValues(doc, before, i)
  {
  }

  /** The globals `load_state` writes: one slot per scalar or string property, the sector map, and the BOD and MOD buffers. */
  class StateDestinations {
    var values: seq<Stored>
    var sectorMap: array?<bv8>
    var bodBuffer: array<bv8>
    var modBuffer: array<bv8>

    ghost predicate Valid()
      reads this
    {
      |values| == |PROPERTIES| && bodBuffer != modBuffer && sectorMap != bodBuffer && sectorMap != modBuffer
    }

    constructor(initial: Stored, bodModSize: nat)
      ensures Valid() && sectorMap == null
      ensures fresh(bodBuffer) && fresh(modBuffer)
      ensures values == seq(|PROPERTIES|, _ => initial)
      ensures bodBuffer.Length == bodModSize && modBuffer.Length == bodModSize
    {
      values := seq(|PROPERTIES|, _ => initial);
      sectorMap := null;
      bodBuffer := new bv8[bodModSize];
      modBuffer := new bv8[bodModSize];
    }
  }

  /** memcpy of a whole buffer. */
  method CopyAll(dest: array<bv8>, src: seq<bv8>)
    requires |src| == dest.Length
    modifies dest
    ensures dest[..] == src
  {
    forall t | 0 <= t < dest.Length {
      dest[t] := src[t];
    }
  }

  /** One iteration of the populate loop: property i, if present and not null, is stored in its destination; a scalar or string comes back as `stored`. */
  method PopulateOne(sectorMap: array<bv8>, bod: array<bv8>, mod: array<bv8>, doc: Document,
                     sectorMapBytes: seq<bv8>, bodBytes: seq<bv8>, modBytes: seq<bv8>, i: nat)
    returns (stored: Option<Stored>)
    requires i < |PROPERTIES| && TypesAccepted(doc)
    requires bod != mod && sectorMap != bod && sectorMap != mod
    requires Populates(doc, i) && i == SECTOR_MAP ==> |sectorMapBytes| == PackedLength(sectorMap.Length)
    requires Populates(doc, i) && i == BOD_DATA ==> |bodBytes| == bod.Length
    requires Populates(doc, i) && i == MOD_DATA ==> |modBytes| == mod.Length
    modifies sectorMap, bod, mod
    ensures stored == if Populates(doc, i) && !PROPERTIES[i].base64 then Some(Converted(i, doc[PROPERTIES[i].path])) else None
    ensures bod[..] == if Populates(doc, i) && i == BOD_DATA then bodBytes else old(bod[..])
    ensures mod[..] == if Populates(doc, i) && i == MOD_DATA then modBytes else old(mod[..])
    ensures sectorMap[..] == if Populates(doc, i) && i == SECTOR_MAP then Unpacked(sectorMapBytes, sectorMap.Length) else old(sectorMap[..])
  {
    Base64Properties(i);
    stored := None;
    if Populates(doc, i) {
      if i == BOD_DATA {
        CopyAll(bod, bodBytes);
      } else if i == MOD_DATA {
        CopyAll(mod, modBytes);
      } else if i == SECTOR_MAP {
        UnpackSectorMap(sectorMapBytes, sectorMap);
      } else {
        stored := Some(Converted(i, doc[PROPERTIES[i].path]));
      }
    }
  }

  /**
   * The populate loop of `load_state`: every present, non-null property is
   * stored in its destination, the three Base64 properties from their
   * decoded bytes.
   */
  method Populate(dest: StateDestinations, doc: Document, sectorMapBytes: seq<bv8>, bodBytes: seq<bv8>, modBytes: seq<bv8>)
    requires dest.Valid() && dest.sectorMap != null && TypesAccepted(doc)
    requires Populates(doc, SECTOR_MAP) ==> |sectorMapBytes| == PackedLength(dest.sectorMap.Length)
    requires Populates(doc, BOD_DATA) ==> |bodBytes| == dest.bodBuffer.Length
    requires Populates(doc, MOD_DATA) ==> |modBytes| == dest.modBuffer.Length
    modifies dest`values, dest.sectorMap, dest.bodBuffer, dest.modBuffer
    ensures dest.values == PopulatedValues(doc, old(dest.values), |PROPERTIES|)
    ensures dest.bodBuffer[..] == if Populates(doc, BOD_DATA) then bodBytes else old(dest.bodBuffer[..])
    ensures dest.modBuffer[..] == if Populates(doc, MOD_DATA) then modBytes else old(dest.modBuffer[..])
    ensures dest.sectorMap[..] == if Populates(doc, SECTOR_MAP) then Unpacked(sectorMapBytes, dest.sectorMap.Length) else old(dest.sectorMap[..])
  {
    var sectorMap, bod, mod := dest.sectorMap, dest.bodBuffer, dest.modBuffer;
    var i := 0;
    while i < |PROPERTIES|
      invariant 0 <= i <= |PROPERTIES|
      invariant dest.sectorMap == sectorMap && dest.bodBuffer == bod && dest.modBuffer == mod
      invariant dest.values == PopulatedValues(doc, old(dest.values), i)
      invariant bod[..] == if BOD_DATA < i && Populates(doc, BOD_DATA) then bodBytes else old(bod[..])
      invariant mod[..] == if MOD_DATA < i && Populates(doc, MOD_DATA) then modBytes else old(mod[..])
      invariant sectorMap[..] == if SECTOR_MAP < i && Populates(doc, SECTOR_MAP) then Unpacked(sectorMapBytes, sectorMap.Length) else old(sectorMap[..])
    {
      var stored := PopulateOne(sectorMap, bod, mod, doc, sectorMapBytes, bodBytes, modBytes, i);
      if stored.Some? {
        dest.values := dest.values[i := stored.value];
      }
      PopulatedValuesStep(doc, old(dest.values), i);
      i := i + 1;
    }
  }

  // ---------------------------------------------------------------------------
  // load_state and save_state

  /** The results `load_state` distinguishes. */
  datatype LoadStatus = LoadSuccess | FileNotSpecified | FileDoesNotExist | LoadError

  /** The outcome of stat() on the state file. */
  datatype StatOutcome = Exists | NoSuchFile | StatFailed

  /**
   * `load_state`. The outcome of stat(), the parsed document (None when
   * json-c cannot load the file) and whether malloc of the sector map
   * succeeds are parameters; so are the indeterminate sizes read when the
   * detected or sector size is null.
   */
  method LoadState(dest: StateDestinations, stateFile: Option<string>, stat: StatOutcome, parsed: Option<Document>,
                   decode: string -> Option<seq<bv8>>, uninitDetected: nat, uninitSectorSize: nat, sectorMapAllocated: bool)
    returns (status: LoadStatus)
    requires dest.Valid() && dest.bodBuffer.Length == dest.modBuffer.Length
    requires uninitSectorSize > 0
    modifies dest`values, dest`sectorMap, dest.bodBuffer, dest.modBuffer
    ensures dest.Valid()
    ensures stateFile.None? ==> status == FileNotSpecified
    ensures stateFile.Some? && stat == NoSuchFile ==> status == FileDoesNotExist
    ensures stateFile.Some? && stat == StatFailed ==> status == LoadError
    ensures stateFile.Some? && stat == Exists && parsed.None? ==> status == LoadError
    ensures status == LoadSuccess <==>
      stateFile.Some? && stat == Exists && parsed.Some? && sectorMapAllocated &&
      StateFileAccepted(parsed.value, decode, dest.bodBuffer.Length, uninitDetected, uninitSectorSize)
    ensures status != LoadSuccess ==>
      dest.values == old(dest.values) && unchanged(dest.bodBuffer) && unchanged(dest.modBuffer)
    ensures status != LoadSuccess ==>
      dest.sectorMap == if stateFile.Some? && stat == Exists && parsed.Some? && !sectorMapAllocated &&
                           StateFileAccepted(parsed.value, decode, dest.bodBuffer.Length, uninitDetected, uninitSectorSize)
                        then null else old(dest.sectorMap)
    ensures status == LoadSuccess ==>
      var doc := parsed.value;
      dest.sectorMap != null && fresh(dest.sectorMap) &&
      dest.sectorMap.Length == NumSectorsOf(doc, uninitDetected, uninitSectorSize) &&
      TypesAccepted(doc) && dest.values == PopulatedValues(doc, old(dest.values), |PROPERTIES|) &&
      dest.bodBuffer[..] == (if Populates(doc, BOD_DATA) then Decoded(doc, decode, BOD_DATA) else old(dest.bodBuffer[..])) &&
      dest.modBuffer[..] == (if Populates(doc, MOD_DATA) then Decoded(doc, decode, MOD_DATA) else old(dest.modBuffer[..])) &&
      dest.sectorMap[..] == if Populates(doc, SECTOR_MAP) then Unpacked(Decoded(doc, decode, SECTOR_MAP), dest.sectorMap.Length) else []
  {
    if stateFile.None? {
      return FileNotSpecified;
    }
    if stat == NoSuchFile {
      return FileDoesNotExist;
    } else if stat == StatFailed {
      return LoadError;
    }
    if parsed.None? {
      return LoadError;
    }
    status := LoadDocument(dest, parsed.value, decode, uninitDetected, uninitSectorSize, sectorMapAllocated);
  }

  /** Both validation passes of `load_state`, and the number of sectors they establish. */
  method ValidateStateFile(doc: Document, decode: string -> Option<seq<bv8>>, bodModSize: nat, uninitDetected: nat, uninitSectorSize: nat)
    returns (ok: bool, buffers: seq<seq<bv8>>, numSectors: nat)
    requires uninitSectorSize > 0
    ensures ok <==> StateFileAccepted(doc, decode, bodModSize, uninitDetected, uninitSectorSize)
    ensures ok ==> numSectors == NumSectorsOf(doc, uninitDetected, uninitSectorSize)
    ensures ok ==> buffers == DecodedPrefix(doc, decode, |PROPERTIES|)
  {
    numSectors := 0;
    var detectedSize, sectorSize;
    ok, buffers, detectedSize, sectorSize := ValidateProperties(doc, decode, uninitDetected, uninitSectorSize);
    if !ok {
      return;
    }
    assert PropertyAccepted(PROPERTIES[SECTOR_SIZE], doc, decode);
    numSectors := detectedSize / sectorSize;
    var lengths := seq(|buffers|, t requires 0 <= t < |buffers| => |buffers[t]|);
    ok := CheckLengths(lengths, numSectors, bodModSize);
  }

  /** `load_state` from the parsed document on: validate, allocate the sector map, populate. */
  method LoadDocument(dest: StateDestinations, doc: Document, decode: string -> Option<seq<bv8>>,
                      uninitDetected: nat, uninitSectorSize: nat, sectorMapAllocated: bool)
    returns (status: LoadStatus)
    requires dest.Valid() && dest.bodBuffer.Length == dest.modBuffer.Length
    requires uninitSectorSize > 0
    modifies dest`values, dest`sectorMap, dest.bodBuffer, dest.modBuffer
    ensures dest.Valid()
    ensures status == LoadSuccess || status == LoadError
    ensures status == LoadSuccess <==> sectorMapAllocated && StateFileAccepted(doc, decode, dest.bodBuffer.Length, uninitDetected, uninitSectorSize)
    ensures status != LoadSuccess ==>
      dest.values == old(dest.values) && unchanged(dest.bodBuffer) && unchanged(dest.modBuffer)
    ensures status != LoadSuccess ==>
      dest.sectorMap == if StateFileAccepted(doc, decode, dest.bodBuffer.Length, uninitDetected, uninitSectorSize) then null else old(dest.sectorMap)
    ensures status == LoadSuccess ==>
      dest.sectorMap != null && fresh(dest.sectorMap) &&
      dest.sectorMap.Length == NumSectorsOf(doc, uninitDetected, uninitSectorSize) &&
      TypesAccepted(doc) && dest.values == PopulatedValues(doc, old(dest.values), |PROPERTIES|) &&
      dest.bodBuffer[..] == (if Populates(doc, BOD_DATA) then Decoded(doc, decode, BOD_DATA) else old(dest.bodBuffer[..])) &&
      dest.modBuffer[..] == (if Populates(doc, MOD_DATA) then Decoded(doc, decode, MOD_DATA) else old(dest.modBuffer[..])) &&
      dest.sectorMap[..] == if Populates(doc, SECTOR_MAP) then Unpacked(Decoded(doc, decode, SECTOR_MAP), dest.sectorMap.Length) else []
  {
    var ok, buffers, numSectors := ValidateStateFile(doc, decode, dest.bodBuffer.Length, uninitDetected, uninitSectorSize);
    if !ok {
      return LoadError;
    }
    if !sectorMapAllocated {
      dest.sectorMap := null;
      return LoadError;
    }
    dest.sectorMap := new bv8[numSectors];
    assert !Populates(doc, SECTOR_MAP) ==> numSectors == 0 by {
      assert PROPERTIES[SECTOR_MAP].base64;
    }
    AcceptedTypes(doc, decode);
    Populate(dest, doc, buffers[SECTOR_MAP], buffers[BOD_DATA], buffers[MOD_DATA]);
    status := LoadSuccess;
  }

  /**
   * The part of `save_state` modelled here: nothing is written when no state
   * file is configured; otherwise the sector map is packed for Base64
   * encoding. The JSON document and the file write are not part of this model.
   */
  method SaveState(stateFile: Option<string>, sectorMap: array<bv8>, numSectors: nat) returns (r: int, packed: Option<seq<bv8>>)
    requires numSectors <= sectorMap.Length
    ensures stateFile.None? ==> r == 0 && packed.None?
    ensures stateFile.Some? ==> packed == Some(Packed(sectorMap[..], numSectors))
  {
    if stateFile.None? {
      return 0, None;
    }
    var bytes := PackSectorMap(sectorMap, numSectors);
    return 0, Some(bytes[..]);
  }
}
