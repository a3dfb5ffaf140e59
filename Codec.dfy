/**
 * The data embedded in every sector the endurance test writes (mfst.c):
 *
 *   bytes  0..7   sector number, stored little-endian, XOR-ed with a key
 *   bytes  8..15  round number, stored little-endian, XOR-ed with a key
 *   bytes 16..31  device UUID, byte i XOR-ed with byte 34 + 16 i
 *   last 4 bytes  CRC-32C of everything before them
 *
 * The sector-number key is the big-endian word made of bytes 32, 48, ..., 144
 * and the round-number key the one made of bytes 33, 49, ..., 145; all key
 * bytes are random fill that the embedding never overwrites.
 */
module Codec {
  /** Smallest buffer holding every byte the three keyed fields use (34 + 16 * 15 + 1). */
  const KEY_AREA_END: nat := 275
  const UUID_SIZE: nat := 16
  const TWO_TO_64: nat := 0x1_0000_0000_0000_0000

  /** `a` with `v` written over it starting at `off`. */
  function Splice(a: seq<bv8>, off: nat, v: seq<bv8>): (r: seq<bv8>)
    requires off + |v| <= |a|
    ensures |r| == |a|
  {
    seq(|a|, k requires 0 <= k < |a| => if off <= k < off + |v| then v[k - off] else a[k])
  }

  lemma SpliceSlice(a: seq<bv8>, off: nat, v: seq<bv8>)
    requires off + |v| <= |a|
    ensures Splice(a, off, v)[off..off + |v|] == v
  {
  }

  lemma SpliceTwice(a: seq<bv8>, off: nat, v: seq<bv8>, w: seq<bv8>)
    requires off + |v| <= |a| && |w| == |v|
    ensures Splice(Splice(a, off, v), off, w) == Splice(a, off, w)
  {
  }

  /** The eight bytes an x86 store of `v` writes, lowest first. */
  function Le64Bytes(v: bv64): (b: seq<bv8>)
    ensures |b| == 8
  {
    [(v & 0xFF) as bv8, ((v >> 8) & 0xFF) as bv8, ((v >> 16) & 0xFF) as bv8, ((v >> 24) & 0xFF) as bv8,
     ((v >> 32) & 0xFF) as bv8, ((v >> 40) & 0xFF) as bv8, ((v >> 48) & 0xFF) as bv8, ((v >> 56) & 0xFF) as bv8]
  }

  /** The word an x86 load of eight bytes reads, lowest byte first. */
  function Le64Value(b: seq<bv8>): bv64
    requires |b| == 8
  {
    (b[0] as bv64) | (b[1] as bv64 << 8) | (b[2] as bv64 << 16) | (b[3] as bv64 << 24) |
    (b[4] as bv64 << 32) | (b[5] as bv64 << 40) | (b[6] as bv64 << 48) | (b[7] as bv64 << 56)
  }

  /** Storing and loading a 64-bit word are inverse to each other, both ways round. */
  lemma Le64RoundTrip(v: bv64, b: seq<bv8>)
    requires |b| == 8
    ensures Le64Value(Le64Bytes(v)) == v
    ensures Le64Bytes(Le64Value(b)) == b
  {
  }

  function Le32Bytes(v: bv32): (b: seq<bv8>)
    ensures |b| == 4
  {
    [(v & 0xFF) as bv8, ((v >> 8) & 0xFF) as bv8, ((v >> 16) & 0xFF) as bv8, ((v >> 24) & 0xFF) as bv8]
  }

  function Le32Value(b: seq<bv8>): bv32
    requires |b| == 4
  {
    (b[0] as bv32) | (b[1] as bv32 << 8) | (b[2] as bv32 << 16) | (b[3] as bv32 << 24)
  }

  lemma Le32RoundTrip(v: bv32, b: seq<bv8>)
    requires |b| == 4
    ensures Le32Value(Le32Bytes(v)) == v
    ensures Le32Bytes(Le32Value(b)) == b
  {
  }

  /** Bytes base, base + 16, ..., base + 112 of a sector: the key bytes of one field. */
  function KeyBytes(s: seq<bv8>, base: nat): (b: seq<bv8>)
    requires base + 112 < |s|
    ensures |b| == 8
  {
    seq(8, i requires 0 <= i < 8 => s[base + 16 * i])
  }

  /** The word made of eight bytes, first byte most significant. */
  function Be64Value(b: seq<bv8>): bv64
    requires |b| == 8
  {
    (b[0] as bv64 << 56) | (b[1] as bv64 << 48) | (b[2] as bv64 << 40) | (b[3] as bv64 << 32) |
    (b[4] as bv64 << 24) | (b[5] as bv64 << 16) | (b[6] as bv64 << 8) | (b[7] as bv64)
  }

  function SectorNumberKey(s: seq<bv8>): bv64
    requires |s| >= KEY_AREA_END
  {
    Be64Value(KeyBytes(s, 32))
  }

  function RoundNumberKey(s: seq<bv8>): bv64
    requires |s| >= KEY_AREA_END
  {
    Be64Value(KeyBytes(s, 33))
  }

  function EmbedSectorNumber(s: seq<bv8>, sectorNumber: bv64): (r: seq<bv8>)
    requires |s| >= KEY_AREA_END
    ensures |r| == |s|
  {
    Splice(s, 0, Le64Bytes(sectorNumber ^ SectorNumberKey(s)))
  }

  function DecodeSectorNumber(s: seq<bv8>): bv64
    requires |s| >= KEY_AREA_END
  {
    Le64Value(s[..8]) ^ SectorNumberKey(s)
  }

  function EmbedRoundNumber(s: seq<bv8>, roundNum: bv64): (r: seq<bv8>)
    requires |s| >= KEY_AREA_END
    ensures |r| == |s|
  {
    Splice(s, 8, Le64Bytes(roundNum ^ RoundNumberKey(s)))
  }

  function DecodeRoundNumber(s: seq<bv8>): bv64
    requires |s| >= KEY_AREA_END
  {
    Le64Value(s[8..16]) ^ RoundNumberKey(s)
  }

  /** The sixteen bytes `embed_device_uuid` stores at 16..31. */
  function UuidField(s: seq<bv8>, uuid: seq<bv8>): (f: seq<bv8>)
    requires |s| >= KEY_AREA_END && |uuid| == UUID_SIZE
    ensures |f| == UUID_SIZE
  {
    seq(UUID_SIZE, i requires 0 <= i < UUID_SIZE => uuid[i] ^ s[16 * i + 34])
  }

  function EmbedUuid(s: seq<bv8>, uuid: seq<bv8>): (r: seq<bv8>)
    requires |s| >= KEY_AREA_END && |uuid| == UUID_SIZE
    ensures |r| == |s|
  {
    Splice(s, 16, UuidField(s, uuid))
  }

  function EmbeddedUuid(s: seq<bv8>): (u: seq<bv8>)
    requires |s| >= KEY_AREA_END
    ensures |u| == UUID_SIZE
  {
    seq(UUID_SIZE, i requires 0 <= i < UUID_SIZE => s[i + 16] ^ s[16 * i + 34])
  }

  /** Stores the CRC-32C (given by `crc`) of all but the last four bytes into them. */
  function EmbedCrc(s: seq<bv8>, crc: seq<bv8> -> bv32): (r: seq<bv8>)
    requires |s| >= 4
    ensures |r| == |s|
  {
    Splice(s, |s| - 4, Le32Bytes(crc(s[..|s| - 4])))
  }

  function EmbeddedCrc(s: seq<bv8>): bv32
    requires |s| >= 4
  {
    Le32Value(s[|s| - 4..])
  }

  /** One sector as `prepare_endurance_test_block` leaves it. */
  function PrepareSector(s: seq<bv8>, sectorNumber: bv64, roundNum: bv64, uuid: seq<bv8>, crc: seq<bv8> -> bv32): (r: seq<bv8>)
    requires |s| >= KEY_AREA_END + 4 && |uuid| == UUID_SIZE
    ensures |r| == |s|
  {
    EmbedCrc(EmbedUuid(EmbedRoundNumber(EmbedSectorNumber(s, sectorNumber), roundNum), uuid), crc)
  }

  /** Decoding the sector number returns what was embedded; only bytes 0..7 change. */
  lemma DecodeEmbeddedSectorNumber(s: seq<bv8>, n: bv64)
    requires |s| >= KEY_AREA_END
    ensures DecodeSectorNumber(EmbedSectorNumber(s, n)) == n
    ensures EmbedSectorNumber(s, n)[8..] == s[8..]
  {
    var r := EmbedSectorNumber(s, n);
    assert KeyBytes(r, 32) == KeyBytes(s, 32);
    assert r[..8] == Le64Bytes(n ^ SectorNumberKey(s));
    Le64RoundTrip(n ^ SectorNumberKey(s), r[..8]);
  }

  /** Decoding the round number returns what was embedded; only bytes 8..15 change. */
  lemma DecodeEmbeddedRoundNumber(s: seq<bv8>, rn: bv64)
    requires |s| >= KEY_AREA_END
    ensures DecodeRoundNumber(EmbedRoundNumber(s, rn)) == rn
    ensures EmbedRoundNumber(s, rn)[..8] == s[..8] && EmbedRoundNumber(s, rn)[16..] == s[16..]
  {
    var r := EmbedRoundNumber(s, rn);
    assert KeyBytes(r, 33) == KeyBytes(s, 33);
    assert r[8..16] == Le64Bytes(rn ^ RoundNumberKey(s));
    Le64RoundTrip(rn ^ RoundNumberKey(s), r[8..16]);
  }

  /** Extracting the UUID returns what was embedded; only bytes 16..31 change. */
  lemma ExtractEmbeddedUuid(s: seq<bv8>, uuid: seq<bv8>)
    requires |s| >= KEY_AREA_END && |uuid| == UUID_SIZE
    ensures EmbeddedUuid(EmbedUuid(s, uuid)) == uuid
    ensures EmbedUuid(s, uuid)[..16] == s[..16] && EmbedUuid(s, uuid)[32..] == s[32..]
  {
    var r := EmbedUuid(s, uuid);
    forall i | 0 <= i < UUID_SIZE
      ensures EmbeddedUuid(r)[i] == uuid[i]
    {
      EmbedUuidByte(s, uuid, i);
    }
    EmbedUuidFrame(s, uuid);
  }

  /** Byte i of the embedded UUID reads back through its own key byte, which the embedding leaves alone. */
  lemma EmbedUuidByte(s: seq<bv8>, uuid: seq<bv8>, i: nat)
    requires |s| >= KEY_AREA_END && |uuid| == UUID_SIZE && i < UUID_SIZE
    ensures EmbeddedUuid(EmbedUuid(s, uuid))[i] == uuid[i]
  {
    var f := UuidField(s, uuid);
    var r := Splice(s, 16, f);
    var key := s[16 * i + 34];
    var u := uuid[i];
    assert f[i] == u ^ key;
    assert r[i + 16] == f[i];
    assert r[16 * i + 34] == key;
    XorCancel(u, key);
  }

  lemma XorCancel(a: bv8, k: bv8)
    ensures (a ^ k) ^ k == a
  {
  }

  /** The UUID embedding writes bytes 16 to 31 only. */
  lemma EmbedUuidFrame(s: seq<bv8>, uuid: seq<bv8>)
    requires |s| >= KEY_AREA_END && |uuid| == UUID_SIZE
    ensures EmbedUuid(s, uuid)[..16] == s[..16] && EmbedUuid(s, uuid)[32..] == s[32..]
  {
    var r := Splice(s, 16, UuidField(s, uuid));
    assert r[..16] == s[..16];
    assert r[32..] == s[32..];
  }

  /** The sector and round numbers depend only on bytes 0..15 and the key bytes from 32 on. */
  lemma NumbersAgree(s: seq<bv8>, t: seq<bv8>)
    requires |s| >= KEY_AREA_END && |t| >= KEY_AREA_END
    requires forall k :: 0 <= k < KEY_AREA_END && !(16 <= k < 32) ==> s[k] == t[k]
    ensures DecodeSectorNumber(s) == DecodeSectorNumber(t)
    ensures DecodeRoundNumber(s) == DecodeRoundNumber(t)
  {
    SectorNumberAgrees(s, t);
    RoundNumberAgrees(s, t);
  }

  lemma SectorNumberAgrees(s: seq<bv8>, t: seq<bv8>)
    requires |s| >= KEY_AREA_END && |t| >= KEY_AREA_END
    requires forall k :: 0 <= k < KEY_AREA_END && !(16 <= k < 32) ==> s[k] == t[k]
    ensures DecodeSectorNumber(s) == DecodeSectorNumber(t)
  {
    assert KeyBytes(s, 32) == KeyBytes(t, 32);
    assert s[..8] == t[..8];
  }

  lemma RoundNumberAgrees(s: seq<bv8>, t: seq<bv8>)
    requires |s| >= KEY_AREA_END && |t| >= KEY_AREA_END
    requires forall k :: 0 <= k < KEY_AREA_END && !(16 <= k < 32) ==> s[k] == t[k]
    ensures DecodeRoundNumber(s) == DecodeRoundNumber(t)
  {
    assert KeyBytes(s, 33) == KeyBytes(t, 33);
    assert s[8..16] == t[8..16];
  }

  /** The UUID depends only on bytes 16..31 and its key bytes. */
  lemma UuidAgrees(s: seq<bv8>, t: seq<bv8>)
    requires |s| >= KEY_AREA_END && |t| >= KEY_AREA_END
    requires forall k :: 16 <= k < KEY_AREA_END ==> s[k] == t[k]
    ensures EmbeddedUuid(s) == EmbeddedUuid(t)
  {
  }

  /** The three decoders read nothing beyond the first KEY_AREA_END bytes. */
  lemma DecodersReadKeyAreaOnly(s: seq<bv8>, t: seq<bv8>)
    requires |s| >= KEY_AREA_END && |t| >= KEY_AREA_END
    requires s[..KEY_AREA_END] == t[..KEY_AREA_END]
    ensures DecodeSectorNumber(s) == DecodeSectorNumber(t)
    ensures DecodeRoundNumber(s) == DecodeRoundNumber(t)
    ensures EmbeddedUuid(s) == EmbeddedUuid(t)
  {
    assert forall k :: 0 <= k < KEY_AREA_END ==> s[k] == s[..KEY_AREA_END][k] == t[k];
    NumbersAgree(s, t);
    UuidAgrees(s, t);
  }

  /** Embedding the UUID leaves the sector and round numbers decodable as before. */
  lemma EmbedUuidKeepsNumbers(s: seq<bv8>, uuid: seq<bv8>)
    requires |s| >= KEY_AREA_END && |uuid| == UUID_SIZE
    ensures DecodeSectorNumber(EmbedUuid(s, uuid)) == DecodeSectorNumber(s)
    ensures DecodeRoundNumber(EmbedUuid(s, uuid)) == DecodeRoundNumber(s)
  {
    NumbersAgree(EmbedUuid(s, uuid), s);
  }

  /** Embedding the round number leaves the sector number decodable as before. */
  lemma EmbedRoundKeepsSectorNumber(s: seq<bv8>, rn: bv64)
    requires |s| >= KEY_AREA_END
    ensures DecodeSectorNumber(EmbedRoundNumber(s, rn)) == DecodeSectorNumber(s)
  {
    var r := EmbedRoundNumber(s, rn);
    assert KeyBytes(r, 32) == KeyBytes(s, 32);
    assert r[..8] == s[..8];
  }

  /** The CRC is stored past every byte the three fields use, and reads back. */
  lemma EmbedCrcFrame(s: seq<bv8>, crc: seq<bv8> -> bv32)
    requires |s| >= KEY_AREA_END + 4
    ensures EmbedCrc(s, crc)[..KEY_AREA_END] == s[..KEY_AREA_END]
    ensures var p := EmbedCrc(s, crc); EmbeddedCrc(p) == crc(p[..|p| - 4])
  {
    var p := EmbedCrc(s, crc);
    assert p[|p| - 4..] == Le32Bytes(crc(s[..|s| - 4]));
    assert p[..|p| - 4] == s[..|s| - 4];
    Le32RoundTrip(crc(s[..|s| - 4]), p[|p| - 4..]);
  }

  /** What a sector read back must show: the three fields decode to `n`, `rn` and `uuid`, and the CRC matches. */
  predicate Carries(sector: seq<bv8>, n: bv64, rn: bv64, uuid: seq<bv8>, crc: seq<bv8> -> bv32)
  {
    |sector| >= KEY_AREA_END + 4 &&
    DecodeSectorNumber(sector) == n && DecodeRoundNumber(sector) == rn &&
    EmbeddedUuid(sector) == uuid && EmbeddedCrc(sector) == crc(sector[..|sector| - 4])
  }

  /**
   * After the whole sector is prepared, the sector number, the round number
   * and the UUID all decode to what was embedded, and the last four bytes
   * hold the CRC of the bytes before them.
   */
  lemma PreparedSectorDecodes(s: seq<bv8>, n: bv64, rn: bv64, uuid: seq<bv8>, crc: seq<bv8> -> bv32)
    requires |s| >= KEY_AREA_END + 4 && |uuid| == UUID_SIZE
    ensures Carries(PrepareSector(s, n, rn, uuid, crc), n, rn, uuid, crc)
  {
    var s1 := EmbedSectorNumber(s, n);
    var s2 := EmbedRoundNumber(s1, rn);
    var s3 := EmbedUuid(s2, uuid);
    DecodeEmbeddedSectorNumber(s, n);
    EmbedRoundKeepsSectorNumber(s1, rn);
    DecodeEmbeddedRoundNumber(s1, rn);
    EmbedUuidKeepsNumbers(s2, uuid);
    ExtractEmbeddedUuid(s2, uuid);
    EmbedCrcFrame(s3, crc);
    DecodersReadKeyAreaOnly(EmbedCrc(s3, crc), s3);
  }

  /** `embed_sector_number` on the sector at `data[off..off + size]`. */
  method EmbedSectorNumberAt(data: array<bv8>, off: nat, size: nat, sectorNumber: bv64)
    requires KEY_AREA_END <= size && off + size <= data.Length
    modifies data
    ensures data[..] == Splice(old(data[..]), off, EmbedSectorNumber(old(data[off..off + size]), sectorNumber))
  {
    var field := Le64Bytes(sectorNumber ^ SectorNumberKey(data[off..off + size]));
    forall k | 0 <= k < 8 {
      data[off + k] := field[k];
    }
  }

  /** `embed_round_number` on the sector at `data[off..off + size]`. */
  method EmbedRoundNumberAt(data: array<bv8>, off: nat, size: nat, roundNum: bv64)
    requires KEY_AREA_END <= size && off + size <= data.Length
    modifies data
    ensures data[..] == Splice(old(data[..]), off, EmbedRoundNumber(old(data[off..off + size]), roundNum))
  {
    var field := Le64Bytes(roundNum ^ RoundNumberKey(data[off..off + size]));
    forall k | 0 <= k < 8 {
      data[off + 8 + k] := field[k];
    }
  }

  /** `embed_device_uuid` on the sector at `data[off..off + size]`. */
  method EmbedUuidAt(data: array<bv8>, off: nat, size: nat, uuid: seq<bv8>)
    requires KEY_AREA_END <= size && off + size <= data.Length && |uuid| == UUID_SIZE
    modifies data
    ensures data[..] == Splice(old(data[..]), off, EmbedUuid(old(data[off..off + size]), uuid))
  {
    var i := 0;
    while i < UUID_SIZE
      invariant i <= UUID_SIZE
      invariant forall j :: 0 <= j < i ==> data[off + 16 + j] == uuid[j] ^ old(data[off + 16 * j + 34])
      invariant forall k :: 0 <= k < data.Length && !(off + 16 <= k < off + 16 + i) ==> data[k] == old(data[k])
    {
      data[off + 16 + i] := uuid[i] ^ data[off + 16 * i + 34];
      i := i + 1;
    }
    UuidSpliced(old(data[..]), data[..], off, size, uuid);
  }

  /** A buffer whose only changes are the sixteen UUID bytes of the sector at `off` holds that sector with the UUID embedded. */
  lemma UuidSpliced(a: seq<bv8>, b: seq<bv8>, off: nat, size: nat, uuid: seq<bv8>)
    requires KEY_AREA_END <= size && off + size <= |a| == |b| && |uuid| == UUID_SIZE
    requires forall j :: 0 <= j < UUID_SIZE ==> b[off + 16 + j] == uuid[j] ^ a[off + 16 * j + 34]
    requires forall k :: 0 <= k < |a| && !(off + 16 <= k < off + 32) ==> b[k] == a[k]
    ensures b == Splice(a, off, EmbedUuid(a[off..off + size], uuid))
  {
    var want := Splice(a, off, EmbedUuid(a[off..off + size], uuid));
    forall k | 0 <= k < |a|
      ensures b[k] == want[k]
    {
      if off + 16 <= k < off + 32 {
        assert b[k] == uuid[k - off - 16] ^ a[off + 16 * (k - off - 16) + 34];
      }
    }
  }

  /** `embed_crc32c` on the sector at `data[off..off + size]`. */
  method EmbedCrcAt(data: array<bv8>, off: nat, size: nat, crc: seq<bv8> -> bv32)
    requires 4 <= size && off + size <= data.Length
    modifies data
    ensures data[..] == Splice(old(data[..]), off, EmbedCrc(old(data[off..off + size]), crc))
  {
    var field := Le32Bytes(crc(data[off..off + size - 4]));
    forall k | 0 <= k < 4 {
      data[off + size - 4 + k] := field[k];
    }
    assert old(data[off..off + size])[..size - 4] == old(data[off..off + size - 4]);
  }

  /** The four embeddings, in the order `prepare_endurance_test_block` applies them, on sector j of a block. */
  method PrepareSectorAt(data: array<bv8>, off: nat, size: nat, j: nat, startingSector: nat, roundNum: bv64,
                         uuid: seq<bv8>, crc: seq<bv8> -> bv32)
    requires KEY_AREA_END + 4 <= size && off + size <= data.Length && |uuid| == UUID_SIZE
    modifies data
    ensures |SectorPreparer(startingSector, roundNum, uuid, crc)(j, old(data[off..off + size]))| == size
    ensures data[..] == Splice(old(data[..]), off, SectorPreparer(startingSector, roundNum, uuid, crc)(j, old(data[off..off + size])))
  {
    var view := data[off..off + size];
    var sector := PrepareSector(view, Wrap64(startingSector + j), roundNum, uuid, crc);
    PreparerApplies(startingSector, roundNum, uuid, crc, j, view);
    forall k | 0 <= k < size {
      data[off + k] := sector[k];
    }
  }

  /** A 64-bit sector number: the C code adds in `uint64_t`. */
  function Wrap64(x: nat): bv64
  {
    (x % TWO_TO_64) as bv64
  }

  lemma SectorsDisjoint(j: nat, i: nat, size: nat)
    requires j < i
    ensures j * size + size <= i * size
  {
    assert (j + 1) * size <= i * size;
  }

  lemma MulSucc(i: nat, size: nat)
    ensures (i + 1) * size == i * size + size
  {
  }

  /** The first `count` sectors of `cur` are those of `orig` transformed by `f`, sector index first. */
  ghost predicate SectorsMapped(orig: seq<bv8>, cur: seq<bv8>, size: nat, count: nat, f: (nat, seq<bv8>) -> seq<bv8>)
    requires count * size <= |orig| == |cur|
  {
    forall j :: 0 <= j < count ==>
      (SectorsDisjoint(j, count, size);
       cur[j * size..j * size + size] == f(j, orig[j * size..j * size + size]))
  }

  lemma PreparerApplies(startingSector: nat, roundNum: bv64, uuid: seq<bv8>, crc: seq<bv8> -> bv32, j: nat, v: seq<bv8>)
    requires |v| >= KEY_AREA_END + 4 && |uuid| == UUID_SIZE
    ensures SectorPreparer(startingSector, roundNum, uuid, crc)(j, v) == PrepareSector(v, Wrap64(startingSector + j), roundNum, uuid, crc)
  {
  }

  lemma SectorsMappedAt(orig: seq<bv8>, cur: seq<bv8>, size: nat, count: nat, f: (nat, seq<bv8>) -> seq<bv8>, j: nat)
    requires count * size <= |orig| == |cur| && j < count
    requires SectorsMapped(orig, cur, size, count, f)
    ensures j * size + size <= count * size
    ensures cur[j * size..j * size + size] == f(j, orig[j * size..j * size + size])
  {
    SectorsDisjoint(j, count, size);
  }

  /** What `prepare_endurance_test_block` does to the sector with index j of a block starting at `startingSector`. */
  function SectorPreparer(startingSector: nat, roundNum: bv64, uuid: seq<bv8>, crc: seq<bv8> -> bv32): (nat, seq<bv8>) -> seq<bv8>
  {
    (j: nat, v: seq<bv8>) =>
      if |v| >= KEY_AREA_END + 4 && |uuid| == UUID_SIZE then PrepareSector(v, Wrap64(startingSector + j), roundNum, uuid, crc) else v
  }

  lemma SpliceKeepsBelow(a: seq<bv8>, off: nat, v: seq<bv8>, lo: nat, hi: nat)
    requires lo <= hi <= off && off + |v| <= |a|
    ensures Splice(a, off, v)[lo..hi] == a[lo..hi]
  {
  }

  lemma SpliceKeepsAbove(a: seq<bv8>, off: nat, v: seq<bv8>)
    requires off + |v| <= |a|
    ensures Splice(a, off, v)[off + |v|..] == a[off + |v|..]
  {
  }

  /** Transforming sector `count` in place extends the transformed prefix by one sector. */
  lemma SectorsMappedStep(orig: seq<bv8>, cur: seq<bv8>, size: nat, count: nat, off: nat, f: (nat, seq<bv8>) -> seq<bv8>)
    requires off == count * size && off + size <= |orig| == |cur|
    requires SectorsMapped(orig, cur, size, count, f)
    requires cur[off..] == orig[off..]
    requires |f(count, cur[off..off + size])| == size
    ensures SectorsMapped(orig, Splice(cur, off, f(count, cur[off..off + size])), size, count + 1, f)
    ensures Splice(cur, off, f(count, cur[off..off + size]))[off + size..] == orig[off + size..]
  {
    MulSucc(count, size);
    SuffixPrefix(cur, orig, off, size);
    var v := f(count, cur[off..off + size]);
    var next := Splice(cur, off, v);
    SpliceSlice(cur, off, v);
    SpliceKeepsAbove(cur, off, v);
    forall j | 0 <= j < count + 1
      ensures (SectorsDisjoint(j, count + 1, size);
               next[j * size..j * size + size] == f(j, orig[j * size..j * size + size]))
    {
      SectorsDisjoint(j, count + 1, size);
      if j < count {
        SectorKept(orig, cur, size, count, off, v, f, j);
      }
    }
    SuffixOfSuffix(cur, orig, off, size);
  }

  /** Agreeing from `off` on, two buffers agree on the `size` bytes at `off`. */
  lemma SuffixPrefix(a: seq<bv8>, b: seq<bv8>, off: nat, size: nat)
    requires off + size <= |a| == |b| && a[off..] == b[off..]
    ensures a[off..off + size] == b[off..off + size]
  {
    assert a[off..off + size] == a[off..][..size];
    assert b[off..off + size] == b[off..][..size];
  }

  lemma SuffixOfSuffix(a: seq<bv8>, b: seq<bv8>, off: nat, n: nat)
    requires off + n <= |a| == |b| && a[off..] == b[off..]
    ensures a[off + n..] == b[off + n..]
  {
    assert a[off + n..] == a[off..][n..];
    assert b[off + n..] == b[off..][n..];
  }

  /** A sector before `off` is not touched by writing at `off`. */
  lemma SectorKept(orig: seq<bv8>, cur: seq<bv8>, size: nat, count: nat, off: nat, v: seq<bv8>,
                   f: (nat, seq<bv8>) -> seq<bv8>, j: nat)
    requires off == count * size && off + |v| <= |orig| == |cur| && j < count
    requires SectorsMapped(orig, cur, size, count, f)
    ensures j * size + size <= off
    ensures Splice(cur, off, v)[j * size..j * size + size] == f(j, orig[j * size..j * size + size])
  {
    SectorsMappedAt(orig, cur, size, count, f, j);
    SpliceKeepsBelow(cur, off, v, j * size, j * size + size);
  }

  /**
   * Prepares `numSectors` consecutive sectors of `sectorSize` bytes: sector
   * i gets sector number startingSector + i, the current round number, the
   * device UUID and its CRC; the rest of the buffer is left alone.
   */
  method PrepareEnduranceTestBlock(data: array<bv8>, sectorSize: nat, numSectors: nat, startingSector: nat,
                                   roundNum: bv64, uuid: seq<bv8>, crc: seq<bv8> -> bv32)
    requires KEY_AREA_END + 4 <= sectorSize && numSectors * sectorSize <= data.Length && |uuid| == UUID_SIZE
    modifies data
    ensures SectorsMapped(old(data[..]), data[..], sectorSize, numSectors, SectorPreparer(startingSector, roundNum, uuid, crc))
    ensures data[numSectors * sectorSize..] == old(data[numSectors * sectorSize..])
  {
    ghost var f := SectorPreparer(startingSector, roundNum, uuid, crc);
    ghost var orig := data[..];
    var i, off := 0, 0;
    while i < numSectors
      invariant i <= numSectors && off == i * sectorSize
      invariant SectorsMapped(orig, data[..], sectorSize, i, f)
      invariant data[off..] == orig[off..]
    {
      SectorsDisjoint(i, numSectors, sectorSize);
      PrepareBlockSector(data, orig, off, sectorSize, i, startingSector, roundNum, uuid, crc);
      MulSucc(i, sectorSize);
      i, off := i + 1, off + sectorSize;
    }
  }

  /** One iteration of the block loop: sector `count` is prepared, the ones before it stay prepared. */
  method PrepareBlockSector(data: array<bv8>, ghost orig: seq<bv8>, off: nat, size: nat, count: nat,
                            startingSector: nat, roundNum: bv64, uuid: seq<bv8>, crc: seq<bv8> -> bv32)
    requires KEY_AREA_END + 4 <= size && |uuid| == UUID_SIZE
    requires off == count * size && off + size <= |orig| == data.Length
    requires SectorsMapped(orig, data[..], size, count, SectorPreparer(startingSector, roundNum, uuid, crc))
    requires data[off..] == orig[off..]
    modifies data
    ensures SectorsMapped(orig, data[..], size, count + 1, SectorPreparer(startingSector, roundNum, uuid, crc))
    ensures data[off + size..] == orig[off + size..]
  {
    ghost var f := SectorPreparer(startingSector, roundNum, uuid, crc);
    ghost var cur := data[..];
    ghost var view := cur[off..off + size];
    PrepareSectorAt(data, off, size, count, startingSector, roundNum, uuid, crc);
    SectorsMappedStep(orig, cur, size, count, off, f);
  }

  /**
   * The read-back side of a prepared block: every sector j carries sector
   * number startingSector + j (modulo 2^64), the round number and the UUID,
   * and its CRC field holds the CRC of the rest of the sector.
   */
  lemma PreparedBlockDecodes(orig: seq<bv8>, cur: seq<bv8>, size: nat, count: nat, startingSector: nat,
                             roundNum: bv64, uuid: seq<bv8>, crc: seq<bv8> -> bv32, j: nat)
    requires KEY_AREA_END + 4 <= size && count * size <= |orig| == |cur| && |uuid| == UUID_SIZE && j < count
    requires SectorsMapped(orig, cur, size, count, SectorPreparer(startingSector, roundNum, uuid, crc))
    ensures j * size + size <= |cur|
    ensures Carries(cur[j * size..j * size + size], Wrap64(startingSector + j), roundNum, uuid, crc)
  {
    SectorsMappedAt(orig, cur, size, count, SectorPreparer(startingSector, roundNum, uuid, crc), j);
    PreparedViewDecodes(cur[j * size..j * size + size], orig[j * size..j * size + size], startingSector, roundNum, uuid, crc, j);
  }

  /** One sector of a prepared block, taken on its own: it carries its fields. */
  lemma PreparedViewDecodes(sector: seq<bv8>, view: seq<bv8>, startingSector: nat, roundNum: bv64, uuid: seq<bv8>,
                            crc: seq<bv8> -> bv32, j: nat)
    requires |view| >= KEY_AREA_END + 4 && |uuid| == UUID_SIZE
    requires sector == SectorPreparer(startingSector, roundNum, uuid, crc)(j, view)
    ensures Carries(sector, Wrap64(startingSector + j), roundNum, uuid, crc)
  {
    PreparerApplies(startingSector, roundNum, uuid, crc, j, view);
    PreparedSectorDecodes(view, Wrap64(startingSector + j), roundNum, uuid, crc);
  }
}
