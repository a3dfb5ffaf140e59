/**
 * The beginning-of-device (BOD) and middle-of-device (MOD) buffers (mfst.c):
 * copies of the first and middle `bod_mod_buffer_size` bytes of the device,
 * kept up to date as the test writes, so that a re-attached device can be
 * recognised by its contents.
 */
module BodMod {
  import TestingContext

  type Context = TestingContext.DeviceTestingContext

  const TWO_TO_64: int := 0x1_0000_0000_0000_0000

  /**
   * What an area of the device holds after `data` is written at byte
   * `writeStart`: the written bytes where the write overlaps the area, the old
   * contents elsewhere. `area` holds the bytes from `areaStart` on.
   */
  function AreaAfterWrite(area: seq<bv8>, areaStart: nat, writeStart: nat, data: seq<bv8>): (r: seq<bv8>)
    ensures |r| == |area|
  {
    seq(|area|, i requires 0 <= i < |area| =>
      if writeStart <= areaStart + i < writeStart + |data| then data[areaStart + i - writeStart] else area[i])
  }

  /** A write of num bytes at start overlaps the MOD area [mid, mid + size). */
  predicate ModAreaAffected(start: nat, num: nat, mid: nat, size: nat)
  {
    num > 0 && start < mid + size && mid < start + num
  }

  /** A write that misses an area leaves it as it was. */
  lemma MissedAreaUnchanged(area: seq<bv8>, areaStart: nat, writeStart: nat, data: seq<bv8>)
    requires writeStart + |data| <= areaStart || areaStart + |area| <= writeStart
    ensures AreaAfterWrite(area, areaStart, writeStart, data) == area
  {
  }

  /** `memcpy(dest + at, src + from, count)` on the buffer. */
  method CopyInto(dest: array<bv8>, at: nat, src: seq<bv8>, from: nat, count: nat)
    requires at + count <= dest.Length && from + count <= |src|
    modifies dest
    ensures forall i :: 0 <= i < dest.Length ==>
      dest[i] == if at <= i < at + count then src[from + i - at] else old(dest[i])
  {
    forall i | at <= i < at + count {
      dest[i] := src[from + i - at];
    }
  }

  /**
   * `update_bod_buffer`: when the write starts inside the BOD area, copies the
   * part of it that falls inside. The BOD copy then equals the device's first
   * bytes after the write.
   */
  method UpdateBodBuffer(ctx: Context, start: nat, buffer: seq<bv8>, numBytes: nat)
    requires numBytes <= |buffer| && ctx.bodBuffer.Length == ctx.bodModBufferSize
    modifies ctx.bodBuffer
    ensures ctx.bodBuffer[..] == AreaAfterWrite(old(ctx.bodBuffer[..]), 0, start, buffer[..numBytes])
  {
    var size := ctx.bodModBufferSize;
    if start < size {
      var bytesToCopy := numBytes;
      if numBytes + start > size {
        bytesToCopy := size - start;
      }
      CopyInto(ctx.bodBuffer, start, buffer, 0, bytesToCopy);
    }
  }

  /**
   * `update_mod_buffer`, corrected: copies the part of the write that falls
   * inside the MOD area for every write that overlaps it, using the real
   * overlap test `ModAreaAffected` in place of the endpoint test the source
   * writes (`WasModAreaAffectedAsWritten` below). The MOD copy then equals
   * the device's middle bytes after the write.
   */
  method UpdateModBuffer(ctx: Context, start: nat, buffer: seq<bv8>, numBytes: nat)
    requires numBytes <= |buffer| && ctx.modBuffer.Length == ctx.bodModBufferSize
    modifies ctx.modBuffer
    ensures ctx.modBuffer[..] == AreaAfterWrite(old(ctx.modBuffer[..]), ctx.middleOfDevice, start, buffer[..numBytes])
  {
    var size := ctx.bodModBufferSize;
    var mid := ctx.middleOfDevice;
    if ModAreaAffected(start, numBytes, mid, size) {
      var bytesToCopy := numBytes;
      if start < mid {
        var bufferOffset := mid - start;
        bytesToCopy := bytesToCopy - bufferOffset;
        if bytesToCopy > size {
          bytesToCopy := size;
        }
        CopyInto(ctx.modBuffer, 0, buffer, bufferOffset, bytesToCopy);
      } else {
        var position := start - mid;
        if position + numBytes > size {
          bytesToCopy := size - position;
        }
        CopyInto(ctx.modBuffer, position, buffer, 0, bytesToCopy);
      }
    }
  }

  /** `update_bod_mod_buffers`: both copies follow the write, the MOD copy through the corrected update. */
  method UpdateBodModBuffers(ctx: Context, start: nat, buffer: seq<bv8>, numBytes: nat)
    requires numBytes <= |buffer| && ctx.bodBuffer != ctx.modBuffer
    requires ctx.bodBuffer.Length == ctx.bodModBufferSize && ctx.modBuffer.Length == ctx.bodModBufferSize
    modifies ctx.bodBuffer, ctx.modBuffer
    ensures ctx.bodBuffer[..] == AreaAfterWrite(old(ctx.bodBuffer[..]), 0, start, buffer[..numBytes])
    ensures ctx.modBuffer[..] == AreaAfterWrite(old(ctx.modBuffer[..]), ctx.middleOfDevice, start, buffer[..numBytes])
  {
    UpdateBodBuffer(ctx, start, buffer, numBytes);
    UpdateModBuffer(ctx, start, buffer, numBytes);
  }

  // ---------------------------------------------------------------------------
  // The MOD test as the source writes it

  /** The last byte of a write, as the 64-bit expression `starting_byte + num_bytes - 1` computes it. */
  function WriteEnd(start: nat, num: nat): (e: nat)
    ensures start + num - 1 < TWO_TO_64 && num > 0 ==> e == start + num - 1
  {
    (start + num - 1) % TWO_TO_64
  }

  /** `was_mod_area_affected`: tests only whether one of the two end bytes lies in the MOD area. */
  predicate WasModAreaAffectedAsWritten(start: nat, end: nat, mid: nat, size: nat)
  {
    (start >= mid && start < mid + size) || (end >= mid && end < mid + size)
  }

  /**
   * For a write that does not wrap around 64 bits, the end-point test misses
   * exactly the writes that begin before the MOD area and end after it.
   */
  lemma ModTestMissesSpanningWrites(start: nat, num: nat, mid: nat, size: nat)
    requires num > 0 && start + num <= TWO_TO_64
    ensures ModAreaAffected(start, num, mid, size) <==>
      WasModAreaAffectedAsWritten(start, WriteEnd(start, num), mid, size) || (start < mid && mid + size < start + num)
  {
  }

  /**
   * A write of 3 * 4096 bytes from byte 0 overwrites the whole 4096-byte MOD
   * area at byte 4096, yet the end-point test reports it as not affected, so
   * the MOD copy would keep stale bytes.
   */
  lemma SpanningWriteLeavesModStale()
    ensures var area := seq(4096, i => 0 as bv8);
      var data := seq(3 * 4096, i => 0xFF as bv8);
      && !WasModAreaAffectedAsWritten(0, WriteEnd(0, |data|), 4096, 4096)
      && ModAreaAffected(0, |data|, 4096, 4096)
      && AreaAfterWrite(area, 4096, 0, data) != area
  {
    var area := seq(4096, i => 0 as bv8);
    var data := seq(3 * 4096, i => 0xFF as bv8);
    assert AreaAfterWrite(area, 4096, 0, data)[0] == 0xFF;
  }
}
