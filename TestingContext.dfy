/**
 * The per-device testing context (device_testing_context.c): creation with its
 * BOD/MOD buffers, the device name, the file handle and the per-round counters.
 * Fields the modelled operations never touch (timestamps, statistics, file
 * handles of logs) are not part of this class.
 */
module TestingContext {
  import SectorMap

  datatype Option<T> = None | Some(value: T)

  /** The all-ones 64-bit value that marks a `rounds_to_*` milestone as not yet reached. */
  const NOT_REACHED: nat := 0xFFFF_FFFF_FFFF_FFFF

  class DeviceTestingContext {
    // device_info
    var deviceName: Option<string>
    var fd: int
    var sectorSize: nat
    var numPhysicalSectors: nat
    /** Byte offset of the middle-of-device (MOD) area. */
    var middleOfDevice: nat
    var bodBuffer: array<bv8>
    var modBuffer: array<bv8>
    var bodModBufferSize: nat

    // endurance_test_info
    var roundsCompleted: nat
    var numBadSectorsThisRound: nat
    var numNewBadSectorsThisRound: nat
    var numGoodSectorsThisRound: nat
    var sectorsTo10Threshold: nat
    var sectorsTo25Threshold: nat
    var roundsToFirstError: nat
    var roundsTo0_1Threshold: nat
    var roundsTo1Threshold: nat
    var roundsTo10Threshold: nat
    var roundsTo25Threshold: nat
    var initialSeed: nat
    /** The sector map and its bad-sector counter; absent until the test allocates it. */
    var sectors: SectorMap.EnduranceSectorMap?

    /** Every modelled field zeroed, except the file handle and the three sentinel milestones. */
    ghost predicate Fresh()
      reads this
    {
      && deviceName == None && fd == -1 && sectorSize == 0 && numPhysicalSectors == 0 && middleOfDevice == 0
      && roundsCompleted == 0 && numBadSectorsThisRound == 0 && numNewBadSectorsThisRound == 0
      && numGoodSectorsThisRound == 0 && sectorsTo10Threshold == 0 && sectorsTo25Threshold == 0
      && roundsToFirstError == NOT_REACHED && roundsTo0_1Threshold == 0 && roundsTo1Threshold == 0
      && roundsTo10Threshold == NOT_REACHED && roundsTo25Threshold == NOT_REACHED
      && initialSeed == 0 && sectors == null
    }

    constructor (bufferSize: nat)
      ensures Fresh()
      ensures bodModBufferSize == bufferSize
      ensures bodBuffer.Length == bufferSize && modBuffer.Length == bufferSize && bodBuffer != modBuffer
      ensures fresh(bodBuffer) && fresh(modBuffer)
    {
      deviceName, fd, sectorSize, numPhysicalSectors, middleOfDevice := None, -1, 0, 0, 0;
      roundsCompleted, numBadSectorsThisRound, numNewBadSectorsThisRound, numGoodSectorsThisRound := 0, 0, 0, 0;
      sectorsTo10Threshold, sectorsTo25Threshold := 0, 0;
      roundsToFirstError, roundsTo0_1Threshold, roundsTo1Threshold := NOT_REACHED, 0, 0;
      roundsTo10Threshold, roundsTo25Threshold := NOT_REACHED, NOT_REACHED;
      initialSeed := 0;
      sectors := null;
      bodBuffer := new bv8[bufferSize];
      modBuffer := new bv8[bufferSize];
      bodModBufferSize := bufferSize;
    }

    /**
     * `device_info_invalidate_file_handle`: closes an open handle and marks it
     * invalid. Only `fd` may change, so a second call finds fd == -1 and does
     * nothing.
     */
    method InvalidateFileHandle()
      modifies this`fd
      ensures fd == -1
    {
      if fd != -1 {
        fd := -1;
      }
    }
  }

  /**
   * `new_device_testing_context`: allocates the context and both buffers.
   * `contextAllocated`, `bodAllocated` and `modAllocated` say whether each
   * `malloc` succeeds; if any fails the result is null.
   */
  method NewDeviceTestingContext(bufferSize: nat, contextAllocated: bool, bodAllocated: bool, modAllocated: bool)
    returns (ctx: DeviceTestingContext?)
    ensures ctx == null <==> !(contextAllocated && bodAllocated && modAllocated)
    ensures ctx != null ==> fresh(ctx) && ctx.Fresh() && ctx.bodModBufferSize == bufferSize
    ensures ctx != null ==> ctx.bodBuffer.Length == bufferSize && ctx.modBuffer.Length == bufferSize
  {
    if !contextAllocated {
      return null;
    }
    if !bodAllocated || !modAllocated {
      return null;
    }
    ctx := new DeviceTestingContext(bufferSize);
  }

  /**
   * `device_info_set_device_name`: replaces the name with a copy of `name`;
   * when the copy cannot be allocated the old name is gone and the result is -1.
   * A null context is left alone and yields 0.
   */
  method SetDeviceName(ctx: DeviceTestingContext?, name: string, copyAllocated: bool) returns (r: int)
    modifies {ctx} - {null}`deviceName
    ensures ctx == null ==> r == 0
    ensures ctx != null && copyAllocated ==> r == 0 && ctx.deviceName == Some(name)
    ensures ctx != null && !copyAllocated ==> r == -1 && ctx.deviceName == None
  {
    if ctx != null {
      if ctx.deviceName.Some? {
        ctx.deviceName := None;
      }
      if !copyAllocated {
        return -1;
      }
      ctx.deviceName := Some(name);
    }
    return 0;
  }

  /** `endurance_test_info_reset_per_round_counters`: zeroes exactly the three per-round counters. */
  method ResetPerRoundCounters(ctx: DeviceTestingContext?)
    modifies {ctx} - {null}`numNewBadSectorsThisRound, {ctx} - {null}`numBadSectorsThisRound, {ctx} - {null}`numGoodSectorsThisRound
    ensures ctx != null ==> ctx.numNewBadSectorsThisRound == 0 && ctx.numBadSectorsThisRound == 0 && ctx.numGoodSectorsThisRound == 0
  {
    if ctx != null {
      ctx.numNewBadSectorsThisRound := 0;
      ctx.numBadSectorsThisRound := 0;
      ctx.numGoodSectorsThisRound := 0;
    }
  }
}
