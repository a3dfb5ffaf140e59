/**
 * End-of-round bookkeeping of the endurance test (mfst.c): the failure
 * thresholds, the once-only `rounds_to_*` milestones and the abort-reason text.
 */
module RoundSummary {
  import TestingContext
  import SectorMap

  type Context = TestingContext.DeviceTestingContext

  /** ceil(n / d), as computed by a division followed by an increment when there is a remainder. */
  function CeilDiv(n: nat, d: nat): (r: nat)
    requires d > 0
    ensures r * d >= n
    ensures r == 0 || (r - 1) * d < n
  {
    if n % d == 0 then n / d else n / d + 1
  }

  /** The two failure thresholds: sectors that must fail for 10% and for 25% of the device to have failed. */
  method ComputeFailureThresholds(ctx: Context)
    modifies ctx`sectorsTo10Threshold, ctx`sectorsTo25Threshold
    ensures ctx.sectorsTo10Threshold == CeilDiv(ctx.numPhysicalSectors, 10)
    ensures ctx.sectorsTo25Threshold == CeilDiv(ctx.numPhysicalSectors, 4)
  {
    ctx.sectorsTo10Threshold := ctx.numPhysicalSectors / 10;
    if ctx.numPhysicalSectors % 10 != 0 {
      ctx.sectorsTo10Threshold := ctx.sectorsTo10Threshold + 1;
    }
    ctx.sectorsTo25Threshold := ctx.numPhysicalSectors / 4;
    if ctx.numPhysicalSectors % 4 != 0 {
      ctx.sectorsTo25Threshold := ctx.sectorsTo25Threshold + 1;
    }
  }

  /** On a non-empty device, the 10% threshold is positive and no larger than the 25% one. */
  lemma ThresholdsOrdered(n: nat)
    requires n > 0
    ensures 1 <= CeilDiv(n, 10) <= CeilDiv(n, 4)
  {
  }

  /**
   * The milestones are consistent: a reached 25% milestone implies a reached
   * 10% one no later, which implies a first error no later, and none lies
   * beyond the rounds completed.
   */
  ghost predicate MilestonesOrdered(ctx: Context)
    reads ctx
  {
    && (ctx.roundsTo25Threshold != TestingContext.NOT_REACHED ==>
          ctx.roundsTo10Threshold != TestingContext.NOT_REACHED && ctx.roundsTo10Threshold <= ctx.roundsTo25Threshold)
    && (ctx.roundsTo10Threshold != TestingContext.NOT_REACHED ==>
          ctx.roundsToFirstError != TestingContext.NOT_REACHED && ctx.roundsToFirstError <= ctx.roundsTo10Threshold)
    && (ctx.roundsToFirstError != TestingContext.NOT_REACHED ==> ctx.roundsToFirstError <= ctx.roundsCompleted)
    && (ctx.roundsTo10Threshold != TestingContext.NOT_REACHED ==> ctx.roundsTo10Threshold <= ctx.roundsCompleted)
    && (ctx.roundsTo25Threshold != TestingContext.NOT_REACHED ==> ctx.roundsTo25Threshold <= ctx.roundsCompleted)
  }

  /** A milestone's value after the summary: set to the rounds completed the first time its condition holds. */
  function Milestone(before: nat, reached: bool, roundsCompleted: nat): nat
  {
    if before == TestingContext.NOT_REACHED && reached then roundsCompleted else before
  }

  /**
   * `perform_end_of_round_summary`: when the round found bad sectors (new or
   * earlier), records the current round count in each milestone whose
   * condition now holds for the first time. A milestone once set never changes.
   */
  method PerformEndOfRoundSummary(ctx: Context)
    requires ctx.sectors != null
    modifies ctx`roundsToFirstError, ctx`roundsTo10Threshold, ctx`roundsTo25Threshold
    ensures var total := ctx.sectors.totalBadSectors;
      var active := !(ctx.numNewBadSectorsThisRound == 0 && total == 0);
      && ctx.roundsToFirstError == Milestone(old(ctx.roundsToFirstError), active && total != 0, ctx.roundsCompleted)
      && ctx.roundsTo10Threshold == Milestone(old(ctx.roundsTo10Threshold), active && total >= ctx.sectorsTo10Threshold, ctx.roundsCompleted)
      && ctx.roundsTo25Threshold == Milestone(old(ctx.roundsTo25Threshold), active && total >= ctx.sectorsTo25Threshold, ctx.roundsCompleted)
    ensures old(ctx.roundsToFirstError) != TestingContext.NOT_REACHED ==> ctx.roundsToFirstError == old(ctx.roundsToFirstError)
    ensures old(ctx.roundsTo10Threshold) != TestingContext.NOT_REACHED ==> ctx.roundsTo10Threshold == old(ctx.roundsTo10Threshold)
    ensures old(ctx.roundsTo25Threshold) != TestingContext.NOT_REACHED ==> ctx.roundsTo25Threshold == old(ctx.roundsTo25Threshold)
    ensures old(MilestonesOrdered(ctx)) && 1 <= ctx.sectorsTo10Threshold <= ctx.sectorsTo25Threshold ==> MilestonesOrdered(ctx)
  {
    var total := ctx.sectors.totalBadSectors;
    if !(ctx.numNewBadSectorsThisRound == 0 && total == 0) {
      if ctx.roundsToFirstError == TestingContext.NOT_REACHED && total != 0 {
        ctx.roundsToFirstError := ctx.roundsCompleted;
      }
      if ctx.roundsTo10Threshold == TestingContext.NOT_REACHED && total >= ctx.sectorsTo10Threshold {
        ctx.roundsTo10Threshold := ctx.roundsCompleted;
      }
      if ctx.roundsTo25Threshold == TestingContext.NOT_REACHED && total >= ctx.sectorsTo25Threshold {
        ctx.roundsTo25Threshold := ctx.roundsCompleted;
      }
    }
  }

  /** Finishing a round (the `rounds_completed++` of the main loop) keeps the milestones consistent. */
  method CompleteRound(ctx: Context)
    modifies ctx`roundsCompleted
    ensures ctx.roundsCompleted == old(ctx.roundsCompleted) + 1
    ensures old(MilestonesOrdered(ctx)) ==> MilestonesOrdered(ctx)
  {
    ctx.roundsCompleted := ctx.roundsCompleted + 1;
  }

  /** A fresh context satisfies the milestone ordering. */
  lemma FreshMilestonesOrdered(ctx: Context)
    requires ctx.Fresh()
    ensures MilestonesOrdered(ctx)
  {
  }

  /** The reason `print_device_summary` reports, by abort-reason code. */
  function AbortReasonLabel(reason: nat): (text: string)
    ensures text == "(unknown)" <==> reason == 0 || reason > 5
  {
    if reason > 5 then "(unknown)"
    else ["(unknown)", "read_error", "write error", "seek error", "50% of sectors have failed", "device went away"][reason]
  }

  /** The abort-reason codes of mfst.h. */
  const ABORT_REASON_READ_ERROR: nat := 1
  const ABORT_REASON_WRITE_ERROR: nat := 2
  const ABORT_REASON_SEEK_ERROR: nat := 3
  const ABORT_REASON_FIFTY_PERCENT_FAILURE: nat := 4
  const ABORT_REASON_DEVICE_REMOVED: nat := 5

  /** Each defined code has its own label. */
  lemma AbortReasonLabelsDistinct(a: nat, b: nat)
    requires 1 <= a <= 5 && 1 <= b <= 5 && a != b
    ensures AbortReasonLabel(a) != AbortReasonLabel(b)
  {
  }
}
