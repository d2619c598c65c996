/**
  The bounded run loop of crates/common/src/automation.rs. The machine behind
  the driver is arbitrary: how far each slice runs is a function it is given,
  so a property proved here holds for every machine whose reported consumption
  is the advance of its tick counter.
 */
module RunDriver {
  import opened Wrappers

  datatype RunTarget = Ticks(count: Word) | Frames(count: Word) | UntilSessionFrame(target: nat)

  datatype RunRequest = RunRequest(target: RunTarget, maxTicks: Word, audioDrainIntervalTicks: Word)

  datatype StopReason = TargetReached | TickLimit | GuestShutdown

  datatype RunOutcome = RunOutcome(
    stopReason: StopReason, ticks: Word, frames: Word, overshootTicks: Word, epochTicks: Word, epochFrames: Word)

  /** What a machine does in one slice. */
  datatype Slice = Slice(ticks: nat, frames: nat)

  /**
    A machine: its slice number, tick budget and the frames left up to an armed stop (0 without one)
    decide how far it runs; `shutdown` says before which slice the guest has asked to power off.
   */
  datatype Machine = Machine(run: (nat, nat, nat) -> Slice, shutdown: nat -> bool)
  {
    /** It stops no later than at an armed frame. */
    ghost predicate HonoursArming() {
      forall n: nat, budget: nat, room: nat :: room > 0 ==> run(n, budget, room).frames <= room
    }

    /** It consumes nothing, as a machine that waits for ever does. */
    ghost predicate Hangs() {
      forall n: nat, budget: nat, room: nat :: run(n, budget, room).ticks == 0
    }

    /** It overruns a budget by at most `operation` ticks. */
    ghost predicate OverrunsBy(operation: nat) {
      forall n: nat, budget: nat, room: nat :: run(n, budget, room).ticks <= budget + operation
    }
  }

  class Driver {
    const machine: Machine
    var slices: nat
    var epochTicks: Word
    var epochFrames: Word
    var armedFrame: Option<Word>
    /** All ticks for which audio was generated and discarded. */
    var drainedTicks: nat
    /** The budgets given to the machine, and what the last slice consumed. */
    ghost var budgets: seq<nat>
    ghost var lastConsumed: nat

    constructor (machine: Machine)
      ensures this.machine == machine
    {
      this.machine := machine;
      slices, epochTicks, epochFrames, armedFrame, drainedTicks := 0, 0, 0, None, 0;
      budgets, lastConsumed := [], 0;
    }

    method ArmPresentationYield(targetFrame: Word)
      modifies `armedFrame
      ensures armedFrame == Some(targetFrame)
    {
      armedFrame := Some(targetFrame);
    }

    method DisarmPresentationYield()
      modifies `armedFrame
      ensures armedFrame.None?
    {
      armedFrame := None;
    }

    function ShutdownRequested(): bool
      reads `slices
    {
      machine.shutdown(slices)
    }

    /** The frames left up to the armed stop. */
    function Room(): nat
      reads `armedFrame, `epochFrames
    {
      if armedFrame.Some? && armedFrame.value > epochFrames then armedFrame.value - epochFrames else 0
    }

    /** The reported consumption is the advance of the tick counter, which does not wrap. */
    method RunFor(budget: Word) returns (consumed: Word)
      modifies `slices, `epochTicks, `epochFrames, `budgets, `lastConsumed
      ensures epochTicks == old(epochTicks) + consumed && epochFrames >= old(epochFrames)
      ensures slices == old(slices) + 1 && budgets == old(budgets) + [budget] && lastConsumed == consumed
      ensures machine.HonoursArming() && old(Room()) > 0 ==> epochFrames <= armedFrame.value
      ensures forall operation: nat :: machine.OverrunsBy(operation) ==> consumed <= budget + operation
      ensures machine.Hangs() ==> consumed == 0
    {
      var s := machine.run(slices, budget, Room());
      consumed := if epochTicks + s.ticks > WORD_MAX then WORD_MAX - epochTicks else s.ticks;
      epochTicks := epochTicks + consumed;
      epochFrames := if epochFrames + s.frames > WORD_MAX then WORD_MAX else epochFrames + s.frames;
      slices := slices + 1;
      budgets, lastConsumed := budgets + [budget], consumed;
    }

    method DrainAudio(elapsedTicks: Word)
      modifies `drainedTicks
      ensures drainedTicks == old(drainedTicks) + elapsedTicks
    {
      drainedTicks := drainedTicks + elapsedTicks;
    }

    /** The last slice of a run made no progress. */
    ghost predicate Stalled(before: nat)
      reads `slices, `lastConsumed
    {
      slices > before && lastConsumed == 0
    }

    /** Runs bounded chunks up to the target, draining the audio of each. */
    method DriveTicks(tickTarget: Word, drainInterval: Word) returns (reason: StopReason)
      modifies `slices, `epochTicks, `epochFrames, `budgets, `lastConsumed, `drainedTicks
      ensures reason.TargetReached? <==> epochTicks >= tickTarget || Stalled(old(slices))
      ensures reason.GuestShutdown? <==> epochTicks < tickTarget && !Stalled(old(slices))
      ensures reason.GuestShutdown? ==> ShutdownRequested()
      ensures epochTicks - old(epochTicks) == drainedTicks - old(drainedTicks) >= 0
      ensures epochFrames >= old(epochFrames)
      ensures old(budgets) <= budgets
      ensures forall i :: |old(budgets)| <= i < |budgets| ==>
        0 < budgets[i] <= (if drainInterval > 1 then drainInterval else 1)
      ensures forall operation: nat :: machine.OverrunsBy(operation) && old(epochTicks) <= tickTarget ==>
        epochTicks <= tickTarget + operation
      ensures machine.Hangs() ==> epochTicks == old(epochTicks)
    {
      var interval: Word := if drainInterval > 1 then drainInterval else 1;
      while true
        invariant epochTicks - old(epochTicks) == drainedTicks - old(drainedTicks) >= 0
        invariant epochFrames >= old(epochFrames) && slices >= old(slices)
        invariant slices > old(slices) ==> lastConsumed > 0
        invariant old(budgets) <= budgets
        invariant machine.Hangs() ==> epochTicks == old(epochTicks)
        invariant forall i :: |old(budgets)| <= i < |budgets| ==> 0 < budgets[i] <= interval
        invariant forall operation: nat :: machine.OverrunsBy(operation) && old(epochTicks) <= tickTarget ==>
          epochTicks <= tickTarget + operation
        decreases tickTarget - epochTicks
      {
        var current := epochTicks;
        if current >= tickTarget {
          return TargetReached;
        }
        if ShutdownRequested() {
          return GuestShutdown;
        }
        var budget: Word := if tickTarget - current < interval then tickTarget - current else interval;
        var consumed := RunFor(budget);
        DrainAudio(consumed);
        if consumed == 0 && epochTicks == current {
          return TargetReached;
        }
      }
    }

    /** Runs from frame to frame up to the target or the tick limit, draining audio once a frame. */
    method DriveFrames(targetFrame: Word, startTicks: Word, maxTicks: Word) returns (reason: StopReason)
      modifies `slices, `epochTicks, `epochFrames, `armedFrame, `budgets, `lastConsumed, `drainedTicks
      ensures var limit := SaturatingAdd(startTicks, maxTicks);
        && (Stalled(old(slices)) ==> reason.TickLimit?)
        && (!Stalled(old(slices)) ==>
             && (reason.TargetReached? <==> epochFrames >= targetFrame)
             && (reason.GuestShutdown? <==> epochFrames < targetFrame && ShutdownRequested())
             && (reason.TickLimit? ==> epochTicks >= limit))
      ensures epochTicks - old(epochTicks) == drainedTicks - old(drainedTicks) >= 0
      ensures epochFrames >= old(epochFrames)
      ensures machine.HonoursArming() && old(epochFrames) <= targetFrame ==> epochFrames <= targetFrame
      ensures old(epochFrames) >= targetFrame ==> epochFrames == old(epochFrames) && reason.TargetReached?
      ensures forall operation: nat ::
        machine.OverrunsBy(operation) && old(epochTicks) <= SaturatingAdd(startTicks, maxTicks) ==>
        epochTicks <= SaturatingAdd(startTicks, maxTicks) + operation
    {
      var tickLimit := SaturatingAdd(startTicks, maxTicks);
      while true
        invariant epochTicks - old(epochTicks) == drainedTicks - old(drainedTicks) >= 0
        invariant epochFrames >= old(epochFrames) && slices >= old(slices)
        invariant slices > old(slices) ==> lastConsumed > 0
        invariant machine.HonoursArming() && old(epochFrames) <= targetFrame ==> epochFrames <= targetFrame
        invariant slices == old(slices) ==> epochFrames == old(epochFrames)
        invariant slices > old(slices) ==> old(epochFrames) < targetFrame
        invariant forall operation: nat :: machine.OverrunsBy(operation) && old(epochTicks) <= tickLimit ==>
          epochTicks <= tickLimit + operation
        decreases tickLimit - epochTicks
      {
        var framesNow := epochFrames;
        if framesNow >= targetFrame {
          return TargetReached;
        }
        if ShutdownRequested() {
          return GuestShutdown;
        }
        var currentTicks := epochTicks;
        if currentTicks >= tickLimit {
          return TickLimit;
        }
        ArmPresentationYield(framesNow + 1);
        var consumed := RunFor(tickLimit - currentTicks);
        DrainAudio(consumed);
        if consumed == 0 && epochTicks == currentTicks {
          return TickLimit;
        }
      }
    }

    /** One bounded run: audio is drained for exactly the ticks that ran, and no stop stays armed. */
    method DriveAutomation(request: RunRequest) returns (outcome: RunOutcome)
      modifies this
      ensures armedFrame.None?
      ensures outcome.ticks == epochTicks - old(epochTicks) == drainedTicks - old(drainedTicks)
      ensures outcome.frames == epochFrames - old(epochFrames)
      ensures outcome.epochTicks == epochTicks && outcome.epochFrames == epochFrames
      ensures request.target.Ticks? ==> TicksOutcome(old(epochTicks), old(slices), request.target.count, outcome)
      ensures !request.target.Ticks? ==> outcome.overshootTicks == 0
      ensures !request.target.Ticks? ==>
        FramesOutcome(
          old(epochTicks), old(slices), FrameTarget(old(epochFrames), request.target), request.maxTicks, outcome)
      ensures !request.target.Ticks? && machine.HonoursArming() && outcome.stopReason.TargetReached? ==>
        var target := FrameTarget(old(epochFrames), request.target);
        epochFrames == if old(epochFrames) > target then old(epochFrames) else target
      ensures forall operation: nat :: machine.OverrunsBy(operation) && request.target.Ticks? ==>
        outcome.overshootTicks <= operation
      ensures machine.Hangs() && request.target.Ticks? ==> outcome.ticks == 0
    {
      var startTicks, startFrames := epochTicks, epochFrames;
      var stopReason;
      var tickTarget: Option<Word> := None;
      match request.target {
        case Ticks(count) =>
          var target := SaturatingAdd(startTicks, count);
          stopReason := DriveTicks(target, request.audioDrainIntervalTicks);
          tickTarget := Some(target);
        case Frames(count) =>
          stopReason := DriveFrames(SaturatingAdd(startFrames, count), startTicks, request.maxTicks);
        case UntilSessionFrame(target) =>
          stopReason := DriveFrames(if target > WORD_MAX then WORD_MAX else target, startTicks, request.maxTicks);
      }
      DisarmPresentationYield();
      var overshoot: Word := if tickTarget.Some? then SaturatingSub(epochTicks, tickTarget.value) else 0;
      outcome := RunOutcome(
        stopReason, SaturatingSub(epochTicks, startTicks), SaturatingSub(epochFrames, startFrames), overshoot,
        epochTicks, epochFrames);
    }

    /** A tick run ends at or past its target, on a stall, or for a shutdown ahead of the target. */
    ghost predicate TicksOutcome(startTicks: Word, before: nat, count: Word, outcome: RunOutcome)
      reads `epochTicks, `slices, `lastConsumed
    {
      var target := SaturatingAdd(startTicks, count);
      && (outcome.stopReason.TargetReached? <==> epochTicks >= target || Stalled(before))
      && (outcome.stopReason.GuestShutdown? ==> epochTicks < target && ShutdownRequested())
      && !outcome.stopReason.TickLimit?
      && outcome.overshootTicks == (if epochTicks > target then epochTicks - target else 0)
    }

    /** A frame run ends at its target, for a shutdown, or at the tick limit or on a stall. */
    ghost predicate FramesOutcome(
      startTicks: Word, before: nat, target: Word, maxTicks: Word, outcome: RunOutcome)
      reads `epochTicks, `epochFrames, `slices, `lastConsumed
    {
      var limit := SaturatingAdd(startTicks, maxTicks);
      && (outcome.stopReason.TargetReached? <==> epochFrames >= target && !Stalled(before))
      && (outcome.stopReason.GuestShutdown? ==> epochFrames < target && ShutdownRequested())
      && (outcome.stopReason.TickLimit? ==> epochTicks >= limit || Stalled(before))
    }
  }

  function FrameTarget(startFrames: Word, target: RunTarget): Word
    requires !target.Ticks?
  {
    if target.Frames? then SaturatingAdd(startFrames, target.count)
    else if target.target > WORD_MAX then WORD_MAX
    else target.target
  }

  /** A tick run on a hung machine reports its target as reached, however far off it is. */
  method HungTickRun(run: (nat, nat, nat) -> Slice, count: Word, interval: Word) returns (outcome: RunOutcome)
    requires Machine(run, _ => false).Hangs()
    ensures outcome.stopReason.TargetReached? && outcome.ticks == 0
  {
    var driver := new Driver(Machine(run, _ => false));
    outcome := driver.DriveAutomation(RunRequest(Ticks(count), 0, interval));
  }
}
