/**
  The event scheduler of crates/common/src/scheduler.rs: one deadline slot per
  kind of event, popped in the order of deadline and slot priority.
 */
module Scheduler {
  import opened Sorting

  type Cycle = n: nat | n < 0x1_0000_0000_0000_0000

  datatype Slot = Empty | At(cycle: Cycle)

  datatype Scheduled = Scheduled(index: nat, fireCycle: Cycle)

  /** The order of popped events: earliest deadline first, then the lower slot. */
  predicate Precedes(a: Scheduled, b: Scheduled) {
    a.fireCycle < b.fireCycle || (a.fireCycle == b.fireCycle && a.index < b.index)
  }

  predicate DueAt(slots: seq<Slot>, cycle: nat, e: Scheduled) {
    e.index < |slots| && slots[e.index] == At(e.fireCycle) && e.fireCycle <= cycle
  }

  /** `due` holds each due slot exactly once and nothing else, in order. */
  ghost predicate IsPop(slots: seq<Slot>, cycle: nat, due: seq<Scheduled>) {
    Ordered(due, Precedes) && forall e :: e in due <==> DueAt(slots, cycle, e)
  }

  function Cleared(slots: seq<Slot>, cycle: nat): seq<Slot> {
    seq(|slots|, i requires 0 <= i < |slots| =>
      if slots[i].At? && slots[i].cycle <= cycle then Empty else slots[i])
  }

  /** The earliest pending deadline. */
  ghost predicate IsNext(slots: seq<Slot>, next: Slot) {
    && (forall i :: 0 <= i < |slots| && slots[i].At? ==> next.At? && next.cycle <= slots[i].cycle)
    && (next.At? ==> next in slots)
  }

  class SchedulerState {
    const fireCycles: array<Slot>

    constructor (eventCount: nat)
      ensures fresh(fireCycles) && fireCycles.Length == eventCount
      ensures forall i :: 0 <= i < eventCount ==> fireCycles[i] == Empty
    {
      fireCycles := new Slot[eventCount](_ => Empty);
    }

    method Schedule(index: nat, fireCycle: Cycle)
      requires index < fireCycles.Length
      modifies fireCycles
      ensures fireCycles[..] == old(fireCycles[..])[index := At(fireCycle)]
    {
      fireCycles[index] := At(fireCycle);
    }

    method Cancel(index: nat)
      requires index < fireCycles.Length
      modifies fireCycles
      ensures fireCycles[..] == old(fireCycles[..])[index := Empty]
    {
      fireCycles[index] := Empty;
    }

    method NextEventCycle() returns (next: Slot)
      ensures IsNext(fireCycles[..], next)
    {
      next := Empty;
      for i := 0 to fireCycles.Length
        invariant IsNext(fireCycles[..i], next)
      {
        assert fireCycles[..i + 1] == fireCycles[..i] + [fireCycles[i]];
        if fireCycles[i].At? && (next.Empty? || fireCycles[i].cycle < next.cycle) {
          next := fireCycles[i];
        }
      }
      assert fireCycles[..fireCycles.Length] == fireCycles[..];
    }

    /** Takes the due slots out, in order; no due slot stays and no other slot changes. */
    method PopDue(capacity: nat, currentCycle: Cycle) returns (due: seq<Scheduled>)
      requires fireCycles.Length <= capacity
      modifies fireCycles
      ensures IsPop(old(fireCycles[..]), currentCycle, due)
      ensures fireCycles[..] == Cleared(old(fireCycles[..]), currentCycle)
      ensures |due| <= capacity
    {
      ghost var slots := fireCycles[..];
      due := [];
      for i := 0 to fireCycles.Length
        invariant fireCycles[i..] == slots[i..]
        invariant fireCycles[..i] == Cleared(slots, currentCycle)[..i]
        invariant |due| <= i
        invariant Collected(slots, currentCycle, i, due)
      {
        assert fireCycles[i] == fireCycles[i..][0] == slots[i];
        CollectsNext(slots, currentCycle, i, due);
        if fireCycles[i].At? && fireCycles[i].cycle <= currentCycle {
          due := due + [Scheduled(i, fireCycles[i].cycle)];
          fireCycles[i] := Empty;
        }
      }
      assert fireCycles[..fireCycles.Length] == fireCycles[..];
      ghost var collected := due;
      PrecedesIsStrict();
      due := Sort(due, Precedes);
      SameElements(collected, due);
    }
  }

  /** The due slots among the first `n`, in the order of their slots. */
  ghost predicate Collected(slots: seq<Slot>, cycle: nat, n: nat, due: seq<Scheduled>) {
    && (forall e: Scheduled :: e in due <==> e.index < n && DueAt(slots, cycle, e))
    && (forall i, j :: 0 <= i < j < |due| ==> due[i].index < due[j].index)
  }

  lemma CollectsNext(slots: seq<Slot>, cycle: nat, n: nat, due: seq<Scheduled>)
    requires n < |slots| && Collected(slots, cycle, n, due)
    ensures
      if slots[n].At? && slots[n].cycle <= cycle then
        Collected(slots, cycle, n + 1, due + [Scheduled(n, slots[n].cycle)])
      else Collected(slots, cycle, n + 1, due)
  {
    if slots[n].At? && slots[n].cycle <= cycle {
      var e := Scheduled(n, slots[n].cycle);
      assert forall i :: 0 <= i < |due| ==> due[i] in due;
      forall x: Scheduled ensures x in due + [e] <==> x.index < n + 1 && DueAt(slots, cycle, x) {
        assert x in due + [e] <==> x in due || x == e;
      }
    } else {
      forall x: Scheduled | x.index < n + 1 && DueAt(slots, cycle, x) ensures x.index < n {}
    }
  }

  lemma PrecedesIsStrict()
    ensures StrictOrder(Precedes)
  {
  }

  // ------------------------------------------------------------------
  // Popping in steps
  // ------------------------------------------------------------------

  /**
    Popping at one cycle and again at a later one, with nothing scheduled in between, is the same as
    popping once at the later cycle: the same events in the same order, and the same slots left.
   */
  lemma PopsCompose(
    slots: seq<Slot>, first: nat, second: nat, a: seq<Scheduled>, b: seq<Scheduled>, once: seq<Scheduled>)
    requires first <= second
    requires IsPop(slots, first, a) && IsPop(Cleared(slots, first), second, b) && IsPop(slots, second, once)
    ensures a + b == once
    ensures Cleared(Cleared(slots, first), second) == Cleared(slots, second)
  {
    forall i, j | 0 <= i < |a| && 0 <= j < |b| ensures Precedes(a[i], b[j]) {
      assert a[i] in a && b[j] in b;
    }
    OrderedJoin(a, b, Precedes);
    forall e ensures e in a + b <==> e in once {
      assert DueAt(slots, second, e) <==> DueAt(slots, first, e) || DueAt(Cleared(slots, first), second, e);
    }
    PrecedesIsStrict();
    OrderedIsUnique(a + b, once, Precedes);
  }

  /** After a pop, the next deadline lies past the popped cycle, and is that of the slots before. */
  lemma NextAfterPop(slots: seq<Slot>, cycle: nat, next: Slot)
    requires IsNext(Cleared(slots, cycle), next)
    ensures next.At? ==> next.cycle > cycle && next in slots
    ensures next.Empty? <==> forall i :: 0 <= i < |slots| && slots[i].At? ==> slots[i].cycle <= cycle
  {
    var left := Cleared(slots, cycle);
    if next.At? {
      var i :| 0 <= i < |left| && left[i] == next;
      assert slots[i] == next;
    }
    forall i | next.Empty? && 0 <= i < |slots| && slots[i].At? ensures slots[i].cycle <= cycle {
      assert left[i].Empty?;
    }
  }

  /** Replaying a pop from a captured state pops the same events again. */
  lemma ReplayIsExact(slots: seq<Slot>, cycle: nat, a: seq<Scheduled>, b: seq<Scheduled>)
    requires IsPop(slots, cycle, a) && IsPop(slots, cycle, b)
    ensures a == b
  {
    PrecedesIsStrict();
    OrderedIsUnique(a, b, Precedes);
  }
}
