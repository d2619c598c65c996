/**
  The application trace sink and its control handle of
  crates/common/src/tracing.rs. Sink and handle share one state behind a
  reference-counted cell, so they are one class here. A matcher is a client
  closure: the answers it gives for an event are parameters of `Trace`.
 */
module TraceSink {
  import opened TraceWindow
  import opened Wrappers

  const SCHEMA_VERSION: nat := 1
  const REGISTER_BYTES: nat := 16

  type Capacity = n: nat | 0 < n <= WORD_MAX witness 1

  datatype Limits = Limits(eventCapacity: Capacity, byteCapacity: Capacity, eventPayloadCapacity: Capacity)

  datatype Failure =
    | QueueOverflow(eventCapacity: Capacity, byteCapacity: Capacity)
    | EventPayloadTooLarge(capacity: Capacity)
    | SequenceExhausted

  datatype Decision = Ignore | Record | RecordAndYield

  datatype Class = AccessClass | InterruptClass | ScheduledClass | PresentationClass | DeviceClass | CallClass

  /** `body` stands for the fields no member of the sink looks at. */
  datatype Event =
    | Access(body: int)
    | Interrupt(body: int)
    | Scheduled(body: int)
    | Presentation(frame: Word, body: int)
    | Device(device: string, action: string, payload: Option<Word>, body: int)
    | Call(payload: Option<Word>, body: int)
  {
    function Class(): Class {
      match this
      case Access(_) => AccessClass
      case Interrupt(_) => InterruptClass
      case Scheduled(_) => ScheduledClass
      case Presentation(_, _) => PresentationClass
      case Device(_, _, _, _) => DeviceClass
      case Call(_, _) => CallClass
    }

    /** None when the sizes of the variable fields do not add up within a machine word. */
    function OwnedPayloadBytes(): Option<Word> {
      if Device? || Call? then payload else Some(0)
    }
  }

  datatype DeviceInterest = DeviceInterest(device: string, action: Option<string>)

  datatype Snapshot = Snapshot(processor: string, registers: seq<int>)

  datatype Content = Content(epoch: Word, context: int, event: Event, snapshot: Option<Snapshot>)

  datatype Envelope = Envelope(schemaVersion: nat, sequence: Word, content: Content)

  datatype RingStatus = Idle | Armed | Triggered | Complete

  datatype RingResult =
    RingResult(events: seq<Envelope>, triggered: bool, complete: bool, triggerIndex: Option<nat>)

  datatype Ring = Ring(
    before: Word, after: Word, pre: seq<(Envelope, Word)>, trigger: Option<Envelope>, post: seq<Envelope>,
    retainedBytes: Word, complete: bool)

  datatype Verdicts = Verdicts(decision: Decision, triggers: bool, captured: bool)

  function SnapshotBytes(snapshot: Option<Snapshot>): Word {
    if snapshot.None? then 0
    else
      var n := |snapshot.value.registers| * REGISTER_BYTES;
      if n > WORD_MAX then WORD_MAX else n
  }

  /** The bytes an event costs while it is retained; without machine-word limits. */
  function Charge(c: Content): nat {
    (if c.event.OwnedPayloadBytes().Some? then c.event.OwnedPayloadBytes().value else WORD_MAX + 1)
    + SnapshotBytes(c.snapshot)
  }

  function TotalCharge(s: seq<Envelope>): nat {
    if s == [] then 0 else TotalCharge(s[..|s| - 1]) + Charge(s[|s| - 1].content)
  }

  function Sequences(s: seq<Envelope>): seq<nat> {
    seq(|s|, i requires 0 <= i < |s| => s[i].sequence)
  }

  function Contents(s: seq<Envelope>): seq<Content> {
    seq(|s|, i requires 0 <= i < |s| => s[i].content)
  }

  ghost predicate Ascending(s: seq<nat>, bound: nat) {
    && (forall i, j :: 0 <= i < j < |s| ==> s[i] < s[j])
    && (forall i :: 0 <= i < |s| ==> s[i] < bound)
  }

  function Earlier(ring: Ring): seq<Envelope> {
    seq(|ring.pre|, i requires 0 <= i < |ring.pre| => ring.pre[i].0)
  }

  /** Everything a ring capture retains, in the order in which it is handed out. */
  function Retained(ring: Ring): seq<Envelope> {
    Earlier(ring) + (if ring.trigger.Some? then [ring.trigger.value] else []) + ring.post
  }

  /** The retained window without the sequence numbers. */
  function Erased(ring: Ring): Window<Content> {
    Window(
      Contents(Earlier(ring)),
      if ring.trigger.Some? then Some(ring.trigger.value.content) else None,
      Contents(ring.post),
      ring.complete)
  }

  // ------------------------------------------------------------------
  // Invariants
  // ------------------------------------------------------------------

  /** The queue respects every limit, its byte count is the sum of its payloads, and over
      the life of the sink the events handed out and still queued are strictly ordered. */
  ghost predicate QueueHolds(queue: seq<Envelope>, bytes: nat, limits: Limits, next: nat, delivered: seq<nat>) {
    && |queue| <= limits.eventCapacity
    && bytes == TotalCharge(queue) <= limits.byteCapacity
    && (forall e :: e in queue ==> Charge(e.content) <= limits.eventPayloadCapacity)
    && Ascending(delivered + Sequences(queue), next)
  }

  ghost predicate ChargesStored(pre: seq<(Envelope, Word)>) {
    forall i :: 0 <= i < |pre| ==> pre[i].1 == Charge(pre[i].0.content)
  }

  /** The byte count of a ring is exact; a capacity of the whole machine word leaves that open. */
  ghost predicate BytesHold(ring: Ring, limits: Limits) {
    && ring.retainedBytes <= limits.byteCapacity
    && (limits.byteCapacity < WORD_MAX ==>
         ChargesStored(ring.pre) && ring.retainedBytes == TotalCharge(Retained(ring)))
  }

  ghost predicate ShapeHolds(ring: Ring) {
    && |ring.pre| <= ring.before
    && |ring.post| <= ring.after
    && (ring.trigger.None? ==> ring.post == [] && !ring.complete)
    && (ring.trigger.Some? ==> (ring.complete <==> |ring.post| == ring.after))
  }

  ghost predicate RingHolds(ring: Ring, limits: Limits, next: nat) {
    && ShapeHolds(ring)
    && BytesHold(ring, limits)
    && Ascending(Sequences(Retained(ring)), next)
  }

  // ------------------------------------------------------------------
  // Sums and sequences
  // ------------------------------------------------------------------

  lemma TotalChargeExtended(s: seq<Envelope>, e: Envelope)
    ensures TotalCharge(s + [e]) == TotalCharge(s) + Charge(e.content)
  {
    assert (s + [e])[..|s|] == s;
  }

  lemma {:induction false} TotalChargeSplit(a: seq<Envelope>, b: seq<Envelope>)
    ensures TotalCharge(a + b) == TotalCharge(a) + TotalCharge(b)
  {
    if b == [] {
      assert a + b == a;
    } else {
      var n := |b| - 1;
      TotalChargeSplit(a, b[..n]);
      assert a + b == (a + b[..n]) + [b[n]];
      TotalChargeExtended(a + b[..n], b[n]);
    }
  }

  lemma SequencesSplit(a: seq<Envelope>, b: seq<Envelope>)
    ensures Sequences(a + b) == Sequences(a) + Sequences(b)
  {
  }

  lemma AscendingExtended(s: seq<nat>, next: nat)
    requires Ascending(s, next)
    ensures Ascending(s + [next], next + 1)
  {
  }

  lemma AscendingParts(a: seq<nat>, b: seq<nat>, next: nat)
    requires Ascending(a + b, next)
    ensures Ascending(a, next) && Ascending(b, next)
  {
    forall i | 0 <= i < |a| ensures (a + b)[i] == a[i] {}
    forall i | 0 <= i < |b| ensures (a + b)[|a| + i] == b[i] {}
  }

  /** Appending the envelope numbered `next` keeps a row of envelopes ordered. */
  lemma NumberedLast(delivered: seq<nat>, s: seq<Envelope>, e: Envelope)
    requires Ascending(delivered + Sequences(s), e.sequence)
    ensures Ascending(delivered + Sequences(s + [e]), e.sequence + 1)
  {
    SequencesSplit(s, [e]);
    assert Sequences([e]) == [e.sequence as nat];
    assert delivered + Sequences(s + [e]) == delivered + Sequences(s) + [e.sequence as nat];
    AscendingExtended(delivered + Sequences(s), e.sequence);
  }

  // ------------------------------------------------------------------
  // The queue
  // ------------------------------------------------------------------

  /** Whether the queue takes one more event of the given size, and the failure latched if not. */
  function QueueVerdict(limits: Limits, queued: nat, bytes: nat, next: Word, charge: nat): Option<Failure> {
    if charge > limits.eventPayloadCapacity then Some(EventPayloadTooLarge(limits.eventPayloadCapacity))
    else if queued >= limits.eventCapacity || bytes + charge > limits.byteCapacity then
      Some(QueueOverflow(limits.eventCapacity, limits.byteCapacity))
    else if next == WORD_MAX then Some(SequenceExhausted)
    else None
  }

  lemma QueueTakes(queue: seq<Envelope>, bytes: nat, limits: Limits, delivered: seq<nat>, e: Envelope)
    requires QueueHolds(queue, bytes, limits, e.sequence, delivered)
    requires QueueVerdict(limits, |queue|, bytes, e.sequence, Charge(e.content)).None?
    ensures QueueHolds(queue + [e], bytes + Charge(e.content), limits, e.sequence + 1, delivered)
  {
    hide Ascending, Charge, TotalCharge;
    TotalChargeExtended(queue, e);
    NumberedLast(delivered, queue, e);
  }

  // ------------------------------------------------------------------
  // The ring
  // ------------------------------------------------------------------

  /** The charge as the ring computes it, saturating at the machine word. */
  function SaturatedCharge(c: Content): Option<Word> {
    var payload := c.event.OwnedPayloadBytes();
    if payload.None? then None else Some(SaturatingAdd(payload.value, SnapshotBytes(c.snapshot)))
  }

  /** Whether the ring takes the event next to `retained` bytes, and the failure latched if not. */
  function RingVerdict(limits: Limits, next: Word, retained: Word, c: Content): Option<Failure> {
    var charge := SaturatedCharge(c);
    if charge.None? || charge.value > limits.eventPayloadCapacity then
      Some(EventPayloadTooLarge(limits.eventPayloadCapacity))
    else if next == WORD_MAX then Some(SequenceExhausted)
    else if SaturatingAdd(retained, charge.value) > limits.byteCapacity then
      Some(QueueOverflow(limits.eventCapacity, limits.byteCapacity))
    else None
  }

  /** An event enters the ring exactly when it fits, provided the capacity is no whole machine word. */
  lemma RingTakesWhatFits(limits: Limits, next: Word, retained: Word, c: Content)
    requires limits.byteCapacity < WORD_MAX
    ensures RingVerdict(limits, next, retained, c).None?
       <==> Charge(c) <= limits.eventPayloadCapacity && next < WORD_MAX && retained + Charge(c) <= limits.byteCapacity
  {
  }

  /**
    The saturating sums of the ring lose bytes exactly when the capacity is the whole machine word:
    then a full ring accepts one more byte, and the count no longer is the sum of what is retained.
   */
  lemma RingCountsExactly(limits: Limits)
    ensures limits.byteCapacity < WORD_MAX
       <==> forall next: Word, retained: Word, c: Content ::
              retained <= limits.byteCapacity && RingVerdict(limits, next, retained, c).None? ==>
                SaturatingAdd(retained, SaturatedCharge(c).value) == retained + Charge(c)
  {
    if limits.byteCapacity == WORD_MAX {
      var c := Content(0, 0, Call(Some(1), 0), None);
      var retained: Word := WORD_MAX;
      assert RingVerdict(limits, 0, retained, c).None?;
      assert SaturatingAdd(retained, SaturatedCharge(c).value) != retained + Charge(c);
    }
  }

  /** The ring once its oldest event made room, if the window before the trigger is full. */
  function WithRoom(ring: Ring, isTrigger: bool): (r: Ring)
    requires |ring.pre| <= ring.before
    ensures r == ring.(pre := r.pre, retainedBytes := r.retainedBytes)
    ensures isTrigger || ring.trigger.Some? ==> r == ring
    ensures !isTrigger && ring.trigger.None? && ring.before > 0 ==>
      |r.pre| < ring.before && r.pre == LastOf(ring.pre, ring.before - 1)
  {
    if !isTrigger && ring.trigger.None? && 0 < ring.before == |ring.pre| then
      ring.(pre := ring.pre[1..], retainedBytes := SaturatingSub(ring.retainedBytes, ring.pre[0].1))
    else ring
  }

  function Placed(ring: Ring, e: Envelope, charge: Word, isTrigger: bool): Ring {
    var r := ring.(retainedBytes := SaturatingAdd(ring.retainedBytes, charge));
    if isTrigger then r.(trigger := Some(e), complete := ring.complete || ring.after == 0)
    else if ring.trigger.None? then r.(pre := ring.pre + [(e, charge)])
    else r.(post := ring.post + [e], complete := ring.complete || |ring.post| + 1 >= ring.after)
  }

  /** Whether the ring keeps an event of this kind at all. */
  predicate Retains(ring: Ring, isTrigger: bool) {
    !ring.complete && (isTrigger || ring.trigger.Some? || ring.before > 0)
  }

  lemma EarlierDropsFirst(ring: Ring)
    requires |ring.pre| > 0
    ensures Earlier(ring.(pre := ring.pre[1..])) == Earlier(ring)[1..]
  {
  }

  /** Making room gives back exactly the bytes of the dropped event. */
  lemma RoomKeepsRing(ring: Ring, limits: Limits, next: nat, isTrigger: bool)
    requires RingHolds(ring, limits, next)
    ensures RingHolds(WithRoom(ring, isTrigger), limits, next)
  {
    hide Ascending, Charge, TotalCharge;
    var r := WithRoom(ring, isTrigger);
    if r != ring {
      var first := ring.pre[0].0;
      var rest := Retained(ring)[1..];
      EarlierDropsFirst(ring);
      assert Earlier(ring)[0] == first;
      assert Retained(r) == rest;
      assert Retained(ring) == [first] + rest;
      TotalChargeSplit([first], rest);
      OneCharge(first);
      SequencesSplit([first], rest);
      AscendingParts(Sequences([first]), Sequences(rest), next);
    }
  }

  lemma OneCharge(e: Envelope)
    ensures TotalCharge([e]) == Charge(e.content)
  {
    assert [e][..0] == [];
  }

  lemma PlacedLast(ring: Ring, e: Envelope, charge: Word, isTrigger: bool)
    requires ShapeHolds(ring) && (isTrigger ==> ring.trigger.None?)
    ensures Retained(Placed(ring, e, charge, isTrigger)) == Retained(ring) + [e]
  {
    var r := Placed(ring, e, charge, isTrigger);
    if !isTrigger && ring.trigger.None? {
      assert Earlier(r) == Earlier(ring) + [e];
    } else {
      assert Earlier(r) == Earlier(ring);
    }
  }

  lemma PlacedKeepsRing(ring: Ring, limits: Limits, e: Envelope, isTrigger: bool)
    requires RingHolds(ring, limits, e.sequence) && Retains(ring, isTrigger)
    requires isTrigger ==> ring.trigger.None?
    requires !isTrigger && ring.trigger.None? ==> |ring.pre| < ring.before
    requires RingVerdict(limits, e.sequence, ring.retainedBytes, e.content).None?
    ensures RingHolds(
      Placed(ring, e, SaturatedCharge(e.content).value, isTrigger), limits, e.sequence + 1)
  {
    hide Ascending, TotalCharge;
    var charge := SaturatedCharge(e.content).value;
    PlacedLast(ring, e, charge, isTrigger);
    TotalChargeExtended(Retained(ring), e);
    NumberedLast([], Retained(ring), e) by {
      assert [] + Sequences(Retained(ring)) == Sequences(Retained(ring));
    }
    assert [] + Sequences(Retained(ring) + [e]) == Sequences(Retained(ring) + [e]);
    if limits.byteCapacity < WORD_MAX {
      RingTakesWhatFits(limits, e.sequence, ring.retainedBytes, e.content);
    }
  }

  /** Making room and placing an event acts on the erased window as its specification says. */
  lemma PlacedIsStep(ring: Ring, e: Envelope, charge: Word, isTrigger: bool, x: Observed<Content>)
    requires ShapeHolds(ring) && Retains(ring, isTrigger)
    requires x.content == e.content && (isTrigger <==> ring.trigger.None? && x.triggers)
    requires isTrigger || x.captured
    ensures Erased(Placed(WithRoom(ring, isTrigger), e, charge, isTrigger))
         == Step(Erased(ring), x, ring.before, ring.after)
  {
    var r := WithRoom(ring, isTrigger);
    var placed := Placed(r, e, charge, isTrigger);
    if isTrigger {
      assert Earlier(placed) == Earlier(ring);
    } else if ring.trigger.None? {
      assert Contents(Earlier(placed)) == LastOf(Contents(Earlier(ring)) + [e.content], ring.before);
    } else {
      assert Earlier(placed) == Earlier(ring);
      assert Contents(placed.post) == Contents(ring.post) + [e.content];
    }
  }

  // ------------------------------------------------------------------
  // The sink
  // ------------------------------------------------------------------

  /** What a ring taken from the sink hands out for a retained window. */
  ghost predicate HandsOut(result: RingResult, w: Window<Content>) {
    && Contents(result.events) == w.pre + (if w.trigger.Some? then [w.trigger.value] else []) + w.post
    && (result.triggered <==> w.trigger.Some?)
    && (result.complete <==> w.complete)
    && result.triggerIndex == (if w.trigger.Some? then Some(|w.pre|) else None)
  }

  lemma RetainedErased(ring: Ring)
    ensures var w := Erased(ring);
      Contents(Retained(ring)) == w.pre + (if w.trigger.Some? then [w.trigger.value] else []) + w.post
  {
  }

  class Sink {
    const limits: Limits
    /** Whether a client's matcher is installed, not the one that ignores every event. */
    var matching: bool
    var interest: set<Class>
    var queue: seq<Envelope>
    var queuedPayloadBytes: Word
    var nextSequence: Word
    var epoch: Word
    var matcherYieldRequested: bool
    var failure: Option<Failure>
    var presentationYieldTarget: Option<Word>
    var presentationBoundaryReached: bool
    var armedSnapshot: Option<string>
    var pendingSnapshot: Option<Snapshot>
    var deviceInterest: Option<seq<DeviceInterest>>
    var ring: Option<Ring>
    /** The sequence numbers of all events drained so far. */
    ghost var delivered: seq<nat>
    /** The events that reached the armed ring. */
    ghost var seen: seq<Observed<Content>>
    /** No failure was latched since the ring was armed. */
    ghost var clean: bool

    ghost predicate Valid()
      reads `queue, `queuedPayloadBytes, `nextSequence, `delivered, `ring, `seen, `clean, `failure
    {
      && QueueHolds(queue, queuedPayloadBytes, limits, nextSequence, delivered)
      && (ring.Some? ==> RingHolds(ring.value, limits, nextSequence))
      && (failure.Some? ==> !clean)
      && (ring.Some? && clean ==> Erased(ring.value) == Specified(seen, ring.value.before, ring.value.after))
    }

    constructor (limits: Limits)
      ensures Valid() && this.limits == limits
      ensures queue == [] && ring.None? && nextSequence == 0 && failure.None? && interest == {} && !matching
    {
      this.limits := limits;
      matching, interest := false, {};
      queue, queuedPayloadBytes, nextSequence, epoch := [], 0, 0, 0;
      matcherYieldRequested, failure := false, None;
      presentationYieldTarget, presentationBoundaryReached := None, false;
      armedSnapshot, pendingSnapshot, deviceInterest, ring := None, None, None, None;
      delivered, seen, clean := [], [], true;
    }

    predicate YieldRequested()
      reads `matcherYieldRequested, `failure, `presentationBoundaryReached, `ring
    {
      matcherYieldRequested || failure.Some? || presentationBoundaryReached || (ring.Some? && ring.value.complete)
    }

    /** An entry without an action covers every action of its device. */
    predicate Interested(event: Event)
      reads `interest, `deviceInterest
    {
      && event.Class() in interest
      && (event.Device? && deviceInterest.Some? ==>
           exists i :: 0 <= i < |deviceInterest.value|
             && deviceInterest.value[i].device == event.device
             && (deviceInterest.value[i].action.None? || deviceInterest.value[i].action.value == event.action))
    }

    predicate ReachesTarget(event: Event)
      reads `presentationYieldTarget
    {
      event.Presentation? && presentationYieldTarget.Some? && event.frame >= presentationYieldTarget.value
    }

    ghost function Observation(context: int, event: Event): Content
      reads `epoch, `pendingSnapshot
    {
      Content(epoch, context, event, pendingSnapshot)
    }

    // Latching and recording

    method LatchFailure(f: Failure)
      modifies `failure, `clean
      ensures failure == (if old(failure).Some? then old(failure) else Some(f)) && !clean
    {
      if failure.None? {
        failure := Some(f);
      }
      clean := false;
    }

    /** Queues one event, or latches why it cannot be queued; both change nothing else. */
    method Record(context: int, event: Event, decision: Decision)
      requires Valid()
      modifies `queue, `queuedPayloadBytes, `nextSequence, `matcherYieldRequested, `failure, `clean
      ensures Valid()
      ensures decision.Ignore? || old(failure).Some? ==>
        && queue == old(queue) && queuedPayloadBytes == old(queuedPayloadBytes) && nextSequence == old(nextSequence)
        && matcherYieldRequested == old(matcherYieldRequested) && failure == old(failure) && clean == old(clean)
      ensures !decision.Ignore? && old(failure).None? ==>
        var c := Observation(context, event);
        && failure == QueueVerdict(limits, |old(queue)|, old(queuedPayloadBytes), old(nextSequence), Charge(c))
        && clean == (old(clean) && failure.None?)
        && (failure.Some? ==>
             && queue == old(queue) && queuedPayloadBytes == old(queuedPayloadBytes)
             && nextSequence == old(nextSequence) && matcherYieldRequested == old(matcherYieldRequested))
        && (failure.None? ==>
             && queue == old(queue) + [Envelope(SCHEMA_VERSION, old(nextSequence), c)]
             && queuedPayloadBytes == old(queuedPayloadBytes) + Charge(c) && nextSequence == old(nextSequence) + 1
             && (matcherYieldRequested <==> old(matcherYieldRequested) || decision.RecordAndYield?))
    {
      hide QueueHolds, RingHolds, Erased, Specified;
      if decision.Ignore? || failure.Some? {
        return;
      }
      var eventPayload := event.OwnedPayloadBytes();
      if eventPayload.None? {
        LatchFailure(EventPayloadTooLarge(limits.eventPayloadCapacity));
        return;
      }
      var payload := CheckedAdd(eventPayload.value, SnapshotBytes(pendingSnapshot));
      if payload.None? {
        LatchFailure(EventPayloadTooLarge(limits.eventPayloadCapacity));
        return;
      }
      if payload.value > limits.eventPayloadCapacity {
        LatchFailure(EventPayloadTooLarge(limits.eventPayloadCapacity));
        return;
      }
      var nextBytes := CheckedAdd(queuedPayloadBytes, payload.value);
      if nextBytes.None? {
        LatchFailure(QueueOverflow(limits.eventCapacity, limits.byteCapacity));
        return;
      }
      if |queue| >= limits.eventCapacity || nextBytes.value > limits.byteCapacity {
        LatchFailure(QueueOverflow(limits.eventCapacity, limits.byteCapacity));
        return;
      }
      var next := CheckedAdd(nextSequence, 1);
      if next.None? {
        LatchFailure(SequenceExhausted);
        return;
      }
      var envelope := Envelope(SCHEMA_VERSION, nextSequence, Content(epoch, context, event, pendingSnapshot));
      QueueTakes(queue, queuedPayloadBytes, limits, delivered, envelope);
      if ring.Some? {
        RingOutlives(ring.value, limits, nextSequence, next.value);
      }
      queue := queue + [envelope];
      nextSequence := next.value;
      queuedPayloadBytes := nextBytes.value;
      if decision.RecordAndYield? {
        matcherYieldRequested := true;
      }
    }

    /** Drops the oldest events of a window that is full ahead of the trigger. */
    method EvictOldest()
      requires ring.Some? && |ring.value.pre| <= ring.value.before && ring.value.before > 0
      requires ring.value.trigger.None?
      modifies `ring
      ensures ring == Some(WithRoom(old(ring).value, false))
    {
      while |ring.value.pre| >= (if ring.value.before > 1 then ring.value.before else 1)
        invariant ring.Some?
        invariant ring == old(ring) || ring == Some(WithRoom(old(ring).value, false))
        decreases |ring.value.pre|
      {
        var r := ring.value;
        ring := Some(r.(pre := r.pre[1..], retainedBytes := SaturatingSub(r.retainedBytes, r.pre[0].1)));
      }
    }

    method Place(envelope: Envelope, payload: Word, isTrigger: bool)
      requires ring.Some?
      modifies `ring
      ensures ring == Some(Placed(old(ring).value, envelope, payload, isTrigger))
    {
      var r := ring.value.(retainedBytes := SaturatingAdd(ring.value.retainedBytes, payload));
      if isTrigger {
        r := r.(trigger := Some(envelope));
        if r.after == 0 {
          r := r.(complete := true);
        }
      } else if r.trigger.None? {
        r := r.(pre := r.pre + [(envelope, payload)]);
      } else {
        r := r.(post := r.post + [envelope]);
        if |r.post| >= r.after {
          r := r.(complete := true);
        }
      }
      ring := Some(r);
    }

    /**
      Stores one matched event into the armed ring. What is retained changes as the specified window
      does; an event that does not fit latches a failure, and only room already made for it is lost.
     */
    method RingRecord(context: int, event: Event, isTrigger: bool)
      requires Valid() && failure.None?
      requires ring.Some? && isTrigger ==> ring.value.trigger.None?
      modifies `ring, `nextSequence, `failure, `clean
      ensures RingChanges(
        old(ring), isTrigger, Envelope(SCHEMA_VERSION, old(nextSequence), Observation(context, event)))
      ensures QueueHolds(queue, queuedPayloadBytes, limits, nextSequence, delivered)
      ensures ring.Some? ==> RingHolds(ring.value, limits, nextSequence)
      ensures clean == (old(clean) && failure.None?)
      ensures old(nextSequence) <= nextSequence
    {
      hide QueueHolds, RingHolds, Erased, Specified, Ascending, BytesHold;
      if ring.None? || ring.value.complete {
        return;
      }
      var retain := isTrigger || ring.value.trigger.Some? || ring.value.before > 0;
      if !retain {
        return;
      }
      var c := Content(epoch, context, event, pendingSnapshot);
      var eventPayload := event.OwnedPayloadBytes();
      if eventPayload.None? {
        LatchFailure(EventPayloadTooLarge(limits.eventPayloadCapacity));
        return;
      }
      var payload := SaturatingAdd(eventPayload.value, SnapshotBytes(pendingSnapshot));
      if payload > limits.eventPayloadCapacity {
        LatchFailure(EventPayloadTooLarge(limits.eventPayloadCapacity));
        return;
      }
      var next := CheckedAdd(nextSequence, 1);
      if next.None? {
        LatchFailure(SequenceExhausted);
        return;
      }
      Admit(c, payload, isTrigger);
    }

    /** Makes room for an event that is small enough, and places it if it then fits. */
    method Admit(c: Content, payload: Word, isTrigger: bool)
      requires QueueHolds(queue, queuedPayloadBytes, limits, nextSequence, delivered)
      requires ring.Some? && RingHolds(ring.value, limits, nextSequence) && Retains(ring.value, isTrigger)
      requires isTrigger ==> ring.value.trigger.None?
      requires SaturatedCharge(c) == Some(payload) && payload <= limits.eventPayloadCapacity
      requires failure.None? && nextSequence < WORD_MAX
      modifies `ring, `nextSequence, `failure, `clean
      ensures RingChanges(old(ring), isTrigger, Envelope(SCHEMA_VERSION, old(nextSequence), c))
      ensures QueueHolds(queue, queuedPayloadBytes, limits, nextSequence, delivered)
      ensures ring.Some? ==> RingHolds(ring.value, limits, nextSequence)
      ensures clean == (old(clean) && failure.None?)
      ensures old(nextSequence) <= nextSequence
    {
      hide QueueHolds, RingHolds, Erased, Specified, Ascending, BytesHold;
      RingShape(ring.value, limits, nextSequence);
      RoomKeepsRing(ring.value, limits, nextSequence, isTrigger);
      if ring.value.trigger.None? && !isTrigger {
        EvictOldest();
      }
      if SaturatingAdd(ring.value.retainedBytes, payload) > limits.byteCapacity {
        LatchFailure(QueueOverflow(limits.eventCapacity, limits.byteCapacity));
        return;
      }
      var envelope := Envelope(SCHEMA_VERSION, nextSequence, c);
      PlacedKeepsRing(ring.value, limits, envelope, isTrigger);
      QueueOutlives(queue, queuedPayloadBytes, limits, nextSequence, nextSequence + 1, delivered);
      nextSequence := nextSequence + 1;
      Place(envelope, payload, isTrigger);
    }

    /** How recording an event may change the ring, the sequence counter and the failure. */
    ghost predicate RingChanges(was: Option<Ring>, isTrigger: bool, e: Envelope)
      requires was.Some? ==> |was.value.pre| <= was.value.before
      reads `ring, `nextSequence, `failure
    {
      if was.None? || !Retains(was.value, isTrigger) then
        ring == was && nextSequence == e.sequence && failure.None?
      else
        var roomy := WithRoom(was.value, isTrigger);
        && failure == RingVerdict(limits, e.sequence, roomy.retainedBytes, e.content)
        && (failure.Some? ==> nextSequence == e.sequence && (ring == was || ring == Some(roomy)))
        && (failure.None? ==>
             && nextSequence == e.sequence + 1
             && ring == Some(Placed(roomy, e, SaturatedCharge(e.content).value, isTrigger)))
    }

    /** Offers one event to the armed ring, unless a failure is latched. */
    method RingCapture(context: int, event: Event, verdicts: Verdicts)
      requires Valid()
      modifies `ring, `nextSequence, `failure, `clean, `seen
      ensures Valid()
      ensures old(failure).Some? || old(ring).None? ==>
        ring == old(ring) && nextSequence == old(nextSequence) && failure == old(failure) && seen == old(seen)
      ensures old(failure).None? && old(ring).Some? ==>
        && seen == old(seen) + [Observed(Observation(context, event), verdicts.captured, verdicts.triggers)]
        && SameLimits(old(ring), ring)
      ensures ring.Some? <==> old(ring).Some?
      ensures clean == (old(clean) && (old(failure).None? ==> failure.None?))
      ensures old(nextSequence) <= nextSequence
    {
      hide QueueHolds, RingHolds, Ascending, BytesHold, Erased, Specified;
      if failure.Some? || ring.None? {
        return;
      }
      var before, after := ring.value.before, ring.value.after;
      ghost var x := Observed(Observation(context, event), verdicts.captured, verdicts.triggers);
      ghost var was, e := ring.value, Envelope(SCHEMA_VERSION, nextSequence, x.content);
      RingShape(was, limits, nextSequence);
      StepKeepsSpecified(seen, x, before, after);
      if ring.value.complete {
        Unmoved(was, x);
        seen := seen + [x];
        return;
      }
      var isTrigger := ring.value.trigger.None? && verdicts.triggers;
      if !isTrigger && !verdicts.captured {
        Unmoved(was, x);
        seen := seen + [x];
        return;
      }
      RingRecord(context, event, isTrigger);
      seen := seen + [x];
      if !Retains(was, isTrigger) {
        Unmoved(was, x);
      } else if failure.None? {
        PlacedIsStep(was, e, SaturatedCharge(e.content).value, isTrigger, x);
      }
    }

    /** One observation by the machine: the presentation stop, then the queue, then the ring. */
    method Trace(context: int, event: Event, verdicts: Verdicts)
      requires Valid()
      modifies `queue, `queuedPayloadBytes, `nextSequence, `matcherYieldRequested, `failure, `clean,
               `presentationBoundaryReached, `ring, `seen
      ensures Valid()
      ensures presentationBoundaryReached <==> old(presentationBoundaryReached) || ReachesTarget(event)
      ensures old(failure).Some? || !Interested(event) ==>
        && queue == old(queue) && queuedPayloadBytes == old(queuedPayloadBytes) && nextSequence == old(nextSequence)
        && ring == old(ring) && seen == old(seen) && failure == old(failure) && clean == old(clean)
        && matcherYieldRequested == old(matcherYieldRequested)
      ensures failure.Some? ==> YieldRequested()
      ensures Interested(event) && failure.None? ==>
        var c := Observation(context, event);
        && queue == (if matching && !verdicts.decision.Ignore? then
                       old(queue) + [Envelope(SCHEMA_VERSION, old(nextSequence), c)] else old(queue))
        && (matcherYieldRequested <==>
             old(matcherYieldRequested) || (matching && verdicts.decision.RecordAndYield?))
        && seen == (if old(ring).Some? then
                      old(seen) + [Observed(c, verdicts.captured, verdicts.triggers)] else old(seen))
        && SameLimits(old(ring), ring) && clean == old(clean)
      ensures old(nextSequence) <= nextSequence && old(queue) <= queue
      ensures old(ring).Some? ==> ring.Some?
      ensures clean ==> old(clean)
    {
      hide QueueHolds, RingHolds, Erased, Specified, Charge, QueueVerdict, Sink.Interested, Sink.ReachesTarget,
           SameLimits, SaturatedCharge, RingVerdict;
      SameAsItself(ring);
      if ReachesTarget(event) {
        presentationBoundaryReached := true;
      }
      if Interested(event) {
        Record(context, event, if matching then verdicts.decision else Ignore);
        RingCapture(context, event, verdicts);
      }
    }

    // The control handle

    /** No event is retained, neither in the queue nor in a ring capture. */
    predicate NothingBuffered()
      reads `queue, `ring
    {
      queue == [] && ring.None?
    }

    method Start(interest: set<Class>)
      requires Valid()
      modifies `matching, `interest, `queue, `queuedPayloadBytes, `matcherYieldRequested, `failure, `armedSnapshot,
               `pendingSnapshot, `deviceInterest
      ensures Valid() && queue == [] && failure.None? && matching && this.interest == interest
      ensures deviceInterest.None? && pendingSnapshot.None? && armedSnapshot.None? && !matcherYieldRequested
      ensures ring == old(ring) && (NothingBuffered() <==> old(ring).None?)
    {
      hide QueueHolds, RingHolds, Erased, Specified;
      EmptyQueueHolds();
      matching, queue, queuedPayloadBytes, matcherYieldRequested := true, [], 0, false;
      failure, armedSnapshot, pendingSnapshot, deviceInterest := None, None, None, None;
      this.interest := interest;
    }

    lemma EmptyQueueHolds()
      requires Valid()
      ensures QueueHolds([], 0, limits, nextSequence, delivered)
      ensures QueueHolds([], 0, limits, nextSequence, delivered + Sequences(queue))
      ensures Ascending(delivered + Sequences(queue), nextSequence)
    {
      AscendingParts(delivered, Sequences(queue), nextSequence);
      assert delivered + Sequences([]) == delivered;
      assert delivered + Sequences(queue) + Sequences([]) == delivered + Sequences(queue);
    }

    method SetMatcherWithInterest(interest: set<Class>)
      requires Valid()
      modifies `matching, `interest
      ensures Valid() && matching && this.interest == interest
    {
      hide QueueHolds, RingHolds, Erased, Specified;
      matching, this.interest := true, interest;
    }

    /** Buffered events stay; the ring capture is dropped. */
    method Stop()
      requires Valid()
      modifies `matching, `matcherYieldRequested, `armedSnapshot, `pendingSnapshot, `deviceInterest, `ring, `interest
      ensures Valid() && !matching && ring.None? && interest == {} && !matcherYieldRequested
      ensures armedSnapshot.None? && pendingSnapshot.None? && deviceInterest.None?
    {
      hide QueueHolds, RingHolds, Erased, Specified;
      matching, matcherYieldRequested := false, false;
      armedSnapshot, pendingSnapshot, deviceInterest, ring := None, None, None, None;
      interest := {};
    }

    /** Arms an empty ring; the sequence counter and what was drained stay as they are. */
    method ArmRingCapture(before: Word, after: Word, interest: set<Class>)
      requires Valid()
      modifies `matching, `interest, `queue, `queuedPayloadBytes, `matcherYieldRequested, `failure, `armedSnapshot,
               `pendingSnapshot, `deviceInterest, `ring, `seen, `clean
      ensures Valid() && queue == [] && failure.None? && !matching && this.interest == interest
      ensures deviceInterest.None? && pendingSnapshot.None? && armedSnapshot.None? && !matcherYieldRequested
      ensures ring == Some(Ring(before, after, [], None, [], 0, false)) && seen == [] && clean
    {
      hide QueueHolds, RingHolds, Erased, Specified;
      EmptyQueueHolds();
      matching, queue, queuedPayloadBytes, matcherYieldRequested := false, [], 0, false;
      failure, armedSnapshot, pendingSnapshot, deviceInterest := None, None, None, None;
      var r := Ring(before, after, [], None, [], 0, false);
      EmptyRing(r, limits, nextSequence);
      ring := Some(r);
      this.interest := interest;
      seen, clean := [], true;
    }

    method RingStatus() returns (status: RingStatus)
      requires Valid()
      ensures status.Idle? <==> ring.None?
      ensures ring.Some? && clean ==>
        var w := Specified(seen, ring.value.before, ring.value.after);
        && (status.Complete? <==> w.complete)
        && (status.Armed? <==> !exists i :: 0 <= i < |seen| && seen[i].triggers)
    {
      if ring.None? {
        return Idle;
      }
      if clean {
        SpecifiedShape(seen, ring.value.before, ring.value.after);
      }
      if ring.value.complete {
        status := Complete;
      } else if ring.value.trigger.Some? {
        status := Triggered;
      } else {
        status := Armed;
      }
    }

    /** Hands out exactly the specified window of all the events seen since the ring was armed. */
    method TakeRingCapture() returns (result: Option<RingResult>)
      requires Valid()
      modifies `ring, `interest
      ensures Valid() && ring.None?
      ensures result.None? <==> old(ring).None?
      ensures interest == if result.Some? then {} else old(interest)
      ensures result.Some? ==>
        var r := result.value;
        && Ascending(Sequences(r.events), nextSequence)
        && (limits.byteCapacity < WORD_MAX ==> TotalCharge(r.events) <= limits.byteCapacity)
        && (r.triggerIndex.Some? ==>
             r.triggerIndex.value < |r.events| && old(ring.value.trigger) == Some(r.events[r.triggerIndex.value]))
      ensures result.Some? && clean ==>
        HandsOut(result.value, Specified(seen, old(ring).value.before, old(ring).value.after))
    {
      if ring.None? {
        return None;
      }
      var r := ring.value;
      RetainedErased(r);
      ring := None;
      interest := {};
      var events := Earlier(r);
      var triggerIndex: Option<nat> := None;
      if r.trigger.Some? {
        events := events + [r.trigger.value];
        triggerIndex := Some(|events| - 1);
      }
      events := events + r.post;
      assert events == Retained(r);
      result := Some(RingResult(events, r.trigger.Some?, r.complete, triggerIndex));
    }

    method SetDeviceInterest(entries: Option<seq<DeviceInterest>>)
      requires Valid()
      modifies `deviceInterest
      ensures Valid() && deviceInterest == entries
    {
      deviceInterest := entries;
    }

    method SetPendingSnapshot(snapshot: Option<Snapshot>)
      requires Valid()
      modifies `pendingSnapshot
      ensures Valid() && pendingSnapshot == snapshot
    {
      hide QueueHolds, RingHolds, Erased, Specified;
      pendingSnapshot := snapshot;
    }

    method SetEpoch(epoch: Word)
      requires Valid()
      modifies `epoch
      ensures Valid() && this.epoch == epoch
    {
      hide QueueHolds, RingHolds, Erased, Specified;
      this.epoch := epoch;
    }

    method ArmPresentationYield(target: Word)
      requires Valid()
      modifies `presentationYieldTarget, `presentationBoundaryReached
      ensures Valid() && presentationYieldTarget == Some(target) && !presentationBoundaryReached
    {
      presentationYieldTarget, presentationBoundaryReached := Some(target), false;
    }

    method DisarmPresentationYield()
      requires Valid()
      modifies `presentationYieldTarget, `presentationBoundaryReached
      ensures Valid() && presentationYieldTarget.None? && !presentationBoundaryReached
    {
      presentationYieldTarget, presentationBoundaryReached := None, false;
    }

    /** The events leave in the order they were numbered, after all those drained before. */
    method Drain() returns (events: seq<Envelope>)
      requires Valid()
      modifies `queue, `queuedPayloadBytes, `delivered
      ensures Valid() && queue == [] && events == old(queue)
      ensures delivered == old(delivered) + Sequences(events) && Ascending(delivered, nextSequence)
    {
      hide QueueHolds, RingHolds, Erased, Specified;
      EmptyQueueHolds();
      events := queue;
      queuedPayloadBytes := 0;
      queue := [];
      delivered := delivered + Sequences(events);
    }

    method TakeFailure() returns (taken: Option<Failure>)
      requires Valid()
      modifies `failure
      ensures Valid() && failure.None? && taken == old(failure)
    {
      hide QueueHolds, RingHolds, Erased, Specified;
      taken := failure;
      failure := None;
    }

    /** A yield is acknowledged only once no failure is latched. */
    method Resume() returns (refused: Option<Failure>)
      requires Valid()
      modifies `matcherYieldRequested
      ensures Valid() && refused == failure
      ensures matcherYieldRequested <==> old(matcherYieldRequested) && failure.Some?
    {
      hide QueueHolds, RingHolds, Erased, Specified;
      if failure.Some? {
        return failure;
      }
      matcherYieldRequested := false;
      refused := None;
    }
  }

  lemma RingOutlives(ring: Ring, limits: Limits, next: nat, later: nat)
    requires RingHolds(ring, limits, next) && next <= later
    ensures RingHolds(ring, limits, later)
  {
  }

  lemma QueueOutlives(queue: seq<Envelope>, bytes: nat, limits: Limits, next: nat, later: nat, delivered: seq<nat>)
    requires QueueHolds(queue, bytes, limits, next, delivered) && next <= later
    ensures QueueHolds(queue, bytes, limits, later, delivered)
  {
  }

  lemma RingShape(ring: Ring, limits: Limits, next: nat)
    requires RingHolds(ring, limits, next)
    ensures ShapeHolds(ring)
  {
  }

  predicate SameLimits(was: Option<Ring>, now: Option<Ring>) {
    && (was.Some? <==> now.Some?)
    && (was.Some? ==> was.value.before == now.value.before && was.value.after == now.value.after)
  }

  lemma SameAsItself(ring: Option<Ring>)
    ensures SameLimits(ring, ring)
  {
  }

  /** Events that are not retained leave the specified window as it is, too. */
  lemma Unmoved(ring: Ring, x: Observed<Content>)
    requires ShapeHolds(ring)
    requires
      var isTrigger := ring.trigger.None? && x.triggers;
      ring.complete || (!isTrigger && !x.captured) || !Retains(ring, isTrigger)
    ensures Step(Erased(ring), x, ring.before, ring.after) == Erased(ring)
  {
    assert ring.before == 0 ==> Contents(Earlier(ring)) == [];
  }

  lemma EmptyRing(ring: Ring, limits: Limits, next: nat)
    requires ring.pre == [] && ring.post == [] && ring.trigger.None? && ring.retainedBytes == 0 && !ring.complete
    ensures RingHolds(ring, limits, next)
    ensures Erased(ring) == Specified([], ring.before, ring.after)
  {
    assert Earlier(ring) == [];
    assert Retained(ring) == [];
    assert Contents(Earlier(ring)) == [] && Contents(ring.post) == [];
  }

  datatype Observation = Observation(context: int, event: Event, verdicts: Verdicts)

  /** The events of a run that reach a ring armed with the given interest. */
  function StreamOf(s: seq<Observation>, interest: set<Class>, epoch: Word): seq<Observed<Content>> {
    if s == [] then []
    else
      var (most, o) := (StreamOf(s[..|s| - 1], interest, epoch), s[|s| - 1]);
      if o.event.Class() in interest then
        most + [Observed(Content(epoch, o.context, o.event, None), o.verdicts.captured, o.verdicts.triggers)]
      else most
  }

  /** Arms a ring capture and offers it a row of events. */
  method CaptureEvents(sink: Sink, before: Word, after: Word, interest: set<Class>, events: seq<Observation>)
    requires sink.Valid()
    modifies sink
    ensures sink.Valid() && sink.ring.Some? && sink.epoch == old(sink.epoch)
    ensures old(sink.nextSequence) <= sink.nextSequence && sink.delivered == old(sink.delivered)
    ensures sink.failure.None? ==>
      && sink.clean && sink.seen == StreamOf(events, interest, sink.epoch)
      && sink.ring.value.before == before && sink.ring.value.after == after
  {
    hide Specified, Sink.Valid, StreamOf, Sink.YieldRequested;
    sink.ArmRingCapture(before, after, interest);
    NoStream(interest, sink.epoch);
    var i := 0;
    while i < |events|
      invariant i <= |events| && sink.Valid()
      invariant sink.epoch == old(sink.epoch) && sink.delivered == old(sink.delivered)
      invariant sink.deviceInterest.None? && sink.pendingSnapshot.None? && sink.interest == interest && !sink.matching
      invariant old(sink.nextSequence) <= sink.nextSequence
      invariant sink.ring.Some?
      invariant sink.failure.None? ==>
        && sink.clean && sink.seen == StreamOf(events[..i], interest, sink.epoch)
        && sink.ring.value.before == before && sink.ring.value.after == after
    {
      StreamExtended(events, i, interest, sink.epoch);
      var o := events[i];
      sink.Trace(o.context, o.event, o.verdicts);
      i := i + 1;
    }
    assert events[..i] == events;
  }

  /**
    A whole ring capture: armed in any reachable state, fed any events and taken, it hands out the
    specified window of the events of interest, unless it reports a failure.
   */
  method CaptureStream(sink: Sink, before: Word, after: Word, interest: set<Class>, events: seq<Observation>)
    returns (result: Option<RingResult>)
    requires sink.Valid()
    modifies sink
    ensures sink.Valid() && result.Some?
    ensures old(sink.nextSequence) <= sink.nextSequence && sink.delivered == old(sink.delivered)
    ensures sink.failure.None? ==>
      HandsOut(result.value, Specified(StreamOf(events, interest, sink.epoch), before, after))
  {
    hide Specified, HandsOut, Sink.Valid, StreamOf, Sink.YieldRequested;
    CaptureEvents(sink, before, after, interest, events);
    result := sink.TakeRingCapture();
  }

  /**
    A new trace does not clear an armed ring capture: taken afterwards, it still hands out the window of the
    events before the start.
   */
  method CaptureSurvivesStart(
    sink: Sink, before: Word, after: Word, interest: set<Class>, events: seq<Observation>, restart: set<Class>)
    returns (failed: bool, result: Option<RingResult>)
    requires sink.Valid()
    modifies sink
    ensures sink.Valid() && result.Some?
    ensures !failed ==> HandsOut(result.value, Specified(StreamOf(events, interest, sink.epoch), before, after))
  {
    hide Specified, HandsOut, Sink.Valid, StreamOf, Sink.YieldRequested;
    CaptureEvents(sink, before, after, interest, events);
    failed := sink.failure.Some?;
    sink.Start(restart);
    result := sink.TakeRingCapture();
  }

  /** A sink with an armed ring capture, after a start: not all buffered state is cleared. */
  method StartedWithRing() returns (sink: Sink)
    ensures fresh(sink) && sink.Valid() && !sink.NothingBuffered()
  {
    sink := new Sink(Limits(1, 1, 1));
    sink.ArmRingCapture(1, 1, {});
    sink.Start({});
  }

  lemma NoStream(interest: set<Class>, epoch: Word)
    ensures StreamOf([], interest, epoch) == []
  {
  }

  lemma StreamExtended(s: seq<Observation>, i: nat, interest: set<Class>, epoch: Word)
    requires i < |s|
    ensures StreamOf(s[..i + 1], interest, epoch)
         == if s[i].event.Class() in interest then
              StreamOf(s[..i], interest, epoch)
              + [Observed(
                   Content(epoch, s[i].context, s[i].event, None), s[i].verdicts.captured,
                   s[i].verdicts.triggers)]
            else StreamOf(s[..i], interest, epoch)
  {
    assert s[..i + 1][..i] == s[..i];
  }
}
