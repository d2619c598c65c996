/**
  Calls and jumps through call gates (crates/cpu/src/i386.rs): everything is
  validated and probed first, then the new stack and code segment are committed
  and the return frame is pushed.
 */
module I386Gates {
  import opened I386Memory
  import opened I386Cpu
  import opened I386Protection
  import opened I386Stack

  // ----- Pushing a frame -----

  /** Slot `k` of the frame holds `values[k - 1]`, for every value. */
  ghost predicate SlotsHold(pg: Paging, f: Frame, mem: Memory, values: seq<nat>)
    requires |values| <= 64
  {
    forall k {:trigger f.Span(pg, k)} :: 1 <= k <= |values| ==>
      f.Span(pg, k).Ok? && Load(mem, f.Span(pg, k).value) == values[k - 1]
  }

  /** The loaded stack segment is the frame's and the pointer stands at slot `k`. */
  ghost predicate AtSlot(c: Cpu, f: Frame, k: nat)
    reads c
  {
    && f.Sized() && k <= 64 && !c.Vm() && c.supervisorOverride
    && c.Seg(SS).valid && c.Seg(SS).desc == f.desc && IsWritable(f.desc.rights)
    && StackPointer(c.Seg(SS), c.regs) == f.Offset(k)
  }

  /** The push into slot `k` faults although its probe succeeded. */
  predicate PushFails(pg: Paging, f: Frame, aligned: bool, k: nat)
    requires f.Sized() && k <= 64
  {
    (aligned && f.Linear(k) % f.size != 0) || f.Misses(pg, k)
  }

  /** A push into another slot leaves a slot alone. */
  lemma PushElsewhere(pg: Paging, f: Frame, mem: Memory, k: nat, m: nat, v: nat)
    requires f.Sized() && k < m <= 64 && f.Span(pg, k).Ok? && f.Span(pg, m).Ok?
    ensures Load(Store(mem, f.Span(pg, m).value, v), f.Span(pg, k).value) == Load(mem, f.Span(pg, k).value)
  {
    hide Frame.Span;
    f.SlotsDisjoint(pg, k, m);
    StoreElsewhereLoad(mem, f.Span(pg, m).value, v, f.Span(pg, k).value);
  }

  lemma SlotsHoldAfterPush(pg: Paging, f: Frame, mem: Memory, values: seq<nat>, v: nat)
    requires f.Sized() && |values| < 64 && SlotsHold(pg, f, mem, values)
    requires f.Span(pg, |values| + 1).Ok? && v < Bound(f.size)
    ensures SlotsHold(pg, f, Store(mem, f.Span(pg, |values| + 1).value, v), values + [v])
  {
    hide Frame.Span;
    var m := |values| + 1;
    var mem' := Store(mem, f.Span(pg, m).value, v);
    forall k | 1 <= k <= m
      ensures f.Span(pg, k).Ok? && Load(mem', f.Span(pg, k).value) == (values + [v])[k - 1]
    {
      if k < m {
        PushElsewhere(pg, f, mem, k, m, v);
      } else {
        SpanFacts(pg, f, k);
        LoadStore(mem, f.Span(pg, m).value, v);
      }
    }
  }

  lemma SpanFacts(pg: Paging, f: Frame, k: nat)
    requires f.Sized() && k <= 64 && f.Span(pg, k).Ok?
    ensures Distinct(f.Span(pg, k).value) && |f.Span(pg, k).value| == f.size
  {
    hide Addresses;
    AddressesDistinct(pg, f.Linear(k), f.size, true, false);
  }

  /** What the push into the next slot touches, once that slot was probed. */
  lemma NextPush(c: Cpu, f: Frame, k: nat)
    requires k < 64 && AtSlot(c, f, k) && f.Probed(c.paging, k + 1)
    ensures Below(c.Seg(SS), StackPointer(c.Seg(SS), c.regs), f.size) == f.Offset(k + 1)
    ensures var span := c.SegmentSpan(SS, f.Offset(k + 1), f.size, true);
            && (span.Ok? <==> !PushFails(c.paging, f, c.AlignmentActive(), k + 1))
            && (span.Ok? ==> span == f.Span(c.paging, k + 1))
  {
    hide Translate, Addresses, WithinLimit, Frame.Offset, Frame.Misses, Below, StackPointer, IsWritable;
    f.NextSlot(c.Seg(SS), k);
    f.ProbedIsPushed(c.paging, k + 1);
  }

  lemma PointerAfterPush(ss: Segment, regs: Registers, f: Frame, k: nat)
    requires f.Sized() && k <= 64 && ss.desc == f.desc
    ensures StackPointer(ss, WithStackPointer(ss, regs, f.Offset(k))) == f.Offset(k)
  {
    hide Frame.Depth;
    var hi := regs[ESP] / 0x1_0000;
    assert regs[ESP] == 0x1_0000 * hi + regs[ESP] % 0x1_0000;
    assert f.Offset(k) < 0x1_0000 ==> (0x1_0000 * hi + f.Offset(k)) % 0x1_0000 == f.Offset(k);
  }

  /** Pushes `values` in order; it succeeds exactly when no push fails its alignment or wraps onto a missing page. */
  method PushAll(c: Cpu, values: seq<nat>, f: Frame, ghost done: seq<nat>, ghost aligned: bool) returns (r: Outcome<()>)
    requires aligned == c.AlignmentActive()
    requires |done| + |values| <= 35 && AtSlot(c, f, |done|)
    requires forall k :: |done| < k <= |done| + |values| ==> f.Probed(c.paging, k)
    requires forall v :: v in values ==> v < Bound(f.size)
    requires SlotsHold(c.paging, f, c.mem, done)
    modifies c`mem, c`regs
    ensures r.Ok? <==>
      forall k :: |done| < k <= |done| + |values| ==> !PushFails(c.paging, f, aligned, k)
    ensures r.Ok? ==> AtSlot(c, f, |done| + |values|) && SlotsHold(c.paging, f, c.mem, done + values)
    ensures forall i :: 0 <= i < 8 && i != ESP ==> c.regs[i] == old(c.regs)[i]
  {
    hide SlotsHold, StackPointer, WithStackPointer, Below, Frame.Offset, Frame.Probed, PushFails, Cpu.SegmentSpan,
         IsWritable;
    var i := 0;
    assert done + values[..0] == done;
    while i < |values|
      invariant 0 <= i <= |values|
      invariant AtSlot(c, f, |done| + i)
      invariant SlotsHold(c.paging, f, c.mem, done + values[..i])
      invariant forall k :: |done| < k <= |done| + i ==> !PushFails(c.paging, f, aligned, k)
      invariant forall i :: 0 <= i < 8 && i != ESP ==> c.regs[i] == old(c.regs)[i]
    {
      ghost var k := |done| + i;
      ghost var before := c.regs;
      NextPush(c, f, k);
      if f.Span(c.paging, k + 1).Ok? {
        assert values[i] in values;
        SlotsHoldAfterPush(c.paging, f, c.mem, done + values[..i], values[i]);
      }
      PointerAfterPush(c.Seg(SS), c.regs, f, k + 1);
      OnlyEsp(c.Seg(SS), c.regs, f.Offset(k + 1));
      r := c.Push(values[i], f.size);
      if r.Fault? {
        assert PushFails(c.paging, f, aligned, k + 1);
        return;
      }
      assert done + values[..i] + [values[i]] == done + values[..i + 1];
      i := i + 1;
    }
    assert done + values[..i] == done + values;
    return Ok(());
  }

  lemma OnlyEsp(ss: Segment, regs: Registers, sp: u32)
    ensures forall i :: 0 <= i < 8 && i != ESP ==> WithStackPointer(ss, regs, sp)[i] == regs[i]
  {
  }

  // ----- Validation -----

  function TssStackOffset(task: Task, dpl: nat): nat {
    if task.Is386() then 4 + dpl * 8 else 2 + dpl * 4
  }

  /** The stack segment that the TSS names for a level. */
  function TssStackVerdict(selector: u16, dpl: nat, lookup: Outcome<Lookup>): Outcome<Descriptor> {
    if selector < 4 then Fault(TASK_SWITCH_FAULT, 0)
    else
      var found :- lookup;
      if found.NoDescriptor? || !MayStack(found.desc.rights, dpl, Rpl(selector)) then
        Fault(TASK_SWITCH_FAULT, ErrorCode(selector))
      else if !IsPresent(found.desc.rights) then Fault(STACK_FAULT, ErrorCode(selector))
      else Ok(found.desc)
  }

  /** The offset of parameter `i` on the caller's stack. */
  function ParamOffset(ss: Segment, esp: u32, size: nat, i: nat): u32
    requires (size == 2 || size == 4) && i < 32
  {
    var raw := Add32(esp, if size == 2 then 2 * i else 4 * i);
    if IsBig(ss.desc.granularity) then raw else raw % 0x1_0000
  }

  /** Parameter `i`, read from the caller's stack with the caller's page privilege. */
  function Param(c: Cpu, size: nat, i: nat, user: bool): (r: Outcome<nat>)
    requires (size == 2 || size == 4) && i < 32 && !c.Vm()
    reads c`mem, c`segs, c`regs, c`eflagsHigh, c`storedCpl
    ensures r.Ok? ==> r.value < Bound(size)
  {
    var offset := ParamOffset(c.Seg(SS), StackPointer(c.Seg(SS), c.regs), size, i);
    var _ :- c.CheckSegmentAccess(SS, offset, size, false);
    ReadLinear(c.paging, c.mem, Add32(c.Seg(SS).desc.base, offset), size, user)
  }

  /** The first `n` parameters, the one at the top of the caller's stack first. */
  function Params(c: Cpu, size: nat, n: nat, user: bool): (r: Outcome<seq<nat>>)
    requires (size == 2 || size == 4) && n < 32 && !c.Vm()
    reads c`mem, c`segs, c`regs, c`eflagsHigh, c`storedCpl
    ensures r.Ok? ==> |r.value| == n && forall v :: v in r.value ==> v < Bound(size)
  {
    if n == 0 then Ok([])
    else
      var rest :- Params(c, size, n - 1, user);
      var last :- Param(c, size, n - 1, user);
      Ok(rest + [last])
  }

  /** The validated operands of a call to an inner level. */
  datatype GateFrame = GateFrame(ss: u16, frame: Frame, params: seq<nat>)

  /** What `commit_call_gate_inter_priv_inner` validates, in its order. `user` is the caller's page privilege. */
  function GateVerdict(c: Cpu, dpl: nat, size: nat, count: nat, user: bool): (r: Outcome<GateFrame>)
    requires (size == 2 || size == 4) && count < 32 && dpl <= 3 && !c.Vm()
    reads c`mem, c`segs, c`regs, c`tables, c`task, c`eflagsHigh, c`storedCpl
    ensures r.Ok? ==>
      && r.value.frame.size == size && |r.value.params| == count
      && (forall v :: v in r.value.params ==> v < Bound(size))
      && (forall k :: 1 <= k <= 4 + count ==> r.value.frame.Probed(c.paging, k))
      && IsWritable(r.value.frame.desc.rights) && Dpl(r.value.frame.desc.rights) == dpl
  {
    var at := TssStackOffset(c.task, dpl);
    var esp :- TssStackPointer(c, at);
    var ss :- ReadWord(c.paging, c.mem, Add32(c.task.base, at + (if c.task.Is386() then 4 else 2)), false);
    var d :- TssStackVerdict(ss, dpl, LookUp(c, ss));
    var frame := Frame(d, esp, size);
    var _ :- frame.ProbeVerdict(c.paging, ErrorCode(ss), 1, 4 + count);
    var params :- Params(c, size, count, user);
    Ok(GateFrame(ss, frame, params))
  }

  function TssStackPointer(c: Cpu, at: nat): Outcome<u32>
    requires at < 0x100
    reads c`mem, c`task
  {
    if c.task.Is386() then ReadDword(c.paging, c.mem, Add32(c.task.base, at), false)
    else
      var sp :- ReadWord(c.paging, c.mem, Add32(c.task.base, at), false);
      Ok(sp)
  }

  method ProbeSlot(c: Cpu, f: Frame, code: nat, k: nat) returns (r: Outcome<()>)
    requires f.Sized() && k <= 64 && !c.User()
    ensures r == f.SlotVerdict(c.paging, code, k)
  {
    hide Frame.Offset, IsExpandDown;
    var offset := f.Offset(k);
    var end := offset + f.size - 1;
    var within :=
      if IsExpandDown(f.desc.rights) then
        f.desc.limit < offset && end <= (if IsBig(f.desc.granularity) then 0xFFFF_FFFF else 0xFFFF)
      else end <= f.desc.limit;
    if !within {
      return Fault(STACK_FAULT, code);
    }
    var first := Translate(c.paging, f.Linear(k), true, c.User());
    if first.Fault? {
      return Fault(first.vector, first.code);
    }
    if f.ProbedLast(k) / 0x1000 != f.Linear(k) / 0x1000 {
      var last := Translate(c.paging, f.ProbedLast(k), true, c.User());
      if last.Fault? {
        return Fault(last.vector, last.code);
      }
    } else {
      SamePage(c.paging, f.ProbedLast(k), f.Linear(k), true, false);
    }
    return Ok(());
  }

  /** Validates the whole call; only the privilege of the parameter reads is switched, and switched back. */
  method ValidateGate(c: Cpu, dpl: nat, size: nat, count: nat, callerOverride: bool) returns (r: Outcome<GateFrame>)
    requires (size == 2 || size == 4) && count < 32 && dpl <= 3 && !c.Vm() && c.supervisorOverride
    modifies c`supervisorOverride
    ensures c.supervisorOverride
    ensures r == GateVerdict(c, dpl, size, count, c.Cpl() == 3 && !callerOverride)
  {
    hide ReadLinear, Decode, Params, Frame.SlotVerdict, CheckAccess, MayStack, Frame.Probed, IsWritable, Dpl;
    var at := TssStackOffset(c.task, dpl);
    var esp := TssStackPointer(c, at);
    if esp.Fault? {
      return Fault(esp.vector, esp.code);
    }
    var ss := ReadWord(c.paging, c.mem, Add32(c.task.base, at + (if c.task.Is386() then 4 else 2)), false);
    if ss.Fault? {
      return Fault(ss.vector, ss.code);
    }
    var d := TssStackVerdict(ss.value, dpl, LookUp(c, ss.value));
    if d.Fault? {
      return Fault(d.vector, d.code);
    }
    var frame := Frame(d.value, esp.value, size);
    var probes := ProbeAll(c, frame, ErrorCode(ss.value), 4 + count);
    if probes.Fault? {
      return Fault(probes.vector, probes.code);
    }
    var params := ReadParams(c, size, count, callerOverride);
    if params.Fault? {
      return Fault(params.vector, params.code);
    }
    return Ok(GateFrame(ss.value, frame, params.value));
  }

  method ProbeAll(c: Cpu, f: Frame, code: nat, n: nat) returns (r: Outcome<()>)
    requires f.Sized() && n <= 64 && !c.User()
    ensures r == f.ProbeVerdict(c.paging, code, 1, n)
  {
    hide Frame.SlotVerdict, Frame.Probed;
    var k := 1;
    while k <= n
      invariant 1 <= k <= n + 1
      invariant f.ProbeVerdict(c.paging, code, 1, n) == f.ProbeVerdict(c.paging, code, k, n)
    {
      var slot := ProbeSlot(c, f, code, k);
      if slot.Fault? {
        return slot;
      }
      k := k + 1;
    }
    return Ok(());
  }

  method ReadParam(c: Cpu, size: nat, i: nat, callerOverride: bool) returns (r: Outcome<nat>)
    requires (size == 2 || size == 4) && i < 32 && !c.Vm() && c.supervisorOverride
    modifies c`supervisorOverride
    ensures c.supervisorOverride
    ensures r == Param(c, size, i, c.Cpl() == 3 && !callerOverride)
  {
    hide ReadLinear, CheckAccess, StackPointer, ParamOffset;
    var offset := ParamOffset(c.Seg(SS), StackPointer(c.Seg(SS), c.regs), size, i);
    var check := c.CheckSegmentAccess(SS, offset, size, false);
    if check.Fault? {
      return Fault(check.vector, check.code);
    }
    c.supervisorOverride := callerOverride;
    r := c.Read(Add32(c.Seg(SS).desc.base, offset), size);
    c.supervisorOverride := true;
  }

  method ReadParams(c: Cpu, size: nat, count: nat, callerOverride: bool) returns (r: Outcome<seq<nat>>)
    requires (size == 2 || size == 4) && count < 32 && !c.Vm() && c.supervisorOverride
    modifies c`supervisorOverride
    ensures c.supervisorOverride
    ensures r == Params(c, size, count, c.Cpl() == 3 && !callerOverride)
  {
    hide ReadLinear, CheckAccess, StackPointer, ParamOffset;
    ghost var user := c.Cpl() == 3 && !callerOverride;
    var params := [];
    var i := 0;
    while i < count
      invariant 0 <= i <= count && c.supervisorOverride
      invariant Params(c, size, i, user) == Ok(params)
    {
      var parameter := ReadParam(c, size, i, callerOverride);
      if parameter.Fault? {
        ParamsFault(c, size, i, count, user);
        return Fault(parameter.vector, parameter.code);
      }
      params := params + [parameter.value];
      i := i + 1;
    }
    return Ok(params);
  }

  /** The first parameter that cannot be read decides the fault. */
  lemma {:induction false} ParamsFault(c: Cpu, size: nat, i: nat, n: nat, user: bool)
    requires (size == 2 || size == 4) && i < n < 32 && !c.Vm()
    requires Params(c, size, i, user).Ok? && Param(c, size, i, user).Fault?
    ensures Params(c, size, n, user) == Param(c, size, i, user).PropagateFailure()
    decreases n
  {
    hide Param;
    if n > i + 1 {
      ParamsFault(c, size, i, n - 1, user);
    }
  }

  // ----- Commit -----

  /** Where an inter-level call goes and what it must be able to return to. */
  datatype Transfer = Transfer(
    desc: Descriptor, dpl: nat, selector: u16, offset: u32, size: nat, count: nat, oldCs: u16, oldEip: u32)
  {
    predicate Sized() {
      (size == 2 || size == 4) && count < 32 && dpl <= 3
    }
  }

  function Fit(v: u32, size: nat): (r: nat)
    requires size == 2 || size == 4
    ensures r < Bound(size)
  {
    assert Bound(2) == 0x1_0000;
    assert Bound(4) == 0x100 * Bound(3) && Bound(3) == 0x100 * Bound(2);
    if size == 2 then v % 0x1_0000 else v
  }

  function Reversed(s: seq<nat>): (r: seq<nat>)
    ensures |r| == |s|
  {
    if s == [] then [] else [s[|s| - 1]] + Reversed(s[..|s| - 1])
  }

  lemma {:induction false} ReversedAt(s: seq<nat>, i: nat)
    requires i < |s|
    ensures Reversed(s)[|s| - 1 - i] == s[i]
    ensures Reversed(s)[|s| - 1 - i] in s
  {
    if i < |s| - 1 {
      ReversedAt(s[..|s| - 1], i);
    }
  }

  /** Pushed before CS changes: the old stack, then the parameters, the last one first. */
  function OuterPart(ss: u16, esp: u32, params: seq<nat>, size: nat): (r: seq<nat>)
    requires size == 2 || size == 4
    ensures |r| == 2 + |params|
  {
    [Fit(ss, size), Fit(esp, size)] + Reversed(params)
  }

  /** Pushed after CS changed: the return address. */
  function ReturnPart(t: Transfer): (r: seq<nat>)
    requires t.Sized()
    ensures |r| == 2
  {
    [Fit(t.oldCs, t.size), Fit(t.oldEip, t.size)]
  }

  /** The push into slot `k` of the whole frame fails; only pushes before CS changes can be misaligned. */
  predicate FrameFails(pg: Paging, g: GateFrame, aligned: bool, k: nat)
    requires g.frame.Sized() && k <= 64
  {
    PushFails(pg, g.frame, aligned && k <= 2 + |g.params|, k)
  }

  /** One of the pushes of a valid call will fail after SS was loaded. `aligned`: #AC is armed for the caller. */
  ghost predicate Tears(pg: Paging, g: GateFrame, aligned: bool)
    requires g.frame.Sized() && |g.params| < 32
  {
    exists k :: 1 <= k <= 4 + |g.params| && FrameFails(pg, g, aligned, k)
  }

  lemma OuterPartFits(ss: u16, esp: u32, params: seq<nat>, size: nat)
    requires size == 2 || size == 4
    requires forall v :: v in params ==> v < Bound(size)
    ensures forall v :: v in OuterPart(ss, esp, params, size) ==> v < Bound(size)
  {
    forall i | 0 <= i < |params|
      ensures Reversed(params)[i] < Bound(size)
    {
      ReversedAt(params, |params| - 1 - i);
    }
  }

  method CommitGate(c: Cpu, g: GateFrame, t: Transfer, ghost aligned: bool) returns (r: Outcome<()>)
    requires aligned == c.AlignmentActive()
    requires t.Sized() && t.dpl < 3 && g.frame.size == t.size && |g.params| == t.count
    requires !c.Vm() && c.supervisorOverride
    requires forall v :: v in g.params ==> v < Bound(t.size)
    requires forall k :: 1 <= k <= 4 + t.count ==> g.frame.Probed(c.paging, k)
    requires IsWritable(g.frame.desc.rights)
    modifies c`mem, c`regs, c`segs, c`storedCpl, c`eip
    ensures r.Ok? <==> !Tears(c.paging, g, aligned)
    ensures r.Ok? ==>
      && c.segs == old(c.segs)[SS.Index() := Segment(g.ss, g.frame.desc, true)][
                     CS.Index() := Segment(WithRpl(t.selector, t.dpl), t.desc, true)]
      && c.storedCpl == t.dpl && c.eip == t.offset
      && StackPointer(c.Seg(SS), c.regs) == g.frame.Offset(4 + t.count)
      && SlotsHold(
           c.paging, g.frame, c.mem,
           OuterPart(old(c.Seg(SS)).selector, old(StackPointer(c.Seg(SS), c.regs)), g.params, t.size) + ReturnPart(t))
    ensures r.Fault? ==> c.Seg(SS) == Segment(g.ss, g.frame.desc, true)
    ensures forall i :: 0 <= i < 8 && i != ESP ==> c.regs[i] == old(c.regs)[i]
  {
    hide PushFails, SlotsHold, StackPointer, WithStackPointer, Frame.Offset, Frame.Probed, IsWritable, OuterPart,
         ReturnPart, Fit;
    var savedSs, savedEsp := c.Seg(SS).selector, StackPointer(c.Seg(SS), c.regs);
    var outer := OuterPart(savedSs, savedEsp, g.params, t.size);
    OuterPartFits(savedSs, savedEsp, g.params, t.size);
    c.SetLoaded(SS, g.ss, g.frame.desc);
    FirstSlot(c.Seg(SS), c.regs, g.frame);
    OnlyEsp(c.Seg(SS), c.regs, g.frame.sp);
    c.regs := WithStackPointer(c.Seg(SS), c.regs, g.frame.sp);
    NothingPushed(c.paging, g.frame, c.mem);
    r := PushAll(c, outer, g.frame, [], aligned);
    if r.Fault? {
      ghost var k :| 0 < k <= 2 + t.count && PushFails(c.paging, g.frame, aligned, k);
      assert FrameFails(c.paging, g, aligned, k);
      return;
    }
    assert forall k :: 0 < k <= 2 + t.count ==> !PushFails(c.paging, g.frame, aligned, k);
    c.SetLoaded(CS, WithRpl(t.selector, t.dpl), t.desc);
    c.eip := t.offset;
    assert !c.AlignmentActive();
    assert [] + outer == outer;
    var tail := ReturnPart(t);
    ReturnPartFits(t);
    r := PushAll(c, tail, g.frame, outer, false);
    if r.Fault? {
      ghost var k :| 2 + t.count < k <= 4 + t.count && PushFails(c.paging, g.frame, false, k);
      assert FrameFails(c.paging, g, aligned, k);
    } else {
      forall k | 1 <= k <= 4 + t.count
        ensures !FrameFails(c.paging, g, aligned, k)
      {
        if k <= 2 + t.count {
          assert !PushFails(c.paging, g.frame, aligned, k);
        } else {
          assert !PushFails(c.paging, g.frame, false, k);
        }
      }
    }
  }

  lemma ReturnPartFits(t: Transfer)
    requires t.Sized()
    ensures forall v :: v in ReturnPart(t) ==> v < Bound(t.size)
  {
  }

  lemma FirstSlot(ss: Segment, regs: Registers, f: Frame)
    requires f.Sized() && ss.desc == f.desc
    ensures StackPointer(ss, WithStackPointer(ss, regs, f.sp)) == f.Offset(0)
  {
    var hi := regs[ESP] / 0x1_0000;
    assert regs[ESP] == 0x1_0000 * hi + regs[ESP] % 0x1_0000;
    assert (0x1_0000 * hi + f.sp % 0x1_0000) % 0x1_0000 == f.sp % 0x1_0000;
  }

  lemma NothingPushed(pg: Paging, f: Frame, mem: Memory)
    ensures SlotsHold(pg, f, mem, [])
  {
  }

  // ----- The whole call -----

  /** Memory after both accessed bits were set: the new stack segment's, then the target's. */
  function GateMarks(c: Cpu, ss: u16, selector: u16): Outcome<Memory>
    reads c`mem, c`tables
  {
    var m :- AccessedMemory(c.paging, c.mem, c.tables, ss);
    AccessedMemory(c.paging, m, c.tables, selector)
  }

  /** Sets both accessed bits; a fault at the second leaves the first set. */
  method MarkGate(c: Cpu, ss: u16, selector: u16) returns (r: Outcome<()>)
    modifies c`mem
    ensures var marks := old(GateMarks(c, ss, selector));
            if marks.Ok? then r.Ok? && c.mem == marks.value
            else
              && r == Fault(marks.vector, marks.code)
              && (c.mem == old(c.mem) || Ok(c.mem) == old(AccessedMemory(c.paging, c.mem, c.tables, ss)))
  {
    hide AccessedMemory;
    r := c.SetAccessedBit(ss);
    if r.Ok? {
      r := c.SetAccessedBit(selector);
    }
  }

  /** The code segment that a gate to an inner level leads to. */
  predicate InnerTarget(t: Transfer) {
    t.Sized() && t.dpl < 3 && IsCode(t.desc.rights) && !IsConforming(t.desc.rights) && Dpl(t.desc.rights) == t.dpl
  }

  /**
    An inter-level CALL through a gate. It succeeds exactly when everything validates and no
    push fails; a fault leaves CS, SS, ESP and EIP as they were exactly when it is raised
    before the commit. `Tears` says when a push can still fail; see `TearsWhen`.
   */
  method CallGateInner(c: Cpu, t: Transfer) returns (r: Outcome<()>)
    requires InnerTarget(t) && !c.Vm() && t.dpl < c.storedCpl && Protected(c.segs, c.storedCpl)
    modifies c
    ensures c.supervisorOverride == old(c.supervisorOverride)
    ensures var g := old(GateVerdict(c, t.dpl, t.size, t.count, c.User()));
            && (g.Fault? ==> r == Fault(g.vector, g.code) && c.mem == old(c.mem))
            && (g.Ok? ==>
                  var marks := old(GateMarks(c, g.value.ss, t.selector));
                  var tears := Tears(c.paging, g.value, old(c.AlignmentActive()));
                  && (r.Ok? <==> marks.Ok? && !tears)
                  && (marks.Ok? && tears ==> c.Seg(SS) == Segment(g.value.ss, g.value.frame.desc, true))
                  && (marks.Fault? ==>
                        && r == Fault(marks.vector, marks.code)
                        && (c.mem == old(c.mem)
                            || Ok(c.mem) == old(AccessedMemory(c.paging, c.mem, c.tables, g.value.ss))))
                  && (r.Ok? ==>
                        && c.segs == old(c.segs)[SS.Index() := Segment(g.value.ss, g.value.frame.desc, true)][
                                       CS.Index() := Segment(WithRpl(t.selector, t.dpl), t.desc, true)]
                        && c.storedCpl == t.dpl && c.eip == t.offset
                        && StackPointer(c.Seg(SS), c.regs) == g.value.frame.Offset(4 + t.count)
                        && SlotsHold(
                             c.paging, g.value.frame, c.mem,
                             OuterPart(
                               old(c.Seg(SS)).selector, old(StackPointer(c.Seg(SS), c.regs)), g.value.params, t.size)
                             + ReturnPart(t))))
    ensures r.Fault? ==>
      var g := old(GateVerdict(c, t.dpl, t.size, t.count, c.User()));
      (g.Fault? || old(GateMarks(c, g.value.ss, t.selector)).Fault?
       <==> c.segs == old(c.segs) && c.regs == old(c.regs) && c.eip == old(c.eip) && c.storedCpl == old(c.storedCpl))
    ensures r.Ok? ==> Protected(c.segs, c.storedCpl)
    ensures c.tables == old(c.tables) && c.task == old(c.task) && !c.Vm()
    ensures c.flags == old(c.flags) && c.eflagsHigh == old(c.eflagsHigh)
    ensures forall i :: 0 <= i < 8 && i != ESP ==> c.regs[i] == old(c.regs)[i]
  {
    hide GateVerdict, GateMarks, Decode, AccessedMemory, Tears, SlotsHold, OuterPart, ReturnPart, StackPointer,
         Frame.Offset, Frame.Probed,
         IsWritable, IsReadable, IsCode, IsConforming, Dpl;
    var callerOverride := c.supervisorOverride;
    ghost var g := GateVerdict(c, t.dpl, t.size, t.count, c.User());
    ghost var aligned := c.AlignmentActive();
    c.supervisorOverride := true;
    var plan := ValidateGate(c, t.dpl, t.size, t.count, callerOverride);
    if plan.Fault? {
      c.supervisorOverride := callerOverride;
      return Fault(plan.vector, plan.code);
    }
    GateVerdictFacts(c, t, plan.value);
    InnerCallProtects(c.segs, c.storedCpl, t, plan.value);
    r := MarkGate(c, plan.value.ss, t.selector);
    if r.Ok? {
      r := CommitGate(c, plan.value, t, aligned);
    }
    c.supervisorOverride := callerOverride;
  }

  lemma GateVerdictFacts(c: Cpu, t: Transfer, g: GateFrame)
    requires t.Sized() && t.dpl <= 3 && !c.Vm()
    requires exists user :: GateVerdict(c, t.dpl, t.size, t.count, user) == Ok(g)
    ensures g.frame.size == t.size && |g.params| == t.count
    ensures forall v :: v in g.params ==> v < Bound(t.size)
    ensures forall k :: 1 <= k <= 4 + t.count ==> g.frame.Probed(c.paging, k)
    ensures IsWritable(g.frame.desc.rights) && Dpl(g.frame.desc.rights) == t.dpl
  {
  }

  /** The segments after the call are fit for the inner level: the data segments become more than fit. */
  lemma InnerCallProtects(segs: Segments, cpl: nat, t: Transfer, g: GateFrame)
    requires InnerTarget(t) && t.dpl < cpl && Protected(segs, cpl)
    requires IsWritable(g.frame.desc.rights) && Dpl(g.frame.desc.rights) == t.dpl
    ensures var after := segs[SS.Index() := Segment(g.ss, g.frame.desc, true)][
                           CS.Index() := Segment(WithRpl(t.selector, t.dpl), t.desc, true)];
            Protected(after, t.dpl)
    ensures segs[SS.Index()] != Segment(g.ss, g.frame.desc, true)
  {
  }

  // ----- When a valid call tears -----

  /** All slots are aligned alike. */
  lemma SameAlignment(f: Frame, k: nat)
    requires f.Sized() && k <= 64
    ensures f.Linear(k) % f.size == (f.desc.base + f.sp) % f.size
  {
    hide IsBig;
    if f.size == 2 {
      EvenOffsets(f.desc.base, f.sp, k);
    } else {
      QuadOffsets(f.desc.base, f.sp, k);
    }
  }

  lemma EvenOffsets(base: u32, sp: u32, k: nat)
    requires k <= 64
    ensures Add32(base, Sub32(sp, 2 * k)) % 2 == (base + sp) % 2
    ensures Add32(base, Sub32(sp, 2 * k) % 0x1_0000) % 2 == (base + sp) % 2
  {
    var down := Sub32(sp, 2 * k);
    var borrow := if sp >= 2 * k then 0 else 0x8000_0000;
    var words := down / 0x1_0000;
    assert down == 0x1_0000 * words + down % 0x1_0000;
    SameParity(Add32(base, down), base + sp, borrow - k - Carry(base, down, 2));
    SameParity(
      Add32(base, down % 0x1_0000), base + sp, borrow - k - 0x8000 * words - Carry(base, down % 0x1_0000, 2));
  }

  lemma QuadOffsets(base: u32, sp: u32, k: nat)
    requires k <= 64
    ensures Add32(base, Sub32(sp, 4 * k)) % 4 == (base + sp) % 4
    ensures Add32(base, Sub32(sp, 4 * k) % 0x1_0000) % 4 == (base + sp) % 4
  {
    var down := Sub32(sp, 4 * k);
    var borrow := if sp >= 4 * k then 0 else 0x4000_0000;
    var words := down / 0x1_0000;
    assert down == 0x1_0000 * words + down % 0x1_0000;
    SameQuarter(Add32(base, down), base + sp, borrow - k - Carry(base, down, 4));
    SameQuarter(
      Add32(base, down % 0x1_0000), base + sp, borrow - k - 0x4000 * words - Carry(base, down % 0x1_0000, 4));
  }

  /** What a sum past the end of the address space loses, in units of `n`. */
  function Carry(a: u32, b: u32, n: nat): nat
    requires n == 2 || n == 4
  {
    if a + b < 0x1_0000_0000 then 0 else if n == 2 then 0x8000_0000 else 0x4000_0000
  }

  lemma SameParity(x: int, y: int, z: int)
    requires x == y + 2 * z
    ensures x % 2 == y % 2
  {
  }

  lemma SameQuarter(x: int, y: int, z: int)
    requires x == y + 4 * z
    ensures x % 4 == y % 4
  {
  }

  /** Slots below an aligned stack pointer never wrap. */
  lemma AlignedNeverWraps(f: Frame, k: nat)
    requires f.Sized() && k <= 64 && f.sp % f.size == 0
    ensures !f.Wraps(k)
  {
    hide IsBig, Sub32;
    if !IsBig(f.desc.granularity) {
      var offset := f.Offset(k);
      if f.size == 2 {
        EvenOffsets(0, f.sp, k);
        assert offset % 2 == 0;
        FitsBelowEnd(offset, 2);
      } else {
        QuadOffsets(0, f.sp, k);
        assert offset % 4 == 0;
        FitsBelowEnd(offset, 4);
      }
    }
  }

  lemma FitsBelowEnd(offset: nat, size: nat)
    requires size == 2 || size == 4
    requires offset < 0x1_0000 && if size == 2 then offset % 2 == 0 else offset % 4 == 0
    ensures offset + size - 1 <= 0xFFFF
  {
    if size == 2 {
      assert offset == 2 * (offset / 2);
    } else {
      assert offset == 4 * (offset / 4);
    }
  }

  /**
    A valid call tears exactly when #AC is armed for the caller and the new stack is misaligned,
    or a slot of a 16-bit stack wraps onto a page that the probe did not look at.
   */
  lemma TearsWhen(pg: Paging, g: GateFrame, aligned: bool)
    requires g.frame.Sized() && |g.params| < 32
    ensures Tears(pg, g, aligned) <==>
      || (aligned && (g.frame.desc.base + g.frame.sp) % g.frame.size != 0)
      || exists k :: 1 <= k <= 4 + |g.params| && g.frame.Misses(pg, k)
  {
    hide Frame.Linear, Frame.Misses;
    var f := g.frame;
    forall k | 1 <= k <= 4 + |g.params|
      ensures f.Linear(k) % f.size == (f.desc.base + f.sp) % f.size
    {
      SameAlignment(f, k);
    }
    if aligned && (f.desc.base + f.sp) % f.size != 0 {
      assert FrameFails(pg, g, aligned, 1);
    }
    if k :| 1 <= k <= 4 + |g.params| && f.Misses(pg, k) {
      assert FrameFails(pg, g, aligned, k);
    }
  }

  /** A stack pointer in the TSS that is a multiple of the slot size, on an aligned base, cannot tear the call. */
  lemma AlignedStackNeverTears(pg: Paging, g: GateFrame, aligned: bool)
    requires g.frame.Sized() && |g.params| < 32
    requires g.frame.sp % g.frame.size == 0 && g.frame.desc.base % g.frame.size == 0
    ensures !Tears(pg, g, aligned)
  {
    hide Frame.Wraps;
    TearsWhen(pg, g, aligned);
    forall k | 1 <= k <= 4 + |g.params|
      ensures !g.frame.Misses(pg, k)
    {
      AlignedNeverWraps(g.frame, k);
    }
    assert (g.frame.desc.base + g.frame.sp) % g.frame.size == 0;
  }

  /** Where the words of the return frame lie: parameter `i` keeps its place in the caller's order. */
  lemma FrameLayout(ss: u16, esp: u32, params: seq<nat>, t: Transfer, i: nat)
    requires t.Sized() && i < |params|
    ensures var values := OuterPart(ss, esp, params, t.size) + ReturnPart(t);
            && values[0] == Fit(ss, t.size) && values[1] == Fit(esp, t.size)
            && values[2 + (|params| - 1 - i)] == params[i]
            && values[2 + |params|] == Fit(t.oldCs, t.size) && values[3 + |params|] == Fit(t.oldEip, t.size)
  {
    ReversedAt(params, i);
  }

  // ----- Transfers that keep the level -----

  /** The two slots of a return address on the current stack, or the fault of the first that cannot be written. */
  function ReturnSpans(c: Cpu, size: nat): Outcome<(seq<nat>, seq<nat>)>
    requires (size == 2 || size == 4) && !c.Vm()
    reads c`segs, c`regs, c`eflagsHigh, c`storedCpl, c`supervisorOverride
  {
    var sp1 := Below(c.Seg(SS), StackPointer(c.Seg(SS), c.regs), size);
    var first :- c.SegmentSpan(SS, sp1, size, true);
    var second :- c.SegmentSpan(SS, Below(c.Seg(SS), sp1, size), size, true);
    Ok((first, second))
  }

  /** Memory after the return address was pushed. */
  function WithReturn(mem: Memory, spans: (seq<nat>, seq<nat>), t: Transfer): Memory
    requires t.Sized()
  {
    Store(Store(mem, spans.0, Fit(t.oldCs, t.size)), spans.1, Fit(t.oldEip, t.size))
  }

  /** The registers after the two pushes of a return address: the stack pointer stands at the second. */
  function RegsAfterReturn(ss: Segment, regs: Registers, size: nat): Registers
    requires size == 2 || size == 4
  {
    WithStackPointer(ss, regs, Below(ss, Below(ss, StackPointer(ss, regs), size), size))
  }

  lemma PointerMovesTwice(ss: Segment, regs: Registers, a: u32, b: u32)
    ensures WithStackPointer(ss, WithStackPointer(ss, regs, a), b) == WithStackPointer(ss, regs, b)
  {
  }

  lemma BelowIsPointer(ss: Segment, regs: Registers, n: u32)
    requires n <= 4
    ensures var sp := Below(ss, StackPointer(ss, regs), n);
            StackPointer(ss, WithStackPointer(ss, regs, sp)) == sp
  {
    DownAndUp(ss, regs, n);
  }

  method PushReturn(c: Cpu, t: Transfer) returns (r: Outcome<()>)
    requires t.Sized() && !c.Vm()
    modifies c`mem, c`regs
    ensures var spans := old(ReturnSpans(c, t.size));
            && r.Void() == spans.Void()
            && (r.Ok? ==>
                  && c.mem == WithReturn(old(c.mem), spans.value, t)
                  && c.regs == RegsAfterReturn(c.Seg(SS), old(c.regs), t.size))
  {
    hide Cpu.SegmentSpan, StackPointer, WithStackPointer, Below, Fit;
    BelowIsPointer(c.Seg(SS), c.regs, t.size);
    ghost var sp := Below(c.Seg(SS), StackPointer(c.Seg(SS), c.regs), t.size);
    PointerMovesTwice(c.Seg(SS), c.regs, sp, Below(c.Seg(SS), sp, t.size));
    r := c.Push(Fit(t.oldCs, t.size), t.size);
    if r.Ok? {
      r := c.Push(Fit(t.oldEip, t.size), t.size);
    }
  }

  /** The slot `k` below the stack pointer passes the check that precedes a gate call within the level. */
  predicate SlotChecked(c: Cpu, size: nat, k: nat)
    requires (size == 2 || size == 4) && k <= 2 && !c.Vm()
    reads c`segs, c`regs, c`eflagsHigh, c`storedCpl, c`supervisorOverride
  {
    var f := Frame(c.Seg(SS).desc, StackPointer(c.Seg(SS), c.regs), size);
    && c.CheckSegmentAccess(SS, f.Offset(k), size, true).Ok?
    && Translate(c.paging, f.Linear(k), true, c.User()).Ok?
    && Translate(c.paging, f.ProbedLast(k), true, c.User()).Ok?
  }

  method CheckReturnSlot(c: Cpu, size: nat, k: nat) returns (r: Outcome<()>)
    requires (size == 2 || size == 4) && k <= 2 && !c.Vm()
    ensures r.Ok? <==> SlotChecked(c, size, k)
  {
    hide Translate, Frame.Offset, CheckAccess;
    var f := Frame(c.Seg(SS).desc, StackPointer(c.Seg(SS), c.regs), size);
    var check := c.CheckSegmentAccess(SS, f.Offset(k), size, true);
    if check.Fault? {
      return check;
    }
    var first := Translate(c.paging, f.Linear(k), true, c.User());
    if first.Fault? {
      return Fault(first.vector, first.code);
    }
    if f.ProbedLast(k) / 0x1000 != f.Linear(k) / 0x1000 {
      var last := Translate(c.paging, f.ProbedLast(k), true, c.User());
      if last.Fault? {
        return Fault(last.vector, last.code);
      }
    } else {
      SamePage(c.paging, f.ProbedLast(k), f.Linear(k), true, c.User());
    }
    return Ok(());
  }

  /** A code segment entered at the current level. */
  predicate SameTarget(t: Transfer, cpl: nat)
    ensures SameTarget(t, cpl) ==> t.Sized()
  {
    && t.Sized() && cpl <= 3 && IsCode(t.desc.rights)
    && if IsConforming(t.desc.rights) then Dpl(t.desc.rights) <= cpl else Dpl(t.desc.rights) == cpl
  }

  /** Loads CS at the current level and jumps; a call pushes the return address afterwards. */
  method EnterCode(c: Cpu, t: Transfer, isCall: bool) returns (r: Outcome<()>)
    requires SameTarget(t, c.storedCpl) && !c.Vm()
    modifies c`mem, c`regs, c`segs, c`storedCpl, c`eip
    ensures c.storedCpl == old(c.storedCpl) && c.eip == t.offset
    ensures c.segs == old(c.segs)[CS.Index() := Segment(WithRpl(t.selector, c.storedCpl), t.desc, true)]
    ensures var spans := old(ReturnSpans(c, t.size));
            && (r.Ok? <==> !isCall || spans.Ok?)
            && (r.Fault? ==> r.Void() == spans.Void())
            && (r.Ok? && isCall ==>
                  && c.mem == WithReturn(old(c.mem), spans.value, t)
                  && c.regs == old(RegsAfterReturn(c.Seg(SS), c.regs, t.size)))
    ensures !isCall ==> c.mem == old(c.mem) && c.regs == old(c.regs)
    ensures old(Protected(c.segs, c.storedCpl)) ==> Protected(c.segs, c.storedCpl)
  {
    hide CheckAccess, StackPointer, Below, WithReturn, RegsAfterReturn, Addresses, IsReadable, IsWritable, IsCode, Dpl;
    ghost var spans := ReturnSpans(c, t.size);
    c.SetLoaded(CS, WithRpl(t.selector, c.storedCpl), t.desc);
    c.eip := t.offset;
    assert ReturnSpans(c, t.size) == spans;
    r := Ok(());
    if isCall {
      r := PushReturn(c, t);
    }
  }

  /** Both slots of the return address pass the check, if there is one to push. */
  predicate ReturnChecked(c: Cpu, size: nat, isCall: bool)
    requires (size == 2 || size == 4) && !c.Vm()
    reads c`segs, c`regs, c`eflagsHigh, c`storedCpl, c`supervisorOverride
  {
    isCall ==> SlotChecked(c, size, 1) && SlotChecked(c, size, 2)
  }

  /** The frame of a return address on the current stack. */
  function ReturnSlots(c: Cpu, size: nat): Frame
    reads c`segs, c`regs
  {
    Frame(c.Seg(SS).desc, StackPointer(c.Seg(SS), c.regs), size)
  }

  /** The push into slot `k` runs past the end of a 16-bit stack into a byte that the level cannot write. */
  predicate PushMisses(c: Cpu, size: nat, k: nat)
    requires (size == 2 || size == 4) && k <= 64
    reads c`segs, c`regs, c`eflagsHigh, c`storedCpl, c`supervisorOverride
  {
    var f := ReturnSlots(c, size);
    f.Wraps(k) && Translate(c.paging, f.PushedLast(k), true, c.User()).Fault?
  }

  /** The push into a checked slot succeeds exactly when it does not miss. */
  lemma CheckedIsPushed(c: Cpu, size: nat, k: nat)
    requires (size == 2 || size == 4) && 1 <= k <= 2 && !c.Vm() && SlotChecked(c, size, k)
    ensures c.SegmentSpan(SS, ReturnSlots(c, size).Offset(k), size, true).Ok? <==> !PushMisses(c, size, k)
  {
    hide Translate, Addresses, CheckAccess, Frame.Offset;
    var f := ReturnSlots(c, size);
    SpanEnds(c.paging, f.Linear(k), size, true, c.User());
    if !f.Wraps(k) {
      assert f.ProbedLast(k) == f.PushedLast(k);
    }
  }

  /** The two pushes go to the slots that the checks looked at. */
  lemma ReturnSlotsAre(c: Cpu, size: nat)
    requires (size == 2 || size == 4) && !c.Vm()
    ensures var ss, f := c.Seg(SS), ReturnSlots(c, size);
            Below(ss, StackPointer(ss, c.regs), size) == f.Offset(1) && Below(ss, f.Offset(1), size) == f.Offset(2)
  {
    hide Below;
    var ss, f := c.Seg(SS), ReturnSlots(c, size);
    assert f.Offset(0) == StackPointer(ss, c.regs);
    f.NextSlot(ss, 0);
    f.NextSlot(ss, 1);
  }

  /**
    After the checks of a gate call within the level have passed, a push of the return address still
    faults exactly when its slot straddles the end of a 16-bit stack, where the check and the push
    translate different last bytes, and the level cannot write the byte that is pushed.
   */
  lemma CheckedCallTearsWhen(c: Cpu, size: nat)
    requires (size == 2 || size == 4) && !c.Vm() && ReturnChecked(c, size, true)
    ensures ReturnSpans(c, size).Fault? <==> PushMisses(c, size, 1) || PushMisses(c, size, 2)
  {
    hide SlotChecked, PushMisses, Cpu.SegmentSpan, StackPointer, Below, Frame.Offset;
    ReturnSlotsAre(c, size);
    CheckedIsPushed(c, size, 1);
    CheckedIsPushed(c, size, 2);
  }

  /**
    A call or jump through a gate that keeps the level: nothing changes unless the checks and the marking
    succeed. If a push faults after that, CS and EIP are the gate's already; `CheckedCallTearsWhen` says when.
   */
  method CallGateSame(c: Cpu, t: Transfer, isCall: bool) returns (r: Outcome<()>)
    requires SameTarget(t, c.storedCpl) && !c.Vm()
    modifies c`mem, c`regs, c`segs, c`storedCpl, c`eip
    ensures c.storedCpl == old(c.storedCpl)
    ensures var checked := old(ReturnChecked(c, t.size, isCall));
            var marked := old(AccessedMemory(c.paging, c.mem, c.tables, t.selector));
            var spans := old(ReturnSpans(c, t.size));
            && (r.Ok? <==> checked && marked.Ok? && (isCall ==> spans.Ok?))
            && (r.Ok? ==>
                  && c.segs == old(c.segs)[CS.Index() := Segment(WithRpl(t.selector, c.storedCpl), t.desc, true)]
                  && c.eip == t.offset
                  && c.mem == (if isCall then WithReturn(marked.value, spans.value, t) else marked.value)
                  && c.regs == if isCall then old(RegsAfterReturn(c.Seg(SS), c.regs, t.size)) else old(c.regs))
            && (!checked || marked.Fault? ==>
                  c.mem == old(c.mem) && c.segs == old(c.segs) && c.regs == old(c.regs) && c.eip == old(c.eip))
            && (checked && marked.Ok? && r.Fault? ==>
                  && r.Void() == spans.Void()
                  && c.segs == old(c.segs)[CS.Index() := Segment(WithRpl(t.selector, c.storedCpl), t.desc, true)]
                  && c.eip == t.offset)
    ensures r.Ok? && old(Protected(c.segs, c.storedCpl)) ==> Protected(c.segs, c.storedCpl)
  {
    hide SlotChecked, AccessedMemory, ReturnSpans, SameTarget, Protected, WithReturn, RegsAfterReturn;
    if isCall {
      r := CheckReturnSlot(c, t.size, 1);
      if r.Fault? {
        return;
      }
      r := CheckReturnSlot(c, t.size, 2);
      if r.Fault? {
        return;
      }
    }
    r := c.SetAccessedBit(t.selector);
    if r.Ok? {
      r := EnterCode(c, t, isCall);
    }
  }
}
