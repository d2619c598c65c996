/**
  Far transfers and far returns of crates/cpu/src/i386.rs as whole operations,
  and what every run of successful operations keeps.
 */
module I386Far {
  import opened I386Memory
  import opened I386Cpu
  import opened I386Protection
  import opened I386Gates
  import opened I386TaskImage
  import opened I386Tasks
  import opened I386TaskReturn
  import opened Wrappers

  /** How a far transfer got where it went; `Elsewhere` is any step outside this model. */
  datatype Way = SegmentLoaded | Direct | SameLevelGate | InnerGate | TaskSwitched | Returned | Elsewhere

  /** Everything of the machine that a program can see, and its level. */
  function Visible(c: Cpu): (State, nat)
    reads c`mem, c`tables, c`task, c`segs, c`regs, c`eip, c`flags, c`eflagsHigh, c`storedCpl
  {
    (StateOf(c), c.storedCpl)
  }

  // ----- Gates -----

  predicate IsCallGate(rights: u8) { rights % 16 == 4 || rights % 16 == 12 }

  /** What a call gate holds. */
  datatype Gate = Gate(selector: u16, count: nat, offset: u32)

  /** The contents of the call gate at `addr`; only a 386 gate has an upper offset half. */
  function GateAt(c: Cpu, addr: u32, is386: bool): (r: Outcome<Gate>)
    reads c`mem
    ensures r.Ok? ==> r.value.count < 32
  {
    var selector :- ReadWord(c.paging, c.mem, Add32(addr, 2), false);
    var count :- SystemByte(c.paging, c.mem, Add32(addr, 4));
    var lo :- ReadWord(c.paging, c.mem, addr, false);
    if is386 then
      var hi :- ReadWord(c.paging, c.mem, Add32(addr, 6), false);
      Ok(Gate(selector, count % 32, lo + 0x1_0000 * hi))
    else Ok(Gate(selector, count % 32, lo))
  }

  /** The code segment that a gate names, if the level may enter it through a gate. */
  function GateTarget(c: Cpu, g: Gate, cpl: nat): (r: Outcome<Descriptor>)
    reads c`mem, c`tables
    ensures r.Ok? ==> IsCode(r.value.rights) && Dpl(r.value.rights) <= cpl
  {
    match DescriptorSlot(c.tables, g.selector)
    case NoSlot => Fault(PROTECTION, ErrorCode(g.selector))
    case Slot(addr) =>
      var d :- DecodeAt(c.paging, c.mem, addr);
      if !IsCode(d.rights) || !IsSegment(d.rights) || Dpl(d.rights) > cpl then Fault(PROTECTION, ErrorCode(g.selector))
      else if !IsPresent(d.rights) then Fault(NOT_PRESENT, ErrorCode(g.selector))
      else if g.offset > d.limit then Fault(PROTECTION, 0)
      else Ok(d)
  }

  /** Where a far transfer comes from and goes to. */
  datatype Jump = Jump(selector: u16, offset: u32, isCall: bool, size: nat, oldCs: u16, oldEip: u32) {
    predicate Sized() {
      size == 2 || size == 4
    }
  }

  /** The transfer that a gate makes of a jump. */
  function GateTransfer(g: Gate, d: Descriptor, j: Jump, is386: bool): Transfer {
    Transfer(d, Dpl(d.rights), g.selector, g.offset, if is386 then 4 else 2, g.count, j.oldCs, j.oldEip)
  }

  predicate IsInner(d: Descriptor, cpl: nat) {
    !IsConforming(d.rights) && Dpl(d.rights) < cpl
  }

  /** The transfer through a gate, or the fault of its first failing check; only a CALL may go to an inner level. */
  function GateRoute(c: Cpu, j: Jump, addr: u32, is386: bool): (r: Outcome<Transfer>)
    reads c`mem, c`tables, c`storedCpl
    ensures r.Ok? ==> IsCode(r.value.desc.rights) && Dpl(r.value.desc.rights) <= c.storedCpl && r.value.count < 32
    ensures r.Ok? ==> r.value.Sized()
  {
    var g :- GateAt(c, addr, is386);
    var d :- GateTarget(c, g, c.storedCpl);
    if IsInner(d, c.storedCpl) && !j.isCall then Fault(PROTECTION, ErrorCode(g.selector))
    else Ok(GateTransfer(g, d, j, is386))
  }

  /** A call to an inner level runs to its end. */
  ghost predicate InnerCompletes(c: Cpu, t: Transfer)
    requires t.Sized() && !c.Vm()
    reads c
  {
    var g := GateVerdict(c, t.dpl, t.size, t.count, c.User());
    g.Ok? && GateMarks(c, g.value.ss, t.selector).Ok? && !Tears(c.paging, g.value, c.AlignmentActive())
  }

  /** A transfer through a gate within the level runs to its end. */
  ghost predicate SameCompletes(c: Cpu, t: Transfer, isCall: bool)
    requires t.Sized() && !c.Vm()
    reads c
  {
    && ReturnChecked(c, t.size, isCall) && CanMarkAccessed(c, t.selector)
    && (isCall ==> ReturnSpans(c, t.size).Ok?)
  }

  ghost predicate GateCompletes(c: Cpu, t: Transfer, isCall: bool)
    requires t.Sized() && !c.Vm()
    reads c
  {
    if IsInner(t.desc, c.storedCpl) then InnerCompletes(c, t) else SameCompletes(c, t, isCall)
  }

  /** A segment that stays loaded although the transfer faults; with CS goes the EIP. */
  datatype Torn = Torn(seg: SegReg, loaded: Segment, eip: u32)

  /** What a transfer through a gate leaves loaded when it has passed every check and mark, and yet a push faults. */
  ghost function GateTorn(c: Cpu, t: Transfer, isCall: bool): Option<Torn>
    requires t.Sized() && !c.Vm()
    reads c
  {
    if IsInner(t.desc, c.storedCpl) then
      var g := GateVerdict(c, t.dpl, t.size, t.count, c.User());
      if g.Ok? && GateMarks(c, g.value.ss, t.selector).Ok? && Tears(c.paging, g.value, c.AlignmentActive()) then
        Some(Torn(SS, Segment(g.value.ss, g.value.frame.desc, true), 0))
      else None
    else if isCall && ReturnChecked(c, t.size, isCall) && CanMarkAccessed(c, t.selector)
      && ReturnSpans(c, t.size).Fault? && c.storedCpl <= 3
    then Some(Torn(CS, Segment(WithRpl(t.selector, c.storedCpl), t.desc, true), t.offset))
    else None
  }

  /** The torn segment is loaded, and with CS the EIP. */
  predicate Holds(c: Cpu, torn: Torn)
    reads c`segs, c`eip
  {
    c.Seg(torn.seg) == torn.loaded && (torn.seg == CS ==> c.eip == torn.eip)
  }

  /** The segments, the registers, EIP and the level. */
  function Position(c: Cpu): (Segments, Registers, u32, nat)
    reads c`segs, c`regs, c`eip, c`storedCpl
  {
    (c.segs, c.regs, c.eip, c.storedCpl)
  }

  /** A transfer through a call gate: refused as its route says, and otherwise completed exactly when it can be. */
  method ThroughCallGate(c: Cpu, j: Jump, addr: u32, is386: bool) returns (r: Outcome<Way>)
    requires j.Sized() && !c.Vm() && Protected(c.segs, c.storedCpl)
    modifies c
    ensures c.tables == old(c.tables) && c.task == old(c.task) && !c.Vm()
    ensures c.supervisorOverride == old(c.supervisorOverride)
    ensures c.flags == old(c.flags) && c.eflagsHigh == old(c.eflagsHigh)
    ensures r.Ok? ==> Protected(c.segs, c.storedCpl)
    ensures var route := old(GateRoute(c, j, addr, is386));
            && (route.Fault? ==> r.Void() == route.Void() && Visible(c) == old(Visible(c)))
            && (route.Ok? ==>
                  var t := route.value;
                  && (r.Ok? <==> old(GateCompletes(c, t, j.isCall)))
                  && (var torn := old(GateTorn(c, t, j.isCall));
                      if torn.Some? then r.Fault? && Holds(c, torn.value)
                      else r.Fault? ==> Position(c) == old(Position(c)))
                  && (r.Ok? ==>
                        && r.value == (if IsInner(t.desc, old(c.storedCpl)) then InnerGate else SameLevelGate)
                        && c.storedCpl == (if r.value == InnerGate then t.dpl else old(c.storedCpl))
                        && c.Seg(CS) == Segment(WithRpl(t.selector, c.storedCpl), t.desc, true)
                        && c.eip == t.offset && (r.value == InnerGate ==> j.isCall)))
  {
    hide GateAt, GateTarget, Protected, IsCode, IsConforming, Dpl, AccessedMemory, Decode, DecodeAt, GateVerdict,
         GateMarks, SlotsHold, ReturnSpans, ReturnChecked, WithReturn, Tears;
    var gate := GateAt(c, addr, is386);
    if gate.Fault? {
      return Fault(gate.vector, gate.code);
    }
    var g := gate.value;
    var target := GateTarget(c, g, c.storedCpl);
    if target.Fault? {
      return Fault(target.vector, target.code);
    }
    var d := target.value;
    var dpl := Dpl(d.rights);
    TargetFacts(c, g, c.storedCpl);
    ProtectedLevel(c.segs, c.storedCpl);
    var t := Transfer(d, dpl, g.selector, g.offset, if is386 then 4 else 2, g.count, j.oldCs, j.oldEip);
    if !IsConforming(d.rights) && dpl < c.storedCpl {
      if !j.isCall {
        return Fault(PROTECTION, ErrorCode(g.selector));
      }
      var inner := CallGateInner(c, t);
      return if inner.Ok? then Ok(InnerGate) else Fault(inner.vector, inner.code);
    }
    var same := CallGateSame(c, t, j.isCall);
    return if same.Ok? then Ok(SameLevelGate) else Fault(same.vector, same.code);
  }

  lemma ProtectedLevel(segs: Segments, cpl: nat)
    requires Protected(segs, cpl)
    ensures cpl <= 3
  {
  }

  lemma TargetFacts(c: Cpu, g: Gate, cpl: nat)
    requires GateTarget(c, g, cpl).Ok?
    ensures IsCode(GateTarget(c, g, cpl).value.rights) && Dpl(GateTarget(c, g, cpl).value.rights) <= cpl
  {
    hide DecodeAt;
  }

  // ----- Far transfers -----

  /** The checks of a transfer straight to a code segment, in their order. */
  function DirectVerdict(d: Descriptor, selector: u16, offset: u32, cpl: nat): Outcome<()> {
    if !MayEnter(d.rights, cpl, Rpl(selector)) then Fault(PROTECTION, ErrorCode(selector))
    else if !IsPresent(d.rights) then Fault(NOT_PRESENT, ErrorCode(selector))
    else if offset > d.limit then Fault(PROTECTION, 0)
    else Ok(())
  }

  /** The transfer is allowed and its accessed bit can be set; only pushing the return address can still fault. */
  predicate DirectEnters(c: Cpu, j: Jump, d: Descriptor)
    reads c`mem, c`tables, c`storedCpl
  {
    DirectVerdict(d, j.selector, j.offset, c.storedCpl).Ok? && CanMarkAccessed(c, j.selector)
  }

  predicate DirectCompletes(c: Cpu, j: Jump, d: Descriptor)
    requires j.Sized() && !c.Vm()
    reads c
  {
    DirectEnters(c, j, d) && (j.isCall ==> ReturnSpans(c, j.size).Ok?)
  }

  /**
    A transfer straight to a code segment stays at its level. A fault changes nothing if it is raised
    before CS is loaded; when the return address of a CALL cannot be pushed, CS and EIP are the target's already.
   */
  method ToCodeSegment(c: Cpu, j: Jump, d: Descriptor) returns (r: Outcome<Way>)
    requires j.Sized() && !c.Vm() && Protected(c.segs, c.storedCpl) && IsSegment(d.rights)
    modifies c`mem, c`regs, c`segs, c`storedCpl, c`eip
    ensures c.storedCpl == old(c.storedCpl)
    ensures var verdict := DirectVerdict(d, j.selector, j.offset, old(c.storedCpl));
            var marked := old(AccessedMemory(c.paging, c.mem, c.tables, j.selector));
            && (verdict.Fault? ==> r.Void() == verdict)
            && (verdict.Ok? && marked.Fault? ==> r.Void() == marked.Void())
            && (r.Ok? <==> old(DirectCompletes(c, j, d)))
            && (if old(DirectEnters(c, j, d)) then
                  && c.segs == old(c.segs)[CS.Index() := Segment(WithRpl(j.selector, c.storedCpl), d, true)]
                  && c.eip == j.offset
                else Visible(c) == old(Visible(c)))
            && (r.Ok? ==>
                  var spans := old(ReturnSpans(c, j.size));
                  && r.value == Direct
                  && c.mem == (if j.isCall
                               then WithReturn(marked.value, spans.value, DirectTransfer(j, d)) else marked.value)
                  && c.regs == if j.isCall then old(RegsAfterReturn(c.Seg(SS), c.regs, j.size)) else old(c.regs))
    ensures r.Ok? ==> Protected(c.segs, c.storedCpl)
  {
    hide Protected, IsCode, IsConforming, IsSegment, IsPresent, Dpl, AccessedMemory, ReturnSpans, WithReturn,
         RegsAfterReturn;
    ProtectedLevel(c.segs, c.storedCpl);
    var cpl, rpl := c.storedCpl, Rpl(j.selector);
    if !IsCode(d.rights) {
      return Fault(PROTECTION, ErrorCode(j.selector));
    }
    if IsConforming(d.rights) {
      if Dpl(d.rights) > cpl {
        return Fault(PROTECTION, ErrorCode(j.selector));
      }
    } else if rpl > cpl || Dpl(d.rights) != cpl {
      return Fault(PROTECTION, ErrorCode(j.selector));
    }
    if !IsPresent(d.rights) {
      return Fault(NOT_PRESENT, ErrorCode(j.selector));
    }
    if j.offset > d.limit {
      return Fault(PROTECTION, 0);
    }
    var marked := c.SetAccessedBit(j.selector);
    if marked.Fault? {
      return Fault(marked.vector, marked.code);
    }
    var entered := EnterCode(c, DirectTransfer(j, d), j.isCall);
    return if entered.Ok? then Ok(Direct) else Fault(entered.vector, entered.code);
  }

  function DirectTransfer(j: Jump, d: Descriptor): Transfer {
    Transfer(d, 0, j.selector, j.offset, j.size, 0, j.oldCs, j.oldEip)
  }

  /** What the selector of a far transfer names. */
  datatype Destination =
    | ToCode(desc: Descriptor)
    | ToGate(addr: u32, is386: bool)
    | ToTask(addr: u32, isGate: bool)

  /** The descriptor of a far transfer, if its level may use it; the checks in their order. */
  function DestinationOf(c: Cpu, selector: u16): Outcome<Destination>
    reads c`mem, c`tables, c`storedCpl
  {
    var code := ErrorCode(selector);
    match DescriptorSlot(c.tables, selector)
    case NoSlot => Fault(PROTECTION, code)
    case Slot(addr) =>
      var d :- DecodeAt(c.paging, c.mem, addr);
      var kind := d.rights % 16;
      if IsSegment(d.rights) then Ok(ToCode(d))
      else if Dpl(d.rights) < c.storedCpl || Dpl(d.rights) < Rpl(selector) then Fault(PROTECTION, code)
      else if !IsPresent(d.rights) then Fault(NOT_PRESENT, code)
      else if IsCallGate(d.rights) then Ok(ToGate(addr, kind == 12))
      else if kind == 5 || kind == 1 || kind == 9 then Ok(ToTask(addr, kind == 5))
      else Fault(PROTECTION, code)
  }

  /** The task that a far transfer switches to. */
  function TaskSelector(c: Cpu, j: Jump, addr: u32, isGate: bool): Outcome<u16>
    reads c`mem
  {
    if isGate then ReadWord(c.paging, c.mem, Add32(addr, 2), false) else Ok(j.selector)
  }

  function JumpType(j: Jump): TaskType {
    if j.isCall then Call else Jmp
  }

  /** The state after a far transfer to a task, or the fault of its switch. */
  function TaskRoute(c: Cpu, j: Jump, addr: u32, isGate: bool): Outcome<State>
    reads c`mem, c`tables, c`task, c`segs, c`regs, c`eip, c`flags, c`eflagsHigh
  {
    var selector :- TaskSelector(c, j, addr, isGate);
    var v :- SwitchVerdict(c.paging, c.model486, StateOf(c), selector, JumpType(j), 0, false);
    Ok(After(v, selector, JumpType(j), c.model486))
  }

  /** Whether a far transfer to an allowed destination runs to its end. */
  ghost predicate FarCompletes(c: Cpu, j: Jump, to: Destination)
    requires j.Sized() && !c.Vm()
    reads c
  {
    match to
    case ToCode(d) => DirectCompletes(c, j, d)
    case ToGate(addr, is386) =>
      var route := GateRoute(c, j, addr, is386);
      route.Ok? && GateCompletes(c, route.value, j.isCall)
    case ToTask(addr, isGate) => TaskRoute(c, j, addr, isGate).Ok?
  }

  /** What a far transfer to code or through a gate leaves loaded when it faults too late. */
  ghost function FarTorn(c: Cpu, j: Jump, to: Destination): Option<Torn>
    requires j.Sized() && !c.Vm()
    reads c
  {
    match to
    case ToCode(d) =>
      if DirectEnters(c, j, d) && j.isCall && ReturnSpans(c, j.size).Fault? && c.storedCpl <= 3
      then Some(Torn(CS, Segment(WithRpl(j.selector, c.storedCpl), d, true), j.offset))
      else None
    case ToGate(addr, is386) =>
      var route := GateRoute(c, j, addr, is386);
      if route.Ok? then GateTorn(c, route.value, j.isCall) else None
    case ToTask(_, _) => None
  }

  /**
    A far JMP or CALL in protected mode. A destination that the level may not use is refused with nothing
    changed; the others are reached exactly when they can be. On success the state is protected again; only a
    CALL through a gate and a task switch can lead to a more privileged level.
   */
  method FarTransfer(c: Cpu, j: Jump) returns (r: Outcome<Way>)
    requires j.Sized() && !c.Vm() && Protected(c.segs, c.storedCpl)
    modifies c
    ensures var to := old(DestinationOf(c, j.selector));
            && (to.Fault? ==> r.Void() == to.Void() && Visible(c) == old(Visible(c)))
            && (to.Ok? ==> (r.Ok? <==> old(FarCompletes(c, j, to.value))))
            && (to.Ok? && !to.value.ToTask? ==>
                  var torn := old(FarTorn(c, j, to.value));
                  if torn.Some? then r.Fault? && Holds(c, torn.value)
                  else r.Fault? ==> Position(c) == old(Position(c)))
            && (r.Ok? ==>
                  && (r.value == Direct <==> to.value.ToCode?) && (r.value == TaskSwitched <==> to.value.ToTask?)
                  && (r.value == TaskSwitched ==>
                        StateOf(c) == old(TaskRoute(c, j, to.value.addr, to.value.isGate)).value)
                  && (r.value == SameLevelGate || r.value == InnerGate <==> to.value.ToGate?))
    ensures r.Ok? && !c.Vm() ==> Protected(c.segs, c.storedCpl)
    ensures r.Ok? && r.value != TaskSwitched ==> c.flags == old(c.flags) && c.eflagsHigh == old(c.eflagsHigh)
    ensures r.Ok? && (r.value == Direct || r.value == SameLevelGate) ==> c.storedCpl == old(c.storedCpl)
    ensures r == Ok(InnerGate) ==> j.isCall && c.storedCpl < old(c.storedCpl)
  {
    hide Protected, DecodeAt, IsSegment, IsPresent, Dpl, DirectVerdict, GateRoute, GateTorn,
         GateCompletes, TaskRoute, WithReturn, ReturnSpans, RegsAfterReturn, AccessedMemory;
    var slot := DescriptorSlot(c.tables, j.selector);
    if slot.NoSlot? {
      return Fault(PROTECTION, ErrorCode(j.selector));
    }
    var decoded := DecodeAt(c.paging, c.mem, slot.addr);
    if decoded.Fault? {
      return Fault(decoded.vector, decoded.code);
    }
    var d := decoded.value;
    if IsSegment(d.rights) {
      r := ToCodeSegment(c, j, d);
      return;
    }
    var cpl, rpl := c.Cpl(), Rpl(j.selector);
    if Dpl(d.rights) < (if cpl > rpl then cpl else rpl) {
      return Fault(PROTECTION, ErrorCode(j.selector));
    }
    if !IsPresent(d.rights) {
      return Fault(NOT_PRESENT, ErrorCode(j.selector));
    }
    var kind := d.rights % 16;
    if IsCallGate(d.rights) {
      InnerIsLower(c, j, slot.addr, kind == 12);
      r := ThroughCallGate(c, j, slot.addr, kind == 12);
    } else if kind == 5 || kind == 1 || kind == 9 {
      r := ThroughTask(c, j, slot.addr, kind == 5);
    } else {
      r := Fault(PROTECTION, ErrorCode(j.selector));
    }
  }

  lemma InnerIsLower(c: Cpu, j: Jump, addr: u32, is386: bool)
    ensures var route := GateRoute(c, j, addr, is386);
            route.Ok? && IsInner(route.value.desc, c.storedCpl) ==> route.value.dpl < c.storedCpl
  {
    hide GateAt, GateTarget;
  }

  /** A transfer to a task, through a task gate or straight to its TSS. */
  method ThroughTask(c: Cpu, j: Jump, addr: u32, isGate: bool) returns (r: Outcome<Way>)
    modifies c
    ensures var route := old(TaskRoute(c, j, addr, isGate));
            && r.Void() == route.Void()
            && (r.Ok? ==> r.value == TaskSwitched && StateOf(c) == route.value)
    ensures r.Ok? && !c.Vm() ==> Protected(c.segs, c.storedCpl)
  {
    hide Protected, SwitchVerdict, ReadWord, After, EnteredCpl, Accepted, LeftMemory, ImageAt;
    ghost var s := StateOf(c);
    var selector := j.selector;
    if isGate {
      var named := ReadWord(c.paging, c.mem, Add32(addr, 2), false);
      if named.Fault? {
        return Fault(named.vector, named.code);
      }
      selector := named.value;
    }
    if SwitchVerdict(c.paging, c.model486, s, selector, JumpType(j), 0, false).Ok? {
      SwitchProtects(c.paging, c.model486, s, selector, JumpType(j), 0, false);
    }
    var switched := SwitchTask(c, selector, if j.isCall then Call else Jmp, 0, false);
    return if switched.Ok? then Ok(TaskSwitched) else Fault(switched.vector, switched.code);
  }

  // ----- Far returns -----

  /** The stack item at `offset`. */
  function StackItem(c: Cpu, offset: u32, size: nat): (r: Outcome<u32>)
    requires (size == 2 || size == 4) && !c.Vm()
    reads c`mem, c`segs, c`eflagsHigh, c`storedCpl, c`supervisorOverride
  {
    var span :- c.SegmentSpan(SS, offset, size, false);
    ItemFits(c.mem, span, size);
    Ok(Load(c.mem, span))
  }

  lemma ItemFits(mem: Memory, span: seq<nat>, size: nat)
    requires size == 2 || size == 4
    ensures |span| == size ==> Load(mem, span) < 0x1_0000_0000
  {
    assert Bound(2) == 0x1_0000;
    assert Bound(4) == 0x100 * Bound(3) && Bound(3) == 0x100 * Bound(2);
  }

  /** A return address, and for a return to an outer level the outer stack. */
  datatype ReturnFrame = ReturnFrame(eip: u32, cs: u16, esp: u32, ss: u16)

  /** RETF's operands: EIP, CS and, behind the released bytes, ESP and SS of an outer level. */
  function ReturnOperands(c: Cpu, imm: u16, size: nat): (r: Outcome<ReturnFrame>)
    requires (size == 2 || size == 4) && !c.Vm()
    reads c`mem, c`segs, c`regs, c`eflagsHigh, c`storedCpl, c`supervisorOverride
  {
    var sp := StackPointer(c.Seg(SS), c.regs);
    var eip :- StackItem(c, sp, size);
    var csItem :- StackItem(c, Add32(sp, size), size);
    var cs := csItem % 0x1_0000;
    var behind := Add32(Add32(sp, 2 * size), imm);
    if Rpl(cs) <= c.storedCpl then Ok(ReturnFrame(eip, cs, behind, c.Seg(SS).selector))
    else
      var esp :- StackItem(c, behind, size);
      var ss :- StackItem(c, Add32(behind, size), size);
      Ok(ReturnFrame(eip, cs, if size == 4 then Add32(esp, imm) else (esp + imm) % 0x1_0000, ss % 0x1_0000))
  }

  method ReadStackItem(c: Cpu, offset: u32, size: nat) returns (r: Outcome<u32>)
    requires (size == 2 || size == 4) && !c.Vm()
    ensures r == StackItem(c, offset, size)
  {
    hide CheckAccess, Addresses;
    var v := c.ReadSegment(SS, offset, size, false);
    if v.Fault? {
      return Fault(v.vector, v.code);
    }
    return StackItem(c, offset, size);
  }

  /** A return to the level of `cs` runs to its end; SS only matters for an outer level. */
  predicate ReturnCompletes(c: Cpu, eip: u32, cs: u16, ss: u16)
    reads c`mem, c`tables, c`segs, c`storedCpl
  {
    if Rpl(cs) > c.storedCpl then OuterCompletes(c, cs, eip, ss)
    else CsReturnVerdict(cs, eip, c.storedCpl, LookUp(c, cs)).Ok? && CanMarkAccessed(c, cs)
  }

  /** The first refusal of a return, before anything is marked. */
  function ReturnVerdict(c: Cpu, eip: u32, cs: u16, ss: u16): Outcome<()>
    reads c`mem, c`tables, c`segs, c`storedCpl
  {
    if Rpl(cs) > c.storedCpl then OuterVerdict(c, cs, eip, ss).Void()
    else CsReturnVerdict(cs, eip, c.storedCpl, LookUp(c, cs)).Void()
  }

  /** A return to an outer level that faults with CS loaded and SS not. */
  predicate ReturnTears(c: Cpu, eip: u32, cs: u16, ss: u16)
    reads c`mem, c`tables, c`segs, c`storedCpl
  {
    Rpl(cs) > c.storedCpl && OuterVerdict(c, cs, eip, ss).Ok? && StackMarkFails(c, cs, ss)
  }

  method ReadReturnOperands(c: Cpu, imm: u16, size: nat) returns (r: Outcome<ReturnFrame>)
    requires (size == 2 || size == 4) && !c.Vm()
    ensures r == ReturnOperands(c, imm, size)
  {
    hide StackItem, StackPointer;
    var sp := StackPointer(c.Seg(SS), c.regs);
    var eip := ReadStackItem(c, sp, size);
    if eip.Fault? {
      return Fault(eip.vector, eip.code);
    }
    var csItem := ReadStackItem(c, Add32(sp, size), size);
    if csItem.Fault? {
      return Fault(csItem.vector, csItem.code);
    }
    var cs := csItem.value % 0x1_0000;
    var behind := Add32(Add32(sp, 2 * size), imm);
    if Rpl(cs) <= c.storedCpl {
      return Ok(ReturnFrame(eip.value, cs, behind, c.Seg(SS).selector));
    }
    var esp := ReadStackItem(c, behind, size);
    if esp.Fault? {
      return Fault(esp.vector, esp.code);
    }
    var ss := ReadStackItem(c, Add32(behind, size), size);
    if ss.Fault? {
      return Fault(ss.vector, ss.code);
    }
    var newEsp := if size == 4 then Add32(esp.value, imm) else (esp.value + imm) % 0x1_0000;
    return Ok(ReturnFrame(eip.value, cs, newEsp, ss.value % 0x1_0000));
  }

  /**
    A far return goes to the same or an outer level, never to an inner one. It succeeds exactly when its operands
    can be read, pass the checks and can be marked; a fault changes nothing unless it tears.
   */
  method ReturnFar(c: Cpu, imm: u16, size: nat) returns (r: Outcome<Way>)
    requires (size == 2 || size == 4) && !c.Vm() && Protected(c.segs, c.storedCpl)
    modifies c`mem, c`segs, c`storedCpl, c`regs, c`eip
    ensures var f := old(ReturnOperands(c, imm, size));
            && (f.Fault? ==> r.Void() == f.Void() && Visible(c) == old(Visible(c)))
            && (f.Ok? ==>
                  var verdict := old(ReturnVerdict(c, f.value.eip, f.value.cs, f.value.ss));
                  && (r.Ok? <==> old(ReturnCompletes(c, f.value.eip, f.value.cs, f.value.ss)))
                  && (verdict.Fault? ==> r.Void() == verdict)
                  && (r.Fault? ==>
                        (Visible(c) == old(Visible(c))
                         <==> !old(ReturnTears(c, f.value.eip, f.value.cs, f.value.ss))))
                  && (r.Fault? && old(ReturnTears(c, f.value.eip, f.value.cs, f.value.ss)) ==>
                        && c.Seg(CS).selector == f.value.cs && c.storedCpl == Rpl(f.value.cs) && c.eip == f.value.eip
                        && c.Seg(SS) == old(c.Seg(SS)) && c.regs == old(c.regs)))
            && (r.Ok? ==>
                  && r.value == Returned
                  && c.eip == f.value.eip && c.Seg(CS).selector == f.value.cs
                  && c.Seg(SS).selector
                     == (if c.storedCpl > old(c.storedCpl) then f.value.ss else old(c.Seg(SS)).selector)
                  && c.regs == WithStackPointer(c.Seg(SS), old(c.regs), f.value.esp)
                  && c.storedCpl == Rpl(f.value.cs) && c.storedCpl >= old(c.storedCpl))
    ensures r.Ok? ==> Protected(c.segs, c.storedCpl)
  {
    hide ReturnOperands, Protected, WithStackPointer, AccessedMemory, Decode, OuterVerdict, CsReturnVerdict,
         StackMarkFails;
    ProtectedLevel(c.segs, c.storedCpl);
    var f := ReadReturnOperands(c, imm, size);
    if f.Fault? {
      return Fault(f.vector, f.code);
    }
    if Rpl(f.value.cs) > c.storedCpl {
      var outer := CommitReturnOuter(c, f.value.cs, f.value.eip, f.value.ss, f.value.esp);
      return if outer.Ok? then Ok(Returned) else Fault(outer.vector, outer.code);
    }
    var same := CommitReturnSame(c, f.value.cs, f.value.eip, f.value.esp);
    return if same.Ok? then Ok(Returned) else Fault(same.vector, same.code);
  }

  // ----- Returns from interrupts -----

  /** Where an IRET without NT goes. */
  datatype Level =
    | SameLevel(sp: u32)
    | OuterLevel(esp: u32, ss: u16)
    | Virtual(esp: u32, selectors: seq<u16>)

  datatype InterruptFrame = InterruptFrame(eip: u32, cs: u16, eflags: u32, to: Level)

  /** EFLAGS.VM of an image. */
  predicate VmOf(eflags: u32) {
    eflags / 0x2_0000 % 2 == 1
  }

  /** IRET's operands: EIP, CS and EFLAGS, then ESP and SS of an outer level or all that a virtual-8086 task needs. */
  function InterruptOperands(c: Cpu, size: nat): (r: Outcome<InterruptFrame>)
    requires (size == 2 || size == 4) && !c.Vm()
    reads c`mem, c`segs, c`regs, c`eflagsHigh, c`storedCpl, c`supervisorOverride
    ensures r.Ok? && r.value.to.Virtual? ==> |r.value.to.selectors| == 6
  {
    var sp := StackPointer(c.Seg(SS), c.regs);
    var eip :- StackItem(c, sp, size);
    var csItem :- StackItem(c, Add32(sp, size), size);
    var eflags :- StackItem(c, Add32(sp, 2 * size), size);
    var cs := csItem % 0x1_0000;
    var behind := Add32(sp, 3 * size);
    if size == 4 && c.storedCpl == 0 && VmOf(eflags) then
      var to :- VirtualOperands(c, cs, behind);
      Ok(InterruptFrame(eip, cs, eflags, to))
    else if Rpl(cs) > c.storedCpl then
      var esp :- StackItem(c, behind, size);
      var ss :- StackItem(c, Add32(behind, size), size);
      Ok(InterruptFrame(eip, cs, eflags, OuterLevel(esp, ss % 0x1_0000)))
    else Ok(InterruptFrame(eip, cs, eflags, SameLevel(behind)))
  }

  /** ES, DS, FS and GS at the top of a virtual-8086 frame. */
  function DataSelectors(c: Cpu, behind: u32): (r: Outcome<seq<u16>>)
    requires !c.Vm()
    reads c`mem, c`segs, c`eflagsHigh, c`storedCpl, c`supervisorOverride
    ensures r.Ok? ==> |r.value| == 4
  {
    var es :- StackItem(c, behind, 4);
    var ds :- StackItem(c, Add32(behind, 4), 4);
    var fs :- StackItem(c, Add32(behind, 8), 4);
    var gs :- StackItem(c, Add32(behind, 12), 4);
    Ok([es % 0x1_0000, ds % 0x1_0000, fs % 0x1_0000, gs % 0x1_0000])
  }

  /** ESP, SS, ES, DS, FS and GS above the flags. */
  function VirtualOperands(c: Cpu, cs: u16, behind: u32): (r: Outcome<Level>)
    requires !c.Vm()
    reads c`mem, c`segs, c`eflagsHigh, c`storedCpl, c`supervisorOverride
    ensures r.Ok? ==> r.value.Virtual? && |r.value.selectors| == 6
  {
    var esp :- StackItem(c, behind, 4);
    var ss :- StackItem(c, Add32(behind, 4), 4);
    var data :- DataSelectors(c, Add32(behind, 8));
    Ok(Virtual(esp, [data[0], cs, ss % 0x1_0000, data[1], data[2], data[3]]))
  }

  method ReadDataSelectors(c: Cpu, behind: u32) returns (r: Outcome<seq<u16>>)
    requires !c.Vm()
    ensures r == DataSelectors(c, behind)
  {
    hide StackItem;
    var es := ReadStackItem(c, behind, 4);
    if es.Fault? {
      return Fault(es.vector, es.code);
    }
    var ds := ReadStackItem(c, Add32(behind, 4), 4);
    if ds.Fault? {
      return Fault(ds.vector, ds.code);
    }
    var fs := ReadStackItem(c, Add32(behind, 8), 4);
    if fs.Fault? {
      return Fault(fs.vector, fs.code);
    }
    var gs := ReadStackItem(c, Add32(behind, 12), 4);
    if gs.Fault? {
      return Fault(gs.vector, gs.code);
    }
    return Ok([es.value % 0x1_0000, ds.value % 0x1_0000, fs.value % 0x1_0000, gs.value % 0x1_0000]);
  }

  method ReadVirtualOperands(c: Cpu, cs: u16, behind: u32) returns (r: Outcome<Level>)
    requires !c.Vm()
    ensures r == VirtualOperands(c, cs, behind)
  {
    hide StackItem, DataSelectors;
    var esp := ReadStackItem(c, behind, 4);
    if esp.Fault? {
      return Fault(esp.vector, esp.code);
    }
    var ss := ReadStackItem(c, Add32(behind, 4), 4);
    if ss.Fault? {
      return Fault(ss.vector, ss.code);
    }
    var data := ReadDataSelectors(c, Add32(behind, 8));
    if data.Fault? {
      return Fault(data.vector, data.code);
    }
    var d := data.value;
    return Ok(Virtual(esp.value, [d[0], cs, ss.value % 0x1_0000, d[1], d[2], d[3]]));
  }

  method ReadInterruptOperands(c: Cpu, size: nat) returns (r: Outcome<InterruptFrame>)
    requires (size == 2 || size == 4) && !c.Vm()
    ensures r == InterruptOperands(c, size)
  {
    hide StackItem, StackPointer, VirtualOperands, VmOf;
    var sp := StackPointer(c.Seg(SS), c.regs);
    var eip := ReadStackItem(c, sp, size);
    if eip.Fault? {
      return Fault(eip.vector, eip.code);
    }
    var csItem := ReadStackItem(c, Add32(sp, size), size);
    if csItem.Fault? {
      return Fault(csItem.vector, csItem.code);
    }
    var eflags := ReadStackItem(c, Add32(sp, 2 * size), size);
    if eflags.Fault? {
      return Fault(eflags.vector, eflags.code);
    }
    var cs := csItem.value % 0x1_0000;
    var behind := Add32(sp, 3 * size);
    if size == 4 && c.storedCpl == 0 && VmOf(eflags.value) {
      var to := ReadVirtualOperands(c, cs, behind);
      if to.Fault? {
        return Fault(to.vector, to.code);
      }
      return Ok(InterruptFrame(eip.value, cs, eflags.value, to.value));
    }
    if Rpl(cs) > c.storedCpl {
      var esp := ReadStackItem(c, behind, size);
      if esp.Fault? {
        return Fault(esp.vector, esp.code);
      }
      var ss := ReadStackItem(c, Add32(behind, size), size);
      if ss.Fault? {
        return Fault(ss.vector, ss.code);
      }
      return Ok(InterruptFrame(eip.value, cs, eflags.value, OuterLevel(esp.value, ss.value % 0x1_0000)));
    }
    return Ok(InterruptFrame(eip.value, cs, eflags.value, SameLevel(behind)));
  }

  // ----- Flags at a privilege level -----

  function Iopl(flags: u16): (p: nat)
    ensures p <= 3
  {
    flags / 0x1000 % 4
  }

  function IfBit(flags: u16): (b: nat)
    ensures b <= 1
  {
    flags / 0x200 % 2
  }

  function WithIopl(flags: u16, p: nat): (r: u16)
    requires p <= 3
    ensures Iopl(r) == p
  {
    var hi, lo := flags / 0x4000, flags % 0x1000;
    var upper := 4 * hi + p;
    assert (0x1000 * upper + lo) / 0x1000 == upper;
    0x1000 * upper + lo
  }

  function WithIf(flags: u16, b: nat): (r: u16)
    requires b <= 1
    ensures IfBit(r) == b
  {
    var hi, lo := flags / 0x400, flags % 0x200;
    var upper := 2 * hi + b;
    assert (0x200 * upper + lo) / 0x200 == upper;
    0x200 * upper + lo
  }

  /** The flags that a level may load: IOPL only at level 0, IF only at levels up to IOPL. */
  function LoadFlags(flags: u16, value: u16, cpl: nat): u16 {
    if cpl == 0 then value
    else
      var masked := WithIopl(value, Iopl(flags));
      if cpl > Iopl(flags) then WithIf(masked, IfBit(flags)) else masked
  }

  /** A program cannot raise its own I/O privilege, nor switch interrupts without it. */
  lemma FlagsGuarded(flags: u16, value: u16, cpl: nat)
    ensures cpl > 0 ==> Iopl(LoadFlags(flags, value, cpl)) == Iopl(flags)
    ensures cpl > Iopl(flags) ==> cpl == 0 || IfBit(LoadFlags(flags, value, cpl)) == IfBit(flags)
  {
    hide WithIopl, WithIf, Iopl, IfBit;
    if cpl > Iopl(flags) {
      IfKeepsIopl(WithIopl(value, Iopl(flags)), IfBit(flags));
    }
  }

  lemma IfKeepsIopl(flags: u16, b: nat)
    requires b <= 1
    ensures Iopl(WithIf(flags, b)) == Iopl(flags)
  {
    var hi, lo := flags / 0x1000, flags % 0x1000;
    var middle := flags / 0x400;
    assert flags == 0x1000 * hi + lo && lo == 0x400 * (lo / 0x400) + lo % 0x400;
    assert middle == 4 * hi + lo / 0x400;
    assert WithIf(flags, b) == 0x1000 * hi + (0x400 * (lo / 0x400) + 0x200 * b + flags % 0x200);
  }

  /** EFLAGS bits 16 to 31 after an IRET outside virtual-8086 mode: a word-sized one keeps them, and VM is out. */
  function HighAfter(high: u16, eflags: u32, size: nat, cpl: nat, model486: bool): u16 {
    if size == 2 then high
    else if cpl == 0 then WritableHigh(eflags, model486)
    else WithoutVm(WritableHigh(eflags, model486))
  }

  function WithoutVm(high: u16): u16 {
    if high / 2 % 2 == 1 then high - 2 else high
  }

  lemma HighKeepsOutVm(high: u16, eflags: u32, size: nat, cpl: nat, model486: bool)
    requires high / 2 % 2 == 0 && !(size == 4 && cpl == 0 && VmOf(eflags)) && (size == 2 || size == 4)
    ensures HighAfter(high, eflags, size, cpl, model486) / 2 % 2 == 0
  {
    var upper := eflags / 0x1_0000;
    KeepsVm(upper);
    assert upper / 2 == eflags / 0x2_0000;
  }

  /** Loads the popped flags as the level may. */
  method LoadInterruptFlags(c: Cpu, eflags: u32, size: nat, cpl: nat)
    requires !c.Vm() && (size == 2 || size == 4) && !(size == 4 && cpl == 0 && VmOf(eflags))
    modifies c`flags, c`eflagsHigh
    ensures c.flags == LoadFlags(old(c.flags), Low16(eflags), cpl)
    ensures c.eflagsHigh == HighAfter(old(c.eflagsHigh), eflags, size, cpl, c.model486) && !c.Vm()
  {
    hide LoadFlags, WritableHigh, WithoutVm;
    HighKeepsOutVm(c.eflagsHigh, eflags, size, cpl, c.model486);
    c.flags := LoadFlags(c.flags, Low16(eflags), cpl);
    if size == 4 {
      c.eflagsHigh :=
        if cpl == 0 then WritableHigh(eflags, c.model486) else WithoutVm(WritableHigh(eflags, c.model486));
    }
  }

  /** Enters virtual-8086 mode: real segments, a 16-bit EIP, and the level that they imply. */
  method EnterVirtual(c: Cpu, f: InterruptFrame)
    requires f.to.Virtual? && |f.to.selectors| == 6 && VmOf(f.eflags)
    modifies c`flags, c`eflagsHigh, c`segs, c`storedCpl, c`eip, c`regs
    ensures c.Vm() && c.flags == Low16(f.eflags) && c.eflagsHigh == WritableHigh(f.eflags, c.model486)
    ensures c.segs == RealSegments(f.to.selectors) && c.storedCpl == 0 && c.eip == Low16(f.eip)
    ensures c.regs == old(c.regs)[ESP := f.to.esp]
  {
    var upper := f.eflags / 0x1_0000;
    KeepsVm(upper);
    assert upper / 2 == f.eflags / 0x2_0000;
    c.flags := Low16(f.eflags);
    c.eflagsHigh := WritableHigh(f.eflags, c.model486);
    c.segs := RealSegments(f.to.selectors);
    c.storedCpl := 0;
    c.eip := Low16(f.eip);
    c.regs := c.regs[ESP := f.to.esp];
  }

  /** Whether an IRET with readable operands runs to its end. */
  predicate InterruptCompletes(c: Cpu, f: InterruptFrame)
    reads c`mem, c`tables, c`segs, c`storedCpl
  {
    match f.to
    case Virtual(_, _) => true
    case OuterLevel(_, ss) => OuterCompletes(c, f.cs, f.eip, ss)
    case SameLevel(_) => CsReturnVerdict(f.cs, f.eip, c.storedCpl, LookUp(c, f.cs)).Ok? && CanMarkAccessed(c, f.cs)
  }

  /** An IRET that faults with its flags loaded already: the return is valid, but a descriptor cannot be marked. */
  predicate FlagsTear(c: Cpu, f: InterruptFrame)
    reads c`mem, c`tables, c`segs, c`storedCpl
  {
    f.to.OuterLevel? && OuterVerdict(c, f.cs, f.eip, f.to.ss).Ok? && !OuterCompletes(c, f.cs, f.eip, f.to.ss)
  }

  /** The outer-level half of an IRET: flags are loaded between the checks and the loads. */
  method InterruptReturnOuter(c: Cpu, f: InterruptFrame, size: nat) returns (r: Outcome<()>)
    requires !c.Vm() && (size == 2 || size == 4) && f.to.OuterLevel? && c.storedCpl < Rpl(f.cs)
    requires !(size == 4 && c.storedCpl == 0 && VmOf(f.eflags))
    modifies c`mem, c`segs, c`storedCpl, c`regs, c`eip, c`flags, c`eflagsHigh
    ensures !c.Vm() && (r.Ok? <==> old(InterruptCompletes(c, f)))
    ensures var verdict := old(OuterVerdict(c, f.cs, f.eip, f.to.ss));
            && (verdict.Fault? ==> r == verdict.Void() && Visible(c) == old(Visible(c)))
            && (verdict.Ok? ==>
                  && c.flags == LoadFlags(old(c.flags), Low16(f.eflags), old(c.storedCpl))
                  && c.eflagsHigh == HighAfter(old(c.eflagsHigh), f.eflags, size, old(c.storedCpl), c.model486))
            && (r.Fault? && !old(StackMarkFails(c, f.cs, f.to.ss)) ==>
                  && c.mem == old(c.mem) && c.segs == old(c.segs) && c.regs == old(c.regs) && c.eip == old(c.eip)
                  && c.storedCpl == old(c.storedCpl))
            && (verdict.Ok? && old(StackMarkFails(c, f.cs, f.to.ss)) ==>
                  && c.segs == old(c.segs)[CS.Index() := Segment(f.cs, verdict.value.cs, true)]
                  && c.storedCpl == Rpl(f.cs) && c.eip == f.eip && c.regs == old(c.regs))
            && (r.Ok? ==>
                  && c.segs == SegmentsAfterReturn(verdict.value, f.cs, f.to.ss)
                  && c.storedCpl == Rpl(f.cs) && c.eip == f.eip
                  && c.regs == WithStackPointer(c.Seg(SS), old(c.regs), f.to.esp))
    ensures r.Ok? ==> Protected(c.segs, c.storedCpl)
  {
    hide Protected, WithStackPointer, AccessedMemory, Decode, OuterVerdict, StackMarkFails, LoadFlags, HighAfter,
         Decision.Apply, VmOf, Low16;
    var plan := ValidateOuter(c, f.cs, f.eip, f.to.ss);
    if plan.Fault? {
      return Fault(plan.vector, plan.code);
    }
    OuterReturnProtects(c, f.cs, f.eip, f.to.ss);
    LoadInterruptFlags(c, f.eflags, size, c.storedCpl);
    r := CommitOuter(c, f.cs, f.eip, f.to.ss, f.to.esp, plan.value);
  }

  /**
    An IRET without NT in protected mode: back to the same or an outer level, or from level 0 into virtual-8086
    mode. It succeeds exactly when its operands can be read, pass the checks and can be marked. A fault
    changes nothing, except that a valid return to an outer level whose descriptors cannot be marked has
    loaded its flags.
   */
  method InterruptReturn(c: Cpu, size: nat) returns (r: Outcome<Way>)
    requires (size == 2 || size == 4) && !c.Vm() && Protected(c.segs, c.storedCpl)
    modifies c`mem, c`segs, c`storedCpl, c`regs, c`eip, c`flags, c`eflagsHigh
    ensures var read := old(InterruptOperands(c, size));
            && (read.Fault? ==> r.Void() == read.Void() && Visible(c) == old(Visible(c)))
            && (read.Ok? ==>
                  var f := read.value;
                  && (r.Ok? <==> old(InterruptCompletes(c, f)))
                  && (r.Fault? && !old(FlagsTear(c, f)) ==> Visible(c) == old(Visible(c)))
                  && (r.Fault? && old(FlagsTear(c, f)) ==>
                        && c.flags == LoadFlags(old(c.flags), Low16(f.eflags), old(c.storedCpl))
                        && c.eflagsHigh == HighAfter(old(c.eflagsHigh), f.eflags, size, old(c.storedCpl), c.model486)
                        && if old(StackMarkFails(c, f.cs, f.to.ss)) then
                             && c.Seg(CS).selector == f.cs && c.storedCpl == Rpl(f.cs) && c.eip == f.eip
                             && c.Seg(SS) == old(c.Seg(SS)) && c.regs == old(c.regs)
                           else Position(c) == old(Position(c)))
                  && (r.Ok? && f.to.Virtual? ==>
                        && c.Vm() && c.segs == RealSegments(f.to.selectors) && c.eip == Low16(f.eip)
                        && c.regs == old(c.regs)[ESP := f.to.esp] && c.flags == Low16(f.eflags))
                  && (r.Ok? && !f.to.Virtual? ==>
                        && !c.Vm() && c.eip == f.eip && c.Seg(CS).selector == f.cs && c.storedCpl == Rpl(f.cs)
                        && c.storedCpl >= old(c.storedCpl)
                        && c.regs == WithStackPointer(
                             c.Seg(SS), old(c.regs), if f.to.SameLevel? then f.to.sp else f.to.esp)
                        && c.flags == LoadFlags(old(c.flags), Low16(f.eflags), old(c.storedCpl))
                        && c.eflagsHigh == HighAfter(old(c.eflagsHigh), f.eflags, size, old(c.storedCpl), c.model486)))
    ensures r.Ok? ==> r.value == Returned && (c.Vm() || Protected(c.segs, c.storedCpl))
    ensures c.Vm() ==> old(c.storedCpl) == 0
  {
    hide StackItem, Protected, StackPointer, WithStackPointer, AccessedMemory, Decode, OuterVerdict, CsReturnVerdict,
         StackMarkFails, LoadFlags, HighAfter, VmOf, Low16, RealSegments, InterruptOperands, WritableHigh;
    ProtectedLevel(c.segs, c.storedCpl);
    if InterruptOperands(c, size).Ok? {
      InterruptLevels(c, size);
    }
    var read := ReadInterruptOperands(c, size);
    if read.Fault? {
      return Fault(read.vector, read.code);
    }
    var f := read.value;
    match f.to {
      case Virtual(_, _) =>
        EnterVirtual(c, f);
        r := Ok(Returned);
      case OuterLevel(_, _) =>
        var outer := InterruptReturnOuter(c, f, size);
        r := if outer.Ok? then Ok(Returned) else Fault(outer.vector, outer.code);
      case SameLevel(sp) =>
        ghost var cpl := c.storedCpl;
        var same := CommitReturnSame(c, f.cs, f.eip, sp);
        if same.Ok? {
          LoadInterruptFlags(c, f.eflags, size, c.storedCpl);
        }
        r := if same.Ok? then Ok(Returned) else Fault(same.vector, same.code);
    }
  }

  lemma InterruptLevels(c: Cpu, size: nat)
    requires (size == 2 || size == 4) && !c.Vm() && InterruptOperands(c, size).Ok?
    ensures var f := InterruptOperands(c, size).value;
            && (f.to.OuterLevel? ==> Rpl(f.cs) > c.storedCpl) && (f.to.SameLevel? ==> Rpl(f.cs) <= c.storedCpl)
            && (f.to.Virtual? <==> size == 4 && c.storedCpl == 0 && VmOf(f.eflags))
  {
    hide StackItem, VmOf;
  }

  // ----- The IRET instruction -----

  /** IRET in protected mode: NT decides between the task return and the stack. */
  method InterruptOrTaskReturn(c: Cpu, size: nat) returns (r: Outcome<Way>)
    requires (size == 2 || size == 4) && !c.Vm() && Protected(c.segs, c.storedCpl)
    modifies c
    ensures old(Nt(c.flags)) ==>
      var link := ReadWord(c.paging, old(c.mem), old(c.task).base, false);
      var v := IretVerdict(c.paging, c.model486, old(StateOf(c)));
      && r.Void() == v.Void()
      && (r.Ok? ==> r.value == TaskSwitched && link.Ok? && StateOf(c) == After(v.value, link.value, Iret, c.model486))
    ensures !old(Nt(c.flags)) ==>
      var read := old(InterruptOperands(c, size));
      && (r.Ok? <==> read.Ok? && old(InterruptCompletes(c, read.value)))
      && (r.Ok? ==> r.value == Returned)
      && (read.Fault? ==> r.Void() == read.Void())
      && (r.Fault? && !(read.Ok? && old(FlagsTear(c, read.value))) ==> Visible(c) == old(Visible(c)))
      && (r.Fault? && read.Ok? && old(FlagsTear(c, read.value)) ==>
            && c.flags == LoadFlags(old(c.flags), Low16(read.value.eflags), old(c.storedCpl))
            && (old(StackMarkFails(c, read.value.cs, read.value.to.ss)) ==>
                  && c.Seg(CS).selector == read.value.cs && c.storedCpl == Rpl(read.value.cs)
                  && c.Seg(SS) == old(c.Seg(SS))))
      && (r.Ok? && !c.Vm() ==> c.storedCpl >= old(c.storedCpl))
      && (r.Ok? && old(c.storedCpl) > 0 ==> Iopl(c.flags) == Iopl(old(c.flags)) && !c.Vm())
    ensures r.Ok? && !c.Vm() ==> Protected(c.segs, c.storedCpl)
  {
    hide Protected, SwitchVerdict, ReadWord, After, EnteredCpl, Accepted, InterruptOperands, InterruptCompletes,
         FlagsTear, StackMarkFails, WithStackPointer, HighAfter, Low16, LoadFlags, Iopl, RealSegments;
    if Nt(c.flags) {
      ghost var s := StateOf(c);
      ghost var link := ReadWord(c.paging, c.mem, c.task.base, false);
      if link.Ok? && SwitchVerdict(c.paging, c.model486, s, link.value, Iret, 0, false).Ok? {
        SwitchProtects(c.paging, c.model486, s, link.value, Iret, 0, false);
      }
      var switched := IretTask(c);
      return if switched.Ok? then Ok(TaskSwitched) else Fault(switched.vector, switched.code);
    }
    ghost var read := InterruptOperands(c, size);
    if read.Ok? {
      FlagsGuarded(c.flags, Low16(read.value.eflags), c.storedCpl);
      VirtualAtLevelZero(c, size);
    }
    r := InterruptReturn(c, size);
  }

  lemma VirtualAtLevelZero(c: Cpu, size: nat)
    requires (size == 2 || size == 4) && !c.Vm() && InterruptOperands(c, size).Ok?
    ensures InterruptOperands(c, size).value.to.Virtual? ==> c.storedCpl == 0
  {
    InterruptLevels(c, size);
  }

  // ----- Runs -----

  /** What any other instruction may do: all but load a segment register, change level or enter virtual-8086 mode. */
  datatype Effect = Effect(
    mem: Memory, regs: Registers, eip: u32, tables: Tables, task: Task, flags: u16, eflagsHigh: u16)

  /** One operation of a run. */
  datatype Op =
    | SegmentLoad(seg: SegReg, selector: u16)
    | FarJump(jump: Jump)
    | FarReturn(imm: u16, size: nat)
    | InterruptReturned(size: nat)
    | Other(effect: Effect)
  {
    predicate Sized() {
      && (FarJump? ==> jump.Sized())
      && (FarReturn? || InterruptReturned? ==> size == 2 || size == 4)
      && (Other? ==> effect.eflagsHigh / 2 % 2 == 0)
    }
  }

  /** One operation: success outside virtual-8086 mode leaves the state protected. */
  method Step(c: Cpu, op: Op) returns (r: Outcome<Way>)
    requires op.Sized() && !c.Vm() && Protected(c.segs, c.storedCpl)
    modifies c
    ensures r.Ok? && !c.Vm() ==> Protected(c.segs, c.storedCpl)
    ensures r.Ok? && !c.Vm() && r.value != TaskSwitched && r.value != InnerGate ==> c.storedCpl >= old(c.storedCpl)
    ensures r == Ok(InnerGate) ==> op.FarJump? && op.jump.isCall
    ensures r == Ok(Elsewhere) ==> op.Other? && Iopl(c.flags) == Iopl(op.effect.flags) && !c.Vm()
    ensures r.Ok? && r.value != Elsewhere && r.value != TaskSwitched && old(c.storedCpl) > 0 ==>
      Iopl(c.flags) == Iopl(old(c.flags)) && !c.Vm()
  {
    hide Protected, Iopl, DestinationOf, FarCompletes, ReturnOperands, ReturnCompletes, ReturnVerdict, ReturnTears,
         InterruptOperands, InterruptCompletes, FlagsTear, WithStackPointer, LoadFlags, HighAfter, Low16;
    ProtectedLevel(c.segs, c.storedCpl);
    match op {
      case SegmentLoad(seg, selector) =>
        r := StepLoad(c, seg, selector);
      case FarJump(jump) =>
        r := FarTransfer(c, jump);
      case FarReturn(imm, size) =>
        r := ReturnFar(c, imm, size);
      case InterruptReturned(size) =>
        r := InterruptOrTaskReturn(c, size);
      case Other(effect) =>
        StepOther(c, effect);
        r := Ok(Elsewhere);
    }
  }

  method StepLoad(c: Cpu, seg: SegReg, selector: u16) returns (r: Outcome<Way>)
    requires !c.Vm() && Protected(c.segs, c.storedCpl)
    modifies c`mem, c`segs, c`storedCpl
    ensures r.Ok? ==> r.value == SegmentLoaded && Protected(c.segs, c.storedCpl) && c.storedCpl == old(c.storedCpl)
  {
    hide Protected, LoadVerdict, LookUp, AccessedMemory;
    ProtectedLevel(c.segs, c.storedCpl);
    var loaded := LoadProtectedSegment(c, seg, selector);
    return if loaded.Ok? then Ok(SegmentLoaded) else Fault(loaded.vector, loaded.code);
  }

  method StepOther(c: Cpu, e: Effect)
    modifies c`mem, c`regs, c`eip, c`tables, c`task, c`flags, c`eflagsHigh
    ensures c.mem == e.mem && c.regs == e.regs && c.eip == e.eip && c.tables == e.tables && c.task == e.task
    ensures c.flags == e.flags && c.eflagsHigh == e.eflagsHigh
  {
    c.mem, c.regs, c.eip, c.tables, c.task := e.mem, e.regs, e.eip, e.tables, e.task;
    c.flags, c.eflagsHigh := e.flags, e.eflagsHigh;
  }

  /** The steps outside this model leave the I/O privilege at `p`, as they must above level 0. */
  predicate IoplKept(ops: seq<Op>, p: nat) {
    forall i :: 0 <= i < |ops| && ops[i].Other? ==> Iopl(ops[i].effect.flags) == p
  }

  /**
    Any run of successful operations, with anything that other instructions do in between, up to the first fault
    or the entry of virtual-8086 mode. The state stays protected. Without a gate call to an inner level and
    without a task switch it never ends at a more privileged level than it began, and a run that begins
    above level 0 neither changes its I/O privilege nor enters virtual-8086 mode.
   */
  method Run(c: Cpu, ops: seq<Op>) returns (ways: seq<Way>, fault: bool)
    requires !c.Vm() && Protected(c.segs, c.storedCpl)
    requires forall op :: op in ops ==> op.Sized()
    modifies c
    ensures |ways| <= |ops|
    ensures !fault && !c.Vm() ==> |ways| == |ops| && Protected(c.segs, c.storedCpl)
    ensures !fault && !c.Vm() && InnerGate !in ways && TaskSwitched !in ways ==> c.storedCpl >= old(c.storedCpl)
    ensures !fault && old(c.storedCpl) > 0 && InnerGate !in ways && TaskSwitched !in ways
            && IoplKept(ops, Iopl(old(c.flags))) ==>
              Iopl(c.flags) == Iopl(old(c.flags)) && !c.Vm()
    ensures forall i :: 0 <= i < |ways| && ways[i] == InnerGate ==> ops[i].FarJump? && ops[i].jump.isCall
  {
    hide Protected, Iopl;
    ways, fault := [], false;
    while |ways| < |ops| && !c.Vm()
      invariant |ways| <= |ops|
      invariant !c.Vm() ==> Protected(c.segs, c.storedCpl)
      invariant !c.Vm() && InnerGate !in ways && TaskSwitched !in ways ==> c.storedCpl >= old(c.storedCpl)
      invariant old(c.storedCpl) > 0 && InnerGate !in ways && TaskSwitched !in ways
                && IoplKept(ops, Iopl(old(c.flags))) ==>
                  Iopl(c.flags) == Iopl(old(c.flags)) && !c.Vm()
      invariant forall i :: 0 <= i < |ways| && ways[i] == InnerGate ==> ops[i].FarJump? && ops[i].jump.isCall
      decreases |ops| - |ways|
    {
      assert ops[|ways|] in ops;
      var r := Step(c, ops[|ways|]);
      if r.Fault? {
        fault := true;
        return;
      }
      ways := ways + [r.value];
    }
  }
}
