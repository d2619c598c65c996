/**
  Concrete machines on which an instruction of crates/cpu/src/i386.rs or
  crates/cpu/src/i386/execute.rs faults after it has begun to change the state: three far
  CALLs through a gate, a far return and an IRET.
 */
module I386GateExamples {
  import opened I386Memory
  import opened I386Cpu
  import opened I386Identity
  import opened I386Protection
  import opened I386Stack
  import opened I386Gates
  import opened I386Tasks
  import opened I386Far
  import opened Wrappers

  // ----- A program at level 3 and two gates -----

  /**
    The GDT: code (8) and stack (0x10) of level 0, a 386 call gate (0x18) to segment 8, the TSS (0x20), code (0x28)
    and stack (0x30) of level 3, and a 386 call gate (0x38) to offset 100h of segment 0x28. The TSS names segment
    0x10 and the ESP at hand for level 0.
   */
  function GateByte(espHigh: u8, limitHigh: u8, a: nat): u8 {
    if a == 0x1008 || a == 0x1009 || a == 0x1010 || a == 0x1011 then 0xFF
    else if a == 0x1028 || a == 0x1029 || a == 0x1030 || a == 0x1031 then 0xFF
    else if a == 0x100D then 0x9B
    else if a == 0x1015 then 0x93
    else if a == 0x1016 then limitHigh
    else if a == 0x101A then 8
    else if a == 0x101D || a == 0x103D then 0xEC
    else if a == 0x1020 then 0x67
    else if a == 0x1023 then 0x20
    else if a == 0x1025 then 0x8B
    else if a == 0x102D then 0xFB
    else if a == 0x1035 then 0xF3
    else if a == 0x1036 then 1
    else if a == 0x1039 then 1
    else if a == 0x103A then 0x28
    else if a == 0x2004 then 2
    else if a == 0x2005 then espHigh
    else if a == 0x2008 then 0x10
    else 0
  }

  function GateMemory(espHigh: u8, limitHigh: u8): Memory {
    map a: nat | 0x1000 <= a < 0x2010 :: GateByte(espHigh, limitHigh, a)
  }

  lemma GateBytes(espHigh: u8, limitHigh: u8)
    ensures forall a ::
      0x1000 <= a < 0x2010 ==> Peek(GateMemory(espHigh, limitHigh), a) == GateByte(espHigh, limitHigh, a)
  {
  }

  const USER_CODE: Descriptor := Descriptor(0, 0xFFFF, 0xFB, 0)
  const USER_STACK: Descriptor := Descriptor(0, 0x1_FFFF, 0xF3, 1)
  const KERNEL_CODE: Descriptor := Descriptor(0, 0xFFFF, 0x9B, 0)

  const USER_SEGMENTS: Segments :=
    [NullSegment(0), Segment(0x2B, USER_CODE, true), Segment(0x33, USER_STACK, true), NullSegment(0), NullSegment(0),
     NullSegment(0)]

  /** ESP is 2. */
  const USER_REGISTERS: Registers := [0, 0, 0, 0, 2, 0, 0, 0]

  const GATE_TABLES: Tables := Tables(0x1000, 0x3F, 0, 0, 0)
  const GATE_TASK: Task := Task(0x20, 0x2000, 0x67, 0x8B)

  /** A program at level 3, before it calls. */
  predicate AtGate(c: Cpu, espHigh: u8, limitHigh: u8)
    reads c
  {
    && c.mem == GateMemory(espHigh, limitHigh) && c.tables == GATE_TABLES && c.task == GATE_TASK
    && c.segs == USER_SEGMENTS && c.regs == USER_REGISTERS && c.eip == 0 && c.storedCpl == 3 && !c.supervisorOverride
    && !c.Vm()
  }

  /** A machine about to call through a gate. */
  method MachineAtGate(pg: Paging, espHigh: u8, limitHigh: u8, alignmentCheck: bool) returns (c: Cpu)
    ensures fresh(c) && c.paging == pg && AtGate(c, espHigh, limitHigh)
    ensures c.AlignmentActive() == alignmentCheck
  {
    hide GateMemory;
    c := new Cpu(
      pg, alignmentCheck, alignmentCheck, GateMemory(espHigh, limitHigh), USER_SEGMENTS, GATE_TABLES, GATE_TASK);
    c.regs, c.eip, c.storedCpl, c.eflagsHigh := USER_REGISTERS, 0, 3, if alignmentCheck then 4 else 0;
  }

  lemma ProgramIsProtected(c: Cpu, espHigh: u8, limitHigh: u8)
    requires AtGate(c, espHigh, limitHigh)
    ensures Protected(c.segs, c.storedCpl)
  {
    hide GateMemory;
  }

  /** Far CALLs of the gate to level 0 and of the gate within level 3. */
  const CALL_INNER: Jump := Jump(0x1B, 0, true, 4, 0x2B, 0)
  const CALL_SAME: Jump := Jump(0x3B, 0, true, 4, 0x2B, 0)

  const TO_LEVEL_0: Transfer := Transfer(KERNEL_CODE, 0, 8, 0, 4, 0, 0x2B, 0)
  const TO_LEVEL_3: Transfer := Transfer(USER_CODE, 3, 0x28, 0x100, 4, 0, 0x2B, 0)

  /** The tables and the TSS lie where linear addresses are physical. */
  ghost predicate TablesMapped(c: Cpu) {
    IdentityFrom(c.paging, 0x1000, 0x1010)
  }

  lemma InnerRoute(c: Cpu, espHigh: u8, limitHigh: u8)
    requires AtGate(c, espHigh, limitHigh) && TablesMapped(c)
    ensures DestinationOf(c, CALL_INNER.selector) == Ok(ToGate(0x1018, true))
    ensures GateRoute(c, CALL_INNER, 0x1018, true) == Ok(TO_LEVEL_0)
  {
    hide Translate, Peek, DecodeAt, ReadLinear, SystemByte;
    GateBytes(espHigh, limitHigh);
    hide GateMemory;
    GateDescriptor(c, 0x1018, 8, 0xEC);
    WordAt(c.paging, c.mem, 0x101A);
    WordAt(c.paging, c.mem, 0x1018);
    WordAt(c.paging, c.mem, 0x101E);
    ByteAt(c.paging, c.mem, 0x101C);
    DescriptorAt(c.paging, c.mem, 0x1008);
    assert DescriptorSlot(c.tables, 0x1B) == Slot(0x1018) && DescriptorSlot(c.tables, 8) == Slot(0x1008);
    GateRights();
    hide IsSegment, IsCode, IsConforming, IsPresent, Dpl, IsCallGate;
  }

  lemma SameRoute(c: Cpu, espHigh: u8, limitHigh: u8)
    requires AtGate(c, espHigh, limitHigh) && TablesMapped(c)
    ensures DestinationOf(c, CALL_SAME.selector) == Ok(ToGate(0x1038, true))
    ensures GateRoute(c, CALL_SAME, 0x1038, true) == Ok(TO_LEVEL_3)
  {
    hide Translate, Peek, DecodeAt, ReadLinear, SystemByte;
    GateBytes(espHigh, limitHigh);
    hide GateMemory;
    GateDescriptor(c, 0x1038, 0x28, 0xEC);
    WordAt(c.paging, c.mem, 0x103A);
    WordAt(c.paging, c.mem, 0x1038);
    WordAt(c.paging, c.mem, 0x103E);
    ByteAt(c.paging, c.mem, 0x103C);
    DescriptorAt(c.paging, c.mem, 0x1028);
    assert DescriptorSlot(c.tables, 0x3B) == Slot(0x1038) && DescriptorSlot(c.tables, 0x28) == Slot(0x1028);
    GateRights();
    hide IsSegment, IsCode, IsConforming, IsPresent, Dpl, IsCallGate;
  }

  lemma GateRights()
    ensures !IsSegment(0xEC) && Dpl(0xEC) == 3 && IsPresent(0xEC) && IsCallGate(0xEC)
    ensures IsSegment(0x9B) && IsCode(0x9B) && !IsConforming(0x9B) && Dpl(0x9B) == 0 && IsPresent(0x9B)
    ensures IsSegment(0xFB) && IsCode(0xFB) && !IsConforming(0xFB) && Dpl(0xFB) == 3 && IsPresent(0xFB)
  {
  }

  /** A gate's eight bytes decode, whatever base and limit they spell. */
  lemma GateDescriptor(c: Cpu, addr: u32, selector: u8, rights: u8)
    requires 0x1000 <= addr <= 0x1038 && TablesMapped(c) && Peek(c.mem, addr + 5) == rights
    ensures DecodeAt(c.paging, c.mem, addr).Ok? && DecodeAt(c.paging, c.mem, addr).value.rights == rights
  {
    hide Translate, Peek, SystemByte;
    ByteAt(c.paging, c.mem, addr);
    ByteAt(c.paging, c.mem, addr + 1);
    ByteAt(c.paging, c.mem, addr + 2);
    ByteAt(c.paging, c.mem, addr + 3);
    ByteAt(c.paging, c.mem, addr + 4);
    ByteAt(c.paging, c.mem, addr + 5);
    ByteAt(c.paging, c.mem, addr + 6);
    ByteAt(c.paging, c.mem, addr + 7);
  }

  // ----- Calls to the inner level -----

  /** The frame that the call to level 0 pushes. */
  function InnerFrame(espHigh: u8, limitHigh: u8): GateFrame
    requires limitHigh < 16
  {
    GateFrame(0x10, Frame(InnerStack(limitHigh), 2 + 0x100 * espHigh, 4), [])
  }

  function InnerStack(limitHigh: u8): Descriptor
    requires limitHigh < 16
  {
    Descriptor(0, 0xFFFF + 0x1_0000 * limitHigh, 0x93, limitHigh)
  }

  /** Where the four slots pass the probe, the call validates. */
  lemma InnerValidates(c: Cpu, espHigh: u8, limitHigh: u8)
    requires limitHigh < 16 && AtGate(c, espHigh, limitHigh) && TablesMapped(c)
    requires forall k :: 1 <= k <= 4 ==> InnerFrame(espHigh, limitHigh).frame.Probed(c.paging, k)
    ensures GateVerdict(c, 0, 4, 0, c.User()) == Ok(InnerFrame(espHigh, limitHigh))
  {
    hide Translate, Peek, Frame.Probed, ReadLinear, TablesMapped, Frame.ProbeVerdict, LookUp;
    InnerStackRead(c, espHigh, limitHigh);
    StackAllowed();
    hide GateMemory, MayStack, IsPresent;
  }

  /** What the TSS names for level 0. */
  lemma InnerStackRead(c: Cpu, espHigh: u8, limitHigh: u8)
    requires limitHigh < 16 && AtGate(c, espHigh, limitHigh) && TablesMapped(c)
    ensures ReadDword(c.paging, c.mem, 0x2004, false) == Ok(2 + 0x100 * espHigh)
    ensures ReadWord(c.paging, c.mem, 0x2008, false) == Ok(0x10)
    ensures LookUp(c, 0x10) == Ok(Found(InnerStack(limitHigh)))
  {
    hide Translate, Peek, DecodeAt, ReadLinear;
    GateBytes(espHigh, limitHigh);
    hide GateMemory;
    DwordAt(c.paging, c.mem, 0x2004);
    WordAt(c.paging, c.mem, 0x2008);
    DescriptorAt(c.paging, c.mem, 0x1010);
    assert DescriptorSlot(c.tables, 0x10) == Slot(0x1010);
  }

  lemma StackAllowed()
    ensures MayStack(0x93, 0, Rpl(0x10)) && IsPresent(0x93)
  {
  }

  /** All descriptors are accessed already, so marking them writes nothing. */
  lemma GatesAreMarked(c: Cpu, espHigh: u8, limitHigh: u8)
    requires AtGate(c, espHigh, limitHigh) && TablesMapped(c)
    ensures GateMarks(c, 0x10, 8) == Ok(c.mem) && CanMarkAccessed(c, 0x28)
  {
    hide Translate, Peek;
    GateBytes(espHigh, limitHigh);
    hide GateMemory;
    assert DescriptorSlot(c.tables, 0x10) == Slot(0x1010) && DescriptorSlot(c.tables, 8) == Slot(0x1008);
    assert DescriptorSlot(c.tables, 0x28) == Slot(0x1028);
  }

  /** A validated call to level 0 one of whose pushes fails leaves the new SS loaded. */
  lemma InnerCallTears(c: Cpu, espHigh: u8, limitHigh: u8)
    requires limitHigh < 16 && AtGate(c, espHigh, limitHigh) && TablesMapped(c)
    requires forall k :: 1 <= k <= 4 ==> InnerFrame(espHigh, limitHigh).frame.Probed(c.paging, k)
    requires Tears(c.paging, InnerFrame(espHigh, limitHigh), c.AlignmentActive())
    ensures DestinationOf(c, CALL_INNER.selector) == Ok(ToGate(0x1018, true))
    ensures FarTorn(c, CALL_INNER, ToGate(0x1018, true))
         == Some(Torn(SS, Segment(0x10, InnerStack(limitHigh), true), 0))
  {
    hide DestinationOf, GateRoute, GateVerdict, GateMarks, Tears;
    InnerRoute(c, espHigh, limitHigh);
    InnerValidates(c, espHigh, limitHigh);
    GatesAreMarked(c, espHigh, limitHigh);
    hide AtGate;
    GateRights();
    hide IsConforming, Dpl;
  }

  /** With #AC armed for the caller, ESP0 = 4002h raises it in the middle of the commit of a valid call. */
  lemma MisalignedStackTears(c: Cpu)
    requires AtGate(c, 0x40, 0) && !c.paging.enabled && !c.paging.bus24 && c.AlignmentActive()
    ensures DestinationOf(c, CALL_INNER.selector) == Ok(ToGate(0x1018, true))
    ensures FarTorn(c, CALL_INNER, ToGate(0x1018, true)) == Some(Torn(SS, Segment(0x10, InnerStack(0), true), 0))
  {
    hide AtGate, FarTorn, DestinationOf;
    assert TablesMapped(c);
    AllProbed(c.paging);
    TearsWhen(c.paging, InnerFrame(0x40, 0), c.AlignmentActive());
    InnerCallTears(c, 0x40, 0);
  }

  lemma AllProbed(pg: Paging)
    requires !pg.enabled
    ensures forall k :: 1 <= k <= 4 ==> InnerFrame(0x40, 0).frame.Probed(pg, k)
  {
    var f := InnerFrame(0x40, 0).frame;
    assert f.Offset(1) == 0x3FFE && f.Offset(2) == 0x3FFA && f.Offset(3) == 0x3FF6 && f.Offset(4) == 0x3FF2;
  }

  /** Pages 0, 1, 2 and 15 lie where they are; page 16 is missing. */
  const SPLIT: Paging :=
    Paging(
      true,
      map[0 := Page(0, true, true), 1 := Page(1, true, true), 2 := Page(2, true, true), 15 := Page(15, true, true)],
      false, false)

  /** What the map does to the bytes at hand, for either level. */
  lemma SplitTranslates(a: u32, write: bool, user: bool)
    ensures a < 0x3000 || 0xF000 <= a < 0x1_0000 ==> Translate(SPLIT, a, write, user) == Ok(a)
    ensures 0x1_0000 <= a < 0x1_1000 ==> Translate(SPLIT, a, write, user).Fault?
  {
  }

  /** With ESP0 = 2 and a limit above FFFFh every slot passes its probe, but the first push runs into page 16. */
  lemma WrappedSlotTears(c: Cpu)
    requires AtGate(c, 0, 1) && c.paging == SPLIT
    ensures DestinationOf(c, CALL_INNER.selector) == Ok(ToGate(0x1018, true))
    ensures FarTorn(c, CALL_INNER, ToGate(0x1018, true)) == Some(Torn(SS, Segment(0x10, InnerStack(1), true), 0))
  {
    hide AtGate, FarTorn, DestinationOf, SPLIT;
    SplitMapsTables(c);
    SplitProbed();
    TearsWhen(c.paging, InnerFrame(0, 1), c.AlignmentActive());
    InnerCallTears(c, 0, 1);
  }

  lemma SplitMapsTables(c: Cpu)
    requires c.paging == SPLIT
    ensures TablesMapped(c)
  {
    hide Translate, SPLIT;
    forall a: u32 | 0x1000 <= a < 0x2010
      ensures Translate(c.paging, a, false, false) == Ok(a)
    {
      SplitTranslates(a, false, false);
    }
  }

  lemma SplitProbed()
    ensures forall k :: 1 <= k <= 4 ==> InnerFrame(0, 1).frame.Probed(SPLIT, k)
    ensures InnerFrame(0, 1).frame.Misses(SPLIT, 1)
  {
    hide Translate, SPLIT;
    var f := InnerFrame(0, 1).frame;
    SlotOfTwo(f, 1, 0xFFFE);
    SlotOfTwo(f, 2, 0xFFFA);
    SlotOfTwo(f, 3, 0xFFF6);
    SlotOfTwo(f, 4, 0xFFF2);
    assert f.PushedLast(1) == 0x1_0001;
    SplitTranslates(0x1_0001, true, false);
  }

  lemma SlotOfTwo(f: Frame, k: nat, offset: u32)
    requires f == InnerFrame(0, 1).frame && 1 <= k <= 4 && offset == 0x1_0002 - 4 * k
    ensures f.Offset(k) == offset && f.Probed(SPLIT, k)
  {
    hide Translate, SPLIT;
    SlotOffset(f, k, offset);
    hide Frame.Offset, WithinLimit;
    SplitTranslates(offset, true, false);
    SplitTranslates((offset + 3) % 0x1_0000, true, false);
  }

  lemma SlotOffset(f: Frame, k: nat, offset: u32)
    requires f == InnerFrame(0, 1).frame && 1 <= k <= 4 && offset == 0x1_0002 - 4 * k
    ensures f.Offset(k) == offset && WithinLimit(f.desc, offset, 4) && !IsBig(f.desc.granularity)
  {
  }

  /** The far CALL faults, with the stack of level 0 in SS. */
  method MisalignedCall() returns (c: Cpu, r: Outcome<Way>)
    ensures r.Fault? && c.Seg(SS) == Segment(0x10, InnerStack(0), true)
  {
    hide AtGate, FarTorn, DestinationOf, Protected, FarCompletes;
    c := MachineAtGate(Paging(false, map[], false, false), 0x40, 0, true);
    InModel(c, 0x40, 0);
    MisalignedStackTears(c);
    r := FarTransfer(c, CALL_INNER);
  }

  method WrappedCall() returns (c: Cpu, r: Outcome<Way>)
    ensures r.Fault? && c.Seg(SS) == Segment(0x10, InnerStack(1), true)
  {
    hide AtGate, FarTorn, DestinationOf, Protected, FarCompletes;
    c := MachineAtGate(SPLIT, 0, 1, false);
    InModel(c, 0, 1);
    WrappedSlotTears(c);
    r := FarTransfer(c, CALL_INNER);
  }

  lemma InModel(c: Cpu, espHigh: u8, limitHigh: u8)
    requires AtGate(c, espHigh, limitHigh)
    ensures !c.Vm() && Protected(c.segs, c.storedCpl) && c.storedCpl == 3 && c.eip == 0
  {
    hide Protected;
    ProgramIsProtected(c, espHigh, limitHigh);
  }

  // ----- A call within level 3 -----

  /** With ESP = 2 both slots pass the check, but the first push of the return address runs into page 16. */
  lemma WrappedReturnTears(c: Cpu)
    requires AtGate(c, 0, 1) && c.paging == SPLIT && !c.AlignmentActive()
    ensures DestinationOf(c, CALL_SAME.selector) == Ok(ToGate(0x1038, true))
    ensures FarTorn(c, CALL_SAME, ToGate(0x1038, true)) == Some(Torn(CS, Segment(0x2B, USER_CODE, true), 0x100))
  {
    hide DestinationOf, GateRoute, ReturnChecked, ReturnSpans, SPLIT, CanMarkAccessed, GateMarks;
    SplitMapsTables(c);
    SameRoute(c, 0, 1);
    GatesAreMarked(c, 0, 1);
    ReturnIsChecked(c);
    CheckedCallTearsWhen(c, 4);
    GateRights();
    hide IsConforming, Dpl, PushMisses;
  }

  lemma ReturnIsChecked(c: Cpu)
    requires AtGate(c, 0, 1) && c.paging == SPLIT && !c.AlignmentActive()
    ensures ReturnChecked(c, 4, true) && PushMisses(c, 4, 1)
  {
    hide Translate, SPLIT, GateMemory;
    var f := ReturnSlots(c, 4);
    assert f == Frame(USER_STACK, 2, 4);
    assert f.Offset(1) == 0xFFFE && f.Offset(2) == 0xFFFA;
    SplitTranslates(f.Linear(1), true, c.User());
    SplitTranslates(f.ProbedLast(1), true, c.User());
    SplitTranslates(f.Linear(2), true, c.User());
    SplitTranslates(f.ProbedLast(2), true, c.User());
    SplitTranslates(f.PushedLast(1), true, c.User());
    assert SlotChecked(c, 4, 1) && SlotChecked(c, 4, 2);
  }

  /** The far CALL faults, with EIP of the gate. */
  method WrappedReturnCall() returns (c: Cpu, r: Outcome<Way>)
    ensures r.Fault? && c.Seg(CS).selector == 0x2B && c.eip == 0x100
  {
    hide AtGate, FarTorn, DestinationOf, Protected, FarCompletes;
    c := MachineAtGate(SPLIT, 0, 1, false);
    InModel(c, 0, 1);
    WrappedReturnTears(c);
    r := FarTransfer(c, CALL_SAME);
  }

  // ----- Returns to an outer level -----

  /** The page of the GDT can only be read, also by level 0; the stack lies in page 2. */
  const READ_ONLY: Paging := Paging(true, map[1 := Page(1, false, false), 2 := Page(2, false, true)], true, false)

  /**
    The GDT: code (8), accessed, and stack (0x10), not accessed, of level 3, and code (0x18) and stack (0x20) of
    level 0. The stack has a far return's frame at 2000h and an interrupt's at 2100h, both to 000Bh:0 and 0013h:0.
   */
  function ReturnByte(a: nat): u8 {
    if a == 0x1008 || a == 0x1009 || a == 0x1010 || a == 0x1011 then 0xFF
    else if a == 0x1018 || a == 0x1019 || a == 0x1020 || a == 0x1021 then 0xFF
    else if a == 0x100D then 0xFB
    else if a == 0x1015 then 0xF2
    else if a == 0x101D then 0x9B
    else if a == 0x1025 then 0x93
    else if a == 0x1026 then 0x40
    else if a == 0x2004 || a == 0x2104 then 0x0B
    else if a == 0x200C || a == 0x2110 then 0x13
    else if a == 0x2108 || a == 0x2109 then 2
    else 0
  }

  const RETURN_MEMORY: Memory := map a: nat | 0x1000 <= a < 0x2120 :: ReturnByte(a)

  const KERNEL_STACK: Segment := Segment(0x20, Descriptor(0, 0xFFFF, 0x93, 0x40), true)

  const KERNEL_SEGMENTS: Segments :=
    [NullSegment(0), Segment(0x18, KERNEL_CODE, true), KERNEL_STACK, NullSegment(0), NullSegment(0), NullSegment(0)]

  const RETURN_TABLES: Tables := Tables(0x1000, 0x27, 0, 0, 0)

  /** Level 0, with the frame of its return at `sp`. */
  predicate AtReturn(c: Cpu, sp: u32)
    reads c
  {
    && c.paging == READ_ONLY && c.mem == RETURN_MEMORY && c.tables == RETURN_TABLES
    && c.segs == KERNEL_SEGMENTS && c.regs[ESP] == sp && c.storedCpl == 0 && c.flags == 2 && !c.Vm()
  }

  method MachineAtReturn(sp: u32) returns (c: Cpu)
    ensures fresh(c) && AtReturn(c, sp)
  {
    hide RETURN_MEMORY;
    c := new Cpu(
      READ_ONLY, false, false, RETURN_MEMORY, KERNEL_SEGMENTS, RETURN_TABLES, Task(0, 0, 0, 0));
    c.regs := c.regs[ESP := sp];
  }

  lemma ReturnBytes()
    ensures forall a :: 0x1000 <= a < 0x2120 ==> Peek(RETURN_MEMORY, a) == ReturnByte(a)
    ensures IdentityFrom(READ_ONLY, 0x1000, 0x1120) && Translate(READ_ONLY, 0x1015, true, false).Fault?
  {
  }

  /** The return is valid and the new CS is marked, but the new SS cannot be. */
  lemma ValidReturnTears(c: Cpu, sp: u32)
    requires AtReturn(c, sp)
    ensures OuterVerdict(c, 0x0B, 0, 0x13).Ok? && StackMarkFails(c, 0x0B, 0x13)
  {
    hide Translate, Peek, DecodeAt;
    ReturnBytes();
    hide RETURN_MEMORY;
    DescriptorAt(c.paging, c.mem, 0x1008);
    DescriptorAt(c.paging, c.mem, 0x1010);
    OuterAllowed();
    assert DescriptorSlot(c.tables, 0x13) == Slot(0x1010) && DescriptorSlot(c.tables, 0x0B) == Slot(0x1008);
    hide MayReturnTo, MayStack, IsPresent;
    assert OuterVerdict(c, 0x0B, 0, 0x13).Ok?;
    assert StackMarkFails(c, 0x0B, 0x13);
  }

  lemma OuterAllowed()
    ensures MayReturnTo(0xFB, 0, 3) && IsPresent(0xFB) && MayStack(0xF2, 3, 3) && IsPresent(0xF2)
  {
  }

  /** A doubleword of the stack whose upper half is zero. */
  lemma ItemAt(c: Cpu, sp: u32, offset: u32)
    requires AtReturn(c, sp) && 0x2000 <= offset <= 0x211C
    requires ReturnByte(offset + 2) == 0 && ReturnByte(offset + 3) == 0
    ensures StackItem(c, offset, 4) == Ok(ReturnByte(offset) + 0x100 * ReturnByte(offset + 1))
  {
    hide Translate, Peek, ReturnByte, Addresses, Load;
    ReturnBytes();
    hide RETURN_MEMORY;
    BytesAt(c.paging, offset, 4);
    LoadFour(c.mem, offset);
    assert Add32(KERNEL_STACK.desc.base, offset) == offset;
  }

  /** RETF reads its frame and tears. */
  lemma FarReturnTears(c: Cpu)
    requires AtReturn(c, 0x2000)
    ensures ReturnOperands(c, 0, 4) == Ok(ReturnFrame(0, 0x0B, 0, 0x13)) && ReturnTears(c, 0, 0x0B, 0x13)
  {
    hide StackItem, OuterVerdict, StackMarkFails;
    ItemAt(c, 0x2000, 0x2000);
    ItemAt(c, 0x2000, 0x2004);
    ItemAt(c, 0x2000, 0x2008);
    ItemAt(c, 0x2000, 0x200C);
    ValidReturnTears(c, 0x2000);
    assert StackPointer(c.Seg(SS), c.regs) == 0x2000;
  }

  /** IRET reads its frame and tears, with the popped flags loaded. */
  lemma InterruptReturnTears(c: Cpu)
    requires AtReturn(c, 0x2100)
    ensures InterruptOperands(c, 4) == Ok(InterruptFrame(0, 0x0B, 0x202, OuterLevel(0, 0x13)))
    ensures StackMarkFails(c, 0x0B, 0x13) && FlagsTear(c, InterruptFrame(0, 0x0B, 0x202, OuterLevel(0, 0x13)))
  {
    hide StackItem, OuterVerdict, StackMarkFails;
    ItemAt(c, 0x2100, 0x2100);
    ItemAt(c, 0x2100, 0x2104);
    ItemAt(c, 0x2100, 0x2108);
    ItemAt(c, 0x2100, 0x210C);
    ItemAt(c, 0x2100, 0x2110);
    ValidReturnTears(c, 0x2100);
    assert StackPointer(c.Seg(SS), c.regs) == 0x2100;
  }

  lemma KernelIsProtected(c: Cpu, sp: u32)
    requires AtReturn(c, sp)
    ensures Protected(c.segs, c.storedCpl) && !Nt(c.flags)
  {
    hide RETURN_MEMORY;
  }

  /** The far return faults with CS and the level of the outer program, and SS of the inner one. */
  method TornReturn() returns (c: Cpu, r: Outcome<Way>)
    ensures r.Fault? && c.Seg(CS).selector == 0x0B && c.storedCpl == 3 && c.Seg(SS) == KERNEL_STACK
  {
    hide ReturnOperands, OuterVerdict, StackMarkFails, AccessedMemory, Protected, RETURN_MEMORY;
    c := MachineAtReturn(0x2000);
    FarReturnTears(c);
    KernelIsProtected(c, 0x2000);
    r := ReturnFar(c, 0, 4);
  }

  /** So does the IRET, and the popped flags are loaded. */
  method TornInterruptReturn() returns (c: Cpu, r: Outcome<Way>)
    ensures r.Fault? && c.Seg(CS).selector == 0x0B && c.storedCpl == 3 && c.Seg(SS) == KERNEL_STACK && c.flags == 0x202
  {
    hide InterruptOperands, OuterVerdict, StackMarkFails, AccessedMemory, Protected, RETURN_MEMORY;
    c := MachineAtReturn(0x2100);
    InterruptReturnTears(c);
    KernelIsProtected(c, 0x2100);
    r := InterruptOrTaskReturn(c, 4);
  }
}
