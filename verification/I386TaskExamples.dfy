/**
  Concrete machines for the task switches of crates/cpu/src/i386.rs: a far CALL whose IRET
  comes back, and an IRET to the current task itself.
 */
module I386TaskExamples {
  import opened I386Memory
  import opened I386Cpu
  import opened I386Identity
  import opened I386Protection
  import opened I386TaskImage
  import opened I386Tasks
  import opened I386TaskReturn
  import opened I386Far

  // ----- Without paging -----

  const NO_PAGING: Paging := Paging(false, map[], false, false)

  /** Without paging linear addresses are physical. */
  lemma Flat(linear: u32, write: bool, user: bool)
    ensures Translate(NO_PAGING, linear, write, user) == Ok(linear)
  {
  }

  lemma {:induction false} FlatAddresses(linear: u32, n: nat, write: bool, user: bool)
    ensures Addresses(NO_PAGING, linear, n, write, user).Ok?
    decreases n
  {
    hide Translate;
    Flat(linear, write, user);
    if n > 0 {
      FlatAddresses(Add32(linear, 1), n - 1, write, user);
    }
  }

  lemma FlatRegion(linear: u32, n: nat)
    requires linear + n <= 0x1_0000_0000
    ensures forall a :: a in Region(NO_PAGING, linear, n) ==> linear <= a < linear + n
  {
    hide Translate;
    forall a | a in Region(NO_PAGING, linear, n)
      ensures linear <= a < linear + n
    {
      var i :| 0 <= i < n && Translate(NO_PAGING, Plus(linear, i), false, false) == Ok(a);
      Flat(Plus(linear, i), false, false);
    }
  }

  /** The `n` bytes from `linear` on are zero. */
  ghost predicate ZeroFrom(mem: Memory, linear: nat, n: nat) {
    forall a :: linear <= a < linear + n ==> Peek(mem, a) == 0
  }

  lemma {:induction false} ZeroRead(mem: Memory, linear: u32, n: nat)
    requires linear + n < 0x1_0000_0000 && ZeroFrom(mem, linear, n)
    ensures ReadLinear(NO_PAGING, mem, linear, n, false) == Ok(0)
    decreases n
  {
    hide Translate;
    if n > 0 {
      Flat(linear, false, false);
      ZeroRead(mem, linear + 1, n - 1);
      var rest := Addresses(NO_PAGING, linear + 1, n - 1, false, false).value;
      assert Peek(mem, linear) == 0;
      assert ([linear] + rest)[1..] == rest;
    }
  }

  /** A word whose upper byte is zero. */
  lemma ByteRead(mem: Memory, linear: u32)
    requires linear < 0xFFFF_FFF0 && Peek(mem, linear + 1) == 0
    ensures ReadLinear(NO_PAGING, mem, linear, 2, false) == Ok(Peek(mem, linear))
  {
    hide Translate;
    Flat(linear, false, false);
    ZeroRead(mem, linear + 1, 1);
    var rest := Addresses(NO_PAGING, linear + 1, 1, false, false).value;
    assert ([linear] + rest)[1..] == rest;
  }

  function Zeros(n: nat): (s: seq<nat>)
    ensures |s| == n && forall i :: 0 <= i < n ==> s[i] == 0
  {
    if n == 0 then [] else [0] + Zeros(n - 1)
  }

  lemma {:induction false} ZeroFields(mem: Memory, fs: Fields, i: nat, n: nat)
    requires fs.Sized() && i <= n && fs.start + fs.Scale(n) < 0x1_0000_0000
    requires ZeroFrom(mem, fs.start + fs.Scale(i), fs.Scale(n - i))
    ensures FieldsAt(NO_PAGING, mem, fs, i, n) == Ok(Zeros(n - i))
    decreases n - i
  {
    hide ReadLinear;
    if i < n {
      assert fs.At(i) == fs.start + fs.Scale(i);
      assert fs.Scale(i + 1) == fs.Scale(i) + fs.stride && fs.Scale(n - i) == fs.Scale(n - i - 1) + fs.stride;
      ZeroRead(mem, fs.At(i), fs.size);
      ZeroFields(mem, fs, i + 1, n);
    }
  }

  // ----- The machine -----

  const TABLES: Tables := Tables(0x1000, 0x1F, 0, 0, 0)

  /** A GDT with a flat code segment (8), the running task A (0x10) and a task B (0x18) whose CS is 8. */
  const MACHINE: Memory :=
    map[
      0x1008 := 0xFF, 0x1009 := 0xFF, 0x100D := 0x9B, 0x1010 := 0x67, 0x1013 := 0x20, 0x1015 := 0x8B,
      0x1018 := 0x67, 0x101B := 0x30, 0x101D := 0x89, 0x304C := 8]

  const CODE: Descriptor := Descriptor(0, 0xFFFF, 0x9B, 0)
  const TSS_A: Descriptor := Descriptor(0x2000, 0x67, 0x8B, 0)
  const TSS_B: Descriptor := Descriptor(0x3000, 0x67, 0x89, 0)

  const SEGMENTS: Segments :=
    [NullSegment(0), Segment(8, CODE, true), NullSegment(0), NullSegment(0), NullSegment(0), NullSegment(0)]

  const TASK_A: Task := Task(0x10, 0x2000, 0x67, 0x8B)

  /** Task A at level 0, with NT set and only CS loaded. */
  function Running(mem: Memory): State {
    State(mem, TABLES, TASK_A, SEGMENTS, [0, 0, 0, 0, 0, 0, 0, 0], 0, 0x4002, 0)
  }

  /** The processor that runs task A. */
  method Machine(mem: Memory) returns (c: Cpu)
    ensures fresh(c) && c.paging == NO_PAGING && !c.model486 && StateOf(c) == Running(mem)
    ensures !c.Vm() && Nt(c.flags) && Protected(c.segs, c.storedCpl) && c.storedCpl == 0
  {
    c := new Cpu(NO_PAGING, false, false, mem, SEGMENTS, TABLES, TASK_A);
    c.regs, c.eip, c.flags := [0, 0, 0, 0, 0, 0, 0, 0], 0, 0x4002;
  }

  /** Eight bytes decode as they stand. */
  lemma FlatDecode(mem: Memory, addr: u32)
    requires addr < 0xFFFF_FF00
    requires Peek(mem, addr + 2) == 0 && Peek(mem, addr + 4) == 0
    requires Peek(mem, addr + 6) == 0 && Peek(mem, addr + 7) == 0
    ensures DecodeAt(NO_PAGING, mem, addr) == Ok(
      Descriptor(0x100 * Peek(mem, addr + 3), Peek(mem, addr) + 0x100 * Peek(mem, addr + 1), Peek(mem, addr + 5), 0))
  {
    hide Translate;
    forall a: u32
      ensures Translate(NO_PAGING, a, false, false) == Ok(a)
    {
      Flat(a, false, false);
    }
    DescriptorAt(NO_PAGING, mem, addr);
  }

  /** Two memories agree on the bytes from `linear` on. */
  ghost predicate SameFrom(m: Memory, m': Memory, linear: nat, n: nat) {
    forall a :: linear <= a < linear + n ==> Peek(m', a) == Peek(m, a)
  }

  /** The code segment and the two TSS descriptors are as in the machine at hand. */
  ghost predicate GdtStands(mem: Memory, rightsA: u8, rightsB: u8) {
    && DecodeAt(NO_PAGING, mem, 0x1008) == Ok(CODE)
    && DecodeAt(NO_PAGING, mem, 0x1010) == Ok(TSS_A.(rights := rightsA))
    && DecodeAt(NO_PAGING, mem, 0x1018) == Ok(TSS_B.(rights := rightsB))
  }

  lemma GdtOfMachine(mem: Memory)
    requires SameFrom(MACHINE, mem, 0x1008, 24)
    ensures GdtStands(mem, 0x8B, 0x89)
  {
    hide DecodeAt, Peek;
    MachineBytes();
    forall a | 0x1008 <= a < 0x1020
      ensures Peek(mem, a) == Peek(MACHINE, a)
    {
    }
    FlatDecode(mem, 0x1008);
    FlatDecode(mem, 0x1010);
    FlatDecode(mem, 0x1018);
  }

  lemma MachineBytes()
    ensures Peek(MACHINE, 0x1008) == 0xFF && Peek(MACHINE, 0x1009) == 0xFF && Peek(MACHINE, 0x100D) == 0x9B
    ensures Peek(MACHINE, 0x1010) == 0x67 && Peek(MACHINE, 0x1013) == 0x20 && Peek(MACHINE, 0x1015) == 0x8B
    ensures Peek(MACHINE, 0x1018) == 0x67 && Peek(MACHINE, 0x101B) == 0x30 && Peek(MACHINE, 0x101D) == 0x89
    ensures Peek(MACHINE, 0x304C) == 8
    ensures forall a :: a !in {0x1008, 0x1009, 0x100D, 0x1010, 0x1013, 0x1015, 0x1018, 0x101B, 0x101D, 0x304C} ==>
      Peek(MACHINE, a) == 0
  {
  }

  /** An image with only CS among its segments, no LDT and no virtual-8086 flag. */
  predicate Plain(image: TaskImage) {
    && image.selectors == [0, 8, 0, 0, 0, 0] && image.ldt == 0
    && image.eflags < 0x1_0000 && image.eip <= 0xFFFF
  }

  /** Such a task can be entered. */
  lemma PlainEnters(mem: Memory, n: NewTask, ext: nat)
    requires DecodeAt(NO_PAGING, mem, 0x1008) == Ok(CODE) && n.desc.base < 0x10_0000
    requires var image := ImageAt(NO_PAGING, mem, n.desc.base, Is386Tss(n.desc.rights)); image.Ok? && Plain(image.value)
    ensures var e := EnterVerdict(NO_PAGING, false, mem, TABLES, n, ext);
            e.Ok? && Plain(e.value.image) && e.value.fitted == Fitted(mem, SEGMENTS, TABLES)
  {
    hide ImageAt, DecodeAt, Addresses, SegmentsVerdict;
    var image := ImageAt(NO_PAGING, mem, n.desc.base, Is386Tss(n.desc.rights)).value;
    FlatAddresses(Plus(n.desc.base, 100), 2, false, false);
    PlainLoads(mem, image.eip, ext);
  }

  lemma PlainLoads(mem: Memory, eip: u32, ext: nat)
    requires DecodeAt(NO_PAGING, mem, 0x1008) == Ok(CODE) && eip <= 0xFFFF
    ensures var loaded := SegmentsVerdict(NO_PAGING, mem, TABLES, [0, 8, 0, 0, 0, 0], eip, ext);
            loaded == Ok(LoadedSegments(mem, SEGMENTS))
  {
    hide DecodeAt;
    var t := TABLES;
    NullLoads(mem, t, SS, 0, ext);
    CodeLoads(mem, t, eip, ext);
    NullLoads(mem, t, ES, 0, ext);
    NullLoads(mem, t, DS, 0, ext);
    NullLoads(mem, t, FS, 0, ext);
    NullLoads(mem, t, GS, 0, ext);
    hide DataLoading, CodeLoading;
  }

  lemma NullLoads(mem: Memory, t: Tables, seg: SegReg, cpl: nat, ext: nat)
    ensures DataLoading(NO_PAGING, mem, t, seg, 0, cpl, ext) == Ok(Loading(mem, NullSegment(0)))
  {
    NullUnmarked(NO_PAGING, mem, t, 0);
  }

  /** The code segment is accessed already, so that loading it changes no memory. */
  lemma CodeLoads(mem: Memory, t: Tables, eip: u32, ext: nat)
    requires DecodeAt(NO_PAGING, mem, 0x1008) == Ok(CODE) && eip <= 0xFFFF && t.gdtBase == 0x1000 && t.gdtLimit == 0x1F
    ensures CodeLoading(NO_PAGING, mem, t, 8, eip, ext) == Ok(Loading(mem, Segment(8, CODE, true)))
  {
    hide DecodeAt, AccessedMemory, MayRun, IsPresent;
    assert DescriptorSlot(t, 8) == Slot(0x1008);
    CodeUnmarked(mem, t);
    CodeRuns();
  }

  lemma CodeUnmarked(mem: Memory, t: Tables)
    requires DecodeAt(NO_PAGING, mem, 0x1008) == Ok(CODE) && DescriptorSlot(t, 8) == Slot(0x1008)
    ensures AccessedMemory(NO_PAGING, mem, t, 8) == Ok(mem)
  {
    hide DecodeAt, Translate, DescriptorSlot;
    DecodedRights(NO_PAGING, mem, 0x1008);
  }

  lemma CodeRuns()
    ensures MayRun(CODE.rights, Rpl(8)) && IsPresent(CODE.rights)
  {
  }

  // ----- Leaving a task without paging -----

  lemma {:induction false} FlatFields(mem: Memory, fs: Fields, i: nat, n: nat)
    requires i <= n
    ensures FieldsAt(NO_PAGING, mem, fs, i, n).Ok?
    decreases n - i
  {
    hide Addresses, Fields.At;
    if i < n {
      FlatAddresses(fs.At(i), fs.size, false, false);
      FlatFields(mem, fs, i + 1, n);
    }
  }

  lemma FlatImage(mem: Memory, base: u32, is386: bool)
    ensures ImageAt(NO_PAGING, mem, base, is386).Ok?
  {
    hide Addresses, FieldsAt;
    FlatAddresses(Plus(base, 28), 4, false, false);
    FlatFields(mem, GeneralFields(base, is386), 0, 10);
    FlatFields(mem, SelectorFields(base, is386), 0, SelectorCount(is386));
    FlatAddresses(Plus(base, LdtOffset(is386)), 2, false, false);
  }

  /** Without paging every accepted switch leaves its old task. */
  lemma FlatLeaves(s: State, n: NewTask, how: TaskType)
    requires DecodeAt(NO_PAGING, s.mem, n.addr).Ok?
    ensures PreTranslation(NO_PAGING, s.tables, s.task, n, how).Ok?
    ensures LeftMemory(NO_PAGING, s, n, how, false).Ok?
  {
    hide Addresses, DecodeAt, Translate, DescriptorSlot, LeftMemory;
    FlatAddresses(Plus(s.task.base, SaveStart(s.task.Is386())), SaveLength(s.task.Is386()), true, false);
    FlatAddresses(n.desc.base, 2, true, false);
    var slot := DescriptorSlot(s.tables, s.task.tr);
    if slot.Slot? {
      Flat(Add32(slot.addr, 5), true, false);
    }
    Flat(Add32(n.addr, 5), true, false);
    Flat(Plus(n.desc.base, 100), false, false);
    LeaveSucceeds(NO_PAGING, s, n, how, false);
  }

  /** The bytes that leaving a task of these machines may write. */
  predicate Written(s: State, n: NewTask, how: TaskType, a: nat)
    requires s.Current().Slot?
  {
    || a == n.addr + 5 || (how != Call && a == s.Current().addr + 5)
    || s.task.base + 32 <= a < s.task.base + 96 || (how == Call && n.desc.base <= a < n.desc.base + 2)
  }

  lemma WrittenOnly(s: State, n: NewTask, how: TaskType)
    requires s.Current().Slot? && s.task.Is386() && DecodeAt(NO_PAGING, s.mem, n.addr).Ok?
    requires s.task.base < 0x10_0000 && n.addr < 0x10_0000 && n.desc.base < 0x10_0000 && s.Current().addr < 0x10_0000
    ensures LeftMemory(NO_PAGING, s, n, how, false).Ok?
    ensures var left := LeftMemory(NO_PAGING, s, n, how, false).value;
            forall a :: !Written(s, n, how, a) ==> Peek(left, a) == Peek(s.mem, a)
  {
    hide LeftMemory, DecodeAt, DescriptorSlot, LeaveBytes, Written, Peek, Translate, PreTranslation;
    FlatLeaves(s, n, how);
    LeftChanges(NO_PAGING, s, n, how, false);
    LeaveBytesWritten(s, n, how);
    var left := LeftMemory(NO_PAGING, s, n, how, false).value;
    forall a | !Written(s, n, how, a)
      ensures Peek(left, a) == Peek(s.mem, a)
    {
      assert a !in LeaveBytes(NO_PAGING, s, n, how);
    }
  }

  lemma LeaveBytesWritten(s: State, n: NewTask, how: TaskType)
    requires s.Current().Slot? && s.task.Is386()
    requires s.task.base < 0x10_0000 && n.addr < 0x10_0000 && n.desc.base < 0x10_0000 && s.Current().addr < 0x10_0000
    ensures forall a :: a in LeaveBytes(NO_PAGING, s, n, how) ==> Written(s, n, how, a)
  {
    hide DescriptorSlot, Region;
    FlatRegion(n.addr + 5, 1);
    FlatRegion(s.Current().addr + 5, 1);
    FlatRegion(s.task.base + 32, 64);
    FlatRegion(n.desc.base, 2);
    assert Plus(s.task.base, 32) == s.task.base + 32;
  }

  /** The image of a fresh task B. */
  lemma FreshImage(mem: Memory)
    requires ZeroFrom(mem, 0x3010, 0x3C) && Peek(mem, 0x304C) == 8 && ZeroFrom(mem, 0x304D, 0x20)
    ensures ImageAt(NO_PAGING, mem, 0x3000, true).Ok? && Plain(ImageAt(NO_PAGING, mem, 0x3000, true).value)
  {
    hide ReadLinear, Peek, FieldsAt, ImageAt;
    var gs, ss := GeneralFields(0x3000, true), SelectorFields(0x3000, true);
    FlatImage(mem, 0x3000, true);
    ZeroFields(mem, gs, 0, 10);
    FreshSelectors(mem, ss);
    ZeroRead(mem, 0x3060, 2);
    ImageIs(mem, 0x3000, FieldsAt(NO_PAGING, mem, gs, 0, 10).value);
  }

  /** The image follows from its parts. */
  lemma ImageIs(mem: Memory, base: u32, general: seq<nat>)
    requires ImageAt(NO_PAGING, mem, base, true).Ok?
    requires FieldsAt(NO_PAGING, mem, GeneralFields(base, true), 0, 10) == Ok(general)
    requires FieldsAt(NO_PAGING, mem, SelectorFields(base, true), 0, 6) == Ok([0, 8, 0, 0, 0, 0])
    requires ReadLinear(NO_PAGING, mem, Plus(base, 96), 2, false) == Ok(0)
    requires |general| == 10 && general[0] <= 0xFFFF && general[1] < 0x1_0000
    ensures Plain(ImageAt(NO_PAGING, mem, base, true).value)
  {
    hide ReadLinear, FieldsAt;
  }

  lemma FreshSelectors(mem: Memory, ss: Fields)
    requires ss == Fields(0x3048, 4, 2)
    requires ZeroFrom(mem, 0x3010, 0x3C) && Peek(mem, 0x304C) == 8 && ZeroFrom(mem, 0x304D, 0x20)
    ensures FieldsAt(NO_PAGING, mem, ss, 0, 6) == Ok([0, 8, 0, 0, 0, 0])
  {
    hide ReadLinear, Peek;
    ZeroRead(mem, 0x3048, 2);
    assert Peek(mem, 0x304D) == 0;
    ByteRead(mem, 0x304C);
    ZeroFields(mem, ss, 2, 6);
    assert ss.At(0) == 0x3048 && ss.At(1) == 0x304C;
    var rest := FieldsAt(NO_PAGING, mem, ss, 2, 6);
    assert rest == Ok(Zeros(4)) && Zeros(4) == [0, 0, 0, 0];
    assert FieldsAt(NO_PAGING, mem, ss, 1, 6) == Ok([8] + [0, 0, 0, 0]);
    assert FieldsAt(NO_PAGING, mem, ss, 0, 6) == Ok([0] + ([8] + [0, 0, 0, 0]));
    assert [0] + ([8] + [0, 0, 0, 0]) == [0, 8, 0, 0, 0, 0];
  }

  // ----- A CALL and its IRET -----

  lemma AcceptsCall(mem: Memory, rightsA: u8)
    requires GdtStands(mem, rightsA, 0x89)
    ensures TaskAt(NO_PAGING, mem, TABLES, 0x18, Call, 0) == Ok(NewTask(0x1018, TSS_B))
  {
    hide DecodeAt;
  }

  lemma AcceptsIret(mem: Memory, t: Tables)
    requires DecodeAt(NO_PAGING, mem, 0x1010) == Ok(TSS_A) && t.gdtBase == 0x1000 && t.gdtLimit == 0x1F
    ensures TaskAt(NO_PAGING, mem, t, 0x10, Iret, 0) == Ok(NewTask(0x1010, TSS_A))
  {
    hide DecodeAt;
  }

  /** The CALL to task B succeeds. */
  lemma CallSucceeds()
    ensures SwitchVerdict(NO_PAGING, false, Running(MACHINE), 0x18, Call, 0, false).Ok?
    ensures var v := SwitchVerdict(NO_PAGING, false, Running(MACHINE), 0x18, Call, 0, false).value;
            && v.n == NewTask(0x1018, TSS_B) && LeftMemory(NO_PAGING, Running(MACHINE), v.n, Call, false) == Ok(v.left)
            && Plain(v.entered.image) && v.entered.fitted == Fitted(v.left, SEGMENTS, TABLES)
  {
    hide TaskAt, PreTranslation, LeftMemory, EnterVerdict, DecodeAt, ImageAt, Peek, Plain;
    var s, n := Running(MACHINE), NewTask(0x1018, TSS_B);
    GdtOfMachine(MACHINE);
    AcceptsCall(MACHINE, 0x8B);
    assert s.Current() == Slot(0x1010);
    FlatLeaves(s, n, Call);
    WrittenOnly(s, n, Call);
    MachineBytes();
    var left := LeftMemory(NO_PAGING, s, n, Call, false).value;
    assert forall a :: 0x1008 <= a < 0x1010 || 0x3010 <= a < 0x3070 ==> !Written(s, n, Call, a);
    FlatDecode(left, 0x1008);
    FreshImage(left);
    PlainEnters(left, n, 0);
  }

  /** Task A's image, once saved, is plain again. */
  lemma SavedIsPlain(mem: Memory, s: State, how: TaskType)
    requires s == Running(s.mem) && Saved(NO_PAGING, mem, s, how, false) && ZeroFrom(mem, 0x2060, 2)
    ensures ImageAt(NO_PAGING, mem, 0x2000, true).Ok? && Plain(ImageAt(NO_PAGING, mem, 0x2000, true).value)
  {
    hide ImageAt, Saved, ReadLinear, Loaded;
    FlatImage(mem, 0x2000, true);
    ImageAtIsLoaded(NO_PAGING, mem, 0x2000, true);
    var image := ImageAt(NO_PAGING, mem, 0x2000, true).value;
    RestoredIsSaved(NO_PAGING, mem, s, how, false, image);
    assert image.selectors == [0, 8, 0, 0, 0, 0];
    ZeroRead(mem, 0x2060, 2);
    LdtOf(mem, 0x2000);
  }

  lemma LdtOf(mem: Memory, base: u32)
    requires ImageAt(NO_PAGING, mem, base, true).Ok?
    ensures ReadLinear(NO_PAGING, mem, Plus(base, 96), 2, false) == Ok(ImageAt(NO_PAGING, mem, base, true).value.ldt)
  {
    hide ReadLinear, FieldsAt;
  }

  /** A callee that does nothing. */
  function Idle(v: Switched): Callee {
    var s := After(v, 0x18, Call, false);
    Callee(s.mem, 0, 0, 0, s.regs, s.segs, s.eip, s.flags, s.eflagsHigh, 0)
  }

  /** The two tasks lie in separate memory. */
  lemma TasksSeparate()
    requires SwitchVerdict(NO_PAGING, false, Running(MACHINE), 0x18, Call, 0, false).Ok?
    ensures var v := SwitchVerdict(NO_PAGING, false, Running(MACHINE), 0x18, Call, 0, false).value;
            && Undisturbed(NO_PAGING, Running(MACHINE), v, Idle(v)) && SaveApart(NO_PAGING, Running(MACHINE), v.n)
  {
    hide SwitchVerdict, Running, Separate, TrConsistent, SaveApart, Kept, MACHINE, Plain;
    var v := SwitchVerdict(NO_PAGING, false, Running(MACHINE), 0x18, Call, 0, false).value;
    CallSucceeds();
    RunningFacts(MACHINE);
    GdtOfMachine(MACHINE);
    TrIsConsistent(MACHINE);
    AreSeparate(MACHINE, v);
    NothingDiffers(v.entered.fitted.mem);
  }

  lemma RunningFacts(mem: Memory)
    ensures Running(mem).Current() == Slot(0x1010) && Running(mem).task.tr == 0x10 && !Running(mem).Vm()
    ensures Running(mem).segs == SEGMENTS
  {
  }

  lemma AfterFacts(v: Switched, selector: u16, how: TaskType)
    requires |v.entered.image.selectors| == 6
    ensures var s := After(v, selector, how, false);
            && s.segs == v.entered.fitted.segs && s.mem == v.entered.fitted.mem && s.task == TaskOf(v.n, selector, how)
            && (how == Call ==> Nt(s.flags)) && (Plain(v.entered.image) ==> !s.Vm())
  {
  }

  lemma TrIsConsistent(mem: Memory)
    requires DecodeAt(NO_PAGING, mem, 0x1010) == Ok(TSS_A)
    ensures TrConsistent(NO_PAGING, Running(mem))
  {
    hide DecodeAt;
  }

  lemma NothingDiffers(mem: Memory)
    ensures Changed(mem, mem) == {}
  {
  }

  lemma AreSeparate(mem: Memory, v: Switched)
    requires v.n == NewTask(0x1018, TSS_B) && Plain(v.entered.image) && v.entered.fitted.tables == TABLES
    ensures Running(mem).Current() == Slot(0x1010)
    ensures Separate(NO_PAGING, Running(mem), v) && SaveApart(NO_PAGING, Running(mem), v.n)
  {
    hide Region, Marks, Plain;
    FlatRegion(0x2020, 64);
    FlatRegion(0x1010, 8);
    FlatRegion(0x3000, 2);
    FlatRegion(0x101D, 1);
    FlatRegion(0x1015, 1);
    FlatRegion(0x3020, 64);
    PlainMarks(v.entered);
  }

  /** Only the code segment's accessed bit may change. */
  lemma PlainMarks(e: Entered)
    requires Plain(e.image) && e.fitted.tables == TABLES
    ensures forall a :: a in Marks(NO_PAGING, e) ==> a == 0x100D
  {
    hide Region;
    FlatRegion(0x100D, 1);
    assert DescriptorSlot(TABLES, 8) == Slot(0x1008) && DescriptorSlot(TABLES, 0) == NoSlot;
  }

  /**
    Both switches of a CALL and its return succeed on this machine, over separate memory: afterwards
    task A runs as before, is marked busy, and task B is available.
   */
  lemma CallAndReturnSucceed()
    ensures SwitchVerdict(NO_PAGING, false, Running(MACHINE), 0x18, Call, 0, false).Ok?
    ensures var s := Running(MACHINE);
            var v := SwitchVerdict(NO_PAGING, false, s, 0x18, Call, 0, false).value;
            && Undisturbed(NO_PAGING, s, v, Idle(v)) && SaveApart(NO_PAGING, s, v.n)
            && var back := IretVerdict(NO_PAGING, false, CalleeEnd(v, 0x18, false, Idle(v)));
               && back.Ok?
               && var s' := After(back.value, 0x10, Iret, false);
                  && Restored(s, s', false) && s'.segs == s.segs
                  && BusyAt(NO_PAGING, s'.mem, 0x1010) && !BusyAt(NO_PAGING, s'.mem, 0x1018)
  {
    hide SwitchVerdict, IretVerdict, Undisturbed, SaveApart, BusyAt, Restored, After, CalleeEnd, MACHINE, Idle, Running,
         LeftMemory, Plain, Rpl, EnteredCpl;
    var s := Running(MACHINE);
    RunningFacts(MACHINE);
    CallSucceeds();
    var v := SwitchVerdict(NO_PAGING, false, s, 0x18, Call, 0, false).value;
    TasksSeparate();
    ReturnSucceeds();
    CallReturns(NO_PAGING, false, s, 0x18, Idle(v));
    AfterFacts(IretVerdict(NO_PAGING, false, CalleeEnd(v, 0x18, false, Idle(v))).value, 0x10, Iret);
  }

  /** The far CALL of task B. */
  const CALL_B: Jump := Jump(0x18, 0, true, 4, 8, 0)

  lemma CallIsTaskSwitch(c: Cpu)
    requires c.paging == NO_PAGING && !c.model486 && StateOf(c) == Running(MACHINE) && c.storedCpl == 0
    ensures DestinationOf(c, CALL_B.selector) == Ok(ToTask(0x1018, false))
    ensures var v := SwitchVerdict(NO_PAGING, false, Running(MACHINE), 0x18, Call, 0, false);
            v.Ok? && TaskRoute(c, CALL_B, 0x1018, false) == Ok(After(v.value, 0x18, Call, false))
  {
    hide DecodeAt, SwitchVerdict, MACHINE, After, LeftMemory;
    CallSucceeds();
    GdtOfMachine(MACHINE);
    assert DescriptorSlot(c.tables, 0x18) == Slot(0x1018);
    TssRights();
    hide IsSegment, IsPresent, IsCallGate, Dpl;
  }

  lemma TssRights()
    ensures !IsSegment(0x89) && IsPresent(0x89) && !IsCallGate(0x89)
  {
  }

  /** A callee that does nothing leaves the state of the CALL. */
  lemma IdleEnds(v: Switched)
    requires |v.entered.image.selectors| == 6 && v.entered.fitted.tables == TABLES
    ensures CalleeEnd(v, 0x18, false, Idle(v)) == After(v, 0x18, Call, false)
  {
  }

  /** A far CALL of task B and the IRET of task B, as instructions: both succeed, and task A goes on. */
  method CallThenReturn() returns (c: Cpu, called: Outcome<Way>, returned: Outcome<Way>)
    ensures called == Ok(TaskSwitched) && returned == Ok(TaskSwitched)
    ensures Restored(Running(MACHINE), StateOf(c), false) && c.segs == SEGMENTS
    ensures BusyAt(NO_PAGING, c.mem, 0x1010) && !BusyAt(NO_PAGING, c.mem, 0x1018)
  {
    hide SwitchVerdict, IretVerdict, Undisturbed, SaveApart, BusyAt, Restored, After, CalleeEnd, MACHINE, Idle, Running,
         LeftMemory, Plain, Protected, DestinationOf, TaskRoute, FarTorn, ReadWord, Nt;
    c := Machine(MACHINE);
    CallIsTaskSwitch(c);
    CallAndReturnSucceed();
    RunningFacts(MACHINE);
    CallSucceeds();
    ghost var v := SwitchVerdict(NO_PAGING, false, Running(MACHINE), 0x18, Call, 0, false).value;
    AfterFacts(v, 0x18, Call);
    IdleEnds(v);
    called := FarTransfer(c, CALL_B);
    BackLink(v);
    returned := InterruptOrTaskReturn(c, 4);
  }

  /** The back link of task B names task A. */
  lemma BackLink(v: Switched)
    requires SwitchVerdict(NO_PAGING, false, Running(MACHINE), 0x18, Call, 0, false) == Ok(v)
    ensures var s := After(v, 0x18, Call, false);
            ReadWord(NO_PAGING, s.mem, s.task.base, false) == Ok(0x10)
  {
    hide SwitchVerdict, Undisturbed, SaveApart, Running, LeftMemory, Plain, Idle, After, CalleeEnd, ReadWord;
    CallSucceeds();
    TasksSeparate();
    RunningFacts(MACHINE);
    IdleEnds(v);
    LinkNamesCaller(NO_PAGING, false, Running(MACHINE), 0x18, Idle(v));
  }

  lemma ReturnSucceeds()
    requires SwitchVerdict(NO_PAGING, false, Running(MACHINE), 0x18, Call, 0, false).Ok?
    ensures var v := SwitchVerdict(NO_PAGING, false, Running(MACHINE), 0x18, Call, 0, false).value;
            var back := IretVerdict(NO_PAGING, false, CalleeEnd(v, 0x18, false, Idle(v)));
            back.Ok? && back.value.entered.fitted.segs == SEGMENTS
  {
    hide SwitchVerdict, IretVerdict, Undisturbed, SaveApart, DecodeAt, MACHINE, Saved, Written, Peek;
    var s := Running(MACHINE);
    var v := SwitchVerdict(NO_PAGING, false, s, 0x18, Call, 0, false).value;
    CallSucceeds();
    TasksSeparate();
    ReturnStaysPossible(NO_PAGING, false, s, 0x18, Idle(v));
    ReturnsToCaller(NO_PAGING, false, s, 0x18, Idle(v));
    LeftStands(v.left);
    var end := CalleeEnd(v, 0x18, false, Idle(v));
    ReturnEnters(end, s);
  }

  /** What the CALL left of the machine. */
  lemma LeftStands(left: Memory)
    requires LeftMemory(NO_PAGING, Running(MACHINE), NewTask(0x1018, TSS_B), Call, false) == Ok(left)
    ensures DecodeAt(NO_PAGING, left, 0x1008) == Ok(CODE) && DecodeAt(NO_PAGING, left, 0x1010) == Ok(TSS_A)
    ensures ZeroFrom(left, 0x2060, 2)
  {
    hide LeftMemory, DecodeAt, Peek;
    var s, n := Running(MACHINE), NewTask(0x1018, TSS_B);
    GdtOfMachine(MACHINE);
    MachineBytes();
    assert s.Current() == Slot(0x1010);
    WrittenOnly(s, n, Call);
    assert forall a :: 0x1008 <= a < 0x1018 || 0x2060 <= a < 0x2062 ==> !Written(s, n, Call, a);
    FlatDecode(left, 0x1008);
    FlatDecode(left, 0x1010);
  }

  /** An IRET to task A succeeds from any 386 task that leaves A's TSS and the descriptors alone. */
  lemma ReturnEnters(end: State, s: State)
    requires end.tables == TABLES && end.task == TaskOf(NewTask(0x1018, TSS_B), 0x18, Call)
    requires DecodeAt(NO_PAGING, end.mem, 0x1008) == Ok(CODE) && DecodeAt(NO_PAGING, end.mem, 0x1010) == Ok(TSS_A)
    requires s == Running(s.mem) && Saved(NO_PAGING, end.mem, s, Call, false) && ZeroFrom(end.mem, 0x2060, 2)
    ensures var back := SwitchVerdict(NO_PAGING, false, end, 0x10, Iret, 0, false);
            back.Ok? && back.value.entered.fitted.segs == SEGMENTS
  {
    hide TaskAt, PreTranslation, LeftMemory, EnterVerdict, DecodeAt, ImageAt, Peek, Saved, Plain, Region;
    var n := NewTask(0x1010, TSS_A);
    AcceptsIret(end.mem, TABLES);
    assert end.Current() == Slot(0x1018);
    FlatLeaves(end, n, Iret);
    WrittenOnly(end, n, Iret);
    var left := LeftMemory(NO_PAGING, end, n, Iret, false).value;
    assert forall a :: 0x1008 <= a < 0x1010 || 0x2020 <= a < 0x2062 ==> !Written(end, n, Iret, a);
    assert forall a :: 0x1008 <= a < 0x1010 ==> Peek(left, a) == Peek(end.mem, a);
    SameDecode(end.mem, left, 0x1008);
    SavedSurvives(end.mem, left, s);
    SavedIsPlain(left, s, Call);
    PlainEnters(left, n, 0);
  }

  lemma SameDecode(m: Memory, m': Memory, addr: u32)
    requires addr < 0xFFFF_FF00 && SameFrom(m, m', addr, 8)
    ensures DecodeAt(NO_PAGING, m', addr) == DecodeAt(NO_PAGING, m, addr)
  {
    hide DecodeAt, Region;
    FlatRegion(addr, 8);
    ChangedIsAll(m, m');
    DecodeUnchanged(NO_PAGING, m, m', addr, Changed(m, m'));
  }

  lemma SavedSurvives(m: Memory, m': Memory, s: State)
    requires s == Running(s.mem) && Saved(NO_PAGING, m, s, Call, false) && SameFrom(m, m', 0x2020, 0x40)
    ensures Saved(NO_PAGING, m', s, Call, false)
  {
    hide Region, ImageHolds, GeneralValues, SelectorValues;
    FlatRegion(0x2020, 64);
    ChangedIsAll(m, m');
    ImageUnchanged(
      NO_PAGING, m, m', s.task.base, s.task.Is386(), s.General(Call, false), s.Saves(), Changed(m, m'));
  }

  // ----- An IRET to the current task -----

  /** Task A's back link names task A. */
  const LOOP: Memory := MACHINE[0x2000 := 0x10]

  /** With NT set, the IRET succeeds, and the task that goes on running is no longer marked busy. */
  lemma IretToSelfIdles()
    ensures Nt(Running(LOOP).flags) && CurrentBusy(NO_PAGING, Running(LOOP))
    ensures var back := IretVerdict(NO_PAGING, false, Running(LOOP));
            && back.Ok?
            && var s' := After(back.value, 0x10, Iret, false);
               s'.task.tr == Running(LOOP).task.tr && !CurrentBusy(NO_PAGING, s')
  {
    hide TaskAt, PreTranslation, LeftMemory, EnterVerdict, DecodeAt, ImageAt, Peek, Saved, Plain, Region;
    var s, n := Running(LOOP), NewTask(0x1010, TSS_A);
    LoopBytes();
    GdtOfMachine(LOOP);
    AcceptsIret(LOOP, TABLES);
    assert s.Current() == Slot(0x1010);
    FlatLeaves(s, n, Iret);
    WrittenOnly(s, n, Iret);
    var left := LeftMemory(NO_PAGING, s, n, Iret, false).value;
    assert forall a :: 0x1008 <= a < 0x1010 || 0x2060 <= a < 0x2062 ==> !Written(s, n, Iret, a);
    SameDecode(LOOP, left, 0x1008);
    LeftSaves(NO_PAGING, s, n, Iret, false);
    SavedIsPlain(left, s, Iret);
    PlainEnters(left, n, 0);
    LoopIdles(s);
  }

  lemma LoopBytes()
    ensures SameFrom(MACHINE, LOOP, 0x1008, 24) && ZeroFrom(LOOP, 0x2060, 2)
    ensures ReadWord(NO_PAGING, LOOP, 0x2000, false) == Ok(0x10)
  {
    ByteRead(LOOP, 0x2000);
  }

  lemma LoopIdles(s: State)
    requires s == Running(LOOP) && SwitchVerdict(NO_PAGING, false, s, 0x10, Iret, 0, false).Ok?
    requires SwitchVerdict(NO_PAGING, false, s, 0x10, Iret, 0, false).value.n == NewTask(0x1010, TSS_A)
    ensures CurrentBusy(NO_PAGING, s)
    ensures var v := SwitchVerdict(NO_PAGING, false, s, 0x10, Iret, 0, false).value;
            !CurrentBusy(NO_PAGING, After(v, 0x10, Iret, false))
  {
    hide TaskAt, PreTranslation, LeftMemory, EnterVerdict, DecodeAt, Region, BusyAt, After, SystemByte, LOOP;
    AcceptedRights(NO_PAGING, s.mem, s.tables, 0x10, Iret, 0);
    assert s.Current() == Slot(0x1010);
    FlatRegion(0x1015, 1);
    FlatRegion(0x2020, 64);
    BusyIsKept(NO_PAGING, false, s, 0x10, Iret, 0, false);
  }

  /** The IRET as an instruction. */
  method SelfReturn() returns (c: Cpu, r: Outcome<Way>)
    ensures r == Ok(TaskSwitched) && c.task.tr == 0x10 && !CurrentBusy(NO_PAGING, StateOf(c))
  {
    hide IretVerdict, SwitchVerdict, LOOP, Running, After, CurrentBusy, Protected, Nt, ReadWord;
    c := Machine(LOOP);
    IretToSelfIdles();
    LoopBytes();
    RunningTask(LOOP);
    r := InterruptOrTaskReturn(c, 4);
  }

  lemma RunningTask(mem: Memory)
    ensures Running(mem).task == TASK_A && Running(mem).mem == mem
  {
  }
}
