/**
  Task switches of crates/cpu/src/i386.rs: validation of the new TSS, the translations
  that precede every write, the busy bits, the saved and the loaded image.
 */
module I386Tasks {
  import opened I386Memory
  import opened I386Cpu
  import opened I386Protection
  import opened I386TaskImage

  datatype TaskType = Iret | Jmp | Call

  // ----- TSS descriptors -----

  predicate Busy(rights: u8) { rights / 2 % 2 == 1 }

  function SetBusy(rights: u8): (r: u8)
    ensures Busy(r)
  {
    if Busy(rights) then rights else rights + 2
  }

  function ClearBusy(rights: u8): (r: u8)
    ensures !Busy(r)
  {
    if Busy(rights) then rights - 2 else rights
  }

  predicate IsTss(rights: u8) {
    !IsSegment(rights) && (rights % 16 == 1 || rights % 16 == 3 || rights % 16 == 9 || rights % 16 == 11)
  }

  predicate Is386Tss(rights: u8) { rights % 16 == 9 || rights % 16 == 11 }

  /** A validated TSS descriptor and where it lies. */
  datatype NewTask = NewTask(addr: u32, desc: Descriptor)

  /** The least limit of a TSS. */
  function LeastLimit(rights: u8): nat {
    if Is386Tss(rights) then 103 else 43
  }

  /** The task a switch may go to: an IRET needs a busy one, a JMP or CALL an available one. */
  function TaskAt(pg: Paging, mem: Memory, t: Tables, selector: u16, how: TaskType, ext: nat): (r: Outcome<NewTask>)
    ensures r.Ok? ==>
      && DescriptorSlot(t, selector) == Slot(r.value.addr) && selector / 4 % 2 == 0
      && DecodeAt(pg, mem, r.value.addr) == Ok(r.value.desc)
      && IsTss(r.value.desc.rights) && Busy(r.value.desc.rights) == (how == Iret)
      && IsPresent(r.value.desc.rights) && r.value.desc.limit >= LeastLimit(r.value.desc.rights)
  {
    var code := ErrorCode(selector) + ext;
    var slot := DescriptorSlot(t, selector);
    if selector / 4 % 2 == 1 || slot.NoSlot? then Fault(TASK_SWITCH_FAULT, code)
    else
      var d :- DecodeAt(pg, mem, slot.addr);
      if !IsTss(d.rights) || Busy(d.rights) != (how == Iret) then Fault(PROTECTION, code)
      else if !IsPresent(d.rights) then Fault(NOT_PRESENT, code)
      else if d.limit < LeastLimit(d.rights) then Fault(TASK_SWITCH_FAULT, code)
      else Ok(NewTask(slot.addr, d))
  }

  method ValidateTask(c: Cpu, selector: u16, how: TaskType, ext: nat) returns (r: Outcome<NewTask>)
    ensures r == TaskAt(c.paging, c.mem, c.tables, selector, how, ext)
  {
    hide DecodeAt, IsSegment, IsPresent;
    var code := ErrorCode(selector) + ext;
    if selector / 4 % 2 == 1 {
      return Fault(TASK_SWITCH_FAULT, code);
    }
    var slot := DescriptorSlot(c.tables, selector);
    if slot.NoSlot? {
      return Fault(TASK_SWITCH_FAULT, code);
    }
    var decoded := DecodeAt(c.paging, c.mem, slot.addr);
    if decoded.Fault? {
      return Fault(decoded.vector, decoded.code);
    }
    var d := decoded.value;
    if IsSegment(d.rights) || !IsTss(d.rights) {
      return Fault(PROTECTION, code);
    }
    if how == Iret {
      if !Busy(d.rights) {
        return Fault(PROTECTION, code);
      }
    } else if Busy(d.rights) {
      return Fault(PROTECTION, code);
    }
    if !IsPresent(d.rights) {
      return Fault(NOT_PRESENT, code);
    }
    var minimum := if Is386Tss(d.rights) then 103 else 43;
    if d.limit < minimum {
      return Fault(TASK_SWITCH_FAULT, code);
    }
    return Ok(NewTask(slot.addr, d));
  }

  // ----- Translations before any commit -----

  /**
    Translates a range page by page, which finds the first fault of its bytes. Only a range that
    ends in its own first page, around the whole address space, is beyond it.
   */
  method PreTranslateRange(c: Cpu, start: u32, n: nat, write: bool) returns (r: Outcome<()>)
    requires 0 < n <= 0xFFFF_F000
    ensures r == Addresses(c.paging, start, n, write, c.User()).Void()
  {
    hide Addresses, Translate;
    var endPage := Plus(start, n - 1) / 0x1000;
    var probe := start;
    ghost var done := 0;
    NothingTranslated(c.paging, start, n, write, c.User());
    while true
      invariant done < n && probe == Plus(start, done)
      invariant Addresses(c.paging, start, n, write, c.User()).Void()
             == Addresses(c.paging, probe, n - done, write, c.User()).Void()
      decreases n - done
    {
      ghost var room := 0x1000 - probe % 0x1000;
      PageOrMore(c.paging, probe, n - done, write, c.User());
      PlusPlus(start, done, n - 1 - done);
      EndsInPage(probe, n - 1 - done);
      var a := Translate(c.paging, probe, write, c.User());
      if a.Fault? {
        return Fault(a.vector, a.code);
      }
      if probe / 0x1000 == endPage {
        return Ok(());
      }
      NextPage(probe);
      PlusPlus(start, done, room);
      probe := (probe / 0x1000 + 1) % 0x10_0000 * 0x1000;
      done := done + room;
    }
  }

  lemma NothingTranslated(pg: Paging, start: u32, n: nat, write: bool, user: bool)
    ensures Plus(start, 0) == start
  {
  }

  /** The bytes of a range in its first page stand and fall with the first; then the rest of the range decides. */
  lemma PageOrMore(pg: Paging, probe: u32, n: nat, write: bool, user: bool)
    requires 0 < n
    ensures var first, room := Translate(pg, probe, write, user), 0x1000 - probe % 0x1000;
            && (first.Fault? ==> Addresses(pg, probe, n, write, user).Void() == first.Void())
            && (first.Ok? && n <= room ==> Addresses(pg, probe, n, write, user).Ok?)
            && (first.Ok? && n > room ==>
                  Addresses(pg, probe, n, write, user).Void()
                  == Addresses(pg, Plus(probe, room), n - room, write, user).Void())
  {
    hide Addresses, Translate;
    var room := 0x1000 - probe % 0x1000;
    if n <= room {
      WithinPage(pg, probe, n, write, user);
    } else {
      WithinPage(pg, probe, room, write, user);
      AddressesJoin(pg, probe, room, n - room, write, user);
    }
  }

  /** A byte less than the address space ahead lies in the same page exactly when it is short of the page's end. */
  lemma EndsInPage(probe: u32, m: nat)
    requires m < 0xFFFF_F000
    ensures Plus(probe, m) / 0x1000 == probe / 0x1000 <==> m < 0x1000 - probe % 0x1000
  {
    var page, offset := probe / 0x1000, probe % 0x1000;
    assert probe == 0x1000 * page + offset;
    if m < 0x1000 - offset {
      assert Plus(probe, m) == 0x1000 * page + (offset + m);
    } else if probe + m < 0x1_0000_0000 {
      assert Plus(probe, m) >= 0x1000 * page + 0x1000;
    } else {
      assert Plus(probe, m) == probe + m - 0x1_0000_0000 < 0x1000 * page;
    }
  }

  lemma NextPage(probe: u32)
    ensures (probe / 0x1000 + 1) % 0x10_0000 * 0x1000 == Plus(probe, 0x1000 - probe % 0x1000)
  {
    var page, offset := probe / 0x1000, probe % 0x1000;
    assert probe == 0x1000 * page + offset;
    if page == 0xF_FFFF {
      assert probe + (0x1000 - offset) == 0x1_0000_0000;
    } else {
      assert probe + (0x1000 - offset) == 0x1000 * (page + 1);
    }
  }

  /** The write access to the rights byte of a descriptor, if there is one. */
  function RightsTranslation(pg: Paging, slot: TableSlot): Outcome<()> {
    match slot
    case NoSlot => Ok(())
    case Slot(addr) => Translate(pg, Add32(addr, 5), true, false).Void()
  }

  /** Every translation that precedes the commit: the old save area, the back link, the busy bits and the T bit. */
  function PreTranslation(pg: Paging, t: Tables, task: Task, n: NewTask, how: TaskType): Outcome<()> {
    var _ :- Addresses(pg, Plus(task.base, SaveStart(task.Is386())), SaveLength(task.Is386()), true, false).Void();
    var _ :- if how == Call then Addresses(pg, n.desc.base, 2, true, false).Void() else Ok(());
    var _ :- if how != Call then RightsTranslation(pg, DescriptorSlot(t, task.tr)) else Ok(());
    var _ :- if how != Iret then RightsTranslation(pg, Slot(n.addr)) else Ok(());
    if Is386Tss(n.desc.rights) then Translate(pg, Plus(n.desc.base, 100), false, false).Void() else Ok(())
  }

  method PreTranslate(c: Cpu, n: NewTask, how: TaskType) returns (r: Outcome<()>)
    requires c.supervisorOverride
    ensures r == PreTranslation(c.paging, c.tables, c.task, n, how)
  {
    hide Addresses, Translate, DescriptorSlot;
    r := PreTranslateRange(c, Plus(c.task.base, SaveStart(c.task.Is386())), SaveLength(c.task.Is386()), true);
    if r.Fault? {
      return;
    }
    if how == Call {
      r := PreTranslateRange(c, n.desc.base, 2, true);
      if r.Fault? {
        return;
      }
    }
    var slot := DescriptorSlot(c.tables, c.task.tr);
    if how != Call && slot.Slot? {
      var oldByte := Translate(c.paging, Add32(slot.addr, 5), true, c.User());
      if oldByte.Fault? {
        return Fault(oldByte.vector, oldByte.code);
      }
    }
    if how != Iret {
      var newByte := Translate(c.paging, Add32(n.addr, 5), true, c.User());
      if newByte.Fault? {
        return Fault(newByte.vector, newByte.code);
      }
    }
    if Is386Tss(n.desc.rights) {
      var t := Translate(c.paging, Plus(n.desc.base, 100), false, c.User());
      if t.Fault? {
        return Fault(t.vector, t.code);
      }
    }
    return Ok(());
  }

  // ----- Busy bits -----

  /** The rights byte of the descriptor at `addr`. */
  ghost function RightsByte(pg: Paging, addr: u32): set<nat> {
    Region(pg, Add32(addr, 5), 1)
  }

  ghost predicate BusyAt(pg: Paging, mem: Memory, addr: u32) {
    var rights := SystemByte(pg, mem, Add32(addr, 5));
    rights.Ok? && Busy(rights.value)
  }

  lemma RightsByteIs(pg: Paging, addr: u32, a: nat)
    requires Translate(pg, Add32(addr, 5), false, false) == Ok(a)
    ensures RightsByte(pg, addr) == {a}
  {
    hide Translate;
    assert Plus(Add32(addr, 5), 0) == Add32(addr, 5);
  }

  lemma BusyUnchanged(pg: Paging, mem: Memory, mem': Memory, addr: u32, region: set<nat>)
    requires OnlyChanged(mem, mem', region) && RightsByte(pg, addr) !! region
    ensures BusyAt(pg, mem', addr) == BusyAt(pg, mem, addr)
  {
    hide Translate;
    var a := Translate(pg, Add32(addr, 5), false, false);
    if a.Ok? {
      RightsByteIs(pg, addr, a.value);
    }
  }

  /** Memory after the new task was marked busy by a JMP or CALL. */
  function MarkedMemory(pg: Paging, mem: Memory, addr: u32, how: TaskType): Outcome<Memory> {
    var at :- Translate(pg, Add32(addr, 5), how != Iret, false);
    Ok(if how == Iret then mem else mem[at := SetBusy(Peek(mem, at))])
  }

  /** Memory after the old task was marked available by a JMP or IRET. */
  function IdledMemory(pg: Paging, mem: Memory, slot: TableSlot, how: TaskType): Outcome<Memory> {
    if how == Call || slot.NoSlot? then Ok(mem)
    else
      var at :- Translate(pg, Add32(slot.addr, 5), true, false);
      Ok(mem[at := ClearBusy(Peek(mem, at))])
  }

  /** Memory after a CALL wrote the old task's selector into the new TSS. */
  function LinkedMemory(pg: Paging, mem: Memory, base: u32, tr: u16, how: TaskType): Outcome<Memory> {
    if how != Call then Ok(mem)
    else
      var span :- Addresses(pg, base, 2, true, false);
      Ok(Store(mem, span, tr))
  }

  /** Marks the new task busy on a JMP or CALL; returns its rights. */
  method MarkNewTask(c: Cpu, addr: u32, how: TaskType) returns (r: Outcome<u8>)
    modifies c`mem
    ensures var marked := MarkedMemory(c.paging, old(c.mem), addr, how);
            var before := SystemByte(c.paging, old(c.mem), Add32(addr, 5));
            && r.Void() == marked.Void()
            && c.mem == (if marked.Ok? then marked.value else old(c.mem))
            && (r.Ok? ==> before.Ok? && r.value == if how == Iret then before.value else SetBusy(before.value))
  {
    var at := Translate(c.paging, Add32(addr, 5), how != Iret, false);
    if at.Fault? {
      return Fault(at.vector, at.code);
    }
    WritableTranslates(c.paging, Add32(addr, 5), how != Iret);
    var rights := Peek(c.mem, at.value);
    if how != Iret {
      c.mem := c.mem[at.value := SetBusy(rights)];
      return Ok(SetBusy(rights));
    }
    return Ok(rights);
  }

  /** Marks the old task available, unless the switch is a CALL or TR has no descriptor. */
  method IdleOldTask(c: Cpu, slot: TableSlot, how: TaskType) returns (r: Outcome<()>)
    modifies c`mem
    ensures var idled := IdledMemory(c.paging, old(c.mem), slot, how);
            r == idled.Void() && c.mem == (if idled.Ok? then idled.value else old(c.mem))
  {
    if how != Call && slot.Slot? {
      var at := Translate(c.paging, Add32(slot.addr, 5), true, false);
      if at.Fault? {
        return Fault(at.vector, at.code);
      }
      c.mem := c.mem[at.value := ClearBusy(Peek(c.mem, at.value))];
    }
    return Ok(());
  }

  method LinkBack(c: Cpu, base: u32, how: TaskType) returns (r: Outcome<()>)
    requires c.supervisorOverride
    modifies c`mem
    ensures var linked := LinkedMemory(c.paging, old(c.mem), base, c.task.tr, how);
            r == linked.Void() && c.mem == (if linked.Ok? then linked.value else old(c.mem))
  {
    hide Addresses;
    if how == Call {
      r := c.Write(base, 2, c.task.tr);
      if r.Fault? {
        return;
      }
    }
    return Ok(());
  }

  // ----- Leaving the old task -----

  /** NT: the task runs on behalf of the one that its back link names. */
  predicate Nt(flags: u16) {
    flags / 0x4000 % 2 == 1
  }

  function SetNt(flags: u16): (r: u16)
    ensures Nt(r)
  {
    if Nt(flags) then flags else flags + 0x4000
  }

  function ClearNt(flags: u16): (r: u16)
    ensures !Nt(r)
  {
    if Nt(flags) then flags - 0x4000 else flags
  }

  /** The image that is saved for EFLAGS; `resume` sets RF. */
  function EflagsImage(high: u16, flags: u16, resume: bool): u32 {
    (if resume && high % 2 == 0 then high + 1 else high) * 0x1_0000 + flags
  }

  /** What a task switch finds and changes. */
  datatype State = State(
    mem: Memory, tables: Tables, task: Task, segs: Segments, regs: Registers, eip: u32, flags: u16, eflagsHigh: u16)
  {
    /** What is saved of EFLAGS: an IRET saves NT clear. */
    function SavedEflags(how: TaskType, resume: bool): u32 {
      EflagsImage(eflagsHigh, if how == Iret then ClearNt(flags) else flags, resume)
    }

    function General(how: TaskType, resume: bool): (s: seq<nat>)
      ensures |s| == 10
    {
      GeneralValues(task.Is386(), eip, SavedEflags(how, resume), regs)
    }

    function Saves(): (s: seq<nat>)
      ensures |s| == SelectorCount(task.Is386())
    {
      SelectorValues(task.Is386(), segs)
    }

    /** The descriptor of the task that TR names. */
    function Current(): TableSlot {
      DescriptorSlot(tables, task.tr)
    }

    predicate Vm() {
      eflagsHigh / 2 % 2 == 1
    }
  }

  function StateOf(c: Cpu): State
    reads c`mem, c`tables, c`task, c`segs, c`regs, c`eip, c`flags, c`eflagsHigh
  {
    State(c.mem, c.tables, c.task, c.segs, c.regs, c.eip, c.flags, c.eflagsHigh)
  }

  /** Memory after the busy bits were moved, the old task was saved and, on a CALL, the new one linked back to it. */
  function LeftMemory(pg: Paging, s: State, n: NewTask, how: TaskType, resume: bool): Outcome<Memory> {
    var marked :- MarkedMemory(pg, s.mem, n.addr, how);
    var idled :- IdledMemory(pg, marked, s.Current(), how);
    var saved :- SavedMemory(pg, idled, s.task.base, s.task.Is386(), s.General(how, resume), s.Saves());
    LinkedMemory(pg, saved, n.desc.base, s.task.tr, how)
  }

  /** The back link at the start of a TSS, if the switch writes it. */
  ghost function LinkBytes(pg: Paging, base: u32, how: TaskType): set<nat> {
    if how == Call then Region(pg, base, 2) else {}
  }

  /** The rights byte of the old task's descriptor, if the switch clears its busy bit. */
  ghost function IdleByte(pg: Paging, slot: TableSlot, how: TaskType): set<nat> {
    if how != Call && slot.Slot? then RightsByte(pg, slot.addr) else {}
  }

  /** Everything a switch writes before it loads the new task. */
  ghost function LeaveBytes(pg: Paging, s: State, n: NewTask, how: TaskType): set<nat> {
    RightsByte(pg, n.addr) + IdleByte(pg, s.Current(), how) + ImageBytes(pg, s.task.base, s.task.Is386())
    + LinkBytes(pg, n.desc.base, how)
  }

  lemma Grow(m: Memory, m': Memory, part: set<nat>, all: set<nat>)
    requires OnlyChanged(m, m', part) && part <= all
    ensures OnlyChanged(m, m', all)
  {
  }

  lemma Extend(m: Memory, m': Memory, m'': Memory, part: set<nat>, all: set<nat>)
    requires OnlyChanged(m, m', all) && OnlyChanged(m', m'', part) && part <= all
    ensures OnlyChanged(m, m'', all)
  {
    ChangedWithin(m, m', m'', all, part);
  }

  lemma MarkedChanges(pg: Paging, mem: Memory, addr: u32, how: TaskType)
    requires MarkedMemory(pg, mem, addr, how).Ok?
    ensures OnlyChanged(mem, MarkedMemory(pg, mem, addr, how).value, RightsByte(pg, addr))
    ensures how == Iret || BusyAt(pg, MarkedMemory(pg, mem, addr, how).value, addr)
  {
    hide Translate, Region;
    var at := Translate(pg, Add32(addr, 5), how != Iret, false).value;
    WritableTranslates(pg, Add32(addr, 5), how != Iret);
    RightsByteIs(pg, addr, at);
  }

  lemma IdledChanges(pg: Paging, mem: Memory, slot: TableSlot, how: TaskType)
    requires IdledMemory(pg, mem, slot, how).Ok?
    ensures OnlyChanged(mem, IdledMemory(pg, mem, slot, how).value, IdleByte(pg, slot, how))
    ensures how != Call && slot.Slot? ==>
      RightsByte(pg, slot.addr) != {} && !BusyAt(pg, IdledMemory(pg, mem, slot, how).value, slot.addr)
  {
    hide Translate, Region;
    if how != Call && slot.Slot? {
      WritableTranslates(pg, Add32(slot.addr, 5), true);
      RightsByteIs(pg, slot.addr, Translate(pg, Add32(slot.addr, 5), true, false).value);
    }
  }

  lemma LinkedChanges(pg: Paging, mem: Memory, base: u32, tr: u16, how: TaskType)
    requires LinkedMemory(pg, mem, base, tr, how).Ok?
    ensures OnlyChanged(mem, LinkedMemory(pg, mem, base, tr, how).value, LinkBytes(pg, base, how))
    ensures how == Call ==> ReadWord(pg, LinkedMemory(pg, mem, base, tr, how).value, base, false) == Ok(tr)
  {
    hide Addresses, Region, ReadLinear;
    if how == Call {
      assert Bound(2) == 0x1_0000;
      WriteEffect(pg, mem, base, 2, tr);
    }
  }

  /** Marks the tasks, saves the old one and links back to it; returns the new task's rights. */
  method LeaveTask(c: Cpu, n: NewTask, how: TaskType, resume: bool) returns (r: Outcome<u8>)
    requires c.supervisorOverride
    modifies c`mem
    ensures var left := LeftMemory(c.paging, old(StateOf(c)), n, how, resume);
            var before := SystemByte(c.paging, old(c.mem), Add32(n.addr, 5));
            && r.Void() == left.Void()
            && (r.Ok? ==>
                  && c.mem == left.value
                  && before.Ok? && r.value == if how == Iret then before.value else SetBusy(before.value))
    ensures OnlyChanged(old(c.mem), c.mem, LeaveBytes(c.paging, old(StateOf(c)), n, how))
  {
    hide OnlyChanged, RightsByte, ImageBytes, ImageHolds, GeneralValues, SelectorValues, DescriptorSlot, SavedMemory,
         MarkedMemory, IdledMemory, LinkedMemory, LinkBytes, IdleByte, SystemByte, EflagsImage;
    ghost var s := StateOf(c);
    ghost var all := LeaveBytes(c.paging, s, n, how);
    ghost var slot := s.Current();
    NothingChanged(s.mem, all);
    r := MarkNewTask(c, n.addr, how);
    if r.Fault? {
      return;
    }
    ghost var m1 := c.mem;
    MarkedChanges(c.paging, s.mem, n.addr, how);
    Extend(s.mem, s.mem, m1, RightsByte(c.paging, n.addr), all);
    var idled := IdleOldTask(c, DescriptorSlot(c.tables, c.task.tr), how);
    if idled.Fault? {
      return Fault(idled.vector, idled.code);
    }
    ghost var m2 := c.mem;
    IdledChanges(c.paging, m1, slot, how);
    Extend(s.mem, m1, m2, IdleByte(c.paging, slot, how), all);
    var eflags := EflagsImage(c.eflagsHigh, if how == Iret then ClearNt(c.flags) else c.flags, resume);
    var saved := SaveImage(c, c.task.base, c.task.Is386(), eflags);
    Extend(s.mem, m2, c.mem, ImageBytes(c.paging, c.task.base, c.task.Is386()), all);
    if saved.Fault? {
      return Fault(saved.vector, saved.code);
    }
    ghost var m3 := c.mem;
    var linked := LinkBack(c, n.desc.base, how);
    if linked.Fault? {
      return Fault(linked.vector, linked.code);
    }
    LinkedChanges(c.paging, m3, n.desc.base, c.task.tr, how);
    Extend(s.mem, m3, c.mem, LinkBytes(c.paging, n.desc.base, how), all);
  }

  /** Once every translation has succeeded, leaving the old task cannot fault. */
  lemma LeaveSucceeds(pg: Paging, s: State, n: NewTask, how: TaskType, resume: bool)
    requires PreTranslation(pg, s.tables, s.task, n, how).Ok? && DecodeAt(pg, s.mem, n.addr).Ok?
    ensures LeftMemory(pg, s, n, how, resume).Ok?
  {
    hide Addresses, Translate, DescriptorSlot, SavedMemory, GeneralValues, SelectorValues, EflagsImage;
    DecodedRights(pg, s.mem, n.addr);
    var marked := MarkedMemory(pg, s.mem, n.addr, how).value;
    var idled := IdledMemory(pg, marked, s.Current(), how).value;
    SaveSucceeds(pg, idled, s.task.base, s.task.Is386(), s.General(how, resume), s.Saves());
  }

  lemma DecodedRights(pg: Paging, mem: Memory, addr: u32)
    requires DecodeAt(pg, mem, addr).Ok?
    ensures SystemByte(pg, mem, Add32(addr, 5)) == Ok(DecodeAt(pg, mem, addr).value.rights)
  {
    hide SystemByte;
  }

  // ----- Loading the segments of the new task -----

  function TaskDataVerdict(seg: SegReg, selector: u16, cpl: nat, lookup: Outcome<Lookup>, ext: nat): Outcome<Segment> {
    if selector < 4 then Ok(NullSegment(selector))
    else
      var found :- lookup;
      var allowed := found.Found? && IsPresent(found.desc.rights) &&
        if seg == SS then MayStack(found.desc.rights, cpl, Rpl(selector))
        else MayAccess(found.desc.rights, cpl, Rpl(selector));
      if allowed then Ok(Segment(selector, found.desc, true)) else Fault(TASK_SWITCH_FAULT, ErrorCode(selector) + ext)
  }

  predicate MayRun(rights: u8, rpl: nat) {
    && IsSegment(rights) && IsCode(rights)
    && if IsConforming(rights) then Dpl(rights) <= rpl else Dpl(rights) == rpl
  }

  function TaskCodeVerdict(selector: u16, offset: u32, lookup: Outcome<Lookup>, ext: nat): Outcome<Segment> {
    var code := ErrorCode(selector) + ext;
    if selector < 4 then Fault(TASK_SWITCH_FAULT, code)
    else
      var found :- lookup;
      if found.NoDescriptor? || !MayRun(found.desc.rights, Rpl(selector)) then Fault(TASK_SWITCH_FAULT, code)
      else if !IsPresent(found.desc.rights) then Fault(NOT_PRESENT, code)
      else if offset > found.desc.limit then Fault(TASK_SWITCH_FAULT, ext)
      else Ok(Segment(selector, found.desc, true))
  }

  /** A loaded segment, and memory with its descriptor marked accessed. */
  datatype Loading = Loading(mem: Memory, seg: Segment)

  function Marking(pg: Paging, mem: Memory, t: Tables, selector: u16, verdict: Outcome<Segment>): Outcome<Loading> {
    var seg :- verdict;
    var marked :- AccessedMemory(pg, mem, t, selector);
    Ok(Loading(marked, seg))
  }

  function DataLoading(pg: Paging, mem: Memory, t: Tables, seg: SegReg, selector: u16, cpl: nat, ext: nat)
    : Outcome<Loading>
  {
    Marking(pg, mem, t, selector, TaskDataVerdict(seg, selector, cpl, Decode(pg, mem, t, selector), ext))
  }

  function CodeLoading(pg: Paging, mem: Memory, t: Tables, selector: u16, offset: u32, ext: nat): Outcome<Loading> {
    Marking(pg, mem, t, selector, TaskCodeVerdict(selector, offset, Decode(pg, mem, t, selector), ext))
  }

  method LoadTaskData(c: Cpu, seg: SegReg, selector: u16, cpl: nat, ext: nat) returns (r: Outcome<()>)
    requires seg != CS
    modifies c`mem, c`segs, c`storedCpl
    ensures c.storedCpl == old(c.storedCpl)
    ensures var loading := DataLoading(c.paging, old(c.mem), c.tables, seg, selector, cpl, ext);
            && r == loading.Void()
            && c.mem == (if loading.Ok? then loading.value.mem else old(c.mem))
            && c.segs == (if loading.Ok? then old(c.segs)[seg.Index() := loading.value.seg] else old(c.segs))
  {
    hide DecodeAt, AccessedMemory, IsConforming, IsReadable, IsWritable, IsCode, IsSegment, IsPresent, Dpl;
    if selector < 4 {
      NullUnmarked(c.paging, c.mem, c.tables, selector);
      c.SetNull(seg, selector);
      return Ok(());
    }
    var code := ErrorCode(selector) + ext;
    var lookup := Decode(c.paging, c.mem, c.tables, selector);
    if lookup.Fault? {
      return Fault(lookup.vector, lookup.code);
    }
    if lookup.value.NoDescriptor? {
      return Fault(TASK_SWITCH_FAULT, code);
    }
    var d := lookup.value.desc;
    var dpl, rpl := Dpl(d.rights), Rpl(selector);
    if seg == SS {
      if !IsSegment(d.rights) || !IsWritable(d.rights) {
        return Fault(TASK_SWITCH_FAULT, code);
      }
      if dpl != cpl || rpl != cpl {
        return Fault(TASK_SWITCH_FAULT, code);
      }
    } else {
      if !IsSegment(d.rights) || !IsReadable(d.rights) {
        return Fault(TASK_SWITCH_FAULT, code);
      }
      if !IsConforming(d.rights) && dpl < (if cpl > rpl then cpl else rpl) {
        return Fault(TASK_SWITCH_FAULT, code);
      }
    }
    if !IsPresent(d.rights) {
      return Fault(TASK_SWITCH_FAULT, code);
    }
    r := c.SetAccessedBit(selector);
    if r.Fault? {
      return;
    }
    c.SetLoaded(seg, selector, d);
    return Ok(());
  }

  lemma NullUnmarked(pg: Paging, mem: Memory, t: Tables, selector: u16)
    requires selector < 4
    ensures AccessedMemory(pg, mem, t, selector) == Ok(mem)
  {
  }

  method LoadTaskCode(c: Cpu, selector: u16, offset: u32, ext: nat) returns (r: Outcome<()>)
    modifies c`mem, c`segs, c`storedCpl, c`eip
    ensures var loading := CodeLoading(c.paging, old(c.mem), c.tables, selector, offset, ext);
            && r == loading.Void()
            && c.mem == (if loading.Ok? then loading.value.mem else old(c.mem))
            && c.segs == (if loading.Ok? then old(c.segs)[CS.Index() := loading.value.seg] else old(c.segs))
            && c.storedCpl == (if loading.Ok? then Rpl(selector) else old(c.storedCpl))
            && c.eip == (if loading.Ok? then offset else old(c.eip))
  {
    hide DecodeAt, AccessedMemory, IsReadable, IsWritable, IsCode, IsSegment, IsPresent, Dpl;
    var code := ErrorCode(selector) + ext;
    if selector < 4 {
      return Fault(TASK_SWITCH_FAULT, code);
    }
    var lookup := Decode(c.paging, c.mem, c.tables, selector);
    if lookup.Fault? {
      return Fault(lookup.vector, lookup.code);
    }
    if lookup.value.NoDescriptor? {
      return Fault(TASK_SWITCH_FAULT, code);
    }
    var d := lookup.value.desc;
    if !IsSegment(d.rights) || !IsCode(d.rights) {
      return Fault(TASK_SWITCH_FAULT, code);
    }
    var dpl, rpl := Dpl(d.rights), Rpl(selector);
    if IsConforming(d.rights) {
      if dpl > rpl {
        return Fault(TASK_SWITCH_FAULT, code);
      }
    } else if dpl != rpl {
      return Fault(TASK_SWITCH_FAULT, code);
    }
    if !IsPresent(d.rights) {
      return Fault(NOT_PRESENT, code);
    }
    if offset > d.limit {
      return Fault(TASK_SWITCH_FAULT, ext);
    }
    r := c.SetAccessedBit(selector);
    if r.Fault? {
      return;
    }
    c.SetLoaded(CS, WithRpl(selector, rpl), d);
    c.eip := offset;
    return Ok(());
  }

  /** A loaded data segment is fit for the level, whatever the descriptor says. */
  lemma TaskDataFits(seg: SegReg, selector: u16, cpl: nat, lookup: Outcome<Lookup>, ext: nat)
    requires TaskDataVerdict(seg, selector, cpl, lookup, ext).Ok?
    ensures var s := TaskDataVerdict(seg, selector, cpl, lookup, ext).value;
            s.selector == selector && if seg == SS then StackSegmentOk(s, cpl) else DataSegmentOk(s, cpl)
  {
    hide IsReadable, IsWritable, IsCode, IsSegment, IsPresent, Dpl;
  }

  lemma TaskCodeFits(selector: u16, offset: u32, lookup: Outcome<Lookup>, ext: nat)
    requires TaskCodeVerdict(selector, offset, lookup, ext).Ok?
    ensures var s := TaskCodeVerdict(selector, offset, lookup, ext).value;
            s.selector == selector && CodeSegmentOk(s, Rpl(selector))
  {
    hide IsCode, IsSegment, IsPresent, Dpl;
  }

  /** The six segments of a new task, and memory with their descriptors marked accessed. */
  datatype LoadedSegments = LoadedSegments(mem: Memory, segs: Segments)

  /** SS first, at the level of the new CS; then CS and the data segments; or the first fault. */
  function SegmentsVerdict(pg: Paging, mem: Memory, t: Tables, selectors: seq<u16>, eip: u32, ext: nat)
    : Outcome<LoadedSegments>
    requires |selectors| == 6
  {
    var cpl := Rpl(selectors[1]);
    var ss :- DataLoading(pg, mem, t, SS, selectors[2], cpl, ext);
    var cs :- CodeLoading(pg, ss.mem, t, selectors[1], eip, ext);
    var es :- DataLoading(pg, cs.mem, t, ES, selectors[0], cpl, ext);
    var ds :- DataLoading(pg, es.mem, t, DS, selectors[3], cpl, ext);
    var fs :- DataLoading(pg, ds.mem, t, FS, selectors[4], cpl, ext);
    var gs :- DataLoading(pg, fs.mem, t, GS, selectors[5], cpl, ext);
    Ok(LoadedSegments(gs.mem, [es.seg, cs.seg, ss.seg, ds.seg, fs.seg, gs.seg]))
  }

  /** Loads all six segments of the new task, or stops at the first fault. */
  method LoadSegments(c: Cpu, selectors: seq<u16>, eip: u32, ext: nat) returns (r: Outcome<()>)
    requires |selectors| == 6
    modifies c`mem, c`segs, c`storedCpl, c`eip
    ensures var loaded := SegmentsVerdict(c.paging, old(c.mem), c.tables, selectors, eip, ext);
            && r == loaded.Void()
            && (r.Ok? ==>
                  && c.mem == loaded.value.mem && c.segs == loaded.value.segs
                  && c.storedCpl == Rpl(selectors[1]) && c.eip == eip)
  {
    hide DataLoading, CodeLoading;
    var cpl := Rpl(selectors[1]);
    r := LoadTaskData(c, SS, selectors[2], cpl, ext);
    if r.Fault? {
      return;
    }
    r := LoadTaskCode(c, selectors[1], eip, ext);
    if r.Fault? {
      return;
    }
    r := LoadTaskData(c, ES, selectors[0], cpl, ext);
    if r.Fault? {
      return;
    }
    r := LoadTaskData(c, DS, selectors[3], cpl, ext);
    if r.Fault? {
      return;
    }
    r := LoadTaskData(c, FS, selectors[4], cpl, ext);
    if r.Fault? {
      return;
    }
    r := LoadTaskData(c, GS, selectors[5], cpl, ext);
    if r.Fault? {
      return;
    }
    return Ok(());
  }

  /** On success the new task is protected at the level of its CS. */
  lemma SegmentsFit(pg: Paging, mem: Memory, t: Tables, selectors: seq<u16>, eip: u32, ext: nat)
    requires |selectors| == 6 && SegmentsVerdict(pg, mem, t, selectors, eip, ext).Ok?
    ensures var segs := SegmentsVerdict(pg, mem, t, selectors, eip, ext).value.segs;
            && Protected(segs, Rpl(selectors[1]))
            && forall i :: 0 <= i < 6 ==> segs[i].selector == selectors[i]
  {
    hide Decode, AccessedMemory, TaskDataVerdict, TaskCodeVerdict, StackSegmentOk, DataSegmentOk, CodeSegmentOk;
    var cpl := Rpl(selectors[1]);
    var ss := DataLoading(pg, mem, t, SS, selectors[2], cpl, ext).value;
    TaskDataFits(SS, selectors[2], cpl, Decode(pg, mem, t, selectors[2]), ext);
    var cs := CodeLoading(pg, ss.mem, t, selectors[1], eip, ext).value;
    TaskCodeFits(selectors[1], eip, Decode(pg, ss.mem, t, selectors[1]), ext);
    var es := DataLoading(pg, cs.mem, t, ES, selectors[0], cpl, ext).value;
    TaskDataFits(ES, selectors[0], cpl, Decode(pg, cs.mem, t, selectors[0]), ext);
    var ds := DataLoading(pg, es.mem, t, DS, selectors[3], cpl, ext).value;
    TaskDataFits(DS, selectors[3], cpl, Decode(pg, es.mem, t, selectors[3]), ext);
    var fs := DataLoading(pg, ds.mem, t, FS, selectors[4], cpl, ext).value;
    TaskDataFits(FS, selectors[4], cpl, Decode(pg, ds.mem, t, selectors[4]), ext);
    TaskDataFits(GS, selectors[5], cpl, Decode(pg, fs.mem, t, selectors[5]), ext);
  }

  // ----- Entering the new task -----

  /** A present LDT descriptor. */
  predicate IsLdt(rights: u8) {
    !IsSegment(rights) && rights % 16 == 2 && IsPresent(rights)
  }

  /** The tables after LDTR was loaded from the TSS. */
  function LdtVerdict(pg: Paging, mem: Memory, t: Tables, selector: u16, ext: nat): (r: Outcome<Tables>)
    ensures r.Ok? ==> r.value.gdtBase == t.gdtBase && r.value.gdtLimit == t.gdtLimit
  {
    var code := ErrorCode(selector) + ext;
    if selector / 4 % 2 == 1 then Fault(TASK_SWITCH_FAULT, code)
    else if selector < 4 then Ok(t.(ldtr := 0, ldtrBase := 0, ldtrLimit := 0))
    else
      match DescriptorSlot(t, selector)
      case NoSlot => Fault(TASK_SWITCH_FAULT, code)
      case Slot(addr) =>
        var d :- DecodeAt(pg, mem, addr);
        if !IsLdt(d.rights) then Fault(TASK_SWITCH_FAULT, code)
        else Ok(t.(ldtr := selector, ldtrBase := d.base, ldtrLimit := d.limit))
  }

  /** The writable bits of EFLAGS bits 16 to 31: RF and VM, and AC on a 486. */
  function WritableHigh(eflags: u32, model486: bool): u16 {
    if model486 then eflags / 0x1_0000 % 8 else eflags / 0x1_0000 % 4
  }

  /** The flags that a new task starts with: a CALL sets NT. */
  function LoadedFlags(image: TaskImage, how: TaskType): u16 {
    if how == Call then SetNt(Low16(image.eflags)) else Low16(image.eflags)
  }

  predicate VmImage(image: TaskImage, model486: bool) {
    WritableHigh(image.eflags, model486) / 2 % 2 == 1
  }

  /** Loads everything of the image that is not a segment. */
  method LoadRegisters(c: Cpu, task: Task, image: TaskImage, how: TaskType)
    modifies c`task, c`cr3, c`eip, c`flags, c`eflagsHigh, c`regs, c`taskSwitched
    ensures c.task == task && c.eip == image.eip && c.regs == image.regs && c.taskSwitched
    ensures c.flags == LoadedFlags(image, how)
    ensures c.eflagsHigh == WritableHigh(image.eflags, c.model486)
    ensures c.cr3 == if Is386Tss(task.rights) && c.paging.enabled then image.cr3 else old(c.cr3)
  {
    c.task := task;
    if Is386Tss(task.rights) && c.paging.enabled {
      c.cr3 := image.cr3;
    }
    c.eip := image.eip;
    c.flags := Low16(image.eflags);
    c.eflagsHigh := WritableHigh(image.eflags, c.model486);
    c.regs := image.regs;
    if how == Call {
      c.flags := SetNt(c.flags);
    }
    c.taskSwitched := true;
  }

  function RealSegment(selector: u16, isCode: bool): Segment {
    Segment(selector, Descriptor(selector * 16, 0xFFFF, if isCode then 0x9B else 0x93, 0), true)
  }

  function RealSegments(selectors: seq<u16>): (segs: Segments)
    requires |selectors| == 6
    ensures forall i :: 0 <= i < 6 ==> segs[i].selector == selectors[i]
  {
    seq(6, i requires 0 <= i < 6 => RealSegment(selectors[i], i == CS.Index()))
  }

  /** Loads the selectors before any descriptor is checked; a virtual-8086 task is complete then. */
  method LoadSelectors(c: Cpu, selectors: seq<u16>)
    requires |selectors| == 6
    modifies c`segs, c`storedCpl, c`eip
    ensures forall i :: 0 <= i < 6 ==> c.segs[i].selector == selectors[i]
    ensures c.Vm() ==> c.segs == RealSegments(selectors)
    ensures c.eip == if c.Vm() then Low16(old(c.eip)) else old(c.eip)
    ensures c.storedCpl == if c.Vm() then 0 else Rpl(selectors[1])
  {
    if c.Vm() {
      c.segs := RealSegments(selectors);
      c.storedCpl := 0;
      c.eip := Low16(c.eip);
    } else {
      c.segs := [
        NullSegment(selectors[0]), c.segs[1].(selector := selectors[1]), c.segs[2].(selector := selectors[2]),
        NullSegment(selectors[3]), NullSegment(selectors[4]), NullSegment(selectors[5])];
      c.storedCpl := Rpl(selectors[1]);
    }
  }

  method LoadLdt(c: Cpu, selector: u16, ext: nat) returns (r: Outcome<()>)
    modifies c`tables
    ensures var verdict := LdtVerdict(c.paging, c.mem, old(c.tables), selector, ext);
            r == verdict.Void() && c.tables == if verdict.Ok? then verdict.value else old(c.tables)
  {
    hide DecodeAt;
    var verdict := LdtVerdict(c.paging, c.mem, c.tables, selector, ext);
    if verdict.Fault? {
      return Fault(verdict.vector, verdict.code);
    }
    c.tables := verdict.value;
    return Ok(());
  }

  /** The T bit of a 386 TSS. */
  function TrapBit(pg: Paging, mem: Memory, n: NewTask): Outcome<bool> {
    if !Is386Tss(n.desc.rights) then Ok(false)
    else
      var word :- ReadWord(pg, mem, Plus(n.desc.base, 100), false);
      Ok(word % 2 == 1)
  }

  /** Memory, segments and tables of a new task whose descriptors all passed. */
  datatype Fitted = Fitted(mem: Memory, segs: Segments, tables: Tables)

  /** LDTR, then, except for a virtual-8086 task, the segments; or the first fault. */
  function FitVerdict(pg: Paging, mem: Memory, t: Tables, image: TaskImage, vm: bool, ext: nat): Outcome<Fitted>
    requires |image.selectors| == 6
  {
    var tables :- LdtVerdict(pg, mem, t, image.ldt, ext);
    if vm then Ok(Fitted(mem, RealSegments(image.selectors), tables))
    else
      var loaded :- SegmentsVerdict(pg, mem, tables, image.selectors, image.eip, ext);
      Ok(Fitted(loaded.mem, loaded.segs, tables))
  }

  /** The level that a new task runs at; in virtual-8086 mode it is 3 whatever is stored. */
  function TaskCpl(image: TaskImage, vm: bool): nat
    requires |image.selectors| == 6
  {
    if vm then 0 else Rpl(image.selectors[1])
  }

  function TaskEip(image: TaskImage, vm: bool): u32 {
    if vm then Low16(image.eip) else image.eip
  }

  /** Loads everything of the image that names a descriptor. */
  method FitTask(c: Cpu, image: TaskImage, ext: nat) returns (r: Outcome<()>)
    requires |image.selectors| == 6 && c.eip == image.eip
    modifies c`mem, c`segs, c`storedCpl, c`eip, c`tables
    ensures var fitted := FitVerdict(c.paging, old(c.mem), old(c.tables), image, c.Vm(), ext);
            && r == fitted.Void()
            && (r.Ok? ==>
                  && c.mem == fitted.value.mem && c.segs == fitted.value.segs && c.tables == fitted.value.tables
                  && c.storedCpl == TaskCpl(image, c.Vm()) && c.eip == TaskEip(image, c.Vm()))
  {
    hide LdtVerdict, SegmentsVerdict, RealSegments, Low16;
    LoadSelectors(c, image.selectors);
    r := LoadLdt(c, image.ldt, ext);
    if r.Fault? {
      return;
    }
    if !c.Vm() {
      r := LoadSegments(c, image.selectors, image.eip, ext);
      if r.Fault? {
        return;
      }
    }
    return Ok(());
  }

  /** A new task as entered: what its TSS held, what its descriptors gave, and whether it traps first. */
  datatype Entered = Entered(image: TaskImage, fitted: Fitted, trap: bool)

  /** What entering the task yields, or its first fault, in the order of the loads. */
  function EnterVerdict(pg: Paging, model486: bool, mem: Memory, t: Tables, n: NewTask, ext: nat)
    : (r: Outcome<Entered>)
    ensures r.Ok? ==> |r.value.image.selectors| == 6
  {
    var image :- ImageAt(pg, mem, n.desc.base, Is386Tss(n.desc.rights));
    var trap :- TrapBit(pg, mem, n);
    var fitted :- FitVerdict(pg, mem, t, image, VmImage(image, model486), ext);
    Ok(Entered(image, fitted, trap))
  }

  function EnteredCpl(e: Entered, model486: bool): nat
    requires |e.image.selectors| == 6
  {
    TaskCpl(e.image, VmImage(e.image, model486))
  }

  /** The state in which the new task starts. */
  function StateAfter(e: Entered, task: Task, how: TaskType, model486: bool): State {
    State(
      e.fitted.mem, e.fitted.tables, task, e.fitted.segs, e.image.regs, TaskEip(e.image, VmImage(e.image, model486)),
      LoadedFlags(e.image, how), WritableHigh(e.image.eflags, model486))
  }

  /** Loads the whole image of the new task; from the moment its TSS is read, the new task is the current one. */
  method EnterTask(c: Cpu, selector: u16, n: NewTask, rights: u8, how: TaskType, ext: nat) returns (r: Outcome<()>)
    requires c.supervisorOverride && Is386Tss(rights) == Is386Tss(n.desc.rights)
    modifies c
    ensures c.supervisorOverride
    ensures var entered := EnterVerdict(c.paging, c.model486, old(c.mem), old(c.tables), n, ext);
            var task := Task(selector, n.desc.base, n.desc.limit, rights);
            && r == entered.Void()
            && (r.Ok? ==>
                  && StateOf(c) == StateAfter(entered.value, task, how, c.model486)
                  && c.storedCpl == EnteredCpl(entered.value, c.model486) && c.taskSwitched
                  && c.debugTrapPending == (old(c.debugTrapPending) || entered.value.trap))
            && (r.Fault? ==> c.debugTrapPending == old(c.debugTrapPending))
            && c.task == if ImageAt(c.paging, old(c.mem), n.desc.base, Is386Tss(n.desc.rights)).Ok? then task
                         else old(c.task)
  {
    hide ImageAt, ReadLinear, FitVerdict, LoadedFlags, WritableHigh, Is386Tss, Plus, TaskCpl, TaskEip;
    var loaded := LoadImage(c, n.desc.base, Is386Tss(n.desc.rights));
    if loaded.Fault? {
      return Fault(loaded.vector, loaded.code);
    }
    var image := loaded.value;
    LoadRegisters(c, Task(selector, n.desc.base, n.desc.limit, rights), image, how);
    var trap := false;
    if Is386Tss(n.desc.rights) {
      var word := c.Read(Plus(n.desc.base, 100), 2);
      if word.Fault? {
        return Fault(word.vector, word.code);
      }
      trap := word.value % 2 == 1;
    }
    r := FitTask(c, image, ext);
    if r.Fault? {
      return;
    }
    c.debugTrapPending := c.debugTrapPending || trap;
    return Ok(());
  }

  // ----- The switch -----

  /** The rights that TR gets: the descriptor's, marked busy. */
  function NewRights(rights: u8, how: TaskType): u8 {
    if how == Iret then rights else SetBusy(rights)
  }

  /** A completed switch: the new task, memory when the old task was left, and the new task as entered. */
  datatype Switched = Switched(n: NewTask, left: Memory, entered: Entered)

  /** What a switch yields, or its first fault. */
  function SwitchVerdict(
    pg: Paging, model486: bool, s: State, selector: u16, how: TaskType, ext: nat, resume: bool): (r: Outcome<Switched>)
    ensures r.Ok? ==> |r.value.entered.image.selectors| == 6
  {
    var n :- TaskAt(pg, s.mem, s.tables, selector, how, ext);
    var _ :- PreTranslation(pg, s.tables, s.task, n, how);
    var left :- LeftMemory(pg, s, n, how, resume);
    var entered :- EnterVerdict(pg, model486, left, s.tables, n, ext);
    Ok(Switched(n, left, entered))
  }

  /** The descriptor's values that TR caches for the new task. */
  function TaskOf(n: NewTask, selector: u16, how: TaskType): Task {
    Task(selector, n.desc.base, n.desc.limit, NewRights(n.desc.rights, how))
  }

  function After(v: Switched, selector: u16, how: TaskType, model486: bool): State {
    StateAfter(v.entered, TaskOf(v.n, selector, how), how, model486)
  }

  /** The refusals that precede every write. */
  function Accepted(pg: Paging, s: State, selector: u16, how: TaskType, ext: nat): Outcome<NewTask> {
    var n :- TaskAt(pg, s.mem, s.tables, selector, how, ext);
    var _ :- PreTranslation(pg, s.tables, s.task, n, how);
    Ok(n)
  }

  /**
    A task switch. A refused selector or a failed translation changes nothing; after that the old
    task is always left as a whole, and only entering the new one can fault.
   */
  method SwitchTask(c: Cpu, selector: u16, how: TaskType, ext: nat, resume: bool) returns (r: Outcome<()>)
    modifies c
    ensures c.supervisorOverride == old(c.supervisorOverride)
    ensures var v := SwitchVerdict(c.paging, c.model486, old(StateOf(c)), selector, how, ext, resume);
            && r == v.Void()
            && (r.Ok? ==>
                  && StateOf(c) == After(v.value, selector, how, c.model486)
                  && c.storedCpl == EnteredCpl(v.value.entered, c.model486) && c.taskSwitched
                  && c.debugTrapPending == (old(c.debugTrapPending) || v.value.entered.trap))
            && (r.Fault? ==> c.debugTrapPending == old(c.debugTrapPending))
    ensures var accepted := Accepted(c.paging, old(StateOf(c)), selector, how, ext);
            if accepted.Fault? then
              && r == accepted.Void() && StateOf(c) == old(StateOf(c))
              && c.storedCpl == old(c.storedCpl) && c.cr3 == old(c.cr3) && c.taskSwitched == old(c.taskSwitched)
            else
              var n := accepted.value;
              var left := LeftMemory(c.paging, old(StateOf(c)), n, how, resume);
              && left.Ok?
              && c.task == if ImageAt(c.paging, left.value, n.desc.base, Is386Tss(n.desc.rights)).Ok?
                           then TaskOf(n, selector, how) else old(c.task)
  {
    hide DecodeAt, TaskAt, PreTranslation, LeftMemory, EnterVerdict, StateAfter, ImageAt, SystemByte, EnteredCpl;
    var callerOverride := c.supervisorOverride;
    ghost var s := StateOf(c);
    c.supervisorOverride := true;
    var accepted := ValidateTask(c, selector, how, ext);
    if accepted.Fault? {
      c.supervisorOverride := callerOverride;
      return Fault(accepted.vector, accepted.code);
    }
    var n := accepted.value;
    AcceptedRights(c.paging, c.mem, c.tables, selector, how, ext);
    r := PreTranslate(c, n, how);
    if r.Ok? {
      LeaveSucceeds(c.paging, s, n, how, resume);
      var left := LeaveTask(c, n, how, resume);
      r := EnterTask(c, selector, n, left.value, how, ext);
    }
    c.supervisorOverride := callerOverride;
  }

  /** A validated task keeps its TSS type when it is marked busy; the target of an IRET is busy already. */
  lemma AcceptedRights(pg: Paging, mem: Memory, t: Tables, selector: u16, how: TaskType, ext: nat)
    requires TaskAt(pg, mem, t, selector, how, ext).Ok?
    ensures var n := TaskAt(pg, mem, t, selector, how, ext).value;
            && Is386Tss(NewRights(n.desc.rights, how)) == Is386Tss(n.desc.rights)
            && TaskOf(n, selector, how).Is386() == Is386Tss(n.desc.rights)
            && (BusyAt(pg, mem, n.addr) <==> how == Iret)
            && DecodeAt(pg, mem, n.addr).Ok?
            && SystemByte(pg, mem, Add32(n.addr, 5)) == Ok(n.desc.rights)
  {
    hide DecodeAt, SystemByte, DescriptorSlot;
    DecodedRights(pg, mem, TaskAt(pg, mem, t, selector, how, ext).value.addr);
  }
}
