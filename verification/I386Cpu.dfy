/**
  Segment caches, access checks, split accesses and the stack of
  crates/cpu/src/i386.rs, in protected mode.
 */
module I386Cpu {
  import opened I386Memory

  datatype SegReg = ES | CS | SS | DS | FS | GS {
    function Index(): (i: nat)
      ensures i < 6
    {
      match this
      case ES => 0
      case CS => 1
      case SS => 2
      case DS => 3
      case FS => 4
      case GS => 5
    }
  }

  /** A decoded segment descriptor. */
  datatype Descriptor = Descriptor(base: u32, limit: u32, rights: u8, granularity: u8)

  // ----- The access rights byte -----

  function Dpl(rights: u8): (d: nat)
    ensures d <= 3
  {
    rights / 32 % 4
  }

  predicate IsSegment(rights: u8) { rights / 16 % 2 == 1 }

  predicate IsCode(rights: u8) { rights / 8 % 2 == 1 }

  predicate IsConforming(rights: u8) { IsCode(rights) && rights / 4 % 2 == 1 }

  predicate IsReadable(rights: u8) { !IsCode(rights) || rights / 2 % 2 == 1 }

  predicate IsWritable(rights: u8) { !IsCode(rights) && rights / 2 % 2 == 1 }

  predicate IsExpandDown(rights: u8) { !IsCode(rights) && rights / 4 % 2 == 1 }

  predicate IsPresent(rights: u8) { rights >= 128 }

  /** The D/B bit. */
  predicate IsBig(granularity: u8) { granularity / 64 % 2 == 1 }

  function Rpl(selector: u16): (p: nat)
    ensures p <= 3
  {
    selector % 4
  }

  function ErrorCode(selector: u16): u16 { selector - selector % 4 }

  // ----- Segment caches and registers -----

  /** A segment register with its hidden descriptor cache; an invalid one is unusable. */
  datatype Segment = Segment(selector: u16, desc: Descriptor, valid: bool)

  function NullSegment(selector: u16): Segment {
    Segment(selector, Descriptor(0, 0, 0, 0), false)
  }

  type Segments = s: seq<Segment> | |s| == 6 witness seq(6, _ => NullSegment(0))

  /** EAX, ECX, EDX, EBX, ESP, EBP, ESI, EDI. */
  type Registers = s: seq<u32> | |s| == 8 witness seq(8, _ => 0)

  const ESP: nat := 4

  const TASK_SWITCH_FAULT: nat := 10
  const NOT_PRESENT: nat := 11
  const STACK_FAULT: nat := 12
  const PROTECTION: nat := 13
  const ALIGNMENT_CHECK: nat := 17

  // ----- The stack pointer under a stack segment -----

  function StackPointer(ss: Segment, regs: Registers): u32 {
    if IsBig(ss.desc.granularity) then regs[ESP] else regs[ESP] % 0x1_0000
  }

  /** Replaces ESP, or only SP under a 16-bit stack segment. */
  function WithStackPointer(ss: Segment, regs: Registers, sp: u32): Registers {
    if IsBig(ss.desc.granularity) then regs[ESP := sp]
    else regs[ESP := regs[ESP] - regs[ESP] % 0x1_0000 + sp % 0x1_0000]
  }

  /** The stack offset `n` bytes below `sp`. */
  function Below(ss: Segment, sp: u32, n: u32): u32 {
    if IsBig(ss.desc.granularity) then Sub32(sp, n) else Sub32(sp, n) % 0x1_0000
  }

  /** Restoring the pointer after going down and up again gives back the old registers. */
  lemma DownAndUp(ss: Segment, regs: Registers, n: u32)
    requires n <= 4
    ensures var down := WithStackPointer(ss, regs, Below(ss, StackPointer(ss, regs), n));
            && StackPointer(ss, down) == Below(ss, StackPointer(ss, regs), n)
            && WithStackPointer(ss, down, Add32(StackPointer(ss, down), n)) == regs
  {
    var r := regs[ESP];
    if !IsBig(ss.desc.granularity) {
      SixteenBitDownAndUp(r, n);
    }
    hide IsBig;
    assert regs[ESP := Below(ss, StackPointer(ss, regs), n)][ESP := r] == regs;
  }

  lemma SixteenBitDownAndUp(r: u32, n: nat)
    requires n <= 4
    ensures var sp := Sub32(r % 0x1_0000, n) % 0x1_0000;
            var down := r - r % 0x1_0000 + sp;
            && down % 0x1_0000 == sp && down - down % 0x1_0000 + Add32(sp, n) % 0x1_0000 == r
  {
    var lo, hi := r % 0x1_0000, r / 0x1_0000;
    assert r == 0x1_0000 * hi + lo;
    var sp := Sub32(lo, n) % 0x1_0000;
    assert sp == if lo >= n then lo - n else lo - n + 0x1_0000;
    assert (0x1_0000 * hi + sp) % 0x1_0000 == sp;
  }

  // ----- The limit and rights checks of one access -----

  function FaultVector(seg: SegReg): nat {
    if seg == SS then STACK_FAULT else PROTECTION
  }

  /** The bytes `offset` to `offset + size - 1` lie within the limit. */
  predicate WithinLimit(d: Descriptor, offset: u32, size: nat)
    requires size > 0
  {
    if IsExpandDown(d.rights) then
      d.limit < offset && offset + size - 1 <= (if IsBig(d.granularity) then 0xFFFF_FFFF else 0xFFFF)
    else offset + size - 1 <= d.limit
  }

  /** The checks that precede an access of `size` bytes (1, 2 or 4). `aligned`: #AC is armed. */
  function CheckAccess(seg: SegReg, s: Segment, offset: u32, size: nat, write: bool, aligned: bool): (r: Outcome<()>)
    requires size == 1 || size == 2 || size == 4
    ensures r.Ok? <==>
      && s.valid && WithinLimit(s.desc, offset, size)
      && (if write then IsWritable(s.desc.rights) else IsReadable(s.desc.rights))
      && (aligned ==> Add32(s.desc.base, offset) % size == 0)
    ensures r.Fault? ==> r.code == 0 && (r.vector == FaultVector(seg) || r.vector == ALIGNMENT_CHECK)
  {
    var d := s.desc;
    if !s.valid then Fault(FaultVector(seg), 0)
    else
      var wrapped := offset + size - 1 > 0xFFFF_FFFF;
      var end := if wrapped then 0xFFFF_FFFF else offset + size - 1;
      var outside :=
        if IsExpandDown(d.rights) then
          var upper := if IsBig(d.granularity) then 0xFFFF_FFFF else 0xFFFF;
          offset <= d.limit || end > upper || wrapped
        else end > d.limit || wrapped;
      if outside then Fault(FaultVector(seg), 0)
      else if write && !IsWritable(d.rights) then Fault(FaultVector(seg), 0)
      else if !write && !IsReadable(d.rights) then Fault(FaultVector(seg), 0)
      else if aligned && Add32(d.base, offset) % size != 0 then Fault(ALIGNMENT_CHECK, 0)
      else Ok(())
  }

  /** The bytes of an access by segment, or the fault of its first failing check. */
  function SpanOf(
    pg: Paging, seg: SegReg, s: Segment, offset: u32, size: nat, write: bool, aligned: bool, user: bool)
    : Outcome<seq<nat>>
    requires size == 1 || size == 2 || size == 4
  {
    var _ :- CheckAccess(seg, s, offset, size, write, aligned);
    Addresses(pg, Add32(s.desc.base, offset), size, write, user)
  }

  // ----- Registers that locate tables and the current task -----

  datatype Tables = Tables(gdtBase: u32, gdtLimit: u16, ldtr: u16, ldtrBase: u32, ldtrLimit: u32)

  datatype Task = Task(tr: u16, base: u32, limit: u32, rights: u8) {
    predicate Is386() {
      rights % 16 >= 9
    }
  }

  /** The linear address of a selector's descriptor; null and out-of-table selectors have none. */
  datatype TableSlot = NoSlot | Slot(addr: u32)

  function DescriptorSlot(t: Tables, selector: u16): TableSlot {
    if selector < 4 then NoSlot
    else
      var index := selector - selector % 8;
      var base, limit := if selector / 4 % 2 == 1 then t.ldtrBase else t.gdtBase,
                         if selector / 4 % 2 == 1 then t.ldtrLimit else t.gdtLimit;
      if index + 7 > limit then NoSlot else Slot(Add32(base, index))
  }

  class Cpu {
    const paging: Paging
    const model486: bool
    const alignmentMask: bool  // CR0.AM
    var mem: Memory
    var segs: Segments
    var regs: Registers
    var eip: u32
    var storedCpl: nat
    var flags: u16
    var eflagsHigh: u16  // EFLAGS bits 16 to 31
    var tables: Tables
    var task: Task
    var supervisorOverride: bool
    var taskSwitched: bool  // CR0.TS
    var cr3: u32
    var debugTrapPending: bool

    constructor (
      paging: Paging, model486: bool, alignmentMask: bool, mem: Memory, segs: Segments, tables: Tables, task: Task)
      ensures this.paging == paging && this.model486 == model486 && this.alignmentMask == alignmentMask
      ensures this.mem == mem && this.segs == segs && this.tables == tables && this.task == task
      ensures storedCpl == 0 && flags == 2 && eflagsHigh == 0 && !supervisorOverride
    {
      this.paging := paging;
      this.model486 := model486;
      this.alignmentMask := alignmentMask;
      this.mem := mem;
      this.segs := segs;
      this.tables := tables;
      this.task := task;
      regs := seq(8, _ => 0);
      eip := 0;
      storedCpl := 0;
      flags := 2;
      eflagsHigh := 0;
      supervisorOverride := false;
      taskSwitched := false;
      cr3 := 0;
      debugTrapPending := false;
    }

    function Seg(seg: SegReg): Segment
      reads this`segs
    {
      segs[seg.Index()]
    }

    /** Loads a segment register and its cache; a load of CS sets the privilege level. */
    method SetLoaded(seg: SegReg, selector: u16, d: Descriptor)
      modifies this`segs, this`storedCpl
      ensures segs == old(segs)[seg.Index() := Segment(selector, d, true)]
      ensures storedCpl == if seg == CS then Rpl(selector) else old(storedCpl)
    {
      segs := segs[seg.Index() := Segment(selector, d, true)];
      if seg == CS {
        storedCpl := Rpl(selector);
      }
    }

    method SetNull(seg: SegReg, selector: u16)
      modifies this`segs
      ensures segs == old(segs)[seg.Index() := NullSegment(selector)]
    {
      segs := segs[seg.Index() := NullSegment(selector)];
    }

    /** EFLAGS.VM. */
    predicate Vm()
      reads this`eflagsHigh
    {
      eflagsHigh / 2 % 2 == 1
    }

    function Cpl(): nat
      reads this`eflagsHigh, this`storedCpl
    {
      if Vm() then 3 else storedCpl
    }

    /** Page accesses are user accesses at level 3 unless a system access overrides that. */
    predicate User()
      reads this`eflagsHigh, this`storedCpl, this`supervisorOverride
    {
      Cpl() == 3 && !supervisorOverride
    }

    /** #AC is armed: a 486 with CR0.AM and EFLAGS.AC set, at level 3. */
    predicate AlignmentActive()
      reads this`eflagsHigh, this`storedCpl
    {
      model486 && alignmentMask && eflagsHigh / 4 % 2 == 1 && Cpl() == 3
    }

    function CheckSegmentAccess(seg: SegReg, offset: u32, size: nat, write: bool): Outcome<()>
      requires size == 1 || size == 2 || size == 4
      requires !Vm()
      reads this`segs, this`eflagsHigh, this`storedCpl
    {
      CheckAccess(seg, Seg(seg), offset, size, write, AlignmentActive())
    }

    /**
      Translates an access of `size` bytes: once when it stays within a page, else byte
      by byte before any byte moves.
     */
    method TranslateSpan(linear: u32, size: nat, write: bool) returns (r: Outcome<seq<nat>>)
      requires size == 1 || size == 2 || size == 4
      ensures r == Addresses(paging, linear, size, write, User())
    {
      hide Translate;
      if linear % 0x1000 <= 0x1000 - size {
        WithinPage(paging, linear, size, write, User());
        var first := Translate(paging, linear, write, User());
        if first.Fault? {
          return Fault(first.vector, first.code);
        }
        return Ok(Consecutive(first.value, size));
      }
      var addresses: seq<nat> := [];
      var i := 0;
      var l := linear;
      PrependNone(Addresses(paging, linear, size, write, User()));
      while i < size
        invariant 0 <= i <= size && |addresses| == i
        invariant Addresses(paging, linear, size, write, User())
               == Prepend(addresses, Addresses(paging, l, size - i, write, User()))
      {
        var a := Translate(paging, l, write, User());
        if a.Fault? {
          return Fault(a.vector, a.code);
        }
        PrependOne(addresses, a.value, Addresses(paging, Add32(l, 1), size - i - 1, write, User()));
        addresses := addresses + [a.value];
        l := Add32(l, 1);
        i := i + 1;
      }
      assert addresses + [] == addresses;
      return Ok(addresses);
    }

    // ----- Accesses by linear address -----

    method Read(linear: u32, size: nat) returns (r: Outcome<nat>)
      requires size == 1 || size == 2 || size == 4
      ensures r == ReadLinear(paging, mem, linear, size, User())
    {
      var span := TranslateSpan(linear, size, false);
      if span.Fault? {
        return Fault(span.vector, span.code);
      }
      return Ok(Load(mem, span.value));
    }

    /** Writes all bytes or, on a fault, none. */
    method Write(linear: u32, size: nat, value: nat) returns (r: Outcome<()>)
      requires size == 1 || size == 2 || size == 4
      modifies this`mem
      ensures var span := Addresses(paging, linear, size, true, User());
              if span.Ok? then r.Ok? && mem == Store(old(mem), span.value, value)
              else r == Fault(span.vector, span.code) && mem == old(mem)
    {
      var span := TranslateSpan(linear, size, true);
      if span.Fault? {
        return Fault(span.vector, span.code);
      }
      mem := Store(mem, span.value, value);
      return Ok(());
    }

    // ----- Accesses by segment -----

    /** What an access by segment touches: the first failing check decides the fault. */
    function SegmentSpan(seg: SegReg, offset: u32, size: nat, write: bool): Outcome<seq<nat>>
      requires size == 1 || size == 2 || size == 4
      requires !Vm()
      reads this`segs, this`eflagsHigh, this`storedCpl, this`supervisorOverride
    {
      SpanOf(paging, seg, Seg(seg), offset, size, write, AlignmentActive(), User())
    }

    /** A read by segment; `forUpdate` demands write access already for the read. */
    method ReadSegment(seg: SegReg, offset: u32, size: nat, forUpdate: bool) returns (r: Outcome<nat>)
      requires size == 1 || size == 2 || size == 4
      requires !Vm()
      ensures r == match SegmentSpan(seg, offset, size, forUpdate)
                   case Ok(addresses) => Ok(Load(mem, addresses))
                   case Fault(v, c) => Fault(v, c)
    {
      var check := CheckSegmentAccess(seg, offset, size, forUpdate);
      if check.Fault? {
        return Fault(check.vector, check.code);
      }
      var span := TranslateSpan(Add32(Seg(seg).desc.base, offset), size, forUpdate);
      if span.Fault? {
        return Fault(span.vector, span.code);
      }
      return Ok(Load(mem, span.value));
    }

    /** A write by segment changes exactly its bytes or, on a fault, nothing. */
    method WriteSegment(seg: SegReg, offset: u32, size: nat, value: nat) returns (r: Outcome<()>)
      requires size == 1 || size == 2 || size == 4
      requires !Vm()
      modifies this`mem
      ensures var span := old(SegmentSpan(seg, offset, size, true));
              if span.Ok? then r.Ok? && mem == Store(old(mem), span.value, value)
              else r == Fault(span.vector, span.code) && mem == old(mem)
    {
      var check := CheckSegmentAccess(seg, offset, size, true);
      if check.Fault? {
        return Fault(check.vector, check.code);
      }
      r := Write(Add32(Seg(seg).desc.base, offset), size, value);
    }

    // ----- The stack -----

    /** Pushes `size` bytes; the pointer and memory change together or not at all. */
    method Push(value: nat, size: nat) returns (r: Outcome<()>)
      requires size == 2 || size == 4
      requires !Vm()
      modifies this`mem, this`regs
      ensures var sp := Below(Seg(SS), StackPointer(Seg(SS), old(regs)), size);
              var span := old(SegmentSpan(SS, sp, size, true));
              if span.Ok? then
                && r.Ok? && mem == Store(old(mem), span.value, value)
                && regs == WithStackPointer(Seg(SS), old(regs), sp)
              else r == Fault(span.vector, span.code) && mem == old(mem) && regs == old(regs)
    {
      var sp := Below(Seg(SS), StackPointer(Seg(SS), regs), size);
      var check := CheckSegmentAccess(SS, sp, size, true);
      if check.Fault? {
        return Fault(check.vector, check.code);
      }
      var span := TranslateSpan(Add32(Seg(SS).desc.base, sp), size, true);
      if span.Fault? {
        return Fault(span.vector, span.code);
      }
      regs := WithStackPointer(Seg(SS), regs, sp);
      mem := Store(mem, span.value, value);
      return Ok(());
    }

    method Pop(size: nat) returns (r: Outcome<nat>)
      requires size == 2 || size == 4
      requires !Vm()
      modifies this`regs
      ensures var sp := StackPointer(Seg(SS), old(regs));
              var span := old(SegmentSpan(SS, sp, size, false));
              if span.Ok? then
                r == Ok(Load(mem, span.value)) && regs == WithStackPointer(Seg(SS), old(regs), Add32(sp, size))
              else r == Fault(span.vector, span.code) && regs == old(regs)
    {
      var sp := StackPointer(Seg(SS), regs);
      var check := CheckSegmentAccess(SS, sp, size, false);
      if check.Fault? {
        return Fault(check.vector, check.code);
      }
      var span := TranslateSpan(Add32(Seg(SS).desc.base, sp), size, false);
      if span.Fault? {
        return Fault(span.vector, span.code);
      }
      r := Ok(Load(mem, span.value));
      regs := WithStackPointer(Seg(SS), regs, Add32(sp, size));
    }

    /** Whatever can be written through a segment can be read back from the same bytes. */
    lemma WritableIsReadable(seg: SegReg, offset: u32, size: nat)
      requires size == 1 || size == 2 || size == 4
      requires !Vm() && SegmentSpan(seg, offset, size, true).Ok?
      ensures SegmentSpan(seg, offset, size, false) == SegmentSpan(seg, offset, size, true)
      ensures Distinct(SegmentSpan(seg, offset, size, true).value)
    {
      hide WithinLimit, IsCode;
      var linear := Add32(Seg(seg).desc.base, offset);
      WriteImpliesRead(paging, linear, size, User());
      AddressesDistinct(paging, linear, size, true, User());
    }

    /** A push followed by a pop of the same size returns the value and restores every register. */
    method PushThenPop(value: nat, size: nat) returns (pushed: Outcome<()>, popped: Outcome<nat>)
      requires size == 2 || size == 4
      requires !Vm() && value < Bound(size)
      modifies this`mem, this`regs
      ensures pushed.Fault? ==> mem == old(mem) && regs == old(regs)
      ensures pushed.Ok? ==> popped == Ok(value) && regs == old(regs)
    {
      hide CheckAccess, WithStackPointer, StackPointer, Below, Addresses;
      popped := Ok(0);
      ghost var sp := Below(Seg(SS), StackPointer(Seg(SS), regs), size);
      ghost var span := SegmentSpan(SS, sp, size, true);
      DownAndUp(Seg(SS), regs, size);
      if span.Ok? {
        WritableIsReadable(SS, sp, size);
        LoadStore(mem, span.value, value);
      }
      pushed := Push(value, size);
      if pushed.Ok? {
        popped := Pop(size);
      }
    }

    /** Pushes a selector into a four-byte slot. A 386SX writes all of it, the other models its lower half. */
    method PushSelector(value: u16, written: nat) returns (r: Outcome<()>)
      requires written == 2 || written == 4
      requires !Vm()
      modifies this`mem, this`regs
      ensures var sp := Below(Seg(SS), StackPointer(Seg(SS), old(regs)), 4);
              var span := old(SegmentSpan(SS, sp, written, true));
              if span.Ok? then
                && r.Ok? && mem == Store(old(mem), span.value, value)
                && regs == WithStackPointer(Seg(SS), old(regs), sp)
              else r == Fault(span.vector, span.code) && mem == old(mem) && regs == old(regs)
    {
      if written == 4 {
        r := Push(value, 4);
        return;
      }
      var sp := Below(Seg(SS), StackPointer(Seg(SS), regs), 4);
      var check := CheckSegmentAccess(SS, sp, 2, true);
      if check.Fault? {
        return Fault(check.vector, check.code);
      }
      var span := TranslateSpan(Add32(Seg(SS).desc.base, sp), 2, true);
      if span.Fault? {
        return Fault(span.vector, span.code);
      }
      regs := WithStackPointer(Seg(SS), regs, sp);
      mem := Store(mem, span.value, value);
      return Ok(());
    }

    /** Whatever the model writes, a doubleword pop has the selector in its lower half and restores every register. */
    method PushSelectorThenPop(value: u16, written: nat) returns (pushed: Outcome<()>, popped: Outcome<nat>)
      requires written == 2 || written == 4
      requires !Vm()
      modifies this`mem, this`regs
      ensures pushed.Fault? ==> mem == old(mem) && regs == old(regs)
      ensures pushed.Ok? && popped.Ok? ==> popped.value % 0x1_0000 == value && regs == old(regs)
    {
      hide CheckAccess, WithStackPointer, StackPointer, Below, Addresses, Store, Load;
      popped := Ok(0);
      ghost var sp := Below(Seg(SS), StackPointer(Seg(SS), regs), 4);
      ghost var span := SegmentSpan(SS, sp, written, true);
      ghost var read := SegmentSpan(SS, sp, 4, false);
      DownAndUp(Seg(SS), regs, 4);
      if span.Ok? && read.Ok? {
        SelectorLoads(mem, sp, value, written);
      }
      pushed := PushSelector(value, written);
      if pushed.Ok? {
        popped := Pop(4);
      }
    }

    lemma SelectorLoads(mem: Memory, sp: u32, value: u16, written: nat)
      requires written == 2 || written == 4
      requires !Vm() && SegmentSpan(SS, sp, written, true).Ok? && SegmentSpan(SS, sp, 4, false).Ok?
      ensures Load(Store(mem, SegmentSpan(SS, sp, written, true).value, value), SegmentSpan(SS, sp, 4, false).value)
              % 0x1_0000 == value
    {
      hide CheckAccess, Addresses, Store, Load;
      var linear := Add32(Seg(SS).desc.base, sp);
      var span, read := SegmentSpan(SS, sp, written, true).value, SegmentSpan(SS, sp, 4, false).value;
      WritableIsReadable(SS, sp, written);
      TwoBytesBound();
      LoadStore(mem, span, value);
      if written == 2 {
        FirstAddresses(paging, linear, 2, 4, User());
        LowWord(Store(mem, span, value), read);
      }
    }

    /** A write through a segment is what the next read through it returns, across a page split or not. */
    method WriteThenRead(seg: SegReg, offset: u32, size: nat, value: nat) returns (w: Outcome<()>, r: Outcome<nat>)
      requires size == 1 || size == 2 || size == 4
      requires !Vm() && value < Bound(size)
      modifies this`mem
      ensures w.Ok? ==> r == Ok(value)
      ensures w.Fault? ==> mem == old(mem)
    {
      hide CheckAccess, Addresses;
      ghost var span := SegmentSpan(seg, offset, size, true);
      if span.Ok? {
        WritableIsReadable(seg, offset, size);
        LoadStore(mem, span.value, value);
      }
      w := WriteSegment(seg, offset, size, value);
      r := ReadSegment(seg, offset, size, false);
    }

    // ----- Descriptors -----

    /** Sets the accessed bit of a selector's descriptor; writes only when it is clear. */
    method SetAccessedBit(selector: u16) returns (r: Outcome<()>)
      modifies this`mem
      ensures var m := AccessedMemory(paging, old(mem), tables, selector);
              if m.Ok? then r.Ok? && mem == m.value else r == Fault(m.vector, m.code) && mem == old(mem)
    {
      var slot := DescriptorSlot(tables, selector);
      if slot.NoSlot? {
        return Ok(());
      }
      var linear := Add32(slot.addr, 5);
      var readAt := Translate(paging, linear, false, false);
      if readAt.Fault? {
        return Fault(readAt.vector, readAt.code);
      }
      var rights := Peek(mem, readAt.value);
      if rights % 2 == 0 {
        var writeAt := Translate(paging, linear, true, false);
        if writeAt.Fault? {
          return Fault(writeAt.vector, writeAt.code);
        }
        mem := mem[writeAt.value := rights + 1];
      }
      return Ok(());
    }
  }

  /** One byte read as a privilege level 0 access. */
  function SystemByte(pg: Paging, mem: Memory, linear: u32): Outcome<u8> {
    var a :- Translate(pg, linear, false, false);
    Ok(Peek(mem, a))
  }

  /** The descriptor whose eight bytes start at the linear address `addr`. */
  function DecodeAt(pg: Paging, mem: Memory, addr: u32): Outcome<Descriptor> {
    var b0 :- SystemByte(pg, mem, addr);
    var b1 :- SystemByte(pg, mem, Add32(addr, 1));
    var b2 :- SystemByte(pg, mem, Add32(addr, 2));
    var b3 :- SystemByte(pg, mem, Add32(addr, 3));
    var b4 :- SystemByte(pg, mem, Add32(addr, 4));
    var rights :- SystemByte(pg, mem, Add32(addr, 5));
    var b6 :- SystemByte(pg, mem, Add32(addr, 6));
    var b7 :- SystemByte(pg, mem, Add32(addr, 7));
    var rawLimit := b0 + 0x100 * b1 + 0x1_0000 * (b6 % 16);
    var base := b2 + 0x100 * b3 + 0x1_0000 * b4 + 0x100_0000 * b7;
    Ok(Descriptor(base, if b6 >= 128 then rawLimit * 0x1000 + 0xFFF else rawLimit, rights, b6))
  }

  /** The descriptor of a selector, or `NoDescriptor` for a selector without a table slot. */
  datatype Lookup = NoDescriptor | Found(desc: Descriptor)

  function Decode(pg: Paging, mem: Memory, t: Tables, selector: u16): Outcome<Lookup> {
    match DescriptorSlot(t, selector)
    case NoSlot => Ok(NoDescriptor)
    case Slot(addr) =>
      var d :- DecodeAt(pg, mem, addr);
      Ok(Found(d))
  }

  /** Memory after the accessed bit of a selector's descriptor was set. */
  function AccessedMemory(pg: Paging, mem: Memory, t: Tables, selector: u16): Outcome<Memory> {
    match DescriptorSlot(t, selector)
    case NoSlot => Ok(mem)
    case Slot(addr) =>
      var a :- Translate(pg, Add32(addr, 5), false, false);
      if Peek(mem, a) % 2 == 1 then Ok(mem)
      else
        var w :- Translate(pg, Add32(addr, 5), true, false);
        Ok(mem[w := Peek(mem, a) + 1])
  }

  function Prepend(s: seq<nat>, r: Outcome<seq<nat>>): Outcome<seq<nat>> {
    match r
    case Ok(rest) => Ok(s + rest)
    case Fault(v, c) => Fault(v, c)
  }

  lemma PrependNone(r: Outcome<seq<nat>>)
    ensures Prepend([], r) == r
  {
    if r.Ok? {
      assert [] + r.value == r.value;
    }
  }

  lemma PrependOne(s: seq<nat>, a: nat, r: Outcome<seq<nat>>)
    ensures Prepend(s, Prepend([a], r)) == Prepend(s + [a], r)
  {
    if r.Ok? {
      assert s + ([a] + r.value) == s + [a] + r.value;
    }
  }

  lemma TwoBytesBound()
    ensures Bound(2) == 0x1_0000 && Bound(4) == 0x1_0000_0000
  {
    assert Bound(4) == 0x100 * Bound(3) && Bound(3) == 0x100 * Bound(2);
  }

  /** A shorter access touches the first of the longer one's addresses. */
  lemma {:induction false} FirstAddresses(pg: Paging, linear: u32, k: nat, n: nat, user: bool)
    requires k <= n && Addresses(pg, linear, n, false, user).Ok?
    ensures Addresses(pg, linear, k, false, user) == Ok(Addresses(pg, linear, n, false, user).value[..k])
    decreases k
  {
    hide Translate;
    if k == 0 {
      assert Addresses(pg, linear, n, false, user).value[..0] == [];
    } else {
      FirstAddresses(pg, Add32(linear, 1), k - 1, n - 1, user);
      var rest := Addresses(pg, Add32(linear, 1), n - 1, false, user).value;
      var a := Translate(pg, linear, false, user).value;
      assert ([a] + rest)[..k] == [a] + rest[..k - 1];
    }
  }

  lemma LowWord(mem: Memory, addresses: seq<nat>)
    requires |addresses| == 4
    ensures Load(mem, addresses) % 0x1_0000 == Load(mem, addresses[..2])
  {
    var high := Load(mem, addresses[1..][1..]);
    assert addresses[..2][1..] == [addresses[1]] && [addresses[1]][1..] == [];
    assert Load(mem, addresses[..2]) == Peek(mem, addresses[0]) + 0x100 * Load(mem, [addresses[1]]);
    assert Load(mem, [addresses[1]]) == Peek(mem, addresses[1]) + 0x100 * Load(mem, []);
    assert Load(mem, addresses) == Load(mem, addresses[..2]) + 0x1_0000 * high;
    TwoBytesBound();
    LowHalf(Load(mem, addresses[..2]), high);
  }

  lemma LowHalf(low: nat, high: nat)
    requires low < 0x1_0000
    ensures (low + 0x1_0000 * high) % 0x1_0000 == low
  {
  }
}
