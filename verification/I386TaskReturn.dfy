/**
  What the task switches of crates/cpu/src/i386.rs preserve: the saved state of the task
  that was left, the busy bits, and the way back through the link of the new task.
 */
module I386TaskReturn {
  import opened I386Memory
  import opened I386Cpu
  import opened I386Protection
  import opened I386TaskImage
  import opened I386Tasks

  // ----- What leaving a task does to memory -----

  /** The task that was left is in its TSS. */
  ghost predicate Saved(pg: Paging, mem: Memory, s: State, how: TaskType, resume: bool) {
    ImageHolds(pg, mem, s.task.base, s.task.Is386(), s.General(how, resume), s.Saves())
  }

  ghost function OldImage(pg: Paging, s: State): set<nat> {
    ImageBytes(pg, s.task.base, s.task.Is386())
  }

  lemma SavesFit(s: State, how: TaskType, resume: bool)
    ensures forall v :: v in s.General(how, resume) ==> v < Bound(GeneralFields(0, s.task.Is386()).size)
    ensures forall v :: v in s.Saves() ==> v < Bound(2)
  {
    hide GeneralValues, SelectorValues, EflagsImage;
    ValuesFit(s.task.Is386(), s.eip, s.SavedEflags(how, resume), s.regs, s.segs);
  }

  /** The memories between the four writes of a switch, each of which changes only its own bytes. */
  lemma LeftInSteps(pg: Paging, s: State, n: NewTask, how: TaskType, resume: bool)
    returns (marked: Memory, idled: Memory, saved: Memory)
    requires LeftMemory(pg, s, n, how, resume).Ok?
    ensures MarkedMemory(pg, s.mem, n.addr, how) == Ok(marked)
    ensures IdledMemory(pg, marked, s.Current(), how) == Ok(idled)
    ensures LinkedMemory(pg, saved, n.desc.base, s.task.tr, how) == LeftMemory(pg, s, n, how, resume)
    ensures OnlyChanged(s.mem, marked, RightsByte(pg, n.addr))
    ensures OnlyChanged(marked, idled, IdleByte(pg, s.Current(), how))
    ensures OnlyChanged(idled, saved, OldImage(pg, s)) && Saved(pg, saved, s, how, resume)
    ensures OnlyChanged(saved, LeftMemory(pg, s, n, how, resume).value, LinkBytes(pg, n.desc.base, how))
  {
    hide OnlyChanged, RightsByte, ImageBytes, ImageHolds, GeneralValues, SelectorValues, DescriptorSlot, SavedMemory,
         MarkedMemory, IdledMemory, LinkedMemory, LinkBytes, IdleByte, EflagsImage;
    marked := MarkedMemory(pg, s.mem, n.addr, how).value;
    MarkedChanges(pg, s.mem, n.addr, how);
    idled := IdledMemory(pg, marked, s.Current(), how).value;
    IdledChanges(pg, marked, s.Current(), how);
    saved := SavedMemory(pg, idled, s.task.base, s.task.Is386(), s.General(how, resume), s.Saves()).value;
    SavesFit(s, how, resume);
    SavedHolds(pg, idled, s.task.base, s.task.Is386(), s.General(how, resume), s.Saves());
    LinkedChanges(pg, saved, n.desc.base, s.task.tr, how);
  }

  lemma LeftChanges(pg: Paging, s: State, n: NewTask, how: TaskType, resume: bool)
    requires LeftMemory(pg, s, n, how, resume).Ok?
    ensures OnlyChanged(s.mem, LeftMemory(pg, s, n, how, resume).value, LeaveBytes(pg, s, n, how))
  {
    hide OnlyChanged, RightsByte, ImageBytes, DescriptorSlot, MarkedMemory, IdledMemory, LinkedMemory, LinkBytes,
         IdleByte, LeftMemory, Saved;
    var all := LeaveBytes(pg, s, n, how);
    var marked, idled, saved := LeftInSteps(pg, s, n, how, resume);
    Grow(s.mem, marked, RightsByte(pg, n.addr), all);
    Extend(s.mem, marked, idled, IdleByte(pg, s.Current(), how), all);
    Extend(s.mem, idled, saved, OldImage(pg, s), all);
    Extend(s.mem, saved, LeftMemory(pg, s, n, how, resume).value, LinkBytes(pg, n.desc.base, how), all);
  }

  /** The old task's image survives the back link, and the back link names the old task. */
  lemma LeftSaves(pg: Paging, s: State, n: NewTask, how: TaskType, resume: bool)
    requires LeftMemory(pg, s, n, how, resume).Ok?
    ensures OldImage(pg, s) !! LinkBytes(pg, n.desc.base, how) ==>
      Saved(pg, LeftMemory(pg, s, n, how, resume).value, s, how, resume)
    ensures how == Call ==>
      ReadWord(pg, LeftMemory(pg, s, n, how, resume).value, n.desc.base, false) == Ok(s.task.tr)
  {
    hide OnlyChanged, ImageBytes, ImageHolds, GeneralValues, SelectorValues, DescriptorSlot, MarkedMemory, IdledMemory,
         LinkedMemory, LinkBytes, EflagsImage, LeftMemory, ReadLinear;
    var marked, idled, saved := LeftInSteps(pg, s, n, how, resume);
    LinkedChanges(pg, saved, n.desc.base, s.task.tr, how);
    if OldImage(pg, s) !! LinkBytes(pg, n.desc.base, how) {
      ImageUnchanged(
        pg, saved, LeftMemory(pg, s, n, how, resume).value, s.task.base, s.task.Is386(), s.General(how, resume),
        s.Saves(), LinkBytes(pg, n.desc.base, how));
    }
  }

  // ----- Busy bits -----

  /** What a switch writes after it moved the busy bits keeps away from the rights byte at `addr`. */
  ghost predicate RightsApart(pg: Paging, s: State, n: NewTask, how: TaskType, addr: u32) {
    RightsByte(pg, addr) !! OldImage(pg, s) && RightsByte(pg, addr) !! LinkBytes(pg, n.desc.base, how)
  }

  /** Two descriptors either share their rights byte or do not touch each other's. */
  lemma SameRightsByte(pg: Paging, mem: Memory, mem': Memory, addr: u32, other: u32)
    requires OnlyChanged(mem, mem', RightsByte(pg, other)) && BusyAt(pg, mem, addr)
    requires RightsByte(pg, other) != {} && !BusyAt(pg, mem', other)
    ensures BusyAt(pg, mem', addr) <==> RightsByte(pg, addr) !! RightsByte(pg, other)
  {
    hide Translate;
    if RightsByte(pg, addr) !! RightsByte(pg, other) {
      BusyUnchanged(pg, mem, mem', addr, RightsByte(pg, other));
    } else {
      RightsByteIs(pg, addr, Translate(pg, Add32(addr, 5), false, false).value);
      if Translate(pg, Add32(other, 5), false, false).Ok? {
        RightsByteIs(pg, other, Translate(pg, Add32(other, 5), false, false).value);
      }
    }
  }

  /** When the old task has been left, the new one is busy unless the switch cleared the very bit it set or checked. */
  lemma LeftBusy(pg: Paging, s: State, n: NewTask, how: TaskType, resume: bool)
    requires LeftMemory(pg, s, n, how, resume).Ok? && (how == Iret ==> BusyAt(pg, s.mem, n.addr))
    requires RightsApart(pg, s, n, how, n.addr)
    ensures BusyAt(pg, LeftMemory(pg, s, n, how, resume).value, n.addr)
       <==> RightsByte(pg, n.addr) !! IdleByte(pg, s.Current(), how)
  {
    hide OnlyChanged, RightsByte, ImageBytes, DescriptorSlot, MarkedMemory, IdledMemory, LinkedMemory, LinkBytes,
         BusyAt, LeftMemory, Saved;
    var marked, idled, saved := LeftInSteps(pg, s, n, how, resume);
    MarkedChanges(pg, s.mem, n.addr, how);
    if how == Iret {
      IretMarksNothing(pg, s.mem, n.addr, how);
    }
    IdledChanges(pg, marked, s.Current(), how);
    if how != Call && s.Current().Slot? {
      SameRightsByte(pg, marked, idled, n.addr, s.Current().addr);
    } else {
      BusyUnchanged(pg, marked, idled, n.addr, IdleByte(pg, s.Current(), how));
    }
    BusyUnchanged(pg, idled, saved, n.addr, OldImage(pg, s));
    BusyUnchanged(
      pg, saved, LeftMemory(pg, s, n, how, resume).value, n.addr, LinkBytes(pg, n.desc.base, how));
  }

  lemma IretMarksNothing(pg: Paging, mem: Memory, addr: u32, how: TaskType)
    requires how == Iret && MarkedMemory(pg, mem, addr, how).Ok?
    ensures MarkedMemory(pg, mem, addr, how) == Ok(mem)
  {
  }

  /** A JMP or IRET leaves the old task available; a CALL leaves it as busy as it was. */
  lemma LeftIdle(pg: Paging, s: State, n: NewTask, how: TaskType, resume: bool)
    requires LeftMemory(pg, s, n, how, resume).Ok? && s.Current().Slot?
    requires RightsApart(pg, s, n, how, s.Current().addr)
    ensures how != Call ==> !BusyAt(pg, LeftMemory(pg, s, n, how, resume).value, s.Current().addr)
    ensures how == Call && BusyAt(pg, s.mem, s.Current().addr) ==>
      BusyAt(pg, LeftMemory(pg, s, n, how, resume).value, s.Current().addr)
  {
    hide OnlyChanged, RightsByte, ImageBytes, DescriptorSlot, MarkedMemory, LinkedMemory, LinkBytes, BusyAt,
         LeftMemory, Saved;
    var addr := s.Current().addr;
    var marked, idled, saved := LeftInSteps(pg, s, n, how, resume);
    IdledChanges(pg, marked, s.Current(), how);
    if how == Call && BusyAt(pg, s.mem, addr) {
      MarkingKeepsBusy(pg, s.mem, n.addr, how, addr);
    }
    BusyUnchanged(pg, idled, saved, addr, OldImage(pg, s));
    BusyUnchanged(pg, saved, LeftMemory(pg, s, n, how, resume).value, addr, LinkBytes(pg, n.desc.base, how));
  }

  lemma MarkingKeepsBusy(pg: Paging, mem: Memory, addr: u32, how: TaskType, other: u32)
    requires MarkedMemory(pg, mem, addr, how).Ok? && BusyAt(pg, mem, other)
    ensures BusyAt(pg, MarkedMemory(pg, mem, addr, how).value, other)
  {
    hide Translate;
  }

  /** Setting an accessed bit never moves a busy bit, not even that of the same byte. */
  lemma AccessedKeepsBusy(pg: Paging, mem: Memory, t: Tables, selector: u16, addr: u32)
    requires AccessedMemory(pg, mem, t, selector).Ok?
    ensures BusyAt(pg, AccessedMemory(pg, mem, t, selector).value, addr) == BusyAt(pg, mem, addr)
  {
    hide Translate, DescriptorSlot, Busy;
    var slot := DescriptorSlot(t, selector);
    if slot.Slot? {
      var a := Translate(pg, Add32(slot.addr, 5), false, false).value;
      if Peek(mem, a) % 2 == 0 {
        WritableTranslates(pg, Add32(slot.addr, 5), true);
        AboveTheFirstBit(Peek(mem, a));
      }
    }
  }

  lemma AboveTheFirstBit(rights: u8)
    requires rights % 2 == 0
    ensures rights + 1 < 0x100 && Busy(rights + 1) == Busy(rights)
  {
  }

  lemma MarkingIsAccess(
    pg: Paging, mem: Memory, t: Tables, selector: u16, verdict: Outcome<Segment>, addr: u32)
    requires Marking(pg, mem, t, selector, verdict).Ok?
    ensures BusyAt(pg, Marking(pg, mem, t, selector, verdict).value.mem, addr) == BusyAt(pg, mem, addr)
  {
    hide AccessedMemory, BusyAt;
    AccessedKeepsBusy(pg, mem, t, selector, addr);
  }

  lemma SegmentsKeepBusy(pg: Paging, mem: Memory, t: Tables, selectors: seq<u16>, eip: u32, ext: nat, addr: u32)
    requires |selectors| == 6 && SegmentsVerdict(pg, mem, t, selectors, eip, ext).Ok?
    ensures BusyAt(pg, SegmentsVerdict(pg, mem, t, selectors, eip, ext).value.mem, addr) == BusyAt(pg, mem, addr)
  {
    hide Marking, TaskDataVerdict, TaskCodeVerdict, Decode, BusyAt;
    var cpl := Rpl(selectors[1]);
    var ss := DataLoading(pg, mem, t, SS, selectors[2], cpl, ext).value;
    var cs := CodeLoading(pg, ss.mem, t, selectors[1], eip, ext).value;
    var es := DataLoading(pg, cs.mem, t, ES, selectors[0], cpl, ext).value;
    var ds := DataLoading(pg, es.mem, t, DS, selectors[3], cpl, ext).value;
    var fs := DataLoading(pg, ds.mem, t, FS, selectors[4], cpl, ext).value;
    DataKeepsBusy(pg, mem, t, SS, selectors[2], cpl, ext, addr);
    CodeKeepsBusy(pg, ss.mem, t, selectors[1], eip, ext, addr);
    DataKeepsBusy(pg, cs.mem, t, ES, selectors[0], cpl, ext, addr);
    DataKeepsBusy(pg, es.mem, t, DS, selectors[3], cpl, ext, addr);
    DataKeepsBusy(pg, ds.mem, t, FS, selectors[4], cpl, ext, addr);
    DataKeepsBusy(pg, fs.mem, t, GS, selectors[5], cpl, ext, addr);
  }

  lemma DataKeepsBusy(
    pg: Paging, mem: Memory, t: Tables, seg: SegReg, selector: u16, cpl: nat, ext: nat, addr: u32)
    requires DataLoading(pg, mem, t, seg, selector, cpl, ext).Ok?
    ensures BusyAt(pg, DataLoading(pg, mem, t, seg, selector, cpl, ext).value.mem, addr) == BusyAt(pg, mem, addr)
  {
    hide Marking, TaskDataVerdict, Decode, BusyAt;
    MarkingIsAccess(
      pg, mem, t, selector, TaskDataVerdict(seg, selector, cpl, Decode(pg, mem, t, selector), ext), addr);
  }

  lemma CodeKeepsBusy(pg: Paging, mem: Memory, t: Tables, selector: u16, eip: u32, ext: nat, addr: u32)
    requires CodeLoading(pg, mem, t, selector, eip, ext).Ok?
    ensures BusyAt(pg, CodeLoading(pg, mem, t, selector, eip, ext).value.mem, addr) == BusyAt(pg, mem, addr)
  {
    hide Marking, TaskCodeVerdict, Decode, BusyAt;
    MarkingIsAccess(pg, mem, t, selector, TaskCodeVerdict(selector, eip, Decode(pg, mem, t, selector), ext), addr);
  }

  lemma EnterKeepsBusy(pg: Paging, model486: bool, mem: Memory, t: Tables, n: NewTask, ext: nat, addr: u32)
    requires EnterVerdict(pg, model486, mem, t, n, ext).Ok?
    ensures BusyAt(pg, EnterVerdict(pg, model486, mem, t, n, ext).value.fitted.mem, addr) == BusyAt(pg, mem, addr)
  {
    hide SegmentsVerdict, ImageAt, TrapBit, LdtVerdict, BusyAt, VmImage;
    var e := EnterVerdict(pg, model486, mem, t, n, ext).value;
    if !VmImage(e.image, model486) {
      SegmentsKeepBusy(pg, mem, e.fitted.tables, e.image.selectors, e.image.eip, ext, addr);
    }
  }

  /** The task that TR names is marked busy. */
  ghost predicate CurrentBusy(pg: Paging, s: State) {
    s.Current().Slot? && BusyAt(pg, s.mem, s.Current().addr)
  }

  /** After a switch TR names the validated new task. */
  lemma CurrentAfter(
    pg: Paging, model486: bool, s: State, selector: u16, how: TaskType, ext: nat, resume: bool)
    requires SwitchVerdict(pg, model486, s, selector, how, ext, resume).Ok?
    ensures var v := SwitchVerdict(pg, model486, s, selector, how, ext, resume).value;
            After(v, selector, how, model486).Current() == Slot(v.n.addr)
  {
    hide DecodeAt, PreTranslation, LeftMemory, ImageAt, TrapBit, SegmentsVerdict, RealSegments;
  }

  /**
    The task that runs after a switch is marked busy, unless the switch cleared the very bit
    that it had set or checked.
   */
  lemma SwitchKeepsBusy(
    pg: Paging, model486: bool, s: State, selector: u16, how: TaskType, ext: nat, resume: bool)
    requires SwitchVerdict(pg, model486, s, selector, how, ext, resume).Ok?
    ensures var v := SwitchVerdict(pg, model486, s, selector, how, ext, resume).value;
            RightsApart(pg, s, v.n, how, v.n.addr) ==>
              (CurrentBusy(pg, After(v, selector, how, model486))
               <==> RightsByte(pg, v.n.addr) !! IdleByte(pg, s.Current(), how))
  {
    hide TaskAt, PreTranslation, LeftMemory, EnterVerdict, RightsByte, BusyAt, IdleByte, LinkBytes, OldImage,
         DescriptorSlot, SystemByte, DecodeAt;
    var v := SwitchVerdict(pg, model486, s, selector, how, ext, resume).value;
    AcceptedRights(pg, s.mem, s.tables, selector, how, ext);
    CurrentAfter(pg, model486, s, selector, how, ext, resume);
    if RightsApart(pg, s, v.n, how, v.n.addr) {
      LeftBusy(pg, s, v.n, how, resume);
      EnterKeepsBusy(pg, model486, v.left, s.tables, v.n, ext, v.n.addr);
    }
  }

  /** A JMP or IRET leaves the old task available; a CALL leaves it as busy as it was. */
  lemma SwitchIdlesOld(
    pg: Paging, model486: bool, s: State, selector: u16, how: TaskType, ext: nat, resume: bool)
    requires SwitchVerdict(pg, model486, s, selector, how, ext, resume).Ok? && s.Current().Slot?
    ensures var v := SwitchVerdict(pg, model486, s, selector, how, ext, resume).value;
            RightsApart(pg, s, v.n, how, s.Current().addr) ==>
              && (how != Call ==> !BusyAt(pg, v.entered.fitted.mem, s.Current().addr))
              && (how == Call && CurrentBusy(pg, s) ==> BusyAt(pg, v.entered.fitted.mem, s.Current().addr))
  {
    hide TaskAt, PreTranslation, LeftMemory, EnterVerdict, RightsByte, BusyAt, IdleByte, LinkBytes, OldImage,
         DescriptorSlot;
    var v := SwitchVerdict(pg, model486, s, selector, how, ext, resume).value;
    if RightsApart(pg, s, v.n, how, s.Current().addr) {
      LeftIdle(pg, s, v.n, how, resume);
      EnterKeepsBusy(pg, model486, v.left, s.tables, v.n, ext, s.Current().addr);
    }
  }

  /**
    "The current task is busy" survives every switch except exactly an IRET whose back link
    leads to the current task itself.
   */
  lemma BusyIsKept(pg: Paging, model486: bool, s: State, selector: u16, how: TaskType, ext: nat, resume: bool)
    requires SwitchVerdict(pg, model486, s, selector, how, ext, resume).Ok? && CurrentBusy(pg, s)
    ensures var v := SwitchVerdict(pg, model486, s, selector, how, ext, resume).value;
            RightsApart(pg, s, v.n, how, v.n.addr) ==>
              (CurrentBusy(pg, After(v, selector, how, model486))
               <==> !(how == Iret && RightsByte(pg, v.n.addr) == RightsByte(pg, s.Current().addr)))
  {
    hide TaskAt, PreTranslation, LeftMemory, EnterVerdict, LinkBytes, OldImage, DescriptorSlot, SystemByte, DecodeAt,
         RightsByte, BusyAt;
    var v := SwitchVerdict(pg, model486, s, selector, how, ext, resume).value;
    SwitchKeepsBusy(pg, model486, s, selector, how, ext, resume);
    AcceptedRights(pg, s.mem, s.tables, selector, how, ext);
    OneRightsByte(pg, s.mem, v.n.addr, s.Current().addr);
  }

  /** Readable rights bytes are equal or disjoint; equal ones are equally busy. */
  lemma OneRightsByte(pg: Paging, mem: Memory, addr: u32, other: u32)
    requires SystemByte(pg, mem, Add32(addr, 5)).Ok? && BusyAt(pg, mem, other)
    ensures RightsByte(pg, addr) !! RightsByte(pg, other) <==> RightsByte(pg, addr) != RightsByte(pg, other)
    ensures RightsByte(pg, addr) == RightsByte(pg, other) ==> BusyAt(pg, mem, addr)
  {
    hide Translate;
    var a, b := Translate(pg, Add32(addr, 5), false, false).value, Translate(pg, Add32(other, 5), false, false).value;
    RightsByteIs(pg, addr, a);
    RightsByteIs(pg, other, b);
    if a != b {
      assert a in RightsByte(pg, addr) && a !in RightsByte(pg, other);
    }
  }

  /** A JMP or CALL to the current task is refused while that task is marked busy. */
  lemma SelfTransferRefused(pg: Paging, model486: bool, s: State, how: TaskType, ext: nat, resume: bool)
    requires CurrentBusy(pg, s) && how != Iret
    ensures SwitchVerdict(pg, model486, s, s.task.tr, how, ext, resume).Fault?
  {
    hide DecodeAt, PreTranslation, LeftMemory, EnterVerdict, DescriptorSlot, SystemByte, BusyAt;
    if TaskAt(pg, s.mem, s.tables, s.task.tr, how, ext).Ok? {
      AcceptedRights(pg, s.mem, s.tables, s.task.tr, how, ext);
    }
  }

  // ----- What entering a task does to memory -----

  /** The byte that setting the accessed bit of a selector's descriptor may change. */
  ghost function MarkByte(pg: Paging, t: Tables, selector: u16): set<nat> {
    var slot := DescriptorSlot(t, selector);
    if slot.NoSlot? then {} else RightsByte(pg, slot.addr)
  }

  ghost function MarkBytes(pg: Paging, t: Tables, selectors: seq<u16>): set<nat>
    requires |selectors| == 6
  {
    MarkByte(pg, t, selectors[0]) + MarkByte(pg, t, selectors[1]) + MarkByte(pg, t, selectors[2])
    + MarkByte(pg, t, selectors[3]) + MarkByte(pg, t, selectors[4]) + MarkByte(pg, t, selectors[5])
  }

  lemma AccessedChanges(pg: Paging, mem: Memory, t: Tables, selector: u16)
    requires AccessedMemory(pg, mem, t, selector).Ok?
    ensures OnlyChanged(mem, AccessedMemory(pg, mem, t, selector).value, MarkByte(pg, t, selector))
  {
    hide Translate, Region;
    var slot := DescriptorSlot(t, selector);
    if slot.Slot? {
      var a := Translate(pg, Add32(slot.addr, 5), false, false);
      RightsByteIs(pg, slot.addr, a.value);
      if Peek(mem, a.value) % 2 == 0 {
        WritableTranslates(pg, Add32(slot.addr, 5), true);
      }
    }
  }

  lemma MarkingChanges(
    pg: Paging, m: Memory, mem: Memory, t: Tables, selector: u16, verdict: Outcome<Segment>, all: set<nat>)
    requires Marking(pg, mem, t, selector, verdict).Ok? && OnlyChanged(m, mem, all)
    requires MarkByte(pg, t, selector) <= all
    ensures OnlyChanged(m, Marking(pg, mem, t, selector, verdict).value.mem, all)
  {
    hide AccessedMemory, OnlyChanged, MarkByte;
    AccessedChanges(pg, mem, t, selector);
    Extend(m, mem, AccessedMemory(pg, mem, t, selector).value, MarkByte(pg, t, selector), all);
  }

  lemma SegmentsChange(pg: Paging, mem: Memory, t: Tables, selectors: seq<u16>, eip: u32, ext: nat)
    requires |selectors| == 6 && SegmentsVerdict(pg, mem, t, selectors, eip, ext).Ok?
    ensures OnlyChanged(
      mem, SegmentsVerdict(pg, mem, t, selectors, eip, ext).value.mem, MarkBytes(pg, t, selectors))
  {
    hide Marking, TaskDataVerdict, TaskCodeVerdict, Decode, OnlyChanged, MarkByte;
    var cpl, all := Rpl(selectors[1]), MarkBytes(pg, t, selectors);
    NothingChanged(mem, all);
    var ss := DataLoading(pg, mem, t, SS, selectors[2], cpl, ext).value.mem;
    DataChanges(pg, mem, mem, t, SS, selectors[2], cpl, ext, all);
    var cs := CodeLoading(pg, ss, t, selectors[1], eip, ext).value.mem;
    MarkingChanges(
      pg, mem, ss, t, selectors[1], TaskCodeVerdict(selectors[1], eip, Decode(pg, ss, t, selectors[1]), ext), all);
    var es := DataLoading(pg, cs, t, ES, selectors[0], cpl, ext).value.mem;
    DataChanges(pg, mem, cs, t, ES, selectors[0], cpl, ext, all);
    var ds := DataLoading(pg, es, t, DS, selectors[3], cpl, ext).value.mem;
    DataChanges(pg, mem, es, t, DS, selectors[3], cpl, ext, all);
    var fs := DataLoading(pg, ds, t, FS, selectors[4], cpl, ext).value.mem;
    DataChanges(pg, mem, ds, t, FS, selectors[4], cpl, ext, all);
    DataChanges(pg, mem, fs, t, GS, selectors[5], cpl, ext, all);
  }

  lemma DataChanges(
    pg: Paging, m: Memory, mem: Memory, t: Tables, seg: SegReg, selector: u16, cpl: nat, ext: nat, all: set<nat>)
    requires DataLoading(pg, mem, t, seg, selector, cpl, ext).Ok? && OnlyChanged(m, mem, all)
    requires MarkByte(pg, t, selector) <= all
    ensures OnlyChanged(m, DataLoading(pg, mem, t, seg, selector, cpl, ext).value.mem, all)
  {
    hide Marking, TaskDataVerdict, Decode, OnlyChanged, MarkByte;
    MarkingChanges(
      pg, m, mem, t, selector, TaskDataVerdict(seg, selector, cpl, Decode(pg, mem, t, selector), ext), all);
  }

  /** The bytes that entering a task may change: the accessed bits of its six segments. */
  ghost function Marks(pg: Paging, e: Entered): set<nat>
    requires |e.image.selectors| == 6
  {
    MarkBytes(pg, e.fitted.tables, e.image.selectors)
  }

  /**
    A task as entered: its TSS held the image, its registers name the selectors of the image, only accessed
    bits changed and, outside virtual-8086 mode, the six segments fit the level of its CS.
   */
  lemma EnteredFits(pg: Paging, model486: bool, mem: Memory, t: Tables, n: NewTask, ext: nat)
    requires EnterVerdict(pg, model486, mem, t, n, ext).Ok?
    ensures var e := EnterVerdict(pg, model486, mem, t, n, ext).value;
            && Loaded(pg, mem, n.desc.base, Is386Tss(n.desc.rights), e.image)
            && (forall i :: 0 <= i < 6 ==> e.fitted.segs[i].selector == e.image.selectors[i])
            && OnlyChanged(mem, e.fitted.mem, Marks(pg, e))
            && e.fitted.tables.gdtBase == t.gdtBase && e.fitted.tables.gdtLimit == t.gdtLimit
            && (!VmImage(e.image, model486) ==> Protected(e.fitted.segs, EnteredCpl(e, model486)))
  {
    hide SegmentsVerdict, ImageAt, TrapBit, VmImage, OnlyChanged, MarkBytes, Loaded, Protected, DecodeAt,
         DescriptorSlot, IsLdt;
    var e := EnterVerdict(pg, model486, mem, t, n, ext).value;
    ImageAtIsLoaded(pg, mem, n.desc.base, Is386Tss(n.desc.rights));
    if VmImage(e.image, model486) {
      NothingChanged(mem, Marks(pg, e));
    } else {
      SegmentsChange(pg, mem, e.fitted.tables, e.image.selectors, e.image.eip, ext);
      SegmentsFit(pg, mem, e.fitted.tables, e.image.selectors, e.image.eip, ext);
    }
  }

  /** Every completed switch ends in a protected state, at the level of the new CS, or in virtual-8086 mode. */
  lemma SwitchProtects(
    pg: Paging, model486: bool, s: State, selector: u16, how: TaskType, ext: nat, resume: bool)
    requires SwitchVerdict(pg, model486, s, selector, how, ext, resume).Ok?
    ensures var v := SwitchVerdict(pg, model486, s, selector, how, ext, resume).value;
            var s' := After(v, selector, how, model486);
            s'.Vm() || Protected(s'.segs, EnteredCpl(v.entered, model486))
  {
    hide TaskAt, PreTranslation, LeftMemory, EnterVerdict, Protected, EnteredCpl, WritableHigh;
    var v := SwitchVerdict(pg, model486, s, selector, how, ext, resume).value;
    EnteredFits(pg, model486, v.left, s.tables, v.n, ext);
  }

  /** What a completed switch writes, and that the GDT stays. */
  lemma SwitchChanges(
    pg: Paging, model486: bool, s: State, selector: u16, how: TaskType, ext: nat, resume: bool)
    requires SwitchVerdict(pg, model486, s, selector, how, ext, resume).Ok?
    ensures var v := SwitchVerdict(pg, model486, s, selector, how, ext, resume).value;
            && OnlyChanged(s.mem, v.left, LeaveBytes(pg, s, v.n, how))
            && OnlyChanged(v.left, v.entered.fitted.mem, Marks(pg, v.entered))
            && v.entered.fitted.tables.gdtBase == s.tables.gdtBase
            && v.entered.fitted.tables.gdtLimit == s.tables.gdtLimit
  {
    hide OnlyChanged, LeaveBytes, MarkBytes, TaskAt, PreTranslation, LeftMemory, EnterVerdict, Loaded, Protected;
    var v := SwitchVerdict(pg, model486, s, selector, how, ext, resume).value;
    LeftChanges(pg, s, v.n, how, resume);
    EnteredFits(pg, model486, v.left, s.tables, v.n, ext);
  }

  /** Outside virtual-8086 mode the segments are those of the six loads. */
  lemma SwitchLoads(
    pg: Paging, model486: bool, s: State, selector: u16, how: TaskType, ext: nat, resume: bool)
    requires SwitchVerdict(pg, model486, s, selector, how, ext, resume).Ok?
    ensures var v := SwitchVerdict(pg, model486, s, selector, how, ext, resume).value;
            var e := v.entered;
            var loaded := SegmentsVerdict(pg, v.left, e.fitted.tables, e.image.selectors, e.image.eip, ext);
            VmImage(e.image, model486) || (loaded.Ok? && loaded.value.segs == e.fitted.segs)
  {
    hide TaskAt, PreTranslation, LeftMemory, ImageAt, TrapBit, LdtVerdict, SegmentsVerdict, VmImage;
  }

  // ----- The return through the back link -----

  /** An IRET with NT set: a switch to the task that the back link of the current TSS names. */
  function IretVerdict(pg: Paging, model486: bool, s: State): (r: Outcome<Switched>)
    ensures r.Ok? ==> |r.value.entered.image.selectors| == 6
  {
    var link :- ReadWord(pg, s.mem, s.task.base, false);
    SwitchVerdict(pg, model486, s, link, Iret, 0, false)
  }

  /** An IRET with NT set. An unreadable back link, a refused task or a failed translation changes nothing. */
  method IretTask(c: Cpu) returns (r: Outcome<()>)
    modifies c
    ensures c.supervisorOverride == old(c.supervisorOverride)
    ensures var link := ReadWord(c.paging, old(c.mem), old(c.task).base, false);
            var v := IretVerdict(c.paging, c.model486, old(StateOf(c)));
            && r == v.Void()
            && (r.Ok? ==>
                  && link.Ok? && StateOf(c) == After(v.value, link.value, Iret, c.model486)
                  && c.storedCpl == EnteredCpl(v.value.entered, c.model486))
            && (link.Fault? || Accepted(c.paging, old(StateOf(c)), link.value, Iret, 0).Fault? ==>
                  StateOf(c) == old(StateOf(c)) && c.storedCpl == old(c.storedCpl))
  {
    hide SwitchVerdict, ReadWord, Accepted, LeftMemory, EnteredCpl, After;
    var link := ReadWord(c.paging, c.mem, c.task.base, false);
    if link.Fault? {
      return Fault(link.vector, link.code);
    }
    r := SwitchTask(c, link.value, Iret, 0, false);
  }

  // ----- Call and return -----

  /** The bytes at which two memories differ. */
  ghost function Changed(m: Memory, m': Memory): set<nat> {
    set a | a in m.Keys + m'.Keys && Peek(m, a) != Peek(m', a)
  }

  lemma ChangedIsAll(m: Memory, m': Memory)
    ensures OnlyChanged(m, m', Changed(m, m'))
  {
  }

  /** The bytes that must survive until the return: the caller's image, its descriptor and the back link. */
  ghost function Kept(pg: Paging, s: State, callee: NewTask): set<nat>
    requires s.Current().Slot?
  {
    OldImage(pg, s) + Region(pg, s.Current().addr, 8) + Region(pg, callee.desc.base, 2)
  }

  /** TR agrees with the descriptor in memory: a 386 TSS at the cached base. */
  ghost predicate TrConsistent(pg: Paging, s: State) {
    && s.task.Is386() && s.task.tr / 4 % 2 == 0 && s.Current().Slot?
    && var d := DecodeAt(pg, s.mem, s.Current().addr);
       d.Ok? && d.value.base == s.task.base && Is386Tss(d.value.rights)
  }

  /** Distinct tasks in separate memory: neither TSS overlaps the other's state, the descriptors or the marks. */
  ghost predicate Separate(pg: Paging, s: State, v: Switched)
    requires s.Current().Slot? && |v.entered.image.selectors| == 6
  {
    var image, desc, link := OldImage(pg, s), Region(pg, s.Current().addr, 8), Region(pg, v.n.desc.base, 2);
    && image !! desc && image !! link && desc !! link
    && RightsByte(pg, v.n.addr) !! image + desc
    && ImageBytes(pg, v.n.desc.base, Is386Tss(v.n.desc.rights)) !! image
    && Marks(pg, v.entered) !! image + desc + link
  }

  lemma DecodeUnchanged(pg: Paging, m: Memory, m': Memory, addr: u32, region: set<nat>)
    requires OnlyChanged(m, m', region) && Region(pg, addr, 8) !! region
    ensures DecodeAt(pg, m', addr) == DecodeAt(pg, m, addr)
  {
    hide Translate;
    forall i | 0 <= i < 8
      ensures SystemByte(pg, m', Plus(addr, i)) == SystemByte(pg, m, Plus(addr, i))
    {
      var a := Translate(pg, Plus(addr, i), false, false);
      assert a.Ok? ==> a.value in Region(pg, addr, 8);
    }
    EightBytes(pg, m, m', addr);
  }

  lemma EightBytes(pg: Paging, m: Memory, m': Memory, addr: u32)
    requires forall i :: 0 <= i < 8 ==> SystemByte(pg, m', Plus(addr, i)) == SystemByte(pg, m, Plus(addr, i))
    ensures DecodeAt(pg, m', addr) == DecodeAt(pg, m, addr)
  {
    hide SystemByte;
    assert Plus(addr, 0) == addr;
    assert forall i :: 1 <= i < 8 ==> Add32(addr, i) == Plus(addr, i);
    assert SystemByte(pg, m', Plus(addr, 0)) == SystemByte(pg, m, Plus(addr, 0));
    assert SystemByte(pg, m', Plus(addr, 1)) == SystemByte(pg, m, Plus(addr, 1));
    assert SystemByte(pg, m', Plus(addr, 2)) == SystemByte(pg, m, Plus(addr, 2));
    assert SystemByte(pg, m', Plus(addr, 3)) == SystemByte(pg, m, Plus(addr, 3));
    assert SystemByte(pg, m', Plus(addr, 4)) == SystemByte(pg, m, Plus(addr, 4));
    assert SystemByte(pg, m', Plus(addr, 5)) == SystemByte(pg, m, Plus(addr, 5));
    assert SystemByte(pg, m', Plus(addr, 6)) == SystemByte(pg, m, Plus(addr, 6));
    assert SystemByte(pg, m', Plus(addr, 7)) == SystemByte(pg, m, Plus(addr, 7));
  }

  /** What is loaded from a TSS is what was saved there. */
  lemma RestoredIsSaved(pg: Paging, mem: Memory, s: State, how: TaskType, resume: bool, image: TaskImage)
    requires s.task.Is386() && Saved(pg, mem, s, how, resume) && Loaded(pg, mem, s.task.base, true, image)
    ensures image.eip == s.eip && image.eflags == s.SavedEflags(how, resume) && image.regs == s.regs
    ensures forall i :: 0 <= i < 6 ==> image.selectors[i] == s.segs[i].selector
  {
    hide ImageHolds, EflagsImage;
    var selectors :| PadSelectors(selectors) == image.selectors
      && ImageHolds(pg, mem, s.task.base, true, [image.eip, image.eflags] + image.regs, selectors);
    var general := [s.eip, s.SavedEflags(how, resume)] + s.regs;
    ImageUnique(
      pg, mem, s.task.base, true, general, s.Saves(), [image.eip, image.eflags] + image.regs, selectors);
    assert ([image.eip, image.eflags] + image.regs)[0] == image.eip == general[0];
    assert ([image.eip, image.eflags] + image.regs)[1] == image.eflags == general[1];
    assert ([image.eip, image.eflags] + image.regs)[2..] == image.regs && general[2..] == s.regs;
  }

  /** What the callee may do: anything to the registers, and to all memory but the kept bytes. */
  datatype Callee = Callee(
    mem: Memory, ldtr: u16, ldtrBase: u32, ldtrLimit: u32, regs: Registers, segs: Segments, eip: u32, flags: u16,
    eflagsHigh: u16, cpl: nat)
  {
    /** The state when the callee is done; only the GDT and TR are as the call left them. */
    function End(start: State): State {
      State(
        mem, start.tables.(ldtr := ldtr, ldtrBase := ldtrBase, ldtrLimit := ldtrLimit), start.task, segs, regs, eip,
        flags, eflagsHigh)
    }
  }

  /** The callee's switch and the callee itself leave alone what the return needs. */
  ghost predicate Undisturbed(pg: Paging, s: State, v: Switched, callee: Callee)
    requires |v.entered.image.selectors| == 6
  {
    && TrConsistent(pg, s) && !s.Vm() && Separate(pg, s, v)
    && Kept(pg, s, v.n) !! Changed(v.entered.fitted.mem, callee.mem)
  }

  /** Where a CALL leaves the machine for its callee, and where the callee leaves it. */
  function CalleeEnd(v: Switched, selector: u16, model486: bool, callee: Callee): State {
    callee.End(After(v, selector, Call, model486))
  }

  /** The back link, the caller's descriptor and its image survive changes that keep away from them. */
  lemma KeptSurvive(pg: Paging, m: Memory, m': Memory, s: State, n: NewTask, region: set<nat>)
    requires s.Current().Slot? && OnlyChanged(m, m', region) && Kept(pg, s, n) !! region
    requires Saved(pg, m, s, Call, false)
    ensures Saved(pg, m', s, Call, false)
    ensures ReadWord(pg, m', n.desc.base, false) == ReadWord(pg, m, n.desc.base, false)
    ensures DecodeAt(pg, m', s.Current().addr) == DecodeAt(pg, m, s.Current().addr)
  {
    hide ImageHolds, ImageBytes, Region, ReadLinear, OnlyChanged, DecodeAt, GeneralValues, SelectorValues,
         DescriptorSlot, EflagsImage;
    ImageUnchanged(pg, m, m', s.task.base, s.task.Is386(), s.General(Call, false), s.Saves(), region);
    ReadUnchanged(pg, m, m', n.desc.base, 2, region);
    DecodeUnchanged(pg, m, m', s.Current().addr, region);
  }

  /** When the callee is done, its back link names the caller and the caller's image and descriptor are as saved. */
  lemma ReturnStaysPossible(pg: Paging, model486: bool, s: State, selector: u16, callee: Callee)
    requires SwitchVerdict(pg, model486, s, selector, Call, 0, false).Ok?
    requires Undisturbed(pg, s, SwitchVerdict(pg, model486, s, selector, Call, 0, false).value, callee)
    ensures var v := SwitchVerdict(pg, model486, s, selector, Call, 0, false).value;
            && Saved(pg, callee.mem, s, Call, false)
            && ReadWord(pg, callee.mem, v.n.desc.base, false) == Ok(s.task.tr)
            && DecodeAt(pg, callee.mem, s.Current().addr) == DecodeAt(pg, s.mem, s.Current().addr)
  {
    hide Saved, ReadWord, OnlyChanged, ImageBytes, Region, RightsByte, DecodeAt, TaskAt, PreTranslation, LeftMemory,
         EnterVerdict, DescriptorSlot, MarkBytes, Changed, Loaded, Protected;
    var v := SwitchVerdict(pg, model486, s, selector, Call, 0, false).value;
    LeftChanges(pg, s, v.n, Call, false);
    LeftSaves(pg, s, v.n, Call, false);
    DecodeUnchanged(pg, s.mem, v.left, s.Current().addr, LeaveBytes(pg, s, v.n, Call));
    EnteredFits(pg, model486, v.left, s.tables, v.n, 0);
    KeptSurvive(pg, v.left, v.entered.fitted.mem, s, v.n, Marks(pg, v.entered));
    ChangedIsAll(v.entered.fitted.mem, callee.mem);
    KeptSurvive(pg, v.entered.fitted.mem, callee.mem, s, v.n, Changed(v.entered.fitted.mem, callee.mem));
  }

  lemma RightsInDescriptor(pg: Paging, addr: u32)
    ensures RightsByte(pg, addr) <= Region(pg, addr, 8)
  {
    RegionPart(pg, addr, 8, 5, 1);
  }

  lemma FlagsRestored(s: State, model486: bool)
    requires !s.Vm()
    ensures Low16(s.SavedEflags(Call, false)) == s.flags
    ensures WritableHigh(s.SavedEflags(Call, false), model486) / 2 % 2 == 0
    ensures WritableHigh(s.SavedEflags(Call, false), model486) == LoadableHigh(s.eflagsHigh, model486)
  {
    SplitImage(s.eflagsHigh, s.flags);
    KeepsVm(s.eflagsHigh);
  }

  /** What a task switch can give back of EFLAGS bits 16 to 31: RF, and AC on a 486. */
  function LoadableHigh(high: u16, model486: bool): u16 {
    if model486 then high % 8 else high % 4
  }

  lemma SplitImage(high: u16, flags: u16)
    ensures (high * 0x1_0000 + flags) / 0x1_0000 == high && (high * 0x1_0000 + flags) % 0x1_0000 == flags
  {
  }

  lemma KeepsVm(high: u16)
    ensures high % 8 / 2 % 2 == high / 2 % 2 && high % 4 / 2 % 2 == high / 2 % 2
  {
    SecondBit(high, high % 8, 4 * (high / 8));
    SecondBit(high, high % 4, 2 * (high / 4));
  }

  /** Dropping a multiple of four keeps the second bit. */
  lemma SecondBit(x: nat, r: nat, half: nat)
    requires x == 2 * half + r && half % 2 == 0
    ensures x / 2 % 2 == r / 2 % 2
  {
    Halved(x, half, r);
    Parity(half, r / 2);
  }

  lemma Halved(x: nat, half: nat, r: nat)
    requires x == 2 * half + r
    ensures x / 2 == half + r / 2
  {
  }

  lemma Parity(half: nat, y: nat)
    requires half % 2 == 0
    ensures (half + y) % 2 == y % 2
  {
  }

  /** The return goes to the caller, from the callee's TSS. */
  lemma ReturnsToCaller(pg: Paging, model486: bool, s: State, selector: u16, callee: Callee)
    requires SwitchVerdict(pg, model486, s, selector, Call, 0, false).Ok?
    requires Undisturbed(pg, s, SwitchVerdict(pg, model486, s, selector, Call, 0, false).value, callee)
    ensures var v := SwitchVerdict(pg, model486, s, selector, Call, 0, false).value;
            var end := CalleeEnd(v, selector, model486, callee);
            var back := IretVerdict(pg, model486, end);
            && end.mem == callee.mem && end.task == TaskOf(v.n, selector, Call)
            && end.Current() == Slot(v.n.addr)
            && end.task.Is386() == Is386Tss(v.n.desc.rights)
            && back == SwitchVerdict(pg, model486, end, s.task.tr, Iret, 0, false)
            && (back.Ok? ==>
                  && back.value.n.addr == s.Current().addr && back.value.n.desc.base == s.task.base
                  && Is386Tss(back.value.n.desc.rights))
  {
    hide Saved, ReadLinear, OnlyChanged, ImageBytes, Region, RightsByte, DecodeAt, PreTranslation, LeftMemory,
         EnterVerdict, MarkBytes, Changed, Loaded, Protected, Separate, Kept, SystemByte, Busy, IsTss, IsPresent,
         LeastLimit;
    var v := SwitchVerdict(pg, model486, s, selector, Call, 0, false).value;
    var end := CalleeEnd(v, selector, model486, callee);
    ReturnStaysPossible(pg, model486, s, selector, callee);
    AcceptedRights(pg, s.mem, s.tables, selector, Call, 0);
    EnteredFits(pg, model486, v.left, s.tables, v.n, 0);
    assert end.tables.gdtBase == s.tables.gdtBase && end.tables.gdtLimit == s.tables.gdtLimit;
    SameGdtSlot(s.tables, end.tables, selector);
    SameGdtSlot(s.tables, end.tables, s.task.tr);
  }

  lemma SameGdtSlot(t: Tables, t': Tables, selector: u16)
    requires t.gdtBase == t'.gdtBase && t.gdtLimit == t'.gdtLimit && selector / 4 % 2 == 0
    ensures DescriptorSlot(t, selector) == DescriptorSlot(t', selector)
  {
  }

  /** The writes of the return leave the caller's saved image alone, so the return loads it. */
  lemma ReturnLoadsSaved(pg: Paging, model486: bool, s: State, selector: u16, callee: Callee)
    requires SwitchVerdict(pg, model486, s, selector, Call, 0, false).Ok?
    requires Undisturbed(pg, s, SwitchVerdict(pg, model486, s, selector, Call, 0, false).value, callee)
    requires var v := SwitchVerdict(pg, model486, s, selector, Call, 0, false).value;
             IretVerdict(pg, model486, CalleeEnd(v, selector, model486, callee)).Ok?
    ensures var v := SwitchVerdict(pg, model486, s, selector, Call, 0, false).value;
            var e := IretVerdict(pg, model486, CalleeEnd(v, selector, model486, callee)).value.entered;
            && e.image.eip == s.eip && e.image.eflags == s.SavedEflags(Call, false) && e.image.regs == s.regs
            && forall i :: 0 <= i < 6 ==>
              e.fitted.segs[i].selector == s.segs[i].selector == e.image.selectors[i]
  {
    hide ImageHolds, OnlyChanged, ImageBytes, Region, RightsByte, GeneralValues, SelectorValues, Loaded, IretVerdict,
         TaskAt, PreTranslation, LeftMemory, EnterVerdict, DescriptorSlot, Protected, Changed, MarkBytes, DecodeAt,
         EflagsImage, After;
    var v := SwitchVerdict(pg, model486, s, selector, Call, 0, false).value;
    var end := CalleeEnd(v, selector, model486, callee);
    ReturnStaysPossible(pg, model486, s, selector, callee);
    ReturnsToCaller(pg, model486, s, selector, callee);
    var back := IretVerdict(pg, model486, end).value;
    LeftChanges(pg, end, back.n, Iret, false);
    RightsInDescriptor(pg, s.Current().addr);
    ImageUnchanged(
      pg, callee.mem, back.left, s.task.base, true, s.General(Call, false), s.Saves(),
      LeaveBytes(pg, end, back.n, Iret));
    EnteredFits(pg, model486, back.left, end.tables, back.n, 0);
    RestoredIsSaved(pg, back.left, s, Call, false, back.entered.image);
  }

  /** The callee's save area keeps away from the rights bytes of both tasks. */
  ghost predicate SaveApart(pg: Paging, s: State, n: NewTask)
    requires s.Current().Slot?
  {
    var area := ImageBytes(pg, n.desc.base, Is386Tss(n.desc.rights));
    RightsByte(pg, s.Current().addr) !! area && RightsByte(pg, n.addr) !! area
  }

  /** After the return the caller is marked busy again and the callee available. */
  lemma ReturnMovesBusy(pg: Paging, model486: bool, s: State, selector: u16, callee: Callee)
    requires SwitchVerdict(pg, model486, s, selector, Call, 0, false).Ok?
    requires var v := SwitchVerdict(pg, model486, s, selector, Call, 0, false).value;
             && Undisturbed(pg, s, v, callee) && SaveApart(pg, s, v.n)
             && IretVerdict(pg, model486, CalleeEnd(v, selector, model486, callee)).Ok?
    ensures var v := SwitchVerdict(pg, model486, s, selector, Call, 0, false).value;
            var m := IretVerdict(pg, model486, CalleeEnd(v, selector, model486, callee)).value.entered.fitted.mem;
            BusyAt(pg, m, s.Current().addr) && !BusyAt(pg, m, v.n.addr)
  {
    hide ImageBytes, Region, RightsByte, IretVerdict, TaskAt, PreTranslation, LeftMemory, EnterVerdict, DescriptorSlot,
         Changed, MarkBytes, DecodeAt, BusyAt, Kept, CalleeEnd, LoadedFlags, WritableHigh, SystemByte;
    var v := SwitchVerdict(pg, model486, s, selector, Call, 0, false).value;
    var end := CalleeEnd(v, selector, model486, callee);
    ReturnsToCaller(pg, model486, s, selector, callee);
    var back := IretVerdict(pg, model486, end).value;
    RightsInDescriptor(pg, s.Current().addr);
    SwitchKeepsBusy(pg, model486, end, s.task.tr, Iret, 0, false);
    CurrentAfter(pg, model486, end, s.task.tr, Iret, 0, false);
    assert RightsApart(pg, end, back.n, Iret, back.n.addr) && RightsApart(pg, end, back.n, Iret, v.n.addr);
    SwitchIdlesOld(pg, model486, end, s.task.tr, Iret, 0, false);
  }

  /** The caller runs again: EIP, EFLAGS, the eight general registers, the six selectors and TR are its own. */
  predicate Restored(s: State, s': State, model486: bool) {
    && s'.task.tr == s.task.tr && s'.task.base == s.task.base && s'.regs == s.regs && s'.eip == s.eip
    && s'.flags == s.flags && s'.eflagsHigh == LoadableHigh(s.eflagsHigh, model486) && !s'.Vm()
    && forall i :: 0 <= i < 6 ==> s'.segs[i].selector == s.segs[i].selector
  }

  lemma CallerIsProtected(pg: Paging, s: State, v: Switched, callee: Callee)
    requires |v.entered.image.selectors| == 6 && Undisturbed(pg, s, v, callee)
    ensures !s.Vm() && s.Current().Slot?
  {
  }

  /**
    A CALL to a task and the IRET back to its caller over separate memory restore the caller,
    whatever the callee did to the registers, and move the busy bit back.
   */
  lemma CallReturns(pg: Paging, model486: bool, s: State, selector: u16, callee: Callee)
    requires SwitchVerdict(pg, model486, s, selector, Call, 0, false).Ok?
    requires var v := SwitchVerdict(pg, model486, s, selector, Call, 0, false).value;
             && Undisturbed(pg, s, v, callee)
             && IretVerdict(pg, model486, CalleeEnd(v, selector, model486, callee)).Ok?
    ensures var v := SwitchVerdict(pg, model486, s, selector, Call, 0, false).value;
            var back := IretVerdict(pg, model486, CalleeEnd(v, selector, model486, callee)).value;
            var s' := After(back, s.task.tr, Iret, model486);
            && Restored(s, s', model486) && EnteredCpl(back.entered, model486) == Rpl(s.segs[CS.Index()].selector)
            && (SaveApart(pg, s, v.n) ==> BusyAt(pg, s'.mem, s.Current().addr) && !BusyAt(pg, s'.mem, v.n.addr))
  {
    hide Undisturbed, SaveApart, BusyAt, IretVerdict, SwitchVerdict, CalleeEnd, EflagsImage, WritableHigh, LoadableHigh,
         Low16, Rpl;
    var v := SwitchVerdict(pg, model486, s, selector, Call, 0, false).value;
    CallerIsProtected(pg, s, v, callee);
    FlagsRestored(s, model486);
    ReturnsToCaller(pg, model486, s, selector, callee);
    ReturnLoadsSaved(pg, model486, s, selector, callee);
    if SaveApart(pg, s, v.n) {
      ReturnMovesBusy(pg, model486, s, selector, callee);
    }
  }

  method RunCallee(c: Cpu, callee: Callee)
    modifies c`mem, c`regs, c`segs, c`eip, c`flags, c`eflagsHigh, c`storedCpl, c`tables
    ensures StateOf(c) == callee.End(old(StateOf(c)))
  {
    c.mem, c.regs, c.segs, c.eip := callee.mem, callee.regs, callee.segs, callee.eip;
    c.flags, c.eflagsHigh, c.storedCpl := callee.flags, callee.eflagsHigh, callee.cpl;
    c.tables := c.tables.(ldtr := callee.ldtr, ldtrBase := callee.ldtrBase, ldtrLimit := callee.ldtrLimit);
  }

  /** CALLs a task, lets it run and returns by IRET; each of the two switches succeeds exactly as its verdict says. */
  method CallAndReturn(c: Cpu, selector: u16, callee: Callee) returns (called: Outcome<()>, returned: Outcome<()>)
    modifies c
    ensures var s := old(StateOf(c));
            var call := SwitchVerdict(c.paging, c.model486, s, selector, Call, 0, false);
            && called == call.Void()
            && (called.Ok? ==>
                  var back := IretVerdict(c.paging, c.model486, CalleeEnd(call.value, selector, c.model486, callee));
                  && returned == back.Void()
                  && (returned.Ok? && Undisturbed(c.paging, s, call.value, callee) ==>
                        && Restored(s, StateOf(c), c.model486) && c.storedCpl == Rpl(s.segs[CS.Index()].selector)
                        && (SaveApart(c.paging, s, call.value.n) ==>
                              && BusyAt(c.paging, c.mem, s.Current().addr)
                              && !BusyAt(c.paging, c.mem, call.value.n.addr))))
  {
    hide Undisturbed, SaveApart, BusyAt, IretVerdict, SwitchVerdict, Accepted, After, ReadWord, LeftMemory, EnteredCpl,
         Restored, DescriptorSlot, ImageAt, Callee.End, TaskOf;
    ghost var s := StateOf(c);
    returned := Ok(());
    called := SwitchTask(c, selector, Call, 0, false);
    if called.Fault? {
      return;
    }
    ghost var v := SwitchVerdict(c.paging, c.model486, s, selector, Call, 0, false).value;
    RunCallee(c, callee);
    returned := IretTask(c);
    if returned.Ok? && Undisturbed(c.paging, s, v, callee) {
      LinkNamesCaller(c.paging, c.model486, s, selector, callee);
      CallerIsProtected(c.paging, s, v, callee);
      CallReturns(c.paging, c.model486, s, selector, callee);
    }
  }

  lemma LinkNamesCaller(pg: Paging, model486: bool, s: State, selector: u16, callee: Callee)
    requires SwitchVerdict(pg, model486, s, selector, Call, 0, false).Ok?
    requires Undisturbed(pg, s, SwitchVerdict(pg, model486, s, selector, Call, 0, false).value, callee)
    ensures var end := CalleeEnd(
              SwitchVerdict(pg, model486, s, selector, Call, 0, false).value, selector, model486, callee);
            ReadWord(pg, end.mem, end.task.base, false) == Ok(s.task.tr)
  {
    hide Undisturbed, SwitchVerdict, ReadWord;
    ReturnStaysPossible(pg, model486, s, selector, callee);
  }

  // ----- The descriptor caches of the caller -----

  /** A null segment, or one whose cache is what its GDT descriptor holds, marked accessed. */
  ghost predicate FromTable(pg: Paging, mem: Memory, t: Tables, s: Segment) {
    if s.selector < 4 then s == NullSegment(s.selector)
    else
      && s.valid && s.selector / 4 % 2 == 0 && s.desc.rights % 2 == 1
      && DescriptorSlot(t, s.selector).Slot?
      && DecodeAt(pg, mem, DescriptorSlot(t, s.selector).addr) == Ok(s.desc)
  }

  /** A segment whose descriptor is marked already is loaded from it without a change to memory. */
  lemma FromTableIsMarked(pg: Paging, mem: Memory, t: Tables, s: Segment)
    requires FromTable(pg, mem, t, s)
    ensures AccessedMemory(pg, mem, t, s.selector) == Ok(mem)
    ensures s.selector >= 4 ==> Decode(pg, mem, t, s.selector) == Ok(Found(s.desc))
  {
    hide Translate, DecodeAt;
    if s.selector < 4 {
      NullUnmarked(pg, mem, t, s.selector);
    } else {
      DecodedRights(pg, mem, DescriptorSlot(t, s.selector).addr);
    }
  }

  lemma DataFromTable(pg: Paging, mem: Memory, t: Tables, seg: SegReg, s: Segment, cpl: nat, ext: nat)
    requires FromTable(pg, mem, t, s) && DataLoading(pg, mem, t, seg, s.selector, cpl, ext).Ok?
    ensures DataLoading(pg, mem, t, seg, s.selector, cpl, ext).value == Loading(mem, s)
  {
    hide AccessedMemory, Decode, DescriptorSlot, DecodeAt, MayStack, MayAccess, IsPresent;
    FromTableIsMarked(pg, mem, t, s);
  }

  lemma CodeFromTable(pg: Paging, mem: Memory, t: Tables, s: Segment, eip: u32, ext: nat)
    requires FromTable(pg, mem, t, s) && CodeLoading(pg, mem, t, s.selector, eip, ext).Ok?
    ensures CodeLoading(pg, mem, t, s.selector, eip, ext).value == Loading(mem, s)
  {
    hide AccessedMemory, Decode, DescriptorSlot, DecodeAt, MayRun, IsPresent;
    FromTableIsMarked(pg, mem, t, s);
  }

  lemma SegmentsFromTable(pg: Paging, mem: Memory, t: Tables, segs: Segments, selectors: seq<u16>, eip: u32, ext: nat)
    requires |selectors| == 6 && forall i :: 0 <= i < 6 ==> selectors[i] == segs[i].selector
    requires forall i :: 0 <= i < 6 ==> FromTable(pg, mem, t, segs[i])
    requires SegmentsVerdict(pg, mem, t, selectors, eip, ext).Ok?
    ensures SegmentsVerdict(pg, mem, t, selectors, eip, ext).value == LoadedSegments(mem, segs)
  {
    hide DataLoading, CodeLoading, FromTable;
    var cpl := Rpl(selectors[1]);
    DataFromTable(pg, mem, t, SS, segs[2], cpl, ext);
    CodeFromTable(pg, mem, t, segs[1], eip, ext);
    DataFromTable(pg, mem, t, ES, segs[0], cpl, ext);
    DataFromTable(pg, mem, t, DS, segs[3], cpl, ext);
    DataFromTable(pg, mem, t, FS, segs[4], cpl, ext);
    DataFromTable(pg, mem, t, GS, segs[5], cpl, ext);
    assert segs == [segs[0], segs[1], segs[2], segs[3], segs[4], segs[5]];
  }

  /** Changes that keep away from its descriptor leave a segment as its table has it. */
  lemma FromTableSurvives(pg: Paging, m: Memory, m': Memory, t: Tables, t': Tables, s: Segment, region: set<nat>)
    requires FromTable(pg, m, t, s) && OnlyChanged(m, m', region)
    requires t.gdtBase == t'.gdtBase && t.gdtLimit == t'.gdtLimit
    requires s.selector >= 4 ==> Region(pg, DescriptorSlot(t, s.selector).addr, 8) !! region
    ensures FromTable(pg, m', t', s)
  {
    hide OnlyChanged, Region, DecodeAt, DescriptorSlot;
    if s.selector >= 4 {
      SameGdtSlot(t, t', s.selector);
      DecodeUnchanged(pg, m, m', DescriptorSlot(t, s.selector).addr, region);
    }
  }

  /** Everything that a call, its callee and the return write before the caller's segments are loaded again. */
  ghost function RoundTripBytes(pg: Paging, model486: bool, s: State, selector: u16, v: Switched, callee: Callee)
    : set<nat>
    requires |v.entered.image.selectors| == 6
  {
    var end := CalleeEnd(v, selector, model486, callee);
    var link := ReadWord(pg, end.mem, end.task.base, false);
    var back := if link.Ok? then TaskAt(pg, end.mem, end.tables, link.value, Iret, 0) else Fault(0, 0);
    LeaveBytes(pg, s, v.n, Call) + Marks(pg, v.entered) + Changed(v.entered.fitted.mem, callee.mem)
    + if back.Ok? then LeaveBytes(pg, end, back.value, Iret) else {}
  }

  /** All that is written on the way lies in these bytes. */
  lemma RoundTripChanges(pg: Paging, model486: bool, s: State, selector: u16, callee: Callee)
    requires SwitchVerdict(pg, model486, s, selector, Call, 0, false).Ok?
    requires var v := SwitchVerdict(pg, model486, s, selector, Call, 0, false).value;
             IretVerdict(pg, model486, CalleeEnd(v, selector, model486, callee)).Ok?
    ensures var v := SwitchVerdict(pg, model486, s, selector, Call, 0, false).value;
            var back := IretVerdict(pg, model486, CalleeEnd(v, selector, model486, callee)).value;
            OnlyChanged(s.mem, back.left, RoundTripBytes(pg, model486, s, selector, v, callee))
  {
    hide OnlyChanged, LeaveBytes, Marks, Changed, SwitchVerdict, ReadWord;
    var v := SwitchVerdict(pg, model486, s, selector, Call, 0, false).value;
    var end := CalleeEnd(v, selector, model486, callee);
    var link := ReadWord(pg, end.mem, end.task.base, false).value;
    var back := IretVerdict(pg, model486, end).value;
    var all := RoundTripBytes(pg, model486, s, selector, v, callee);
    SwitchChanges(pg, model486, s, selector, Call, 0, false);
    SwitchChanges(pg, model486, end, link, Iret, 0, false);
    AcceptedIsVerdict(pg, model486, end, link);
    ChangedIsAll(v.entered.fitted.mem, callee.mem);
    Grow(s.mem, v.left, LeaveBytes(pg, s, v.n, Call), all);
    Extend(s.mem, v.left, v.entered.fitted.mem, Marks(pg, v.entered), all);
    Extend(s.mem, v.entered.fitted.mem, callee.mem, Changed(v.entered.fitted.mem, callee.mem), all);
    Extend(s.mem, callee.mem, back.left, LeaveBytes(pg, end, back.n, Iret), all);
  }

  lemma AcceptedIsVerdict(pg: Paging, model486: bool, s: State, selector: u16)
    requires SwitchVerdict(pg, model486, s, selector, Iret, 0, false).Ok?
    ensures TaskAt(pg, s.mem, s.tables, selector, Iret, 0)
         == Ok(SwitchVerdict(pg, model486, s, selector, Iret, 0, false).value.n)
  {
    hide TaskAt, PreTranslation, LeftMemory, EnterVerdict;
  }

  /**
    If the caller's segments are as the GDT has them and nothing on the way touches their descriptors, the return
    restores the six registers with their caches.
   */
  lemma CachesReturn(pg: Paging, model486: bool, s: State, selector: u16, callee: Callee)
    requires SwitchVerdict(pg, model486, s, selector, Call, 0, false).Ok?
    requires var v := SwitchVerdict(pg, model486, s, selector, Call, 0, false).value;
             && Undisturbed(pg, s, v, callee)
             && IretVerdict(pg, model486, CalleeEnd(v, selector, model486, callee)).Ok?
             && forall i :: 0 <= i < 6 ==>
                  && FromTable(pg, s.mem, s.tables, s.segs[i])
                  && (s.segs[i].selector >= 4 ==>
                        Region(pg, DescriptorSlot(s.tables, s.segs[i].selector).addr, 8)
                        !! RoundTripBytes(pg, model486, s, selector, v, callee))
    ensures var v := SwitchVerdict(pg, model486, s, selector, Call, 0, false).value;
            IretVerdict(pg, model486, CalleeEnd(v, selector, model486, callee)).value.entered.fitted.segs == s.segs
  {
    hide FromTable, RoundTripBytes, Undisturbed, SwitchVerdict, IretVerdict, CalleeEnd, Region, EflagsImage,
         DescriptorSlot;
    var v := SwitchVerdict(pg, model486, s, selector, Call, 0, false).value;
    var back := IretVerdict(pg, model486, CalleeEnd(v, selector, model486, callee)).value;
    ReturnLoadsSaved(pg, model486, s, selector, callee);
    RoundTripChanges(pg, model486, s, selector, callee);
    var t := back.entered.fitted.tables;
    ReturnKeepsGdt(pg, model486, s, selector, callee);
    forall i | 0 <= i < 6
      ensures FromTable(pg, back.left, t, s.segs[i])
    {
      FromTableSurvives(
        pg, s.mem, back.left, s.tables, t, s.segs[i], RoundTripBytes(pg, model486, s, selector, v, callee));
    }
    ReturnEntersSegments(pg, model486, s, selector, callee);
    SegmentsFromTable(
      pg, back.left, t, s.segs, back.entered.image.selectors, back.entered.image.eip, 0);
  }

  lemma ReturnKeepsGdt(pg: Paging, model486: bool, s: State, selector: u16, callee: Callee)
    requires SwitchVerdict(pg, model486, s, selector, Call, 0, false).Ok?
    requires var v := SwitchVerdict(pg, model486, s, selector, Call, 0, false).value;
             IretVerdict(pg, model486, CalleeEnd(v, selector, model486, callee)).Ok?
    ensures var v := SwitchVerdict(pg, model486, s, selector, Call, 0, false).value;
            var t := IretVerdict(pg, model486, CalleeEnd(v, selector, model486, callee)).value.entered.fitted.tables;
            t.gdtBase == s.tables.gdtBase && t.gdtLimit == s.tables.gdtLimit
  {
    hide SwitchVerdict, ReadWord, OnlyChanged, LeaveBytes, Marks;
    var v := SwitchVerdict(pg, model486, s, selector, Call, 0, false).value;
    var end := CalleeEnd(v, selector, model486, callee);
    SwitchChanges(pg, model486, s, selector, Call, 0, false);
    SwitchChanges(pg, model486, end, ReadWord(pg, end.mem, end.task.base, false).value, Iret, 0, false);
  }

  /** The caller is no virtual-8086 task, so its segments come from their descriptors. */
  lemma ReturnEntersSegments(pg: Paging, model486: bool, s: State, selector: u16, callee: Callee)
    requires SwitchVerdict(pg, model486, s, selector, Call, 0, false).Ok?
    requires var v := SwitchVerdict(pg, model486, s, selector, Call, 0, false).value;
             && Undisturbed(pg, s, v, callee)
             && IretVerdict(pg, model486, CalleeEnd(v, selector, model486, callee)).Ok?
    ensures var v := SwitchVerdict(pg, model486, s, selector, Call, 0, false).value;
            var back := IretVerdict(pg, model486, CalleeEnd(v, selector, model486, callee)).value;
            var e := back.entered;
            var loaded := SegmentsVerdict(pg, back.left, e.fitted.tables, e.image.selectors, e.image.eip, 0);
            loaded.Ok? && loaded.value.segs == e.fitted.segs
  {
    hide SwitchVerdict, Undisturbed, SegmentsVerdict, ReadWord, EflagsImage, WritableHigh, LoadableHigh, Low16,
         CalleeEnd;
    var v := SwitchVerdict(pg, model486, s, selector, Call, 0, false).value;
    var end := CalleeEnd(v, selector, model486, callee);
    CallerIsProtected(pg, s, v, callee);
    FlagsRestored(s, model486);
    ReturnLoadsSaved(pg, model486, s, selector, callee);
    SwitchLoads(pg, model486, end, ReadWord(pg, end.mem, end.task.base, false).value, Iret, 0, false);
  }
}
