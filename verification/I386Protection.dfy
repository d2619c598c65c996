/**
  Protected-mode segment loads and far returns of crates/cpu/src/i386.rs, and
  the protection state that every successful operation keeps.
 */
module I386Protection {
  import opened I386Memory
  import opened I386Cpu

  // ----- The protection state -----

  /** A usable data segment is readable, and conforming code or no more privileged than the level. */
  predicate DataSegmentOk(s: Segment, cpl: nat) {
    s.valid ==> IsReadable(s.desc.rights) && (IsConforming(s.desc.rights) || Dpl(s.desc.rights) >= cpl)
  }

  /** A usable stack segment is writable and belongs to exactly the current level. */
  predicate StackSegmentOk(s: Segment, cpl: nat) {
    s.valid ==> IsWritable(s.desc.rights) && Dpl(s.desc.rights) == cpl
  }

  /** The code segment runs at its own level, or at a less privileged one if it conforms. */
  predicate CodeSegmentOk(s: Segment, cpl: nat) {
    s.valid ==>
      && IsCode(s.desc.rights)
      && if IsConforming(s.desc.rights) then Dpl(s.desc.rights) <= cpl else Dpl(s.desc.rights) == cpl
  }

  ghost predicate Protected(segs: Segments, cpl: nat) {
    && cpl <= 3
    && CodeSegmentOk(segs[CS.Index()], cpl) && StackSegmentOk(segs[SS.Index()], cpl)
    && DataSegmentOk(segs[ES.Index()], cpl) && DataSegmentOk(segs[DS.Index()], cpl)
    && DataSegmentOk(segs[FS.Index()], cpl) && DataSegmentOk(segs[GS.Index()], cpl)
  }

  // ----- What the manual allows, independent of the order of the checks -----

  predicate IsData(seg: SegReg) {
    seg == ES || seg == DS || seg == FS || seg == GS
  }

  /** A code segment that a transfer which keeps the level may enter. */
  predicate MayEnter(rights: u8, cpl: nat, rpl: nat) {
    && IsSegment(rights) && IsCode(rights)
    && if IsConforming(rights) then Dpl(rights) <= cpl else Dpl(rights) == cpl && rpl <= cpl
  }

  predicate MayStack(rights: u8, cpl: nat, rpl: nat) {
    IsSegment(rights) && IsWritable(rights) && Dpl(rights) == cpl && rpl == cpl
  }

  predicate MayAccess(rights: u8, cpl: nat, rpl: nat) {
    && IsSegment(rights) && IsReadable(rights)
    && (IsConforming(rights) || (Dpl(rights) >= cpl && Dpl(rights) >= rpl))
  }

  predicate MayLoad(seg: SegReg, rights: u8, cpl: nat, rpl: nat) {
    match seg
    case CS => MayEnter(rights, cpl, rpl)
    case SS => MayStack(rights, cpl, rpl)
    case _ => MayAccess(rights, cpl, rpl)
  }

  /** The descriptor a load may use, or the fault it raises. */
  function LoadVerdict(seg: SegReg, selector: u16, cpl: nat, lookup: Outcome<Lookup>): Outcome<Descriptor> {
    var found :- lookup;
    if found.NoDescriptor? || !MayLoad(seg, found.desc.rights, cpl, Rpl(selector)) then
      Fault(PROTECTION, ErrorCode(selector))
    else if !IsPresent(found.desc.rights) then
      Fault(if seg == SS then STACK_FAULT else NOT_PRESENT, ErrorCode(selector))
    else Ok(found.desc)
  }

  function WithRpl(selector: u16, rpl: nat): (s: u16)
    requires rpl <= 3
    ensures Rpl(s) == rpl
  {
    selector - selector % 4 + rpl
  }

  /** The accessed bit of the descriptor can be set. */
  predicate CanMarkAccessed(c: Cpu, selector: u16)
    reads c`mem, c`tables
  {
    AccessedMemory(c.paging, c.mem, c.tables, selector).Ok?
  }

  function LookUp(c: Cpu, selector: u16): Outcome<Lookup>
    reads c`mem, c`tables
  {
    Decode(c.paging, c.mem, c.tables, selector)
  }

  // ----- Loads -----

  /** Loads a segment register; the level never changes, and a fault changes nothing. */
  method LoadProtectedSegment(c: Cpu, seg: SegReg, selector: u16) returns (r: Outcome<()>)
    requires !c.Vm() && c.storedCpl <= 3
    modifies c`mem, c`segs, c`storedCpl
    ensures c.storedCpl == old(c.storedCpl)
    ensures r.Fault? ==> c.segs == old(c.segs) && c.mem == old(c.mem)
    ensures selector < 4 ==>
      if IsData(seg) then r.Ok? && c.mem == old(c.mem) && c.segs == old(c.segs)[seg.Index() := NullSegment(selector)]
      else r == Fault(PROTECTION, 0)
    ensures selector >= 4 ==>
      var verdict := old(LoadVerdict(seg, selector, c.storedCpl, LookUp(c, selector)));
      var marked := old(AccessedMemory(c.paging, c.mem, c.tables, selector));
      match verdict {
        case Fault(v, e) => r == Fault(v, e)
        case Ok(d) =>
          if marked.Fault? then r == Fault(marked.vector, marked.code)
          else
            && r.Ok? && c.mem == marked.value
            && c.segs == old(c.segs)[
                 seg.Index() := Segment(if seg == CS then WithRpl(selector, c.storedCpl) else selector, d, true)]
      }
    ensures r.Ok? && old(Protected(c.segs, c.storedCpl)) ==> Protected(c.segs, c.storedCpl)
  {
    hide DecodeAt, AccessedMemory, IsReadable, IsWritable, IsCode, IsSegment, IsPresent, Dpl;
    if IsData(seg) && selector < 4 {
      c.SetNull(seg, selector);
      return Ok(());
    }
    if selector < 4 {
      return Fault(PROTECTION, 0);
    }
    var lookup := Decode(c.paging, c.mem, c.tables, selector);
    if lookup.Fault? {
      return Fault(lookup.vector, lookup.code);
    }
    if lookup.value.NoDescriptor? {
      return Fault(PROTECTION, ErrorCode(selector));
    }
    var d := lookup.value.desc;
    var cpl := c.Cpl();
    var rpl := Rpl(selector);
    var dpl := Dpl(d.rights);
    match seg {
      case CS =>
        if !IsSegment(d.rights) || !IsCode(d.rights) {
          return Fault(PROTECTION, ErrorCode(selector));
        }
        if IsConforming(d.rights) {
          if dpl > cpl {
            return Fault(PROTECTION, ErrorCode(selector));
          }
        } else if dpl != cpl || rpl > cpl {
          return Fault(PROTECTION, ErrorCode(selector));
        }
        if !IsPresent(d.rights) {
          return Fault(NOT_PRESENT, ErrorCode(selector));
        }
        r := c.SetAccessedBit(selector);
        if r.Ok? {
          c.SetLoaded(CS, WithRpl(selector, if IsConforming(d.rights) then cpl else dpl), d);
        }
        return;
      case SS =>
        if !IsSegment(d.rights) || !IsWritable(d.rights) {
          return Fault(PROTECTION, ErrorCode(selector));
        }
        if dpl != cpl || rpl != cpl {
          return Fault(PROTECTION, ErrorCode(selector));
        }
        if !IsPresent(d.rights) {
          return Fault(STACK_FAULT, ErrorCode(selector));
        }
      case _ =>
        if !IsSegment(d.rights) {
          return Fault(PROTECTION, ErrorCode(selector));
        }
        if !IsReadable(d.rights) {
          return Fault(PROTECTION, ErrorCode(selector));
        }
        if !IsConforming(d.rights) && dpl < (if cpl > rpl then cpl else rpl) {
          return Fault(PROTECTION, ErrorCode(selector));
        }
        if !IsPresent(d.rights) {
          return Fault(NOT_PRESENT, ErrorCode(selector));
        }
    }
    r := c.SetAccessedBit(selector);
    if r.Ok? {
      c.SetLoaded(seg, selector, d);
    }
  }

  // ----- Far returns -----

  /** A code segment that a return to level `rpl` may enter. */
  predicate MayReturnTo(rights: u8, cpl: nat, rpl: nat) {
    && cpl <= rpl && IsSegment(rights) && IsCode(rights)
    && if IsConforming(rights) then Dpl(rights) <= rpl else Dpl(rights) == rpl
  }

  function CsReturnVerdict(selector: u16, newIp: u32, cpl: nat, lookup: Outcome<Lookup>): Outcome<Descriptor> {
    if selector < 4 then Fault(PROTECTION, 0)
    else
      var found :- lookup;
      if found.NoDescriptor? || !MayReturnTo(found.desc.rights, cpl, Rpl(selector)) then
        Fault(PROTECTION, ErrorCode(selector))
      else if !IsPresent(found.desc.rights) then Fault(NOT_PRESENT, ErrorCode(selector))
      else if newIp > found.desc.limit then Fault(PROTECTION, 0)
      else Ok(found.desc)
  }

  function SsReturnVerdict(selector: u16, cpl: nat, lookup: Outcome<Lookup>): Outcome<Descriptor> {
    if selector < 4 then Fault(PROTECTION, 0)
    else
      var found :- lookup;
      if found.NoDescriptor? || !MayStack(found.desc.rights, cpl, Rpl(selector)) then
        Fault(PROTECTION, ErrorCode(selector))
      else if !IsPresent(found.desc.rights) then Fault(STACK_FAULT, ErrorCode(selector))
      else Ok(found.desc)
  }

  /** A data segment after a return to level `cpl`: reloaded, or made null if that level may not use it. */
  function DataAfterReturn(s: Segment, cpl: nat, lookup: Outcome<Lookup>): Outcome<Segment> {
    if !s.valid then Ok(s)
    else if s.selector < 4 then Ok(NullSegment(s.selector))
    else
      var found :- lookup;
      if found.Found? && MayAccess(found.desc.rights, cpl, Rpl(s.selector)) && IsPresent(found.desc.rights) then
        Ok(Segment(s.selector, found.desc, true))
      else Ok(NullSegment(0))
  }

  method ValidateCsForReturn(c: Cpu, selector: u16, newIp: u32) returns (r: Outcome<Descriptor>)
    requires !c.Vm()
    ensures r == CsReturnVerdict(selector, newIp, c.storedCpl, LookUp(c, selector))
  {
    hide DecodeAt, IsReadable, IsWritable, IsCode, IsSegment, IsPresent, Dpl;
    if selector < 4 {
      return Fault(PROTECTION, 0);
    }
    var lookup := Decode(c.paging, c.mem, c.tables, selector);
    if lookup.Fault? {
      return Fault(lookup.vector, lookup.code);
    }
    if lookup.value.NoDescriptor? {
      return Fault(PROTECTION, ErrorCode(selector));
    }
    var rights := lookup.value.desc.rights;
    var rpl := Rpl(selector);
    if rpl < c.Cpl() {
      return Fault(PROTECTION, ErrorCode(selector));
    }
    if !IsSegment(rights) || !IsCode(rights) {
      return Fault(PROTECTION, ErrorCode(selector));
    }
    if IsConforming(rights) {
      if Dpl(rights) > rpl {
        return Fault(PROTECTION, ErrorCode(selector));
      }
    } else if Dpl(rights) != rpl {
      return Fault(PROTECTION, ErrorCode(selector));
    }
    if !IsPresent(rights) {
      return Fault(NOT_PRESENT, ErrorCode(selector));
    }
    if newIp > lookup.value.desc.limit {
      return Fault(PROTECTION, 0);
    }
    return Ok(lookup.value.desc);
  }

  method ValidateSsForReturn(c: Cpu, selector: u16, targetCpl: nat) returns (r: Outcome<Descriptor>)
    ensures r == SsReturnVerdict(selector, targetCpl, LookUp(c, selector))
  {
    hide DecodeAt, IsReadable, IsWritable, IsCode, IsSegment, IsPresent, Dpl;
    if selector < 4 {
      return Fault(PROTECTION, 0);
    }
    var lookup := Decode(c.paging, c.mem, c.tables, selector);
    if lookup.Fault? {
      return Fault(lookup.vector, lookup.code);
    }
    if lookup.value.NoDescriptor? || Rpl(selector) != targetCpl {
      return Fault(PROTECTION, ErrorCode(selector));
    }
    var rights := lookup.value.desc.rights;
    if !IsSegment(rights) || !IsWritable(rights) || Dpl(rights) != targetCpl {
      return Fault(PROTECTION, ErrorCode(selector));
    }
    if !IsPresent(rights) {
      return Fault(STACK_FAULT, ErrorCode(selector));
    }
    return Ok(lookup.value.desc);
  }

  /** What a return does to one data segment, decided before anything is committed. */
  datatype Decision = NoChange | Null(selector: u16) | Keep(selector: u16, desc: Descriptor) {
    function Apply(s: Segment): Segment {
      match this
      case NoChange => s
      case Null(selector) => NullSegment(selector)
      case Keep(selector, desc) => Segment(selector, desc, true)
    }
  }

  method CheckDataSegmentAtCpl(c: Cpu, seg: SegReg, newCpl: nat) returns (r: Outcome<Decision>)
    ensures var after := DataAfterReturn(c.Seg(seg), newCpl, LookUp(c, c.Seg(seg).selector));
            if after.Ok? then r.Ok? && r.value.Apply(c.Seg(seg)) == after.value
            else r == Fault(after.vector, after.code)
  {
    hide DecodeAt, IsSegment, IsPresent, Dpl;
    if !c.Seg(seg).valid {
      return Ok(NoChange);
    }
    var selector := c.Seg(seg).selector;
    if selector < 4 {
      return Ok(Null(selector));
    }
    var lookup := Decode(c.paging, c.mem, c.tables, selector);
    if lookup.Fault? {
      return Fault(lookup.vector, lookup.code);
    }
    if lookup.value.NoDescriptor? {
      return Ok(Null(0));
    }
    var d := lookup.value.desc;
    if !IsSegment(d.rights) {
      return Ok(Null(0));
    }
    if IsCode(d.rights) && !IsReadable(d.rights) {
      return Ok(Null(0));
    }
    if !IsPresent(d.rights) {
      return Ok(Null(0));
    }
    if !IsConforming(d.rights) {
      if Dpl(d.rights) < newCpl || Dpl(d.rights) < Rpl(selector) {
        return Ok(Null(0));
      }
    }
    return Ok(Keep(selector, d));
  }

  method ApplyDecision(c: Cpu, seg: SegReg, d: Decision)
    requires seg != CS
    modifies c`segs, c`storedCpl
    ensures c.segs == old(c.segs)[seg.Index() := d.Apply(old(c.Seg(seg)))]
    ensures c.storedCpl == old(c.storedCpl)
  {
    match d {
      case NoChange =>
        assert c.segs == c.segs[seg.Index() := c.Seg(seg)];
      case Null(selector) =>
        c.SetNull(seg, selector);
      case Keep(selector, desc) =>
        c.SetLoaded(seg, selector, desc);
    }
  }

  /** Everything a return to an outer level validates: the new CS and SS, and the four data segments. */
  datatype OuterReturn = OuterReturn(cs: Descriptor, ss: Descriptor, ds: Segment, es: Segment, fs: Segment, gs: Segment)

  function OuterVerdict(c: Cpu, newCs: u16, newEip: u32, newSs: u16): Outcome<OuterReturn>
    reads c`mem, c`tables, c`segs, c`storedCpl
  {
    var cpl := Rpl(newCs);
    var ss :- SsReturnVerdict(newSs, cpl, LookUp(c, newSs));
    var cs :- CsReturnVerdict(newCs, newEip, c.storedCpl, LookUp(c, newCs));
    var ds :- DataAfterReturn(c.Seg(DS), cpl, LookUp(c, c.Seg(DS).selector));
    var es :- DataAfterReturn(c.Seg(ES), cpl, LookUp(c, c.Seg(ES).selector));
    var fs :- DataAfterReturn(c.Seg(FS), cpl, LookUp(c, c.Seg(FS).selector));
    var gs :- DataAfterReturn(c.Seg(GS), cpl, LookUp(c, c.Seg(GS).selector));
    Ok(OuterReturn(cs, ss, ds, es, fs, gs))
  }

  /** ES, CS, SS, DS, FS and GS after a return to an outer level. */
  function SegmentsAfterReturn(p: OuterReturn, newCs: u16, newSs: u16): Segments {
    [p.es, Segment(newCs, p.cs, true), Segment(newSs, p.ss, true), p.ds, p.fs, p.gs]
  }

  /** The accessed bit of CS can be set, but then not that of SS. */
  predicate StackMarkFails(c: Cpu, newCs: u16, newSs: u16)
    reads c`mem, c`tables
  {
    var marked := AccessedMemory(c.paging, c.mem, c.tables, newCs);
    marked.Ok? && AccessedMemory(c.paging, marked.value, c.tables, newSs).Fault?
  }

  /** The validated operands of a return to an outer level. */
  datatype OuterPlan = OuterPlan(cs: Descriptor, ss: Descriptor, ds: Decision, es: Decision, fs: Decision, gs: Decision)

  /** What the plan makes of the data segments. */
  function PlannedReturn(c: Cpu, p: OuterPlan): OuterReturn
    reads c`segs
  {
    OuterReturn(
      p.cs, p.ss, p.ds.Apply(c.Seg(DS)), p.es.Apply(c.Seg(ES)), p.fs.Apply(c.Seg(FS)), p.gs.Apply(c.Seg(GS)))
  }

  method ValidateOuter(c: Cpu, newCs: u16, newEip: u32, newSs: u16) returns (r: Outcome<OuterPlan>)
    requires !c.Vm()
    ensures var verdict := OuterVerdict(c, newCs, newEip, newSs);
            if verdict.Ok? then r.Ok? && verdict.value == PlannedReturn(c, r.value)
            else r == Fault(verdict.vector, verdict.code)
  {
    hide Decode, SsReturnVerdict, CsReturnVerdict, DataAfterReturn, Decision.Apply;
    var cpl := Rpl(newCs);
    var ss := ValidateSsForReturn(c, newSs, cpl);
    if ss.Fault? {
      return Fault(ss.vector, ss.code);
    }
    var cs := ValidateCsForReturn(c, newCs, newEip);
    if cs.Fault? {
      return Fault(cs.vector, cs.code);
    }
    var ds := CheckDataSegmentAtCpl(c, DS, cpl);
    if ds.Fault? {
      return Fault(ds.vector, ds.code);
    }
    var es := CheckDataSegmentAtCpl(c, ES, cpl);
    if es.Fault? {
      return Fault(es.vector, es.code);
    }
    var fs := CheckDataSegmentAtCpl(c, FS, cpl);
    if fs.Fault? {
      return Fault(fs.vector, fs.code);
    }
    var gs := CheckDataSegmentAtCpl(c, GS, cpl);
    if gs.Fault? {
      return Fault(gs.vector, gs.code);
    }
    return Ok(OuterPlan(cs.value, ss.value, ds.value, es.value, fs.value, gs.value));
  }

  /** The return operands are valid, and both accessed bits can be set. */
  predicate OuterCompletes(c: Cpu, newCs: u16, newEip: u32, newSs: u16)
    reads c`mem, c`tables, c`segs, c`storedCpl
  {
    OuterVerdict(c, newCs, newEip, newSs).Ok? && CanMarkAccessed(c, newCs) && !StackMarkFails(c, newCs, newSs)
  }

  /** Loads what was validated: CS and EIP first, then the stack and the data segments. */
  method CommitOuter(c: Cpu, newCs: u16, newEip: u32, newSs: u16, newEsp: u32, p: OuterPlan) returns (r: Outcome<()>)
    requires !c.Vm() && c.storedCpl < Rpl(newCs)
    modifies c`mem, c`segs, c`storedCpl, c`regs, c`eip
    ensures r.Ok? <==> old(CanMarkAccessed(c, newCs)) && !old(StackMarkFails(c, newCs, newSs))
    ensures r.Ok? ==>
      && c.segs == old(SegmentsAfterReturn(PlannedReturn(c, p), newCs, newSs))
      && c.storedCpl == Rpl(newCs) && c.eip == newEip && c.regs == WithStackPointer(c.Seg(SS), old(c.regs), newEsp)
    ensures r.Fault? ==>
      && c.regs == old(c.regs)
      && (c.storedCpl == old(c.storedCpl) && c.segs == old(c.segs) && c.eip == old(c.eip) && c.mem == old(c.mem)
          <==> !old(StackMarkFails(c, newCs, newSs)))
    ensures r.Fault? && old(StackMarkFails(c, newCs, newSs)) ==>
      && c.segs == old(c.segs)[CS.Index() := Segment(newCs, p.cs, true)]
      && c.storedCpl == Rpl(newCs) && c.eip == newEip
  {
    hide Decode, AccessedMemory, WithStackPointer, Decision.Apply;
    r := c.SetAccessedBit(newCs);
    if r.Fault? {
      return;
    }
    c.SetLoaded(CS, WithRpl(newCs, Rpl(newCs)), p.cs);
    c.eip := newEip;
    r := c.SetAccessedBit(newSs);
    if r.Fault? {
      return;
    }
    c.SetLoaded(SS, newSs, p.ss);
    c.regs := WithStackPointer(c.Seg(SS), c.regs, newEsp);
    ApplyDecision(c, DS, p.ds);
    ApplyDecision(c, ES, p.es);
    ApplyDecision(c, FS, p.fs);
    ApplyDecision(c, GS, p.gs);
  }

  /**
    A return to an outer level. A fault leaves the caller's state as it was if and only if
    it is not the accessed bit of the new SS that cannot be set: by then CS is loaded.
   */
  method CommitReturnOuter(c: Cpu, newCs: u16, newEip: u32, newSs: u16, newEsp: u32) returns (r: Outcome<()>)
    requires !c.Vm() && c.storedCpl < Rpl(newCs)
    modifies c`mem, c`segs, c`storedCpl, c`regs, c`eip
    ensures var verdict := old(OuterVerdict(c, newCs, newEip, newSs));
            var tear := old(StackMarkFails(c, newCs, newSs));
            && (r.Ok? <==> old(OuterCompletes(c, newCs, newEip, newSs)))
            && (r.Ok? ==>
                  && c.segs == SegmentsAfterReturn(verdict.value, newCs, newSs)
                  && c.storedCpl == Rpl(newCs) && c.eip == newEip
                  && c.regs == WithStackPointer(c.Seg(SS), old(c.regs), newEsp))
            && (verdict.Fault? ==> r == Fault(verdict.vector, verdict.code))
            && (r.Fault? ==>
                  && c.regs == old(c.regs)
                  && (c.storedCpl == old(c.storedCpl) && c.segs == old(c.segs) && c.eip == old(c.eip)
                      && c.mem == old(c.mem)
                      <==> !(verdict.Ok? && tear))
                  && (verdict.Ok? && tear ==>
                        && c.segs == old(c.segs)[CS.Index() := Segment(newCs, verdict.value.cs, true)]
                        && c.storedCpl == Rpl(newCs) && c.eip == newEip))
    ensures r.Ok? ==> Protected(c.segs, c.storedCpl)
  {
    hide Decode, AccessedMemory, SsReturnVerdict, CsReturnVerdict, DataAfterReturn, WithStackPointer, Protected,
         Decision.Apply;
    var plan := ValidateOuter(c, newCs, newEip, newSs);
    if plan.Fault? {
      return Fault(plan.vector, plan.code);
    }
    OuterReturnProtects(c, newCs, newEip, newSs);
    r := CommitOuter(c, newCs, newEip, newSs, newEsp, plan.value);
  }

  /** What a return to an outer level loads is fit for that level. */
  lemma OuterReturnProtects(c: Cpu, newCs: u16, newEip: u32, newSs: u16)
    requires OuterVerdict(c, newCs, newEip, newSs).Ok?
    ensures Protected(SegmentsAfterReturn(OuterVerdict(c, newCs, newEip, newSs).value, newCs, newSs), Rpl(newCs))
  {
    hide Decode, IsReadable, IsWritable, IsCode, IsSegment, IsPresent, Dpl;
    var p := OuterVerdict(c, newCs, newEip, newSs).value;
    assert DataSegmentOk(p.ds, Rpl(newCs)) && DataSegmentOk(p.es, Rpl(newCs));
    assert DataSegmentOk(p.fs, Rpl(newCs)) && DataSegmentOk(p.gs, Rpl(newCs));
  }

  /** A return within the level: only CS, EIP and the stack pointer change, together or not at all. */
  method CommitReturnSame(c: Cpu, newCs: u16, newEip: u32, newEsp: u32) returns (r: Outcome<()>)
    requires !c.Vm() && Rpl(newCs) <= c.storedCpl <= 3
    modifies c`mem, c`segs, c`storedCpl, c`regs, c`eip
    ensures var verdict := old(CsReturnVerdict(newCs, newEip, c.storedCpl, LookUp(c, newCs)));
            && (r.Ok? <==> verdict.Ok? && old(CanMarkAccessed(c, newCs)))
            && (verdict.Fault? ==> r == Fault(verdict.vector, verdict.code))
            && (r.Ok? ==>
                  && c.segs == old(c.segs)[CS.Index() := Segment(newCs, verdict.value, true)]
                  && c.eip == newEip
                  && c.regs == WithStackPointer(old(c.Seg(SS)), old(c.regs), newEsp))
    ensures r.Fault? ==>
      c.mem == old(c.mem) && c.segs == old(c.segs) && c.regs == old(c.regs) && c.eip == old(c.eip)
    ensures c.storedCpl == old(c.storedCpl) && (r.Ok? ==> Rpl(newCs) == c.storedCpl)
    ensures r.Ok? && old(Protected(c.segs, c.storedCpl)) ==> Protected(c.segs, c.storedCpl)
  {
    hide Decode, AccessedMemory, WithStackPointer, IsReadable, IsWritable, IsCode, IsSegment, IsPresent, Dpl;
    var cs := ValidateCsForReturn(c, newCs, newEip);
    if cs.Fault? {
      return Fault(cs.vector, cs.code);
    }
    r := c.SetAccessedBit(newCs);
    if r.Fault? {
      return;
    }
    c.SetLoaded(CS, WithRpl(newCs, Rpl(newCs)), cs.value);
    c.regs := WithStackPointer(c.Seg(SS), c.regs, newEsp);
    c.eip := newEip;
  }
}
