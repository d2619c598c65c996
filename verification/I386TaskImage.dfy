/**
  The state that a task switch of crates/cpu/src/i386.rs saves in one TSS and
  loads from another: equally spaced fields in linear memory.
 */
module I386TaskImage {
  import opened I386Memory
  import opened I386Cpu

  /** Fields of `size` bytes, `stride` bytes apart. */
  datatype Fields = Fields(start: u32, stride: nat, size: nat) {
    predicate Sized() {
      (stride == 2 || stride == 4) && (size == 2 || size == 4) && size <= stride
    }

    function Scale(i: nat): nat {
      if stride == 2 then 2 * i else 4 * i
    }

    function At(i: nat): u32 {
      Plus(start, Scale(i))
    }

    /** The fields hold `values`, one each. */
    ghost predicate Hold(pg: Paging, mem: Memory, values: seq<nat>) {
      forall i {:trigger values[i]} :: 0 <= i < |values| ==> ReadLinear(pg, mem, At(i), size, false) == Ok(values[i])
    }

    /** The physical bytes of the first `n` fields. */
    ghost function Bytes(pg: Paging, n: nat): set<nat> {
      Region(pg, start, Scale(n))
    }

    lemma FieldInBytes(pg: Paging, i: nat, n: nat)
      requires Sized() && i < n
      ensures Region(pg, At(i), size) <= Bytes(pg, n)
    {
      RegionPart(pg, start, Scale(n), Scale(i), size);
    }

    lemma FieldsApart(pg: Paging, i: nat, j: nat)
      requires Sized() && i < j <= 64
      ensures Region(pg, At(i), size) !! Region(pg, At(j), size)
    {
      PartsApart(pg, start, Scale(i), size, Scale(j), size);
    }

    /** Writing the next field keeps the earlier ones. */
    lemma HoldAfterWrite(pg: Paging, mem: Memory, mem': Memory, values: seq<nat>, v: nat)
      requires Sized() && |values| < 64 && Hold(pg, mem, values)
      requires OnlyChanged(mem, mem', Region(pg, At(|values|), size))
      requires ReadLinear(pg, mem', At(|values|), size, false) == Ok(v)
      ensures Hold(pg, mem', values + [v])
    {
      hide At, Region, ReadLinear, OnlyChanged;
      forall i | 0 <= i < |values| + 1
        ensures ReadLinear(pg, mem', At(i), size, false) == Ok((values + [v])[i])
      {
        if i < |values| {
          assert ReadLinear(pg, mem, At(i), size, false) == Ok(values[i]);
          FieldsApart(pg, i, |values|);
          ReadUnchanged(pg, mem, mem', At(i), size, Region(pg, At(|values|), size));
        }
      }
    }

    /** Changes elsewhere keep the fields. */
    lemma HoldUnchanged(pg: Paging, mem: Memory, mem': Memory, values: seq<nat>, region: set<nat>)
      requires Sized() && Hold(pg, mem, values)
      requires OnlyChanged(mem, mem', region) && Bytes(pg, |values|) !! region
      ensures Hold(pg, mem', values)
    {
      hide At, Region, ReadLinear, OnlyChanged, Bytes;
      forall i | 0 <= i < |values|
        ensures ReadLinear(pg, mem', At(i), size, false) == Ok(values[i])
      {
        assert ReadLinear(pg, mem, At(i), size, false) == Ok(values[i]);
        FieldInBytes(pg, i, |values|);
        ReadUnchanged(pg, mem, mem', At(i), size, region);
      }
    }

    /** The same fields cannot hold two different lists of values. */
    lemma HoldUnique(pg: Paging, mem: Memory, values: seq<nat>, values': seq<nat>)
      requires Hold(pg, mem, values) && Hold(pg, mem, values') && |values| == |values'|
      ensures values == values'
    {
      hide At, ReadLinear;
      forall i | 0 <= i < |values|
        ensures values[i] == values'[i]
      {
        assert Ok(values[i]) == Ok(values'[i]);
      }
    }
  }

  // ----- Writing and reading fields -----

  /** Memory after `values[i..]` were written into their fields, or the first fault. */
  function StoreFields(pg: Paging, mem: Memory, fs: Fields, values: seq<nat>, i: nat): Outcome<Memory>
    requires i <= |values|
    decreases |values| - i
  {
    if i == |values| then Ok(mem)
    else
      var span :- Addresses(pg, fs.At(i), fs.size, true, false);
      StoreFields(pg, Store(mem, span, values[i]), fs, values, i + 1)
  }

  /** The values of the fields `i` to `n - 1`, or the first fault. */
  function FieldsAt(pg: Paging, mem: Memory, fs: Fields, i: nat, n: nat): (r: Outcome<seq<nat>>)
    requires i <= n
    ensures r.Ok? ==> |r.value| == n - i && forall v :: v in r.value ==> v < Bound(fs.size)
    decreases n - i
  {
    if i == n then Ok([])
    else
      var v :- ReadLinear(pg, mem, fs.At(i), fs.size, false);
      var rest :- FieldsAt(pg, mem, fs, i + 1, n);
      Ok([v] + rest)
  }

  /** Fields behind a translated range can be written, all of them. */
  lemma {:induction false} StoreFieldsSucceed(pg: Paging, mem: Memory, fs: Fields, values: seq<nat>, i: nat)
    requires i <= |values|
    requires forall j :: i <= j < |values| ==> Addresses(pg, fs.At(j), fs.size, true, false).Ok?
    ensures StoreFields(pg, mem, fs, values, i).Ok?
    decreases |values| - i
  {
    hide Fields.At, Addresses;
    if i < |values| {
      StoreFieldsSucceed(
        pg, Store(mem, Addresses(pg, fs.At(i), fs.size, true, false).value, values[i]), fs, values, i + 1);
    }
  }

  /** What the fields hold is what reading them yields. */
  lemma {:induction false} FieldsAtHold(pg: Paging, mem: Memory, fs: Fields, i: nat, n: nat)
    requires i <= n && FieldsAt(pg, mem, fs, i, n).Ok?
    ensures forall j :: i <= j < n ==>
      ReadLinear(pg, mem, fs.At(j), fs.size, false) == Ok(FieldsAt(pg, mem, fs, i, n).value[j - i])
    decreases n - i
  {
    hide Fields.At, ReadLinear;
    if i < n {
      FieldsAtHold(pg, mem, fs, i + 1, n);
    }
  }

  lemma {:induction false} FieldsAtUnchanged(
    pg: Paging, mem: Memory, mem': Memory, fs: Fields, i: nat, n: nat, region: set<nat>)
    requires fs.Sized() && i <= n && OnlyChanged(mem, mem', region) && fs.Bytes(pg, n) !! region
    ensures FieldsAt(pg, mem', fs, i, n) == FieldsAt(pg, mem, fs, i, n)
    decreases n - i
  {
    hide Fields.At, Region, ReadLinear, OnlyChanged, Fields.Bytes;
    if i < n {
      fs.FieldInBytes(pg, i, n);
      ReadUnchanged(pg, mem, mem', fs.At(i), fs.size, region);
      FieldsAtUnchanged(pg, mem, mem', fs, i + 1, n, region);
    }
  }

  function Front(values: seq<nat>, rest: Outcome<seq<nat>>): Outcome<seq<nat>> {
    if rest.Ok? then Ok(values + rest.value) else rest
  }

  lemma FrontNext(values: seq<nat>, v: nat, rest: Outcome<seq<nat>>)
    ensures Front(values, Front([v], rest)) == Front(values + [v], rest)
  {
    if rest.Ok? {
      assert values + ([v] + rest.value) == values + [v] + rest.value;
    }
  }

  lemma FrontEnds(values: seq<nat>)
    ensures Front([], Ok(values)) == Ok(values) && Front(values, Ok([])) == Ok(values)
  {
    assert [] + values == values && values + [] == values;
  }

  /** Values that could be stored are all held afterwards, and nothing outside their fields changed. */
  lemma {:induction false} StoreFieldsHold(pg: Paging, mem: Memory, fs: Fields, values: seq<nat>, i: nat)
    requires fs.Sized() && i <= |values| <= 64 && forall v :: v in values ==> v < Bound(fs.size)
    requires fs.Hold(pg, mem, values[..i]) && StoreFields(pg, mem, fs, values, i).Ok?
    ensures fs.Hold(pg, StoreFields(pg, mem, fs, values, i).value, values)
    ensures OnlyChanged(mem, StoreFields(pg, mem, fs, values, i).value, fs.Bytes(pg, |values|))
    decreases |values| - i
  {
    hide Fields.Hold, Fields.Bytes, Fields.At, Region, ReadLinear, OnlyChanged, Addresses;
    var all := fs.Bytes(pg, |values|);
    NothingChanged(mem, all);
    if i == |values| {
      assert values[..i] == values;
    } else {
      assert values[i] in values;
      WriteEffect(pg, mem, fs.At(i), fs.size, values[i]);
      var next := Store(mem, Addresses(pg, fs.At(i), fs.size, true, false).value, values[i]);
      assert |values[..i]| == i;
      fs.HoldAfterWrite(pg, mem, next, values[..i], values[i]);
      assert values[..i] + [values[i]] == values[..i + 1];
      StoreFieldsHold(pg, next, fs, values, i + 1);
      fs.FieldInBytes(pg, i, |values|);
      ChangedWithin(mem, mem, next, all, Region(pg, fs.At(i), fs.size));
      ChangedWithin(mem, next, StoreFields(pg, mem, fs, values, i).value, all, all);
    }
  }

  /** Writes the fields one after the other, as a level 0 access. */
  method WriteFields(c: Cpu, fs: Fields, values: seq<nat>) returns (r: Outcome<()>)
    requires fs.Sized() && |values| <= 64 && c.supervisorOverride
    requires forall v :: v in values ==> v < Bound(fs.size)
    modifies c`mem
    ensures var stored := StoreFields(c.paging, old(c.mem), fs, values, 0);
            r == stored.Void() && (r.Ok? ==> c.mem == stored.value && fs.Hold(c.paging, c.mem, values))
    ensures OnlyChanged(old(c.mem), c.mem, fs.Bytes(c.paging, |values|))
  {
    hide Fields.Hold, Fields.Bytes, Fields.At, Region, ReadLinear, OnlyChanged, Addresses;
    var i := 0;
    ghost var start := c.mem;
    NothingChanged(c.mem, fs.Bytes(c.paging, |values|));
    NothingHeld(c.paging, c.mem, fs);
    assert values[..0] == [];
    if StoreFields(c.paging, start, fs, values, 0).Ok? {
      StoreFieldsHold(c.paging, start, fs, values, 0);
    }
    while i < |values|
      invariant 0 <= i <= |values|
      invariant StoreFields(c.paging, c.mem, fs, values, i) == StoreFields(c.paging, start, fs, values, 0)
      invariant OnlyChanged(start, c.mem, fs.Bytes(c.paging, |values|))
    {
      ghost var before := c.mem;
      assert values[i] in values;
      if Addresses(c.paging, fs.At(i), fs.size, true, false).Ok? {
        WriteEffect(c.paging, c.mem, fs.At(i), fs.size, values[i]);
      }
      r := c.Write(fs.At(i), fs.size, values[i]);
      if r.Fault? {
        return;
      }
      fs.FieldInBytes(c.paging, i, |values|);
      ChangedWithin(start, before, c.mem, fs.Bytes(c.paging, |values|), Region(c.paging, fs.At(i), fs.size));
      i := i + 1;
    }
    return Ok(());
  }

  /** Reads the first `n` fields, as a level 0 access. */
  method ReadFields(c: Cpu, fs: Fields, n: nat) returns (r: Outcome<seq<nat>>)
    requires fs.Sized() && c.supervisorOverride
    ensures r == FieldsAt(c.paging, c.mem, fs, 0, n)
  {
    hide Fields.At, ReadLinear;
    var values: seq<nat> := [];
    var i := 0;
    if FieldsAt(c.paging, c.mem, fs, 0, n).Ok? {
      FrontEnds(FieldsAt(c.paging, c.mem, fs, 0, n).value);
    }
    while i < n
      invariant 0 <= i <= n
      invariant FieldsAt(c.paging, c.mem, fs, 0, n) == Front(values, FieldsAt(c.paging, c.mem, fs, i, n))
    {
      var v := c.Read(fs.At(i), fs.size);
      if v.Fault? {
        return Fault(v.vector, v.code);
      }
      FrontNext(values, v.value, FieldsAt(c.paging, c.mem, fs, i + 1, n));
      values := values + [v.value];
      i := i + 1;
    }
    FrontEnds(values);
    return Ok(values);
  }

  lemma NothingChanged(m: Memory, region: set<nat>)
    ensures OnlyChanged(m, m, region)
  {
  }

  lemma NothingHeld(pg: Paging, m: Memory, fs: Fields)
    ensures fs.Hold(pg, m, [])
  {
  }

  lemma ChangedWithin(m: Memory, m': Memory, m'': Memory, region: set<nat>, part: set<nat>)
    requires OnlyChanged(m, m', region) && OnlyChanged(m', m'', part) && part <= region
    ensures OnlyChanged(m, m'', region)
  {
    OnlyChangedTrans(m, m', m'', region, part);
    assert region + part == region;
  }

  // ----- The image of a task -----

  /** EIP, EFLAGS and the eight general registers. */
  function GeneralFields(base: u32, is386: bool): (fs: Fields)
    ensures fs.Sized()
  {
    if is386 then Fields(Plus(base, 32), 4, 4) else Fields(Plus(base, 14), 2, 2)
  }

  /** ES, CS, SS, DS and, in a 386 TSS, FS and GS. */
  function SelectorFields(base: u32, is386: bool): (fs: Fields)
    ensures fs.Sized()
  {
    if is386 then Fields(Plus(base, 72), 4, 2) else Fields(Plus(base, 34), 2, 2)
  }

  function SelectorCount(is386: bool): nat {
    if is386 then 6 else 4
  }

  function SaveStart(is386: bool): nat {
    if is386 then 32 else 14
  }

  function SaveLength(is386: bool): nat {
    if is386 then 64 else 28
  }

  /** The bytes of a TSS that a switch away from its task writes. */
  ghost function ImageBytes(pg: Paging, base: u32, is386: bool): set<nat> {
    Region(pg, Plus(base, SaveStart(is386)), SaveLength(is386))
  }

  lemma GeneralInImage(pg: Paging, base: u32, is386: bool)
    ensures GeneralFields(base, is386).Bytes(pg, 10) <= ImageBytes(pg, base, is386)
    ensures SelectorFields(base, is386).Bytes(pg, SelectorCount(is386)) <= ImageBytes(pg, base, is386)
    ensures GeneralFields(base, is386).Bytes(pg, 10) !! SelectorFields(base, is386).Bytes(pg, SelectorCount(is386))
  {
    hide Region;
    var start, length := SaveStart(is386), SaveLength(is386);
    var head := if is386 then 40 else 20;
    PlusPlus(base, start, 0);
    PlusPlus(base, start, head);
    RegionPart(pg, Plus(base, start), length, 0, head);
    RegionPart(pg, Plus(base, start), length, head, length - head);
    PartsApart(pg, base, start, head, start + head, length - head);
  }

  /** The TSS at `base` holds these general values and selectors. */
  ghost predicate ImageHolds(pg: Paging, mem: Memory, base: u32, is386: bool, general: seq<nat>, selectors: seq<nat>) {
    && |general| == 10 && |selectors| == SelectorCount(is386)
    && GeneralFields(base, is386).Hold(pg, mem, general)
    && SelectorFields(base, is386).Hold(pg, mem, selectors)
  }

  lemma ImageUnchanged(
    pg: Paging, mem: Memory, mem': Memory, base: u32, is386: bool, general: seq<nat>, selectors: seq<nat>,
    region: set<nat>)
    requires ImageHolds(pg, mem, base, is386, general, selectors)
    requires OnlyChanged(mem, mem', region) && ImageBytes(pg, base, is386) !! region
    ensures ImageHolds(pg, mem', base, is386, general, selectors)
  {
    hide Fields.Hold, OnlyChanged, Fields.Bytes, ImageBytes;
    GeneralInImage(pg, base, is386);
    GeneralFields(base, is386).HoldUnchanged(pg, mem, mem', general, region);
    SelectorFields(base, is386).HoldUnchanged(pg, mem, mem', selectors, region);
  }

  lemma ImageUnique(
    pg: Paging, mem: Memory, base: u32, is386: bool, general: seq<nat>, selectors: seq<nat>, general': seq<nat>,
    selectors': seq<nat>)
    requires ImageHolds(pg, mem, base, is386, general, selectors)
    requires ImageHolds(pg, mem, base, is386, general', selectors')
    ensures general == general' && selectors == selectors'
  {
    hide Fields.Hold;
    GeneralFields(base, is386).HoldUnique(pg, mem, general, general');
    SelectorFields(base, is386).HoldUnique(pg, mem, selectors, selectors');
  }

  function Low16(v: nat): u16 { v % 0x1_0000 }

  /** What a switch away saves of the general registers. */
  function GeneralValues(is386: bool, eip: u32, eflags: u32, regs: Registers): (s: seq<nat>)
    ensures |s| == 10
  {
    if is386 then [eip, eflags] + regs
    else [Low16(eip), Low16(eflags)] + seq(8, i requires 0 <= i < 8 => Low16(regs[i]))
  }

  function SelectorValues(is386: bool, segs: Segments): (s: seq<nat>)
    ensures |s| == SelectorCount(is386)
  {
    seq(SelectorCount(is386), i requires 0 <= i < 6 => segs[i].selector)
  }

  lemma ValuesFit(is386: bool, eip: u32, eflags: u32, regs: Registers, segs: Segments)
    ensures forall v :: v in GeneralValues(is386, eip, eflags, regs) ==> v < Bound(GeneralFields(0, is386).size)
    ensures forall v :: v in SelectorValues(is386, segs) ==> v < Bound(2)
  {
    assert Bound(2) == 0x1_0000;
    assert Bound(4) == 0x100 * Bound(3) && Bound(3) == 0x100 * Bound(2);
  }

  /** Memory after the general values and the selectors were written into the TSS at `base`, or the first fault. */
  function SavedMemory(
    pg: Paging, mem: Memory, base: u32, is386: bool, general: seq<nat>, selectors: seq<nat>): Outcome<Memory>
  {
    var middle :- StoreFields(pg, mem, GeneralFields(base, is386), general, 0);
    StoreFields(pg, middle, SelectorFields(base, is386), selectors, 0)
  }

  /** A TSS whose save area was translated for writing can be saved into. */
  lemma SaveSucceeds(pg: Paging, mem: Memory, base: u32, is386: bool, general: seq<nat>, selectors: seq<nat>)
    requires |general| == 10 && |selectors| == SelectorCount(is386)
    requires Addresses(pg, Plus(base, SaveStart(is386)), SaveLength(is386), true, false).Ok?
    ensures SavedMemory(pg, mem, base, is386, general, selectors).Ok?
  {
    hide Addresses, StoreFields;
    var gs, ss := GeneralFields(base, is386), SelectorFields(base, is386);
    forall j | 0 <= j < |general| ensures Addresses(pg, gs.At(j), gs.size, true, false).Ok? {
      FieldInSaveArea(pg, base, is386, gs, 0, j);
    }
    StoreFieldsSucceed(pg, mem, gs, general, 0);
    forall j | 0 <= j < |selectors| ensures Addresses(pg, ss.At(j), ss.size, true, false).Ok? {
      FieldInSaveArea(pg, base, is386, ss, if is386 then 40 else 20, j);
    }
    StoreFieldsSucceed(pg, StoreFields(pg, mem, gs, general, 0).value, ss, selectors, 0);
  }

  lemma FieldInSaveArea(pg: Paging, base: u32, is386: bool, fs: Fields, first: nat, j: nat)
    requires fs.Sized() && fs.start == Plus(base, SaveStart(is386) + first)
    requires first + fs.Scale(j) + fs.size <= SaveLength(is386)
    requires Addresses(pg, Plus(base, SaveStart(is386)), SaveLength(is386), true, false).Ok?
    ensures Addresses(pg, fs.At(j), fs.size, true, false).Ok?
  {
    hide Addresses, Plus, Fields.Scale;
    PlusPlus(base, SaveStart(is386), first + fs.Scale(j));
    PlusPlus(base, SaveStart(is386) + first, fs.Scale(j));
    AddressesPart(
      pg, Plus(base, SaveStart(is386)), SaveLength(is386), first + fs.Scale(j), fs.size, true, false);
  }

  /** A saved image is held by the TSS, and nothing outside its save area changed. */
  lemma SavedHolds(pg: Paging, mem: Memory, base: u32, is386: bool, general: seq<nat>, selectors: seq<nat>)
    requires |general| == 10 && |selectors| == SelectorCount(is386)
    requires forall v :: v in general ==> v < Bound(GeneralFields(0, is386).size)
    requires forall v :: v in selectors ==> v < Bound(2)
    requires SavedMemory(pg, mem, base, is386, general, selectors).Ok?
    ensures ImageHolds(pg, SavedMemory(pg, mem, base, is386, general, selectors).value, base, is386, general, selectors)
    ensures OnlyChanged(
      mem, SavedMemory(pg, mem, base, is386, general, selectors).value, ImageBytes(pg, base, is386))
  {
    hide StoreFields, Fields.Hold, OnlyChanged, Fields.Bytes, ImageBytes, Bound;
    var gs, ss, all := GeneralFields(base, is386), SelectorFields(base, is386), ImageBytes(pg, base, is386);
    var middle := StoreFields(pg, mem, gs, general, 0).value;
    var end := StoreFields(pg, middle, ss, selectors, 0).value;
    GeneralInImage(pg, base, is386);
    assert general[..0] == [] && selectors[..0] == [];
    NothingHeld(pg, mem, gs);
    NothingHeld(pg, middle, ss);
    StoreFieldsHold(pg, mem, gs, general, 0);
    StoreFieldsHold(pg, middle, ss, selectors, 0);
    NothingChanged(mem, all);
    ChangedWithin(mem, mem, middle, all, gs.Bytes(pg, 10));
    ChangedWithin(mem, middle, end, all, ss.Bytes(pg, SelectorCount(is386)));
    gs.HoldUnchanged(pg, middle, end, general, ss.Bytes(pg, SelectorCount(is386)));
  }

  /** Saves the running task's state into its TSS. */
  method SaveImage(c: Cpu, base: u32, is386: bool, eflags: u32) returns (r: Outcome<()>)
    requires c.supervisorOverride
    modifies c`mem
    ensures var general, selectors := GeneralValues(is386, c.eip, eflags, c.regs), SelectorValues(is386, c.segs);
            var saved := SavedMemory(c.paging, old(c.mem), base, is386, general, selectors);
            && r == saved.Void()
            && (r.Ok? ==> c.mem == saved.value && ImageHolds(c.paging, c.mem, base, is386, general, selectors))
    ensures OnlyChanged(old(c.mem), c.mem, ImageBytes(c.paging, base, is386))
  {
    hide StoreFields, Fields.Hold, OnlyChanged, Fields.Bytes, ImageBytes, GeneralValues, SelectorValues, Bound;
    var general := GeneralValues(is386, c.eip, eflags, c.regs);
    var selectors := SelectorValues(is386, c.segs);
    var gs, ss := GeneralFields(base, is386), SelectorFields(base, is386);
    ghost var before := c.mem;
    ValuesFit(is386, c.eip, eflags, c.regs, c.segs);
    if SavedMemory(c.paging, before, base, is386, general, selectors).Ok? {
      SavedHolds(c.paging, before, base, is386, general, selectors);
    }
    GeneralInImage(c.paging, base, is386);
    NothingChanged(c.mem, ImageBytes(c.paging, base, is386));
    r := WriteFields(c, gs, general);
    ChangedWithin(before, before, c.mem, ImageBytes(c.paging, base, is386), gs.Bytes(c.paging, 10));
    if r.Ok? {
      ghost var middle := c.mem;
      r := WriteFields(c, ss, selectors);
      ChangedWithin(
        before, middle, c.mem, ImageBytes(c.paging, base, is386), ss.Bytes(c.paging, SelectorCount(is386)));
    }
  }

  /** A task image as loaded: a 286 TSS has no CR3, FS or GS and 16-bit values. */
  datatype TaskImage = TaskImage(cr3: u32, eip: u32, eflags: u32, regs: Registers, selectors: seq<u16>, ldt: u16)

  function PadSelectors(selectors: seq<nat>): seq<nat>
  {
    if |selectors| == 4 then selectors + [0, 0] else selectors
  }

  /** The state loaded from the TSS at `base`. */
  ghost predicate Loaded(pg: Paging, mem: Memory, base: u32, is386: bool, image: TaskImage) {
    && |image.selectors| == 6
    && (!is386 ==> image.eflags < 0x1_0000)
    && exists selectors :: PadSelectors(selectors) == image.selectors
         && ImageHolds(pg, mem, base, is386, [image.eip, image.eflags] + image.regs, selectors)
  }

  /** What a switch loads from the TSS at `base`, in its order, or the first fault. */
  function ImageAt(pg: Paging, mem: Memory, base: u32, is386: bool): (r: Outcome<TaskImage>)
    ensures r.Ok? ==> |r.value.selectors| == 6
  {
    var cr3 :- if is386 then ReadDword(pg, mem, Plus(base, 28), false) else Ok(0);
    var general :- FieldsAt(pg, mem, GeneralFields(base, is386), 0, 10);
    var selectors :- FieldsAt(pg, mem, SelectorFields(base, is386), 0, SelectorCount(is386));
    var ldt :- ReadWord(pg, mem, Plus(base, LdtOffset(is386)), false);
    Ok(AsImage(cr3, general, is386, selectors, ldt))
  }

  function AsImage(cr3: u32, general: seq<nat>, is386: bool, selectors: seq<nat>, ldt: u16): (image: TaskImage)
    requires |general| == 10 && |selectors| == SelectorCount(is386)
    requires forall v :: v in general ==> v < Bound(GeneralFields(0, is386).size)
    requires forall v :: v in selectors ==> v < Bound(2)
    ensures |image.selectors| == 6
  {
    FieldsFit(general, is386, selectors);
    TaskImage(cr3, general[0], general[1], general[2..], PadSelectors(selectors), ldt)
  }

  function LdtOffset(is386: bool): nat {
    if is386 then 96 else 42
  }

  /** The loaded image is what the TSS holds. */
  lemma ImageAtIsLoaded(pg: Paging, mem: Memory, base: u32, is386: bool)
    requires ImageAt(pg, mem, base, is386).Ok?
    ensures Loaded(pg, mem, base, is386, ImageAt(pg, mem, base, is386).value)
  {
    hide FieldsAt, ReadLinear, Fields.At;
    var image := ImageAt(pg, mem, base, is386).value;
    var general := FieldsAt(pg, mem, GeneralFields(base, is386), 0, 10).value;
    var selectors := FieldsAt(pg, mem, SelectorFields(base, is386), 0, SelectorCount(is386)).value;
    FieldsAtHold(pg, mem, GeneralFields(base, is386), 0, 10);
    FieldsAtHold(pg, mem, SelectorFields(base, is386), 0, SelectorCount(is386));
    assert [image.eip, image.eflags] + image.regs == general;
    assert !is386 ==> general[1] in general && Bound(2) == 0x1_0000;
    assert ImageHolds(pg, mem, base, is386, general, selectors);
  }

  method LoadImage(c: Cpu, base: u32, is386: bool) returns (r: Outcome<TaskImage>)
    requires c.supervisorOverride
    ensures r == ImageAt(c.paging, c.mem, base, is386)
  {
    hide FieldsAt, ReadLinear, Fields.At;
    var cr3: Outcome<u32> := if is386 then ReadDword(c.paging, c.mem, Plus(base, 28), false) else Ok(0);
    if cr3.Fault? {
      return Fault(cr3.vector, cr3.code);
    }
    var general := ReadFields(c, GeneralFields(base, is386), 10);
    if general.Fault? {
      return Fault(general.vector, general.code);
    }
    var selectors := ReadFields(c, SelectorFields(base, is386), SelectorCount(is386));
    if selectors.Fault? {
      return Fault(selectors.vector, selectors.code);
    }
    var ldt := ReadWord(c.paging, c.mem, Plus(base, if is386 then 96 else 42), false);
    if ldt.Fault? {
      return Fault(ldt.vector, ldt.code);
    }
    return Ok(AsImage(cr3.value, general.value, is386, selectors.value, ldt.value));
  }

  lemma FieldsFit(general: seq<nat>, is386: bool, selectors: seq<nat>)
    requires forall v :: v in general ==> v < Bound(GeneralFields(0, is386).size)
    requires forall v :: v in selectors ==> v < Bound(2)
    ensures forall i :: 0 <= i < |general| ==> general[i] < 0x1_0000_0000
    ensures forall i :: 0 <= i < |PadSelectors(selectors)| ==> PadSelectors(selectors)[i] < 0x1_0000
  {
    assert Bound(2) == 0x1_0000;
    assert Bound(4) == 0x100 * Bound(3) && Bound(3) == 0x100 * Bound(2);
    forall i | 0 <= i < |general|
      ensures general[i] < 0x1_0000_0000
    {
      assert general[i] in general;
    }
    forall i | 0 <= i < |selectors|
      ensures selectors[i] < 0x1_0000
    {
      assert selectors[i] in selectors;
    }
  }
}
