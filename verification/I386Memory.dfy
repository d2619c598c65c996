/**
  Linear memory of the 80386 model (crates/cpu/src/i386.rs, crates/cpu/src/i386/paging.rs):
  32-bit address arithmetic, a fixed page map, and accesses byte by byte.
 */
module I386Memory {

  type u8 = n: nat | n < 0x100
  type u16 = n: nat | n < 0x1_0000
  type u32 = n: nat | n < 0x1_0000_0000

  function Add32(a: u32, b: u32): u32 {
    if a + b < 0x1_0000_0000 then a + b else a + b - 0x1_0000_0000
  }

  function Sub32(a: u32, b: u32): u32 {
    if a >= b then a - b else a + 0x1_0000_0000 - b
  }

  /** The result of an operation that may raise an exception instead. */
  datatype Outcome<+T> = Ok(value: T) | Fault(vector: nat, code: nat) {
    predicate IsFailure() {
      Fault?
    }

    function PropagateFailure<U>(): Outcome<U>
      requires Fault?
    {
      Fault(vector, code)
    }

    function Extract(): T
      requires Ok?
    {
      value
    }

    /** Whether it succeeded, and the fault if not. */
    function Void(): Outcome<()> {
      if Ok? then Ok(()) else Fault(vector, code)
    }
  }

  // ----- Translation -----

  /** A present page: its frame number and what the directory and table entries both allow. */
  datatype Page = Page(frame: nat, user: bool, writable: bool)

  /** Paging off, or a fixed map of the present pages; `writeProtect` is CR0.WP on a 486. */
  datatype Paging = Paging(enabled: bool, pages: map<nat, Page>, writeProtect: bool, bus24: bool)

  const PAGE_FAULT: nat := 14

  /** The physical address of the first byte of a page. */
  function PageBase(pg: Paging, page: nat, write: bool, user: bool): (r: Outcome<nat>)
    ensures r.Ok? ==> r.value % 0x1000 == 0
    ensures r.Fault? ==> r.vector == PAGE_FAULT
  {
    var access := (if write then 2 else 0) + (if user then 4 else 0);
    if !pg.enabled then
      Ok(if pg.bus24 then page % 0x1000 * 0x1000 else page * 0x1000)
    else if page !in pg.pages then Fault(PAGE_FAULT, access)
    else
      var p := pg.pages[page];
      if user && !p.user then Fault(PAGE_FAULT, access + 1)
      else if write && (user || pg.writeProtect) && !p.writable then Fault(PAGE_FAULT, access + 1)
      else Ok(p.frame * 0x1000)
  }

  function Translate(pg: Paging, linear: u32, write: bool, user: bool): (r: Outcome<nat>)
    ensures r.Ok? ==> r.value % 0x1000 == linear % 0x1000
  {
    var base :- PageBase(pg, linear / 0x1000, write, user);
    Ok(base + linear % 0x1000)
  }

  /** The page rights that an access needs: a present page, open to the level and, for a write, writable. */
  predicate Permitted(pg: Paging, linear: u32, write: bool, user: bool) {
    pg.enabled ==>
      && linear / 0x1000 in pg.pages
      && var p := pg.pages[linear / 0x1000];
         && (user ==> p.user)
         && (write ==> p.writable || (!user && !pg.writeProtect))
  }

  /** An access translates exactly when its page permits it; a fault tells the access and if the page is present. */
  lemma TranslatesPermitted(pg: Paging, linear: u32, write: bool, user: bool)
    ensures var r := Translate(pg, linear, write, user);
      && (r.Ok? <==> Permitted(pg, linear, write, user))
      && (r.Fault? ==>
           && r.vector == PAGE_FAULT
           && (r.code % 2 == 1 <==> linear / 0x1000 in pg.pages)
           && (r.code / 2 % 2 == 1 <==> write) && (r.code / 4 % 2 == 1 <==> user))
  {
  }

  // ----- Byte by byte -----

  /** The physical addresses of `n` bytes from `linear` on, each translated by itself. */
  function Addresses(pg: Paging, linear: u32, n: nat, write: bool, user: bool): (r: Outcome<seq<nat>>)
    ensures r.Ok? ==> |r.value| == n
    decreases n
  {
    if n == 0 then Ok([])
    else
      var a :- Translate(pg, linear, write, user);
      var rest :- Addresses(pg, Add32(linear, 1), n - 1, write, user);
      Ok([a] + rest)
  }

  /** Byte-addressed memory; what was never written reads as zero. */
  type Memory = map<nat, u8>

  function Peek(mem: Memory, a: nat): u8 {
    if a in mem then mem[a] else 0
  }

  /** The number of values that `n` bytes can take. */
  function Bound(n: nat): (b: nat)
    ensures b > 0
  {
    if n == 0 then 1 else 0x100 * Bound(n - 1)
  }

  /** The little-endian value of the bytes at `addresses`. */
  function Load(mem: Memory, addresses: seq<nat>): (v: nat)
    ensures v < Bound(|addresses|)
    decreases |addresses|
  {
    if addresses == [] then 0 else Peek(mem, addresses[0]) + 0x100 * Load(mem, addresses[1..])
  }

  /** Writes `value` least significant byte first. */
  function Store(mem: Memory, addresses: seq<nat>, value: nat): Memory
    decreases |addresses|
  {
    if addresses == [] then mem else Store(mem[addresses[0] := value % 0x100], addresses[1..], value / 0x100)
  }

  function ReadLinear(pg: Paging, mem: Memory, linear: u32, n: nat, user: bool): (r: Outcome<nat>)
    ensures r.Ok? ==> r.value < Bound(n)
  {
    var addresses :- Addresses(pg, linear, n, false, user);
    Ok(Load(mem, addresses))
  }

  function ReadWord(pg: Paging, mem: Memory, linear: u32, user: bool): (r: Outcome<u16>)
    ensures r == ReadLinear(pg, mem, linear, 2, user)
  {
    assert Bound(2) == 0x1_0000;
    var v :- ReadLinear(pg, mem, linear, 2, user);
    Ok(v)
  }

  function ReadDword(pg: Paging, mem: Memory, linear: u32, user: bool): (r: Outcome<u32>)
    ensures r == ReadLinear(pg, mem, linear, 4, user)
  {
    assert Bound(4) == 0x100 * Bound(3) && Bound(3) == 0x100 * Bound(2);
    var v :- ReadLinear(pg, mem, linear, 4, user);
    Ok(v)
  }

  // ----- One translation is enough within a page -----

  /** `n` consecutive addresses from `a` on. */
  function Consecutive(a: nat, n: nat): (s: seq<nat>)
    ensures |s| == n
    decreases n
  {
    if n == 0 then [] else [a] + Consecutive(a + 1, n - 1)
  }

  /** Within a page, translating the first byte stands for translating each byte. */
  lemma {:induction false} WithinPage(pg: Paging, linear: u32, n: nat, write: bool, user: bool)
    requires 0 < n && linear % 0x1000 + n <= 0x1000
    ensures Addresses(pg, linear, n, write, user)
         == match Translate(pg, linear, write, user)
            case Ok(a) => Ok(Consecutive(a, n))
            case Fault(v, c) => Fault(v, c)
    decreases n
  {
    hide PageBase;
    if n > 1 {
      assert Add32(linear, 1) / 0x1000 == linear / 0x1000;
      WithinPage(pg, Add32(linear, 1), n - 1, write, user);
    } else {
      assert Consecutive(linear, 0) == [];
    }
  }

  /** A span translates part by part: the first part that faults decides. */
  lemma {:induction false} AddressesJoin(pg: Paging, linear: u32, a: nat, b: nat, write: bool, user: bool)
    ensures Addresses(pg, linear, a + b, write, user).Void()
         == if Addresses(pg, linear, a, write, user).Fault? then Addresses(pg, linear, a, write, user).Void()
            else Addresses(pg, Plus(linear, a), b, write, user).Void()
    decreases a
  {
    hide Translate;
    if a > 0 {
      AddressesJoin(pg, Add32(linear, 1), a - 1, b, write, user);
      assert Plus(Add32(linear, 1), a - 1) == Plus(linear, a);
    }
  }

  lemma AddressesPart(pg: Paging, linear: u32, n: nat, i: nat, k: nat, write: bool, user: bool)
    requires i + k <= n && Addresses(pg, linear, n, write, user).Ok?
    ensures Addresses(pg, Plus(linear, i), k, write, user).Ok?
  {
    hide Addresses, Plus;
    AddressesJoin(pg, linear, i, n - i, write, user);
    AddressesJoin(pg, Plus(linear, i), k, n - i - k, write, user);
    assert k + (n - i - k) == n - i;
  }

  // ----- Addresses of different bytes differ -----

  /** Bytes less than a page apart never share a physical address, whatever the page map does. */
  lemma {:induction false} AddressOffset(pg: Paging, linear: u32, n: nat, write: bool, user: bool, i: nat)
    requires i < n && Addresses(pg, linear, n, write, user).Ok?
    ensures Addresses(pg, linear, n, write, user).value[i] % 0x1000 == (linear + i) % 0x1000
    decreases n
  {
    hide Translate;
    if i > 0 {
      AddressOffset(pg, Add32(linear, 1), n - 1, write, user, i - 1);
      assert (Add32(linear, 1) + (i - 1)) % 0x1000 == (linear + i) % 0x1000;
    }
  }

  predicate Distinct(s: seq<nat>) {
    forall i, j :: 0 <= i < j < |s| ==> s[i] != s[j]
  }

  lemma AddressesDistinct(pg: Paging, linear: u32, n: nat, write: bool, user: bool)
    requires n <= 0x1000 && Addresses(pg, linear, n, write, user).Ok?
    ensures Distinct(Addresses(pg, linear, n, write, user).value)
  {
    hide Addresses;
    var s := Addresses(pg, linear, n, write, user).value;
    forall i, j | 0 <= i < j < |s|
      ensures s[i] != s[j]
    {
      AddressOffset(pg, linear, n, write, user, i);
      AddressOffset(pg, linear, n, write, user, j);
    }
  }

  /** A page that can be written can be read, at the same physical addresses. */
  lemma {:induction false} WriteImpliesRead(pg: Paging, linear: u32, n: nat, user: bool)
    requires Addresses(pg, linear, n, true, user).Ok?
    ensures Addresses(pg, linear, n, false, user) == Addresses(pg, linear, n, true, user)
    decreases n
  {
    if n > 0 {
      WriteImpliesRead(pg, Add32(linear, 1), n - 1, user);
    }
  }

  // ----- What stores do to loads -----

  lemma {:induction false} StoreElsewhere(mem: Memory, addresses: seq<nat>, value: nat, a: nat)
    requires a !in addresses
    ensures Peek(Store(mem, addresses, value), a) == Peek(mem, a)
    decreases |addresses|
  {
    if addresses != [] {
      StoreElsewhere(mem[addresses[0] := value % 0x100], addresses[1..], value / 0x100, a);
    }
  }

  /** What was stored is what is loaded. */
  lemma {:induction false} LoadStore(mem: Memory, addresses: seq<nat>, value: nat)
    requires Distinct(addresses) && value < Bound(|addresses|)
    ensures Load(Store(mem, addresses, value), addresses) == value
    decreases |addresses|
  {
    if addresses != [] {
      var first := mem[addresses[0] := value % 0x100];
      LoadStore(first, addresses[1..], value / 0x100);
      assert addresses[0] !in addresses[1..];
      StoreElsewhere(first, addresses[1..], value / 0x100, addresses[0]);
    }
  }

  lemma {:induction false} LoadAgrees(m: Memory, m': Memory, addresses: seq<nat>)
    requires forall a :: a in addresses ==> Peek(m, a) == Peek(m', a)
    ensures Load(m, addresses) == Load(m', addresses)
    decreases |addresses|
  {
    if addresses != [] {
      LoadAgrees(m, m', addresses[1..]);
    }
  }

  /** A store leaves every load from other addresses alone. */
  lemma StoreElsewhereLoad(mem: Memory, written: seq<nat>, value: nat, read: seq<nat>)
    requires forall a :: a in read ==> a !in written
    ensures Load(Store(mem, written, value), read) == Load(mem, read)
  {
    forall a | a in read
      ensures Peek(Store(mem, written, value), a) == Peek(mem, a)
    {
      StoreElsewhere(mem, written, value, a);
    }
    LoadAgrees(Store(mem, written, value), mem, read);
  }

  // ----- A short span is covered by its two ends -----

  lemma SamePage(pg: Paging, a: u32, b: u32, write: bool, user: bool)
    requires a / 0x1000 == b / 0x1000
    ensures Translate(pg, a, write, user).Ok? == Translate(pg, b, write, user).Ok?
  {
  }

  /** Up to a page of bytes is accessible exactly when its first and its last byte are. */
  lemma {:induction false} SpanEnds(pg: Paging, linear: u32, n: nat, write: bool, user: bool)
    requires 0 < n <= 0x1000
    ensures Addresses(pg, linear, n, write, user).Ok?
       <==> Translate(pg, linear, write, user).Ok? && Translate(pg, Add32(linear, n - 1), write, user).Ok?
    decreases n
  {
    hide Translate;
    var next := Add32(linear, 1);
    if n == 1 {
      assert Addresses(pg, next, 0, write, user).Ok?;
    } else {
      SpanEnds(pg, next, n - 1, write, user);
      assert Add32(next, n - 2) == Add32(linear, n - 1);
      if next / 0x1000 == linear / 0x1000 {
        SamePage(pg, next, linear, write, user);
      } else {
        assert next / 0x1000 == Add32(linear, n - 1) / 0x1000;
        SamePage(pg, next, Add32(linear, n - 1), write, user);
      }
    }
  }

  /** The offset within its page of the byte `i` after `linear`. */
  function InPage(linear: u32, i: nat): nat {
    (linear + i) % 0x1000
  }

  /** Bytes whose in-page offsets all differ are different bytes. */
  lemma SpansDisjoint(pg: Paging, l: u32, m: u32, n: nat, write: bool, user: bool)
    requires n <= 0x1000
    requires Addresses(pg, l, n, write, user).Ok? && Addresses(pg, m, n, write, user).Ok?
    requires forall i, j :: 0 <= i < n && 0 <= j < n ==> InPage(l, i) != InPage(m, j)
    ensures forall a :: a in Addresses(pg, l, n, write, user).value ==>
      a !in Addresses(pg, m, n, write, user).value
  {
    hide Addresses;
    var s, t := Addresses(pg, l, n, write, user).value, Addresses(pg, m, n, write, user).value;
    forall i, j | 0 <= i < |s| && 0 <= j < |t|
      ensures s[i] != t[j]
    {
      AddressOffset(pg, l, n, write, user, i);
      AddressOffset(pg, m, n, write, user, j);
      assert InPage(l, i) != InPage(m, j);
    }
  }

  // ----- Regions of physical bytes -----

  /** The physical bytes behind `n` linear bytes, as level 0 accesses see them. */
  ghost function Region(pg: Paging, linear: u32, n: nat): set<nat> {
    set i | 0 <= i < n && Translate(pg, Plus(linear, i), false, false).Ok? ::
      Translate(pg, Plus(linear, i), false, false).value
  }

  /** The linear address `i` bytes after `linear`, around the end of the address space. */
  function Plus(linear: u32, i: nat): u32 {
    (linear + i) % 0x1_0000_0000
  }

  /** Memory changed at most at the bytes of `region`. */
  ghost predicate OnlyChanged(m: Memory, m': Memory, region: set<nat>) {
    forall a :: a !in region ==> Peek(m', a) == Peek(m, a)
  }

  lemma OnlyChangedTrans(m: Memory, m': Memory, m'': Memory, r: set<nat>, r': set<nat>)
    requires OnlyChanged(m, m', r) && OnlyChanged(m', m'', r')
    ensures OnlyChanged(m, m'', r + r')
  {
    forall a | a !in r + r'
      ensures Peek(m'', a) == Peek(m, a)
    {
      assert Peek(m'', a) == Peek(m', a);
    }
  }

  /** Every byte of an access lies in its region, read or written. */
  lemma {:induction false} AddressesInRegion(pg: Paging, linear: u32, n: nat, write: bool)
    requires Addresses(pg, linear, n, write, false).Ok?
    ensures forall a :: a in Addresses(pg, linear, n, write, false).value ==> a in Region(pg, linear, n)
    decreases n
  {
    hide Translate;
    if n > 0 {
      var next := Add32(linear, 1);
      AddressesInRegion(pg, next, n - 1, write);
      WritableTranslates(pg, linear, write);
      assert Plus(linear, 0) == linear;
      RegionTail(pg, linear, n);
    }
  }

  lemma WritableTranslates(pg: Paging, linear: u32, write: bool)
    requires Translate(pg, linear, write, false).Ok?
    ensures Translate(pg, linear, false, false) == Translate(pg, linear, write, false)
  {
  }

  lemma RegionTail(pg: Paging, linear: u32, n: nat)
    requires n > 0
    ensures Region(pg, Add32(linear, 1), n - 1) <= Region(pg, linear, n)
  {
    RegionPart(pg, linear, n, 1, n - 1);
    assert Plus(linear, 1) == Add32(linear, 1);
  }

  lemma RegionPart(pg: Paging, linear: u32, n: nat, i: nat, k: nat)
    requires i + k <= n
    ensures Region(pg, Plus(linear, i), k) <= Region(pg, linear, n)
  {
    hide Translate, Plus;
    forall a | a in Region(pg, Plus(linear, i), k)
      ensures a in Region(pg, linear, n)
    {
      var j :| 0 <= j < k && Translate(pg, Plus(Plus(linear, i), j), false, false) == Ok(a);
      PlusPlus(linear, i, j);
      assert 0 <= i + j < n && Translate(pg, Plus(linear, i + j), false, false) == Ok(a);
    }
  }

  lemma PlusPlus(linear: u32, i: nat, j: nat)
    ensures Plus(Plus(linear, i), j) == Plus(linear, i + j)
  {
  }

  /** Separate parts of less than a page never share a physical byte. */
  lemma PartsApart(pg: Paging, linear: u32, i: nat, k: nat, j: nat, m: nat)
    requires i + k <= j && j + m <= i + 0x1000
    ensures Region(pg, Plus(linear, i), k) !! Region(pg, Plus(linear, j), m)
  {
    hide Translate;
    forall a | a in Region(pg, Plus(linear, i), k) && a in Region(pg, Plus(linear, j), m)
      ensures false
    {
      var x :| 0 <= x < k && Translate(pg, Plus(Plus(linear, i), x), false, false) == Ok(a);
      var y :| 0 <= y < m && Translate(pg, Plus(Plus(linear, j), y), false, false) == Ok(a);
      PlusInPage(linear, i, x);
      PlusInPage(linear, j, y);
      DifferInPage(linear, i + x, j + y);
    }
  }

  lemma PlusInPage(linear: u32, i: nat, x: nat)
    ensures Plus(Plus(linear, i), x) % 0x1000 == (linear + i + x) % 0x1000
  {
  }

  lemma DifferInPage(linear: nat, p: nat, q: nat)
    requires p < q < p + 0x1000
    ensures (linear + p) % 0x1000 != (linear + q) % 0x1000
  {
    var d := q - p;
    assert linear + q == linear + p + d;
  }

  /** A read outside the changed bytes is unaffected. */
  lemma ReadUnchanged(pg: Paging, m: Memory, m': Memory, linear: u32, n: nat, region: set<nat>)
    requires OnlyChanged(m, m', region) && Region(pg, linear, n) !! region
    ensures ReadLinear(pg, m', linear, n, false) == ReadLinear(pg, m, linear, n, false)
  {
    hide Addresses, Region;
    var span := Addresses(pg, linear, n, false, false);
    if span.Ok? {
      AddressesInRegion(pg, linear, n, false);
      LoadAgrees(m, m', span.value);
    }
  }

  /** A completed write changes only its own region, where it can be read back. */
  lemma WriteEffect(pg: Paging, mem: Memory, linear: u32, n: nat, value: nat)
    requires n <= 0x1000 && Addresses(pg, linear, n, true, false).Ok? && value < Bound(n)
    ensures var mem' := Store(mem, Addresses(pg, linear, n, true, false).value, value);
            && OnlyChanged(mem, mem', Region(pg, linear, n))
            && ReadLinear(pg, mem', linear, n, false) == Ok(value)
  {
    hide Addresses, Region;
    var addresses := Addresses(pg, linear, n, true, false).value;
    AddressesInRegion(pg, linear, n, true);
    AddressesDistinct(pg, linear, n, true, false);
    WriteImpliesRead(pg, linear, n, false);
    LoadStore(mem, addresses, value);
    forall a | a !in Region(pg, linear, n)
      ensures Peek(Store(mem, addresses, value), a) == Peek(mem, a)
    {
      StoreElsewhere(mem, addresses, value, a);
    }
  }
}
