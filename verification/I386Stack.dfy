/**
  The slots of a new stack: what the probe of crates/cpu/src/i386/interrupt.rs
  checks, what the pushes of crates/cpu/src/i386.rs then touch, and how far the
  two agree.
 */
module I386Stack {
  import opened I386Memory
  import opened I386Cpu

  /** The geometry of a new stack: its descriptor, the pointer before the first push, the slot size. */
  datatype Frame = Frame(desc: Descriptor, sp: u32, size: nat) {
    predicate Sized() {
      size == 2 || size == 4
    }

    /** The bytes that `k` slots take. */
    function Depth(k: nat): nat {
      if size == 2 then 2 * k else 4 * k
    }

    /** The offset of slot `k`; the first push writes slot 1. */
    function Offset(k: nat): u32
      requires k <= 64
    {
      var raw := Sub32(sp, Depth(k));
      if IsBig(desc.granularity) then raw else raw % 0x1_0000
    }

    function Linear(k: nat): u32
      requires k <= 64
    {
      Add32(desc.base, Offset(k))
    }

    /** The physical addresses that a supervisor push into slot `k` writes. */
    function Span(pg: Paging, k: nat): Outcome<seq<nat>>
      requires k <= 64
    {
      Addresses(pg, Linear(k), size, true, false)
    }

    // ----- The probe -----

    /** The last byte that the probe translates: its offset wraps at 64 KiB under a 16-bit stack. */
    function ProbedLast(k: nat): u32
      requires Sized() && k <= 64
    {
      var raw := Add32(Offset(k), size - 1);
      Add32(desc.base, if IsBig(desc.granularity) then raw else raw % 0x1_0000)
    }

    /** The last byte that the push writes. */
    function PushedLast(k: nat): u32
      requires Sized() && k <= 64
    {
      Add32(Linear(k), size - 1)
    }

    /** What the probe of slot `k` accepts. */
    predicate Probed(pg: Paging, k: nat)
      requires Sized() && k <= 64
    {
      && WithinLimit(desc, Offset(k), size)
      && Translate(pg, Linear(k), true, false).Ok?
      && Translate(pg, ProbedLast(k), true, false).Ok?
    }

    /** The outcome of probing slot `k`; `code` is the error code of a limit violation. */
    function SlotVerdict(pg: Paging, code: nat, k: nat): (r: Outcome<()>)
      requires Sized() && k <= 64
      ensures r.Ok? <==> Probed(pg, k)
    {
      if !WithinLimit(desc, Offset(k), size) then Fault(STACK_FAULT, code)
      else
        var _ :- Translate(pg, Linear(k), true, false);
        var _ :- Translate(pg, ProbedLast(k), true, false);
        Ok(())
    }

    /** The first failing probe of the slots `k` to `n`. */
    function ProbeVerdict(pg: Paging, code: nat, k: nat, n: nat): (r: Outcome<()>)
      requires Sized() && n <= 64
      ensures r.Ok? <==> forall i :: k <= i <= n ==> Probed(pg, i)
      decreases n + 1 - k
    {
      if k > n then Ok(())
      else
        var _ :- SlotVerdict(pg, code, k);
        ProbeVerdict(pg, code, k + 1, n)
    }

    /** A 16-bit slot that runs past offset FFFFh, which only a limit above FFFFh allows. */
    predicate Wraps(k: nat)
      requires Sized() && k <= 64
    {
      !IsBig(desc.granularity) && Offset(k) + size - 1 > 0xFFFF
    }

    /** The byte past the wrap that the push needs lies in a page that cannot be written. */
    predicate Misses(pg: Paging, k: nat)
      requires Sized() && k <= 64
    {
      Wraps(k) && Translate(pg, PushedLast(k), true, false).Fault?
    }

    /** The probe and the push agree on every slot that does not wrap. */
    lemma ProbedIsPushed(pg: Paging, k: nat)
      requires Sized() && k <= 64 && Probed(pg, k)
      ensures Span(pg, k).Ok? <==> !Misses(pg, k)
    {
      hide Translate, Addresses, IsExpandDown;
      SpanEnds(pg, Linear(k), size, true, false);
      if !Wraps(k) {
        assert ProbedLast(k) == PushedLast(k);
      }
    }

    // ----- Slots -----

    lemma OffsetInPage(k: nat)
      requires Sized() && k <= 64
      ensures Offset(k) % 0x1000 == (sp + 0x1000 - Depth(k)) % 0x1000
    {
      hide IsBig;
      PageOfDifference(sp, Depth(k));
      PageOfWrapped(Sub32(sp, Depth(k)));
    }

    /** The in-page offsets of the bytes of slot `k`. */
    lemma SlotInPage(k: nat, i: nat)
      requires Sized() && k <= 64 && i < size
      ensures InPage(Linear(k), i) == (desc.base + sp + 0x1000 - Depth(k) + i) % 0x1000
    {
      hide Offset;
      OffsetInPage(k);
      SumInPage(desc.base, Offset(k), sp + 0x1000 - Depth(k), i);
    }

    /** However pages are mapped, different slots never share a physical byte. */
    lemma SlotsDisjoint(pg: Paging, k: nat, m: nat)
      requires Sized() && k < m <= 64 && Span(pg, k).Ok? && Span(pg, m).Ok?
      ensures forall a :: a in Span(pg, k).value ==> a !in Span(pg, m).value
    {
      hide Addresses, IsBig;
      forall i, j | 0 <= i < size && 0 <= j < size
        ensures InPage(Linear(k), i) != InPage(Linear(m), j)
      {
        SlotInPage(k, i);
        SlotInPage(m, j);
        OffsetsDiffer(desc.base + sp, Depth(k), Depth(m), i, j, size);
      }
      SpansDisjoint(pg, Linear(k), Linear(m), size, true, false);
    }

    /** The stack pointer after `k` pushes addresses slot `k`. */
    lemma NextSlot(ss: Segment, k: nat)
      requires Sized() && k < 64 && ss.desc == desc
      ensures Below(ss, Offset(k), size) == Offset(k + 1)
    {
      hide IsBig;
      assert Depth(k + 1) == Depth(k) + size;
      DownTwice(sp, Depth(k), size);
      DownInWord(Sub32(sp, Depth(k)), size);
    }
  }

  lemma DownTwice(sp: u32, d: nat, n: nat)
    requires d <= 256 && n <= 4
    ensures Sub32(Sub32(sp, d), n) == Sub32(sp, d + n)
  {
  }

  /** Sixteen-bit pointers wrap alike, whether before or after the subtraction. */
  lemma DownInWord(x: u32, n: nat)
    requires n <= 4
    ensures Sub32(x % 0x1_0000, n) % 0x1_0000 == Sub32(x, n) % 0x1_0000
  {
    var hi, lo := x / 0x1_0000, x % 0x1_0000;
    assert x == 0x1_0000 * hi + lo;
    if lo >= n {
      WordResidue(hi, lo - n);
      WordResidue(0, lo - n);
    } else {
      WordResidue(0xFFFF, lo + 0x1_0000 - n);
      if hi > 0 {
        WordResidue(hi - 1, lo + 0x1_0000 - n);
      }
    }
  }

  lemma WordResidue(q: nat, r: nat)
    requires r < 0x1_0000
    ensures (0x1_0000 * q + r) % 0x1_0000 == r
  {
  }

  /** Numbers that differ by whole pages have the same offset in their page. */
  lemma SamePageOffset(x: int, y: int, pages: int)
    requires x == y + 0x1000 * pages
    ensures x % 0x1000 == y % 0x1000
  {
  }

  lemma PageOfDifference(a: u32, d: nat)
    requires d <= 256
    ensures Sub32(a, d) % 0x1000 == (a + 0x1000 - d) % 0x1000
  {
    SamePageOffset(Sub32(a, d), a + 0x1000 - d, if a >= d then -1 else 0xF_FFFF);
  }

  lemma PageOfWrapped(a: u32)
    ensures a % 0x1_0000 % 0x1000 == a % 0x1000
  {
    var hi := a / 0x1_0000;
    assert a == 0x1_0000 * hi + a % 0x1_0000;
    SamePageOffset(a, a % 0x1_0000, 16 * hi);
  }

  lemma SumInPage(base: u32, offset: u32, x: nat, i: nat)
    requires offset % 0x1000 == x % 0x1000
    ensures (Add32(base, offset) + i) % 0x1000 == (base + x + i) % 0x1000
  {
    var p, q := offset / 0x1000, x / 0x1000;
    assert offset == 0x1000 * p + offset % 0x1000 && x == 0x1000 * q + offset % 0x1000;
    var wrap := if base + offset < 0x1_0000_0000 then 0 else 0x10_0000;
    SamePageOffset(Add32(base, offset) + i, base + x + i, p - q - wrap);
  }

  lemma OffsetsDiffer(x: nat, dk: nat, dm: nat, i: nat, j: nat, size: nat)
    requires i < size && j < size && dk + size <= dm <= 256 && size <= 4
    ensures (x + 0x1000 - dk + i) % 0x1000 != (x + 0x1000 - dm + j) % 0x1000
  {
    var gap := dm - dk + i - j;
    assert 0 < gap < 0x1000;
    var y := x + 0x1000 - dm + j;
    assert x + 0x1000 - dk + i == y + gap;
  }
}
