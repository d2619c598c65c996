/**
  Reading words and descriptors where linear addresses are physical, for the concrete
  machines of the i386 modules.
 */
module I386Identity {
  import opened I386Memory
  import opened I386Cpu

  /** The bytes from `linear` on lie at the same physical addresses, for reads at level 0. */
  ghost predicate IdentityFrom(pg: Paging, linear: nat, n: nat) {
    forall a: u32 :: linear <= a < linear + n ==> Translate(pg, a, false, false) == Ok(a)
  }

  lemma WordAt(pg: Paging, mem: Memory, linear: u32)
    requires linear < 0xFFFF_FFF0 && IdentityFrom(pg, linear, 2)
    ensures ReadWord(pg, mem, linear, false) == Ok(Peek(mem, linear) + 0x100 * Peek(mem, linear + 1))
  {
    hide Translate;
    BytesAt(pg, linear, 2);
    LoadPair(mem, linear, linear + 1);
  }

  lemma DwordAt(pg: Paging, mem: Memory, linear: u32)
    requires linear < 0xFFFF_FFF0 && IdentityFrom(pg, linear, 4)
    requires Peek(mem, linear + 2) == 0 && Peek(mem, linear + 3) == 0
    ensures ReadDword(pg, mem, linear, false) == Ok(Peek(mem, linear) + 0x100 * Peek(mem, linear + 1))
  {
    hide Translate;
    BytesAt(pg, linear, 4);
    LoadFour(mem, linear);
  }

  lemma {:induction false} BytesAt(pg: Paging, linear: u32, n: nat)
    requires linear + n < 0xFFFF_FFFF && IdentityFrom(pg, linear, n)
    ensures Addresses(pg, linear, n, false, false) == Ok(Consecutive(linear, n))
    decreases n
  {
    hide Translate;
    if n > 0 {
      BytesAt(pg, linear + 1, n - 1);
    }
  }

  lemma LoadPair(mem: Memory, a: nat, b: nat)
    requires b == a + 1
    ensures Load(mem, Consecutive(a, 2)) == Peek(mem, a) + 0x100 * Peek(mem, b)
  {
    var last := Consecutive(b, 1);
    assert Consecutive(b + 1, 0) == [] && last == [b];
    assert Consecutive(a, 2) == [a] + last && ([a] + last)[1..] == last && last[1..] == [];
    assert Load(mem, last) == Peek(mem, b) + 0x100 * Load(mem, []);
  }

  lemma LoadFour(mem: Memory, a: nat)
    requires Peek(mem, a + 2) == 0 && Peek(mem, a + 3) == 0
    ensures Load(mem, Consecutive(a, 4)) == Peek(mem, a) + 0x100 * Peek(mem, a + 1)
  {
    hide Peek;
    var rest, last := Consecutive(a + 1, 3), Consecutive(a + 2, 2);
    LoadPair(mem, a + 2, a + 3);
    assert Consecutive(a, 4) == [a] + rest && rest == [a + 1] + last;
    assert ([a] + rest)[1..] == rest && ([a + 1] + last)[1..] == last;
    assert Load(mem, rest) == Peek(mem, a + 1) + 0x100 * Load(mem, last);
  }

  lemma ByteAt(pg: Paging, mem: Memory, linear: u32)
    requires IdentityFrom(pg, linear, 1)
    ensures SystemByte(pg, mem, linear) == Ok(Peek(mem, linear))
  {
    hide Translate;
  }

  /** Eight bytes decode as they stand. */
  lemma DescriptorAt(pg: Paging, mem: Memory, addr: u32)
    requires addr < 0xFFFF_FF00 && IdentityFrom(pg, addr, 8)
    requires Peek(mem, addr + 2) == 0 && Peek(mem, addr + 4) == 0
    requires Peek(mem, addr + 6) < 16 && Peek(mem, addr + 7) == 0
    ensures var limit := Peek(mem, addr) + 0x100 * Peek(mem, addr + 1) + 0x1_0000 * Peek(mem, addr + 6);
            && limit < 0x1_0000_0000
            && DecodeAt(pg, mem, addr)
               == Ok(Descriptor(0x100 * Peek(mem, addr + 3), limit, Peek(mem, addr + 5), Peek(mem, addr + 6)))
  {
    hide Translate, Peek, SystemByte;
    ByteAt(pg, mem, addr);
    ByteAt(pg, mem, addr + 1);
    ByteAt(pg, mem, addr + 2);
    ByteAt(pg, mem, addr + 3);
    ByteAt(pg, mem, addr + 4);
    ByteAt(pg, mem, addr + 5);
    ByteAt(pg, mem, addr + 6);
    ByteAt(pg, mem, addr + 7);
  }
}
