/**
  The shape of the BLAKE3 tree, for any node contents: the left-full binary tree
  over 1024-byte chunks (section 2.1 of the BLAKE3 paper) as plain recursion over
  the whole input, the stack of pending subtrees (section 5.1.2), and why folding
  that stack gives the root.
 */
module TreeShape {

  const CHUNK_LEN: nat := 1024

  /** Node contents: a chunk's node, a node's chaining value, the parent of two chaining values. */
  datatype Nodes<!O, !C> = Nodes(leaf: (nat, seq<bv8>) -> O, cv: O -> C, parent: (C, C) -> O)

  /** The largest power of two that is at most `n`. */
  function LargestPowerOfTwo(n: nat): (p: nat)
    requires n > 0
    ensures 0 < p <= n < 2 * p
  {
    if n == 1 then 1 else 2 * LargestPowerOfTwo(n / 2)
  }

  /** Chunk `i`: 1024 bytes, fewer only at the end of the input. */
  function ChunkAt(input: seq<bv8>, i: nat): seq<bv8>
    requires CHUNK_LEN * i <= |input|
  {
    if CHUNK_LEN * (i + 1) <= |input| then input[CHUNK_LEN * i..CHUNK_LEN * (i + 1)] else input[CHUNK_LEN * i..]
  }

  /** The index of the last chunk. Only the empty input has an empty chunk. */
  function LastChunk(len: nat): (i: nat)
    ensures CHUNK_LEN * i <= len <= CHUNK_LEN * i + CHUNK_LEN
    ensures len > 0 ==> CHUNK_LEN * i < len
  {
    if len == 0 then 0 else (len - 1) / CHUNK_LEN
  }

  /**
    The node over the chunks `lo` to `last`, both included. The left child takes the
    largest power of two of chunks that leaves at least one for the right child.
   */
  function Tree<O, C>(h: Nodes<O, C>, input: seq<bv8>, lo: nat, last: nat): O
    requires lo <= last && CHUNK_LEN * last <= |input|
    decreases last - lo
  {
    if lo == last then h.leaf(lo, ChunkAt(input, lo))
    else
      var p := LargestPowerOfTwo(last - lo);
      h.parent(h.cv(Tree(h, input, lo, lo + p - 1)), h.cv(Tree(h, input, lo + p, last)))
  }

  lemma TreeStep<O, C>(h: Nodes<O, C>, input: seq<bv8>, lo: nat, last: nat, p: nat)
    requires lo < last && CHUNK_LEN * last <= |input| && p == LargestPowerOfTwo(last - lo)
    ensures Tree(h, input, lo, last)
         == h.parent(h.cv(Tree(h, input, lo, lo + p - 1)), h.cv(Tree(h, input, lo + p, last)))
  {
  }

  lemma TreeLeaf<O, C>(h: Nodes<O, C>, input: seq<bv8>, lo: nat)
    requires CHUNK_LEN * lo <= |input|
    ensures Tree(h, input, lo, lo) == h.leaf(lo, ChunkAt(input, lo))
  {
  }

  // ----- Which subtrees are pending -----

  /** The `n` whole chunks that start at chunk `lo`. */
  datatype Range = Range(lo: int, n: int)

  /**
    The pending subtrees over `q` groups of `size` chunks that end at chunk `end`:
    one range per 1-bit of `q`, the largest at the bottom of the stack.
   */
  function Pending(size: nat, end: int, q: nat): seq<Range>
    decreases q
  {
    if q == 0 then []
    else if q % 2 == 0 then Pending(2 * size, end, q / 2)
    else Pending(2 * size, end - size, q / 2) + [Range(end - size, size)]
  }

  function PopCount(n: nat): nat {
    if n == 0 then 0 else n % 2 + PopCount(n / 2)
  }

  function PowerOfTwo(k: nat): (p: nat)
    ensures p > 0
  {
    if k == 0 then 1 else 2 * PowerOfTwo(k - 1)
  }

  lemma {:induction false} PopCountBelowPowerOfTwo(n: nat, k: nat)
    requires n < PowerOfTwo(k)
    ensures PopCount(n) <= k
  {
    if n > 0 {
      PopCountBelowPowerOfTwo(n / 2, k - 1);
    }
  }

  /** One stack entry per 1-bit of the number of groups. */
  lemma {:induction false} PendingLength(size: nat, end: int, q: nat)
    ensures |Pending(size, end, q)| == PopCount(q)
    decreases q
  {
    if q > 0 {
      PendingLength(2 * size, if q % 2 == 0 then end else end - size, q / 2);
    }
  }

  lemma HalfGroups(size: nat, q: nat)
    ensures size * q == 2 * size * (q / 2) + size * (q % 2)
  {
    assert q == 2 * (q / 2) + q % 2;
  }

  /** The bottom of the stack is the largest power-of-two subtree; the rest is the stack after it. */
  lemma {:induction false} BottomIsLargest(size: nat, end: int, q: nat)
    requires q > 0
    ensures var p := LargestPowerOfTwo(q);
            Pending(size, end, q) == [Range(end - size * q, size * p)] + Pending(size, end, q - p)
    decreases q
  {
    var p := LargestPowerOfTwo(q);
    if q > 1 {
      var h := LargestPowerOfTwo(q / 2);
      var mid := if q % 2 == 0 then end else end - size;
      BottomIsLargest(2 * size, mid, q / 2);
      assert 2 * size * h == size * p && mid - 2 * size * (q / 2) == end - size * q by {
        HalfGroups(size, q);
        HalfGroups(size, p);
      }
      assert (q - p) / 2 == q / 2 - h && (q - p) % 2 == q % 2;
    }
  }

  /** The ranges lie end to end from chunk `lo` up to chunk `end`. */
  predicate Covers(rs: seq<Range>, lo: int, end: int) {
    if rs == [] then lo == end
    else
      var top := rs[|rs| - 1];
      top.lo + top.n == end && Covers(rs[..|rs| - 1], lo, top.lo)
  }

  predicate IsPowerOfTwo(n: int) {
    n > 0 && LargestPowerOfTwo(n) == n
  }

  /** Complete subtrees of at least `size` chunks, largest first. */
  predicate Decreasing(rs: seq<Range>, size: nat) {
    && (forall i :: 0 <= i < |rs| ==> IsPowerOfTwo(rs[i].n) && rs[i].n >= size)
    && (forall i, j :: 0 <= i < j < |rs| ==> rs[i].n > rs[j].n)
  }

  /** The pending subtrees cover all finished chunks without a gap. */
  lemma {:induction false} PendingCovers(size: nat, end: int, q: nat)
    ensures Covers(Pending(size, end, q), end - size * q, end)
    decreases q
  {
    if q > 0 {
      HalfGroups(size, q);
      var mid := if q % 2 == 0 then end else end - size;
      var rs := Pending(2 * size, mid, q / 2);
      PendingCovers(2 * size, mid, q / 2);
      assert mid - 2 * size * (q / 2) == end - size * q;
      if q % 2 == 1 {
        assert (rs + [Range(end - size, size)])[..|rs|] == rs;
      }
    }
  }

  /** Each pending subtree is a power of two of chunks, and they come in decreasing size. */
  lemma {:induction false} PendingDecreases(size: nat, end: int, q: nat)
    requires IsPowerOfTwo(size)
    ensures Decreasing(Pending(size, end, q), size)
    decreases q
  {
    if q > 0 {
      assert IsPowerOfTwo(2 * size);
      PendingDecreases(2 * size, if q % 2 == 0 then end else end - size, q / 2);
    }
  }

  // ----- What the stack holds -----

  /** The chaining value of the subtree over `n` whole chunks from chunk `lo` on. */
  function Subtree<O, C>(h: Nodes<O, C>, input: seq<bv8>, lo: nat, n: nat): C
    requires n > 0 && CHUNK_LEN * (lo + n) <= |input|
  {
    h.cv(Tree(h, input, lo, lo + n - 1))
  }

  /** A node over whole chunks does not depend on what follows them. */
  lemma {:induction false} TreePrefix<O, C>(h: Nodes<O, C>, input: seq<bv8>, more: seq<bv8>, lo: nat, last: nat)
    requires lo <= last && CHUNK_LEN * last + CHUNK_LEN <= |input|
    ensures Tree(h, input + more, lo, last) == Tree(h, input, lo, last)
    decreases last - lo
  {
    hide Tree;
    if lo == last {
      assert ChunkAt(input + more, lo) == ChunkAt(input, lo);
      TreeLeaf(h, input, lo);
      TreeLeaf(h, input + more, lo);
    } else {
      var p := LargestPowerOfTwo(last - lo);
      TreePrefix(h, input, more, lo, lo + p - 1);
      TreePrefix(h, input, more, lo + p, last);
      TreeStep(h, input, lo, last, p);
      TreeStep(h, input + more, lo, last, p);
    }
  }

  ghost predicate InInput(input: seq<bv8>, r: Range) {
    0 <= r.lo && 0 < r.n && CHUNK_LEN * (r.lo + r.n) <= |input|
  }

  /** `stack` holds exactly the chaining values of the ranges `rs` of `input`. */
  ghost predicate Holds<O, C>(h: Nodes<O, C>, input: seq<bv8>, stack: seq<C>, rs: seq<Range>) {
    && |stack| == |rs|
    && forall i :: 0 <= i < |rs| ==> InInput(input, rs[i]) && stack[i] == Subtree(h, input, rs[i].lo, rs[i].n)
  }

  /** Input that arrives later does not change what is pending. */
  lemma HoldsAfterMoreInput<O, C>(h: Nodes<O, C>, input: seq<bv8>, more: seq<bv8>, stack: seq<C>, rs: seq<Range>)
    requires Holds(h, input, stack, rs)
    ensures Holds(h, input + more, stack, rs)
  {
    forall i | 0 <= i < |rs|
      ensures InInput(input + more, rs[i])
      ensures Subtree(h, input, rs[i].lo, rs[i].n) == Subtree(h, input + more, rs[i].lo, rs[i].n)
    {
      assert InInput(input, rs[i]);
      TreePrefix(h, input, more, rs[i].lo, rs[i].lo + rs[i].n - 1);
    }
  }

  /** Two neighbouring subtrees of the same power-of-two size are the children of the next larger one. */
  lemma MergeSubtrees<O, C>(h: Nodes<O, C>, input: seq<bv8>, lo: nat, size: nat)
    requires size > 0 && LargestPowerOfTwo(2 * size - 1) == size
    requires CHUNK_LEN * (lo + size + size) <= |input|
    ensures Subtree(h, input, lo, size + size)
         == h.cv(h.parent(Subtree(h, input, lo, size), Subtree(h, input, lo + size, size)))
  {
  }

  // ----- Folding the stack -----

  /** Walks from the top of the stack to the root, as `finalize` does. */
  function Fold<O, C>(h: Nodes<O, C>, stack: seq<C>, last: O): O {
    if |stack| == 0 then last
    else h.parent(stack[0], h.cv(Fold(h, stack[1..], last)))
  }

  lemma {:induction false} FoldTop<O, C>(h: Nodes<O, C>, stack: seq<C>, top: C, last: O)
    ensures Fold(h, stack + [top], last) == Fold(h, stack, h.parent(top, h.cv(last)))
  {
    if |stack| == 0 {
      assert Fold(h, ([top])[1..], last) == last;
    } else {
      assert (stack + [top])[1..] == stack[1..] + [top];
      FoldTop(h, stack[1..], top, last);
    }
  }

  /** The bottom entry of a non-empty stack, and what the rest of the stack holds. */
  lemma PopLargest<O, C>(h: Nodes<O, C>, input: seq<bv8>, stack: seq<C>, lo: nat, end: nat)
    requires lo < end && CHUNK_LEN * end <= |input|
    requires Holds(h, input, stack, Pending(1, end, end - lo))
    ensures var p := LargestPowerOfTwo(end - lo);
            && |stack| > 0
            && stack[0] == h.cv(Tree(h, input, lo, lo + p - 1))
            && Holds(h, input, stack[1..], Pending(1, end, end - (lo + p)))
  {
    hide Tree, Pending;
    var rs := Pending(1, end, end - lo);
    var p := LargestPowerOfTwo(end - lo);
    BottomIsLargest(1, end, end - lo);
    assert rs[0] == Range(lo, p) && InInput(input, rs[0]);
    assert end - (lo + p) == end - lo - p;
    assert rs[1..] == Pending(1, end, end - (lo + p));
  }

  /** Folding the pending subtrees over the finished chunks into the last chunk gives the whole tree. */
  lemma {:induction false} FoldIsTree<O, C>(h: Nodes<O, C>, input: seq<bv8>, stack: seq<C>, lo: nat, end: nat)
    requires lo <= end && CHUNK_LEN * end <= |input|
    requires Holds(h, input, stack, Pending(1, end, end - lo))
    ensures Fold(h, stack, h.leaf(end, ChunkAt(input, end))) == Tree(h, input, lo, end)
    decreases end - lo
  {
    hide Tree;
    if lo == end {
      TreeLeaf(h, input, lo);
    } else {
      var p := LargestPowerOfTwo(end - lo);
      PopLargest(h, input, stack, lo, end);
      FoldIsTree(h, input, stack[1..], lo + p, end);
      TreeStep(h, input, lo, end, p);
    }
  }
}
