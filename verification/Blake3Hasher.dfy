/**
  The incremental hasher of crates/blake3/src/lib.rs: a block buffer, a chunk
  state and a lazily merged stack of subtree chaining values, updated in place.
  Every method is proved against the recursive tree over the bytes absorbed.
 */
module Blake3Hasher {
  import opened Blake3Compress
  import opened TreeShape
  import opened Blake3Tree
  import opened Wrappers

  class ChunkState {
    const compress: Compression
    const chunkCounter: nat
    const flags: bv32
    var chainingValue: Cv
    const block: array<bv8>
    var blockLen: nat
    var blocksCompressed: nat

    /** The state has absorbed exactly `chunk` under the mode `m`. */
    ghost predicate Absorbed(m: Mode, chunk: seq<bv8>)
      reads this, block
    {
      && compress == m.compress && flags == m.flags
      && block.Length == BLOCK_LEN
      && blockLen <= BLOCK_LEN
      && |chunk| == BLOCK_LEN * blocksCompressed + blockLen
      && chainingValue == ChunkCv(m, chunkCounter, chunk, blocksCompressed)
      && block[..] == Pad(chunk[BLOCK_LEN * blocksCompressed..])
    }

    /** Nothing is compressed before more input asks for it. */
    ghost predicate Lazy()
      reads this
    {
      blocksCompressed > 0 ==> blockLen > 0
    }

    constructor (compress: Compression, key: Cv, chunkCounter: nat, flags: bv32)
      ensures fresh(block)
      ensures this.chunkCounter == chunkCounter && blockLen == 0 && blocksCompressed == 0
      ensures Absorbed(Mode(compress, key, flags), []) && Lazy()
    {
      this.compress := compress;
      this.chunkCounter := chunkCounter;
      this.flags := flags;
      chainingValue := key;
      block := new bv8[BLOCK_LEN](_ => 0);
      blockLen := 0;
      blocksCompressed := 0;
    }

    constructor Restore(
      compress: Compression, chainingValue: Cv, chunkCounter: nat, buffer: seq<bv8>, blockLen: nat,
      blocksCompressed: nat, flags: bv32)
      requires |buffer| == BLOCK_LEN
      ensures fresh(block) && block[..] == buffer
      ensures this.compress == compress && this.chunkCounter == chunkCounter && this.flags == flags
      ensures this.chainingValue == chainingValue
      ensures this.blockLen == blockLen && this.blocksCompressed == blocksCompressed
    {
      this.compress := compress;
      this.chunkCounter := chunkCounter;
      this.flags := flags;
      this.chainingValue := chainingValue;
      block := new bv8[BLOCK_LEN](i requires 0 <= i < BLOCK_LEN => buffer[i]);
      this.blockLen := blockLen;
      this.blocksCompressed := blocksCompressed;
    }

    function Len(): nat
      reads this
    {
      BLOCK_LEN * blocksCompressed + blockLen
    }

    /** Compresses the full block buffer, as no later than when more input arrives. */
    method CompressBlock(ghost m: Mode, ghost chunk: seq<bv8>)
      requires Absorbed(m, chunk) && blockLen == BLOCK_LEN
      modifies this, block
      ensures Absorbed(m, chunk) && blockLen == 0 && blocksCompressed == old(blocksCompressed) + 1
    {
      hide BlockCv;
      assert chunk[BLOCK_LEN * blocksCompressed..BLOCK_LEN * (blocksCompressed + 1)] == block[..];
      chainingValue := CompressedBlock(m);
      blocksCompressed := blocksCompressed + 1;
      forall i | 0 <= i < BLOCK_LEN {
        block[i] := 0;
      }
      blockLen := 0;
      assert chunk[BLOCK_LEN * blocksCompressed..] == [];
    }

    function CompressedBlock(ghost m: Mode): (cv: Cv)
      requires compress == m.compress && flags == m.flags && block.Length == BLOCK_LEN
      reads this, block
      ensures cv == BlockCv(m, chunkCounter, chainingValue, block[..], blocksCompressed)
    {
      compress(
        chainingValue, WordsOf(block[..], 16), chunkCounter, BLOCK_LEN, flags | StartFlag(blocksCompressed))[..8]
    }

    /** Copies the first bytes of `input` into the free part of the buffer. */
    method Fill(input: seq<bv8>, take: nat, ghost m: Mode, ghost chunk: seq<bv8>)
      requires Absorbed(m, chunk)
      requires take <= |input| && blockLen + take <= BLOCK_LEN
      modifies this`blockLen, block
      ensures Absorbed(m, chunk + input[..take]) && blockLen == old(blockLen) + take
    {
      hide ChunkCv;
      ghost var rest := chunk[BLOCK_LEN * blocksCompressed..];
      forall i | 0 <= i < take {
        block[blockLen + i] := input[i];
      }
      blockLen := blockLen + take;
      ChunkCvPrefix(m, chunkCounter, chunk, input[..take], blocksCompressed);
      assert (chunk + input[..take])[BLOCK_LEN * blocksCompressed..] == rest + input[..take];
      assert block[..] == Pad(rest + input[..take]);
    }

    method Update(input: seq<bv8>, ghost m: Mode, ghost chunk: seq<bv8>)
      requires Absorbed(m, chunk) && Lazy()
      modifies this, block
      ensures Absorbed(m, chunk + input) && Lazy()
    {
      var input' := input;
      ghost var done := chunk;
      while input' != []
        invariant done + input' == chunk + input
        invariant Absorbed(m, done) && Lazy()
        decreases |input'|
      {
        if blockLen == BLOCK_LEN {
          CompressBlock(m, done);
        }
        var want := BLOCK_LEN - blockLen;
        var take := if want < |input'| then want else |input'|;
        Fill(input', take, m, done);
        done := done + input'[..take];
        input' := input'[take..];
      }
      assert done == chunk + input;
    }

    function NodeOutput(ghost m: Mode, ghost chunk: seq<bv8>): (o: Output)
      requires Absorbed(m, chunk) && Lazy()
      reads this, block
      ensures o == ChunkOutput(m, chunkCounter, chunk)
    {
      assert blocksCompressed == LastBlock(|chunk|);
      Output(
        chainingValue, WordsOf(block[..], 16), chunkCounter, blockLen,
        flags | StartFlag(blocksCompressed) | CHUNK_END)
    }
  }

  /** The capacity of the subtree stack; 2^54 chunks of 1024 bytes are 2^64 bytes. */
  const STACK_CAPACITY: nat := 54
  const MAX_INPUT: nat := CHUNK_LEN * PowerOfTwo(STACK_CAPACITY)

  lemma StackFits(chunks: nat)
    requires CHUNK_LEN * chunks < MAX_INPUT
    ensures |Pending(1, chunks, chunks)| == PopCount(chunks) <= STACK_CAPACITY
  {
    PendingLength(1, chunks, chunks);
    PopCountBelowPowerOfTwo(chunks, STACK_CAPACITY);
  }

  /** What `add_chunk_chaining_value` does to the pending ranges at one size. */
  lemma PendingStep(size: nat, end: int, t: nat)
    requires t > 0
    ensures t % 2 == 0 ==>
      && Pending(size, end - size, t - 1)
         == Pending(2 * size, end - 2 * size, t / 2 - 1) + [Range(end - 2 * size, size)]
      && Pending(size, end, t) == Pending(2 * size, end, t / 2)
    ensures t % 2 == 1 ==> Pending(size, end, t) == Pending(size, end - size, t - 1) + [Range(end - size, size)]
  {
    if t % 2 == 0 {
      assert (t - 1) / 2 == t / 2 - 1 && (t - 1) % 2 == 1;
      assert end - size - size == end - 2 * size;
    } else if t > 1 {
      assert (t - 1) / 2 == t / 2 && (t - 1) % 2 == 0;
    }
  }

  // ------------------------------------------------------------------
  // How the stack grows and shrinks
  // ------------------------------------------------------------------

  /**
    The stack length after a finished chunk was added as number `totalChunks`: one entry less for
    each merge, one more for the push. There is none if a merge finds the stack empty or the push
    finds it full.
   */
  function StackAfter(len: nat, totalChunks: nat): (after: Option<nat>)
    requires 0 < totalChunks
    ensures after.Some? ==> after.value <= STACK_CAPACITY
    decreases totalChunks
  {
    if totalChunks % 2 == 1 then if len < STACK_CAPACITY then Some(len + 1) else None
    else if len == 0 then None
    else StackAfter(len - 1, totalChunks / 2)
  }

  function TrailingZeros(n: nat): nat
    requires 0 < n
  {
    if n % 2 == 1 then 0 else 1 + TrailingZeros(n / 2)
  }

  lemma {:induction false} StackAfterMerges(len: nat, totalChunks: nat)
    requires 0 < totalChunks
    ensures var z := TrailingZeros(totalChunks);
      StackAfter(len, totalChunks) == if z <= len < z + STACK_CAPACITY then Some(len - z + 1) else None
    decreases totalChunks
  {
    if totalChunks % 2 == 0 && len > 0 {
      StackAfterMerges(len - 1, totalChunks / 2);
    }
  }

  /** Adding one clears the trailing 1-bits, which are the trailing 0-bits of the sum, and sets one bit. */
  lemma {:induction false} PopCountNext(n: nat)
    ensures TrailingZeros(n + 1) <= PopCount(n) && PopCount(n + 1) == PopCount(n) - TrailingZeros(n + 1) + 1
    decreases n
  {
    if n % 2 == 0 {
      assert (n + 1) % 2 == 1 && (n + 1) / 2 == n / 2;
    } else {
      assert (n + 1) % 2 == 0 && (n + 1) / 2 == n / 2 + 1;
      PopCountNext(n / 2);
    }
  }

  /** The stack length after the chunks `n + 1` to `last` were added one after the other. */
  function StackThrough(len: nat, n: nat, last: nat): Option<nat>
    decreases last - n
  {
    if last <= n then Some(len)
    else
      var next := StackAfter(len, n + 1);
      if next.Some? then StackThrough(next.value, n + 1, last) else None
  }

  lemma {:induction false} PopCountSurvives(n: nat, last: nat)
    requires n <= last <= PowerOfTwo(STACK_CAPACITY)
    ensures StackThrough(PopCount(n), n, last) == Some(PopCount(last))
    decreases last - n
  {
    if n < last {
      hide StackAfter, PopCount, TrailingZeros, PowerOfTwo;
      PopCountFits(n);
      PopCountNext(n);
      StackAfterMerges(PopCount(n), n + 1);
      PopCountSurvives(n + 1, last);
    }
  }

  lemma PopCountFits(n: nat)
    requires n < PowerOfTwo(STACK_CAPACITY)
    ensures PopCount(n) <= STACK_CAPACITY
    ensures PopCount(n) < TrailingZeros(n + 1) + STACK_CAPACITY
  {
    PopCountBelowPowerOfTwo(n, STACK_CAPACITY);
    FullPopCount(n, STACK_CAPACITY);
  }

  /** All bits set: the next number has only trailing zeros. */
  lemma {:induction false} FullPopCount(n: nat, k: nat)
    requires n < PowerOfTwo(k)
    ensures PopCount(n) == k ==> TrailingZeros(n + 1) == k
  {
    if k > 0 {
      FullPopCount(n / 2, k - 1);
      PopCountBelowPowerOfTwo(n / 2, k - 1);
      if n % 2 == 1 {
        assert (n + 1) / 2 == n / 2 + 1;
      }
    }
  }

  lemma {:induction false} PowerIsBelow(k: nat)
    ensures TrailingZeros(PowerOfTwo(k)) == k && PopCount(PowerOfTwo(k) - 1) == k
  {
    if k > 0 {
      PowerIsBelow(k - 1);
      assert (2 * PowerOfTwo(k - 1) - 1) / 2 == PowerOfTwo(k - 1) - 1;
    }
  }

  lemma {:induction false} SurvivorIsPopCount(len: nat, n: nat)
    requires len <= STACK_CAPACITY && n < PowerOfTwo(STACK_CAPACITY)
    requires StackThrough(len, n, PowerOfTwo(STACK_CAPACITY)).Some?
    ensures len == PopCount(n)
    decreases PowerOfTwo(STACK_CAPACITY) - n
  {
    hide StackAfter, PopCount, TrailingZeros, PowerOfTwo;
    StackAfterMerges(len, n + 1);
    if n + 1 == PowerOfTwo(STACK_CAPACITY) {
      PowerIsBelow(STACK_CAPACITY);
    } else {
      PopCountNext(n);
      SurvivorIsPopCount(StackAfter(len, n + 1).value, n + 1);
    }
  }

  /**
    A stack outlives every chunk up to number 2^54, with no merge on an empty stack and no push
    on a full one, exactly when it holds one entry per 1-bit of the chunks already finished.
   */
  lemma StackSurvives(len: nat, n: nat)
    requires len <= STACK_CAPACITY && n < PowerOfTwo(STACK_CAPACITY)
    ensures StackThrough(len, n, PowerOfTwo(STACK_CAPACITY)).Some? <==> len == PopCount(n)
  {
    hide PowerOfTwo, StackThrough, PopCount;
    PopCountSurvives(n, PowerOfTwo(STACK_CAPACITY));
    if StackThrough(len, n, PowerOfTwo(STACK_CAPACITY)).Some? {
      SurvivorIsPopCount(len, n);
    }
  }

  /** Complete incremental hash progress, as plain data. */
  datatype HasherState = HasherState(
    chunkChainingValue: Cv, chunkCounter: nat, block: seq<bv8>, blockLen: nat, blocksCompressed: nat,
    chunkFlags: bv32, keyWords: Cv, stack: seq<Cv>, stackLen: nat, flags: bv32)
  {
    /** The sizes that the fixed-size arrays of the state give. */
    predicate Sized() {
      |block| == BLOCK_LEN && |stack| == STACK_CAPACITY
    }

    /** What `from_state` checks. */
    predicate Accepted() {
      && blockLen <= BLOCK_LEN && blocksCompressed < CHUNK_LEN / BLOCK_LEN
      && stackLen <= STACK_CAPACITY && chunkFlags == flags
    }

    /** The progress of hashing exactly `input` under the mode `m`. */
    ghost predicate Captures(m: Mode, input: seq<bv8>) {
      var n := LastChunk(|input|);
      var chunk := ChunkAt(input, n);
      && Sized() && |input| <= MAX_INPUT
      && chunkCounter == n && keyWords == m.key && flags == chunkFlags == m.flags
      && blockLen <= BLOCK_LEN && (blocksCompressed > 0 ==> blockLen > 0)
      && |chunk| == BLOCK_LEN * blocksCompressed + blockLen
      && chunkChainingValue == ChunkCv(m, n, chunk, blocksCompressed)
      && block == Pad(chunk[BLOCK_LEN * blocksCompressed..])
      && stackLen <= STACK_CAPACITY && Holds(NodesOf(m), input, stack[..stackLen], Pending(1, n, n))
    }

    /**
      `from_state` does not check that the stack belongs to the chunk counter: of the states it
      accepts, exactly those with one entry per 1-bit of the counter can absorb all further input.
     */
    lemma AcceptedSurvives()
      requires Accepted() && chunkCounter < PowerOfTwo(STACK_CAPACITY)
      ensures StackThrough(stackLen, chunkCounter, PowerOfTwo(STACK_CAPACITY)).Some?
         <==> stackLen == PopCount(chunkCounter)
    {
      hide StackThrough, PowerOfTwo, PopCount;
      StackSurvives(stackLen, chunkCounter);
    }

    lemma CapturedIsAccepted(m: Mode, input: seq<bv8>)
      requires Captures(m, input)
      ensures Accepted()
    {
      hide ChunkCv, Holds, Pending, NodesOf, Pad;
      assert |ChunkAt(input, LastChunk(|input|))| <= CHUNK_LEN;
    }
  }

  class Hasher {
    const compress: Compression
    const keyWords: Cv
    const flags: bv32
    var chunkState: ChunkState
    const cvStack: array<Cv>
    var cvStackLen: nat
    ghost var input: seq<bv8>

    function ModeOf(): Mode {
      Mode(compress, keyWords, flags)
    }

    ghost function Repr(): set<object>
      reads this
    {
      {this, chunkState, chunkState.block, cvStack}
    }

    function Stack(): seq<Cv>
      requires cvStackLen <= cvStack.Length
      reads this`cvStackLen, cvStack
    {
      cvStack[..cvStackLen]
    }

    /** The chunk state and the stack account for all of `input`. */
    ghost predicate Consistent()
      reads this, chunkState, chunkState.block, cvStack
    {
      var n := chunkState.chunkCounter;
      && cvStack.Length == STACK_CAPACITY && cvStackLen <= STACK_CAPACITY
      && CHUNK_LEN * n <= |input| <= CHUNK_LEN * n + CHUNK_LEN
      && |input| <= MAX_INPUT
      && chunkState.Absorbed(ModeOf(), ChunkAt(input, n)) && chunkState.Lazy()
      && Holds(NodesOf(ModeOf()), input, Stack(), Pending(1, n, n))
    }

    /** Consistent, and no chunk was finished before more input asked for it. */
    ghost predicate Valid()
      reads this, chunkState, chunkState.block, cvStack
    {
      Consistent() && chunkState.chunkCounter == LastChunk(|input|)
    }

    lemma ChunkRoom()
      requires Consistent()
      ensures chunkState.Len() == |input| - CHUNK_LEN * chunkState.chunkCounter <= CHUNK_LEN
    {
    }

    /** Nothing absorbed and nothing pending is a valid state. */
    lemma EmptyIsValid(m: Mode)
      requires m == Mode(compress, keyWords, flags)
      requires cvStack.Length == STACK_CAPACITY && cvStackLen == 0 && input == []
      requires chunkState.chunkCounter == 0 && chunkState.Absorbed(m, []) && chunkState.Lazy()
      ensures Valid()
    {
      hide ChunkState.Absorbed, ChunkState.Lazy, NodesOf, Holds, Pending, ChunkAt, LastChunk, PowerOfTwo;
      var n := chunkState.chunkCounter;
      EmptyChunk(input, n);
      assert Stack() == [];
      NothingPending(NodesOf(m), input, Stack(), n);
    }

    constructor NewInternal(compress: Compression, keyWords: Cv, flags: bv32)
      ensures Valid() && fresh(Repr())
      ensures input == [] && ModeOf() == Mode(compress, keyWords, flags)
    {
      hide Valid, ChunkState.Absorbed, ChunkState.Lazy;
      this.compress := compress;
      this.keyWords := keyWords;
      this.flags := flags;
      chunkState := new ChunkState(compress, keyWords, 0, flags);
      cvStack := new Cv[STACK_CAPACITY](_ => seq(8, _ => 0));
      cvStackLen := 0;
      input := [];
      new;
      EmptyIsValid(Mode(compress, keyWords, flags));
    }

    method PushStack(cv: Cv)
      requires cvStackLen < cvStack.Length
      modifies this`cvStackLen, cvStack
      ensures cvStackLen == old(cvStackLen) + 1 && Stack() == old(Stack()) + [cv]
    {
      cvStack[cvStackLen] := cv;
      cvStackLen := cvStackLen + 1;
    }

    method PopStack() returns (cv: Cv)
      requires 0 < cvStackLen <= cvStack.Length
      modifies this`cvStackLen
      ensures cvStackLen == old(cvStackLen) - 1 && old(Stack()) == Stack() + [cv]
    {
      cvStackLen := cvStackLen - 1;
      cv := cvStack[cvStackLen];
    }

    /**
      Merges the subtrees that a finished chunk completes and pushes the result. It needs no more
      than a stack that survives the step; from the pending subtrees of the earlier chunks it makes
      those of all chunks.
     */
    method AddChunkChainingValue(newCv: Cv, totalChunks: nat)
      requires 0 < totalChunks && cvStackLen <= STACK_CAPACITY == cvStack.Length
      requires StackAfter(cvStackLen, totalChunks).Some?
      modifies this`cvStackLen, cvStack
      ensures cvStackLen <= STACK_CAPACITY && Some(cvStackLen) == StackAfter(old(cvStackLen), totalChunks)
      ensures old(EarlierPending(newCv, totalChunks)) ==>
        Holds(NodesOf(ModeOf()), input, Stack(), Pending(1, totalChunks, totalChunks))
    {
      hide Pending, Subtree, NodesOf, Holds;
      ghost var h := NodesOf(ModeOf());
      ghost var sound := EarlierPending(newCv, totalChunks);
      var cv := newCv;
      var t := totalChunks;
      ghost var size := 1;
      while t % 2 == 0
        invariant 0 < t && cvStackLen <= STACK_CAPACITY
        invariant StackAfter(cvStackLen, t) == StackAfter(old(cvStackLen), totalChunks)
        invariant 0 < size && LargestPowerOfTwo(2 * size - 1) == size
        invariant Pending(size, totalChunks, t) == Pending(1, totalChunks, totalChunks)
        invariant sound ==>
          && size <= totalChunks && cv == Subtree(h, input, totalChunks - size, size)
          && Holds(h, input, Stack(), Pending(size, totalChunks - size, t - 1))
        decreases t
      {
        PendingStep(size, totalChunks, t);
        ghost var stack := Stack();
        var left := PopStack();
        if sound {
          TopHolds(
            h, input, stack, Pending(2 * size, totalChunks - 2 * size, t / 2 - 1), Range(totalChunks - 2 * size, size));
          MergeSubtrees(h, input, totalChunks - 2 * size, size);
        }
        cv := ParentCv(left, cv);
        t := t / 2;
        size := 2 * size;
      }
      PendingStep(size, totalChunks, t);
      if sound {
        PushHolds(h, input, Stack(), Pending(size, totalChunks - size, t - 1), cv, Range(totalChunks - size, size));
      }
      PushStack(cv);
    }

    /** The stack holds the subtrees pending before chunk `totalChunks`, whose chaining value is `newCv`. */
    ghost predicate EarlierPending(newCv: Cv, totalChunks: nat)
      requires 0 < totalChunks && cvStackLen <= cvStack.Length
      reads this, cvStack
    {
      && CHUNK_LEN * totalChunks <= |input|
      && newCv == Subtree(NodesOf(ModeOf()), input, totalChunks - 1, 1)
      && Holds(NodesOf(ModeOf()), input, Stack(), Pending(1, totalChunks - 1, totalChunks - 1))
    }

    function ParentCv(left: Cv, right: Cv): (cv: Cv)
      ensures cv == NodesOf(ModeOf()).cv(NodesOf(ModeOf()).parent(left, right))
    {
      ChainingValue(ModeOf(), ParentOutput(ModeOf(), left, right))
    }

    /** Finishes a complete chunk, because more input is coming. */
    method FinishChunk()
      requires Valid() && |input| < MAX_INPUT && chunkState.Len() == CHUNK_LEN
      modifies this`chunkState, this`cvStackLen, cvStack
      ensures Consistent() && |input| == CHUNK_LEN * chunkState.chunkCounter
      ensures fresh(chunkState) && fresh(chunkState.block) && chunkState.Len() == 0
    {
      hide *;
      ChunkIsComplete();
      var chunkCv := ChainingValue(ModeOf(), chunkState.NodeOutput(ModeOf(), ChunkAt(input, chunkState.chunkCounter)));
      var totalChunks := chunkState.chunkCounter + 1;
      AddChunkChainingValue(chunkCv, totalChunks);
      chunkState := new ChunkState(compress, keyWords, totalChunks, flags);
      NextChunkIsConsistent();
    }

    /** Before a complete chunk is finished: its output is the next subtree, and the stack has room for it. */
    lemma ChunkIsComplete()
      requires Valid() && |input| < MAX_INPUT && chunkState.Len() == CHUNK_LEN
      ensures var n := chunkState.chunkCounter;
        && cvStackLen <= STACK_CAPACITY == cvStack.Length && StackAfter(cvStackLen, n + 1).Some?
        && |input| == CHUNK_LEN * (n + 1) && |input| <= MAX_INPUT
        && chunkState.Absorbed(ModeOf(), ChunkAt(input, n)) && chunkState.Lazy()
        && EarlierPending(ChainingValue(ModeOf(), ChunkOutput(ModeOf(), n, ChunkAt(input, n))), n + 1)
    {
      ChunkRoom();
      var n := chunkState.chunkCounter;
      NextFits(n + 1);
      hide ChunkState.Absorbed, ChunkState.Lazy, Holds, Pending, ChunkOutput;
      TreeLeaf(NodesOf(ModeOf()), input, n);
    }

    /** After it: the next chunk is empty, and the stack holds all finished chunks. */
    lemma NextChunkIsConsistent()
      requires cvStackLen <= STACK_CAPACITY == cvStack.Length
      requires |input| == CHUNK_LEN * chunkState.chunkCounter && |input| <= MAX_INPUT
      requires chunkState.Absorbed(Mode(compress, keyWords, flags), []) && chunkState.Lazy()
      requires chunkState.blockLen == 0 && chunkState.blocksCompressed == 0
      requires Holds(NodesOf(ModeOf()), input, Stack(), Pending(1, chunkState.chunkCounter, chunkState.chunkCounter))
      ensures Consistent() && chunkState.Len() == 0
    {
      hide ChunkState.Absorbed, ChunkState.Lazy, Holds, Pending, NodesOf;
      assert ChunkAt(input, chunkState.chunkCounter) == [];
    }

    /** The pending subtrees leave room for one more chunk. */
    lemma NextFits(totalChunks: nat)
      requires Consistent() && totalChunks == chunkState.chunkCounter + 1 && CHUNK_LEN * totalChunks <= MAX_INPUT
      ensures StackAfter(cvStackLen, totalChunks).Some?
    {
      hide ChunkState.Absorbed, ChunkState.Lazy, NodesOf, Pending, PopCount, TrailingZeros, StackAfter;
      var n := chunkState.chunkCounter;
      HoldsLength(NodesOf(ModeOf()), input, Stack(), Pending(1, n, n));
      PendingLength(1, n, n);
      PopCountFits(n);
      PopCountNext(n);
      StackAfterMerges(PopCount(n), totalChunks);
    }

    /** Feeds bytes that fit into the current chunk. */
    method Absorb(part: seq<bv8>)
      requires Consistent() && part != [] && |input| + |part| <= MAX_INPUT
      requires chunkState.Len() + |part| <= CHUNK_LEN
      modifies this`input, chunkState, chunkState.block
      ensures Valid() && input == old(input) + part
    {
      hide ChunkCv, Pad, Holds, NodesOf, Pending;
      ghost var n := chunkState.chunkCounter;
      assert ChunkAt(input + part, n) == ChunkAt(input, n) + part;
      HoldsAfterMoreInput(NodesOf(ModeOf()), input, part, Stack(), Pending(1, n, n));
      chunkState.Update(part, ModeOf(), ChunkAt(input, n));
      input := input + part;
    }

    /** Adds input to the hash state. */
    method Update(more: seq<bv8>)
      requires Valid() && |input| + |more| <= MAX_INPUT
      modifies Repr()
      ensures Valid() && fresh(Repr() - old(Repr()))
      ensures input == old(input) + more
    {
      hide Valid, Consistent;
      var more' := more;
      while more' != []
        invariant Valid() && fresh(Repr() - old(Repr()))
        invariant input + more' == old(input) + more
        decreases |more'|
      {
        more' := UpdateStep(more');
      }
      assert input + [] == input;
    }

    /** Finishes a complete chunk, then feeds as much as the current chunk takes; returns the rest. */
    method UpdateStep(more: seq<bv8>) returns (rest: seq<bv8>)
      requires Valid() && |input| + |more| <= MAX_INPUT && more != []
      modifies Repr()
      ensures Valid() && fresh(Repr() - old(Repr()))
      ensures |rest| < |more| && input + rest == old(input) + more
    {
      hide Consistent;
      ChunkRoom();
      if chunkState.Len() == CHUNK_LEN {
        FinishChunk();
      }
      var want := CHUNK_LEN - chunkState.Len();
      var take := if want < |more| then want else |more|;
      Rejoined(input, more, take);
      Absorb(more[..take]);
      rest := more[take..];
    }

    /** Writes the first bytes of the extendable output. */
    method Finalize(out: array<bv8>)
      requires Valid() && out !in Repr()
      modifies out
      ensures out[..] == Blake3(ModeOf(), input, out.Length)
    {
      hide Fold, Tree, Holds, Pending, ChunkCv, Pad, LastBlockOutput;
      ghost var n := chunkState.chunkCounter;
      var last := chunkState.NodeOutput(ModeOf(), ChunkAt(input, n));
      var root := FoldStack(last);
      FoldIsTree(NodesOf(ModeOf()), input, Stack(), 0, n);
      WriteRootOutput(ModeOf(), root, out);
    }

    /** Captures complete incremental hash progress. */
    method CaptureState() returns (s: HasherState)
      requires Valid()
      ensures s.Captures(ModeOf(), input)
    {
      hide ChunkCv, Holds, Pending, NodesOf, Pad;
      assert cvStack[..][..cvStackLen] == Stack();
      s := HasherState(
        chunkState.chainingValue, chunkState.chunkCounter, chunkState.block[..], chunkState.blockLen,
        chunkState.blocksCompressed, chunkState.flags, keyWords, cvStack[..], cvStackLen, flags);
    }

    /**
      Restores progress; `null` stands for `None`. The restored hasher stands for whatever
      input the state captures, so it behaves as the captured one under all further calls.
     */
    static method FromState(compress: Compression, s: HasherState, ghost captured: seq<bv8>) returns (h: Hasher?)
      requires s.Sized()
      ensures h != null <==> s.Accepted()
      ensures h != null ==> fresh(h) && fresh(h.Repr()) && h.ModeOf() == Mode(compress, s.keyWords, s.flags)
      ensures s.Captures(Mode(compress, s.keyWords, s.flags), captured) ==>
        h != null && h.Valid() && h.input == captured
    {
      hide ChunkCv, Holds, Pending, NodesOf, Pad;
      if s.Captures(Mode(compress, s.keyWords, s.flags), captured) {
        s.CapturedIsAccepted(Mode(compress, s.keyWords, s.flags), captured);
      }
      if !s.Accepted() {
        return null;
      }
      h := new Hasher.Restore(compress, s, captured);
    }

    constructor Restore(compress: Compression, s: HasherState, ghost captured: seq<bv8>)
      requires s.Sized() && s.Accepted()
      ensures fresh(Repr()) && ModeOf() == Mode(compress, s.keyWords, s.flags)
      ensures s.Captures(Mode(compress, s.keyWords, s.flags), captured) ==> Valid() && input == captured
    {
      hide ChunkCv, Holds, Pending, NodesOf, Pad;
      this.compress := compress;
      keyWords := s.keyWords;
      flags := s.flags;
      chunkState := new ChunkState.Restore(
        compress, s.chunkChainingValue, s.chunkCounter, s.block, s.blockLen, s.blocksCompressed, s.chunkFlags);
      cvStack := new Cv[STACK_CAPACITY](i requires 0 <= i < STACK_CAPACITY => s.stack[i]);
      cvStackLen := s.stackLen;
      input := captured;
      new;
      assert Stack() == s.stack[..s.stackLen];
    }

    /** The regular hash function. */
    static method New() returns (h: Hasher)
      ensures fresh(h) && fresh(h.Repr()) && h.Valid()
      ensures h.input == [] && h.ModeOf() == Mode(Compress, IV, 0)
    {
      h := new Hasher.NewInternal(Compress, IV, 0);
    }

    /** The keyed hash function. */
    static method NewKeyed(key: seq<bv8>) returns (h: Hasher)
      requires |key| == 32
      ensures fresh(h) && fresh(h.Repr()) && h.Valid()
      ensures h.input == [] && h.ModeOf() == Mode(Compress, WordsOf(key, 8), KEYED_HASH)
    {
      h := new Hasher.NewInternal(Compress, WordsOf(key, 8), KEYED_HASH);
    }

    /** The key derivation function: its key is the hash of the context string. */
    static method NewDeriveKey(context: seq<bv8>) returns (h: Hasher)
      requires |context| <= MAX_INPUT
      ensures fresh(h) && fresh(h.Repr()) && h.Valid()
      ensures h.input == []
      ensures h.ModeOf() == Mode(
        Compress, WordsOf(Blake3(Mode(Compress, IV, DERIVE_KEY_CONTEXT), context, 32), 8), DERIVE_KEY_MATERIAL)
    {
      hide Blake3, WordsOf, Hasher.Valid;
      var contextHasher := new Hasher.NewInternal(Compress, IV, DERIVE_KEY_CONTEXT);
      contextHasher.Update(context);
      assert [] + context == context;
      var contextKey := new bv8[32];
      contextHasher.Finalize(contextKey);
      h := new Hasher.NewInternal(Compress, WordsOf(contextKey[..], 8), DERIVE_KEY_MATERIAL);
    }

    /** Computes the parent nodes along the right edge of the tree, up to the root. */
    method FoldStack(last: Output) returns (output: Output)
      requires cvStackLen <= cvStack.Length
      ensures output == Fold(NodesOf(ModeOf()), Stack(), last)
    {
      hide ChainingValue;
      ghost var h := NodesOf(ModeOf());
      output := last;
      var remaining := cvStackLen;
      while remaining > 0
        invariant 0 <= remaining <= cvStackLen
        invariant Fold(h, cvStack[..remaining], output) == Fold(h, Stack(), last)
      {
        remaining := remaining - 1;
        FoldTop(h, cvStack[..remaining], cvStack[remaining], output);
        assert cvStack[..remaining + 1] == cvStack[..remaining] + [cvStack[remaining]];
        output := ParentOutput(ModeOf(), cvStack[remaining], ChainingValue(ModeOf(), output));
      }
      assert cvStack[..0] == [];
    }
  }

  /** Byte `j` of block `k`. */
  lemma RootByteAt(m: Mode, o: Output, k: nat, j: nat)
    requires j < 64
    ensures RootByte(m, o, 64 * k + j) == LittleEndianByte(RootWords(m, o, k)[j / 4], j % 4)
  {
    hide RootWords, LittleEndianByte;
    InBlock(k, j);
  }

  lemma InBlock(k: nat, j: nat)
    requires j < 64
    ensures (64 * k + j) / 64 == k && (64 * k + j) % 64 == j && (64 * k + j) % 4 == j % 4
  {
    BlockSplit(k, j);
    WordSplit(16 * k + j / 4, j % 4, 64 * k + j);
  }

  lemma BlockSplit(k: nat, j: nat)
    requires j < 64
    ensures (64 * k + j) / 64 == k && (64 * k + j) % 64 == j
  {
  }

  lemma WordSplit(q: nat, r: nat, i: nat)
    requires r < 4 && i == 4 * q + r
    ensures i % 4 == r
  {
  }

  /** Writes the part of block `k` that `out` has room for. */
  method WriteRootBlock(m: Mode, o: Output, k: nat, out: array<bv8>)
    requires 64 * k < out.Length
    modifies out
    ensures forall i :: 0 <= i < 64 * k ==> out[i] == old(out[i])
    ensures forall i :: 64 * k <= i < 64 * (k + 1) && i < out.Length ==> out[i] == RootByte(m, o, i)
  {
    hide RootWords, LittleEndianByte, RootByte;
    var words := RootWords(m, o, k);
    var len := if out.Length - 64 * k < 64 then out.Length - 64 * k else 64;
    forall j | 0 <= j < len {
      out[64 * k + j] := LittleEndianByte(words[j / 4], j % 4);
    }
    forall i | 64 * k <= i < 64 * (k + 1) && i < out.Length
      ensures out[i] == RootByte(m, o, i)
    {
      var j := i - 64 * k;
      RootByteAt(m, o, k, j);
      assert out[64 * k + j] == LittleEndianByte(words[j / 4], j % 4);
    }
  }

  /** Fills `out` block by block; the counter of each block is its index. */
  method WriteRootOutput(m: Mode, o: Output, out: array<bv8>)
    modifies out
    ensures out[..] == RootBytes(m, o, out.Length)
  {
    hide RootByte;
    var k := 0;
    while 64 * k < out.Length
      invariant forall i :: 0 <= i < 64 * k && i < out.Length ==> out[i] == RootByte(m, o, i)
    {
      WriteRootBlock(m, o, k, out);
      k := k + 1;
    }
  }

  // ----- Properties across calls -----

  function Concat(pieces: seq<seq<bv8>>): seq<bv8> {
    if pieces == [] then [] else Concat(pieces[..|pieces| - 1]) + pieces[|pieces| - 1]
  }

  lemma {:induction false} ConcatPrefixLength(pieces: seq<seq<bv8>>, k: nat)
    requires k <= |pieces|
    ensures |Concat(pieces[..k])| <= |Concat(pieces)|
  {
    if k < |pieces| {
      ConcatPrefixLength(pieces[..|pieces| - 1], k);
      assert pieces[..|pieces| - 1][..k] == pieces[..k];
    } else {
      assert pieces[..k] == pieces;
    }
  }

  /** However the input is split over the calls, the hash is that of the concatenation. */
  method HashPieces(h: Hasher, pieces: seq<seq<bv8>>, out: array<bv8>)
    requires h.Valid() && h.input == [] && out !in h.Repr()
    requires |Concat(pieces)| <= MAX_INPUT
    modifies h.Repr(), out
    ensures out[..] == Blake3(h.ModeOf(), Concat(pieces), out.Length)
  {
    hide Blake3;
    var i := 0;
    while i < |pieces|
      invariant i <= |pieces| && h.Valid() && fresh(h.Repr() - old(h.Repr()))
      invariant h.input == Concat(pieces[..i])
    {
      hide *;
      ConcatStep(pieces, i);
      h.Update(pieces[i]);
      i := i + 1;
    }
    assert pieces[..i] == pieces;
    h.Finalize(out);
  }

  lemma ConcatStep(pieces: seq<seq<bv8>>, i: nat)
    requires i < |pieces|
    ensures Concat(pieces[..i + 1]) == Concat(pieces[..i]) + pieces[i]
    ensures |Concat(pieces[..i])| + |pieces[i]| <= |Concat(pieces)|
  {
    assert pieces[..i + 1][..i] == pieces[..i];
    ConcatPrefixLength(pieces, i + 1);
  }

  /** A captured and restored hasher finishes the hash that the original one would have. */
  method ContinueFromCapture(h: Hasher, more: seq<bv8>, out: array<bv8>)
    requires h.Valid() && |h.input| + |more| <= MAX_INPUT
    requires out !in h.Repr()
    modifies out
    ensures out[..] == Blake3(h.ModeOf(), h.input + more, out.Length)
  {
    hide Blake3, Hasher.Valid;
    var s := h.CaptureState();
    var restored := Hasher.FromState(h.compress, s, h.input);
    restored.Update(more);
    restored.Finalize(out);
  }

  /** Asking for more output never changes the bytes already given (section 2.6 of the paper). */
  lemma ShorterOutputIsPrefix(m: Mode, input: seq<bv8>, short: nat, long: nat)
    requires short <= long
    ensures Blake3(m, input, short) == Blake3(m, input, long)[..short]
  {
  }

  lemma Rejoined(input: seq<bv8>, more: seq<bv8>, take: nat)
    requires take <= |more|
    ensures input + more[..take] + more[take..] == input + more
  {
  }

  lemma EmptyChunk(input: seq<bv8>, n: nat)
    requires input == [] && n == 0
    ensures CHUNK_LEN * n <= |input| <= CHUNK_LEN * n + CHUNK_LEN && |input| <= MAX_INPUT
    ensures ChunkAt(input, n) == [] && LastChunk(|input|) == n
  {
    hide PowerOfTwo;
  }

  lemma NothingPending(h: Nodes<Output, Cv>, input: seq<bv8>, stack: seq<Cv>, n: nat)
    requires stack == [] && n == 0
    ensures Holds(h, input, stack, Pending(1, n, n))
  {
  }

  lemma HoldsLength(h: Nodes<Output, Cv>, input: seq<bv8>, stack: seq<Cv>, rs: seq<Range>)
    requires Holds(h, input, stack, rs)
    ensures |stack| == |rs|
  {
  }

  lemma PushHolds(h: Nodes<Output, Cv>, input: seq<bv8>, stack: seq<Cv>, rs: seq<Range>, cv: Cv, top: Range)
    requires Holds(h, input, stack, rs) && InInput(input, top) && cv == Subtree(h, input, top.lo, top.n)
    ensures Holds(h, input, stack + [cv], rs + [top])
    ensures |stack| < |rs + [top]|
  {
    hide Subtree;
  }

  lemma TopHolds(h: Nodes<Output, Cv>, input: seq<bv8>, stack: seq<Cv>, rs: seq<Range>, top: Range)
    requires Holds(h, input, stack, rs + [top])
    ensures |stack| > 0 && InInput(input, top)
    ensures Holds(h, input, stack[..|stack| - 1], rs)
    ensures stack[|stack| - 1] == Subtree(h, input, top.lo, top.n)
  {
    hide Subtree;
    assert (rs + [top])[|stack| - 1] == top;
    assert forall i :: 0 <= i < |rs| ==> (rs + [top])[i] == rs[i];
  }
}
