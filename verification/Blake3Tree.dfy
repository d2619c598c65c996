/**
  What BLAKE3 hashes to: the contents of chunk and parent nodes, the extendable
  output of the root, and the whole function over the tree of `TreeShape`.
 */
module Blake3Tree {
  import opened Blake3Compress
  import opened TreeShape

  /** A compression function with the key and mode flags that every node uses. */
  datatype Mode = Mode(compress: Compression, key: Cv, flags: bv32)

  /** A node just before the choice between chaining value and root output. */
  datatype Output = Output(inputCv: Cv, blockWords: Words, counter: nat, blockLen: nat, flags: bv32)

  function ChainingValue(m: Mode, o: Output): Cv {
    m.compress(o.inputCv, o.blockWords, o.counter, o.blockLen, o.flags)[..8]
  }

  // ----- Root output -----

  /** Byte `k` of a word, least significant first. */
  function LittleEndianByte(w: bv32, k: nat): bv8 {
    match k
    case 0 => (w & 0xFF) as bv8
    case 1 => ((w >> 8) & 0xFF) as bv8
    case 2 => ((w >> 16) & 0xFF) as bv8
    case _ => (w >> 24) as bv8
  }

  /** The words of output block `k`, whose counter is `k`. */
  function RootWords(m: Mode, o: Output, k: nat): Words {
    m.compress(o.inputCv, o.blockWords, k, o.blockLen, o.flags | ROOT)
  }

  /** Byte `i` of the extendable output. */
  function RootByte(m: Mode, o: Output, i: nat): bv8 {
    LittleEndianByte(RootWords(m, o, i / 64)[i % 64 / 4], i % 4)
  }

  function RootBytes(m: Mode, o: Output, n: nat): (r: seq<bv8>)
    ensures |r| == n
  {
    seq(n, i requires 0 <= i => RootByte(m, o, i))
  }

  // ----- Chunks -----

  function WordAt(b: seq<bv8>, i: nat): bv32
    requires 4 * i + 4 <= |b|
  {
    b[4 * i] as bv32 | (b[4 * i + 1] as bv32 << 8) | (b[4 * i + 2] as bv32 << 16) | (b[4 * i + 3] as bv32 << 24)
  }

  function WordsOf(b: seq<bv8>, n: nat): (r: seq<bv32>)
    requires |b| == 4 * n
    ensures |r| == n
  {
    seq(n, i requires 0 <= i < n => WordAt(b, i))
  }

  /** A block filled up with zero bytes. */
  function Pad(b: seq<bv8>): (r: seq<bv8>)
    requires |b| <= BLOCK_LEN
    ensures |r| == BLOCK_LEN
  {
    b + seq(BLOCK_LEN - |b|, _ => 0)
  }

  function StartFlag(blocks: nat): bv32 {
    if blocks == 0 then CHUNK_START else 0
  }

  /** The chaining value that compressing one full block inside a chunk gives. */
  function BlockCv(m: Mode, counter: nat, cv: Cv, block: seq<bv8>, k: nat): Cv
    requires |block| == BLOCK_LEN
  {
    m.compress(cv, WordsOf(block, 16), counter, BLOCK_LEN, m.flags | StartFlag(k))[..8]
  }

  /** The chaining value inside a chunk after its first `k` blocks. */
  function ChunkCv(m: Mode, counter: nat, chunk: seq<bv8>, k: nat): Cv
    requires BLOCK_LEN * k <= |chunk|
  {
    if k == 0 then m.key
    else BlockCv(m, counter, ChunkCv(m, counter, chunk, k - 1), chunk[BLOCK_LEN * (k - 1)..BLOCK_LEN * k], k - 1)
  }

  /** The last block of a chunk is never compressed early; only the empty chunk has an empty one. */
  function LastBlock(len: nat): (k: nat)
    ensures BLOCK_LEN * k <= len <= BLOCK_LEN * k + BLOCK_LEN
    ensures len > 0 ==> BLOCK_LEN * k < len
  {
    if len == 0 then 0 else (len - 1) / BLOCK_LEN
  }

  /** The node of a chunk whose `k` first blocks were compressed to `cv` and whose last block is `block`. */
  function LastBlockOutput(m: Mode, counter: nat, cv: Cv, block: seq<bv8>, len: nat, k: nat): Output
    requires |block| == BLOCK_LEN
  {
    Output(cv, WordsOf(block, 16), counter, len, m.flags | StartFlag(k) | CHUNK_END)
  }

  function ChunkOutput(m: Mode, counter: nat, chunk: seq<bv8>): Output {
    var k := LastBlock(|chunk|);
    var rest := chunk[BLOCK_LEN * k..];
    LastBlockOutput(m, counter, ChunkCv(m, counter, chunk, k), Pad(rest), |rest|, k)
  }

  /** The chaining value after whole blocks does not depend on what follows them. */
  lemma {:induction false} ChunkCvPrefix(m: Mode, counter: nat, chunk: seq<bv8>, more: seq<bv8>, k: nat)
    requires BLOCK_LEN * k <= |chunk|
    ensures ChunkCv(m, counter, chunk + more, k) == ChunkCv(m, counter, chunk, k)
  {
    if k > 0 {
      hide BlockCv;
      ChunkCvPrefix(m, counter, chunk, more, k - 1);
      assert (chunk + more)[BLOCK_LEN * (k - 1)..BLOCK_LEN * k] == chunk[BLOCK_LEN * (k - 1)..BLOCK_LEN * k];
    }
  }

  // ----- The whole function -----

  function ParentOutput(m: Mode, left: Cv, right: Cv): Output {
    Output(m.key, left + right, 0, BLOCK_LEN, PARENT | m.flags)
  }

  function NodesOf(m: Mode): Nodes<Output, Cv> {
    Nodes(
      (counter, chunk) => ChunkOutput(m, counter, chunk),
      o => ChainingValue(m, o),
      (left, right) => ParentOutput(m, left, right))
  }

  function RootOutput(m: Mode, input: seq<bv8>): Output {
    Tree(NodesOf(m), input, 0, LastChunk(|input|))
  }

  /** The first `n` bytes of the BLAKE3 output for `input`. */
  function Blake3(m: Mode, input: seq<bv8>, n: nat): (r: seq<bv8>)
    ensures |r| == n
  {
    RootBytes(m, RootOutput(m, input), n)
  }
}
