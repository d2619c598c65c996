/**
  The BLAKE3 compression function of crates/blake3/src/lib.rs, on words as bit vectors.
  Nothing about the tree depends on its strength: the tree and the hasher take
  any function of type `Compression`, and the public constructors pass `Compress`.
 */
module Blake3Compress {

  const BLOCK_LEN: nat := 64

  const CHUNK_START: bv32 := 1
  const CHUNK_END: bv32 := 2
  const PARENT: bv32 := 4
  const ROOT: bv32 := 8
  const KEYED_HASH: bv32 := 16
  const DERIVE_KEY_CONTEXT: bv32 := 32
  const DERIVE_KEY_MATERIAL: bv32 := 64

  /** An 8-word chaining value. */
  type Cv = s: seq<bv32> | |s| == 8 witness seq(8, _ => 0)

  /** The 16 words of a message block, of the compression state or of its output. */
  type Words = s: seq<bv32> | |s| == 16 witness seq(16, _ => 0)

  /** An index into 16 words. */
  type Index = i: nat | i < 16

  /** The number of rounds of one compression. */
  const ROUNDS: nat := 7

  /** Chaining value, block words, counter, block length, flags. */
  type Compression = (Cv, Words, nat, nat, bv32) -> Words

  const IV: Cv := [
    0x6A09E667, 0xBB67AE85, 0x3C6EF372, 0xA54FF53A, 0x510E527F, 0x9B05688C, 0x1F83D9AB, 0x5BE0CD19
  ]

  /** The message word that position `i` of round `r` mixes in. */
  function Schedule(r: nat): (s: seq<Index>)
    ensures |s| == 16
  {
    match r
    case 0 => [0, 1, 2, 3, 4, 5, 6, 7, 8, 9, 10, 11, 12, 13, 14, 15]
    case 1 => [2, 6, 3, 10, 7, 0, 4, 13, 1, 11, 12, 5, 9, 14, 15, 8]
    case 2 => [3, 4, 10, 12, 13, 2, 7, 14, 6, 5, 9, 0, 11, 15, 8, 1]
    case 3 => [10, 7, 12, 9, 14, 3, 13, 15, 4, 0, 11, 2, 5, 8, 1, 6]
    case 4 => [12, 13, 9, 11, 15, 10, 14, 8, 7, 2, 5, 3, 0, 1, 6, 4]
    case 5 => [9, 14, 11, 5, 8, 12, 15, 1, 13, 3, 0, 10, 2, 6, 4, 7]
    case _ => [11, 15, 5, 0, 1, 9, 8, 6, 14, 10, 2, 12, 3, 4, 7, 13]
  }

  function Mix(s: Words, a: Index, b: Index, c: Index, d: Index, mx: bv32, my: bv32): Words
  {
    var s := s[a := s[a] + s[b] + mx];
    var s := s[d := (s[d] ^ s[a]).RotateRight(16)];
    var s := s[c := s[c] + s[d]];
    var s := s[b := (s[b] ^ s[c]).RotateRight(12)];
    var s := s[a := s[a] + s[b] + my];
    var s := s[d := (s[d] ^ s[a]).RotateRight(8)];
    var s := s[c := s[c] + s[d]];
    s[b := (s[b] ^ s[c]).RotateRight(7)]
  }

  /** Mixes the columns. */
  function Columns(s: Words, m: Words, p: seq<Index>): Words
    requires |p| == 16
  {
    var s := Mix(s, 0, 4, 8, 12, m[p[0]], m[p[1]]);
    var s := Mix(s, 1, 5, 9, 13, m[p[2]], m[p[3]]);
    var s := Mix(s, 2, 6, 10, 14, m[p[4]], m[p[5]]);
    Mix(s, 3, 7, 11, 15, m[p[6]], m[p[7]])
  }

  /** Mixes the diagonals. */
  function Diagonals(s: Words, m: Words, p: seq<Index>): Words
    requires |p| == 16
  {
    var s := Mix(s, 0, 5, 10, 15, m[p[8]], m[p[9]]);
    var s := Mix(s, 1, 6, 11, 12, m[p[10]], m[p[11]]);
    var s := Mix(s, 2, 7, 8, 13, m[p[12]], m[p[13]]);
    Mix(s, 3, 4, 9, 14, m[p[14]], m[p[15]])
  }

  /** The first `n` rounds. */
  function Rounds(s: Words, m: Words, n: nat): Words {
    if n == 0 then s
    else
      var p := Schedule(n - 1);
      Diagonals(Columns(Rounds(s, m, n - 1), m, p), m, p)
  }

  /** The low 32 bits of a machine integer. */
  function Low32(n: nat): bv32 {
    (n % 0x1_0000_0000) as bv32
  }

  function InitialState(cv: Cv, low: bv32, high: bv32, blockLen: bv32, flags: bv32): Words {
    cv + [IV[0], IV[1], IV[2], IV[3], low, high, blockLen, flags]
  }

  /** Feeds the halves of the final state and the input chaining value forward. */
  function FeedForward(s: Words, cv: Cv): Words {
    seq(16, i requires 0 <= i < 16 => if i < 8 then s[i] ^ s[i + 8] else s[i] ^ cv[i - 8])
  }

  function Compress(cv: Cv, block: Words, counter: nat, blockLen: nat, flags: bv32): Words {
    var start := InitialState(cv, Low32(counter), Low32(counter / 0x1_0000_0000), Low32(blockLen), flags);
    FeedForward(Rounds(start, block, ROUNDS), cv)
  }
}
