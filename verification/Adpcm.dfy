/**
  The ADPCM-A coder of utils/rhythm/evolve_rhythm.py: the step both coder and
  decoder take, the decoder, the lookahead encoder and the nibble packing.
 */
module Adpcm {
  const SAMPLES: nat := 0x1000
  const LAST_STEP: nat := 48

  type Nibble = n: nat | n < 16
  type Byte = n: nat | n < 0x100
  type Sample = s: int | -0x8000 <= s < 0x8000

  /** What coder and decoder carry from sample to sample. */
  datatype Coder = Coder(acc: nat, step: nat)
  {
    predicate Valid() {
      acc < SAMPLES && step <= LAST_STEP
    }
  }

  const START := Coder(0, 0)

  function StepSize(step: nat): (size: nat)
    requires step <= LAST_STEP
    ensures 16 <= size <= 1552
    ensures size <= 1060 || size == 1166 || size == 1282 || size == 1411 || size == 1552
  {
    if step < 13 then [16, 17, 19, 21, 23, 25, 28, 31, 34, 37, 41, 45, 50][step]
    else if step < 26 then [55, 60, 66, 73, 80, 88, 97, 107, 118, 130, 143, 157, 173][step - 13]
    else if step < 39 then [190, 209, 230, 253, 279, 307, 337, 371, 408, 449, 494, 544, 598][step - 26]
    else [658, 724, 796, 876, 963, 1060, 1166, 1282, 1411, 1552][step - 39]
  }

  function StepIncrement(magnitude: nat): int
    requires magnitude < 8
  {
    [-1, -1, -1, -1, 2, 5, 7, 9][magnitude]
  }

  function Magnitude(nibble: nat): nat {
    nibble % 8
  }

  function Eighths(odd: nat, size: nat): nat {
    NonNegative(odd, size);
    odd * size / 8
  }

  lemma NonNegative(a: nat, b: nat)
    ensures a * b >= 0
  {
  }

  /** The unsigned change of the accumulator. */
  function Change(size: nat, nibble: nat): nat {
    Eighths(2 * Magnitude(nibble) + 1, size)
  }

  function Delta(size: nat, nibble: nat): int {
    var change: int := Change(size, nibble);
    if nibble / 8 % 2 == 1 then -change else change
  }

  function Clamp(step: int): nat {
    if step < 0 then 0 else if step > LAST_STEP then LAST_STEP else step
  }

  /** The coder after one nibble. */
  function Next(c: Coder, nibble: nat): (r: Coder)
    requires c.Valid()
    ensures r.Valid()
  {
    Coder((c.acc + Delta(StepSize(c.step), nibble)) % SAMPLES, Clamp(c.step + StepIncrement(Magnitude(nibble))))
  }

  /** The 12-bit accumulator as a signed 16-bit value. */
  function Signed(acc: nat): int {
    var raw := acc * 16 % 0x1_0000;
    if raw >= 0x8000 then raw - 0x1_0000 else raw
  }

  /** The sample heard: scaled down, with the two lowest bits cleared. */
  function Pcm(acc: nat): (s: Sample)
    requires acc < SAMPLES
    ensures -15_360 <= s <= 15_352
  {
    ClearLowBits(Signed(acc) * 15 / 32)
  }

  function ClearLowBits(x: int): int {
    x - x % 4
  }

  function Heard(c: Coder, nibble: nat): Sample
    requires c.Valid()
  {
    Pcm(Next(c, nibble).acc)
  }

  /** One step: the coder after a nibble and the sample heard. */
  method AdpcmStep(acc: nat, step: nat, nibble: nat) returns (acc': nat, step': nat, pcm: Sample)
    requires Coder(acc, step).Valid()
    ensures Coder(acc', step') == Next(Coder(acc, step), nibble)
    ensures pcm == Heard(Coder(acc, step), nibble)
  {
    var nib := nibble % 16;
    var mag := nib % 8;
    LowNibble(nibble);
    var delta: int := (2 * mag + 1) * StepSize(step) / 8;
    assert delta == Change(StepSize(step), nibble);
    if nib / 8 == 1 {
      delta := -delta;
    }
    acc' := (acc + delta) % 0x1000;
    var moved := step + StepIncrement(mag);
    step' := Clamp(moved);
    var raw16: int := acc' * 16 % 0x1_0000;
    if raw16 >= 0x8000 {
      raw16 := raw16 - 0x1_0000;
    }
    pcm := ClearLowBits(raw16 * 15 / 32);
  }

  lemma LowNibble(nibble: nat)
    ensures nibble % 16 % 8 == nibble % 8 && (nibble % 16 / 8 == 1 <==> nibble / 8 % 2 == 1)
  {
    var q, r := nibble / 16, nibble % 16;
    assert nibble == 8 * (2 * q) + r;
    assert nibble / 8 == 2 * q + r / 8;
  }

  // ------------------------------------------------------------------
  // Decoding
  // ------------------------------------------------------------------

  /** The coder after a row of nibbles. */
  function After(nibbles: seq<Nibble>): (c: Coder)
    ensures c.Valid()
  {
    if nibbles == [] then START else Next(After(nibbles[..|nibbles| - 1]), nibbles[|nibbles| - 1])
  }

  function Decoded(nibbles: seq<Nibble>): (pcm: seq<Sample>)
    ensures |pcm| == |nibbles|
  {
    if nibbles == [] then []
    else
      var most := nibbles[..|nibbles| - 1];
      Decoded(most) + [Heard(After(most), nibbles[|nibbles| - 1])]
  }

  lemma {:induction false} DecodedAt(nibbles: seq<Nibble>, i: nat)
    requires i < |nibbles|
    ensures Decoded(nibbles)[i] == Heard(After(nibbles[..i]), nibbles[i])
  {
    hide Heard, After;
    var most := nibbles[..|nibbles| - 1];
    if i < |most| {
      DecodedAt(most, i);
      assert most[..i] == nibbles[..i];
    }
  }

  lemma AfterExtended(nibbles: seq<Nibble>, i: nat)
    requires i < |nibbles|
    ensures After(nibbles[..i + 1]) == Next(After(nibbles[..i]), nibbles[i])
  {
    assert nibbles[..i + 1][..i] == nibbles[..i];
  }

  lemma DecodedExtended(nibbles: seq<Nibble>, i: nat)
    requires i < |nibbles|
    ensures Decoded(nibbles[..i + 1]) == Decoded(nibbles[..i]) + [Heard(After(nibbles[..i]), nibbles[i])]
  {
    assert nibbles[..i + 1][..i] == nibbles[..i];
  }

  /** The lower halves of a row of bytes. */
  function Masked(data: seq<Byte>): (nibbles: seq<Nibble>)
    ensures |nibbles| == |data|
  {
    seq(|data|, i requires 0 <= i < |data| => data[i] % 16)
  }

  /** Only the lower half of a byte counts. */
  lemma UpperHalfIgnored(c: Coder, byte: Byte)
    requires c.Valid()
    ensures Next(c, byte) == Next(c, byte % 16) && Heard(c, byte) == Heard(c, byte % 16)
  {
    hide Eighths, StepSize, StepIncrement;
    LowNibble(byte);
  }

  /** Decodes a row of bytes, each by its lower half. */
  method DecodeAdpcmA(data: seq<Byte>) returns (pcm: array<Sample>)
    ensures fresh(pcm) && pcm[..] == Decoded(Masked(data))
  {
    hide Next, Heard, After, Decoded;
    var n := |data|;
    ghost var nibbles := Masked(data);
    pcm := new Sample[n](_ => 0);
    var acc, si := 0, 0;
    NothingDecoded();
    for i := 0 to n
      invariant Coder(acc, si) == After(nibbles[..i])
      invariant pcm[..i] == Decoded(nibbles[..i])
    {
      AfterExtended(nibbles, i);
      DecodedExtended(nibbles, i);
      UpperHalfIgnored(After(nibbles[..i]), data[i]);
      var sample;
      acc, si, sample := AdpcmStep(acc, si, data[i]);
      pcm[i] := sample;
      assert pcm[..i + 1] == pcm[..i] + [sample];
    }
    assert nibbles[..n] == nibbles;
    assert pcm[..n] == pcm[..];
  }

  lemma NothingDecoded()
    ensures After([]) == Coder(0, 0) && Decoded([]) == []
  {
  }

  // ------------------------------------------------------------------
  // Encoding
  // ------------------------------------------------------------------

  const ERR_MAX: nat := 0x7FFF_FFFF
  const TOTAL_MAX: nat := 0x7FFF_FFFF_FFFF_FFFF

  function Distance(a: int, b: int): nat {
    if a < b then b - a else a - b
  }

  function Err(c: Coder, nibble: nat, target: Sample): (e: nat)
    requires c.Valid()
    ensures e <= 0xFFFF
  {
    Distance(Heard(c, nibble), target)
  }

  /** The first of the nibbles below `k` that comes nearest to the target. */
  function NearestBelow(c: Coder, target: Sample, k: nat): (n: Nibble)
    requires c.Valid() && 1 <= k <= 16
    ensures n < k
  {
    if k == 1 then 0
    else
      var n := NearestBelow(c, target, k - 1);
      if Err(c, k - 1, target) < Err(c, n, target) then k - 1 else n
  }

  lemma {:induction false} NearestIsLeast(c: Coder, target: Sample, k: nat)
    requires c.Valid() && 1 <= k <= 16
    ensures var n := NearestBelow(c, target, k);
      && (forall m: nat :: m < k ==> Err(c, n, target) <= Err(c, m, target))
      && (forall m: nat :: m < n ==> Err(c, n, target) < Err(c, m, target))
  {
    hide Err;
    if k > 1 {
      NearestIsLeast(c, target, k - 1);
    }
  }

  function Nearest(c: Coder, target: Sample): Nibble
    requires c.Valid()
  {
    NearestBelow(c, target, 16)
  }

  /** What following the nearest nibbles costs over the targets ahead. */
  function GreedyCost(c: Coder, targets: seq<Sample>): nat
    requires c.Valid()
    decreases |targets|
  {
    if targets == [] then 0
    else
      var n := Nearest(c, targets[0]);
      Err(c, n, targets[0]) + GreedyCost(Next(c, n), targets[1..])
  }

  /** The lookahead cost of a nibble: its own error, then the greedy continuation. */
  function Cost(c: Coder, nibble: nat, window: seq<Sample>): nat
    requires c.Valid() && |window| > 0
  {
    Err(c, nibble, window[0]) + GreedyCost(Next(c, nibble), window[1..])
  }

  lemma {:induction false} GreedyBounded(c: Coder, targets: seq<Sample>)
    requires c.Valid()
    ensures GreedyCost(c, targets) <= 0xFFFF * |targets|
    decreases |targets|
  {
    hide Err, Nearest, Next;
    if targets != [] {
      GreedyBounded(Next(c, Nearest(c, targets[0])), targets[1..]);
    }
  }

  lemma CostBounded(c: Coder, nibble: nat, window: seq<Sample>)
    requires c.Valid() && |window| > 0
    ensures Cost(c, nibble, window) <= 0xFFFF * |window|
  {
    hide Err, Next, GreedyCost;
    GreedyBounded(Next(c, nibble), window[1..]);
  }

  function Ahead(lookahead: int, left: nat): (ahead: nat)
    ensures ahead <= left
  {
    if lookahead < 0 then 0 else if lookahead < left then lookahead else left
  }

  /** The sample to encode and those the lookahead sees after it. */
  function Window(targets: seq<Sample>, i: nat, lookahead: int): (w: seq<Sample>)
    requires i < |targets|
    ensures 0 < |w| <= |targets| && w[0] == targets[i]
  {
    targets[i..i + 1 + Ahead(lookahead, |targets| - i - 1)]
  }

  /** The nibble of least lookahead cost among all sixteen, the first of them on a tie. */
  ghost predicate Best(c: Coder, nibble: Nibble, window: seq<Sample>)
    requires c.Valid() && |window| > 0
  {
    && (forall m: nat :: m < 16 ==> Cost(c, nibble, window) <= Cost(c, m, window))
    && (forall m: nat :: m < nibble ==> Cost(c, nibble, window) < Cost(c, m, window))
  }

  /** Every nibble is best for what the decoder will have made of the nibbles before it. */
  ghost predicate Encodes(nibbles: seq<Nibble>, targets: seq<Sample>, lookahead: int) {
    |nibbles| == |targets| && EncodesUpTo(nibbles, targets, lookahead)
  }

  method NearestNibble(acc: nat, step: nat, target: Sample) returns (err: nat, acc': nat, step': nat)
    requires Coder(acc, step).Valid()
    ensures err == Err(Coder(acc, step), Nearest(Coder(acc, step), target), target)
    ensures Coder(acc', step') == Next(Coder(acc, step), Nearest(Coder(acc, step), target))
  {
    hide Next, Heard;
    ghost var c := Coder(acc, step);
    err, acc', step' := ERR_MAX, acc, step;
    for laNib := 0 to 16
      invariant laNib == 0 ==> err == ERR_MAX
      invariant laNib > 0 ==>
        && err == Err(c, NearestBelow(c, target, laNib), target)
        && Coder(acc', step') == Next(c, NearestBelow(c, target, laNib))
    {
      var ta, ts, tp := AdpcmStep(acc, step, laNib);
      var laErr := Distance(tp, target);
      assert laErr == Err(c, laNib, target);
      if laErr < err {
        err, acc', step' := laErr, ta, ts;
      }
    }
  }

  // ----- Totals in 64 bits -----

  type Total = t: int | -0x8000_0000_0000_0000 <= t < 0x8000_0000_0000_0000

  /** A total as 64-bit arithmetic keeps it. */
  function Wrapped(t: int): Total {
    (t + 0x8000_0000_0000_0000) % 0x1_0000_0000_0000_0000 - 0x8000_0000_0000_0000
  }

  lemma WrapOnce(t: int, err: nat)
    ensures Wrapped(Wrapped(t) + err) == Wrapped(t + err)
  {
    var q := (t + 0x8000_0000_0000_0000) / 0x1_0000_0000_0000_0000;
    assert Wrapped(t) == t - q * 0x1_0000_0000_0000_0000;
    SameResidue(Wrapped(t) + err + 0x8000_0000_0000_0000, t + err + 0x8000_0000_0000_0000, -q);
  }

  lemma SameResidue(x: int, y: int, z: int)
    requires x == y + z * 0x1_0000_0000_0000_0000
    ensures x % 0x1_0000_0000_0000_0000 == y % 0x1_0000_0000_0000_0000
  {
  }

  lemma SmallTotal(t: nat)
    requires t <= TOTAL_MAX
    ensures Wrapped(t) == t
  {
  }

  /** Adds up the errors of following the nearest nibbles over the samples ahead. */
  method LookAhead(acc: nat, step: nat, targets: seq<Sample>, i: nat, ahead: nat, first: nat) returns (total: Total)
    requires Coder(acc, step).Valid() && i + ahead < |targets| && first <= TOTAL_MAX
    ensures total == Wrapped(first + GreedyCost(Coder(acc, step), targets[i + 1..i + 1 + ahead]))
  {
    hide Nearest, Err, Next, Wrapped;
    total := first;
    SmallTotal(first);
    var laAcc, laSi := acc, step;
    ghost var sum := first;
    ghost var all := GreedyCost(Coder(acc, step), targets[i + 1..i + 1 + ahead]);
    for j := 1 to ahead + 1
      invariant Coder(laAcc, laSi).Valid() && total == Wrapped(sum)
      invariant sum + GreedyCost(Coder(laAcc, laSi), targets[i + j..i + 1 + ahead]) == first + all
    {
      GreedyFirst(Coder(laAcc, laSi), targets, i + j, i + 1 + ahead);
      var err, ta, ts := NearestNibble(laAcc, laSi, targets[i + j]);
      WrapOnce(sum, err);
      total := Wrapped(total + err);
      sum := sum + err;
      laAcc, laSi := ta, ts;
    }
  }

  lemma GreedyFirst(c: Coder, targets: seq<Sample>, i: nat, end: nat)
    requires c.Valid() && i < end <= |targets|
    ensures var n := Nearest(c, targets[i]);
      GreedyCost(c, targets[i..end]) == Err(c, n, targets[i]) + GreedyCost(Next(c, n), targets[i + 1..end])
  {
    assert targets[i..end][1..] == targets[i + 1..end];
  }

  /** The longest window whose totals all stay below the initial one, whatever its samples are. */
  const LONGEST: nat := 0x8000_0000_0000

  /** Encodes a row of samples; for more than `LONGEST` samples the lookahead has to be shorter than that. */
  method EncodeAdpcmA(targets: seq<Sample>, lookahead: int) returns (nibbles: array<Nibble>)
    ensures fresh(nibbles) && nibbles.Length == |targets|
    ensures |targets| <= LONGEST || lookahead < LONGEST ==> Encodes(nibbles[..], targets, lookahead)
  {
    hide Best, After, Window, BestAt;
    var n := |targets|;
    nibbles := new Nibble[n](_ => 0);
    var acc, si := 0, 0;
    ghost var emitted: seq<Nibble> := [];
    ghost var fits := n <= LONGEST || lookahead < LONGEST;
    NothingEncoded(targets, lookahead);
    for i := 0 to n
      invariant |emitted| == i && nibbles[..i] == emitted
      invariant Coder(acc, si).Valid()
      invariant fits ==> Coder(acc, si) == After(emitted) && EncodesUpTo(emitted, targets, lookahead)
    {
      var nib;
      WindowFits(targets, i, lookahead);
      nib, acc, si := BestNibble(acc, si, targets, i, lookahead);
      if fits {
        EncodesNext(emitted, nib, targets, lookahead);
      }
      nibbles[i] := nib;
      emitted := emitted + [nib];
      assert nibbles[..i + 1] == nibbles[..i] + [nib];
    }
    assert nibbles[..n] == nibbles[..];
  }

  lemma WindowFits(targets: seq<Sample>, i: nat, lookahead: int)
    requires i < |targets|
    ensures |targets| <= LONGEST || lookahead < LONGEST ==> |Window(targets, i, lookahead)| <= LONGEST
  {
  }

  ghost predicate BestAt(emitted: seq<Nibble>, i: nat, targets: seq<Sample>, lookahead: int)
    requires i < |emitted| && i < |targets|
  {
    Best(After(emitted[..i]), emitted[i], Window(targets, i, lookahead))
  }

  ghost predicate EncodesUpTo(emitted: seq<Nibble>, targets: seq<Sample>, lookahead: int) {
    && |emitted| <= |targets|
    && forall i :: 0 <= i < |emitted| ==> BestAt(emitted, i, targets, lookahead)
  }

  lemma NothingEncoded(targets: seq<Sample>, lookahead: int)
    ensures EncodesUpTo([], targets, lookahead) && After([]) == Coder(0, 0)
  {
  }

  lemma EncodesNext(emitted: seq<Nibble>, nib: Nibble, targets: seq<Sample>, lookahead: int)
    requires EncodesUpTo(emitted, targets, lookahead) && |emitted| < |targets|
    requires Best(After(emitted), nib, Window(targets, |emitted|, lookahead))
    ensures EncodesUpTo(emitted + [nib], targets, lookahead)
    ensures After(emitted + [nib]) == Next(After(emitted), nib)
  {
    hide BestAt, Next, After;
    var more := emitted + [nib];
    AfterExtended(more, |emitted|);
    assert more[..|emitted|] == emitted && more[..|emitted| + 1] == more;
    forall i | 0 <= i < |more| ensures BestAt(more, i, targets, lookahead) {
      if i < |emitted| {
        BestAtKept(emitted, nib, i, targets, lookahead);
      } else {
        BestAtLast(emitted, nib, targets, lookahead);
      }
    }
  }

  lemma BestAtKept(emitted: seq<Nibble>, nib: Nibble, i: nat, targets: seq<Sample>, lookahead: int)
    requires i < |emitted| < |targets| && BestAt(emitted, i, targets, lookahead)
    ensures BestAt(emitted + [nib], i, targets, lookahead)
  {
    hide Best, After, Window;
    assert (emitted + [nib])[..i] == emitted[..i];
  }

  lemma BestAtLast(emitted: seq<Nibble>, nib: Nibble, targets: seq<Sample>, lookahead: int)
    requires |emitted| < |targets| && Best(After(emitted), nib, Window(targets, |emitted|, lookahead))
    ensures BestAt(emitted + [nib], |emitted|, targets, lookahead)
  {
    hide Best, After, Window;
    assert (emitted + [nib])[..|emitted|] == emitted;
  }

  /** The nibble of least cost; its window must not be longer than 64-bit totals can tell apart. */
  method BestNibble(acc: nat, si: nat, targets: seq<Sample>, i: nat, lookahead: int)
    returns (bestNib: Nibble, bestAcc: nat, bestSi: nat)
    requires Coder(acc, si).Valid() && i < |targets|
    ensures Coder(bestAcc, bestSi).Valid()
    ensures |Window(targets, i, lookahead)| <= LONGEST ==>
      && Best(Coder(acc, si), bestNib, Window(targets, i, lookahead))
      && Coder(bestAcc, bestSi) == Next(Coder(acc, si), bestNib)
  {
    hide Next, Heard, GreedyCost, Wrapped;
    ghost var c, window := Coder(acc, si), Window(targets, i, lookahead);
    bestNib, bestAcc, bestSi := 0, acc, si;
    var bestTotal: Total := TOTAL_MAX;
    var ahead := Ahead(lookahead, |targets| - i - 1);
    ghost var fits := |window| <= LONGEST;
    assert window[1..] == targets[i + 1..i + 1 + ahead];
    for nib := 0 to 16
      invariant Coder(bestAcc, bestSi).Valid()
      invariant nib == 0 ==> bestTotal == TOTAL_MAX
      invariant fits && nib > 0 ==> bestNib < nib && bestTotal == Cost(c, bestNib, window)
      invariant fits && nib > 0 ==> Coder(bestAcc, bestSi) == Next(c, bestNib)
      invariant fits ==> forall m: nat :: m < nib ==> bestTotal <= Cost(c, m, window)
      invariant fits ==> forall m: nat :: m < nib && m < bestNib ==> bestTotal < Cost(c, m, window)
    {
      var ta, ts, tp := AdpcmStep(acc, si, nib);
      var total := LookAhead(ta, ts, targets, i, ahead, Distance(tp, targets[i]));
      CostBounded(c, nib, window);
      assert total == Wrapped(Cost(c, nib, window));
      if fits {
        SmallTotal(Cost(c, nib, window));
      }
      if total < bestTotal {
        bestTotal, bestNib, bestAcc, bestSi := total, nib, ta, ts;
      }
    }
  }

  // ------------------------------------------------------------------
  // A sample tells its nibble
  // ------------------------------------------------------------------

  /** The scaled sample grows with the signed accumulator, by more than the cleared bits. */
  lemma PcmDistinct(a: nat, b: nat)
    requires a < SAMPLES && b < SAMPLES && Pcm(a) == Pcm(b)
    ensures a == b
  {
    SignedIs(a);
    SignedIs(b);
    var s, t := if a < 2_048 then a else a - 4_096, if b < 2_048 then b else b - 4_096;
    if s < t {
      ScaledGrows(s, t);
    } else if t < s {
      ScaledGrows(t, s);
    }
  }

  lemma SignedIs(acc: nat)
    requires acc < SAMPLES
    ensures Signed(acc) == 16 * if acc < 2_048 then acc else acc - 4_096
  {
  }

  lemma ScaledGrows(s: int, t: int)
    requires s < t
    ensures ClearLowBits(16 * s * 15 / 32) < ClearLowBits(16 * t * 15 / 32)
  {
    Halves(s);
    Halves(t);
  }

  lemma Halves(s: int)
    ensures 16 * s * 15 / 32 == 15 * s / 2
  {
  }

  lemma ChangeGrows(size: nat, a: nat, b: nat)
    requires size >= 16 && a + 2 <= b
    ensures Eighths(a, size) < Eighths(b, size)
  {
    NonNegative(b - a - 2, size);
    assert b * size == a * size + 2 * size + (b - a - 2) * size;
  }

  lemma ChangeBounded(size: nat, odd: nat, most: nat)
    requires odd <= 15 && size <= most
    ensures Eighths(odd, size) <= 15 * most / 8
  {
    NonNegative(15 - odd, size);
    assert 15 * size == odd * size + (15 - odd) * size;
  }

  /** Two opposite changes never add up to a full turn of the accumulator, whatever the step. */
  lemma NeverAFullTurn(step: nat, a: nat, b: nat)
    requires step <= LAST_STEP && a < 8 && b < 8
    ensures Eighths(2 * a + 1, StepSize(step)) + Eighths(2 * b + 1, StepSize(step)) != SAMPLES
  {
    var size := StepSize(step);
    if size <= 1_060 {
      ChangeBounded(size, 2 * a + 1, 1_060);
      ChangeBounded(size, 2 * b + 1, 1_060);
    } else if size == 1_166 {
      Turn1166(a, b);
    } else if size == 1_282 {
      Turn1282(a, b);
    } else if size == 1_411 {
      Turn1411(a, b);
    } else {
      Turn1552(a, b);
    }
  }

  lemma Turn1166(a: nat, b: nat)
    requires a < 8 && b < 8
    ensures Eighths(2 * a + 1, 1_166) + Eighths(2 * b + 1, 1_166) != SAMPLES
  {
    assert a + b <= 13 || a + b >= 13;
  }

  lemma Turn1282(a: nat, b: nat)
    requires a < 8 && b < 8
    ensures Eighths(2 * a + 1, 1_282) + Eighths(2 * b + 1, 1_282) != SAMPLES
  {
    assert a + b <= 11 || a + b >= 12;
  }

  lemma Turn1411(a: nat, b: nat)
    requires a < 8 && b < 8
    ensures Eighths(2 * a + 1, 1_411) + Eighths(2 * b + 1, 1_411) != SAMPLES
  {
    assert a + b <= 10 || a + b >= 11;
  }

  lemma Turn1552(a: nat, b: nat)
    requires a < 8 && b < 8
    ensures Eighths(2 * a + 1, 1_552) + Eighths(2 * b + 1, 1_552) != SAMPLES
  {
    assert a + b <= 9 || a + b >= 10;
  }

  lemma ModularlyEqual(acc: int, d: int, e: int)
    requires (acc + d) % SAMPLES == (acc + e) % SAMPLES
    requires -2_910 <= d <= 2_910 && -2_910 <= e <= 2_910
    ensures d == e || d - e == SAMPLES || e - d == SAMPLES
  {
    var p, q := (acc + d) / SAMPLES, (acc + e) / SAMPLES;
    assert d - e == SAMPLES * (p - q);
  }

  /** From one state, no two nibbles are heard as the same sample. */
  lemma HeardDistinct(c: Coder, m: Nibble, n: Nibble)
    requires c.Valid() && Heard(c, m) == Heard(c, n)
    ensures m == n
  {
    hide Pcm, StepSize, Eighths;
    var size := StepSize(c.step);
    PcmDistinct(Next(c, m).acc, Next(c, n).acc);
    var d, e := Delta(size, m), Delta(size, n);
    ChangeBounded(size, 2 * Magnitude(m) + 1, 1_552);
    ChangeBounded(size, 2 * Magnitude(n) + 1, 1_552);
    ModularlyEqual(c.acc, d, e);
    NeverAFullTurn(c.step, Magnitude(m), Magnitude(n));
    SameChange(c.step, m, n);
  }

  lemma SameChange(step: nat, m: Nibble, n: Nibble)
    requires step <= LAST_STEP
    ensures Delta(StepSize(step), m) == Delta(StepSize(step), n) ==> m == n
  {
    hide StepSize, Eighths;
    var size := StepSize(step);
    var a, b := Magnitude(m), Magnitude(n);
    ChangePositive(size, 2 * a + 1);
    ChangePositive(size, 2 * b + 1);
    if a < b {
      ChangeGrows(size, 2 * a + 1, 2 * b + 1);
    } else if b < a {
      ChangeGrows(size, 2 * b + 1, 2 * a + 1);
    }
  }

  lemma ChangePositive(size: nat, odd: nat)
    requires size >= 16 && odd >= 1
    ensures Eighths(odd, size) > 0
  {
    NonNegative(odd - 1, size);
    assert odd * size == size + (odd - 1) * size;
  }

  // ------------------------------------------------------------------
  // Encoding what was decoded
  // ------------------------------------------------------------------

  lemma NearestIsExact(c: Coder, nibble: Nibble)
    requires c.Valid()
    ensures Nearest(c, Heard(c, nibble)) == nibble && Err(c, nibble, Heard(c, nibble)) == 0
  {
    var target := Heard(c, nibble);
    var n := Nearest(c, target);
    NearestIsLeast(c, target, 16);
    hide Heard;
    assert Err(c, n, target) <= Err(c, nibble, target) == 0;
    HeardDistinct(c, n, nibble);
  }

  /** The greedy continuation over decoded samples is the row they were decoded from, at no cost. */
  lemma {:induction false} GreedyFollows(x: seq<Nibble>, i: nat, end: nat)
    requires i <= end <= |x|
    ensures GreedyCost(After(x[..i]), Decoded(x)[i..end]) == 0
    decreases end - i
  {
    if i < end {
      hide Nearest, Err, Next, Heard, After, Decoded, GreedyCost;
      DecodedAt(x, i);
      NearestIsExact(After(x[..i]), x[i]);
      GreedyFirst(After(x[..i]), Decoded(x), i, end);
      AfterExtended(x, i);
      GreedyFollows(x, i + 1, end);
    }
  }

  lemma DecodedCostsNothing(x: seq<Nibble>, i: nat, lookahead: int)
    requires i < |x|
    ensures Cost(After(x[..i]), x[i], Window(Decoded(x), i, lookahead)) == 0
  {
    hide Err, Next, Heard, After, Decoded, GreedyCost;
    var ahead := Ahead(lookahead, |x| - i - 1);
    DecodedAt(x, i);
    NearestIsExact(After(x[..i]), x[i]);
    AfterExtended(x, i);
    GreedyFollows(x, i + 1, i + 1 + ahead);
    assert Window(Decoded(x), i, lookahead)[1..] == Decoded(x)[i + 1..i + 1 + ahead];
  }

  lemma OnlyExactIsFree(c: Coder, m: Nibble, n: Nibble, window: seq<Sample>)
    requires c.Valid() && |window| > 0 && window[0] == Heard(c, n)
    requires Cost(c, n, window) == 0 && Best(c, m, window)
    ensures m == n
  {
    hide Heard, Next, GreedyCost;
    assert Cost(c, m, window) <= Cost(c, n, window);
    HeardDistinct(c, m, n);
  }

  lemma EncodedAt(nibbles: seq<Nibble>, targets: seq<Sample>, lookahead: int, k: nat)
    requires Encodes(nibbles, targets, lookahead) && k < |targets|
    ensures Best(After(nibbles[..k]), nibbles[k], Window(targets, k, lookahead))
  {
    hide Best, After, Window;
    assert BestAt(nibbles, k, targets, lookahead);
  }

  lemma PrefixGrows(a: seq<Nibble>, b: seq<Nibble>, k: nat)
    requires k < |a| && k < |b| && a[..k] == b[..k] && a[k] == b[k]
    ensures a[..k + 1] == b[..k + 1]
  {
    assert a[..k + 1] == a[..k] + [a[k]] && b[..k + 1] == b[..k] + [b[k]];
  }

  lemma {:induction false} EncodedPrefix(x: seq<Nibble>, nibbles: seq<Nibble>, lookahead: int, i: nat)
    requires Encodes(nibbles, Decoded(x), lookahead) && i <= |x|
    ensures nibbles[..i] == x[..i]
  {
    hide Best, After, Decoded, Cost, Window, Heard, EncodesUpTo;
    if i > 0 {
      var k := i - 1;
      EncodedPrefix(x, nibbles, lookahead, k);
      EncodedAt(nibbles, Decoded(x), lookahead, k);
      DecodedCostsNothing(x, k, lookahead);
      DecodedAt(x, k);
      OnlyExactIsFree(After(x[..k]), nibbles[k], x[k], Window(Decoded(x), k, lookahead));
      PrefixGrows(nibbles, x, k);
    }
  }

  lemma ExactIsBest(c: Coder, n: Nibble, window: seq<Sample>)
    requires c.Valid() && |window| > 0 && window[0] == Heard(c, n) && Cost(c, n, window) == 0
    ensures Best(c, n, window)
  {
    hide Heard, Next, GreedyCost;
    forall m: Nibble | m < n ensures Cost(c, m, window) > 0 {
      if Heard(c, m) == Heard(c, n) {
        HeardDistinct(c, m, n);
      }
    }
  }

  /**
    Encoding what the decoder plays gives back the very nibbles, bit for bit and for every lookahead.
   */
  lemma DecodedEncodesBack(x: seq<Nibble>, nibbles: seq<Nibble>, lookahead: int)
    ensures Encodes(nibbles, Decoded(x), lookahead) <==> nibbles == x
  {
    hide Best, After, Decoded, Cost, Window, Heard;
    if Encodes(nibbles, Decoded(x), lookahead) {
      EncodedPrefix(x, nibbles, lookahead, |x|);
      assert nibbles[..|x|] == nibbles && x[..|x|] == x;
    } else if nibbles == x {
      forall i | 0 <= i < |x| ensures BestAt(x, i, Decoded(x), lookahead) {
        DecodedCostsNothing(x, i, lookahead);
        DecodedAt(x, i);
        ExactIsBest(After(x[..i]), x[i], Window(Decoded(x), i, lookahead));
      }
    }
  }

  /** There is only one encoding of a row of samples. */
  lemma {:induction false} EncodingIsUnique(
    a: seq<Nibble>, b: seq<Nibble>, targets: seq<Sample>, lookahead: int, i: nat)
    requires Encodes(a, targets, lookahead) && Encodes(b, targets, lookahead) && i <= |targets|
    ensures a[..i] == b[..i]
  {
    hide Best, After, Window, EncodesUpTo;
    if i > 0 {
      var k := i - 1;
      EncodingIsUnique(a, b, targets, lookahead, k);
      EncodedAt(a, targets, lookahead, k);
      EncodedAt(b, targets, lookahead, k);
      BestIsUnique(After(a[..k]), a[k], b[k], Window(targets, k, lookahead));
      PrefixGrows(a, b, k);
    }
  }

  lemma BestIsUnique(c: Coder, m: Nibble, n: Nibble, window: seq<Sample>)
    requires c.Valid() && |window| > 0 && Best(c, m, window) && Best(c, n, window)
    ensures m == n
  {
    hide Cost;
    assert Cost(c, m, window) <= Cost(c, n, window) && Cost(c, n, window) <= Cost(c, m, window);
  }

  /** Decoding an encoding plays, sample by sample, what the encoder scored: no nibble would do better. */
  lemma DecodedIsScored(nibbles: seq<Nibble>, targets: seq<Sample>, lookahead: int, i: nat, m: Nibble)
    requires Encodes(nibbles, targets, lookahead) && i < |targets|
    ensures var (c, window) := (After(nibbles[..i]), Window(targets, i, lookahead));
      Distance(Decoded(nibbles)[i], targets[i]) + GreedyCost(After(nibbles[..i + 1]), window[1..]) <= Cost(c, m, window)
  {
    hide After, Decoded, Heard, GreedyCost, Window, Next, EncodesUpTo;
    EncodedAt(nibbles, targets, lookahead, i);
    DecodedAt(nibbles, i);
    AfterExtended(nibbles, i);
  }

  // ------------------------------------------------------------------
  // Two nibbles to a byte
  // ------------------------------------------------------------------

  function Unpacked(data: seq<Byte>): (nibbles: seq<Nibble>)
    ensures |nibbles| == 2 * |data|
  {
    if data == [] then []
    else
      var last := data[|data| - 1];
      Unpacked(data[..|data| - 1]) + [last / 16, last % 16]
  }

  function Join(high: nat, low: nat): Byte
    requires high < 16 && low < 16
  {
    high * 16 + low
  }

  function Packed(nibbles: seq<Nibble>): (data: seq<Byte>)
    ensures |data| == |nibbles| / 2
  {
    seq(|nibbles| / 2, k requires 0 <= k < |nibbles| / 2 => Join(nibbles[2 * k], nibbles[2 * k + 1]))
  }

  method BytesToNibbles(data: seq<Byte>) returns (nibbles: array<Nibble>)
    ensures fresh(nibbles) && nibbles[..] == Unpacked(data)
  {
    var n := |data|;
    nibbles := new Nibble[n * 2](_ => 0);
    for i := 0 to n
      invariant nibbles[..2 * i] == Unpacked(data[..i])
    {
      assert data[..i + 1][..i] == data[..i];
      nibbles[i * 2] := data[i] / 16 % 16;
      nibbles[i * 2 + 1] := data[i] % 16;
      assert nibbles[..2 * (i + 1)] == nibbles[..2 * i] + [data[i] / 16, data[i] % 16];
    }
    assert data[..n] == data;
    assert nibbles[..2 * n] == nibbles[..];
  }

  /** Joins the lower halves of each pair of bytes. */
  method NibblesToBytes(halves: seq<Byte>) returns (data: array<Byte>)
    ensures fresh(data) && data[..] == Packed(Masked(halves))
  {
    var n := |halves| / 2;
    data := new Byte[n](_ => 0);
    for i := 0 to n
      invariant forall k :: 0 <= k < i ==> data[k] == Packed(Masked(halves))[k]
    {
      data[i] := halves[i * 2] % 16 * 16 + halves[i * 2 + 1] % 16;
    }
  }

  lemma {:induction false} UnpackedAt(data: seq<Byte>, k: nat)
    requires k < |data|
    ensures Unpacked(data)[2 * k] == data[k] / 16 && Unpacked(data)[2 * k + 1] == data[k] % 16
  {
    if k < |data| - 1 {
      UnpackedAt(data[..|data| - 1], k);
    }
  }

  /** Bytes survive unpacking and packing. */
  lemma PackUnpacked(data: seq<Byte>)
    ensures Packed(Unpacked(data)) == data
  {
    forall k | 0 <= k < |data| ensures Packed(Unpacked(data))[k] == data[k] {
      UnpackedAt(data, k);
    }
  }

  /** Every nibble of a whole pair survives. */
  lemma PairSurvives(nibbles: seq<Nibble>, k: nat)
    requires 2 * k + 1 < |nibbles|
    ensures k < |Packed(nibbles)|
    ensures Unpacked(Packed(nibbles))[2 * k] == nibbles[2 * k]
    ensures Unpacked(Packed(nibbles))[2 * k + 1] == nibbles[2 * k + 1]
  {
    hide Unpacked;
    UnpackedAt(Packed(nibbles), k);
    JoinSplits(nibbles[2 * k], nibbles[2 * k + 1]);
  }

  lemma JoinSplits(high: nat, low: nat)
    requires high < 16 && low < 16
    ensures Join(high, low) / 16 == high && Join(high, low) % 16 == low
  {
  }

  /** Nibbles survive packing and unpacking exactly when their number is even; else the last is lost. */
  lemma UnpackPacked(nibbles: seq<Nibble>)
    ensures Unpacked(Packed(nibbles)) == nibbles <==> |nibbles| % 2 == 0
    ensures Unpacked(Packed(nibbles)) <= nibbles
  {
    hide Unpacked, Packed;
    var round := Unpacked(Packed(nibbles));
    forall j | 0 <= j < |round| ensures round[j] == nibbles[j] {
      PairSurvives(nibbles, j / 2);
      assert j == 2 * (j / 2) || j == 2 * (j / 2) + 1;
    }
  }
}
