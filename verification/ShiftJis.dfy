/**
  Shift-JIS in crates/common/src/jis.rs: encoding JIS characters to bytes and
  scanning bytes back. Bytes are a bounded type, so every intermediate result
  of the pair arithmetic is proved to fit eight bits.
 */
module ShiftJis {
  import opened Wrappers

  newtype U8 = n: int | 0 <= n < 0x100
  type U16 = n: nat | n < 0x1_0000

  /** A raw JIS code: row and cell, or a single-byte character below 0x100. */
  datatype JisChar = JisChar(code: U16)
  {
    predicate IsAnk() {
      code < 0x100
    }

    function Row(): U8 {
      (code / 0x100) as U8
    }

    function Cell(): U8 {
      (code % 0x100) as U8
    }

    /** The characters a Shift-JIS text can carry. */
    predicate Encodable() {
      if IsAnk() then code < 0x80 || 0xA1 <= code <= 0xDF
      else 0x21 <= Row() <= 0x7E && 0x21 <= Cell() <= 0x7E
    }
  }

  datatype ShiftJisChar = Single(byte: U8) | Double(lead: U8, trail: U8)
  {
    function Bytes(): (s: seq<U8>)
      ensures |s| == if Single? then 1 else 2
    {
      match this
      case Single(byte) => [byte]
      case Double(lead, trail) => [lead, trail]
    }
  }

  predicate IsLeadByte(byte: U8) {
    0x81 <= byte <= 0x9F || 0xE0 <= byte <= 0xFC
  }

  predicate IsTrailByte(byte: U8) {
    0x40 <= byte <= 0x7E || 0x80 <= byte <= 0xFC
  }

  predicate IsKatakanaByte(byte: U8) {
    0xA1 <= byte <= 0xDF
  }

  function PairToJis(lead: U8, trail: U8): (r: Option<JisChar>)
    ensures r.Some? <==> IsLeadByte(lead) && IsTrailByte(trail)
    ensures r.Some? ==> !r.value.IsAnk() && 0x21 <= r.value.Cell() <= 0x7E && r.value.Row() >= 0x21
  {
    if !IsLeadByte(lead) || !IsTrailByte(trail) then None
    else
      var first: U8 := if lead <= 0x9F then (lead - 0x81) * 2 + 0x21 else (lead - 0xC1) * 2 + 0x21;
      var row := if trail <= 0x9E then first else first + 1;
      var cell: U8 := if trail <= 0x7E then trail - 0x1F else if trail <= 0x9E then trail - 0x20 else trail - 0x7E;
      Some(FromRowCell(row, cell))
  }

  function FromRowCell(row: U8, cell: U8): (j: JisChar)
    requires row > 0
    ensures j.Row() == row && j.Cell() == cell && !j.IsAnk()
  {
    JisChar(row as nat * 0x100 + cell as nat)
  }

  function ToShiftJis(jis: JisChar): Option<ShiftJisChar> {
    if jis.IsAnk() then Some(Single(jis.code as U8))
    else
      var row, cell := jis.Row(), jis.Cell();
      if !(0x21 <= row <= 0x7E) || !(0x21 <= cell <= 0x7E) then None
      else
        var lead: U8 := if row <= 0x5E then 0x81 + (row - 0x21) / 2 else 0xE0 + (row - 0x5F) / 2;
        var trail: U8 := if row % 2 == 0 then cell + 0x7E else if cell <= 0x5F then cell + 0x1F else cell + 0x20;
        Some(Double(lead, trail))
  }

  // ------------------------------------------------------------------
  // One character
  // ------------------------------------------------------------------

  /** A double-byte character is recovered from its pair. */
  lemma PairOfJis(jis: JisChar)
    requires !jis.IsAnk() && ToShiftJis(jis).Some?
    ensures var e := ToShiftJis(jis).value;
      && e.Double? && IsLeadByte(e.lead) && e.lead <= 0xEF && IsTrailByte(e.trail)
      && PairToJis(e.lead, e.trail) == Some(jis)
  {
    var row, cell := jis.Row(), jis.Cell();
    HalfRows(row);
    assert FromRowCell(row, cell) == jis;
  }

  lemma HalfRows(row: U8)
    requires row >= 0x21
    ensures (row - 0x21) / 2 * 2 + 0x21 == if row % 2 == 1 then row else row - 1
  {
  }

  /** A pair is the encoding of its character exactly when its lead byte is in the standard rows. */
  lemma JisOfPair(lead: U8, trail: U8)
    requires PairToJis(lead, trail).Some?
    ensures ToShiftJis(PairToJis(lead, trail).value) == Some(Double(lead, trail)) <==> lead <= 0xEF
    ensures PairToJis(lead, trail).value.Encodable() <==> lead <= 0xEF
  {
  }

  // ------------------------------------------------------------------
  // Texts
  // ------------------------------------------------------------------

  const SUBSTITUTE: U8 := 0x3F

  /** The bytes written for a character; one without a code is written as a question mark. */
  function EncodedChar(jis: JisChar): (s: seq<U8>)
    ensures |s| > 0
  {
    if ToShiftJis(jis).Some? then ToShiftJis(jis).value.Bytes() else [SUBSTITUTE]
  }

  function Encoded(text: seq<JisChar>): seq<U8> {
    if text == [] then [] else EncodedChar(text[0]) + Encoded(text[1..])
  }

  function Prepend<T>(x: T, rest: Option<seq<T>>): Option<seq<T>> {
    if rest.Some? then Some([x] + rest.value) else None
  }

  /** The characters a byte string is classified into. */
  function Scan(bytes: seq<U8>): Option<seq<JisChar>> {
    if bytes == [] then Some([])
    else if bytes[0] < 0x80 || IsKatakanaByte(bytes[0]) then
      Prepend(JisChar(bytes[0] as nat), Scan(bytes[1..]))
    else if |bytes| < 2 || PairToJis(bytes[0], bytes[1]).None? then None
    else Prepend(PairToJis(bytes[0], bytes[1]).value, Scan(bytes[2..]))
  }

  lemma ScanFirst(jis: JisChar, rest: seq<U8>)
    requires jis.Encodable()
    ensures Scan(EncodedChar(jis) + rest) == Prepend(jis, Scan(rest))
  {
    var bytes := EncodedChar(jis) + rest;
    if jis.IsAnk() {
      assert bytes[1..] == rest;
    } else {
      PairOfJis(jis);
      assert bytes[2..] == rest;
    }
  }

  /** A character the text cannot carry is never scanned back, whatever bytes follow it. */
  lemma ScanLosesFirst(jis: JisChar, rest: seq<U8>)
    requires !jis.Encodable()
    ensures var r := Scan(EncodedChar(jis) + rest); r.Some? ==> r.value != [] && r.value[0] != jis
  {
    var bytes := EncodedChar(jis) + rest;
    if jis.IsAnk() {
      assert bytes[0] as nat == jis.code;
    } else {
      assert bytes[0] == SUBSTITUTE;
    }
  }

  /** Encoding a text and scanning the bytes gives the text back exactly when it can be carried. */
  lemma {:induction false} ScanOfEncoded(text: seq<JisChar>)
    ensures Scan(Encoded(text)) == Some(text) <==> forall i :: 0 <= i < |text| ==> text[i].Encodable()
  {
    if text != [] {
      hide EncodedChar, ToShiftJis, Scan, JisChar.Encodable;
      ScanOfEncoded(text[1..]);
      EncodableSplit(text);
      if text[0].Encodable() {
        ScanFirst(text[0], Encoded(text[1..]));
        PrependFirst(text, Scan(Encoded(text[1..])));
      } else {
        ScanLosesFirst(text[0], Encoded(text[1..]));
      }
    }
  }

  lemma PrependFirst<T>(s: seq<T>, rest: Option<seq<T>>)
    requires s != []
    ensures Prepend(s[0], rest) == Some(s) <==> rest == Some(s[1..])
  {
    if rest.Some? {
      assert ([s[0]] + rest.value)[1..] == rest.value;
      assert s == [s[0]] + s[1..];
    }
  }

  lemma EncodableSplit(text: seq<JisChar>)
    requires text != []
    ensures (forall i :: 0 <= i < |text| ==> text[i].Encodable())
       <==> text[0].Encodable() && forall i :: 0 <= i < |text[1..]| ==> text[1..][i].Encodable()
  {
    if forall i :: 0 <= i < |text[1..]| ==> text[1..][i].Encodable() {
      forall i | 1 <= i < |text| ensures text[i].Encodable() <==> text[1..][i - 1].Encodable() {}
    }
  }

  ghost predicate AllEncodable(text: seq<JisChar>) {
    forall j :: j in text ==> j.Encodable()
  }

  /** Scanned bytes are the encoding of what they scan to exactly when a text can carry all of it. */
  lemma {:induction false} EncodedOfScan(bytes: seq<U8>)
    requires Scan(bytes).Some?
    ensures Encoded(Scan(bytes).value) == bytes <==> AllEncodable(Scan(bytes).value)
    decreases |bytes|
  {
    hide JisChar.Encodable, PairToJis, Scan, EncodedChar, AllEncodable;
    if bytes == [] {
      NothingToScan(bytes);
    } else {
      var text := Scan(bytes).value;
      var n := if bytes[0] < 0x80 || IsKatakanaByte(bytes[0]) then 1 else 2;
      ScanSteps(bytes, n);
      EncodedOfScan(bytes[n..]);
      AllEncodableSplit(text);
      if text[0].Encodable() {
        FirstScanned(bytes, n, text[0]);
        SameTail(bytes[..n], Encoded(text[1..]), bytes[n..]);
        assert bytes == bytes[..n] + bytes[n..];
      } else {
        FirstLost(bytes, n, text[0]);
        assert Encoded(text)[0] == SUBSTITUTE;
      }
    }
  }

  lemma NothingToScan(bytes: seq<U8>)
    requires bytes == []
    ensures Scan(bytes) == Some([]) && Encoded([]) == bytes && AllEncodable([])
  {
  }

  lemma AllEncodableSplit(text: seq<JisChar>)
    requires text != []
    ensures AllEncodable(text) <==> text[0].Encodable() && AllEncodable(text[1..])
  {
    hide JisChar.Encodable;
    assert text == [text[0]] + text[1..];
    forall j ensures j in text <==> j == text[0] || j in text[1..] {}
  }

  lemma SameTail<T>(head: seq<T>, a: seq<T>, b: seq<T>)
    ensures head + a == head + b <==> a == b
  {
    assert (head + a)[|head|..] == a && (head + b)[|head|..] == b;
  }

  lemma FirstLost(bytes: seq<U8>, n: nat, first: JisChar)
    requires (n == 1 || n == 2) && n <= |bytes| && !first.Encodable()
    requires n == 1 ==> first == JisChar(bytes[0] as nat) && (bytes[0] < 0x80 || IsKatakanaByte(bytes[0]))
    requires n == 2 ==> PairToJis(bytes[0], bytes[1]) == Some(first) && bytes[0] >= 0x80
    ensures EncodedChar(first) == [SUBSTITUTE] && bytes[0] != SUBSTITUTE
  {
    hide PairToJis;
  }

  lemma ScanSteps(bytes: seq<U8>, n: nat)
    requires bytes != [] && Scan(bytes).Some?
    requires n == if bytes[0] < 0x80 || IsKatakanaByte(bytes[0]) then 1 else 2
    ensures n <= |bytes| && Scan(bytes).value != [] && Scan(bytes[n..]) == Some(Scan(bytes).value[1..])
    ensures n == 1 ==> Scan(bytes).value[0] == JisChar(bytes[0] as nat)
    ensures n == 2 ==> PairToJis(bytes[0], bytes[1]) == Some(Scan(bytes).value[0])
  {
    hide PairToJis;
    assert Scan(bytes[n..]).Some?;
    assert Scan(bytes).value[1..] == Scan(bytes[n..]).value;
  }

  lemma FirstScanned(bytes: seq<U8>, n: nat, first: JisChar)
    requires (n == 1 || n == 2) && n <= |bytes| && first.Encodable()
    requires n == 1 ==> first == JisChar(bytes[0] as nat)
    requires n == 2 ==> PairToJis(bytes[0], bytes[1]) == Some(first)
    ensures EncodedChar(first) == bytes[..n]
  {
    hide PairToJis, EncodedChar, JisChar.Encodable;
    if n == 1 {
      SingleEncoded(bytes[0]);
      assert bytes[..1] == [bytes[0]];
    } else {
      PairEncoded(bytes[0], bytes[1]);
      assert bytes[..2] == [bytes[0], bytes[1]];
    }
  }

  lemma SingleEncoded(byte: U8)
    ensures EncodedChar(JisChar(byte as nat)) == [byte]
  {
  }

  lemma PairEncoded(lead: U8, trail: U8)
    requires PairToJis(lead, trail).Some? && PairToJis(lead, trail).value.Encodable()
    ensures EncodedChar(PairToJis(lead, trail).value) == [lead, trail]
  {
    hide PairToJis, ToShiftJis, JisChar.Encodable;
    JisOfPair(lead, trail);
  }

  // ------------------------------------------------------------------
  // The loops
  // ------------------------------------------------------------------

  method WriteTo(c: ShiftJisChar, output: seq<U8>) returns (r: seq<U8>)
    ensures r == output + c.Bytes()
  {
    match c
    case Single(byte) => r := output + [byte];
    case Double(lead, trail) => r := output + [lead, trail];
  }

  method WriteChar(jis: JisChar, output: seq<U8>) returns (r: seq<U8>)
    ensures r == output + EncodedChar(jis)
  {
    var encoded := ToShiftJis(jis);
    if encoded.Some? {
      r := WriteTo(encoded.value, output);
    } else {
      r := output + [SUBSTITUTE];
    }
  }

  const KATAKANA_FIRST_CODE_POINT: nat := 0xFF61

  /** The code point of a scanned character; `toChar` is the table of double-byte characters. */
  function CodePoint(jis: JisChar, toChar: JisChar -> Option<nat>): Option<nat> {
    if jis.code < 0x80 then Some(jis.code)
    else if 0xA1 <= jis.code <= 0xDF then Some(KATAKANA_FIRST_CODE_POINT + (jis.code - 0xA1))
    else toChar(jis)
  }

  function CodePoints(text: seq<JisChar>, toChar: JisChar -> Option<nat>): Option<seq<nat>> {
    if text == [] then Some([])
    else
      var first := CodePoint(text[0], toChar);
      if first.Some? then Prepend(first.value, CodePoints(text[1..], toChar)) else None
  }

  /** What a byte string decodes to: its scanned characters, if all have code points. */
  function Decoded(bytes: seq<U8>, toChar: JisChar -> Option<nat>): Option<seq<nat>> {
    var text := Scan(bytes);
    if text.Some? then CodePoints(text.value, toChar) else None
  }

  function Append<T>(s: seq<T>, rest: Option<seq<T>>): Option<seq<T>> {
    if rest.Some? then Some(s + rest.value) else None
  }

  lemma DecodedStep(bytes: seq<U8>, n: nat, jis: JisChar, toChar: JisChar -> Option<nat>, done: seq<nat>)
    requires bytes != [] && n <= |bytes| && Scan(bytes) == Prepend(jis, Scan(bytes[n..]))
    ensures
      var c := CodePoint(jis, toChar);
      Append(done, Decoded(bytes, toChar))
      == if c.Some? then Append(done + [c.value], Decoded(bytes[n..], toChar)) else None
  {
    hide Scan, CodePoint;
    var rest := Scan(bytes[n..]);
    if rest.Some? {
      assert ([jis] + rest.value)[1..] == rest.value;
      var more, c := CodePoints(rest.value, toChar), CodePoint(jis, toChar);
      if more.Some? && c.Some? {
        assert done + ([c.value] + more.value) == done + [c.value] + more.value;
      }
    }
  }

  /** Decodes bytes to code points; a lone lead byte, an unmapped pair or a stray byte gives none. */
  method ToCodePoints(bytes: seq<U8>, toChar: JisChar -> Option<nat>) returns (r: Option<seq<nat>>)
    ensures r == Decoded(bytes, toChar)
  {
    hide Decoded, PairToJis;
    var result: seq<nat> := [];
    var index := 0;
    assert bytes[0..] == bytes;
    StartOfDecoding(bytes, toChar);
    while index < |bytes|
      invariant index <= |bytes|
      invariant Append(result, Decoded(bytes[index..], toChar)) == Decoded(bytes, toChar)
    {
      var byte := bytes[index];
      ghost var rest := bytes[index..];
      if byte < 0x80 || IsKatakanaByte(byte) {
        var jis := JisChar(byte as nat);
        assert rest[1..] == bytes[index + 1..];
        DecodedStep(rest, 1, jis, toChar, result);
        result := result + [if byte < 0x80 then byte as nat else KATAKANA_FIRST_CODE_POINT + (byte as nat - 0xA1)];
        index := index + 1;
      } else {
        if index + 1 >= |bytes| {
          NothingScanned(rest, toChar);
          return None;
        }
        var jis := PairToJis(byte, bytes[index + 1]);
        if jis.None? {
          NothingScanned(rest, toChar);
          return None;
        }
        assert rest[2..] == bytes[index + 2..];
        PairIsDouble(byte, bytes[index + 1]);
        DecodedStep(rest, 2, jis.value, toChar, result);
        var c := toChar(jis.value);
        if c.None? {
          return None;
        }
        result := result + [c.value];
        index := index + 2;
      }
    }
    EndOfDecoding(bytes[index..], toChar, result);
    r := Some(result);
  }

  lemma StartOfDecoding(bytes: seq<U8>, toChar: JisChar -> Option<nat>)
    ensures Append([], Decoded(bytes, toChar)) == Decoded(bytes, toChar)
  {
    hide Decoded;
    if Decoded(bytes, toChar).Some? {
      assert [] + Decoded(bytes, toChar).value == Decoded(bytes, toChar).value;
    }
  }

  lemma EndOfDecoding(bytes: seq<U8>, toChar: JisChar -> Option<nat>, done: seq<nat>)
    requires bytes == []
    ensures Append(done, Decoded(bytes, toChar)) == Some(done)
  {
    assert Scan(bytes) == Some([]);
    assert done + [] == done;
  }

  lemma NothingScanned(bytes: seq<U8>, toChar: JisChar -> Option<nat>)
    requires bytes != [] && bytes[0] >= 0x80 && !IsKatakanaByte(bytes[0])
    requires |bytes| < 2 || PairToJis(bytes[0], bytes[1]).None?
    ensures Decoded(bytes, toChar) == None
  {
    hide PairToJis;
  }

  lemma PairIsDouble(lead: U8, trail: U8)
    requires PairToJis(lead, trail).Some?
    ensures PairToJis(lead, trail).value.code >= 0x2100
  {
    hide PairToJis;
  }

  /** Decoding an encoded text yields the code points of its characters. */
  lemma DecodedOfEncoded(text: seq<JisChar>, toChar: JisChar -> Option<nat>)
    requires forall i :: 0 <= i < |text| ==> text[i].Encodable()
    ensures Decoded(Encoded(text), toChar) == CodePoints(text, toChar)
  {
    ScanOfEncoded(text);
  }

  /**
    With a table confined to the standard rows and cells, every byte string that decodes at all is the
    encoding of the characters it scans to.
   */
  lemma DecodableIsEncoded(bytes: seq<U8>, toChar: JisChar -> Option<nat>)
    requires forall j :: toChar(j).Some? ==> j.Encodable()
    requires Decoded(bytes, toChar).Some?
    ensures Scan(bytes).Some? && Encoded(Scan(bytes).value) == bytes
  {
    hide Scan, JisChar.Encodable;
    AllMapped(Scan(bytes).value, toChar);
    EncodedOfScan(bytes);
  }

  lemma {:induction false} AllMapped(text: seq<JisChar>, toChar: JisChar -> Option<nat>)
    requires forall j :: toChar(j).Some? ==> j.Encodable()
    requires CodePoints(text, toChar).Some?
    ensures AllEncodable(text)
  {
    if text != [] {
      hide AllEncodable;
      AllMapped(text[1..], toChar);
      MappedIsEncodable(text[0], toChar);
      AllEncodableSplit(text);
    }
  }

  lemma MappedIsEncodable(jis: JisChar, toChar: JisChar -> Option<nat>)
    requires forall j :: toChar(j).Some? ==> j.Encodable()
    requires CodePoint(jis, toChar).Some?
    ensures jis.Encodable()
  {
  }
}
