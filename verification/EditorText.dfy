/**
  The text of the line editor in crates/dos/src/commands/editor/text_buffer.rs: reading a
  file into lines of characters and raw bytes, and writing it back.
 */
module EditorText {
  import opened ShiftJis

  const CR: U8 := 0x0D
  const LF: U8 := 0x0A

  /** One unit of a line: a character, or a byte that is kept as it is. */
  datatype TextUnit = Char(jis: JisChar) | Raw(byte: U8) {
    function Bytes(): seq<U8> {
      match this
      case Char(jis) => EncodedChar(jis)
      case Raw(byte) => [byte]
    }
  }

  type Line = seq<TextUnit>

  // ----- Reading -----

  /** A line end takes two bytes only as CR LF. */
  predicate IsLineEnd(byte: U8) {
    byte == CR || byte == LF
  }

  function LineEndLength(bytes: seq<U8>): (n: nat)
    requires bytes != [] && IsLineEnd(bytes[0])
    ensures 1 <= n <= 2 && n <= |bytes|
  {
    if bytes[0] == CR && |bytes| > 1 && bytes[1] == LF then 2 else 1
  }

  predicate StartsPair(bytes: seq<U8>) {
    |bytes| > 1 && IsLeadByte(bytes[0]) && IsTrailByte(bytes[1])
  }

  function UnitLength(bytes: seq<U8>): (n: nat)
    requires bytes != []
    ensures 1 <= n <= 2 && n <= |bytes|
  {
    if StartsPair(bytes) then 2 else 1
  }

  /** The unit that a byte string starts with: a pair, a single-byte character, or a control byte. */
  function FirstUnit(bytes: seq<U8>): TextUnit
    requires bytes != []
  {
    if StartsPair(bytes) then Char(PairToJis(bytes[0], bytes[1]).value)
    else if bytes[0] >= 0x20 then Char(JisChar(bytes[0] as nat))
    else Raw(bytes[0])
  }

  /** The lines of a file; there is always one more than line ends. */
  function Parsed(bytes: seq<U8>): (lines: seq<Line>)
    ensures |lines| > 0
    decreases |bytes|
  {
    if bytes == [] then [[]]
    else if IsLineEnd(bytes[0]) then [[]] + Parsed(bytes[LineEndLength(bytes)..])
    else
      var rest := Parsed(bytes[UnitLength(bytes)..]);
      [[FirstUnit(bytes)] + rest[0]] + rest[1..]
  }

  /** Finished lines and a begun one, continued by the lines still to come. */
  function Joined(lines: seq<Line>, current: Line, rest: seq<Line>): seq<Line>
    requires |rest| > 0
  {
    lines + [current + rest[0]] + rest[1..]
  }

  lemma JoinNothing(rest: seq<Line>)
    requires |rest| > 0
    ensures Joined([], [], rest) == rest
  {
    assert [] + rest[0] == rest[0];
    assert [rest[0]] + rest[1..] == rest;
  }

  lemma JoinLine(lines: seq<Line>, current: Line, rest: seq<Line>)
    requires |rest| > 0
    ensures Joined(lines, current, [[]] + rest) == Joined(lines + [current], [], rest)
  {
    assert current + [] == current && [] + rest[0] == rest[0];
    assert ([[]] + rest)[1..] == rest && [rest[0]] + rest[1..] == rest;
    assert lines + [current] + rest == lines + [current] + ([rest[0]] + rest[1..]);
  }

  lemma JoinUnit(lines: seq<Line>, current: Line, unit: TextUnit, rest: seq<Line>)
    requires |rest| > 0
    ensures Joined(lines, current, [[unit] + rest[0]] + rest[1..]) == Joined(lines, current + [unit], rest)
  {
    assert current + ([unit] + rest[0]) == current + [unit] + rest[0];
    assert ([[unit] + rest[0]] + rest[1..])[1..] == rest[1..];
  }

  lemma JoinEnd(lines: seq<Line>, current: Line)
    ensures Joined(lines, current, [[]]) == lines + [current]
  {
    assert current + [] == current;
  }

  /** The reading loop. */
  method FromBytes(bytes: seq<U8>) returns (lines: seq<Line>)
    ensures lines == Parsed(bytes)
  {
    hide Joined, PairToJis;
    lines := [];
    var current: Line := [];
    var index := 0;
    assert bytes[0..] == bytes;
    JoinNothing(Parsed(bytes));
    while index < |bytes|
      invariant 0 <= index <= |bytes|
      invariant Joined(lines, current, Parsed(bytes[index..])) == Parsed(bytes)
    {
      ghost var left := bytes[index..];
      var byte := bytes[index];
      if byte == CR || byte == LF {
        JoinLine(lines, current, Parsed(left[LineEndLength(left)..]));
        if byte == CR && index + 1 < |bytes| && bytes[index + 1] == LF {
          index := index + 1;
        }
        lines := lines + [current];
        current := [];
        index := index + 1;
        assert left[LineEndLength(left)..] == bytes[index..];
      } else {
        JoinUnit(lines, current, FirstUnit(left), Parsed(left[UnitLength(left)..]));
        if IsLeadByte(byte) && index + 1 < |bytes| && IsTrailByte(bytes[index + 1]) {
          current := current + [Char(PairToJis(byte, bytes[index + 1]).value)];
          index := index + 2;
        } else {
          current := current + [if byte >= 0x20 then Char(JisChar(byte as nat)) else Raw(byte)];
          index := index + 1;
        }
        assert left[UnitLength(left)..] == bytes[index..];
      }
    }
    JoinEnd(lines, current);
    lines := lines + [current];
  }

  // ----- Writing -----

  function LineBytes(line: Line): seq<U8> {
    if line == [] then [] else line[0].Bytes() + LineBytes(line[1..])
  }

  /** The lines, with CR LF between them. */
  function Written(lines: seq<Line>): seq<U8> {
    if lines == [] then []
    else if |lines| == 1 then LineBytes(lines[0])
    else LineBytes(lines[0]) + ([CR, LF] + Written(lines[1..]))
  }

  method WriteUnit(unit: TextUnit, output: seq<U8>) returns (r: seq<U8>)
    ensures r == output + unit.Bytes()
  {
    match unit
    case Char(jis) => r := WriteChar(jis, output);
    case Raw(byte) => r := output + [byte];
  }

  /** The writing loops. */
  method Encode(lines: seq<Line>) returns (bytes: seq<U8>)
    ensures bytes == Written(lines)
  {
    hide TextUnit.Bytes;
    bytes := [];
    assert lines[0..] == lines;
    for index := 0 to |lines|
      invariant bytes + Written(lines[index..]) == Written(lines)
    {
      ghost var rest := lines[index..];
      ghost var tail := if |rest| == 1 then [] else [CR, LF] + Written(rest[1..]);
      assert Written(rest) == LineBytes(lines[index]) + tail;
      ghost var before := bytes;
      assert before + (LineBytes(lines[index]) + tail) == before + LineBytes(lines[index]) + tail;
      bytes := WriteLine(lines[index], bytes);
      if index + 1 < |lines| {
        bytes := bytes + [CR, LF];
        assert bytes + Written(rest[1..]) == before + LineBytes(lines[index]) + tail;
      }
      assert rest[1..] == lines[index + 1..];
    }
    assert bytes + [] == bytes;
  }

  method WriteLine(line: Line, output: seq<U8>) returns (r: seq<U8>)
    ensures r == output + LineBytes(line)
  {
    hide TextUnit.Bytes;
    r := output;
    assert line[0..] == line;
    for i := 0 to |line|
      invariant r + LineBytes(line[i..]) == output + LineBytes(line)
    {
      assert line[i..][1..] == line[i + 1..];
      ghost var before := r;
      ghost var rest := LineBytes(line[i + 1..]);
      assert before + (line[i].Bytes() + rest) == before + line[i].Bytes() + rest;
      r := WriteUnit(line[i], r);
    }
    assert r + [] == r;
  }

  /** A line of characters. */
  function Chars(text: seq<JisChar>): Line {
    if text == [] then [] else [Char(text[0])] + Chars(text[1..])
  }

  /** A line without raw bytes is written as its text is encoded. */
  lemma {:induction false} TextLine(text: seq<JisChar>)
    ensures LineBytes(Chars(text)) == Encoded(text)
  {
    hide EncodedChar;
    if text != [] {
      TextLine(text[1..]);
      assert ([Char(text[0])] + Chars(text[1..]))[1..] == Chars(text[1..]);
    }
  }

  // ----- Reading and writing a file -----

  /** Every line end written as CR LF, every other byte as it is. */
  function Normalized(bytes: seq<U8>): (r: seq<U8>)
    decreases |bytes|
  {
    if bytes == [] then []
    else if IsLineEnd(bytes[0]) then [CR, LF] + Normalized(bytes[LineEndLength(bytes)..])
    else [bytes[0]] + Normalized(bytes[1..])
  }

  /** None of the pairs that the reading loop finds lies beyond the standard rows. */
  predicate StandardPairs(bytes: seq<U8>)
    decreases |bytes|
  {
    if bytes == [] then true
    else if IsLineEnd(bytes[0]) then StandardPairs(bytes[LineEndLength(bytes)..])
    else (StartsPair(bytes) ==> bytes[0] <= 0xEF) && StandardPairs(bytes[UnitLength(bytes)..])
  }

  /** A unit writes what it was read from, except that a pair beyond the standard rows becomes a question mark. */
  lemma UnitWrites(bytes: seq<U8>)
    requires bytes != []
    ensures StartsPair(bytes) && bytes[0] > 0xEF ==> FirstUnit(bytes).Bytes() == [SUBSTITUTE]
    ensures !(StartsPair(bytes) && bytes[0] > 0xEF) ==> FirstUnit(bytes).Bytes() == bytes[..UnitLength(bytes)]
  {
    hide ToShiftJis, PairToJis, JisChar.Encodable;
    if StartsPair(bytes) {
      JisOfPair(bytes[0], bytes[1]);
      if bytes[0] <= 0xEF {
        PairEncoded(bytes[0], bytes[1]);
        assert bytes[..2] == [bytes[0], bytes[1]];
      } else {
        BeyondRows(bytes[0], bytes[1]);
      }
    } else {
      assert bytes[..1] == [bytes[0]];
      SingleEncoded(bytes[0]);
    }
  }

  lemma BeyondRows(lead: U8, trail: U8)
    requires PairToJis(lead, trail).Some? && lead > 0xEF
    ensures EncodedChar(PairToJis(lead, trail).value) == [SUBSTITUTE]
  {
  }

  /** A first unit is written before the rest. */
  lemma WrittenUnit(unit: TextUnit, rest: seq<Line>)
    requires |rest| > 0
    ensures Written([[unit] + rest[0]] + rest[1..]) == unit.Bytes() + Written(rest)
  {
    hide TextUnit.Bytes;
    var line := [unit] + rest[0];
    assert line[1..] == rest[0];
    var all := [line] + rest[1..];
    assert all[1..] == rest[1..];
    if |rest| > 1 {
      var tail := [CR, LF] + Written(rest[1..]);
      assert unit.Bytes() + LineBytes(rest[0]) + tail == unit.Bytes() + (LineBytes(rest[0]) + tail);
    }
  }

  /** A pair passes the normalization as it stands: its trail byte is no line end. */
  lemma NormalizedUnit(bytes: seq<U8>)
    requires bytes != [] && !IsLineEnd(bytes[0])
    ensures Normalized(bytes) == bytes[..UnitLength(bytes)] + Normalized(bytes[UnitLength(bytes)..])
  {
    if StartsPair(bytes) {
      assert bytes[1..][1..] == bytes[2..];
      assert bytes[1..] != [] && !IsLineEnd(bytes[1..][0]);
      assert [bytes[0]] + ([bytes[1]] + Normalized(bytes[2..])) == bytes[..2] + Normalized(bytes[2..]);
    } else {
      assert bytes[..1] == [bytes[0]];
    }
  }

  lemma PrefixCancels(a: seq<U8>, x: seq<U8>, y: seq<U8>)
    ensures a + x == a + y <==> x == y
  {
    assert (a + x)[|a|..] == x && (a + y)[|a|..] == y;
  }

  /**
    Opening a file and saving it writes every byte back, with CR LF for every line end, if and only
    if no pair lies beyond the standard rows; such a pair is lost.
   */
  lemma {:induction false} SavedAsRead(bytes: seq<U8>)
    ensures Written(Parsed(bytes)) == Normalized(bytes) <==> StandardPairs(bytes)
    decreases |bytes|
  {
    hide Written, Normalized, FirstUnit;
    if bytes == [] {
      NothingSaved(bytes);
    } else if IsLineEnd(bytes[0]) {
      var rest := bytes[LineEndLength(bytes)..];
      SavedAsRead(rest);
      LineEndSaved(bytes);
      PrefixCancels([CR, LF], Written(Parsed(rest)), Normalized(rest));
    } else {
      var n := UnitLength(bytes);
      SavedAsRead(bytes[n..]);
      WrittenUnit(FirstUnit(bytes), Parsed(bytes[n..]));
      NormalizedUnit(bytes);
      UnitWrites(bytes);
      if StartsPair(bytes) && bytes[0] > 0xEF {
        assert Normalized(bytes)[0] == bytes[0];
        assert Written(Parsed(bytes))[0] == SUBSTITUTE;
      } else {
        PrefixCancels(bytes[..n], Written(Parsed(bytes[n..])), Normalized(bytes[n..]));
      }
    }
  }

  /** Opens a file and saves it. */
  method OpenAndSave(bytes: seq<U8>) returns (saved: seq<U8>)
    ensures saved == Normalized(bytes) <==> StandardPairs(bytes)
    ensures StandardPairs(bytes) && CrLfOnly(bytes) ==> saved == bytes
  {
    hide Written, Normalized;
    SavedAsRead(bytes);
    NormalizedUnchanged(bytes);
    var lines := FromBytes(bytes);
    saved := Encode(lines);
  }

  lemma NothingSaved(bytes: seq<U8>)
    requires bytes == []
    ensures Written(Parsed(bytes)) == Normalized(bytes)
  {
  }

  lemma LineEndSaved(bytes: seq<U8>)
    requires bytes != [] && IsLineEnd(bytes[0])
    ensures var rest := bytes[LineEndLength(bytes)..];
            && Written(Parsed(bytes)) == [CR, LF] + Written(Parsed(rest))
            && Normalized(bytes) == [CR, LF] + Normalized(rest)
  {
    var rest := Parsed(bytes[LineEndLength(bytes)..]);
    assert ([[]] + rest)[1..] == rest;
    assert [] + ([CR, LF] + Written(rest)) == [CR, LF] + Written(rest);
  }

  /** Every line end is a CR LF. */
  predicate CrLfOnly(bytes: seq<U8>)
    decreases |bytes|
  {
    if bytes == [] then true
    else if IsLineEnd(bytes[0]) then LineEndLength(bytes) == 2 && CrLfOnly(bytes[2..])
    else CrLfOnly(bytes[1..])
  }

  /** Normalizing never shortens, and changes nothing exactly when every line end is a CR LF already. */
  lemma {:induction false} NormalizedUnchanged(bytes: seq<U8>)
    ensures |Normalized(bytes)| >= |bytes|
    ensures Normalized(bytes) == bytes <==> CrLfOnly(bytes)
    ensures |Normalized(bytes)| == |bytes| ==> Normalized(bytes) == bytes
    decreases |bytes|
  {
    if bytes != [] {
      if IsLineEnd(bytes[0]) {
        var n := LineEndLength(bytes);
        NormalizedUnchanged(bytes[n..]);
        if n == 2 {
          assert bytes == [CR, LF] + bytes[2..];
        }
      } else {
        NormalizedUnchanged(bytes[1..]);
        assert bytes == [bytes[0]] + bytes[1..];
      }
    }
  }

  /** A pair beyond the standard rows, saved as a question mark. */
  lemma UserPairIsLost()
    ensures Written(Parsed([0xF0, 0x40])) == [SUBSTITUTE] && !StandardPairs([0xF0, 0x40])
  {
    var bytes: seq<U8> := [0xF0, 0x40];
    assert bytes[2..] == [];
    NothingSaved(bytes[2..]);
    WrittenUnit(FirstUnit(bytes), Parsed(bytes[2..]));
    UnitWrites(bytes);
    assert Normalized(bytes[2..]) == [];
  }

  /** An invalid byte passes through: a lead byte without its trail byte is kept. */
  lemma LoneBytesSurvive()
    ensures Written(Parsed([0x82, 0x20, 0x58])) == [0x82, 0x20, 0x58]
  {
    var bytes: seq<U8> := [0x82, 0x20, 0x58];
    assert bytes[1..] == [0x20, 0x58] && bytes[1..][1..] == [0x58] && bytes[1..][1..][1..] == [];
    assert StandardPairs(bytes) && CrLfOnly(bytes);
    SavedAsRead(bytes);
    NormalizedUnchanged(bytes);
  }
}
