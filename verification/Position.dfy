/** Byte offsets of a UTF-8 text as zero-based UTF-16 positions, as the "Position" and
    "Text Documents" sections of the Language Server Protocol 3.17 count them. */
module Position {
  import opened Wrappers
  import opened Widths

  /** A Unicode scalar value; a text is the sequence of its scalar values. */
  type Scalar = x: int | 0 <= x <= 0x10FFFF && !(0xD800 <= x <= 0xDFFF)

  type Text = seq<Scalar>

  const CR: Scalar := 0x0D
  const LF: Scalar := 0x0A

  function Utf8Len(c: Scalar): (n: nat)
    ensures 1 <= n <= 4
  {
    if c < 0x80 then 1 else if c < 0x800 then 2 else if c < 0x1_0000 then 3 else 4
  }

  function Utf16Len(c: Scalar): (n: nat)
    ensures 1 <= n <= 2
  {
    if c < 0x1_0000 then 1 else 2
  }

  // ---------------------------------------------------------------------------
  // Encodings
  // ---------------------------------------------------------------------------

  /** A scalar in UTF-8: its bits in groups of six behind a leading byte that tells how many follow. */
  function Utf8(c: Scalar): (bs: seq<byte>)
    ensures |bs| == Utf8Len(c)
  {
    if c < 0x80 then [c]
    else if c < 0x800 then [0xC0 + c / 0x40, 0x80 + c % 0x40]
    else if c < 0x1_0000 then [0xE0 + c / 0x1000, 0x80 + c / 0x40 % 0x40, 0x80 + c % 0x40]
    else [0xF0 + c / 0x4_0000, 0x80 + c / 0x1000 % 0x40, 0x80 + c / 0x40 % 0x40, 0x80 + c % 0x40]
  }

  /** How many bytes a scalar has whose leading byte is `lead`, if it can lead one. */
  function Led(lead: byte): nat {
    if lead < 0x80 then 1 else if lead < 0xC0 then 0 else if lead < 0xE0 then 2 else if lead < 0xF0 then 3 else if lead < 0xF8 then 4 else 0
  }

  /** The scalar at the front of the bytes: as many bytes as the first one announces. */
  function FromUtf8(bs: seq<byte>): int
    requires bs != [] && Led(bs[0]) <= |bs|
  {
    match Led(bs[0])
    case 1 => bs[0] as int
    case 2 => (bs[0] as int - 0xC0) * 0x40 + (bs[1] as int - 0x80)
    case 3 => (bs[0] as int - 0xE0) * 0x1000 + (bs[1] as int - 0x80) * 0x40 + (bs[2] as int - 0x80)
    case 4 => (bs[0] as int - 0xF0) * 0x4_0000 + (bs[1] as int - 0x80) * 0x1000 + (bs[2] as int - 0x80) * 0x40 + (bs[3] as int - 0x80)
    case _ => -1
  }

  /** Reading an encoded scalar gives it back, whatever follows, and its first byte
      tells the number of its bytes. */
  lemma {:induction false} Utf8RoundTrip(c: Scalar, rest: seq<byte>)
    ensures var bs := Utf8(c) + rest; Led(bs[0]) == Utf8Len(c) == |Utf8(c)| && FromUtf8(bs) == c
  {
    var bs := Utf8(c) + rest;
    assert forall i :: 0 <= i < |Utf8(c)| ==> bs[i] == Utf8(c)[i];
    assert c == c / 0x40 * 0x40 + c % 0x40;
    assert c / 0x40 == c / 0x1000 * 0x40 + c / 0x40 % 0x40;
    assert c / 0x1000 == c / 0x4_0000 * 0x40 + c / 0x1000 % 0x40;
  }

  /** A leading byte and as many continuation bytes as it announces. */
  predicate WellFormed(bs: seq<byte>) {
    bs != [] && Led(bs[0]) == |bs| && forall i :: 0 < i < |bs| ==> 0x80 <= bs[i] < 0xC0
  }

  lemma SixBits(c: nat, hi: nat, lo: nat)
    requires c == hi * 0x40 + lo && lo < 0x40
    ensures c / 0x40 == hi && c % 0x40 == lo
  {
  }

  lemma {:induction false} ShortestTwo(c: Scalar, bs: seq<byte>)
    requires WellFormed(bs) && FromUtf8(bs) == c && |bs| == 2
    ensures |Utf8(c)| <= 2 && (|Utf8(c)| == 2 ==> bs == Utf8(c))
  {
    SixBits(c, bs[0] - 0xC0, bs[1] - 0x80);
  }

  lemma {:induction false} ShortestThree(c: Scalar, bs: seq<byte>)
    requires WellFormed(bs) && FromUtf8(bs) == c && |bs| == 3
    ensures |Utf8(c)| <= 3 && (|Utf8(c)| == 3 ==> bs == Utf8(c))
  {
    var top: int, mid: int, low: int := bs[0] as int - 0xE0, bs[1] as int - 0x80, bs[2] as int - 0x80;
    SixBits(c, top * 0x40 + mid, low);
    SixBits(top * 0x40 + mid, top, mid);
    assert c / 0x1000 == top;
  }

  lemma {:induction false} ShortestFour(c: Scalar, bs: seq<byte>)
    requires WellFormed(bs) && FromUtf8(bs) == c && |bs| == 4
    ensures |Utf8(c)| == 4 ==> bs == Utf8(c)
  {
    var top: int, b: int, m: int, low: int := bs[0] as int - 0xF0, bs[1] as int - 0x80, bs[2] as int - 0x80, bs[3] as int - 0x80;
    SixBits(c, (top * 0x40 + b) * 0x40 + m, low);
    SixBits((top * 0x40 + b) * 0x40 + m, top * 0x40 + b, m);
    SixBits(top * 0x40 + b, top, b);
    assert c / 0x1000 == top * 0x40 + b && c / 0x4_0000 == top;
  }

  lemma {:induction false} Utf8WellFormed(c: Scalar)
    ensures WellFormed(Utf8(c))
  {
    Utf8RoundTrip(c, []);
    assert Utf8(c) + [] == Utf8(c);
  }

  /** The encoding is well-formed, and no other well-formed bytes for the scalar are as short. */
  lemma {:induction false} Utf8IsShortest(c: Scalar, bs: seq<byte>)
    requires WellFormed(bs) && FromUtf8(bs) == c
    ensures WellFormed(Utf8(c)) && |Utf8(c)| <= |bs| && (|bs| == |Utf8(c)| ==> bs == Utf8(c))
  {
    Utf8WellFormed(c);
    match |bs|
    case 1 => assert Utf8(c) == bs;
    case 2 => ShortestTwo(c, bs);
    case 3 => ShortestThree(c, bs);
    case _ => ShortestFour(c, bs);
  }

  /** A scalar in UTF-16: one unit, or a high and a low surrogate. */
  function Utf16(c: Scalar): (us: seq<u16>)
    ensures |us| == Utf16Len(c)
  {
    if c < 0x1_0000 then [c] else [0xD800 + (c - 0x1_0000) / 0x400, 0xDC00 + (c - 0x1_0000) % 0x400]
  }

  function FromUtf16(us: seq<u16>): int
    requires us != [] && (0xD800 <= us[0] < 0xDC00 ==> |us| > 1)
  {
    if 0xD800 <= us[0] < 0xDC00 then 0x1_0000 + (us[0] as int - 0xD800) * 0x400 + (us[1] as int - 0xDC00) else us[0]
  }

  lemma {:induction false} Utf16RoundTrip(c: Scalar, rest: seq<u16>)
    ensures var us := Utf16(c) + rest;
            (0xD800 <= us[0] < 0xDC00 <==> Utf16Len(c) == 2) && |Utf16(c)| == Utf16Len(c) && FromUtf16(us) == c
  {
    var us := Utf16(c) + rest;
    assert forall i :: 0 <= i < |Utf16(c)| ==> us[i] == Utf16(c)[i];
  }

  /** The text as bytes, and as UTF-16 units. */
  function TextUtf8(text: Text): seq<byte> {
    if text == [] then [] else TextUtf8(text[..|text| - 1]) + Utf8(text[|text| - 1])
  }

  function TextUtf16(text: Text): seq<u16> {
    if text == [] then [] else TextUtf16(text[..|text| - 1]) + Utf16(text[|text| - 1])
  }

  /** Byte offsets and columns count the bytes and units of these encodings. */
  lemma {:induction false} CountsAreLengths(text: Text, i: nat, k: nat)
    requires i <= k <= |text|
    ensures Bytes(text, k) == |TextUtf8(text[..k])| && Units(text, i, k) == |TextUtf16(text[i..k])|
    decreases k
  {
    hide Utf8, Utf16;
    if k == 0 {
      assert text[..0] == [] && text[i..k] == [];
    } else {
      assert text[..k][..k - 1] == text[..k - 1];
      CountsAreLengths(text, if i < k then i else 0, k - 1);
      if i < k { assert text[i..k][..k - 1 - i] == text[i..k - 1] && text[i..k][k - 1 - i] == text[k - 1]; } else { assert text[i..k] == []; }
    }
  }

  /** The bytes of the first `k` scalars. */
  function Bytes(text: Text, k: nat): nat
    requires k <= |text|
  {
    if k == 0 then 0 else Bytes(text, k - 1) + Utf8Len(text[k - 1])
  }

  /** The UTF-16 units of the scalars from `i` to `k`. */
  function Units(text: Text, i: nat, k: nat): nat
    requires i <= k <= |text|
  {
    if i == k then 0 else Units(text, i, k - 1) + Utf16Len(text[k - 1])
  }

  // ---------------------------------------------------------------------------
  // Lines
  // ---------------------------------------------------------------------------

  /** A line ends right before scalar `i`: after a line feed, or after a carriage return that no line feed follows. */
  predicate EndsLine(text: Text, i: nat)
    requires 0 < i <= |text|
  {
    text[i - 1] == LF || (text[i - 1] == CR && (i == |text| || text[i] != LF))
  }

  /** How many lines end at or before `k`. */
  function Line(text: Text, k: nat): nat
    requires k <= |text|
  {
    if k == 0 then 0 else Line(text, k - 1) + if EndsLine(text, k) then 1 else 0
  }

  /** Where the line of `k` starts. */
  function LineStart(text: Text, k: nat): (i: nat)
    requires k <= |text|
    ensures i <= k
  {
    if k == 0 || EndsLine(text, k) then k else LineStart(text, k - 1)
  }

  function Character(text: Text, k: nat): nat
    requires k <= |text|
  {
    Units(text, LineStart(text, k), k)
  }

  predicate InsideCrLf(text: Text, k: nat) {
    0 < k < |text| && text[k - 1] == CR && text[k] == LF
  }

  // ---------------------------------------------------------------------------
  // The conversion
  // ---------------------------------------------------------------------------

  datatype Place = Place(line: u32, character: u32)

  datatype PositionError =
    | ReversedSpan(start: nat, end: nat)
    | OffsetOutOfBounds(offset: nat, length: nat)
    | NotCharBoundary(at: nat)
    | BetweenCrLf(between: nat)
    | LineOverflow
    | CharacterOverflow

  /** The scalar that starts at byte `offset`, if one does. */
  function ScalarAt(text: Text, offset: nat, k: nat): (r: Option<nat>)
    requires k <= |text|
    ensures r.Some? ==> r.value <= k && Bytes(text, r.value) == offset
  {
    if Bytes(text, k) == offset then Some(k) else if k == 0 then None else ScalarAt(text, offset, k - 1)
  }

  function PositionOf(text: Text, offset: nat): Result<Place, PositionError> {
    if offset > Bytes(text, |text|) then Err(OffsetOutOfBounds(offset, Bytes(text, |text|)))
    else
      match ScalarAt(text, offset, |text|)
      case None => Err(NotCharBoundary(offset))
      case Some(k) =>
        if InsideCrLf(text, k) then Err(BetweenCrLf(offset))
        else if Line(text, k) > MAX_U32 then Err(LineOverflow)
        else if Character(text, k) > MAX_U32 then Err(CharacterOverflow)
        else Ok(Place(Line(text, k), Character(text, k)))
  }

  lemma {:induction false} BytesGrow(text: Text, i: nat, k: nat)
    requires i <= k <= |text|
    ensures Bytes(text, k) >= Bytes(text, i) + (k - i)
    decreases k
  {
    if i < k { BytesGrow(text, i, k - 1); }
  }

  /** Scalars start at different bytes. */
  lemma {:induction false} BytesInjective(text: Text, i: nat, k: nat)
    requires i <= |text| && k <= |text|
    ensures i < k <==> Bytes(text, i) < Bytes(text, k)
  {
    if i < k { BytesGrow(text, i, k); } else { BytesGrow(text, k, i); }
  }

  lemma {:induction false} ScalarAtFinds(text: Text, offset: nat, k: nat, i: nat)
    requires i <= k <= |text| && Bytes(text, i) == offset
    ensures ScalarAt(text, offset, k) == Some(i)
    decreases k
  {
    BytesInjective(text, i, k);
    if i < k { ScalarAtFinds(text, offset, k - 1, i); }
  }

  /** One pass over the text, counting lines and UTF-16 units up to the offset. */
  method ByteOffsetToPosition(text: Text, offset: nat) returns (r: Result<Place, PositionError>)
    ensures r == PositionOf(text, offset)
  {
    hide ScalarAt, Line, LineStart, Units, Bytes;
    if offset > Bytes(text, |text|) { return Err(OffsetOutOfBounds(offset, Bytes(text, |text|))); }
    var boundary := ScalarAt(text, offset, |text|);
    if boundary.None? { return Err(NotCharBoundary(offset)); }
    ghost var end := boundary.value;
    var line, character, index, k := 0, 0, 0, 0;
    Nothing(text);
    while index < offset
      invariant k <= end <= |text| && index == Bytes(text, k) && offset == Bytes(text, end)
      invariant line == Line(text, k) && character == Character(text, k) && !InsideCrLf(text, k)
      decreases |text| - k
    {
      BytesInjective(text, k, end);
      OneMore(text, k);
      if k + 1 < |text| && text[k] == CR && text[k + 1] == LF {
        OneMore(text, k + 1);
        BytesInjective(text, k + 1, end);
        if offset == index + 1 {
          BytesInjective(text, end, k + 1);
          return Err(BetweenCrLf(offset));
        }
        line, character, index, k := line + 1, 0, index + 2, k + 2;
      } else {
        var c := text[k];
        index, k := index + Utf8Len(c), k + 1;
        if c == LF || c == CR { line, character := line + 1, 0; } else { character := character + Utf16Len(c); }
      }
    }
    BytesInjective(text, k, end);
    if line > MAX_U32 { return Err(LineOverflow); }
    if character > MAX_U32 { return Err(CharacterOverflow); }
    return Ok(Place(line, character));
  }

  lemma Nothing(text: Text)
    ensures Bytes(text, 0) == 0 && Line(text, 0) == 0 && Character(text, 0) == 0
  {
  }

  /** What one scalar adds. */
  lemma OneMore(text: Text, k: nat)
    requires k < |text|
    ensures Bytes(text, k + 1) == Bytes(text, k) + Utf8Len(text[k])
    ensures Line(text, k + 1) == Line(text, k) + if EndsLine(text, k + 1) then 1 else 0
    ensures Character(text, k + 1) == if EndsLine(text, k + 1) then 0 else Character(text, k) + Utf16Len(text[k])
  {
  }

  /** Where the next position is: a line feed, and a carriage return that no line feed
      follows, start a new line; a carriage return before a line feed starts it behind
      both; anything else moves on by its UTF-16 units. */
  lemma {:induction false} NextPosition(text: Text, k: nat)
    requires k < |text|
    ensures text[k] == 0x0A ==> Line(text, k + 1) == Line(text, k) + 1 && Character(text, k + 1) == 0
    ensures text[k] == 0x0D && (k + 1 == |text| || text[k + 1] != 0x0A) ==>
              Line(text, k + 1) == Line(text, k) + 1 && Character(text, k + 1) == 0
    ensures text[k] == 0x0D && k + 1 < |text| && text[k + 1] == 0x0A ==>
              && Line(text, k + 2) == Line(text, k) + 1 && Character(text, k + 2) == 0
              && (Bytes(text, k + 1) <= Bytes(text, |text|) ==> PositionOf(text, Bytes(text, k + 1)) == Err(BetweenCrLf(Bytes(text, k + 1))))
    ensures text[k] != 0x0A && text[k] != 0x0D ==>
              Line(text, k + 1) == Line(text, k) && Character(text, k + 1) == Character(text, k) + |Utf16(text[k])|
  {
    hide Line, LineStart, Units, Bytes, ScalarAt;
    OneMore(text, k);
    if k + 1 < |text| { OneMore(text, k + 1); }
    ScalarAtFinds(text, Bytes(text, k + 1), |text|, k + 1);
  }

  /** Converting both ends of a span. */
  method SpanToRange(text: Text, start: nat, end: nat) returns (r: Result<(Place, Place), PositionError>)
    ensures r == if start > end then Err(ReversedSpan(start, end))
                 else match PositionOf(text, start)
                      case Err(e) => Err(e)
                      case Ok(from) =>
                        match PositionOf(text, end)
                        case Err(e) => Err(e)
                        case Ok(upTo) => Ok((from, upTo))
    ensures r.Ok? ==> r.value.0 == r.value.1 || Precedes(r.value.0, r.value.1)
    ensures r.Ok? ==> (r.value.0 == r.value.1 <==> start == end)
  {
    hide PositionOf;
    if start > end { return Err(ReversedSpan(start, end)); }
    var from := ByteOffsetToPosition(text, start);
    if from.Err? { return Err(from.error); }
    var upTo := ByteOffsetToPosition(text, end);
    if upTo.Err? { return Err(upTo.error); }
    if start < end { PositionsIncrease(text, start, end); }
    return Ok((from.value, upTo.value));
  }

  // ---------------------------------------------------------------------------
  // Order
  // ---------------------------------------------------------------------------

  predicate Precedes(a: Place, b: Place) {
    a.line < b.line || (a.line == b.line && a.character < b.character)
  }

  lemma {:induction false} LinesGrow(text: Text, i: nat, k: nat)
    requires i <= k <= |text|
    ensures Line(text, i) <= Line(text, k)
    ensures Line(text, i) == Line(text, k) ==> LineStart(text, k) == LineStart(text, i)
    decreases k
  {
    if i < k { LinesGrow(text, i, k - 1); }
  }

  lemma {:induction false} UnitsSplit(text: Text, a: nat, b: nat, c: nat)
    requires a <= b <= c <= |text|
    ensures Units(text, a, c) == Units(text, a, b) + Units(text, b, c)
    decreases c
  {
    if b < c { UnitsSplit(text, a, b, c - 1); }
  }

  lemma {:induction false} UnitsPositive(text: Text, i: nat, k: nat)
    requires i < k <= |text|
    ensures Units(text, i, k) > 0
  {
  }

  /** Positions grow strictly with the offset: later bytes never get an earlier or
      an equal position, so no two offsets share one. */
  lemma {:induction false} PositionsIncrease(text: Text, a: nat, b: nat)
    requires a < b && PositionOf(text, a).Ok? && PositionOf(text, b).Ok?
    ensures Precedes(PositionOf(text, a).value, PositionOf(text, b).value)
  {
    hide ScalarAt, Line, LineStart, Units, Bytes;
    var i, k := ScalarAt(text, a, |text|).value, ScalarAt(text, b, |text|).value;
    BytesInjective(text, i, k);
    LinesGrow(text, i, k);
    if Line(text, i) == Line(text, k) {
      UnitsSplit(text, LineStart(text, i), i, k);
      UnitsPositive(text, i, k);
    }
  }

  /** When a conversion succeeds: exactly at the start of a scalar, not between a
      carriage return and its line feed, on a line and column 32 bits can hold. */
  lemma {:induction false} ConvertsIff(text: Text, offset: nat)
    ensures PositionOf(text, offset).Ok? <==>
            exists k: nat :: k <= |text| && Bytes(text, k) == offset && !InsideCrLf(text, k) &&
                             Line(text, k) <= MAX_U32 && Character(text, k) <= MAX_U32
  {
    hide Line, LineStart, Units, Bytes;
    forall k: nat | k <= |text| && Bytes(text, k) == offset ensures ScalarAt(text, offset, |text|) == Some(k) && offset <= Bytes(text, |text|) {
      ScalarAtFinds(text, offset, |text|, k);
      BytesGrow(text, k, |text|);
    }
  }

  /** Why a conversion fails, exactly: beyond the bytes of the text, inside a scalar,
      between a carriage return and its line feed, or on a line or column too far out. */
  lemma {:induction false} RefusedAs(text: Text, offset: nat)
    ensures PositionOf(text, offset).Err? && PositionOf(text, offset).error.OffsetOutOfBounds? <==> offset > |TextUtf8(text)|
    ensures offset > |TextUtf8(text)| ==> PositionOf(text, offset) == Err(OffsetOutOfBounds(offset, |TextUtf8(text)|))
    ensures PositionOf(text, offset) == Err(NotCharBoundary(offset)) <==>
            offset <= |TextUtf8(text)| && forall k: nat :: k <= |text| ==> Bytes(text, k) != offset
    ensures forall k: nat :: k <= |text| && Bytes(text, k) == offset ==>
              if 0 < k < |text| && text[k - 1] == 0x0D && text[k] == 0x0A then PositionOf(text, offset) == Err(BetweenCrLf(offset))
              else if Line(text, k) > 0xFFFF_FFFF then PositionOf(text, offset) == Err(LineOverflow)
              else if Character(text, k) > 0xFFFF_FFFF then PositionOf(text, offset) == Err(CharacterOverflow)
              else PositionOf(text, offset) == Ok(Place(Line(text, k), Character(text, k)))
  {
    hide Line, LineStart, Units, Bytes, TextUtf8;
    CountsAreLengths(text, 0, |text|);
    assert text[..|text|] == text;
    var at := ScalarAt(text, offset, |text|);
    forall k: nat | k <= |text| && Bytes(text, k) == offset ensures ScalarAt(text, offset, |text|) == Some(k) && offset <= Bytes(text, |text|) {
      ScalarAtFinds(text, offset, |text|, k);
      BytesGrow(text, k, |text|);
    }
    if at.Some? {
      var k: nat := at.value;
      assert k <= |text| && Bytes(text, k) == offset;
      assert !forall i: nat :: i <= |text| ==> Bytes(text, i) != offset;
    }
  }
}
