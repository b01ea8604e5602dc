/** What DecodeData reads from the data bit stream, as functions of the
 *  stream: a sequence of segments, each a 4-bit mode indicator followed by
 *  what that mode defines (ISO/IEC 18004:2015 sections 7.4.2 to 7.4.5), up to
 *  the terminator or the end of the data codewords. The decoder's loop is
 *  proved against these definitions. */
module Segments {
  import opened Arith
  import opened Wrappers
  import opened Bytes
  import opened BitStream
  import opened CodeTables
  import QRConstants

  /** The characters decoded so far and the stream position after them. */
  datatype Parsed = Parsed(data: seq<Byte>, pos: nat)

  /** A decoding step's outcome agrees with the parse r: it succeeds exactly
   *  when r does, with r's characters and end position. */
  predicate Yields(ok: bool, data: seq<Byte>, pos: int, r: Option<Parsed>)
  {
    (ok <==> r.Some?) && (ok ==> data == r.value.data && pos == r.value.pos)
  }

  /** An ECI assignment number and the stream position after it. */
  datatype Assignment = Assignment(value: int, pos: nat)

  /** The payload of a symbol and its last ECI assignment number (-1 when
   *  there is none). */
  datatype Decoded = Decoded(data: seq<Byte>, eci: int)

  // ----- Character count indicator -----

  /** The width of the character count field of a mode in a symbol of the
   *  given version; None for a mode that carries no count. */
  function DataLengthBits(mode: int, version: int): (r: Option<nat>)
  {
    if mode == QRConstants.Numeric then Some(if version < 10 then 10 else if version < 27 then 12 else 14)
    else if mode == QRConstants.AlphaNumeric then Some(if version < 10 then 9 else if version < 27 then 11 else 13)
    else if mode == QRConstants.Byte then Some(if version < 10 then 8 else 16)
    else None
  }

  /** Exactly the numeric, alphanumeric and byte modes have a count field; it
   *  is at most 16 bits wide, and it never narrows as the version grows. */
  lemma DataLengthBitsShape(mode: int, v1: int, v2: int)
    requires v1 <= v2
    ensures DataLengthBits(mode, v1).Some? <==>
      mode == QRConstants.Numeric || mode == QRConstants.AlphaNumeric || mode == QRConstants.Byte
    ensures DataLengthBits(mode, v1).Some? ==>
      DataLengthBits(mode, v2).Some? && 8 <= DataLengthBits(mode, v1).value <= DataLengthBits(mode, v2).value <= 16
  {
  }

  // ----- Numeric mode -----

  /** The three characters of a 10-bit numeric group t: its hundreds, tens
   *  and units, looked up in the character table. */
  function NumericTriple(t: int): (r: seq<Byte>)
    requires 0 <= t < 1024
    ensures |r| == 3
  {
    [DecodingTable(t / 100), DecodingTable(t % 100 / 10), DecodingTable(t % 10)]
  }

  /** `groups` numeric groups of 10 bits from pos, appended to acc. */
  function NumericGroups(b: seq<Bit>, pos: nat, groups: nat, acc: seq<Byte>): (r: Option<Parsed>)
    requires pos <= |b|
    ensures r.Some? <==> pos + 10 * groups <= |b|
    ensures r.Some? ==> r.value.pos == pos + 10 * groups && |r.value.data| == |acc| + 3 * groups && acc <= r.value.data
    decreases groups
  {
    if groups == 0 then Some(Parsed(acc, pos))
    else
      var t := Read(b, pos, 10);
      if t < 0 then None
      else
        Pow2Widths();
        NumericGroups(b, pos + 10, groups - 1, acc + NumericTriple(t))
  }

  /** A numeric segment of n digits: the groups of three, then one digit in
   *  4 bits or two in 7 bits for the rest. */
  function NumericSegment(b: seq<Bit>, pos: nat, n: nat, acc: seq<Byte>): (r: Option<Parsed>)
    requires pos <= |b|
    ensures r.Some? ==> pos <= r.value.pos <= |b|
  {
    match NumericGroups(b, pos, n / 3, acc)
    case None => None
    case Some(p) =>
      Pow2Widths();
      if n % 3 == 1 then
        var t := Read(b, p.pos, 4);
        if t < 0 then None else Some(Parsed(p.data + [DecodingTable(t)], p.pos + 4))
      else if n % 3 == 2 then
        var t := Read(b, p.pos, 7);
        if t < 0 then None else Some(Parsed(p.data + [DecodingTable(t / 10), DecodingTable(t % 10)], p.pos + 7))
      else Some(p)
  }

  // ----- Alphanumeric mode -----

  /** `pairs` alphanumeric pairs of 11 bits from pos, appended to acc; a pair
   *  whose first character lies beyond the table is an error. */
  function AlnumPairs(b: seq<Bit>, pos: nat, pairs: nat, acc: seq<Byte>): (r: Option<Parsed>)
    requires pos <= |b|
    ensures pos + 11 * pairs > |b| ==> r.None?
    ensures r.Some? ==> r.value.pos == pos + 11 * pairs && |r.value.data| == |acc| + 2 * pairs && acc <= r.value.data
    decreases pairs
  {
    if pairs == 0 then Some(Parsed(acc, pos))
    else
      var t := Read(b, pos, 11);
      if t < 0 || t / 45 >= 45 then None
      else AlnumPairs(b, pos + 11, pairs - 1, acc + [DecodingTable(t / 45), DecodingTable(t % 45)])
  }

  /** An alphanumeric segment of n characters: the pairs, then one character
   *  in 6 bits when n is odd. */
  function AlnumSegment(b: seq<Bit>, pos: nat, n: nat, acc: seq<Byte>): (r: Option<Parsed>)
    requires pos <= |b|
    ensures r.Some? ==> pos <= r.value.pos <= |b|
  {
    match AlnumPairs(b, pos, n / 2, acc)
    case None => None
    case Some(p) =>
      if n % 2 == 1 then
        var t := Read(b, p.pos, 6);
        if t < 0 || t >= 45 then None else Some(Parsed(p.data + [DecodingTable(t)], p.pos + 6))
      else Some(p)
  }

  // ----- Byte mode -----

  /** k bytes of 8 bits from pos, appended to acc. */
  function ByteRun(b: seq<Bit>, pos: nat, k: nat, acc: seq<Byte>): (r: Option<Parsed>)
    requires pos <= |b|
    ensures r.Some? <==> pos + 8 * k <= |b|
    ensures r.Some? ==> r.value.pos == pos + 8 * k && |r.value.data| == |acc| + k && acc <= r.value.data
    decreases k
  {
    if k == 0 then Some(Parsed(acc, pos))
    else
      var t := Read(b, pos, 8);
      if t < 0 then None
      else
        Pow2Widths();
        ByteRun(b, pos + 8, k - 1, acc + [t])
  }

  /** Byte i of a run is the i-th 8-bit field of the stream from pos. */
  lemma {:induction false} ByteRunFields(b: seq<Bit>, pos: nat, k: nat, acc: seq<Byte>)
    requires pos + 8 * k <= |b|
    ensures forall i :: 0 <= i < k ==> ByteRun(b, pos, k, acc).value.data[|acc| + i] == Bits(b, pos + 8 * i, 8)
    decreases k
  {
    if k > 0 {
      BitsBound(b, pos, 8);
      Pow2Widths();
      var t := Bits(b, pos, 8);
      ByteRunFields(b, pos + 8, k - 1, acc + [t]);
      var d := ByteRun(b, pos, k, acc).value.data;
      assert d == ByteRun(b, pos + 8, k - 1, acc + [t]).value.data;
      assert d[|acc|] == t;
      forall i | 1 <= i < k
        ensures d[|acc| + i] == Bits(b, pos + 8 * i, 8)
      {
        assert |acc| + i == |acc + [t]| + (i - 1) && pos + 8 * i == pos + 8 + 8 * (i - 1);
      }
    }
  }

  // ----- Segments -----

  /** The bits a segment of n characters of a mode takes after its count
   *  field (ISO/IEC 18004:2015 section 7.4.3 to 7.4.5): 10 per three digits
   *  and 4 or 7 for one or two more; 11 per two alphanumeric characters and
   *  6 for one more; 8 per byte. */
  function SegmentBits(mode: int, n: nat): nat
  {
    if mode == QRConstants.Numeric then 10 * (n / 3) + (if n % 3 == 0 then 0 else if n % 3 == 1 then 4 else 7)
    else if mode == QRConstants.AlphaNumeric then 11 * (n / 2) + 6 * (n % 2)
    else 8 * n
  }

  /** The characters of a segment of mode `mode` and n characters whose data
   *  bits start at pos, appended to acc. A segment that decodes yields
   *  exactly n characters. */
  function Segment(b: seq<Bit>, mode: int, pos: nat, n: nat, acc: seq<Byte>): (r: Option<Parsed>)
    requires pos <= |b|
    ensures r.Some? ==> |r.value.data| == |acc| + n && acc <= r.value.data && pos <= r.value.pos <= |b|
  {
    if mode == QRConstants.Numeric then
      var r := NumericSegment(b, pos, n, acc);
      assert r.Some? ==> NumericGroups(b, pos, n / 3, acc).Some?;
      r
    else if mode == QRConstants.AlphaNumeric then
      var r := AlnumSegment(b, pos, n, acc);
      assert r.Some? ==> AlnumPairs(b, pos, n / 2, acc).Some?;
      r
    else if mode == QRConstants.Byte then ByteRun(b, pos, n, acc)
    else None
  }

  /** A segment that decodes takes exactly SegmentBits(mode, n) bits. */
  lemma SegmentLength(b: seq<Bit>, mode: int, pos: nat, n: nat, acc: seq<Byte>)
    requires pos <= |b| && Segment(b, mode, pos, n, acc).Some?
    ensures Segment(b, mode, pos, n, acc).value.pos == pos + SegmentBits(mode, n)
  {
    if mode == QRConstants.Numeric {
      assert NumericGroups(b, pos, n / 3, acc).Some?;
    } else if mode == QRConstants.AlphaNumeric {
      assert AlnumPairs(b, pos, n / 2, acc).Some?;
    }
  }

  // ----- ECI assignment -----

  /** The ECI assignment number after an ECI mode indicator, as the decoder
   *  assembles it: one byte when its top bit is clear, else a second byte
   *  appended as EciSecondByte does it. */
  function EciAssignment(b: seq<Bit>, pos: nat): (r: Option<Assignment>)
    requires pos <= |b|
    ensures r.Some? ==> pos + 8 <= r.value.pos <= |b|
  {
    var a := Read(b, pos, 8);
    if a < 0 then None
    else if a / 0x80 % 2 == 0 then Some(Assignment(a, pos + 8))
    else EciSecondByte(b, pos + 8, a)
  }

  /** The byte at pos appended to the first byte a: a 14-bit number when
   *  bit 14 of the two is clear, else a third byte appended as EciThirdByte
   *  does it. */
  function EciSecondByte(b: seq<Bit>, pos: nat, a: int): (r: Option<Assignment>)
    ensures r.Some? ==> pos + 8 <= r.value.pos <= |b|
  {
    var c := Read(b, pos, 8);
    if c < 0 then None
    else
      var v := a * 0x100 + c;
      if v / 0x4000 % 2 == 0 then Some(Assignment(v % 0x4000, pos + 8))
      else EciThirdByte(b, pos + 8, v)
  }

  /** The byte at pos appended to the first two v: a 21-bit number when
   *  bit 21 of the three is clear, else an error. */
  function EciThirdByte(b: seq<Bit>, pos: nat, v: int): (r: Option<Assignment>)
    ensures r.Some? ==> pos + 8 <= r.value.pos <= |b|
  {
    var d := Read(b, pos, 8);
    if d < 0 then None
    else
      var w := v * 0x100 + d;
      if w / 0x200000 % 2 == 0 then Some(Assignment(w % 0x200000, pos + 8))
      else None
  }

  /** The ECI designator of ISO/IEC 18004:2015 section 7.4.2.2 (table 4):
   *  0bbbbbbb is a value below 128 in one byte, 10bbbbbb bbbbbbbb a 14-bit
   *  value in two, 110bbbbb bbbbbbbb bbbbbbbb a 21-bit value in three; a
   *  first byte 111bbbbb is not a designator. */
  function EciDesignator(b: seq<Bit>, pos: nat): (r: Option<Assignment>)
    requires pos <= |b|
  {
    var a := Read(b, pos, 8);
    if a < 0 then None
    else if a < 0x80 then Some(Assignment(a, pos + 8))
    else if a < 0xC0 then
      var v := Read(b, pos, 16);
      if v < 0 then None else Some(Assignment(v - 0x8000, pos + 16))
    else if a < 0xE0 then
      var v := Read(b, pos, 24);
      if v < 0 then None else Some(Assignment(v - 0xC00000, pos + 24))
    else None
  }

  /** The decoder's bit tests read exactly the designators of the standard. */
  lemma EciAssignmentIsDesignator(b: seq<Bit>, pos: nat)
    requires pos <= |b|
    ensures EciAssignment(b, pos) == EciDesignator(b, pos)
  {
    Pow2Widths();
    var a := Read(b, pos, 8);
    if 0x80 <= a && pos + 16 <= |b| {
      if 0xC0 <= a {
        EciLongDesignator(b, pos);
      } else {
        EciTwoByteDesignator(b, pos);
      }
    }
  }

  /** The case of a first byte 10bbbbbb. */
  lemma EciTwoByteDesignator(b: seq<Bit>, pos: nat)
    requires pos + 16 <= |b| && 0x80 <= Bits(b, pos, 8) < 0xC0
    ensures EciAssignment(b, pos) == EciDesignator(b, pos)
  {
    Pow2Widths();
    var a, c := Bits(b, pos, 8), Bits(b, pos + 8, 8);
    BitsBound(b, pos + 8, 8);
    BitsSplit(b, pos, 8, 8, 16);
    EciTwoBytes(a, c);
  }

  /** The case of a first byte 11bbbbbb. */
  lemma EciLongDesignator(b: seq<Bit>, pos: nat)
    requires pos + 16 <= |b| && 0xC0 <= Bits(b, pos, 8)
    ensures EciAssignment(b, pos) == EciDesignator(b, pos)
  {
    Pow2Widths();
    BitsBound(b, pos, 8);
    BitsBound(b, pos + 8, 8);
    var a, c := Bits(b, pos, 8), Bits(b, pos + 8, 8);
    var v := a * 0x100 + c;
    assert EciAssignment(b, pos) == EciSecondByte(b, pos + 8, a);
    if pos + 24 <= |b| {
      var d := Bits(b, pos + 16, 8);
      BitsBound(b, pos + 16, 8);
      BitsSplit(b, pos, 8, 8, 16);
      BitsSplit(b, pos, 16, 8, 24);
      EciThreeBytes(a, c, d, Bits(b, pos, 24));
      assert EciSecondByte(b, pos + 8, a) == EciThirdByte(b, pos + 16, v);
    } else {
      EciThreeBytes(a, c, 0, v * 0x100);
    }
  }

  /** The bit tests on a two-byte assignment number v = a * 256 + c whose
   *  first byte has its top bit set. */
  lemma EciTwoBytes(a: int, c: int)
    requires 0x80 <= a < 0x100 && 0 <= c < 0x100
    ensures var v := a * 0x100 + c;
      (v / 0x4000 % 2 == 0 <==> a < 0xC0) && (a < 0xC0 ==> v % 0x4000 == v - 0x8000)
  {
  }

  /** The bit tests on a three-byte assignment number w = v * 256 + d whose
   *  first byte has its top two bits set. */
  lemma EciThreeBytes(a: int, c: int, d: int, w: int)
    requires 0xC0 <= a < 0x100 && 0 <= c < 0x100 && 0 <= d < 0x100 && w == (a * 0x100 + c) * 0x100 + d
    ensures (a * 0x100 + c) / 0x4000 % 2 == 1
    ensures (w / 0x200000 % 2 == 0 <==> a < 0xE0) && (a < 0xE0 ==> w % 0x200000 == w - 0xC00000)
  {
  }

  // ----- The segment sequence -----

  /** A segment after its mode indicator, from its count field at pos: the
   *  count, in the width the mode and version give, then the segment's
   *  characters appended to acc. A mode without a count field is an error. */
  function SegmentAt(b: seq<Bit>, version: int, mode: int, pos: nat, acc: seq<Byte>): (r: Option<Parsed>)
    requires pos <= |b|
    ensures r.Some? ==> acc <= r.value.data && pos < r.value.pos <= |b|
  {
    match DataLengthBits(mode, version)
    case None => None
    case Some(width) =>
      var n := Read(b, pos, width);
      if n < 0 then None else Segment(b, mode, pos + width, n, acc)
  }

  /** A segment whose count field reads as n is the segment of n characters
   *  of its mode that follows the field. */
  lemma SegmentOfMode(b: seq<Bit>, version: int, mode: int, pos: nat, acc: seq<Byte>, width: nat, n: int)
    requires pos <= |b| && DataLengthBits(mode, version) == Some(width) && n == Read(b, pos, width) && 0 <= n
    ensures pos + width <= |b|
    ensures SegmentAt(b, version, mode, pos, acc) == Segment(b, mode, pos + width, n, acc)
  {
  }

  /** No segment starts at pos when the mode has no count field or the
   *  stream ends inside it. */
  lemma SegmentAtNone(b: seq<Bit>, version: int, mode: int, pos: nat, acc: seq<Byte>, width: Option<nat>, n: int)
    requires pos <= |b| && width == DataLengthBits(mode, version)
    requires width.Some? ==> n == Read(b, pos, width.value)
    requires width.None? || n < 0
    ensures SegmentAt(b, version, mode, pos, acc) == None
  {
  }

  /** A step that yields the characters of the count field's value n,
   *  starting after the field, yields the segment at pos. */
  lemma SegmentAtYields(b: seq<Bit>, version: int, mode: int, pos: nat, acc: seq<Byte>, width: nat, n: int,
                        mid: nat, ok: bool, data: seq<Byte>, end: int)
    requires pos <= |b| && DataLengthBits(mode, version) == Some(width) && n == Read(b, pos, width) && 0 <= n
    requires mid == Next(b, pos, width) && mid <= |b|
    requires Yields(ok, data, end, Segment(b, mode, mid, n, acc))
    ensures Yields(ok, data, end, SegmentAt(b, version, mode, pos, acc))
  {
    SegmentOfMode(b, version, mode, pos, acc, width, n);
  }

  /** Decoding from pos with the characters acc and the ECI assignment number
   *  eci decoded so far: a mode indicator of 0 (the terminator), or fewer
   *  than four bits left, ends the data; an ECI indicator sets the
   *  assignment number; any other mode is a segment, and a segment that
   *  fails is an error. */
  function DecodeFrom(b: seq<Bit>, version: int, pos: nat, acc: seq<Byte>, eci: int): (r: Option<Decoded>)
    requires pos <= |b|
    ensures r.Some? ==> acc <= r.value.data
    decreases |b| - pos
  {
    var mode := Read(b, pos, 4);
    if mode <= 0 then Some(Decoded(acc, eci))
    else if mode == QRConstants.ECI then
      match EciAssignment(b, pos + 4)
      case None => None
      case Some(e) => DecodeFrom(b, version, e.pos, acc, e.value)
    else
      match SegmentAt(b, version, mode, pos + 4, acc)
      case None => None
      case Some(p) => DecodeFrom(b, version, p.pos, p.data, eci)
  }

  /** The payload of a data bit stream of a symbol of the given version. */
  function Decode(b: seq<Bit>, version: int): Option<Decoded>
  {
    DecodeFrom(b, version, 0, [], -1)
  }

  // ----- What the characters mean -----

  /** The k-digit decimal numeral of v in ASCII, the most significant digit
   *  first. */
  function Decimal(v: nat, k: nat): (r: seq<Byte>)
    ensures |r| == k
  {
    if k == 0 then [] else Decimal(v / 10, k - 1) + [48 + v % 10]
  }

  /** The first ten characters of the table are the ASCII digits. */
  lemma DigitsInTable(d: int)
    requires 0 <= d < 10
    ensures DecodingTable(d) == 48 + d
  {
  }

  /** The numeral of a number below 10^k from its digits: three, two and
   *  one digits. */
  lemma DecimalDigits(t: int)
    requires 0 <= t < 1000
    ensures Decimal(t, 3) == [48 + t / 100, 48 + t % 100 / 10, 48 + t % 10]
    ensures t < 100 ==> Decimal(t, 2) == [48 + t / 10, 48 + t % 10]
    ensures t < 10 ==> Decimal(t, 1) == [48 + t]
  {
    var h, te, u := t / 100, t % 100 / 10, t % 10;
    DivModOfSum(h, 100, t % 100);
    DivModOfSum(te, 10, u);
    DivModOfSum(10 * h + te, 10, u);
    DivModOfSum(h, 10, te);
    DivModOfSum(0, 10, h);
    var q := t / 10;
    assert q == 10 * h + te && q / 10 == h && q % 10 == te;
    assert Decimal(h, 1) == [48 + h];
    assert Decimal(q, 2) == Decimal(h, 1) + [48 + te];
    assert Decimal(t, 3) == Decimal(q, 2) + [48 + u];
  }

  /** A numeric group of value below 1000 is its three-digit numeral
   *  (ISO/IEC 18004:2015 section 7.4.3). */
  lemma NumericGroupDigits(t: int)
    requires 0 <= t < 1000
    ensures NumericTriple(t) == Decimal(t, 3)
  {
    DecimalDigits(t);
    DigitsInTable(t / 100);
    DigitsInTable(t % 100 / 10);
    DigitsInTable(t % 10);
  }

  /** A 7-bit numeric remainder below 100 is its two-digit numeral, and a
   *  4-bit one below 10 its digit. */
  lemma NumericRestDigits(t: int)
    requires 0 <= t < 100
    ensures [DecodingTable(t / 10), DecodingTable(t % 10)] == Decimal(t, 2)
    ensures t < 10 ==> [DecodingTable(t)] == Decimal(t, 1)
  {
    DecimalDigits(t);
    DigitsInTable(t / 10);
    DigitsInTable(t % 10);
  }
}
