/** The enumerations and the small table of QRConstants: the error correction
 *  levels, the fixed-module error tolerance of each level, and the mode
 *  indicators of the data bit stream. The C# enumerations are integers, and
 *  the decoder converts between them and integers freely (a 4-bit mode read
 *  from the stream is cast to Encoding whatever its value), so they are kept
 *  as integer constants here. */
module QRConstants {
  /** Error correction levels, numbered as the decoder's tables are indexed. */
  const L := 0
  const M := 1
  const Q := 2
  const H := 3

  predicate IsErrorTolerance(e: int)
  {
    L <= e <= H
  }

  /** Percentage of fixed modules that may be read wrongly, per level. */
  function ErrorTolerancePercent(e: int): (r: int)
    requires IsErrorTolerance(e)
    ensures 0 < r < 100
  {
    if e == L then 7 else if e == M then 15 else if e == Q then 25 else 30
  }

  /** Mode indicators (ISO/IEC 18004:2015 table 2). */
  const Terminator := 0
  const Numeric := 1
  const AlphaNumeric := 2
  const Append := 3
  const Byte := 4
  const FNC1First := 5
  const ECI := 7
  const Kanji := 8
  const FNC1Second := 9
}
