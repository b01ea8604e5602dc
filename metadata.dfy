/** Recovery of the symbol's metadata from the bits read around the finder
 *  patterns: nearest-codeword matching of the 15-bit format information and
 *  the 18-bit version information against the tables of valid words, and the
 *  split of a format index into error correction level and mask pattern
 *  (ISO/IEC 18004:2015 sections 7.9 and 7.10). */
module Metadata {
  import opened Bytes
  import opened Arith
  import opened CodeTables
  import QRConstants

  /** The largest value of a C# int, the decoder's "no match yet" distance. */
  const IntMaxValue := 0x7FFF_FFFF

  /** Number of set bits among bits 0 .. n-1 of v. */
  function PopCount(v: nat, n: nat): (r: nat)
    ensures r <= n
    decreases n, v
  {
    if n == 0 then 0 else v % 2 + PopCount(v / 2, n - 1)
  }

  /** Number of positions among bits 0 .. n-1 where a and b differ: the
   *  Hamming distance of their low n bits. */
  function BitDistance(a: nat, b: nat, n: nat): (r: nat)
    ensures r <= n
    decreases n, a
  {
    if n == 0 then 0 else (if a % 2 == b % 2 then 0 else 1) + BitDistance(a / 2, b / 2, n - 1)
  }

  /** Counting the bits of an exclusive or counts the differing bits. */
  lemma {:induction false} PopCountOfXor(a: nat, b: nat, m: nat, n: nat)
    requires n <= m
    ensures PopCount(XorBits(a, b, m), n) == BitDistance(a, b, n)
    decreases n
  {
    if n > 0 {
      var x := XorBits(a, b, m);
      assert x / 2 == XorBits(a / 2, b / 2, m - 1);
      PopCountOfXor(a / 2, b / 2, m - 1, n - 1);
    }
  }

  /** Two n-bit values are at distance zero exactly when they are equal. */
  lemma {:induction false} BitDistanceZero(a: nat, b: nat, n: nat)
    requires a < Pow2(n) && b < Pow2(n)
    ensures BitDistance(a, b, n) == 0 <==> a == b
    decreases n
  {
    if n > 0 {
      BitDistanceZero(a / 2, b / 2, n - 1);
    }
  }

  /** The decoder's CountBits: the number of set bits of `value` under the
   *  masks 0x4000, 0x2000, ..., 1, that is among bits 0 .. 14 only. The
   *  version words it is also applied to have 18 bits; bits 15 .. 17 are not
   *  counted. The test (value & mask) != 0 of a one-bit mask is written as the
   *  bit selected by the quotient. */
  method CountBits(value: nat) returns (count: nat)
    ensures count == PopCount(value, 15)
  {
    count := 0;
    var mask := 0x4000;
    ghost var k := 15;
    Pow2Values();
    while mask != 0
      invariant 0 <= k <= 15
      invariant mask == if k == 0 then 0 else Pow2(k - 1)
      invariant count == PopCount(Shr(value, k), 15 - k)
      decreases k
    {
      ShrIsQuotient(value, k - 1);
      if (value / mask) % 2 != 0 {
        count := count + 1;
      }
      mask := mask / 2;
      k := k - 1;
    }
  }

  /** Hamming distance between format word i and the 15 bits read. */
  function FormatDistance(i: int, formatInfo: nat): nat
    requires 0 <= i < 32
  {
    BitDistance(FormatInfoArray(i), formatInfo, 15)
  }

  /** A format word read without error is at distance zero from its own entry
   *  and at a positive distance from every other entry. */
  lemma ExactFormatMatch(i: int, formatInfo: nat)
    requires 0 <= i < 32 && FormatInfoArray(i) == formatInfo
    ensures FormatDistance(i, formatInfo) == 0
    ensures forall j :: 0 <= j < 32 && j != i ==> FormatDistance(j, formatInfo) > 0
    ensures forall j :: 0 <= j < 32 && FormatInfoArray(j) == formatInfo ==> j == i
  {
    Pow2Values();
    forall j | 0 <= j < 32
      ensures FormatDistance(j, formatInfo) == 0 <==> j == i
    {
      BitDistanceZero(FormatInfoArray(j), formatInfo, 15);
      FormatInfoDistinct(j, i);
    }
    forall j | 0 <= j < 32 && FormatInfoArray(j) == formatInfo
      ensures j == i
    {
      FormatInfoDistinct(j, i);
    }
  }

  /** The decoder's TestFormatInfo: the index (5 data bits) of the format word
   *  nearest to the 15 bits read, or -1 when every word is more than 3 bits
   *  away. An exact match is looked up directly at the index given by the
   *  unmasked top five bits; otherwise the first word at minimum distance
   *  wins. */
  method TestFormatInfo(formatInfo: int) returns (r: int)
    requires 0 <= formatInfo < 0x8000
    ensures -1 <= r < 32
    ensures r == -1 <==> forall j :: 0 <= j < 32 ==> FormatDistance(j, formatInfo) > 3
    ensures r >= 0 ==>
      FormatDistance(r, formatInfo) <= 3 &&
      (forall j :: 0 <= j < 32 ==> FormatDistance(r, formatInfo) <= FormatDistance(j, formatInfo)) &&
      (forall j :: 0 <= j < r ==> FormatDistance(r, formatInfo) < FormatDistance(j, formatInfo))
    ensures forall j :: 0 <= j < 32 && FormatInfoArray(j) == formatInfo ==> r == j
  {
    Pow2Values();
    var info := XorBits(formatInfo, 0x5412, 15) / 1024;
    if FormatInfoArray(info) == formatInfo {
      ExactFormatMatch(info, formatInfo);
      return info;
    }
    var bestInfo := 0;
    var error := IntMaxValue;
    var index := 0;
    while index < 32
      invariant 0 <= index <= 32
      invariant index == 0 ==> error == IntMaxValue && bestInfo == 0
      invariant index > 0 ==> 0 <= bestInfo < index && error == FormatDistance(bestInfo, formatInfo)
      invariant forall j :: 0 <= j < index ==> error <= FormatDistance(j, formatInfo)
      invariant forall j :: 0 <= j < bestInfo ==> error < FormatDistance(j, formatInfo)
    {
      var errorBits := XorBits(FormatInfoArray(index), formatInfo, 15);
      var count := CountBits(errorBits);
      PopCountOfXor(FormatInfoArray(index), formatInfo, 15, 15);
      if count < error {
        error := count;
        bestInfo := index;
      }
      index := index + 1;
    }
    forall j | 0 <= j < 32 && FormatInfoArray(j) == formatInfo
      ensures bestInfo == j && error == 0
    {
      ExactFormatMatch(j, formatInfo);
      assert error <= FormatDistance(j, formatInfo) == 0;
      assert FormatDistance(bestInfo, formatInfo) == 0;
    }
    r := if error <= 3 then bestInfo else -1;
  }

  /** Hamming distance, over bits 0 .. 14 only, between version word i and
   *  the 18 bits read: the distance the decoder's CountBits measures. */
  function VersionDistance15(i: int, versionCode: nat): nat
    requires 0 <= i < 34
  {
    BitDistance(VersionCodeArray(i), versionCode, 15)
  }

  /** The decoder's TestVersionCode: the version (7 .. 40) whose version word
   *  is nearest to the 18 bits read, or 0 when none is within 3 bits. An exact
   *  match wins; otherwise the first word at minimum distance, measured by
   *  CountBits over bits 0 .. 14 only. */
  method TestVersionCode(versionCode: int) returns (r: int)
    requires 0 <= versionCode < 0x40000
    ensures r == 0 || 7 <= r <= 40
    ensures forall j :: 0 <= j < 34 && VersionCodeArray(j) == versionCode ==> r == j + 7
    ensures (forall j :: 0 <= j < 34 ==> VersionCodeArray(j) != versionCode) ==>
      (r == 0 <==> forall j :: 0 <= j < 34 ==> VersionDistance15(j, versionCode) > 3) &&
      (r != 0 ==>
        VersionDistance15(r - 7, versionCode) <= 3 &&
        (forall j :: 0 <= j < 34 ==> VersionDistance15(r - 7, versionCode) <= VersionDistance15(j, versionCode)) &&
        (forall j :: 0 <= j < r - 7 ==> VersionDistance15(r - 7, versionCode) < VersionDistance15(j, versionCode)))
  {
    Pow2Values();
    var code := versionCode / 4096;
    if 7 <= code <= 40 && VersionCodeArray(code - 7) == versionCode {
      forall j | 0 <= j < 34 && VersionCodeArray(j) == versionCode
        ensures j == code - 7
      {
        VersionCodeHighBits(j);
      }
      return code;
    }
    forall j | 0 <= j < 34
      ensures VersionCodeArray(j) != versionCode
    {
      VersionCodeHighBits(j);
    }
    var bestInfo := 0;
    var error := IntMaxValue;
    var index := 0;
    while index < 34
      invariant 0 <= index <= 34
      invariant index == 0 ==> error == IntMaxValue && bestInfo == 0
      invariant index > 0 ==> 0 <= bestInfo < index && error == VersionDistance15(bestInfo, versionCode)
      invariant forall j :: 0 <= j < index ==> error <= VersionDistance15(j, versionCode)
      invariant forall j :: 0 <= j < bestInfo ==> error < VersionDistance15(j, versionCode)
    {
      var errorBits := XorBits(VersionCodeArray(index), versionCode, 18);
      XorBitsZeroMeansEqual(VersionCodeArray(index), versionCode, 18);
      if errorBits == 0 {
        // An exact match was already returned by the look-up above.
        assert false;
        return code;
      }
      var count := CountBits(errorBits);
      PopCountOfXor(VersionCodeArray(index), versionCode, 18, 15);
      if count < error {
        error := count;
        bestInfo := index;
      }
      index := index + 1;
    }
    r := if error <= 3 then bestInfo + 7 else 0;
  }

  /** The exclusive or of two n-bit values is zero exactly when they are equal. */
  lemma {:induction false} XorBitsZeroMeansEqual(a: nat, b: nat, n: nat)
    requires a < Pow2(n) && b < Pow2(n)
    ensures XorBits(a, b, n) == 0 <==> a == b
    decreases n
  {
    if n > 0 {
      XorBitsZeroMeansEqual(a / 2, b / 2, n - 1);
    }
  }

  /** The decoder's FormatInfoToErrCode: the two level bits of a format index
   *  with the low bit inverted give the level number L = 0 .. H = 3. */
  function FormatInfoToErrCode(info: int): (r: int)
    requires 0 <= info < 4
    ensures QRConstants.IsErrorTolerance(r)
  {
    XorOne(info);
    Xor(info, 1)
  }

  /** Format index i (five data bits) holds the level indicator in its top two
   *  bits, M = 00, L = 01, H = 10, Q = 11 (ISO/IEC 18004:2015 table 12), and
   *  the mask pattern reference in its low three bits; the decoder takes them
   *  apart as (i >> 3) and (i & 7). */
  lemma FormatIndexSplit(i: int)
    requires 0 <= i < 32
    ensures var level := FormatInfoToErrCode(i / 8);
      (i < 8 ==> level == QRConstants.M) && (8 <= i < 16 ==> level == QRConstants.L) &&
      (16 <= i < 24 ==> level == QRConstants.H) && (24 <= i ==> level == QRConstants.Q)
    ensures 0 <= i % 8 < 8 && i == 8 * (i / 8) + i % 8
  {
    XorOne(i / 8);
  }
}
