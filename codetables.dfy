/** The constant tables the decoder reads, with the facts about them that the
 *  decoding steps rely on. Like the field tables, each table is written as a
 *  decision tree on its index, so that a fact about every entry is settled by
 *  case analysis on the index. */
module CodeTables {
  import opened Bytes
  import opened Arith

  /** An exponent of alpha, as the generator tables store their coefficients. */
  type Exponent = x: int | 0 <= x < 255

  /** The 32 format information words (15 bits, BCH(15,5) code, after the
   *  0x5412 mask), indexed by the 5 data bits: error correction level (two
   *  bits: M = 00, L = 01, H = 10, Q = 11) followed by the 3-bit mask pattern
   *  (ISO/IEC 18004:2015 section 7.9.1). */
  function FormatInfoArray(i: int): (r: int)
    requires 0 <= i < 32
    ensures 0 <= r < 0x8000
  {
    if i < 16 then
      if i < 8 then
        if i < 4 then
          (if i < 2 then (if i < 1 then 0x5412 else 0x5125) else (if i < 3 then 0x5E7C else 0x5B4B))
        else
          (if i < 6 then (if i < 5 then 0x45F9 else 0x40CE) else (if i < 7 then 0x4F97 else 0x4AA0))
      else
        if i < 12 then
          (if i < 10 then (if i < 9 then 0x77C4 else 0x72F3) else (if i < 11 then 0x7DAA else 0x789D))
        else
          (if i < 14 then (if i < 13 then 0x662F else 0x6318) else (if i < 15 then 0x6C41 else 0x6976))
    else
      if i < 24 then
        if i < 20 then
          (if i < 18 then (if i < 17 then 0x1689 else 0x13BE) else (if i < 19 then 0x1CE7 else 0x19D0))
        else
          (if i < 22 then (if i < 21 then 0x762 else 0x255) else (if i < 23 then 0xD0C else 0x83B))
      else
        if i < 28 then
          (if i < 26 then (if i < 25 then 0x355F else 0x3068) else (if i < 27 then 0x3F31 else 0x3A06))
        else
          (if i < 30 then (if i < 29 then 0x24B4 else 0x2183) else (if i < 31 then 0x2EDA else 0x2BED))
  }

  /** The 34 version information words (18 bits, BCH(18,6) code) of versions
   *  7 to 40: entry i belongs to version i + 7 (ISO/IEC 18004:2015 section 7.10). */
  function VersionCodeArray(i: int): (r: int)
    requires 0 <= i < 34
    ensures 0 <= r < 0x40000
  {
    if i < 17 then
      if i < 8 then
        if i < 4 then
          (if i < 2 then (if i < 1 then 0x7C94 else 0x85BC) else (if i < 3 then 0x9A99 else 0xA4D3))
        else
          (if i < 6 then (if i < 5 then 0xBBF6 else 0xC762) else (if i < 7 then 0xD847 else 0xE60D))
      else
        if i < 12 then
          (if i < 10 then (if i < 9 then 0xF928 else 0x10B78) else (if i < 11 then 0x1145D else 0x12A17))
        else
          if i < 14 then
            (if i < 13 then 0x13532 else 0x149A6)
          else
            (if i < 15 then 0x15683 else (if i < 16 then 0x168C9 else 0x177EC))
    else
      if i < 25 then
        if i < 21 then
          (if i < 19 then (if i < 18 then 0x18EC4 else 0x191E1) else (if i < 20 then 0x1AFAB else 0x1B08E))
        else
          (if i < 23 then (if i < 22 then 0x1CC1A else 0x1D33F) else (if i < 24 then 0x1ED75 else 0x1F250))
      else
        if i < 29 then
          (if i < 27 then (if i < 26 then 0x209D5 else 0x216F0) else (if i < 28 then 0x228BA else 0x2379F))
        else
          if i < 31 then
            (if i < 30 then 0x24B0B else 0x2542E)
          else
            (if i < 32 then 0x26A64 else (if i < 33 then 0x27541 else 0x28C69))
  }

  /** Total number of codewords (data plus error correction) of each version;
   *  entry 0 is unused. */
  function MaxCodewordsArray(v: int): (r: int)
    requires 0 <= v <= 40
    ensures 0 <= r <= 3706
  {
    if v < 20 then
      if v < 10 then
        if v < 5 then
          if v < 2 then
            (if v < 1 then 0 else 26)
          else
            (if v < 3 then 44 else (if v < 4 then 70 else 100))
        else
          if v < 7 then
            (if v < 6 then 134 else 172)
          else
            (if v < 8 then 196 else (if v < 9 then 242 else 292))
      else
        if v < 15 then
          if v < 12 then
            (if v < 11 then 346 else 404)
          else
            (if v < 13 then 466 else (if v < 14 then 532 else 581))
        else
          if v < 17 then
            (if v < 16 then 655 else 733)
          else
            (if v < 18 then 815 else (if v < 19 then 901 else 991))
    else
      if v < 30 then
        if v < 25 then
          if v < 22 then
            (if v < 21 then 1085 else 1156)
          else
            (if v < 23 then 1258 else (if v < 24 then 1364 else 1474))
        else
          if v < 27 then
            (if v < 26 then 1588 else 1706)
          else
            (if v < 28 then 1828 else (if v < 29 then 1921 else 2051))
      else
        if v < 35 then
          if v < 32 then
            (if v < 31 then 2185 else 2323)
          else
            (if v < 33 then 2465 else (if v < 34 then 2611 else 2761))
        else
          if v < 38 then
            (if v < 36 then 2876 else (if v < 37 then 3034 else 3196))
          else
            (if v < 39 then 3362 else (if v < 40 then 3532 else 3706))
  }

  /** Column selector of one row of the block table. */
  function Pick(column: int, a: int, b: int, c: int, d: int): int
  {
    if column == 0 then a else if column == 1 then b else if column == 2 then c else d
  }

  /** Column of the block table: blocks of group 1. */
  const BLOCKS_GROUP1 := 0
  /** Column of the block table: data codewords in each block of group 1. */
  const DATA_CODEWORDS_GROUP1 := 1
  /** Column of the block table: blocks of group 2. */
  const BLOCKS_GROUP2 := 2
  /** Column of the block table: data codewords in each block of group 2. */
  const DATA_CODEWORDS_GROUP2 := 3

  /** The error correction block structure (ISO/IEC 18004:2015 table 9): row
   *  (version - 1) * 4 + level, where the levels are numbered L = 0, M = 1,
   *  Q = 2, H = 3. */
  function ECBlockInfo(index: int, column: int): (r: int)
    requires 0 <= index < 160 && 0 <= column < 4
    ensures 0 <= r < 256
  {
    if index < 80 then
      if index < 40 then
        if index < 20 then
          if index < 10 then
            if index < 5 then
              if index < 2 then
                (if index < 1 then Pick(column, 1, 19, 0, 0) else Pick(column, 1, 16, 0, 0))
              else
                if index < 3 then
                  Pick(column, 1, 13, 0, 0)
                else
                  (if index < 4 then Pick(column, 1, 9, 0, 0) else Pick(column, 1, 34, 0, 0))
            else
              if index < 7 then
                (if index < 6 then Pick(column, 1, 28, 0, 0) else Pick(column, 1, 22, 0, 0))
              else
                if index < 8 then
                  Pick(column, 1, 16, 0, 0)
                else
                  (if index < 9 then Pick(column, 1, 55, 0, 0) else Pick(column, 1, 44, 0, 0))
          else
            if index < 15 then
              if index < 12 then
                (if index < 11 then Pick(column, 2, 17, 0, 0) else Pick(column, 2, 13, 0, 0))
              else
                if index < 13 then
                  Pick(column, 1, 80, 0, 0)
                else
                  (if index < 14 then Pick(column, 2, 32, 0, 0) else Pick(column, 2, 24, 0, 0))
            else
              if index < 17 then
                (if index < 16 then Pick(column, 4, 9, 0, 0) else Pick(column, 1, 108, 0, 0))
              else
                if index < 18 then
                  Pick(column, 2, 43, 0, 0)
                else
                  (if index < 19 then Pick(column, 2, 15, 2, 16) else Pick(column, 2, 11, 2, 12))
        else
          if index < 30 then
            if index < 25 then
              if index < 22 then
                (if index < 21 then Pick(column, 2, 68, 0, 0) else Pick(column, 4, 27, 0, 0))
              else
                if index < 23 then
                  Pick(column, 4, 19, 0, 0)
                else
                  (if index < 24 then Pick(column, 4, 15, 0, 0) else Pick(column, 2, 78, 0, 0))
            else
              if index < 27 then
                (if index < 26 then Pick(column, 4, 31, 0, 0) else Pick(column, 2, 14, 4, 15))
              else
                if index < 28 then
                  Pick(column, 4, 13, 1, 14)
                else
                  (if index < 29 then Pick(column, 2, 97, 0, 0) else Pick(column, 2, 38, 2, 39))
          else
            if index < 35 then
              if index < 32 then
                (if index < 31 then Pick(column, 4, 18, 2, 19) else Pick(column, 4, 14, 2, 15))
              else
                if index < 33 then
                  Pick(column, 2, 116, 0, 0)
                else
                  (if index < 34 then Pick(column, 3, 36, 2, 37) else Pick(column, 4, 16, 4, 17))
            else
              if index < 37 then
                (if index < 36 then Pick(column, 4, 12, 4, 13) else Pick(column, 2, 68, 2, 69))
              else
                if index < 38 then
                  Pick(column, 4, 43, 1, 44)
                else
                  (if index < 39 then Pick(column, 6, 19, 2, 20) else Pick(column, 6, 15, 2, 16))
      else
        if index < 60 then
          if index < 50 then
            if index < 45 then
              if index < 42 then
                (if index < 41 then Pick(column, 4, 81, 0, 0) else Pick(column, 1, 50, 4, 51))
              else
                if index < 43 then
                  Pick(column, 4, 22, 4, 23)
                else
                  (if index < 44 then Pick(column, 3, 12, 8, 13) else Pick(column, 2, 92, 2, 93))
            else
              if index < 47 then
                (if index < 46 then Pick(column, 6, 36, 2, 37) else Pick(column, 4, 20, 6, 21))
              else
                if index < 48 then
                  Pick(column, 7, 14, 4, 15)
                else
                  (if index < 49 then Pick(column, 4, 107, 0, 0) else Pick(column, 8, 37, 1, 38))
          else
            if index < 55 then
              if index < 52 then
                (if index < 51 then Pick(column, 8, 20, 4, 21) else Pick(column, 12, 11, 4, 12))
              else
                if index < 53 then
                  Pick(column, 3, 115, 1, 116)
                else
                  (if index < 54 then Pick(column, 4, 40, 5, 41) else Pick(column, 11, 16, 5, 17))
            else
              if index < 57 then
                (if index < 56 then Pick(column, 11, 12, 5, 13) else Pick(column, 5, 87, 1, 88))
              else
                if index < 58 then
                  Pick(column, 5, 41, 5, 42)
                else
                  (if index < 59 then Pick(column, 5, 24, 7, 25) else Pick(column, 11, 12, 7, 13))
        else
          if index < 70 then
            if index < 65 then
              if index < 62 then
                (if index < 61 then Pick(column, 5, 98, 1, 99) else Pick(column, 7, 45, 3, 46))
              else
                if index < 63 then
                  Pick(column, 15, 19, 2, 20)
                else
                  (if index < 64 then Pick(column, 3, 15, 13, 16) else Pick(column, 1, 107, 5, 108))
            else
              if index < 67 then
                (if index < 66 then Pick(column, 10, 46, 1, 47) else Pick(column, 1, 22, 15, 23))
              else
                if index < 68 then
                  Pick(column, 2, 14, 17, 15)
                else
                  (if index < 69 then Pick(column, 5, 120, 1, 121) else Pick(column, 9, 43, 4, 44))
          else
            if index < 75 then
              if index < 72 then
                (if index < 71 then Pick(column, 17, 22, 1, 23) else Pick(column, 2, 14, 19, 15))
              else
                if index < 73 then
                  Pick(column, 3, 113, 4, 114)
                else
                  (if index < 74 then Pick(column, 3, 44, 11, 45) else Pick(column, 17, 21, 4, 22))
            else
              if index < 77 then
                (if index < 76 then Pick(column, 9, 13, 16, 14) else Pick(column, 3, 107, 5, 108))
              else
                if index < 78 then
                  Pick(column, 3, 41, 13, 42)
                else
                  (if index < 79 then Pick(column, 15, 24, 5, 25) else Pick(column, 15, 15, 10, 16))
    else
      if index < 120 then
        if index < 100 then
          if index < 90 then
            if index < 85 then
              if index < 82 then
                (if index < 81 then Pick(column, 4, 116, 4, 117) else Pick(column, 17, 42, 0, 0))
              else
                if index < 83 then
                  Pick(column, 17, 22, 6, 23)
                else
                  (if index < 84 then Pick(column, 19, 16, 6, 17) else Pick(column, 2, 111, 7, 112))
            else
              if index < 87 then
                (if index < 86 then Pick(column, 17, 46, 0, 0) else Pick(column, 7, 24, 16, 25))
              else
                if index < 88 then
                  Pick(column, 34, 13, 0, 0)
                else
                  (if index < 89 then Pick(column, 4, 121, 5, 122) else Pick(column, 4, 47, 14, 48))
          else
            if index < 95 then
              if index < 92 then
                (if index < 91 then Pick(column, 11, 24, 14, 25) else Pick(column, 16, 15, 14, 16))
              else
                if index < 93 then
                  Pick(column, 6, 117, 4, 118)
                else
                  (if index < 94 then Pick(column, 6, 45, 14, 46) else Pick(column, 11, 24, 16, 25))
            else
              if index < 97 then
                (if index < 96 then Pick(column, 30, 16, 2, 17) else Pick(column, 8, 106, 4, 107))
              else
                if index < 98 then
                  Pick(column, 8, 47, 13, 48)
                else
                  (if index < 99 then Pick(column, 7, 24, 22, 25) else Pick(column, 22, 15, 13, 16))
        else
          if index < 110 then
            if index < 105 then
              if index < 102 then
                (if index < 101 then Pick(column, 10, 114, 2, 115) else Pick(column, 19, 46, 4, 47))
              else
                if index < 103 then
                  Pick(column, 28, 22, 6, 23)
                else
                  (if index < 104 then Pick(column, 33, 16, 4, 17) else Pick(column, 8, 122, 4, 123))
            else
              if index < 107 then
                (if index < 106 then Pick(column, 22, 45, 3, 46) else Pick(column, 8, 23, 26, 24))
              else
                if index < 108 then
                  Pick(column, 12, 15, 28, 16)
                else
                  (if index < 109 then Pick(column, 3, 117, 10, 118) else Pick(column, 3, 45, 23, 46))
          else
            if index < 115 then
              if index < 112 then
                (if index < 111 then Pick(column, 4, 24, 31, 25) else Pick(column, 11, 15, 31, 16))
              else
                if index < 113 then
                  Pick(column, 7, 116, 7, 117)
                else
                  (if index < 114 then Pick(column, 21, 45, 7, 46) else Pick(column, 1, 23, 37, 24))
            else
              if index < 117 then
                (if index < 116 then Pick(column, 19, 15, 26, 16) else Pick(column, 5, 115, 10, 116))
              else
                if index < 118 then
                  Pick(column, 19, 47, 10, 48)
                else
                  (if index < 119 then Pick(column, 15, 24, 25, 25) else Pick(column, 23, 15, 25, 16))
      else
        if index < 140 then
          if index < 130 then
            if index < 125 then
              if index < 122 then
                (if index < 121 then Pick(column, 13, 115, 3, 116) else Pick(column, 2, 46, 29, 47))
              else
                if index < 123 then
                  Pick(column, 42, 24, 1, 25)
                else
                  (if index < 124 then Pick(column, 23, 15, 28, 16) else Pick(column, 17, 115, 0, 0))
            else
              if index < 127 then
                (if index < 126 then Pick(column, 10, 46, 23, 47) else Pick(column, 10, 24, 35, 25))
              else
                if index < 128 then
                  Pick(column, 19, 15, 35, 16)
                else
                  (if index < 129 then Pick(column, 17, 115, 1, 116) else Pick(column, 14, 46, 21, 47))
          else
            if index < 135 then
              if index < 132 then
                (if index < 131 then Pick(column, 29, 24, 19, 25) else Pick(column, 11, 15, 46, 16))
              else
                if index < 133 then
                  Pick(column, 13, 115, 6, 116)
                else
                  (if index < 134 then Pick(column, 14, 46, 23, 47) else Pick(column, 44, 24, 7, 25))
            else
              if index < 137 then
                (if index < 136 then Pick(column, 59, 16, 1, 17) else Pick(column, 12, 121, 7, 122))
              else
                if index < 138 then
                  Pick(column, 12, 47, 26, 48)
                else
                  (if index < 139 then Pick(column, 39, 24, 14, 25) else Pick(column, 22, 15, 41, 16))
        else
          if index < 150 then
            if index < 145 then
              if index < 142 then
                (if index < 141 then Pick(column, 6, 121, 14, 122) else Pick(column, 6, 47, 34, 48))
              else
                if index < 143 then
                  Pick(column, 46, 24, 10, 25)
                else
                  (if index < 144 then Pick(column, 2, 15, 64, 16) else Pick(column, 17, 122, 4, 123))
            else
              if index < 147 then
                (if index < 146 then Pick(column, 29, 46, 14, 47) else Pick(column, 49, 24, 10, 25))
              else
                if index < 148 then
                  Pick(column, 24, 15, 46, 16)
                else
                  (if index < 149 then Pick(column, 4, 122, 18, 123) else Pick(column, 13, 46, 32, 47))
          else
            if index < 155 then
              if index < 152 then
                (if index < 151 then Pick(column, 48, 24, 14, 25) else Pick(column, 42, 15, 32, 16))
              else
                if index < 153 then
                  Pick(column, 20, 117, 4, 118)
                else
                  (if index < 154 then Pick(column, 40, 47, 7, 48) else Pick(column, 43, 24, 22, 25))
            else
              if index < 157 then
                (if index < 156 then Pick(column, 10, 15, 67, 16) else Pick(column, 19, 118, 6, 119))
              else
                if index < 158 then
                  Pick(column, 18, 47, 31, 48)
                else
                  (if index < 159 then Pick(column, 34, 24, 34, 25) else Pick(column, 20, 15, 61, 16))
  }

  /** Generator polynomials of Reed-Solomon codes with 7 to 68 error correction
   *  codewords, by number of codewords minus 7; the coefficients after the
   *  leading one are stored as exponents of alpha. Codeword counts that no
   *  version uses have no polynomial: the empty sequence stands for the
   *  missing entry. */
  function GenArray(k: int): (r: seq<Exponent>)
    requires 0 <= k < 62
  {
    if k < 31 then
      if k < 15 then
        if k < 7 then
          if k < 3 then
            if k < 1 then
              [87, 229, 146, 149, 238, 102, 21]
            else
              if k < 2 then
                []
              else
                []
          else
            if k < 5 then
              if k < 4 then
                [251, 67, 46, 61, 118, 70, 64, 94, 32, 45]
              else
                []
            else
              if k < 6 then
                []
              else
                [74, 152, 176, 100, 86, 100, 106, 104, 130, 218, 206, 140, 78]
        else
          if k < 11 then
            if k < 9 then
              if k < 8 then
                []
              else
                [8, 183, 61, 91, 202, 37, 51, 58, 58, 237, 140, 124, 5, 99, 105]
            else
              if k < 10 then
                [120, 104, 107, 109, 102, 161, 76, 3, 91, 191, 147, 169, 182, 194, 225, 120]
              else
                [43, 139, 206, 78, 43, 239, 123, 206, 214, 147, 24, 99, 150, 39, 243, 163, 136]
          else
            if k < 13 then
              if k < 12 then
                [215, 234, 158, 94, 184, 97, 118, 170, 79, 187, 152, 148, 252, 179, 5, 98, 96, 153]
              else
                []
            else
              if k < 14 then
                [17, 60, 79, 50, 61, 163, 26, 187, 202, 180, 221, 225, 83, 239, 156, 164, 212, 212, 188, 190]
              else
                []
      else
        if k < 23 then
          if k < 19 then
            if k < 17 then
              if k < 16 then
                [210, 171, 247, 242, 93, 230, 14, 109, 221, 53, 200, 74, 8, 172, 98, 80, 219, 134, 160, 105, 165, 231]
              else
                []
            else
              if k < 18 then
                [229, 121, 135, 48, 211, 117, 251, 126, 159, 180, 169, 152, 192, 226, 228, 218, 111, 0, 117, 232, 87, 96, 227, 21]
              else
                []
          else
            if k < 21 then
              if k < 20 then
                [173, 125, 158, 2, 103, 182, 118, 17, 145, 201, 111, 28, 165, 53, 161, 21, 245, 142, 13, 102, 48, 227, 153, 145, 218, 70]
              else
                []
            else
              if k < 22 then
                [168, 223, 200, 104, 224, 234, 108, 180, 110, 190, 195, 147, 205, 27, 232, 201, 21, 43, 245, 87, 42, 195, 212, 119, 242, 37, 9, 123]
              else
                []
        else
          if k < 27 then
            if k < 25 then
              if k < 24 then
                [41, 173, 145, 152, 216, 31, 179, 182, 50, 48, 110, 86, 239, 96, 222, 125, 42, 173, 226, 193, 224, 130, 156, 37, 251, 216, 238, 40, 192, 180]
              else
                []
            else
              if k < 26 then
                [10, 6, 106, 190, 249, 167, 4, 67, 209, 138, 138, 32, 242, 123, 89, 27, 120, 185, 80, 156, 38, 60, 171, 60, 28, 222, 80, 52, 254, 185, 220, 241]
              else
                []
          else
            if k < 29 then
              if k < 28 then
                [111, 77, 146, 94, 26, 21, 108, 19, 105, 94, 113, 193, 86, 140, 163, 125, 58, 158, 229, 239, 218, 103, 56, 70, 114, 61, 183, 129, 167, 13, 98, 62, 129, 51]
              else
                []
            else
              if k < 30 then
                [200, 183, 98, 16, 172, 31, 246, 234, 60, 152, 115, 0, 167, 152, 113, 248, 238, 107, 18, 63, 218, 37, 87, 210, 105, 177, 120, 74, 121, 196, 117, 251, 113, 233, 30, 120]
              else
                []
    else
      if k < 46 then
        if k < 38 then
          if k < 34 then
            if k < 32 then
              []
            else
              if k < 33 then
                []
              else
                [59, 116, 79, 161, 252, 98, 128, 205, 128, 161, 247, 57, 163, 56, 235, 106, 53, 26, 187, 174, 226, 104, 170, 7, 175, 35, 181, 114, 88, 41, 47, 163, 125, 134, 72, 20, 232, 53, 35, 15]
          else
            if k < 36 then
              if k < 35 then
                []
              else
                [250, 103, 221, 230, 25, 18, 137, 231, 0, 3, 58, 242, 221, 191, 110, 84, 230, 8, 188, 106, 96, 147, 15, 131, 139, 34, 101, 223, 39, 101, 213, 199, 237, 254, 201, 123, 171, 162, 194, 117, 50, 96]
            else
              if k < 37 then
                []
              else
                [190, 7, 61, 121, 71, 246, 69, 55, 168, 188, 89, 243, 191, 25, 72, 123, 9, 145, 14, 247, 1, 238, 44, 78, 143, 62, 224, 126, 118, 114, 68, 163, 52, 194, 217, 147, 204, 169, 37, 130, 113, 102, 73, 181]
        else
          if k < 42 then
            if k < 40 then
              if k < 39 then
                []
              else
                [112, 94, 88, 112, 253, 224, 202, 115, 187, 99, 89, 5, 54, 113, 129, 44, 58, 16, 135, 216, 169, 211, 36, 1, 4, 96, 60, 241, 73, 104, 234, 8, 249, 245, 119, 174, 52, 25, 157, 224, 43, 202, 223, 19, 82, 15]
            else
              if k < 41 then
                []
              else
                [228, 25, 196, 130, 211, 146, 60, 24, 251, 90, 39, 102, 240, 61, 178, 63, 46, 123, 115, 18, 221, 111, 135, 160, 182, 205, 107, 206, 95, 150, 120, 184, 91, 21, 247, 156, 140, 238, 191, 11, 94, 227, 84, 50, 163, 39, 34, 108]
          else
            if k < 44 then
              if k < 43 then
                []
              else
                [232, 125, 157, 161, 164, 9, 118, 46, 209, 99, 203, 193, 35, 3, 209, 111, 195, 242, 203, 225, 46, 13, 32, 160, 126, 209, 130, 160, 242, 215, 242, 75, 77, 42, 189, 32, 113, 65, 124, 69, 228, 114, 235, 175, 124, 170, 215, 232, 133, 205]
            else
              if k < 45 then
                []
              else
                [116, 50, 86, 186, 50, 220, 251, 89, 192, 46, 86, 127, 124, 19, 184, 233, 151, 215, 22, 14, 59, 145, 37, 242, 203, 134, 254, 89, 190, 94, 59, 65, 124, 113, 100, 233, 235, 121, 22, 76, 86, 97, 39, 242, 200, 220, 101, 33, 239, 254, 116, 51]
      else
        if k < 54 then
          if k < 50 then
            if k < 48 then
              if k < 47 then
                []
              else
                [183, 26, 201, 84, 210, 221, 113, 21, 46, 65, 45, 50, 238, 184, 249, 225, 102, 58, 209, 218, 109, 165, 26, 95, 184, 192, 52, 245, 35, 254, 238, 175, 172, 79, 123, 25, 122, 43, 120, 108, 215, 80, 128, 201, 235, 8, 153, 59, 101, 31, 198, 76, 31, 156]
            else
              if k < 49 then
                []
              else
                [106, 120, 107, 157, 164, 216, 112, 116, 2, 91, 248, 163, 36, 201, 202, 229, 6, 144, 254, 155, 135, 208, 170, 209, 12, 139, 127, 142, 182, 249, 177, 174, 190, 28, 10, 85, 239, 184, 101, 124, 152, 206, 96, 23, 163, 61, 27, 196, 247, 151, 154, 202, 207, 20, 61, 10]
          else
            if k < 52 then
              if k < 51 then
                []
              else
                [82, 116, 26, 247, 66, 27, 62, 107, 252, 182, 200, 185, 235, 55, 251, 242, 210, 144, 154, 237, 176, 141, 192, 248, 152, 249, 206, 85, 253, 142, 65, 165, 125, 23, 24, 30, 122, 240, 214, 6, 129, 218, 29, 145, 127, 134, 206, 245, 117, 29, 41, 63, 159, 142, 233, 125, 148, 123]
            else
              if k < 53 then
                []
              else
                [107, 140, 26, 12, 9, 141, 243, 197, 226, 197, 219, 45, 211, 101, 219, 120, 28, 181, 127, 6, 100, 247, 2, 205, 198, 57, 115, 219, 101, 109, 160, 82, 37, 38, 238, 49, 160, 209, 121, 86, 11, 124, 30, 181, 84, 25, 194, 87, 65, 102, 190, 220, 70, 27, 209, 16, 89, 7, 33, 240]
        else
          if k < 58 then
            if k < 56 then
              if k < 55 then
                []
              else
                [65, 202, 113, 98, 71, 223, 248, 118, 214, 94, 0, 122, 37, 23, 2, 228, 58, 121, 7, 105, 135, 78, 243, 118, 70, 76, 223, 89, 72, 50, 70, 111, 194, 17, 212, 126, 181, 35, 221, 117, 235, 11, 229, 149, 147, 123, 213, 40, 115, 6, 200, 100, 26, 246, 182, 218, 127, 215, 36, 186, 110, 106]
            else
              if k < 57 then
                []
              else
                [45, 51, 175, 9, 7, 158, 159, 49, 68, 119, 92, 123, 177, 204, 187, 254, 200, 78, 141, 149, 119, 26, 127, 53, 160, 93, 199, 212, 29, 24, 145, 156, 208, 150, 218, 209, 4, 216, 91, 47, 184, 146, 47, 140, 195, 195, 125, 242, 238, 63, 99, 108, 140, 230, 242, 31, 204, 11, 178, 243, 217, 156, 213, 231]
          else
            if k < 60 then
              if k < 59 then
                []
              else
                [5, 118, 222, 180, 136, 136, 162, 51, 46, 117, 13, 215, 81, 17, 139, 247, 197, 171, 95, 173, 65, 137, 178, 68, 111, 95, 101, 41, 72, 214, 169, 197, 95, 7, 44, 154, 77, 111, 236, 40, 121, 143, 63, 87, 80, 253, 240, 126, 217, 77, 34, 232, 106, 50, 168, 82, 76, 146, 67, 106, 171, 25, 132, 93, 45, 105]
            else
              if k < 61 then
                []
              else
                [247, 159, 223, 33, 224, 93, 77, 70, 90, 160, 32, 254, 43, 150, 84, 101, 190, 205, 133, 52, 60, 202, 165, 220, 203, 151, 93, 84, 15, 84, 253, 173, 160, 89, 227, 52, 199, 97, 95, 231, 52, 177, 41, 125, 137, 241, 166, 225, 118, 2, 54, 32, 82, 215, 175, 198, 43, 238, 235, 27, 101, 184, 127, 3, 5, 8, 163, 238]
  }

  /** Row and column coordinates of the alignment pattern centres of each
   *  version (ISO/IEC 18004:2015 annex E); versions 0 and 1 have none, and the
   *  empty sequence stands for the missing entry. */
  function AlignmentPositionArray(v: int): (r: seq<int>)
    requires 0 <= v <= 40
  {
    if v < 20 then
      if v < 10 then
        if v < 5 then
          if v < 2 then
            if v < 1 then
              []
            else
              []
          else
            if v < 3 then
              [6, 18]
            else
              if v < 4 then
                [6, 22]
              else
                [6, 26]
        else
          if v < 7 then
            if v < 6 then
              [6, 30]
            else
              [6, 34]
          else
            if v < 8 then
              [6, 22, 38]
            else
              if v < 9 then
                [6, 24, 42]
              else
                [6, 26, 46]
      else
        if v < 15 then
          if v < 12 then
            if v < 11 then
              [6, 28, 50]
            else
              [6, 30, 54]
          else
            if v < 13 then
              [6, 32, 58]
            else
              if v < 14 then
                [6, 34, 62]
              else
                [6, 26, 46, 66]
        else
          if v < 17 then
            if v < 16 then
              [6, 26, 48, 70]
            else
              [6, 26, 50, 74]
          else
            if v < 18 then
              [6, 30, 54, 78]
            else
              if v < 19 then
                [6, 30, 56, 82]
              else
                [6, 30, 58, 86]
    else
      if v < 30 then
        if v < 25 then
          if v < 22 then
            if v < 21 then
              [6, 34, 62, 90]
            else
              [6, 28, 50, 72, 94]
          else
            if v < 23 then
              [6, 26, 50, 74, 98]
            else
              if v < 24 then
                [6, 30, 54, 78, 102]
              else
                [6, 28, 54, 80, 106]
        else
          if v < 27 then
            if v < 26 then
              [6, 32, 58, 84, 110]
            else
              [6, 30, 58, 86, 114]
          else
            if v < 28 then
              [6, 34, 62, 90, 118]
            else
              if v < 29 then
                [6, 26, 50, 74, 98, 122]
              else
                [6, 30, 54, 78, 102, 126]
      else
        if v < 35 then
          if v < 32 then
            if v < 31 then
              [6, 26, 52, 78, 104, 130]
            else
              [6, 30, 56, 82, 108, 134]
          else
            if v < 33 then
              [6, 34, 60, 86, 112, 138]
            else
              if v < 34 then
                [6, 30, 58, 86, 114, 142]
              else
                [6, 34, 62, 90, 118, 146]
        else
          if v < 38 then
            if v < 36 then
              [6, 30, 54, 78, 102, 126, 150]
            else
              if v < 37 then
                [6, 24, 50, 76, 102, 128, 154]
              else
                [6, 28, 54, 80, 106, 132, 158]
          else
            if v < 39 then
              [6, 32, 58, 84, 110, 136, 162]
            else
              if v < 40 then
                [6, 26, 54, 82, 110, 138, 166]
              else
                [6, 30, 58, 86, 114, 142, 170]
  }

  /** The 45 characters of the alphanumeric mode as byte codes
   *  (ISO/IEC 18004:2015 table 5). */
  function DecodingTable(i: int): (r: Byte)
    requires 0 <= i < 45
  {
    if i < 22 then
      if i < 11 then
        if i < 5 then
          if i < 2 then
            (if i < 1 then 48 else 49)
          else
            (if i < 3 then 50 else (if i < 4 then 51 else 52))
        else
          if i < 8 then
            (if i < 6 then 53 else (if i < 7 then 54 else 55))
          else
            (if i < 9 then 56 else (if i < 10 then 57 else 65))
      else
        if i < 16 then
          if i < 13 then
            (if i < 12 then 66 else 67)
          else
            (if i < 14 then 68 else (if i < 15 then 69 else 70))
        else
          if i < 19 then
            (if i < 17 then 71 else (if i < 18 then 72 else 73))
          else
            (if i < 20 then 74 else (if i < 21 then 75 else 76))
    else
      if i < 33 then
        if i < 27 then
          if i < 24 then
            (if i < 23 then 77 else 78)
          else
            (if i < 25 then 79 else (if i < 26 then 80 else 81))
        else
          if i < 30 then
            (if i < 28 then 82 else (if i < 29 then 83 else 84))
          else
            (if i < 31 then 85 else (if i < 32 then 86 else 87))
      else
        if i < 39 then
          if i < 36 then
            (if i < 34 then 88 else (if i < 35 then 89 else 90))
          else
            (if i < 37 then 32 else (if i < 38 then 36 else 37))
        else
          if i < 42 then
            (if i < 40 then 42 else (if i < 41 then 43 else 45))
          else
            (if i < 43 then 46 else (if i < 44 then 47 else 58))
  }

  /** The index of the format word whose top five bits are h: the inverse of
   *  the table on those bits. */
  ghost function FormatIndexOfHighBits(h: int): (r: int)
    requires 0 <= h < 32
  {
    if h < 16 then
      if h < 8 then
        if h < 4 then
          (if h < 2 then (if h < 1 then 21 else 20) else (if h < 3 then 23 else 22))
        else
          (if h < 6 then (if h < 5 then 17 else 16) else (if h < 7 then 19 else 18))
      else
        if h < 12 then
          (if h < 10 then (if h < 9 then 29 else 28) else (if h < 11 then 31 else 30))
        else
          (if h < 14 then (if h < 13 then 25 else 24) else (if h < 15 then 27 else 26))
    else
      if h < 24 then
        if h < 20 then
          (if h < 18 then (if h < 17 then 5 else 4) else (if h < 19 then 7 else 6))
        else
          (if h < 22 then (if h < 21 then 1 else 0) else (if h < 23 then 3 else 2))
      else
        if h < 28 then
          (if h < 26 then (if h < 25 then 13 else 12) else (if h < 27 then 15 else 14))
        else
          (if h < 30 then (if h < 29 then 9 else 8) else (if h < 31 then 11 else 10))
  }

  /** The top five bits of format word i determine i. */
  lemma FormatInfoHighBits(i: int)
    requires 0 <= i < 32
    ensures FormatIndexOfHighBits(FormatInfoArray(i) / 1024) == i
  {
  }

  /** The 32 format words are distinct. */
  lemma FormatInfoDistinct(i: int, j: int)
    requires 0 <= i < 32 && 0 <= j < 32
    ensures FormatInfoArray(i) == FormatInfoArray(j) ==> i == j
  {
    FormatInfoHighBits(i);
    FormatInfoHighBits(j);
  }

  /** The top six bits of a version word are its version number; in particular
   *  the 34 version words are distinct. */
  lemma VersionCodeHighBits(i: int)
    requires 0 <= i < 34
    ensures VersionCodeArray(i) / 4096 == i + 7
  {
  }

  /** The number of error correction codewords per block of each row of the
   *  block table, tabulated: the quotient that the decoder computes from the
   *  table, written out so that facts about it are checked row by row. */
  ghost function ErrCorrCodewordsOf(index: int): (r: int)
    requires 0 <= index < 160
  {
    if index < 80 then
      if index < 40 then
        if index < 20 then
          if index < 10 then
            if index < 5 then
              if index < 2 then
                (if index < 1 then 7 else 10)
              else
                (if index < 3 then 13 else (if index < 4 then 17 else 10))
            else
              if index < 7 then
                (if index < 6 then 16 else 22)
              else
                (if index < 8 then 28 else (if index < 9 then 15 else 26))
          else
            if index < 15 then
              if index < 12 then
                (if index < 11 then 18 else 22)
              else
                (if index < 13 then 20 else (if index < 14 then 18 else 26))
            else
              if index < 17 then
                (if index < 16 then 16 else 26)
              else
                (if index < 18 then 24 else (if index < 19 then 18 else 22))
        else
          if index < 30 then
            if index < 25 then
              if index < 22 then
                (if index < 21 then 18 else 16)
              else
                (if index < 23 then 24 else (if index < 24 then 28 else 20))
            else
              if index < 27 then
                (if index < 26 then 18 else 18)
              else
                (if index < 28 then 26 else (if index < 29 then 24 else 22))
          else
            if index < 35 then
              if index < 32 then
                (if index < 31 then 22 else 26)
              else
                (if index < 33 then 30 else (if index < 34 then 22 else 20))
            else
              if index < 37 then
                (if index < 36 then 24 else 18)
              else
                (if index < 38 then 26 else (if index < 39 then 24 else 28))
      else
        if index < 60 then
          if index < 50 then
            if index < 45 then
              if index < 42 then
                (if index < 41 then 20 else 30)
              else
                (if index < 43 then 28 else (if index < 44 then 24 else 24))
            else
              if index < 47 then
                (if index < 46 then 22 else 26)
              else
                (if index < 48 then 28 else (if index < 49 then 26 else 22))
          else
            if index < 55 then
              if index < 52 then
                (if index < 51 then 24 else 22)
              else
                (if index < 53 then 30 else (if index < 54 then 24 else 20))
            else
              if index < 57 then
                (if index < 56 then 24 else 22)
              else
                (if index < 58 then 24 else (if index < 59 then 30 else 24))
        else
          if index < 70 then
            if index < 65 then
              if index < 62 then
                (if index < 61 then 24 else 28)
              else
                (if index < 63 then 24 else (if index < 64 then 30 else 28))
            else
              if index < 67 then
                (if index < 66 then 28 else 28)
              else
                (if index < 68 then 28 else (if index < 69 then 30 else 26))
          else
            if index < 75 then
              if index < 72 then
                (if index < 71 then 28 else 28)
              else
                (if index < 73 then 28 else (if index < 74 then 26 else 26))
            else
              if index < 77 then
                (if index < 76 then 26 else 28)
              else
                (if index < 78 then 26 else (if index < 79 then 30 else 28))
    else
      if index < 120 then
        if index < 100 then
          if index < 90 then
            if index < 85 then
              if index < 82 then
                (if index < 81 then 28 else 26)
              else
                (if index < 83 then 28 else (if index < 84 then 30 else 28))
            else
              if index < 87 then
                (if index < 86 then 28 else 30)
              else
                (if index < 88 then 24 else (if index < 89 then 30 else 28))
          else
            if index < 95 then
              if index < 92 then
                (if index < 91 then 30 else 30)
              else
                (if index < 93 then 30 else (if index < 94 then 28 else 30))
            else
              if index < 97 then
                (if index < 96 then 30 else 26)
              else
                (if index < 98 then 28 else (if index < 99 then 30 else 30))
        else
          if index < 110 then
            if index < 105 then
              if index < 102 then
                (if index < 101 then 28 else 28)
              else
                (if index < 103 then 28 else (if index < 104 then 30 else 30))
            else
              if index < 107 then
                (if index < 106 then 28 else 30)
              else
                (if index < 108 then 30 else (if index < 109 then 30 else 28))
          else
            if index < 115 then
              if index < 112 then
                (if index < 111 then 30 else 30)
              else
                (if index < 113 then 30 else (if index < 114 then 28 else 30))
            else
              if index < 117 then
                (if index < 116 then 30 else 30)
              else
                (if index < 118 then 28 else (if index < 119 then 30 else 30))
      else
        if index < 140 then
          if index < 130 then
            if index < 125 then
              if index < 122 then
                (if index < 121 then 30 else 28)
              else
                (if index < 123 then 30 else (if index < 124 then 30 else 30))
            else
              if index < 127 then
                (if index < 126 then 28 else 30)
              else
                (if index < 128 then 30 else (if index < 129 then 30 else 28))
          else
            if index < 135 then
              if index < 132 then
                (if index < 131 then 30 else 30)
              else
                (if index < 133 then 30 else (if index < 134 then 28 else 30))
            else
              if index < 137 then
                (if index < 136 then 30 else 30)
              else
                (if index < 138 then 28 else (if index < 139 then 30 else 30))
        else
          if index < 150 then
            if index < 145 then
              if index < 142 then
                (if index < 141 then 30 else 28)
              else
                (if index < 143 then 30 else (if index < 144 then 30 else 30))
            else
              if index < 147 then
                (if index < 146 then 28 else 30)
              else
                (if index < 148 then 30 else (if index < 149 then 30 else 28))
          else
            if index < 155 then
              if index < 152 then
                (if index < 151 then 30 else 30)
              else
                (if index < 153 then 30 else (if index < 154 then 28 else 30))
            else
              if index < 157 then
                (if index < 156 then 30 else 30)
              else
                (if index < 158 then 28 else (if index < 159 then 30 else 30))
  }

  /** The block structure of row `index` of the table (version index / 4 + 1)
   *  is consistent: every block of group 2 holds one data codeword more than a
   *  block of group 1, the codewords that are not data split evenly into the
   *  blocks' error correction codewords, the generator table holds a
   *  polynomial of that degree, and a block with its error correction
   *  codewords fits in the 255 positions the logarithm table can address. */
  ghost predicate ValidBlockRow(index: int)
    requires 0 <= index < 160
  {
    var b1 := ECBlockInfo(index, BLOCKS_GROUP1);
    var d1 := ECBlockInfo(index, DATA_CODEWORDS_GROUP1);
    var b2 := ECBlockInfo(index, BLOCKS_GROUP2);
    var d2 := ECBlockInfo(index, DATA_CODEWORDS_GROUP2);
    var data := b1 * d1 + b2 * d2;
    var ecc := (MaxCodewordsArray(index / 4 + 1) - data) / (b1 + b2);
    1 <= b1 && 1 <= d1 && (b2 == 0 <==> d2 == 0) && (d2 == 0 || d2 == d1 + 1) &&
    MaxCodewordsArray(index / 4 + 1) - data == ecc * (b1 + b2) &&
    ecc == ErrCorrCodewordsOf(index) &&
    7 <= ecc <= 30 && |GenArray(ecc - 7)| == ecc && d1 + 1 + ecc <= 255
  }

  lemma BlockLayoutConsistent(index: int)
    requires 0 <= index < 160
    ensures ValidBlockRow(index)
  {
    var b1 := ECBlockInfo(index, BLOCKS_GROUP1);
    var d1 := ECBlockInfo(index, DATA_CODEWORDS_GROUP1);
    var b2 := ECBlockInfo(index, BLOCKS_GROUP2);
    var d2 := ECBlockInfo(index, DATA_CODEWORDS_GROUP2);
    BlockGroups(index);
    BlockQuotient(index);
    BlockGenerator(index);
    QuotientOfExactProduct(MaxCodewordsArray(index / 4 + 1) - (b1 * d1 + b2 * d2), b1 + b2, ErrCorrCodewordsOf(index));
  }

  /** The group sizes of a row: group 2 is empty or one codeword longer. */
  lemma BlockGroups(index: int)
    requires 0 <= index < 160
    ensures var b1 := ECBlockInfo(index, BLOCKS_GROUP1);
      var d1 := ECBlockInfo(index, DATA_CODEWORDS_GROUP1);
      var b2 := ECBlockInfo(index, BLOCKS_GROUP2);
      var d2 := ECBlockInfo(index, DATA_CODEWORDS_GROUP2);
      1 <= b1 && 1 <= d1 && (b2 == 0 <==> d2 == 0) && (d2 == 0 || d2 == d1 + 1) &&
      d1 + 1 + ErrCorrCodewordsOf(index) <= 255
  {
    if index < 40 {
      BlockGroups0(index);
    } else if index < 80 {
      BlockGroups1(index);
    } else if index < 120 {
      BlockGroups2(index);
    } else {
      BlockGroups3(index);
    }
  }

  /** The generator table has a polynomial of every degree the block table uses. */
  lemma BlockGenerator(index: int)
    requires 0 <= index < 160
    ensures 7 <= ErrCorrCodewordsOf(index) <= 30
    ensures |GenArray(ErrCorrCodewordsOf(index) - 7)| == ErrCorrCodewordsOf(index)
  {
    if index < 20 {
      BlockGenerator0(index);
    } else if index < 40 {
      BlockGenerator1(index);
    } else if index < 60 {
      BlockGenerator2(index);
    } else if index < 80 {
      BlockGenerator3(index);
    } else if index < 100 {
      BlockGenerator4(index);
    } else if index < 120 {
      BlockGenerator5(index);
    } else if index < 140 {
      BlockGenerator6(index);
    } else {
      BlockGenerator7(index);
    }
  }

  /** The codewords of a version that are not data split evenly into the
   *  blocks' error correction codewords. */
  lemma BlockQuotient(index: int)
    requires 0 <= index < 160
    ensures var b1 := ECBlockInfo(index, BLOCKS_GROUP1);
      var d1 := ECBlockInfo(index, DATA_CODEWORDS_GROUP1);
      var b2 := ECBlockInfo(index, BLOCKS_GROUP2);
      var d2 := ECBlockInfo(index, DATA_CODEWORDS_GROUP2);
      ErrCorrCodewordsOf(index) * (b1 + b2) == MaxCodewordsArray(index / 4 + 1) - (b1 * d1 + b2 * d2)
  {
    if index < 20 {
      BlockQuotient0(index);
    } else if index < 40 {
      BlockQuotient1(index);
    } else if index < 60 {
      BlockQuotient2(index);
    } else if index < 80 {
      BlockQuotient3(index);
    } else if index < 100 {
      BlockQuotient4(index);
    } else if index < 120 {
      BlockQuotient5(index);
    } else if index < 140 {
      BlockQuotient6(index);
    } else {
      BlockQuotient7(index);
    }
  }

  lemma BlockGroups0(index: int)
    requires 0 <= index < 40
    ensures var b1 := ECBlockInfo(index, BLOCKS_GROUP1);
      var d1 := ECBlockInfo(index, DATA_CODEWORDS_GROUP1);
      var b2 := ECBlockInfo(index, BLOCKS_GROUP2);
      var d2 := ECBlockInfo(index, DATA_CODEWORDS_GROUP2);
      1 <= b1 && 1 <= d1 && (b2 == 0 <==> d2 == 0) && (d2 == 0 || d2 == d1 + 1) &&
      d1 + 1 + ErrCorrCodewordsOf(index) <= 255
  {
  }

  lemma BlockGroups1(index: int)
    requires 40 <= index < 80
    ensures var b1 := ECBlockInfo(index, BLOCKS_GROUP1);
      var d1 := ECBlockInfo(index, DATA_CODEWORDS_GROUP1);
      var b2 := ECBlockInfo(index, BLOCKS_GROUP2);
      var d2 := ECBlockInfo(index, DATA_CODEWORDS_GROUP2);
      1 <= b1 && 1 <= d1 && (b2 == 0 <==> d2 == 0) && (d2 == 0 || d2 == d1 + 1) &&
      d1 + 1 + ErrCorrCodewordsOf(index) <= 255
  {
  }

  lemma BlockGroups2(index: int)
    requires 80 <= index < 120
    ensures var b1 := ECBlockInfo(index, BLOCKS_GROUP1);
      var d1 := ECBlockInfo(index, DATA_CODEWORDS_GROUP1);
      var b2 := ECBlockInfo(index, BLOCKS_GROUP2);
      var d2 := ECBlockInfo(index, DATA_CODEWORDS_GROUP2);
      1 <= b1 && 1 <= d1 && (b2 == 0 <==> d2 == 0) && (d2 == 0 || d2 == d1 + 1) &&
      d1 + 1 + ErrCorrCodewordsOf(index) <= 255
  {
  }

  lemma BlockGroups3(index: int)
    requires 120 <= index < 160
    ensures var b1 := ECBlockInfo(index, BLOCKS_GROUP1);
      var d1 := ECBlockInfo(index, DATA_CODEWORDS_GROUP1);
      var b2 := ECBlockInfo(index, BLOCKS_GROUP2);
      var d2 := ECBlockInfo(index, DATA_CODEWORDS_GROUP2);
      1 <= b1 && 1 <= d1 && (b2 == 0 <==> d2 == 0) && (d2 == 0 || d2 == d1 + 1) &&
      d1 + 1 + ErrCorrCodewordsOf(index) <= 255
  {
  }

  lemma BlockGenerator0(index: int)
    requires 0 <= index < 20
    ensures 7 <= ErrCorrCodewordsOf(index) <= 30
    ensures |GenArray(ErrCorrCodewordsOf(index) - 7)| == ErrCorrCodewordsOf(index)
  {
  }

  lemma BlockGenerator1(index: int)
    requires 20 <= index < 40
    ensures 7 <= ErrCorrCodewordsOf(index) <= 30
    ensures |GenArray(ErrCorrCodewordsOf(index) - 7)| == ErrCorrCodewordsOf(index)
  {
  }

  lemma BlockGenerator2(index: int)
    requires 40 <= index < 60
    ensures 7 <= ErrCorrCodewordsOf(index) <= 30
    ensures |GenArray(ErrCorrCodewordsOf(index) - 7)| == ErrCorrCodewordsOf(index)
  {
  }

  lemma BlockGenerator3(index: int)
    requires 60 <= index < 80
    ensures 7 <= ErrCorrCodewordsOf(index) <= 30
    ensures |GenArray(ErrCorrCodewordsOf(index) - 7)| == ErrCorrCodewordsOf(index)
  {
  }

  lemma BlockGenerator4(index: int)
    requires 80 <= index < 100
    ensures 7 <= ErrCorrCodewordsOf(index) <= 30
    ensures |GenArray(ErrCorrCodewordsOf(index) - 7)| == ErrCorrCodewordsOf(index)
  {
  }

  lemma BlockGenerator5(index: int)
    requires 100 <= index < 120
    ensures 7 <= ErrCorrCodewordsOf(index) <= 30
    ensures |GenArray(ErrCorrCodewordsOf(index) - 7)| == ErrCorrCodewordsOf(index)
  {
  }

  lemma BlockGenerator6(index: int)
    requires 120 <= index < 140
    ensures 7 <= ErrCorrCodewordsOf(index) <= 30
    ensures |GenArray(ErrCorrCodewordsOf(index) - 7)| == ErrCorrCodewordsOf(index)
  {
  }

  lemma BlockGenerator7(index: int)
    requires 140 <= index < 160
    ensures 7 <= ErrCorrCodewordsOf(index) <= 30
    ensures |GenArray(ErrCorrCodewordsOf(index) - 7)| == ErrCorrCodewordsOf(index)
  {
  }

  lemma BlockQuotient0(index: int)
    requires 0 <= index < 20
    ensures var b1 := ECBlockInfo(index, BLOCKS_GROUP1);
      var d1 := ECBlockInfo(index, DATA_CODEWORDS_GROUP1);
      var b2 := ECBlockInfo(index, BLOCKS_GROUP2);
      var d2 := ECBlockInfo(index, DATA_CODEWORDS_GROUP2);
      ErrCorrCodewordsOf(index) * (b1 + b2) == MaxCodewordsArray(index / 4 + 1) - (b1 * d1 + b2 * d2)
  {
  }

  lemma BlockQuotient1(index: int)
    requires 20 <= index < 40
    ensures var b1 := ECBlockInfo(index, BLOCKS_GROUP1);
      var d1 := ECBlockInfo(index, DATA_CODEWORDS_GROUP1);
      var b2 := ECBlockInfo(index, BLOCKS_GROUP2);
      var d2 := ECBlockInfo(index, DATA_CODEWORDS_GROUP2);
      ErrCorrCodewordsOf(index) * (b1 + b2) == MaxCodewordsArray(index / 4 + 1) - (b1 * d1 + b2 * d2)
  {
  }

  lemma BlockQuotient2(index: int)
    requires 40 <= index < 60
    ensures var b1 := ECBlockInfo(index, BLOCKS_GROUP1);
      var d1 := ECBlockInfo(index, DATA_CODEWORDS_GROUP1);
      var b2 := ECBlockInfo(index, BLOCKS_GROUP2);
      var d2 := ECBlockInfo(index, DATA_CODEWORDS_GROUP2);
      ErrCorrCodewordsOf(index) * (b1 + b2) == MaxCodewordsArray(index / 4 + 1) - (b1 * d1 + b2 * d2)
  {
  }

  lemma BlockQuotient3(index: int)
    requires 60 <= index < 80
    ensures var b1 := ECBlockInfo(index, BLOCKS_GROUP1);
      var d1 := ECBlockInfo(index, DATA_CODEWORDS_GROUP1);
      var b2 := ECBlockInfo(index, BLOCKS_GROUP2);
      var d2 := ECBlockInfo(index, DATA_CODEWORDS_GROUP2);
      ErrCorrCodewordsOf(index) * (b1 + b2) == MaxCodewordsArray(index / 4 + 1) - (b1 * d1 + b2 * d2)
  {
  }

  lemma BlockQuotient4(index: int)
    requires 80 <= index < 100
    ensures var b1 := ECBlockInfo(index, BLOCKS_GROUP1);
      var d1 := ECBlockInfo(index, DATA_CODEWORDS_GROUP1);
      var b2 := ECBlockInfo(index, BLOCKS_GROUP2);
      var d2 := ECBlockInfo(index, DATA_CODEWORDS_GROUP2);
      ErrCorrCodewordsOf(index) * (b1 + b2) == MaxCodewordsArray(index / 4 + 1) - (b1 * d1 + b2 * d2)
  {
  }

  lemma BlockQuotient5(index: int)
    requires 100 <= index < 120
    ensures var b1 := ECBlockInfo(index, BLOCKS_GROUP1);
      var d1 := ECBlockInfo(index, DATA_CODEWORDS_GROUP1);
      var b2 := ECBlockInfo(index, BLOCKS_GROUP2);
      var d2 := ECBlockInfo(index, DATA_CODEWORDS_GROUP2);
      ErrCorrCodewordsOf(index) * (b1 + b2) == MaxCodewordsArray(index / 4 + 1) - (b1 * d1 + b2 * d2)
  {
  }

  lemma BlockQuotient6(index: int)
    requires 120 <= index < 140
    ensures var b1 := ECBlockInfo(index, BLOCKS_GROUP1);
      var d1 := ECBlockInfo(index, DATA_CODEWORDS_GROUP1);
      var b2 := ECBlockInfo(index, BLOCKS_GROUP2);
      var d2 := ECBlockInfo(index, DATA_CODEWORDS_GROUP2);
      ErrCorrCodewordsOf(index) * (b1 + b2) == MaxCodewordsArray(index / 4 + 1) - (b1 * d1 + b2 * d2)
  {
  }

  lemma BlockQuotient7(index: int)
    requires 140 <= index < 160
    ensures var b1 := ECBlockInfo(index, BLOCKS_GROUP1);
      var d1 := ECBlockInfo(index, DATA_CODEWORDS_GROUP1);
      var b2 := ECBlockInfo(index, BLOCKS_GROUP2);
      var d2 := ECBlockInfo(index, DATA_CODEWORDS_GROUP2);
      ErrCorrCodewordsOf(index) * (b1 + b2) == MaxCodewordsArray(index / 4 + 1) - (b1 * d1 + b2 * d2)
  {
  }

  /** Alignment pattern centres lie on the grid between the timing pattern
   *  (coordinate 6) and the last centre dim - 7 = 4 * v + 10, so that every
   *  5 by 5 pattern fits inside the symbol. Versions 0 and 1 have none. */
  ghost predicate ValidAlignmentPositions(v: int, positions: seq<int>)
  {
    (v < 2 ==> |positions| == 0) &&
    (v >= 2 ==>
       2 <= |positions| <= 7 && positions[0] == 6 && positions[|positions| - 1] == 4 * v + 10 &&
       forall i :: 0 <= i < |positions| ==> 6 <= positions[i] <= 4 * v + 10)
  }

  lemma AlignmentPositionsInside(v: int)
    requires 0 <= v <= 40
    ensures ValidAlignmentPositions(v, AlignmentPositionArray(v))
  {
    if v < 14 {
      AlignmentPositions0(v);
    } else if v < 27 {
      AlignmentPositions1(v);
    } else {
      AlignmentPositions2(v);
    }
  }

  lemma AlignmentPositions0(v: int)
    requires 0 <= v < 14
    ensures ValidAlignmentPositions(v, AlignmentPositionArray(v))
  {
  }

  lemma AlignmentPositions1(v: int)
    requires 14 <= v < 27
    ensures ValidAlignmentPositions(v, AlignmentPositionArray(v))
  {
  }

  lemma AlignmentPositions2(v: int)
    requires 27 <= v <= 40
    ensures ValidAlignmentPositions(v, AlignmentPositionArray(v))
  {
  }
}
