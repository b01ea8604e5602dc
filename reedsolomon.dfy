/** Reed-Solomon error detection and correction over GF(256) (ISO/IEC
 *  18004:2015 section 7.5): the long division that checks a block, the
 *  syndromes, the modified Berlekamp-Massey solver, the Chien search for the
 *  error positions and the Forney correction of the bytes. */
module ReedSolomon {
  import opened Bytes
  import opened Galois
  import opened CodeTables
  import opened Wrappers

  /** The exclusive or of all bytes of r (0 for none). */
  function XorSum(r: seq<Byte>): (s: Byte)
  {
    if |r| == 0 then 0 else Xor(XorSum(r[..|r| - 1]), r[|r| - 1])
  }

  /** Adding the same byte twice adds nothing. */
  lemma XorTwice(a: Byte, b: Byte)
    ensures Xor(Xor(a, b), b) == a
  {
    XorAssoc(a, b, b);
    XorSelf(b);
    XorZero(a);
  }

  /** Xor with the same byte on both sides cancels. */
  lemma XorCancel(a: Byte, b: Byte, c: Byte)
    ensures Xor(Xor(a, c), Xor(b, c)) == Xor(a, b)
  {
    XorAssoc(a, c, Xor(b, c));
    XorComm(b, c);
    XorAssoc(c, c, b);
    XorSelf(c);
    XorZero(b);
  }

  // ----- Polynomial division (the check of a block) -----

  /** The codewords after one step of the long division at position idx: the
   *  generator, scaled by the codeword at idx, is added to the |gen|
   *  codewords that follow it. A zero codeword leaves everything as it is.
   *  The codeword at idx itself is not cleared. */
  function DivisionStep(p: seq<Byte>, gen: seq<Exponent>, idx: nat): (q: seq<Byte>)
    requires idx + |gen| < |p|
    ensures |q| == |p|
  {
    if p[idx] == 0 then p
    else
      seq(|p|, i requires 0 <= i < |p| =>
        if idx < i <= idx + |gen| then Xor(p[i], Exp(gen[i - idx - 1] + Log(p[idx]))) else p[i])
  }

  /** The codewords after the first n steps of the long division. */
  function DivideUpTo(p: seq<Byte>, gen: seq<Exponent>, n: nat): (q: seq<Byte>)
    requires n + |gen| <= |p|
    ensures |q| == |p|
  {
    if n == 0 then p else DivisionStep(DivideUpTo(p, gen, n - 1), gen, n - 1)
  }

  /** The last |gen| codewords once every data codeword has been divided out:
   *  the remainder of the block by the generator polynomial. */
  function Remainder(p: seq<Byte>, gen: seq<Exponent>): (r: seq<Byte>)
    requires |gen| <= |p|
    ensures |r| == |gen|
  {
    DivideUpTo(p, gen, |p| - |gen|)[|p| - |gen|..]
  }

  /** n zero bytes. */
  function Zeros(n: nat): (z: seq<Byte>)
    ensures |z| == n && forall i :: 0 <= i < n ==> z[i] == 0
  {
    seq(n, i => 0)
  }

  predicate AllZero(r: seq<Byte>)
  {
    forall i :: 0 <= i < |r| ==> r[i] == 0
  }

  /** The error correction codewords an encoder appends to the data: the
   *  remainder of the data followed by zero codewords. */
  function CheckCodewords(data: seq<Byte>, gen: seq<Exponent>): (e: seq<Byte>)
    ensures |e| == |gen|
  {
    Remainder(data + Zeros(|gen|), gen)
  }

  /** Byte by byte exclusive or of two sequences of the same length. */
  function XorSeq(a: seq<Byte>, b: seq<Byte>): (c: seq<Byte>)
    requires |a| == |b|
    ensures |c| == |a| && forall i :: 0 <= i < |a| ==> c[i] == Xor(a[i], b[i])
  {
    seq(|a|, i requires 0 <= i < |a| => Xor(a[i], b[i]))
  }

  /** Two inputs with the same first d codewords keep the same first d
   *  codewords and the same difference after them. */
  ghost predicate SameHeadDiff(pp: seq<Byte>, qq: seq<Byte>, p: seq<Byte>, q: seq<Byte>, d: nat)
    requires |pp| == |qq| == |p| == |q| && d <= |p|
  {
    pp[..d] == qq[..d] && forall i :: d <= i < |p| ==> Xor(pp[i], qq[i]) == Xor(p[i], q[i])
  }

  /** The division steps over the first d codewords only look at those
   *  codewords, and add the same terms to both inputs. */
  lemma {:induction false} DivisionKeepsDifference(p: seq<Byte>, q: seq<Byte>, gen: seq<Exponent>, d: nat, n: nat)
    requires |p| == |q| && d + |gen| <= |p| && n <= d
    requires p[..d] == q[..d]
    ensures SameHeadDiff(DivideUpTo(p, gen, n), DivideUpTo(q, gen, n), p, q, d)
  {
    if n > 0 {
      DivisionKeepsDifference(p, q, gen, d, n - 1);
      var pp, qq := DivideUpTo(p, gen, n - 1), DivideUpTo(q, gen, n - 1);
      var idx := n - 1;
      assert pp[idx] == qq[idx] by { assert pp[..d][idx] == qq[..d][idx]; }
      var pp', qq' := DivisionStep(pp, gen, idx), DivisionStep(qq, gen, idx);
      if pp[idx] != 0 {
        forall i | 0 <= i < |p|
          ensures (i < d ==> pp'[i] == qq'[i]) && (d <= i ==> Xor(pp'[i], qq'[i]) == Xor(p[i], q[i]))
        {
          if i < d {
            assert pp[i] == pp[..d][i] == qq[..d][i] == qq[i];
          }
          if idx < i <= idx + |gen| {
            XorCancel(pp[i], qq[i], Exp(gen[i - idx - 1] + Log(pp[idx])));
          }
        }
        assert pp'[..d] == qq'[..d];
      }
    }
  }

  /** The remainder of data followed by any error correction codewords e is
   *  the remainder of the data followed by zeros, plus e. */
  lemma RemainderOfBlock(data: seq<Byte>, e: seq<Byte>, gen: seq<Exponent>)
    requires |e| == |gen|
    ensures Remainder(data + e, gen) == XorSeq(CheckCodewords(data, gen), e)
  {
    var p, q := data + e, data + Zeros(|gen|);
    var d := |data|;
    assert p[..d] == q[..d] == data;
    DivisionKeepsDifference(p, q, gen, d, d);
    var pp, qq := DivideUpTo(p, gen, d), DivideUpTo(q, gen, d);
    assert |p| - |gen| == d && |q| - |gen| == d;
    assert Remainder(p, gen) == pp[d..] && CheckCodewords(data, gen) == qq[d..];
    forall k | 0 <= k < |gen|
      ensures Remainder(p, gen)[k] == Xor(CheckCodewords(data, gen)[k], e[k])
    {
      var i := d + k;
      assert p[i] == e[k] && q[i] == 0;
      assert Xor(pp[i], qq[i]) == Xor(e[k], 0);
      XorSolve(pp[i], qq[i], e[k]);
    }
  }

  /** a + b == x + 0 gives a == b + x. */
  lemma XorSolve(a: Byte, b: Byte, x: Byte)
    requires Xor(a, b) == Xor(x, 0)
    ensures a == Xor(b, x)
  {
    XorZero(x);
    XorTwice(a, b);
    XorComm(x, b);
  }

  /** A block passes the check (its remainder is zero) exactly when its error
   *  correction codewords are those an encoder computes from its data. */
  lemma CheckPassesIffEncoded(data: seq<Byte>, e: seq<Byte>, gen: seq<Exponent>)
    requires |e| == |gen|
    ensures AllZero(Remainder(data + e, gen)) <==> e == CheckCodewords(data, gen)
  {
    RemainderOfBlock(data, e, gen);
    var c := CheckCodewords(data, gen);
    if AllZero(Remainder(data + e, gen)) {
      forall k | 0 <= k < |e|
        ensures e[k] == c[k]
      {
        assert Xor(c[k], e[k]) == 0;
        XorTwice(c[k], e[k]);
        XorZero(e[k]);
      }
    } else {
      if e == c {
        var k :| 0 <= k < |e| && Remainder(data + e, gen)[k] != 0;
        XorSelf(e[k]);
      }
    }
  }

  /** The decoder's PolynominalDivision: divides the first polyLength
   *  codewords in place by the generator, whose coefficients after the
   *  leading one are given as exponents; the last ecc of them end up holding
   *  the remainder. */
  method PolynominalDivision(polynomial: array<Byte>, polyLength: int, generator: seq<Exponent>, ecc: int)
    requires |generator| == ecc && 0 <= ecc <= polyLength <= polynomial.Length
    modifies polynomial
    ensures polynomial[..] == DivideUpTo(old(polynomial[..polyLength]), generator, polyLength - ecc) + old(polynomial[polyLength..])
  {
    ghost var p := polynomial[..polyLength];
    ghost var rest := polynomial[polyLength..];
    var dataCodewords := polyLength - ecc;
    var index := 0;
    while index < dataCodewords
      invariant 0 <= index <= dataCodewords
      invariant polynomial[..] == DivideUpTo(p, generator, index) + rest
    {
      ghost var before := DivideUpTo(p, generator, index);
      assert polynomial[index] == before[index];
      if polynomial[index] == 0 {
        index := index + 1;
        continue;
      }
      var multiplier := Log(polynomial[index]);
      AddScaledGenerator(polynomial, index, generator, multiplier, before, rest);
      index := index + 1;
    }
  }

  /** The inner loop of the division: adds alpha^multiplier times the
   *  generator to the codewords after position index, which completes one
   *  division step. */
  method AddScaledGenerator(polynomial: array<Byte>, index: int, generator: seq<Exponent>, multiplier: Exponent,
                            ghost before: seq<Byte>, ghost rest: seq<Byte>)
    requires 0 <= index && index + |generator| < |before| && polynomial[..] == before + rest
    requires before[index] != 0 && multiplier == Log(before[index])
    modifies polynomial
    ensures polynomial[..] == DivisionStep(before, generator, index) + rest
  {
    var generatorIndex := 0;
    while generatorIndex < |generator|
      invariant 0 <= generatorIndex <= |generator|
      invariant forall i :: 0 <= i < polynomial.Length ==>
        polynomial[i] ==
        if index < i <= index + generatorIndex then Xor(before[i], Exp(generator[i - index - 1] + multiplier))
        else (before + rest)[i]
    {
      var at := index + 1 + generatorIndex;
      polynomial[at] := Xor(polynomial[at], Exp(generator[generatorIndex] + multiplier));
      generatorIndex := generatorIndex + 1;
    }
    ghost var after := DivisionStep(before, generator, index);
    forall i | 0 <= i < polynomial.Length
      ensures polynomial[i] == (after + rest)[i]
    {
      if i < |before| {
        assert after[i] == if index < i <= index + |generator| then Xor(before[i], Exp(generator[i - index - 1] + multiplier)) else before[i];
      }
    }
    assert polynomial[..] == after + rest;
  }

  // ----- Syndromes -----

  /** The received codewords r evaluated at alpha^e by Horner's rule, the
   *  first codeword being the highest power. */
  function Horner(r: seq<Byte>, e: int): (s: Byte)
    requires |r| >= 1 && 0 <= e < 256
  {
    if |r| == 1 then r[0] else Xor(r[|r| - 1], MultiplyIntByExp(Horner(r[..|r| - 1], e), e))
  }

  /** At alpha^0 == 1 the evaluation is the exclusive or of all codewords. */
  lemma {:induction false} HornerAtOne(r: seq<Byte>)
    requires |r| >= 1
    ensures Horner(r, 0) == XorSum(r)
  {
    if |r| == 1 {
      assert r[..0] == [];
      XorZero(r[0]);
    } else {
      var init := r[..|r| - 1];
      HornerAtOne(init);
      var t := Horner(init, 0);
      if t != 0 {
        ExpOfLog(t);
      }
      assert MultiplyIntByExp(t, 0) == t;
      XorComm(r[|r| - 1], t);
    }
  }

  /** The syndromes of a block: the received polynomial at alpha^0 ..
   *  alpha^(ecc - 1). */
  ghost predicate SyndromesOf(syndrome: seq<Byte>, r: seq<Byte>, ecc: int)
    requires |r| >= 1 && 0 <= ecc <= 256
  {
    |syndrome| == ecc && forall e :: 0 <= e < ecc ==> syndrome[e] == Horner(r, e)
  }

  lemma SyndromesExtend(done: seq<Byte>, r: seq<Byte>, s: Byte)
    requires |r| >= 1 && |done| < 256 && SyndromesOf(done, r, |done|) && s == Horner(r, |done|)
    ensures SyndromesOf(done + [s], r, |done| + 1)
  {
  }

  /** The decoder's CalculateSyndrome: the syndromes of the first dataLength
   *  codewords, and whether any of them is non-zero (the source returns no
   *  vector at all when none is). The first syndrome is computed as the
   *  exclusive or of the codewords. */
  method CalculateSyndrome(receivedData: array<Byte>, dataLength: int, ecc: int) returns (syndrome: seq<Byte>, error: bool)
    requires 1 <= dataLength <= receivedData.Length && 1 <= ecc <= 256
    ensures SyndromesOf(syndrome, receivedData[..dataLength], ecc)
    ensures error <==> !AllZero(syndrome)
  {
    var result := new Byte[ecc];
    error := false;
    ghost var r := receivedData[..dataLength];
    var total := SumOfCodewords(receivedData, dataLength);
    HornerAtOne(r);
    result[0] := total;
    assert result[..1] == [total];
    if total != 0 {
      error := true;
    }
    var index := 1;
    while index < ecc
      invariant 1 <= index <= ecc
      invariant SyndromesOf(result[..index], r, index)
      invariant error <==> !AllZero(result[..index])
    {
      total := PolynomialAt(receivedData, dataLength, index);
      ghost var done := result[..index];
      result[index] := total;
      assert result[..index + 1] == done + [total];
      SyndromesExtend(done, r, total);
      assert AllZero(done + [total]) <==> AllZero(done) && total == 0 by {
        assert (done + [total])[|done|] == total;
        if AllZero(done) && total == 0 {
          forall i | 0 <= i < |done| + 1
            ensures (done + [total])[i] == 0
          {
            if i < |done| { assert (done + [total])[i] == done[i]; }
          }
        }
      }
      if total != 0 {
        error := true;
      }
      index := index + 1;
    }
    assert result[..] == result[..index];
    syndrome := result[..];
  }

  /** The first syndrome loop: the exclusive or of the first dataLength
   *  codewords. */
  method SumOfCodewords(receivedData: array<Byte>, dataLength: int) returns (total: Byte)
    requires 1 <= dataLength <= receivedData.Length
    ensures total == XorSum(receivedData[..dataLength])
  {
    total := receivedData[0];
    assert receivedData[..1][..0] == [];
    XorZero(receivedData[0]);
    var sumIndex := 1;
    while sumIndex < dataLength
      invariant 1 <= sumIndex <= dataLength
      invariant total == XorSum(receivedData[..sumIndex])
    {
      XorComm(receivedData[sumIndex], total);
      assert receivedData[..sumIndex + 1][..sumIndex] == receivedData[..sumIndex];
      total := Xor(receivedData[sumIndex], total);
      sumIndex := sumIndex + 1;
    }
  }

  /** The inner syndrome loop: Horner's rule at alpha^index. */
  method PolynomialAt(receivedData: array<Byte>, dataLength: int, index: int) returns (total: Byte)
    requires 1 <= dataLength <= receivedData.Length && 0 <= index < 256
    ensures total == Horner(receivedData[..dataLength], index)
  {
    total := receivedData[0];
    var indexT := 1;
    assert receivedData[..1] == [receivedData[0]];
    while indexT < dataLength
      invariant 1 <= indexT <= dataLength
      invariant total == Horner(receivedData[..indexT], index)
    {
      assert receivedData[..indexT + 1][..indexT] == receivedData[..indexT];
      total := Xor(receivedData[indexT], MultiplyIntByExp(total, index));
      indexT := indexT + 1;
    }
  }

  // ----- Polynomial product -----

  /** The term p1[i] * p2[k - i] of the coefficient of x^k of p1 * p2
   *  (zero when either index is outside its polynomial). */
  function ProductTerm(p1: seq<Byte>, p2: seq<Byte>, i: nat, k: nat): Byte
  {
    if i < |p1| && i <= k && k - i < |p2| then Multiply(p1[i], p2[k - i]) else 0
  }

  /** The sum of the first n terms of the coefficient of x^k. */
  function ProductUpTo(p1: seq<Byte>, p2: seq<Byte>, k: nat, n: nat): Byte
  {
    if n == 0 then 0 else Xor(ProductUpTo(p1, p2, k, n - 1), ProductTerm(p1, p2, n - 1, k))
  }

  /** The coefficient of x^k of the product p1 * p2 (coefficient i of a
   *  polynomial at index i). */
  function ProductCoefficient(p1: seq<Byte>, p2: seq<Byte>, k: nat): Byte
  {
    ProductUpTo(p1, p2, k, k + 1)
  }

  /** Terms past x^k or past the end of p1 add nothing. */
  lemma {:induction false} ProductUpToSaturates(p1: seq<Byte>, p2: seq<Byte>, k: nat, m: nat, n: nat)
    requires m <= n && (|p1| <= m || k + 1 <= m)
    ensures ProductUpTo(p1, p2, k, n) == ProductUpTo(p1, p2, k, m)
    decreases n - m
  {
    if n > m {
      ProductUpToSaturates(p1, p2, k, m, n - 1);
      XorZero(ProductUpTo(p1, p2, k, n - 1));
    }
  }

  /** The sum of the first n terms only depends on the first n coefficients
   *  of p1. */
  lemma {:induction false} ProductUpToPrefix(p1: seq<Byte>, q1: seq<Byte>, p2: seq<Byte>, k: nat, n: nat)
    requires n <= |p1| && n <= |q1| && p1[..n] == q1[..n]
    ensures ProductUpTo(p1, p2, k, n) == ProductUpTo(q1, p2, k, n)
  {
    if n > 0 {
      assert p1[..n - 1] == q1[..n - 1] by { assert p1[..n][..n - 1] == p1[..n - 1]; assert q1[..n][..n - 1] == q1[..n - 1]; }
      ProductUpToPrefix(p1, q1, p2, k, n - 1);
      assert p1[n - 1] == p1[..n][n - 1] == q1[..n][n - 1] == q1[n - 1];
    }
  }

  // ----- The division is a division -----

  /** The generator polynomial, highest power first: the leading 1 followed
   *  by the coefficients alpha^gen[j]. */
  function Generator(gen: seq<Exponent>): (g: seq<Byte>)
    ensures |g| == |gen| + 1 && g[0] == 1
    ensures forall j :: 0 <= j < |gen| ==> g[j + 1] == Exp(gen[j])
  {
    [1] + seq(|gen|, j requires 0 <= j < |gen| => Exp(gen[j]))
  }

  /** The generator without its leading term. */
  function GeneratorTail(gen: seq<Exponent>): (g: seq<Byte>)
    ensures |g| == |gen| + 1 && g[0] == 0
    ensures forall j :: 0 <= j < |gen| ==> g[j + 1] == Exp(gen[j])
  {
    [0] + seq(|gen|, j requires 0 <= j < |gen| => Exp(gen[j]))
  }

  /** The long division is a division by the generator g: the first |p| -
   *  |gen| codewords it leaves are the quotient q, the last |gen| the
   *  remainder r, and p == q * g + r coefficient by coefficient (both
   *  highest power first, r of degree below |gen|). */
  lemma DivisionIdentity(p: seq<Byte>, gen: seq<Exponent>)
    requires |gen| <= |p|
    ensures var d := |p| - |gen|;
      var q := DivideUpTo(p, gen, d)[..d];
      forall i :: 0 <= i < |p| ==> p[i] == Xor(ProductCoefficient(q, Generator(gen), i), (Zeros(d) + Remainder(p, gen))[i])
  {
    var d := |p| - |gen|;
    var q := DivideUpTo(p, gen, d)[..d];
    var r := Zeros(d) + Remainder(p, gen);
    forall i | 0 <= i < |p|
      ensures p[i] == Xor(ProductCoefficient(q, Generator(gen), i), r[i])
    {
      DivisionIdentityAt(p, gen, d, q, r, i);
    }
  }

  /** The division identity at coefficient i. */
  lemma DivisionIdentityAt(p: seq<Byte>, gen: seq<Exponent>, d: nat, q: seq<Byte>, r: seq<Byte>, i: nat)
    requires d + |gen| == |p| && i < |p|
    requires q == DivideUpTo(p, gen, d)[..d] && r == Zeros(d) + Remainder(p, gen)
    ensures p[i] == Xor(ProductCoefficient(q, Generator(gen), i), r[i])
  {
    var dd := DivideUpTo(p, gen, d);
    var t := GeneratorTail(gen);
    DivisionInvariant(p, gen, d, i);
    var tail := ProductUpTo(q, t, i, d);
    PrefixOf(dd, d);
    ProductUpToPrefix(dd, q, t, i, d);
    QuotientTimesGenerator(q, gen, i);
    QuotientAndRemainder(dd, d, q, r, Remainder(p, gen), i);
    XorZero(ProductCoefficient(q, Generator(gen), i));
    XorZero(tail);
    XorComm(tail, dd[i]);
  }

  /** A sequence agrees with its prefix on the prefix. */
  lemma PrefixOf(a: seq<Byte>, d: nat)
    requires d <= |a|
    ensures a[..d][..d] == a[..d]
  {
  }

  /** Codeword i left by the division is the quotient's below d and the
   *  remainder's from d on. */
  lemma QuotientAndRemainder(dd: seq<Byte>, d: nat, q: seq<Byte>, r: seq<Byte>, rem: seq<Byte>, i: nat)
    requires d <= |dd| && i < |dd| && q == dd[..d] && rem == dd[d..] && r == Zeros(d) + rem
    ensures i < d ==> r[i] == 0 && dd[i] == q[i]
    ensures i >= d ==> r[i] == dd[i]
  {
  }

  /** The product by the generator is the product by its tail plus the
   *  quotient itself for the leading 1. */
  lemma QuotientTimesGenerator(q: seq<Byte>, gen: seq<Exponent>, i: nat)
    ensures ProductCoefficient(q, Generator(gen), i)
      == Xor(ProductUpTo(q, GeneratorTail(gen), i, |q|), if i < |q| then q[i] else 0)
  {
    var m := if |q| < i + 1 then |q| else i + 1;
    ProductUpToSaturates(q, Generator(gen), i, m, i + 1);
    ProductUpToSaturates(q, GeneratorTail(gen), i, m, |q|);
    var g, t := Generator(gen), GeneratorTail(gen);
    forall j | 1 <= j < |g|
      ensures g[j] == t[j]
    {
      assert g[(j - 1) + 1] == Exp(gen[j - 1]) == t[(j - 1) + 1];
    }
    LeadingTerm(q, g, t, i, m);
  }

  /** The first n terms by a polynomial g with leading 1 and by the same
   *  polynomial t without it differ only in the term of the leading 1. */
  lemma {:induction false} LeadingTerm(q: seq<Byte>, g: seq<Byte>, t: seq<Byte>, i: nat, n: nat)
    requires |g| == |t| >= 1 && g[0] == 1 && t[0] == 0
    requires forall j :: 1 <= j < |g| ==> g[j] == t[j]
    ensures ProductUpTo(q, g, i, n) == Xor(ProductUpTo(q, t, i, n), if i < n && i < |q| then q[i] else 0)
  {
    if n == 0 {
      XorZero(0);
    } else {
      var k := n - 1;
      LeadingTerm(q, g, t, i, k);
      var a, b := ProductUpTo(q, t, i, k), ProductTerm(q, t, k, i);
      var lead := if i < k && i < |q| then q[i] else 0;
      assert ProductUpTo(q, g, i, n) == Xor(Xor(a, lead), ProductTerm(q, g, k, i));
      assert ProductUpTo(q, t, i, n) == Xor(a, b);
      if k == i && i < |q| {
        MultiplyByOne(q[i]);
        assert lead == 0 && b == 0 && ProductTerm(q, g, k, i) == q[i];
        XorZero(a);
      } else {
        assert ProductTerm(q, g, k, i) == b;
        XorSwap(a, lead, b);
      }
    }
  }

  /** The order of two additions does not matter. */
  lemma XorSwap(a: Byte, b: Byte, c: Byte)
    ensures Xor(Xor(a, b), c) == Xor(Xor(a, c), b)
  {
    XorAssoc(a, b, c);
    XorComm(b, c);
    XorAssoc(a, c, b);
  }

  /** After m steps of the long division, codeword i of p is the codeword
   *  left plus the generator's tail times the first m codewords left: each
   *  step adds the scaled tail, and the codeword it scales stays where it
   *  is. */
  lemma {:induction false} DivisionInvariant(p: seq<Byte>, gen: seq<Exponent>, m: nat, i: nat)
    requires m + |gen| <= |p| && i < |p|
    ensures p[i] == Xor(DivideUpTo(p, gen, m)[i], ProductUpTo(DivideUpTo(p, gen, m), GeneratorTail(gen), i, m))
  {
    if m == 0 {
      XorZero(p[i]);
    } else {
      DivisionInvariant(p, gen, m - 1, i);
      StepFacts(p, gen, m, i);
      InvariantStep(p[i], DivideUpTo(p, gen, m - 1), DivideUpTo(p, gen, m), GeneratorTail(gen), m - 1, m, i);
    }
  }

  /** What step m - 1 does to codeword i and to the codewords before m. */
  lemma StepFacts(p: seq<Byte>, gen: seq<Exponent>, m: nat, i: nat)
    requires 1 <= m && m + |gen| <= |p| && i < |p|
    ensures DivideUpTo(p, gen, m)[i] == Xor(DivideUpTo(p, gen, m - 1)[i], ProductTerm(DivideUpTo(p, gen, m - 1), GeneratorTail(gen), m - 1, i))
    ensures DivideUpTo(p, gen, m)[..m] == DivideUpTo(p, gen, m - 1)[..m]
  {
    StepFactAt(p, gen, m, i);
    StepFactHead(p, gen, m);
  }

  lemma StepFactAt(p: seq<Byte>, gen: seq<Exponent>, m: nat, i: nat)
    requires 1 <= m && m + |gen| <= |p| && i < |p|
    ensures DivideUpTo(p, gen, m)[i] == Xor(DivideUpTo(p, gen, m - 1)[i], ProductTerm(DivideUpTo(p, gen, m - 1), GeneratorTail(gen), m - 1, i))
  {
    DivideUpToNext(p, gen, m);
    StepAddsTerm(DivideUpTo(p, gen, m - 1), gen, m - 1, i);
  }

  lemma StepFactHead(p: seq<Byte>, gen: seq<Exponent>, m: nat)
    requires 1 <= m && m + |gen| <= |p|
    ensures DivideUpTo(p, gen, m)[..m] == DivideUpTo(p, gen, m - 1)[..m]
  {
    DivideUpToNext(p, gen, m);
    StepKeepsHead(DivideUpTo(p, gen, m - 1), gen, m - 1, m);
  }

  /** Step m - 1 of the long division. */
  lemma DivideUpToNext(p: seq<Byte>, gen: seq<Exponent>, m: nat)
    requires 1 <= m && m + |gen| <= |p|
    ensures DivideUpTo(p, gen, m) == DivisionStep(DivideUpTo(p, gen, m - 1), gen, m - 1)
  {
  }

  /** One step keeps the invariant at codeword i: it adds the scaled tail
   *  at codeword i and keeps the codewords up to the one it scales. */
  lemma InvariantStep(x: Byte, dd: seq<Byte>, dd': seq<Byte>, t: seq<Byte>, idx: nat, m: nat, i: nat)
    requires m == idx + 1 && m <= |dd| == |dd'| && i < |dd|
    requires dd'[i] == Xor(dd[i], ProductTerm(dd, t, idx, i)) && dd'[..m] == dd[..m]
    requires x == Xor(dd[i], ProductUpTo(dd, t, i, idx))
    ensures x == Xor(dd'[i], ProductUpTo(dd', t, i, m))
  {
    var term := ProductTerm(dd, t, idx, i);
    HeadOf(dd', dd, idx, m);
    ProductUpToPrefix(dd', dd, t, i, idx);
    ProductTermAt(dd', dd, t, idx, i);
    ProductUpToNext(dd', t, i, idx, m);
    XorCancel(dd[i], ProductUpTo(dd, t, i, idx), term);
  }

  /** Equal first m codewords give equal first m - 1 and equal codeword m - 1. */
  lemma HeadOf(a: seq<Byte>, b: seq<Byte>, idx: nat, m: nat)
    requires m == idx + 1 && m <= |a| && m <= |b| && a[..m] == b[..m]
    ensures a[..idx] == b[..idx] && a[idx] == b[idx]
  {
    assert a[..idx] == a[..m][..idx];
    assert b[..idx] == b[..m][..idx];
    assert a[idx] == a[..m][idx];
  }

  /** A term only depends on the coefficient of p1 it scales. */
  lemma ProductTermAt(p1: seq<Byte>, q1: seq<Byte>, p2: seq<Byte>, k: nat, i: nat)
    requires k < |p1| && k < |q1| && p1[k] == q1[k]
    ensures ProductTerm(p1, p2, k, i) == ProductTerm(q1, p2, k, i)
  {
  }

  /** The sum of the first m terms is the sum of the first m - 1 plus term m
   *  - 1. */
  lemma ProductUpToNext(p1: seq<Byte>, p2: seq<Byte>, k: nat, idx: nat, m: nat)
    requires m == idx + 1
    ensures ProductUpTo(p1, p2, k, m) == Xor(ProductUpTo(p1, p2, k, idx), ProductTerm(p1, p2, idx, k))
  {
  }

  /** A step at idx leaves the codewords up to idx as they are. */
  lemma StepKeepsHead(dd: seq<Byte>, gen: seq<Exponent>, idx: nat, m: nat)
    requires m == idx + 1 && idx + |gen| < |dd|
    ensures DivisionStep(dd, gen, idx)[..m] == dd[..m]
  {
    var step := DivisionStep(dd, gen, idx);
    forall j | 0 <= j <= idx
      ensures step[j] == dd[j]
    {
      StepAt(dd, gen, idx, j);
    }
  }

  /** One division step at idx adds the codeword at idx times the generator's
   *  tail, shifted to idx. */
  lemma StepAddsTerm(dd: seq<Byte>, gen: seq<Exponent>, idx: nat, i: nat)
    requires idx + |gen| < |dd| && i < |dd|
    ensures DivisionStep(dd, gen, idx)[i] == Xor(dd[i], ProductTerm(dd, GeneratorTail(gen), idx, i))
  {
    var t := GeneratorTail(gen);
    var c := dd[idx];
    var step := DivisionStep(dd, gen, idx);
    if c == 0 {
      assert step == dd;
      assert ProductTerm(dd, t, idx, i) == 0;
      XorZero(dd[i]);
    } else if idx < i <= idx + |gen| {
      var e := gen[i - idx - 1];
      StepAt(dd, gen, idx, i);
      assert ProductTerm(dd, t, idx, i) == Multiply(c, Exp(e));
      MultiplyIntByExpIsProduct(c, e);
    } else {
      StepAt(dd, gen, idx, i);
      assert ProductTerm(dd, t, idx, i) == 0 by {
        if idx <= i && i - idx < |t| {
          assert i == idx && t[0] == 0;
        }
      }
      XorZero(dd[i]);
    }
  }

  /** Codeword i after a division step at idx. */
  lemma StepAt(dd: seq<Byte>, gen: seq<Exponent>, idx: nat, i: nat)
    requires idx + |gen| < |dd| && i < |dd|
    ensures DivisionStep(dd, gen, idx)[i] ==
      if dd[idx] != 0 && idx < i <= idx + |gen| then Xor(dd[i], Exp(gen[i - idx - 1] + Log(dd[idx]))) else dd[i]
  {
    if dd[idx] != 0 {
      assert DivisionStep(dd, gen, idx) == seq(|dd|, j requires 0 <= j < |dd| =>
        if idx < j <= idx + |gen| then Xor(dd[j], Exp(gen[j - idx - 1] + Log(dd[idx]))) else dd[j]);
    }
  }

  /** The coefficients of the result hold the sums of their first n terms, or
   *  all of them. */
  ghost predicate ProductRows(result: seq<Byte>, p1: seq<Byte>, p2: seq<Byte>, n: nat)
  {
    forall k :: 0 <= k < |result| ==> result[k] == ProductUpTo(p1, p2, k, if n < k + 1 then n else k + 1)
  }

  /** The decoder's PolynomialMultiply: the product of two polynomials,
   *  truncated to the length of the result array. */
  method PolynomialMultiply(result: array<Byte>, poly1: seq<Byte>, poly2: seq<Byte>)
    modifies result
    ensures forall k :: 0 <= k < result.Length ==> result[k] == ProductCoefficient(poly1, poly2, k)
  {
    forall k | 0 <= k < result.Length {
      result[k] := 0;
    }
    var index1 := 0;
    while index1 < |poly1|
      invariant 0 <= index1 <= |poly1|
      invariant ProductRows(result[..], poly1, poly2, index1)
    {
      AddProductRow(result, poly1, poly2, index1);
      index1 := index1 + 1;
    }
    forall k | 0 <= k < result.Length
      ensures result[k] == ProductCoefficient(poly1, poly2, k)
    {
      if |poly1| < k + 1 {
        ProductUpToSaturates(poly1, poly2, k, |poly1|, k + 1);
      }
    }
  }

  /** One pass of the outer loop of PolynomialMultiply: adds poly1[index1]
   *  times poly2, shifted by index1, to the result. */
  method AddProductRow(result: array<Byte>, poly1: seq<Byte>, poly2: seq<Byte>, index1: int)
    requires 0 <= index1 < |poly1| && ProductRows(result[..], poly1, poly2, index1)
    modifies result
    ensures ProductRows(result[..], poly1, poly2, index1 + 1)
  {
    ghost var before := result[..];
    var nonZero := poly1[index1] != 0;
    if nonZero {
      var loga := Log(poly1[index1]);
      var index2End := if |poly2| < result.Length - index1 then |poly2| else result.Length - index1;
      AddShiftedProduct(result, loga, poly2, index1, index2End);
    }
    forall k | 0 <= k < result.Length
      ensures result[k] == ProductUpTo(poly1, poly2, k, if index1 + 1 < k + 1 then index1 + 1 else k + 1)
    {
      if index1 <= k {
        var t := ProductTerm(poly1, poly2, index1, k);
        assert before[k] == ProductUpTo(poly1, poly2, k, index1);
        assert ProductUpTo(poly1, poly2, k, index1 + 1) == Xor(before[k], t);
        if t == 0 {
          XorZero(before[k]);
          assert result[k] == before[k];
        } else {
          assert nonZero && k - index1 < |poly2| && poly2[k - index1] != 0;
          assert result[k] == Xor(before[k], t);
        }
      } else {
        assert result[k] == before[k];
      }
    }
  }

  /** The inner loop of PolynomialMultiply: adds alpha^loga * poly2, shifted
   *  by index1, to the first index1 + index2End coefficients. */
  method AddShiftedProduct(result: array<Byte>, loga: Exponent, poly2: seq<Byte>, index1: nat, index2End: int)
    requires index2End <= |poly2| && index1 + index2End <= result.Length
    modifies result
    ensures forall k :: 0 <= k < result.Length ==>
      result[k] == if index1 <= k < index1 + index2End && poly2[k - index1] != 0
        then Xor(old(result[k]), Exp(loga + Log(poly2[k - index1]))) else old(result[k])
  {
    var index2 := 0;
    while index2 < index2End
      invariant 0 <= index2 <= if index2End < 0 then 0 else index2End
      invariant forall k :: 0 <= k < result.Length ==>
        result[k] == if index1 <= k < index1 + index2 && poly2[k - index1] != 0
          then Xor(old(result[k]), Exp(loga + Log(poly2[k - index1]))) else old(result[k])
    {
      if poly2[index2] != 0 {
        result[index1 + index2] := Xor(result[index1 + index2], Exp(loga + Log(poly2[index2])));
      }
      index2 := index2 + 1;
    }
  }

  // ----- Modified Berlekamp-Massey -----

  /** The source's constant for a block that cannot be corrected. */
  const INCORRECTABLE_ERROR := -1

  /** Coefficient j of s, zero outside it. */
  function Coefficient(s: seq<Byte>, j: int): Byte
  {
    if 0 <= j < |s| then s[j] else 0
  }

  /** The discrepancy of step idx after its first n terms: the syndrome plus
   *  the syndromes before it weighted by the coefficients 1 .. n of polyB. */
  function DiscrepancySum(polyB: seq<Byte>, syndrome: seq<Byte>, idx: int, n: int): Byte
    requires 0 <= idx < |syndrome|
  {
    if n <= 0 then syndrome[idx]
    else Xor(DiscrepancySum(polyB, syndrome, idx, n - 1), Multiply(Coefficient(polyB, n), Coefficient(syndrome, idx - n)))
  }

  /** polyB plus alpha^disExp times polyC in the coefficients 0 .. n, and
   *  zero above. */
  function CorrectedPoly(polyB: seq<Byte>, polyC: seq<Byte>, disExp: Exponent, n: int): (w: seq<Byte>)
    requires |polyB| == |polyC|
    ensures |w| == |polyB|
  {
    seq(|polyB|, i requires 0 <= i < |polyB| => if i <= n then Xor(polyB[i], MultiplyIntByExp(polyC[i], disExp)) else 0)
  }

  /** polyC with the coefficients 0 .. n replaced by those of polyB divided
   *  by alpha^disExp. */
  function RescaledPoly(polyB: seq<Byte>, polyC: seq<Byte>, disExp: Exponent, n: int): (c: seq<Byte>)
    requires |polyB| == |polyC|
    ensures |c| == |polyC|
  {
    seq(|polyC|, i requires 0 <= i < |polyC| => if i <= n then DivideIntByExp(polyB[i], disExp) else polyC[i])
  }

  /** polyC times x: its first coefficients up to n move up by one, the
   *  constant term becomes zero and the coefficients above n + 1 stay. */
  function ShiftedPoly(polyC: seq<Byte>, n: int): (c: seq<Byte>)
    ensures |c| == |polyC|
  {
    seq(|polyC|, i requires 0 <= i < |polyC| => if i == 0 then 0 else if i <= n then polyC[i - 1] else polyC[i])
  }

  /** The state of the modified Berlekamp-Massey algorithm between two
   *  syndromes: the locator polyB, the connection polynomial polyC, the
   *  number of its coefficients in use (ErrorControl), the number of
   *  errors (ErrorCount, the length L of the locator) and the step m of the
   *  last length change relative to L. */
  datatype Locator = Locator(polyB: seq<Byte>, polyC: seq<Byte>, control: int, count: int, m: int)

  /** A state whose polynomials have ecc coefficients. */
  predicate Sized(st: Locator, ecc: int)
  {
    |st.polyB| == ecc && |st.polyC| == ecc
  }

  /** The state before the first syndrome: polyB == 1, polyC == x. */
  function InitialLocator(ecc: int): (st: Locator)
    requires 2 <= ecc
    ensures Sized(st, ecc)
  {
    Locator(Zeros(ecc)[0 := 1], Zeros(ecc)[1 := 1], 1, 0, -1)
  }

  /** One step of the algorithm at syndrome idx: a non-zero discrepancy
   *  corrects the locator with the connection polynomial and, when the
   *  locator must grow, makes the old locator the new connection
   *  polynomial; a locator longer than ecc / 2 stops the algorithm (None).
   *  The connection polynomial then moves up by one coefficient. */
  function LocatorStep(syndrome: seq<Byte>, ecc: int, st: Locator, idx: int): (next: Option<Locator>)
    requires 0 <= idx < |syndrome| && Sized(st, ecc)
    ensures next.Some? ==> Sized(next.value, ecc)
  {
    var dis := DiscrepancySum(st.polyB, syndrome, idx, st.count);
    var grown :=
      if dis == 0 then Some(st)
      else
        var disExp := Log(dis);
        var work := CorrectedPoly(st.polyB, st.polyC, disExp, idx);
        var js := idx - st.m;
        if js <= st.count then Some(Locator(work, st.polyC, st.control, st.count, st.m))
        else if js > ecc / 2 then None
        else Some(Locator(work, RescaledPoly(st.polyB, st.polyC, disExp, st.control), js, js, idx - st.count));
    if grown.None? then None
    else
      var g := grown.value;
      Some(Locator(g.polyB, ShiftedPoly(g.polyC, g.control), g.control + 1, g.count, g.m))
  }

  /** The state after the first n syndromes, None once a step has stopped
   *  the algorithm. */
  function Locate(syndrome: seq<Byte>, ecc: int, n: int): (st: Option<Locator>)
    requires 2 <= ecc && 0 <= n <= |syndrome|
    ensures st.Some? ==> Sized(st.value, ecc)
  {
    if n == 0 then Some(InitialLocator(ecc))
    else
      var prev := Locate(syndrome, ecc, n - 1);
      if prev.None? then None else LocatorStep(syndrome, ecc, prev.value, n - 1)
  }

  /** A stopped algorithm stays stopped. */
  lemma {:induction false} LocateStopped(syndrome: seq<Byte>, ecc: int, n: int, n': int)
    requires 2 <= ecc && 0 <= n <= n' <= |syndrome| && Locate(syndrome, ecc, n).None?
    ensures Locate(syndrome, ecc, n').None?
    decreases n' - n
  {
    if n' > n {
      LocateStopped(syndrome, ecc, n, n' - 1);
    }
  }

  /** The state after n + 1 syndromes is one step from the state after n. */
  lemma LocateNext(syndrome: seq<Byte>, ecc: int, n: int, st: Locator)
    requires 2 <= ecc && 0 <= n < |syndrome| && Locate(syndrome, ecc, n) == Some(st)
    ensures Sized(st, ecc) && Locate(syndrome, ecc, n + 1) == LocatorStep(syndrome, ecc, st, n)
  {
  }

  /** A step with a zero discrepancy only shifts the connection polynomial. */
  lemma StepQuiet(syndrome: seq<Byte>, ecc: int, st: Locator, idx: int)
    requires 0 <= idx < |syndrome| && Sized(st, ecc)
    requires DiscrepancySum(st.polyB, syndrome, idx, st.count) == 0
    ensures LocatorStep(syndrome, ecc, st, idx) ==
      Some(Locator(st.polyB, ShiftedPoly(st.polyC, st.control), st.control + 1, st.count, st.m))
  {
  }

  /** A step with a non-zero discrepancy that keeps the length corrects the
   *  locator. */
  lemma StepKeep(syndrome: seq<Byte>, ecc: int, st: Locator, idx: int, dis: Byte)
    requires 0 <= idx < |syndrome| && Sized(st, ecc)
    requires dis == DiscrepancySum(st.polyB, syndrome, idx, st.count) && dis != 0 && idx - st.m <= st.count
    ensures LocatorStep(syndrome, ecc, st, idx) ==
      Some(Locator(CorrectedPoly(st.polyB, st.polyC, Log(dis), idx), ShiftedPoly(st.polyC, st.control), st.control + 1, st.count, st.m))
  {
  }

  /** A step with a non-zero discrepancy that lengthens the locator within
   *  ecc / 2 also makes the old locator the connection polynomial. */
  lemma StepGrow(syndrome: seq<Byte>, ecc: int, st: Locator, idx: int, dis: Byte)
    requires 0 <= idx < |syndrome| && Sized(st, ecc)
    requires dis == DiscrepancySum(st.polyB, syndrome, idx, st.count) && dis != 0
    requires st.count < idx - st.m <= ecc / 2
    ensures LocatorStep(syndrome, ecc, st, idx) ==
      Some(Locator(CorrectedPoly(st.polyB, st.polyC, Log(dis), idx),
                   ShiftedPoly(RescaledPoly(st.polyB, st.polyC, Log(dis), st.control), idx - st.m),
                   idx - st.m + 1, idx - st.m, idx - st.count))
  {
  }

  /** A step that would lengthen the locator beyond ecc / 2 stops. */
  lemma StepStop(syndrome: seq<Byte>, ecc: int, st: Locator, idx: int, dis: Byte)
    requires 0 <= idx < |syndrome| && Sized(st, ecc)
    requires dis == DiscrepancySum(st.polyB, syndrome, idx, st.count) && dis != 0
    requires st.count < idx - st.m && ecc / 2 < idx - st.m
    ensures LocatorStep(syndrome, ecc, st, idx).None?
  {
  }

  /** The discrepancy of step errCorrIndex: the syndrome plus the syndromes
   *  before it weighted by the coefficients 1 .. errorCount of polyB. */
  method Discrepancy(polyB: seq<Byte>, syndrome: seq<Byte>, errCorrIndex: int, errorCount: int) returns (dis: Byte)
    requires 0 <= errorCount <= errCorrIndex < |syndrome| && errorCount < |polyB|
    ensures dis == DiscrepancySum(polyB, syndrome, errCorrIndex, errorCount)
  {
    dis := syndrome[errCorrIndex];
    var i := 1;
    while i <= errorCount
      invariant 1 <= i <= errorCount + 1
      invariant dis == DiscrepancySum(polyB, syndrome, errCorrIndex, i - 1)
    {
      assert DiscrepancySum(polyB, syndrome, errCorrIndex, i) == Xor(dis, Multiply(polyB[i], syndrome[errCorrIndex - i]));
      dis := Xor(dis, Multiply(polyB[i], syndrome[errCorrIndex - i]));
      i := i + 1;
    }
  }

  /** polyB plus alpha^disExp times polyC in the coefficients 0 ..
   *  errCorrIndex, zero above. */
  method NextPolyB(polyB: seq<Byte>, polyC: seq<Byte>, disExp: Exponent, errCorrIndex: int) returns (workPolyB: seq<Byte>)
    requires |polyB| == |polyC| && 0 <= errCorrIndex < |polyB| && polyB[0] == 1 && polyC[0] == 0
    ensures workPolyB == CorrectedPoly(polyB, polyC, disExp, errCorrIndex)
    ensures workPolyB[0] == 1
  {
    workPolyB := Zeros(|polyB|);
    var index := 0;
    while index <= errCorrIndex
      invariant 0 <= index <= errCorrIndex + 1 && |workPolyB| == |polyB|
      invariant index > 0 ==> workPolyB[0] == 1
      invariant forall i :: 0 <= i < |polyB| ==>
        workPolyB[i] == if i < index then Xor(polyB[i], MultiplyIntByExp(polyC[i], disExp)) else 0
    {
      workPolyB := workPolyB[index := Xor(polyB[index], MultiplyIntByExp(polyC[index], disExp))];
      if index == 0 {
        XorZero(1);
      }
      index := index + 1;
    }
  }

  /** polyC with its coefficients 0 .. errorControl replaced by those of
   *  polyB divided by alpha^disExp. */
  method ScaledPolyB(polyB: seq<Byte>, polyC: seq<Byte>, disExp: Exponent, errorControl: int) returns (c: seq<Byte>)
    requires |polyB| == |polyC| && 0 <= errorControl < |polyC|
    ensures c == RescaledPoly(polyB, polyC, disExp, errorControl)
  {
    c := polyC;
    var index := 0;
    while index <= errorControl
      invariant 0 <= index <= errorControl + 1 && |c| == |polyC|
      invariant forall i :: 0 <= i < |c| ==> c[i] == if i < index then DivideIntByExp(polyB[i], disExp) else polyC[i]
    {
      c := c[index := DivideIntByExp(polyB[index], disExp)];
      index := index + 1;
    }
  }

  /** The shift of the connection polynomial by one coefficient: the first
   *  min(|polyC| - 1, errorControl) coefficients move up by one (an
   *  overlapping Array.Copy) and the constant term becomes zero. */
  method ShiftRight(polyC: seq<Byte>, errorControl: int) returns (c: seq<Byte>)
    requires 1 <= |polyC| && 0 <= errorControl
    ensures c == ShiftedPoly(polyC, errorControl)
  {
    var count := if |polyC| - 1 < errorControl then |polyC| - 1 else errorControl;
    c := polyC[..1] + polyC[..count] + polyC[count + 1..];
    c := c[0 := 0];
  }

  /** The decoder's CalculateSigmaMBM: the modified Berlekamp-Massey
   *  algorithm. It finds the error locator polynomial sigma (coefficient i at
   *  index i) and the error evaluator omega, the product of sigma and the
   *  syndrome polynomial truncated to its first ecc / 2 + 1 coefficients, and
   *  returns the number of errors; a count above ecc / 2 cannot be corrected
   *  and gives INCORRECTABLE_ERROR with sigma and omega untouched. */
  method CalculateSigmaMBM(sigma: array<Byte>, omega: array<Byte>, syndrome: seq<Byte>, ecc: int) returns (errorCount: int)
    requires 2 <= ecc && |syndrome| == ecc
    requires sigma.Length == ecc / 2 + 2 && omega.Length == ecc / 2 + 1 && sigma != omega
    modifies sigma, omega
    ensures errorCount == INCORRECTABLE_ERROR || 0 <= errorCount <= ecc / 2
    ensures !AllZero(syndrome) ==> errorCount != 0
    ensures errorCount == INCORRECTABLE_ERROR ==> sigma[..] == old(sigma[..]) && omega[..] == old(omega[..])
    ensures errorCount >= 0 ==> sigma[0] == 1
    ensures errorCount >= 0 ==> forall k :: 0 <= k < omega.Length ==> omega[k] == ProductCoefficient(sigma[..], syndrome, k)
    ensures errorCount == INCORRECTABLE_ERROR <==> Locate(syndrome, ecc, ecc).None?
    ensures errorCount >= 0 ==> errorCount == Locate(syndrome, ecc, ecc).value.count
    ensures errorCount >= 0 ==> forall i :: 0 <= i < sigma.Length ==>
      sigma[i] == if i < ecc then Locate(syndrome, ecc, ecc).value.polyB[i] else old(sigma[i])
  {
    var polyB;
    errorCount, polyB := LocatorSteps(syndrome, ecc);
    if errorCount < 0 {
      return;
    }

    PolynomialMultiply(omega, polyB, syndrome);
    var copied := if |polyB| < sigma.Length then |polyB| else sigma.Length;
    forall i | 0 <= i < copied {
      sigma[i] := polyB[i];
    }
    forall k | 0 <= k < omega.Length
      ensures omega[k] == ProductCoefficient(sigma[..], syndrome, k)
    {
      assert polyB[..k + 1] == sigma[..][..k + 1];
      ProductUpToPrefix(polyB, sigma[..], syndrome, k, k + 1);
    }
  }

  /** The loop of CalculateSigmaMBM over the ecc syndromes: the locator
   *  polynomial polyB (constant term 1) and the number of errors, which stays
   *  0 only while every syndrome is 0; a count above ecc / 2 stops it with
   *  INCORRECTABLE_ERROR. */
  method LocatorSteps(syndrome: seq<Byte>, ecc: int) returns (errorCount: int, polyB: seq<Byte>)
    requires 2 <= ecc && |syndrome| == ecc
    ensures errorCount == INCORRECTABLE_ERROR || 0 <= errorCount <= ecc / 2
    ensures !AllZero(syndrome) ==> errorCount != 0
    ensures |polyB| == ecc && polyB[0] == 1
    ensures errorCount == INCORRECTABLE_ERROR <==> Locate(syndrome, ecc, ecc).None?
    ensures errorCount >= 0 ==> Locate(syndrome, ecc, ecc).value.count == errorCount && Locate(syndrome, ecc, ecc).value.polyB == polyB
  {
    var stop, errCorrIndex, polyC, errorControl, m;
    ghost var u, lPrev;
    stop, errCorrIndex, polyB, polyC, errorControl, errorCount, m, u, lPrev := LocatorLoop(syndrome, ecc);
    if stop {
      LocateStopped(syndrome, ecc, errCorrIndex + 1, ecc);
      return INCORRECTABLE_ERROR, polyB;
    }
    TrackedEnd(syndrome, ecc, Locator(polyB, polyC, errorControl, errorCount, m), u, lPrev);
  }

  /** The initialisation and the loop of CalculateSigmaMBM: either every
   *  syndrome has been taken in and the state is Locate's after the last
   *  one, or the step at errCorrIndex stopped the algorithm. */
  method LocatorLoop(syndrome: seq<Byte>, ecc: int)
    returns (stop: bool, errCorrIndex: int, polyB: seq<Byte>, polyC: seq<Byte>, errorControl: int, errorCount: int, m: int,
             ghost u: int, ghost lPrev: int)
    requires 2 <= ecc && |syndrome| == ecc
    ensures 0 <= errCorrIndex <= ecc
    ensures stop ==> errCorrIndex < ecc && Locate(syndrome, ecc, errCorrIndex + 1).None? && |polyB| == ecc && polyB[0] == 1
    ensures !stop ==> errCorrIndex == ecc
    ensures !stop ==> Locate(syndrome, ecc, errCorrIndex) == Some(Locator(polyB, polyC, errorControl, errorCount, m))
    ensures !stop ==> Tracked(syndrome, ecc, errCorrIndex, Locator(polyB, polyC, errorControl, errorCount, m), u, lPrev)
  {
    polyC := Zeros(ecc)[1 := 1];
    polyB := Zeros(ecc)[0 := 1];
    errorControl := 1;
    errorCount := 0;
    m := -1;
    // the step of the last length change and the length before it
    u := -1;
    lPrev := 0;
    TrackedStart(syndrome, ecc);

    errCorrIndex := 0;
    stop := false;
    while errCorrIndex < ecc
      invariant 0 <= errCorrIndex <= ecc && !stop
      invariant Tracked(syndrome, ecc, errCorrIndex, Locator(polyB, polyC, errorControl, errorCount, m), u, lPrev)
      invariant Locate(syndrome, ecc, errCorrIndex) == Some(Locator(polyB, polyC, errorControl, errorCount, m))
    {
      stop, polyB, polyC, errorControl, errorCount, m, u, lPrev :=
        LocatorRound(syndrome, ecc, errCorrIndex, polyB, polyC, errorControl, errorCount, m, u, lPrev);
      if stop {
        return;
      }
      errCorrIndex := errCorrIndex + 1;
    }
  }

  /** The bookkeeping holds for the initial state. */
  lemma TrackedStart(syndrome: seq<Byte>, ecc: int)
    requires 2 <= ecc && |syndrome| == ecc
    ensures Tracked(syndrome, ecc, 0, InitialLocator(ecc), -1, 0)
    ensures Locate(syndrome, ecc, 0) == Some(InitialLocator(ecc))
  {
  }

  /** After the last syndrome the locator has ecc coefficients and constant
   *  term 1, and its length is at most ecc / 2 and non-zero unless every
   *  syndrome is zero. */
  lemma TrackedEnd(syndrome: seq<Byte>, ecc: int, st: Locator, u: int, lPrev: int)
    requires 2 <= ecc && |syndrome| == ecc && Tracked(syndrome, ecc, ecc, st, u, lPrev)
    ensures |st.polyB| == ecc && st.polyB[0] == 1 && 0 <= st.count <= ecc / 2
    ensures !AllZero(syndrome) ==> st.count != 0
  {
  }

  /** Step errCorrIndex of the loop of LocatorSteps: the state follows
   *  Locate, and the bookkeeping is kept unless the step stops. */
  method LocatorRound(syndrome: seq<Byte>, ecc: int, errCorrIndex: int,
                      polyB: seq<Byte>, polyC: seq<Byte>, errorControl: int, errorCount: int, m: int,
                      ghost u: int, ghost lPrev: int)
    returns (stop: bool, polyB': seq<Byte>, polyC': seq<Byte>, errorControl': int, errorCount': int, m': int,
             ghost u': int, ghost lPrev': int)
    requires 2 <= ecc && |syndrome| == ecc && 0 <= errCorrIndex < ecc
    requires Tracked(syndrome, ecc, errCorrIndex, Locator(polyB, polyC, errorControl, errorCount, m), u, lPrev)
    requires Locate(syndrome, ecc, errCorrIndex) == Some(Locator(polyB, polyC, errorControl, errorCount, m))
    ensures stop <==> Locate(syndrome, ecc, errCorrIndex + 1).None?
    ensures stop ==> |polyB'| == ecc && polyB'[0] == 1
    ensures !stop ==> Locate(syndrome, ecc, errCorrIndex + 1) == Some(Locator(polyB', polyC', errorControl', errorCount', m'))
    ensures !stop ==> Tracked(syndrome, ecc, errCorrIndex + 1, Locator(polyB', polyC', errorControl', errorCount', m'), u', lPrev')
  {
    ghost var st := Locator(polyB, polyC, errorControl, errorCount, m);
    LocateNext(syndrome, ecc, errCorrIndex, st);
    stop, polyB', polyC', errorControl', errorCount', m' :=
      Advance(syndrome, ecc, errCorrIndex, polyB, polyC, errorControl, errorCount, m);
    u', lPrev' := u, lPrev;
    if !stop {
      u', lPrev' := StepTracked(syndrome, ecc, errCorrIndex, st, u, lPrev);
    }
  }

  /** The bookkeeping of the loop of CalculateSigmaMBM before step idx, with
   *  u the step of the last length change and lPrev the length before it:
   *  both polynomials have ecc coefficients, the locator has constant term
   *  1 and the connection polynomial 0, the length is at most ecc / 2, and
   *  it is still 0 only while every syndrome so far is 0. */
  ghost predicate Tracked(syndrome: seq<Byte>, ecc: int, idx: int, st: Locator, u: int, lPrev: int)
    requires 0 <= idx <= |syndrome|
  {
    2 <= ecc && |st.polyB| == ecc && |st.polyC| == ecc && st.polyB[0] == 1 && st.polyC[0] == 0 &&
    0 <= lPrev <= st.count <= idx && st.count <= ecc / 2 &&
    -1 <= u < idx && st.m == u - lPrev && -1 <= st.m &&
    st.control == st.count + idx - u &&
    (st.count == 0 ==> st.m == -1 && forall i :: 0 <= i < idx ==> syndrome[i] == 0)
  }

  /** A step of the algorithm that does not stop keeps the bookkeeping, with
   *  u and lPrev moved to this step when the length grows. */
  lemma StepTracked(syndrome: seq<Byte>, ecc: int, idx: int, st: Locator, u: int, lPrev: int) returns (u': int, lPrev': int)
    requires 2 <= ecc && |syndrome| == ecc && 0 <= idx < ecc
    requires Tracked(syndrome, ecc, idx, st, u, lPrev)
    requires LocatorStep(syndrome, ecc, st, idx).Some?
    ensures Tracked(syndrome, ecc, idx + 1, LocatorStep(syndrome, ecc, st, idx).value, u', lPrev')
  {
    var dis := DiscrepancySum(st.polyB, syndrome, idx, st.count);
    var next := LocatorStep(syndrome, ecc, st, idx).value;
    if dis == 0 {
      StepQuiet(syndrome, ecc, st, idx);

      u', lPrev' := u, lPrev;
    } else if idx - st.m <= st.count {
      StepKeep(syndrome, ecc, st, idx, dis);
      XorZero(1);
      u', lPrev' := u, lPrev;
    } else {
      StepGrow(syndrome, ecc, st, idx, dis);
      XorZero(1);
      u', lPrev' := idx, st.count;
    }
  }

  /** One pass of the loop of CalculateSigmaMBM at syndrome errCorrIndex,
   *  as LocatorStep describes it; stop when the locator would grow beyond
   *  ecc / 2. */
  method Advance(syndrome: seq<Byte>, ecc: int, errCorrIndex: int,
                 polyB: seq<Byte>, polyC: seq<Byte>, errorControl: int, errorCount: int, m: int)
    returns (stop: bool, polyB': seq<Byte>, polyC': seq<Byte>, errorControl': int, errorCount': int, m': int)
    requires 2 <= ecc && |syndrome| == ecc && 0 <= errCorrIndex < ecc
    requires |polyB| == ecc && |polyC| == ecc && polyB[0] == 1 && polyC[0] == 0
    requires 0 <= errorCount <= errCorrIndex && -1 <= m && 0 <= errorControl <= errorCount + errCorrIndex - m
    ensures stop <==> LocatorStep(syndrome, ecc, Locator(polyB, polyC, errorControl, errorCount, m), errCorrIndex).None?
    ensures stop ==> polyB' == polyB
    ensures !stop ==> LocatorStep(syndrome, ecc, Locator(polyB, polyC, errorControl, errorCount, m), errCorrIndex)
                      == Some(Locator(polyB', polyC', errorControl', errorCount', m'))
  {
    ghost var st := Locator(polyB, polyC, errorControl, errorCount, m);
    var dis := Discrepancy(polyB, syndrome, errCorrIndex, errorCount);
    if dis == 0 {
      StepQuiet(syndrome, ecc, st, errCorrIndex);
      polyC' := ShiftRight(polyC, errorControl);
      return false, polyB, polyC', errorControl + 1, errorCount, m;
    }
    var disExp := Log(dis);
    var workPolyB := NextPolyB(polyB, polyC, disExp, errCorrIndex);
    var js := errCorrIndex - m;
    if js <= errorCount {
      StepKeep(syndrome, ecc, st, errCorrIndex, dis);
      polyC' := ShiftRight(polyC, errorControl);
      return false, workPolyB, polyC', errorControl + 1, errorCount, m;
    }
    if js > ecc / 2 {
      StepStop(syndrome, ecc, st, errCorrIndex, dis);
      return true, polyB, polyC, errorControl, errorCount, m;
    }
    StepGrow(syndrome, ecc, st, errCorrIndex, dis);
    var scaled := ScaledPolyB(polyB, polyC, disExp, errorControl);
    polyC' := ShiftRight(scaled, js);
    return false, workPolyB, polyC', js + 1, js, errCorrIndex - errorCount;
  }

  // ----- Chien search -----

  /** The error locator with coefficients sigma[1 .. n] and constant term 1 at
   *  alpha^e, every power reduced modulo 255. */
  function LocatorSum(sigma: seq<Byte>, e: int, n: nat): Byte
    requires n < |sigma| && 0 <= e
  {
    if n == 0 then 1 else Xor(LocatorSum(sigma, e, n - 1), MultiplyIntByExp(sigma[n], (e * n) % 255))
  }

  /** The exponents d below n, in increasing order, whose power alpha^d
   *  locates an error: the locator vanishes at the inverse alpha^(255 - d). */
  ghost function Roots(sigma: seq<Byte>, count: nat, n: nat): (rs: seq<int>)
    requires count < |sigma| && n <= 255
    ensures |rs| <= n
    ensures forall j :: 0 <= j < |rs| ==> 0 <= rs[j] < n
  {
    if n == 0 then []
    else Roots(sigma, count, n - 1) + (if LocatorSum(sigma, 255 - (n - 1), count) == 0 then [n - 1] else [])
  }

  /** Roots lists every zero of the locator below n, and nothing else, in
   *  increasing order. */
  lemma RootsAreTheZeros(sigma: seq<Byte>, count: nat, n: nat)
    requires count < |sigma| && n <= 255
    ensures forall j, k :: 0 <= j < k < |Roots(sigma, count, n)| ==> Roots(sigma, count, n)[j] < Roots(sigma, count, n)[k]
    ensures forall d :: 0 <= d < n ==> (d in Roots(sigma, count, n) <==> LocatorSum(sigma, 255 - d, count) == 0)
  {
    RootsIncreasing(sigma, count, n);
    RootsMembers(sigma, count, n);
  }

  lemma {:induction false} RootsIncreasing(sigma: seq<Byte>, count: nat, n: nat)
    requires count < |sigma| && n <= 255
    ensures forall j, k :: 0 <= j < k < |Roots(sigma, count, n)| ==> Roots(sigma, count, n)[j] < Roots(sigma, count, n)[k]
  {
    if n > 0 {
      RootsIncreasing(sigma, count, n - 1);
      var rs := Roots(sigma, count, n - 1);
      var r := Roots(sigma, count, n);
      forall j, k | 0 <= j < k < |r|
        ensures r[j] < r[k]
      {
        assert r[j] == rs[j];
        if k < |rs| {
          assert r[k] == rs[k];
        } else {
          assert r[k] == n - 1;
        }
      }
    }
  }

  lemma {:induction false} RootsMembers(sigma: seq<Byte>, count: nat, n: nat)
    requires count < |sigma| && n <= 255
    ensures forall d :: 0 <= d < n ==> (d in Roots(sigma, count, n) <==> LocatorSum(sigma, 255 - d, count) == 0)
  {
    if n > 0 {
      RootsMembers(sigma, count, n - 1);
      RootsMembersStep(sigma, count, n - 1, n);
    }
  }

  /** One more exponent scanned: the list gains it exactly when it is a root. */
  lemma RootsMembersStep(sigma: seq<Byte>, count: nat, last: nat, n: nat)
    requires count < |sigma| && n <= 255 && last + 1 == n
    requires forall d :: 0 <= d < last ==> (d in Roots(sigma, count, last) <==> LocatorSum(sigma, 255 - d, count) == 0)
    ensures forall d :: 0 <= d < n ==> (d in Roots(sigma, count, n) <==> LocatorSum(sigma, 255 - d, count) == 0)
  {
    var rs := Roots(sigma, count, last);
    var r := Roots(sigma, count, n);
    var isRoot := LocatorSum(sigma, 255 - last, count) == 0;
    if isRoot {
      assert r == rs + [last];
      SeqMemberAppend(rs, last);
    } else {
      assert r == rs;
    }
    forall d | 0 <= d < n
      ensures d in r <==> LocatorSum(sigma, 255 - d, count) == 0
    {
      if d < last {
        assert d in rs <==> LocatorSum(sigma, 255 - d, count) == 0;
        assert d != last;
      } else {
        assert d == last && (d in r <==> isRoot);
      }
    }
  }

  /** Membership in a list extended by one element. */
  lemma SeqMemberAppend(rs: seq<int>, x: int)
    ensures forall d :: d in rs + [x] <==> d in rs || d == x
  {
  }

  /** Scanning further only extends the list of roots. */
  lemma {:induction false} RootsPrefix(sigma: seq<Byte>, count: nat, n: nat, n': nat)
    requires count < |sigma| && n <= n' <= 255
    ensures Roots(sigma, count, n) <= Roots(sigma, count, n')
    decreases n' - n
  {
    if n < n' {
      RootsPrefix(sigma, count, n, n' - 1);
      var rs := Roots(sigma, count, n' - 1);
      assert rs <= Roots(sigma, count, n');
    }
  }

  /** The positions alpha^d of the roots rs, last root first. */
  ghost function PositionsOf(rs: seq<int>): (ps: seq<Byte>)
    requires forall j :: 0 <= j < |rs| ==> 0 <= rs[j] < 255
    ensures |ps| == |rs|
    ensures forall j :: 0 <= j < |rs| ==> ps[j] == Exp(rs[|rs| - 1 - j])
  {
    if |rs| == 0 then [] else [Exp(rs[|rs| - 1])] + PositionsOf(rs[..|rs| - 1])
  }

  /** The remaining error position: sigma1, the sum of all error positions,
   *  with the positions of the roots rs taken away. */
  ghost function LastPosition(sigma1: Byte, rs: seq<int>): Byte
    requires forall j :: 0 <= j < |rs| ==> 0 <= rs[j] < 255
  {
    if |rs| == 0 then sigma1 else Xor(LastPosition(sigma1, rs[..|rs| - 1]), Exp(rs[|rs| - 1]))
  }

  /** The state of the Chien search after the exponents below n: the roots
   *  found so far fill the positions after posIndex, latest first, and
   *  lastPosition is sigma[1] with them taken away. */
  ghost predicate Scanned(s: seq<Byte>, count: nat, n: nat, posIndex: int, lastPosition: Byte, placed: seq<Byte>)
    requires 1 <= count < |s| && n <= 255
  {
    var rs := Roots(s, count, n);
    posIndex == count - 1 - |rs| && lastPosition == LastPosition(s[1], rs) && placed == PositionsOf(rs)
  }

  /** A root at exponent n is placed before the earlier ones. */
  lemma ScannedRoot(s: seq<Byte>, count: nat, n: nat, posIndex: int, lastPosition: Byte, placed: seq<Byte>)
    requires 1 <= count < |s| && n < 255 && Scanned(s, count, n, posIndex, lastPosition, placed)
    requires LocatorSum(s, 255 - n, count) == 0
    ensures Scanned(s, count, n + 1, posIndex - 1, Xor(lastPosition, Exp(n)), [Exp(n)] + placed)
  {
    var rs := Roots(s, count, n);
    var rs' := rs + [n];
    assert Roots(s, count, n + 1) == rs';
    assert rs'[..|rs'| - 1] == rs && rs'[|rs'| - 1] == n;
    assert LastPosition(s[1], rs') == Xor(LastPosition(s[1], rs), Exp(n));
    assert PositionsOf(rs') == [Exp(n)] + PositionsOf(rs);
  }

  /** An exponent that is not a root changes nothing. */
  lemma ScannedOther(s: seq<Byte>, count: nat, n: nat, posIndex: int, lastPosition: Byte, placed: seq<Byte>)
    requires 1 <= count < |s| && n < 255 && Scanned(s, count, n, posIndex, lastPosition, placed)
    requires LocatorSum(s, 255 - n, count) != 0
    ensures Scanned(s, count, n + 1, posIndex, lastPosition, placed)
  {
    assert Roots(s, count, n + 1) == Roots(s, count, n);
  }

  /** Once all errorCount - 1 roots are found, they are the first roots of
   *  the whole block. */
  lemma ScannedAll(s: seq<Byte>, count: nat, n: nat, dataLength: nat, lastPosition: Byte, placed: seq<Byte>)
    requires 1 <= count < |s| && n <= dataLength <= 255 && Scanned(s, count, n, 0, lastPosition, placed)
    ensures var rs := Roots(s, count, dataLength);
      |rs| >= count - 1 && lastPosition == LastPosition(s[1], rs[..count - 1]) && placed == PositionsOf(rs[..count - 1])
  {
    RootsPrefix(s, count, n, dataLength);
    assert Roots(s, count, dataLength)[..count - 1] == Roots(s, count, n);
  }

  /** The locator of errorCount errors at alpha^e. */
  method LocatorAt(sigma: array<Byte>, errorCount: int, e: int) returns (total: Byte)
    requires 1 <= errorCount < sigma.Length && 0 <= e
    ensures total == LocatorSum(sigma[..], e, errorCount)
  {
    ghost var s := sigma[..];
    total := 1;
    var index := 1;
    while index <= errorCount
      invariant 1 <= index <= errorCount + 1 && total == LocatorSum(s, e, index - 1)
    {
      assert s[index] == sigma[index];
      total := Xor(total, MultiplyIntByExp(sigma[index], (e * index) % 255));
      index := index + 1;
    }
    assert index - 1 == errorCount;
  }

  /** Positions of roots below n have logarithms below n. */
  lemma PositionsInside(rs: seq<int>, n: int)
    requires n <= 255 && forall j :: 0 <= j < |rs| ==> 0 <= rs[j] < n
    ensures forall j :: 0 <= j < |rs| ==> Log(PositionsOf(rs)[j]) < n
  {
    forall j | 0 <= j < |rs|
      ensures Log(PositionsOf(rs)[j]) < n
    {
      LogOfExp(rs[|rs| - 1 - j]);
    }
  }

  /** Stores a found position just before the ones already placed. */
  method PlaceRoot(errorPosition: array<Byte>, posIndex: int, position: Byte)
    requires 0 <= posIndex < errorPosition.Length
    modifies errorPosition
    ensures errorPosition[posIndex..] == [position] + old(errorPosition[posIndex + 1..])
  {
    errorPosition[posIndex] := position;
    assert errorPosition[posIndex + 1..] == old(errorPosition[posIndex + 1..]);
  }

  /** The scan of the Chien search: the exponents 0 .. dataLength - 1 in
   *  turn, each root stored before the previous ones, until errorCount - 1
   *  roots are found (complete) or the block is exhausted. */
  method FindRoots(errorPosition: array<Byte>, dataLength: int, errorCount: int, sigma: array<Byte>)
    returns (complete: bool, lastPosition: Byte)
    requires 2 <= errorCount < sigma.Length && errorPosition.Length == errorCount && errorPosition != sigma
    requires 0 <= dataLength <= 255
    modifies errorPosition
    ensures var rs := Roots(sigma[..], errorCount, dataLength);
      complete <==> |rs| >= errorCount - 1
    ensures complete ==>
      var rs := Roots(sigma[..], errorCount, dataLength)[..errorCount - 1];
      lastPosition == LastPosition(sigma[1], rs) && errorPosition[1..] == PositionsOf(rs)
  {
    ghost var s := sigma[..];
    lastPosition := sigma[1];
    var posIndex := errorCount - 1;
    var dataIndex := 0;
    assert Scanned(s, errorCount, 0, posIndex, lastPosition, errorPosition[posIndex + 1..]);
    while dataIndex < dataLength
      invariant 0 <= dataIndex <= dataLength && s == sigma[..] && 1 <= posIndex < errorCount
      invariant Scanned(s, errorCount, dataIndex, posIndex, lastPosition, errorPosition[posIndex + 1..])
    {
      posIndex, lastPosition := ScanOne(errorPosition, errorCount, sigma, dataIndex, posIndex, lastPosition, s);
      dataIndex := dataIndex + 1;
      if posIndex == 0 {
        ScannedAll(s, errorCount, dataIndex, dataLength, lastPosition, errorPosition[1..]);
        return true, lastPosition;
      }
    }
    return false, lastPosition;
  }

  /** One exponent of the scan: a root is placed before the earlier ones and
   *  taken away from the last position. */
  method ScanOne(errorPosition: array<Byte>, errorCount: int, sigma: array<Byte>, dataIndex: int,
                 posIndex: int, lastPosition: Byte, ghost s: seq<Byte>)
    returns (posIndex': int, lastPosition': Byte)
    requires 2 <= errorCount < sigma.Length && errorPosition.Length == errorCount && errorPosition != sigma
    requires 0 <= dataIndex < 255 && s == sigma[..] && 1 <= posIndex < errorCount
    requires Scanned(s, errorCount, dataIndex, posIndex, lastPosition, errorPosition[posIndex + 1..])
    modifies errorPosition
    ensures posIndex - 1 <= posIndex' <= posIndex
    ensures Scanned(s, errorCount, dataIndex + 1, posIndex', lastPosition', errorPosition[posIndex' + 1..])
  {
    var total := LocatorAt(sigma, errorCount, 255 - dataIndex);
    if total == 0 {
      var position := Exp(dataIndex);
      ScannedRoot(s, errorCount, dataIndex, posIndex, lastPosition, errorPosition[posIndex + 1..]);
      lastPosition' := Xor(lastPosition, position);
      PlaceRoot(errorPosition, posIndex, position);
      posIndex' := posIndex - 1;
    } else {
      ScannedOther(s, errorCount, dataIndex, posIndex, lastPosition, errorPosition[posIndex + 1..]);
      posIndex', lastPosition' := posIndex, lastPosition;
    }
  }

  /** The decoder's ChienSearch. With errorCount errors the locator needs
   *  errorCount - 1 roots among the first dataLength exponents (none for a
   *  single error); the last position is sigma[1] with the found positions
   *  taken away. The search succeeds exactly when those roots exist and the
   *  last position also lies inside the block; errorPosition then holds the
   *  last position followed by the found positions, latest first. */
  method ChienSearch(errorPosition: array<Byte>, dataLength: int, errorCount: int, sigma: array<Byte>) returns (found: bool)
    requires 1 <= errorCount < sigma.Length && errorPosition.Length == errorCount && errorPosition != sigma
    requires 0 <= dataLength <= 255
    modifies errorPosition
    ensures var rs := Roots(sigma[..], errorCount, dataLength);
      found <==> |rs| >= errorCount - 1 && Log(LastPosition(sigma[1], rs[..errorCount - 1])) < dataLength
    ensures found ==>
      var rs := Roots(sigma[..], errorCount, dataLength)[..errorCount - 1];
      errorPosition[..] == [LastPosition(sigma[1], rs)] + PositionsOf(rs)
    ensures found ==> forall j :: 0 <= j < errorCount ==> Log(errorPosition[j]) < dataLength
  {
    // one error
    if errorCount == 1 {
      assert Roots(sigma[..], errorCount, dataLength)[..0] == [];
      if Log(sigma[1]) >= dataLength {
        return false;
      }
      errorPosition[0] := sigma[1];
      assert errorPosition[..] == [sigma[1]];
      return true;
    }

    var complete, lastPosition := FindRoots(errorPosition, dataLength, errorCount, sigma);
    if !complete || Log(lastPosition) >= dataLength {
      return false;
    }
    errorPosition[0] := lastPosition;
    assert errorPosition[..] == [lastPosition] + errorPosition[1..];
    PositionsInside(Roots(sigma[..], errorCount, dataLength)[..errorCount - 1], dataLength);
    return true;
  }

  // ----- Correction -----

  /** The error evaluator omega at alpha^zlog, coefficients 0 .. n - 1. */
  function EvaluatorSum(omega: seq<Byte>, zlog: int, n: nat): Byte
    requires 1 <= n <= |omega| && 0 <= zlog
  {
    if n == 1 then omega[0] else Xor(EvaluatorSum(omega, zlog, n - 1), MultiplyIntByExp(omega[n - 1], (zlog * (n - 1)) % 255))
  }

  /** The formal derivative of the locator at alpha^zlog, which keeps only
   *  the odd coefficients: sigma[1] plus sigma[2t + 1] alpha^(2t zlog) for
   *  the first t values of t from 1. */
  function DerivativeSum(sigma: seq<Byte>, zlog: int, t: nat): Byte
    requires 2 * t + 1 < |sigma| && 0 <= zlog
  {
    if t == 0 then sigma[1] else Xor(DerivativeSum(sigma, zlog, t - 1), MultiplyIntByExp(sigma[2 * t + 1], (zlog * (2 * t)) % 255))
  }

  /** The error value at position ps by the Forney formula: the evaluator
   *  over the derivative of the locator at the inverse of ps, times ps. */
  function Magnitude(ps: Byte, omega: seq<Byte>, sigma: seq<Byte>, count: nat): Byte
    requires 1 <= count <= |omega| && count < |sigma|
  {
    var zlog := 255 - Log(ps);
    MultiplyDivide(ps, EvaluatorSum(omega, zlog, count), DerivativeSum(sigma, zlog, (count - 1) / 2))
  }

  /** The codewords after the first k corrections: value j is added to the
   *  codeword position j locates, counted from the end of the block of
   *  dataLength codewords. */
  function Patched(data: seq<Byte>, dataLength: int, positions: seq<Byte>, values: seq<Byte>, k: nat): (r: seq<Byte>)
    requires k <= |positions| && k <= |values| && 0 <= dataLength <= |data|
    requires forall j :: 0 <= j < k ==> Log(positions[j]) < dataLength
    ensures |r| == |data|
  {
    if k == 0 then data
    else
      var d := Patched(data, dataLength, positions, values, k - 1);
      var at := dataLength - 1 - Log(positions[k - 1]);
      d[at := Xor(d[at], values[k - 1])]
  }

  /** A correction touches only the codewords the positions locate, all
   *  inside the block. */
  lemma {:induction false} PatchedConfined(data: seq<Byte>, dataLength: int, positions: seq<Byte>, values: seq<Byte>, k: nat)
    requires k <= |positions| && k <= |values| && 0 <= dataLength <= |data|
    requires forall j :: 0 <= j < k ==> Log(positions[j]) < dataLength
    ensures forall i :: 0 <= i < |data| && (forall j :: 0 <= j < k ==> i != dataLength - 1 - Log(positions[j])) ==>
      Patched(data, dataLength, positions, values, k)[i] == data[i]
    ensures Patched(data, dataLength, positions, values, k)[dataLength..] == data[dataLength..]
  {
    if k > 0 {
      PatchedConfined(data, dataLength, positions, values, k - 1);
    }
  }

  lemma PatchedNext(data: seq<Byte>, dataLength: int, positions: seq<Byte>, values: seq<Byte>, k: nat)
    requires k < |positions| && k < |values| && 0 <= dataLength <= |data|
    requires forall j :: 0 <= j <= k ==> Log(positions[j]) < dataLength
    ensures var d := Patched(data, dataLength, positions, values, k);
      var at := dataLength - 1 - Log(positions[k]);
      Patched(data, dataLength, positions, values, k + 1) == d[at := Xor(d[at], values[k])]
  {
  }

  /** The error values of the first count positions. */
  ghost function Magnitudes(positions: seq<Byte>, omega: seq<Byte>, sigma: seq<Byte>, count: nat): (v: seq<Byte>)
    requires 1 <= count <= |omega| && count < |sigma| && count <= |positions|
    ensures |v| == count
  {
    seq(count, j requires 0 <= j < count => Magnitude(positions[j], omega, sigma, count))
  }

  lemma MagnitudesAt(positions: seq<Byte>, omega: seq<Byte>, sigma: seq<Byte>, count: nat, j: nat)
    requires 1 <= count <= |omega| && count < |sigma| && count <= |positions| && j < count
    ensures Magnitudes(positions, omega, sigma, count)[j] == Magnitude(positions[j], omega, sigma, count)
  {
  }

  /** The error value at position ps. */
  method ErrorValue(ps: Byte, omega: array<Byte>, sigma: array<Byte>, errorCount: int) returns (v: Byte)
    requires 1 <= errorCount <= omega.Length && errorCount < sigma.Length
    ensures v == Magnitude(ps, omega[..], sigma[..], errorCount)
  {
    var zlog := 255 - Log(ps);
    var omegaTotal := EvaluatorAt(omega, zlog, errorCount);
    var sigmaTotal := DerivativeAt(sigma, zlog, errorCount);
    v := MultiplyDivide(ps, omegaTotal, sigmaTotal);
    MagnitudeOf(ps, omega[..], sigma[..], errorCount, omegaTotal, sigmaTotal);
  }

  lemma MagnitudeOf(ps: Byte, omega: seq<Byte>, sigma: seq<Byte>, count: nat, omegaTotal: Byte, sigmaTotal: Byte)
    requires 1 <= count <= |omega| && count < |sigma|
    requires omegaTotal == EvaluatorSum(omega, 255 - Log(ps), count)
    requires sigmaTotal == DerivativeSum(sigma, 255 - Log(ps), (count - 1) / 2)
    ensures Magnitude(ps, omega, sigma, count) == MultiplyDivide(ps, omegaTotal, sigmaTotal)
  {
  }

  /** The error evaluator at alpha^zlog. */
  method EvaluatorAt(omega: array<Byte>, zlog: int, errorCount: int) returns (total: Byte)
    requires 1 <= errorCount <= omega.Length && 0 <= zlog
    ensures total == EvaluatorSum(omega[..], zlog, errorCount)
  {
    total := omega[0];
    var index := 1;
    while index < errorCount
      invariant 1 <= index <= errorCount && total == EvaluatorSum(omega[..], zlog, index)
    {
      assert zlog * index == zlog * (index + 1 - 1);
      total := Xor(total, MultiplyIntByExp(omega[index], (zlog * index) % 255));
      index := index + 1;
    }
  }

  /** The derivative of the locator at alpha^zlog. */
  method DerivativeAt(sigma: array<Byte>, zlog: int, errorCount: int) returns (total: Byte)
    requires 1 <= errorCount < sigma.Length && 0 <= zlog
    ensures total == DerivativeSum(sigma[..], zlog, (errorCount - 1) / 2)
  {
    total := sigma[1];
    var j := 2;
    ghost var t := 0;
    while j < errorCount
      invariant j == 2 * (t + 1) && 0 <= 2 * t < errorCount
      invariant total == DerivativeSum(sigma[..], zlog, t)
    {
      DerivativeStep(sigma[..], zlog, t, j);
      total := Xor(total, MultiplyIntByExp(sigma[j + 1], (zlog * j) % 255));
      j, t := j + 2, t + 1;
    }
    HalfOfCount(errorCount, t);
  }

  lemma DerivativeStep(sigma: seq<Byte>, zlog: int, t: nat, j: int)
    requires j == 2 * (t + 1) && j + 1 < |sigma| && 0 <= zlog
    ensures DerivativeSum(sigma, zlog, t + 1)
      == Xor(DerivativeSum(sigma, zlog, t), MultiplyIntByExp(sigma[j + 1], (zlog * j) % 255))
  {
  }

  lemma HalfOfCount(count: int, t: nat)
    requires count - 1 == 2 * t || count - 1 == 2 * t + 1
    ensures (count - 1) / 2 == t
  {
  }

  /** Adds an error value to the codeword that position ps locates. */
  method AddErrorValue(receivedData: array<Byte>, dataLength: int, ps: Byte, value: Byte)
    requires Log(ps) < dataLength <= receivedData.Length
    modifies receivedData
    ensures var at := dataLength - 1 - Log(ps);
      receivedData[..] == old(receivedData[..])[at := Xor(old(receivedData[at]), value)]
  {
    var at := dataLength - 1 - Log(ps);
    receivedData[at] := Xor(receivedData[at], value);
  }

  /** Correction errIndex of ApplyCorrection: the error value of position
   *  errIndex added to the codeword it locates. */
  method CorrectOne(receivedData: array<Byte>, dataLength: int, errorCount: int, errorPosition: array<Byte>,
                    sigma: array<Byte>, omega: array<Byte>, errIndex: int,
                    ghost data: seq<Byte>, ghost positions: seq<Byte>, ghost values: seq<Byte>)
    requires 1 <= errorCount == errorPosition.Length && errorCount < sigma.Length && errorCount <= omega.Length
    requires 0 <= errIndex < errorCount && 0 <= dataLength <= receivedData.Length == |data|
    requires positions == errorPosition[..] && values == Magnitudes(positions, omega[..], sigma[..], errorCount)
    requires forall j :: 0 <= j < errorCount ==> Log(positions[j]) < dataLength
    requires receivedData[..] == Patched(data, dataLength, positions, values, errIndex)
    requires receivedData != errorPosition && receivedData != sigma && receivedData != omega
    modifies receivedData
    ensures receivedData[..] == Patched(data, dataLength, positions, values, errIndex + 1)
  {
    var ps := errorPosition[errIndex];
    var value := ErrorValue(ps, omega, sigma, errorCount);
    MagnitudesAt(positions, omega[..], sigma[..], errorCount, errIndex);
    assert value == values[errIndex];
    PatchedNext(data, dataLength, positions, values, errIndex);
    ghost var before := receivedData[..];
    AddErrorValue(receivedData, dataLength, ps, value);
    ghost var at := dataLength - 1 - Log(ps);
    assert receivedData[..] == before[at := Xor(before[at], value)];
  }

  /** The decoder's ApplyCorrection: adds to each located codeword its error
   *  value, in the order of the positions. */
  method ApplyCorrection(receivedData: array<Byte>, dataLength: int, errorCount: int, errorPosition: array<Byte>,
                         sigma: array<Byte>, omega: array<Byte>)
    requires 1 <= errorCount == errorPosition.Length && errorCount < sigma.Length && errorCount <= omega.Length
    requires 0 <= dataLength <= receivedData.Length
    requires forall j :: 0 <= j < errorCount ==> Log(errorPosition[j]) < dataLength
    requires receivedData != errorPosition && receivedData != sigma && receivedData != omega
    modifies receivedData
    ensures receivedData[..] == Patched(old(receivedData[..]), dataLength, errorPosition[..],
                                        Magnitudes(errorPosition[..], omega[..], sigma[..], errorCount), errorCount)
  {
    ghost var data := receivedData[..];
    ghost var positions := errorPosition[..];
    ghost var values := Magnitudes(positions, omega[..], sigma[..], errorCount);
    assert forall j :: 0 <= j < errorCount ==> Log(positions[j]) < dataLength;
    for errIndex := 0 to errorCount
      invariant errorPosition[..] == positions && values == Magnitudes(positions, omega[..], sigma[..], errorCount)
      invariant receivedData[..] == Patched(data, dataLength, positions, values, errIndex)
    {
      CorrectOne(receivedData, dataLength, errorCount, errorPosition, sigma, omega, errIndex, data, positions, values);
    }
  }

  /** The syndromes of a block: the block at alpha^0 .. alpha^(ecc - 1). */
  function Syndromes(r: seq<Byte>, ecc: int): (s: seq<Byte>)
    requires |r| >= 1 && 0 <= ecc <= 256
    ensures |s| == ecc && forall e :: 0 <= e < ecc ==> s[e] == Horner(r, e)
  {
    seq(ecc, e requires 0 <= e < ecc => Horner(r, e))
  }

  /** A running algorithm never holds a locator longer than ecc / 2. */
  lemma {:induction false} LocateBounded(syndrome: seq<Byte>, ecc: int, n: int)
    requires 2 <= ecc && 0 <= n <= |syndrome|
    ensures Locate(syndrome, ecc, n).Some? ==> 0 <= Locate(syndrome, ecc, n).value.count <= ecc / 2
  {
    if n > 0 {
      LocateBounded(syndrome, ecc, n - 1);
    }
  }

  /** The locator as the array sigma holds it: the first coefficients of
   *  polyB, zero past them. */
  function SigmaOf(polyB: seq<Byte>, ecc: int): (sigma: seq<Byte>)
    requires 0 <= ecc
    ensures |sigma| == ecc / 2 + 2
  {
    seq(ecc / 2 + 2, i requires 0 <= i < ecc / 2 + 2 => if i < |polyB| then polyB[i] else 0)
  }

  /** The error evaluator as the array omega holds it: the product of the
   *  locator and the syndrome polynomial up to x^(ecc / 2). */
  function OmegaOf(sigma: seq<Byte>, syndrome: seq<Byte>, ecc: int): (omega: seq<Byte>)
    requires 0 <= ecc
    ensures |omega| == ecc / 2 + 1
  {
    seq(ecc / 2 + 1, k requires 0 <= k < ecc / 2 + 1 => ProductCoefficient(sigma, syndrome, k))
  }

  /** The outcome of correcting a block: the value CorrectData returns and
   *  the codewords it leaves. */
  datatype Outcome = Outcome(errors: int, data: seq<Byte>)

  /** What CorrectData does to a block, stage by stage: the syndromes of
   *  its first dataLength codewords; none non-zero gives 0; otherwise the
   *  Berlekamp-Massey locator, INCORRECTABLE_ERROR when it stops or finds no
   *  error; the Chien search for count - 1 roots and the last position,
   *  INCORRECTABLE_ERROR when they are missing or outside the block; and
   *  finally the Forney error values added at the located codewords. */
  ghost function CorrectionOf(block: seq<Byte>, dataLength: int, ecc: int): (c: Outcome)
    requires 1 <= dataLength <= |block| && dataLength <= 255 && 2 <= ecc <= 256
    ensures |c.data| == |block| && c.data[dataLength..] == block[dataLength..]
    ensures c.errors == INCORRECTABLE_ERROR || 0 <= c.errors <= ecc / 2
    ensures c.errors == 0 <==> AllZero(Syndromes(block[..dataLength], ecc))
    ensures c.errors <= 0 ==> c.data == block
  {
    var syndrome := Syndromes(block[..dataLength], ecc);
    if AllZero(syndrome) then Outcome(0, block)
    else
      var located := Locate(syndrome, ecc, ecc);
      if located.None? || located.value.count <= 0 then Outcome(INCORRECTABLE_ERROR, block)
      else
        LocateBounded(syndrome, ecc, ecc);
        var count := located.value.count;
        var sigma := SigmaOf(located.value.polyB, ecc);
        var rs := Roots(sigma, count, dataLength);
        if |rs| < count - 1 || Log(LastPosition(sigma[1], rs[..count - 1])) >= dataLength then
          Outcome(INCORRECTABLE_ERROR, block)
        else
          var positions := [LastPosition(sigma[1], rs[..count - 1])] + PositionsOf(rs[..count - 1]);
          PositionsInside(rs[..count - 1], dataLength);
          var values := Magnitudes(positions, OmegaOf(sigma, syndrome, ecc), sigma, count);
          PatchedConfined(block, dataLength, positions, values, count);
          Outcome(count, Patched(block, dataLength, positions, values, count))
  }

  /** Codewords past the block neither steer a correction nor are reached
   *  by it: correcting the block alone gives the same outcome. */
  lemma CorrectionOfPrefix(block: seq<Byte>, dataLength: int, ecc: int)
    requires 1 <= dataLength <= |block| && dataLength <= 255 && 2 <= ecc <= 256
    ensures CorrectionOf(block, dataLength, ecc).errors == CorrectionOf(block[..dataLength], dataLength, ecc).errors
    ensures CorrectionOf(block, dataLength, ecc).data[..dataLength] == CorrectionOf(block[..dataLength], dataLength, ecc).data
  {
    var inside := block[..dataLength];
    assert inside[..dataLength] == block[..dataLength];
    var c := CorrectionOf(block, dataLength, ecc);
    if c.errors > 0 {
      var syndrome := Syndromes(block[..dataLength], ecc);
      var located := Locate(syndrome, ecc, ecc);
      LocateBounded(syndrome, ecc, ecc);
      var count := located.value.count;
      var sigma := SigmaOf(located.value.polyB, ecc);
      var rs := Roots(sigma, count, dataLength);
      var positions := [LastPosition(sigma[1], rs[..count - 1])] + PositionsOf(rs[..count - 1]);
      PositionsInside(rs[..count - 1], dataLength);
      var values := Magnitudes(positions, OmegaOf(sigma, syndrome, ecc), sigma, count);
      PatchedPrefix(block, dataLength, positions, values, count);
    }
  }

  /** The first dataLength codewords after a correction depend only on the
   *  first dataLength before it. */
  lemma {:induction false} PatchedPrefix(data: seq<Byte>, dataLength: int, positions: seq<Byte>, values: seq<Byte>, k: nat)
    requires k <= |positions| && k <= |values| && 0 <= dataLength <= |data|
    requires forall j :: 0 <= j < k ==> Log(positions[j]) < dataLength
    ensures Patched(data, dataLength, positions, values, k)[..dataLength]
      == Patched(data[..dataLength], dataLength, positions, values, k)
  {
    if k > 0 {
      PatchedPrefix(data, dataLength, positions, values, k - 1);
    }
  }

  /** The positions at which two blocks differ. */
  function Changed(a: seq<Byte>, b: seq<Byte>): set<int>
    requires |a| == |b|
  {
    set i | 0 <= i < |a| && a[i] != b[i]
  }

  /** k corrections change at most k codewords. */
  lemma {:induction false} PatchedChanges(data: seq<Byte>, dataLength: int, positions: seq<Byte>, values: seq<Byte>, k: nat)
    requires k <= |positions| && k <= |values| && 0 <= dataLength <= |data|
    requires forall j :: 0 <= j < k ==> Log(positions[j]) < dataLength
    ensures |Changed(data, Patched(data, dataLength, positions, values, k))| <= k
  {
    if k == 0 {
      assert Changed(data, data) == {};
    } else {
      PatchedChanges(data, dataLength, positions, values, k - 1);
      var at := dataLength - 1 - Log(positions[k - 1]);
      var before := Changed(data, Patched(data, dataLength, positions, values, k - 1));
      var after := Changed(data, Patched(data, dataLength, positions, values, k));
      assert after <= before + {at};
      SubsetSize(after, before + {at});
    }
  }

  lemma SubsetSize(a: set<int>, b: set<int>)
    requires a <= b
    ensures |a| <= |b|
  {
    assert b == a + (b - a);
  }

  /** A correction changes at most as many codewords as the errors it
   *  reports, and only inside the block. */
  lemma CorrectionChangesAtMostErrors(block: seq<Byte>, dataLength: int, ecc: int)
    requires 1 <= dataLength <= |block| && dataLength <= 255 && 2 <= ecc <= 256
    ensures var c := CorrectionOf(block, dataLength, ecc);
      |Changed(block, c.data)| <= (if c.errors < 0 then 0 else c.errors) &&
      forall i :: i in Changed(block, c.data) ==> i < dataLength
  {
    var c := CorrectionOf(block, dataLength, ecc);
    if c.errors <= 0 {
      assert Changed(block, c.data) == {};
    } else {
      var syndrome := Syndromes(block[..dataLength], ecc);
      var located := Locate(syndrome, ecc, ecc);
      LocateBounded(syndrome, ecc, ecc);
      var count := located.value.count;
      var sigma := SigmaOf(located.value.polyB, ecc);
      var rs := Roots(sigma, count, dataLength);
      var positions := [LastPosition(sigma[1], rs[..count - 1])] + PositionsOf(rs[..count - 1]);
      PositionsInside(rs[..count - 1], dataLength);
      var values := Magnitudes(positions, OmegaOf(sigma, syndrome, ecc), sigma, count);
      PatchedChanges(block, dataLength, positions, values, count);
    }
  }

  /** Every syndrome is zero exactly when the block, read as a polynomial,
   *  vanishes at every power of the generator below ecc. */
  lemma SyndromesVanish(r: seq<Byte>, ecc: int)
    requires |r| >= 1 && 0 <= ecc <= 256
    ensures AllZero(Syndromes(r, ecc)) <==> forall e :: 0 <= e < ecc ==> Horner(r, e) == 0
  {
    var s := Syndromes(r, ecc);
    if AllZero(s) {
      forall e | 0 <= e < ecc
        ensures Horner(r, e) == 0
      {
        assert s[e] == 0;
      }
    } else {
      var e :| 0 <= e < ecc && s[e] != 0;
      assert Horner(r, e) != 0;
    }
  }

  /** A block whose syndromes are all zero is left as it is. */
  lemma CorrectionClean(block: seq<Byte>, dataLength: int, ecc: int)
    requires 1 <= dataLength <= |block| && dataLength <= 255 && 2 <= ecc <= 256
    requires AllZero(Syndromes(block[..dataLength], ecc))
    ensures CorrectionOf(block, dataLength, ecc) == Outcome(0, block)
  {
  }

  /** A block whose locator cannot be built, or has no error, is rejected
   *  unchanged. */
  lemma CorrectionUnlocated(block: seq<Byte>, dataLength: int, ecc: int)
    requires 1 <= dataLength <= |block| && dataLength <= 255 && 2 <= ecc <= 256
    requires !AllZero(Syndromes(block[..dataLength], ecc))
    requires Locate(Syndromes(block[..dataLength], ecc), ecc, ecc).None? ||
             Locate(Syndromes(block[..dataLength], ecc), ecc, ecc).value.count <= 0
    ensures CorrectionOf(block, dataLength, ecc) == Outcome(INCORRECTABLE_ERROR, block)
  {
  }

  /** A located block whose roots are missing or fall outside the block is
   *  rejected unchanged. */
  lemma CorrectionNoRoots(block: seq<Byte>, dataLength: int, ecc: int, sigma: seq<Byte>, count: int)
    requires 1 <= dataLength <= |block| && dataLength <= 255 && 2 <= ecc <= 256
    requires !AllZero(Syndromes(block[..dataLength], ecc))
    requires Locate(Syndromes(block[..dataLength], ecc), ecc, ecc).Some?
    requires count == Locate(Syndromes(block[..dataLength], ecc), ecc, ecc).value.count && 0 < count <= ecc / 2
    requires sigma == SigmaOf(Locate(Syndromes(block[..dataLength], ecc), ecc, ecc).value.polyB, ecc)
    requires !(|Roots(sigma, count, dataLength)| >= count - 1 &&
               Log(LastPosition(sigma[1], Roots(sigma, count, dataLength)[..count - 1])) < dataLength)
    ensures CorrectionOf(block, dataLength, ecc) == Outcome(INCORRECTABLE_ERROR, block)
  {
  }

  /** A located block whose roots all fall inside the block is patched at
   *  the located positions with the Forney values. */
  lemma CorrectionFixed(block: seq<Byte>, dataLength: int, ecc: int, sigma: seq<Byte>, omega: seq<Byte>,
                        positions: seq<Byte>, count: int)
    requires 1 <= dataLength <= |block| && dataLength <= 255 && 2 <= ecc <= 256
    requires !AllZero(Syndromes(block[..dataLength], ecc))
    requires Locate(Syndromes(block[..dataLength], ecc), ecc, ecc).Some?
    requires count == Locate(Syndromes(block[..dataLength], ecc), ecc, ecc).value.count && 0 < count <= ecc / 2
    requires sigma == SigmaOf(Locate(Syndromes(block[..dataLength], ecc), ecc, ecc).value.polyB, ecc)
    requires omega == OmegaOf(sigma, Syndromes(block[..dataLength], ecc), ecc)
    requires |Roots(sigma, count, dataLength)| >= count - 1
    requires Log(LastPosition(sigma[1], Roots(sigma, count, dataLength)[..count - 1])) < dataLength
    requires positions == [LastPosition(sigma[1], Roots(sigma, count, dataLength)[..count - 1])] +
                          PositionsOf(Roots(sigma, count, dataLength)[..count - 1])
    requires forall j :: 0 <= j < count ==> Log(positions[j]) < dataLength
    ensures CorrectionOf(block, dataLength, ecc) ==
      Outcome(count, Patched(block, dataLength, positions, Magnitudes(positions, omega, sigma, count), count))
  {
  }

  /** The decoder's CorrectData: corrects a block of dataLength codewords
   *  whose last ecc are error correction codewords. It returns 0 exactly
   *  when every syndrome is zero, the number of corrected errors (at most
   *  ecc / 2) after a correction, and INCORRECTABLE_ERROR when the locator
   *  is too long or its roots do not lie inside the block; only a successful
   *  correction changes the data, and never beyond the block. */
  method CorrectData(receivedData: array<Byte>, dataLength: int, ecc: int) returns (errors: int)
    requires 1 <= dataLength <= receivedData.Length && dataLength <= 255 && 2 <= ecc <= 256
    modifies receivedData
    ensures var c := CorrectionOf(old(receivedData[..]), dataLength, ecc);
      errors == c.errors && receivedData[..] == c.data
    ensures errors == INCORRECTABLE_ERROR || 0 <= errors <= ecc / 2
    ensures errors == 0 <==> forall e :: 0 <= e < ecc ==> Horner(old(receivedData[..dataLength]), e) == 0
    ensures errors <= 0 ==> receivedData[..] == old(receivedData[..])
    ensures receivedData[dataLength..] == old(receivedData[dataLength..])
  {
    ghost var block := receivedData[..];
    assert block[..dataLength] == receivedData[..dataLength];
    SyndromesVanish(block[..dataLength], ecc);

    // calculate syndrome vector
    var syndrome, error := CalculateSyndrome(receivedData, dataLength, ecc);
    assert syndrome == Syndromes(block[..dataLength], ecc);

    // received data has no error
    if !error {
      CorrectionClean(block, dataLength, ecc);
      return 0;
    }
    assert !AllZero(syndrome);

    // modified Berlekamp-Massey
    var sigma := new Byte[ecc / 2 + 2](_ => 0);
    var omega := new Byte[ecc / 2 + 1](_ => 0);
    var errorCount := CalculateSigmaMBM(sigma, omega, syndrome, ecc);

    // data cannot be corrected
    if errorCount <= 0 {
      CorrectionUnlocated(block, dataLength, ecc);
      return INCORRECTABLE_ERROR;
    }
    ghost var located := Locate(syndrome, ecc, ecc).value;
    assert sigma[..] == SigmaOf(located.polyB, ecc);
    assert omega[..] == OmegaOf(sigma[..], syndrome, ecc);

    // error positions by Chien search
    var errorPosition := new Byte[errorCount];
    var found := ChienSearch(errorPosition, dataLength, errorCount, sigma);
    if !found {
      CorrectionNoRoots(block, dataLength, ecc, sigma[..], errorCount);
      return INCORRECTABLE_ERROR;
    }

    CorrectionFixed(block, dataLength, ecc, sigma[..], omega[..], errorPosition[..], errorCount);
    ApplyCorrection(receivedData, dataLength, errorCount, errorPosition, sigma, omega);
    return errorCount;
  }
}
