/** The generator polynomial and the remainder of a block: section 7.5.2 of
    ISO/IEC 18004:2015. */
module ReedSolomon {
  import opened Galois
  import opened Polynomials

  /** (x - 2^0)(x - 2^1)...(x - 2^(degree-1)), leading coefficient included. */
  function Generator(degree: nat): (g: Poly)
    ensures |g| == degree + 1
  {
    if degree == 0 then [ONE]
    else Product(Generator(degree - 1), [ONE, Power(TWO, degree - 1)])
  }

  /** The generator without its leading 1, as the source stores it. */
  function Divisor(degree: nat): (d: Poly)
    ensures |d| == degree
  {
    Generator(degree)[1..]
  }

  lemma {:induction false} GeneratorMonic(degree: nat)
    ensures Generator(degree)[0] == ONE
    ensures Generator(degree) == [ONE] + Divisor(degree)
  {
    hide Mul, Power;
    if degree > 0 {
      GeneratorMonic(degree - 1);
      TimesLinear(Generator(degree - 1), Power(TWO, degree - 1), 0);
      AddZero(ONE);
    }
  }

  /** Every 2^i below the degree is a root. */
  lemma {:induction false} GeneratorRoots(degree: nat, i: nat)
    requires i < degree
    ensures Eval(Generator(degree), Power(TWO, i)) == ZERO
  {
    var x := Power(TWO, i);
    var g := Generator(degree - 1);
    var r := Power(TWO, degree - 1);
    EvalProduct(g, [ONE, r], x);
    MulOne(Eval(g, x));
    MulOne(Eval([ONE, r], x));
    if i == degree - 1 {
      LinearRoot(r);
    } else {
      GeneratorRoots(degree - 1, i);
    }
  }

  lemma LinearRoot(r: Byte)
    ensures Eval([ONE, r], r) == ZERO
  {
    hide Add, Mul;
    assert [ONE, r][..1] == [ONE] && [ONE][..0] == [];
    assert Eval([ONE], r) == Add(Mul(ZERO, r), ONE);
    MulOne(r);
    AddZero(ONE);
    AddZero(r);
  }

  // ----- reedSolomonComputeDivisor -----

  /** What the buffer holds after i rounds: the product of the first i factors,
      right-aligned, with any coefficient beyond its left end dropped. */
  ghost function Aligned(degree: nat, i: nat): (p: Poly)
    requires i <= degree
    ensures |p| == degree
  {
    (Zeros(degree) + Generator(i))[i + 1..]
  }

  /** Cell k after one round, from the cells before it. */
  function TimesRootAt(before: Poly, root: Byte, k: nat): Byte
    requires k < |before|
  {
    Add(Mul(before[k], root), if k + 1 < |before| then before[k + 1] else ZERO)
  }

  lemma AlignedAt(degree: nat, i: nat, k: nat)
    requires i <= degree && k < degree
    ensures var j := i + 1 + k - degree;
            Aligned(degree, i)[k] == if j < 0 then ZERO else Generator(i)[j]
  {
    hide Generator;
    var whole := Zeros(degree) + Generator(i);
    assert whole[i + 1..][k] == whole[i + 1 + k];
  }

  lemma AlignedEnds(degree: nat)
    requires degree > 0
    ensures Aligned(degree, 0) == Zeros(degree)[degree - 1 := ONE]
    ensures Aligned(degree, degree) == Divisor(degree)
  {
  }

  lemma NextCoefficient(i: nat, j: nat)
    requires j <= i + 1
    ensures var (g, r) := (Generator(i), Power(TWO, i));
            Generator(i + 1)[j]
            == Add(if j > 0 then Mul(g[j - 1], r) else ZERO, if j <= i then g[j] else ZERO)
  {
    var (g, r) := (Generator(i), Power(TWO, i));
    assert Generator(i + 1) == Product(g, [ONE, r]);
    hide Add, Mul, Power, Generator, Product;
    TimesLinear(g, r, j);
    AddComm(if j <= i then g[j] else ZERO, if j > 0 then Mul(g[j - 1], r) else ZERO);
  }

  lemma RoundAt(degree: nat, i: nat, k: nat)
    requires i < degree && k < degree
    ensures Aligned(degree, i + 1)[k] == TimesRootAt(Aligned(degree, i), Power(TWO, i), k)
  {
    hide Add, Mul, Power, Aligned, Generator;
    AlignedAt(degree, i, k);
    AlignedAt(degree, i + 1, k);
    if k + 1 < degree {
      AlignedAt(degree, i, k + 1);
    }
    MulOne(Power(TWO, i));
    AddZero(ZERO);
    var j := i + 2 + k - degree;  // the coefficient of the next product
    if j >= 0 {
      NextCoefficient(i, j);
    }
  }

  /** One round of the inner loop, read as an update of the whole buffer at once. */
  lemma DivisorRound(degree: nat, i: nat, before: Poly, after: Poly)
    requires i < degree && |after| == degree
    requires before == Aligned(degree, i)
    requires forall k :: 0 <= k < degree ==> after[k] == TimesRootAt(before, Power(TWO, i), k)
    ensures after == Aligned(degree, i + 1)
  {
    hide Add, Mul, Power, Aligned;
    forall k | 0 <= k < degree
      ensures after[k] == Aligned(degree, i + 1)[k]
    {
      RoundAt(degree, i, k);
    }
  }

  lemma PowerTimesTwo(i: nat)
    ensures Power(TWO, 0) == ONE && Power(TWO, i + 1) == Mul(Power(TWO, i), TWO)
  {
    MulComm(Power(TWO, i), TWO);
  }

  method ReedSolomonComputeDivisor(degree: nat) returns (divisor: Poly)
    requires 1 <= degree <= 255
    ensures divisor == Divisor(degree)
  {
    hide Mul, Add, Power, Aligned, Divisor;
    AlignedEnds(degree);
    var result := new Byte[degree](i => ZERO);
    result[degree - 1] := ONE;
    assert result[..] == Zeros(degree)[degree - 1 := ONE];
    var root := ONE;
    PowerTimesTwo(0);
    for i := 0 to degree
      invariant root == Power(TWO, i)
      invariant result[..] == Aligned(degree, i)
    {
      ghost var before := result[..];
      for j := 0 to degree
        invariant forall k :: j <= k < degree ==> result[k] == before[k]
        invariant forall k :: 0 <= k < j ==> result[k] == TimesRootAt(before, root, k)
      {
        var product := ReedSolomonMultiply(result[j], root);
        AddZero(product);
        result[j] := product;
        if j + 1 < degree {
          result[j] := Add(result[j], result[j + 1]);
        }
      }
      ghost var after := result[..];
      assert forall k :: 0 <= k < degree ==> after[k] == TimesRootAt(before, root, k);
      DivisorRound(degree, i, before, after);
      PowerTimesTwo(i);
      root := ReedSolomonMultiply(root, TWO);
    }
    divisor := result[..];
  }

  // ----- reedSolomonComputeRemainder -----

  /** The shift register after feeding it the data bytes. */
  function Remainder(data: Poly, divisor: Poly): (r: Poly)
    requires |divisor| > 0
    ensures |r| == |divisor|
    decreases data, 1
  {
    if data == [] then Zeros(|divisor|)
    else
      var r := Remainder(data[..|data| - 1], divisor);
      Sum(r[1..] + [ZERO], Scale(divisor, Factor(data, divisor)))
  }

  /** The feedback byte of the last step. */
  function Factor(data: Poly, divisor: Poly): Byte
    requires |divisor| > 0 && data != []
    decreases data, 0
  {
    Add(data[|data| - 1], Remainder(data[..|data| - 1], divisor)[0])
  }

  /** The feedback bytes of all steps. */
  ghost function Feedback(data: Poly, divisor: Poly): (q: Poly)
    requires |divisor| > 0
    ensures |q| == |data|
  {
    if data == [] then []
    else Feedback(data[..|data| - 1], divisor) + [Factor(data, divisor)]
  }

  method ReedSolomonComputeRemainder(data: Poly, divisor: Poly) returns (remainder: Poly)
    requires |divisor| > 0
    ensures remainder == Remainder(data, divisor)
  {
    hide Mul, Add;
    var result := Zeros(|divisor|);
    for n := 0 to |data|
      invariant result == Remainder(data[..n], divisor)
    {
      assert data[..n + 1][..n] == data[..n];
      var factor := Add(data[n], result[0]);
      result := result[1..];
      result := result + [ZERO];
      ghost var shifted := result;
      for i := 0 to |result|
        invariant |result| == |divisor|
        invariant forall k :: i <= k < |result| ==> result[k] == shifted[k]
        invariant forall k :: 0 <= k < i ==> result[k] == Add(shifted[k], Mul(divisor[k], factor))
      {
        var product := ReedSolomonMultiply(divisor[i], factor);
        result := result[i := Add(result[i], product)];
      }
      assert result == Sum(shifted, Scale(divisor, factor));
    }
    assert data[..|data|] == data;
    remainder := result;
  }

  /** Long division: data followed by the remainder is a multiple of the monic
      divisor, and the feedback bytes are the quotient. */
  lemma {:induction false} Division(data: Poly, divisor: Poly)
    requires |divisor| > 0
    ensures data + Remainder(data, divisor) == Product(Feedback(data, divisor), [ONE] + divisor)
  {
    if data != [] {
      Division(data[..|data| - 1], divisor);
      DivisionStep(data, divisor);
    } else {
      assert data + Zeros(|divisor|) == Zeros(|divisor|);
    }
  }

  lemma RemainderAt(r: Poly, divisor: Poly, f: Byte, i: nat)
    requires |r| == |divisor| && i < |r|
    ensures Sum(r[1..] + [ZERO], Scale(divisor, f))[i] == Add((r[1..] + [ZERO])[i], Mul(divisor[i], f))
  {
  }

  /** One more quotient coefficient f: it turns r[0] into the next data byte. */
  lemma DivisionAt(prefix: Poly, b: Byte, r: Poly, q: Poly, divisor: Poly, i: nat)
    requires |r| == |divisor| > 0 && |q| == |prefix|
    requires prefix + r == Product(q, [ONE] + divisor)
    requires i <= |prefix| + |divisor|
    ensures var (n, f) := (|prefix|, Add(b, r[0]));
            Product(q + [f], [ONE] + divisor)[i]
            == if i < n then prefix[i]
               else if i == n then b
               else Add((r[1..] + [ZERO])[i - n - 1], Mul(divisor[i - n - 1], f))
  {
    hide Add, Mul, Product;
    var (n, f) := (|prefix|, Add(b, r[0]));
    assert (q + [f])[..n] == q;
    ProductAt(q + [f], [ONE] + divisor, i);
    if i == n {
      MulOne(f);
      AddComm(b, r[0]);
      AddCancel(r[0], b);
    }
  }

  lemma DivisionStepAt(data: Poly, divisor: Poly, i: nat)
    requires |divisor| > 0 && data != [] && i < |data| + |divisor|
    requires var prefix := data[..|data| - 1];
             prefix + Remainder(prefix, divisor) == Product(Feedback(prefix, divisor), [ONE] + divisor)
    ensures (data + Remainder(data, divisor))[i] == Product(Feedback(data, divisor), [ONE] + divisor)[i]
  {
    hide Add, Mul, Product, Remainder, Feedback, Factor, Sum, Scale;
    var n := |data| - 1;
    var (r, q, f) := (Remainder(data[..n], divisor), Feedback(data[..n], divisor), Factor(data, divisor));
    StepParts(data, divisor);
    DivisionAt(data[..n], data[n], r, q, divisor, i);
    if i > n {
      RemainderAt(r, divisor, f, i - n - 1);
    }
  }

  lemma DivisionStep(data: Poly, divisor: Poly)
    requires |divisor| > 0 && data != []
    requires var prefix := data[..|data| - 1];
             prefix + Remainder(prefix, divisor) == Product(Feedback(prefix, divisor), [ONE] + divisor)
    ensures data + Remainder(data, divisor) == Product(Feedback(data, divisor), [ONE] + divisor)
  {
    hide Product, Remainder, Feedback;
    var (sent, multiple) := (data + Remainder(data, divisor), Product(Feedback(data, divisor), [ONE] + divisor));
    forall i | 0 <= i < |data| + |divisor|
      ensures sent[i] == multiple[i]
    {
      DivisionStepAt(data, divisor, i);
    }
  }

  /** The last byte's share in remainder and quotient. */
  lemma StepParts(data: Poly, divisor: Poly)
    requires |divisor| > 0 && data != []
    ensures var n := |data| - 1;
            var (r, f) := (Remainder(data[..n], divisor), Factor(data, divisor));
            && f == Add(data[n], r[0])
            && Feedback(data, divisor) == Feedback(data[..n], divisor) + [f]
            && Remainder(data, divisor) == Sum(r[1..] + [ZERO], Scale(divisor, f))
  {
    hide Add, Sum, Scale;
  }

  /** The quotient of a monic division is determined by the leading coefficients. */
  lemma {:induction false} QuotientUnique(p: Poly, q: Poly, g: Poly)
    requires |p| == |q| && |g| > 0 && g[0] == ONE
    requires Product(p, g)[..|p|] == Product(q, g)[..|q|]
    ensures p == q
  {
    hide Add, Mul, Product;
    if p != [] {
      var n := |p| - 1;
      LeadingOf(p, g);
      LeadingOf(q, g);
      forall i | 0 <= i <= n
        ensures Product(p, g)[i] == Product(q, g)[i]
      {
        assert Product(p, g)[i] == Product(p, g)[..|p|][i] && Product(q, g)[i] == Product(q, g)[..|q|][i];
      }
      QuotientUnique(p[..n], q[..n], g);
      AddCancel((Product(p[..n], g) + [ZERO])[n], p[n]);
      AddCancel((Product(q[..n], g) + [ZERO])[n], q[n]);
      assert p == p[..n] + [p[n]] && q == q[..n] + [q[n]];
    }
  }

  lemma LeadingOf(p: Poly, g: Poly)
    requires p != [] && |g| > 0 && g[0] == ONE
    ensures var n := |p| - 1;
            var r := Product(p[..n], g);
            && (forall i :: 0 <= i < n ==> Product(p, g)[i] == r[i])
            && Product(p, g)[n] == Add((r + [ZERO])[n], p[n])
  {
    hide Add, Mul, Product, Sum, Scale, Zeros;
    var n := |p| - 1;
    var r := Product(p[..n], g);
    MulOne(p[n]);
    ProductAt(p, g, n);
    forall i | 0 <= i < n
      ensures Product(p, g)[i] == r[i]
    {
      ProductAt(p, g, i);
    }
  }

  /** The remainder is the only tail that makes a multiple of the divisor. */
  lemma RemainderUnique(data: Poly, divisor: Poly, q: Poly, r: Poly)
    requires |divisor| > 0 && |q| == |data| && |r| == |divisor|
    requires data + r == Product(q, [ONE] + divisor)
    ensures r == Remainder(data, divisor)
  {
    Division(data, divisor);
    var f := Feedback(data, divisor);
    var g := [ONE] + divisor;
    assert Product(q, g)[..|q|] == data == Product(f, g)[..|f|];
    QuotientUnique(q, f, g);
    assert r == (data + r)[|data|..] == (data + Remainder(data, divisor))[|data|..];
  }

  /** A block and its error correction bytes vanish at 2^0 .. 2^(degree-1). */
  lemma CodewordRoots(data: Poly, degree: nat, i: nat)
    requires i < degree
    ensures Eval(data + Remainder(data, Divisor(degree)), Power(TWO, i)) == ZERO
  {
    hide Mul;
    Division(data, Divisor(degree));
    GeneratorMonic(degree);
    GeneratorRoots(degree, i);
    EvalProduct(Feedback(data, Divisor(degree)), Generator(degree), Power(TWO, i));
    MulOne(Eval(Feedback(data, Divisor(degree)), Power(TWO, i)));
  }
}
