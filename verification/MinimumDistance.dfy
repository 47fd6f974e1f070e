/** How far apart two protected blocks are, and what that says about error
    correction: section 7.5.1 of ISO/IEC 18004:2015. */
module MinimumDistance {
  import opened Galois
  import opened Polynomials
  import opened ReedSolomon

  function Codeword(data: Poly, degree: nat): (c: Poly)
    requires degree > 0
    ensures |c| == |data| + degree
  {
    data + Remainder(data, Divisor(degree))
  }

  /** In how many positions two words differ. */
  function Distance(a: Poly, b: Poly): nat
    requires |a| == |b|
  {
    if a == [] then 0
    else
      var n := |a| - 1;
      Distance(a[..n], b[..n]) + (if a[n] == b[n] then 0 else 1)
  }

  ghost function Differences(a: Poly, b: Poly): set<nat>
    requires |a| == |b|
  {
    set i: nat | i < |a| && a[i] != b[i]
  }

  lemma {:induction false} DistanceIsCount(a: Poly, b: Poly)
    requires |a| == |b|
    ensures Distance(a, b) == |Differences(a, b)|
  {
    if a == [] {
      assert Differences(a, b) == {};
    } else {
      var n := |a| - 1;
      DistanceIsCount(a[..n], b[..n]);
      assert Differences(a, b) == Differences(a[..n], b[..n]) + (if a[n] == b[n] then {} else {n});
    }
  }

  // ----- power sums of an error word -----

  /** Where each position of an n-symbol word lies among the powers of 2. */
  function Locators(n: nat): (x: Poly)
    ensures |x| == n
  {
    if n == 0 then [] else Scale(Locators(n - 1), TWO) + [ONE]
  }

  lemma {:induction false} LocatorAt(n: nat, i: nat)
    requires i < n
    ensures Locators(n)[i] == Power(TWO, n - 1 - i)
  {
    hide Mul;
    if i < n - 1 {
      LocatorAt(n - 1, i);
      MulComm(Power(TWO, n - 2 - i), TWO);
    }
  }

  ghost predicate Distinct(x: Poly) {
    forall i, j :: 0 <= i < j < |x| ==> x[i] != x[j]
  }

  lemma LocatorsDistinct(n: nat)
    requires n <= 255
    ensures Distinct(Locators(n))
  {
    hide Power, Locators;
    forall i, j | 0 <= i < j < n
      ensures Locators(n)[i] != Locators(n)[j]
    {
      LocatorAt(n, i);
      LocatorAt(n, j);
      PowersDistinct(n - 1 - j, n - 1 - i);
    }
  }

  /** The sum of e[i] * x[i]^j. */
  function Syndrome(e: Poly, x: Poly, j: nat): Byte
    requires |e| == |x|
  {
    if e == [] then ZERO
    else
      var n := |e| - 1;
      Add(Syndrome(e[..n], x[..n], j), Mul(e[n], Power(x[n], j)))
  }

  lemma {:induction false} PowerOfUnit(j: nat)
    ensures Power(ONE, j) == ONE
  {
    hide Mul;
    MulOne(ONE);
    if j > 0 {
      PowerOfUnit(j - 1);
    }
  }

  lemma {:induction false} SyndromeScaled(e: Poly, x: Poly, f: Byte, j: nat)
    requires |e| == |x|
    ensures Syndrome(e, Scale(x, f), j) == Mul(Syndrome(e, x, j), Power(f, j))
  {
    hide Add, Mul, Power;
    MulOne(Power(f, j));
    if e != [] {
      var n := |e| - 1;
      assert Scale(x, f)[..n] == Scale(x[..n], f);
      SyndromeScaled(e[..n], x[..n], f, j);
      PowerMul(x[n], f, j);
      MulAssoc(e[n], Power(x[n], j), Power(f, j));
      MulAddLeft(Syndrome(e[..n], x[..n], j), Mul(e[n], Power(x[n], j)), Power(f, j));
    }
  }

  /** Evaluating a word at 2^j is taking its j-th power sum. */
  lemma {:induction false} EvalIsSyndrome(e: Poly, j: nat)
    ensures Eval(e, Power(TWO, j)) == Syndrome(e, Locators(|e|), j)
  {
    hide Add, Mul, Power, Scale;
    if e != [] {
      var n := |e| - 1;
      EvalIsSyndrome(e[..n], j);
      SyndromeScaled(e[..n], Locators(n), TWO, j);
      PowerOfUnit(j);
      MulOne(e[n]);
      assert Locators(n + 1)[..n] == Scale(Locators(n), TWO);
    }
  }

  // ----- a word of small weight with vanishing power sums is zero -----

  function Weight(e: Poly): nat {
    if e == [] then 0
    else Weight(e[..|e| - 1]) + (if e[|e| - 1] == ZERO then 0 else 1)
  }

  /** Multiplies each entry by (x[i] - c), which removes the entry located at c. */
  function Damp(e: Poly, x: Poly, c: Byte): (r: Poly)
    requires |e| == |x|
    ensures |r| == |e|
  {
    seq(|e|, i requires 0 <= i < |e| => Mul(e[i], Add(x[i], c)))
  }

  lemma DampedTerm(e: Byte, x: Byte, c: Byte, j: nat)
    ensures Mul(Mul(e, Add(x, c)), Power(x, j))
         == Add(Mul(e, Power(x, j + 1)), Mul(Mul(e, Power(x, j)), c))
  {
    var p := Power(x, j);
    assert Power(x, j + 1) == Mul(x, p);
    hide Add, Mul, Power;
    MulAssoc(e, Add(x, c), p);
    MulAddLeft(x, c, p);
    MulAddRight(e, Mul(x, p), Mul(c, p));
    MulComm(c, p);
    MulAssoc(e, p, c);
  }

  lemma {:induction false} DampedSyndrome(e: Poly, x: Poly, c: Byte, j: nat)
    requires |e| == |x|
    ensures Syndrome(Damp(e, x, c), x, j) == Add(Syndrome(e, x, j + 1), Mul(Syndrome(e, x, j), c))
  {
    hide Add, Mul, Power;
    MulOne(c);
    AddZero(ZERO);
    if e != [] {
      var n := |e| - 1;
      var (s, t) := (Syndrome(e[..n], x[..n], j + 1), Syndrome(e[..n], x[..n], j));
      var (u, v) := (Mul(e[n], Power(x[n], j + 1)), Mul(e[n], Power(x[n], j)));
      assert Damp(e, x, c)[..n] == Damp(e[..n], x[..n], c);
      DampedSyndrome(e[..n], x[..n], c, j);
      DampedTerm(e[n], x[n], c, j);
      AddSwap(s, Mul(t, c), u, Mul(v, c));
      MulAddLeft(t, v, c);
    }
  }

  lemma {:induction false} WeightMonotone(f: Poly, e: Poly)
    requires |f| == |e|
    requires forall i :: 0 <= i < |e| && e[i] == ZERO ==> f[i] == ZERO
    ensures Weight(f) <= Weight(e)
    ensures Weight(f) == Weight(e) ==> forall i :: 0 <= i < |e| && f[i] == ZERO ==> e[i] == ZERO
  {
    if e != [] {
      WeightMonotone(f[..|f| - 1], e[..|e| - 1]);
    }
  }

  lemma {:induction false} WeightZero(e: Poly)
    ensures Weight(e) == 0 <==> forall i :: 0 <= i < |e| ==> e[i] == ZERO
  {
    if e != [] {
      WeightZero(e[..|e| - 1]);
    }
  }

  lemma {:induction false} SingleTerm(e: Poly, x: Poly, p: nat, j: nat)
    requires |e| == |x| && p < |e|
    requires forall i :: 0 <= i < |e| && i != p ==> e[i] == ZERO
    ensures Syndrome(e, x, j) == Mul(e[p], Power(x[p], j))
  {
    hide Add, Mul, Power;
    var n := |e| - 1;
    AddZero(Mul(e[p], Power(x[p], j)));
    if p < n {
      SingleTerm(e[..n], x[..n], p, j);
      MulOne(Power(x[n], j));
    } else {
      AllZero(e[..n], x[..n], j);
    }
  }

  lemma {:induction false} AllZero(e: Poly, x: Poly, j: nat)
    requires |e| == |x|
    requires forall i :: 0 <= i < |e| ==> e[i] == ZERO
    ensures Syndrome(e, x, j) == ZERO
  {
    hide Add, Mul, Power;
    AddZero(ZERO);
    if e != [] {
      AllZero(e[..|e| - 1], x[..|e| - 1], j);
      MulOne(Power(x[|e| - 1], j));
    }
  }

  /** Induction on the number of power sums: damping one error away costs one. */
  lemma {:induction false} SmallWeightVanishes(e: Poly, x: Poly, d: nat)
    requires |e| == |x| && Distinct(x)
    requires Weight(e) <= d
    requires forall j :: 0 <= j < d ==> Syndrome(e, x, j) == ZERO
    ensures Weight(e) == 0
    decreases d
  {
    hide Add, Mul, Power, Syndrome;
    WeightZero(e);
    if Weight(e) != 0 {
      var p :| 0 <= p < |e| && e[p] != ZERO;
      var f := Damp(e, x, x[p]);
      DampZeros(e, x, p);
      WeightMonotone(f, e);
      forall j | 0 <= j < d - 1
        ensures Syndrome(f, x, j) == ZERO
      {
        DampedSyndrome(e, x, x[p], j);
        MulOne(x[p]);
        AddZero(ZERO);
      }
      SmallWeightVanishes(f, x, d - 1);
      WeightZero(f);
      SingleTerm(e, x, p, 0);
      assert Power(x[p], 0) == ONE by { PowerZero(x[p]); }
      MulOne(e[p]);
    }
  }

  lemma PowerZero(x: Byte)
    ensures Power(x, 0) == ONE
  {
  }

  /** Damping removes exactly the entry at p. */
  lemma DampZeros(e: Poly, x: Poly, p: nat)
    requires |e| == |x| && Distinct(x) && p < |e|
    ensures forall i :: 0 <= i < |e| ==> (Damp(e, x, x[p])[i] == ZERO <==> e[i] == ZERO || i == p)
  {
    hide Add, Mul;
    forall i | 0 <= i < |e|
      ensures Damp(e, x, x[p])[i] == ZERO <==> e[i] == ZERO || i == p
    {
      NoZeroDivisors(e[i], Add(x[i], x[p]));
      AddCancel(x[i], x[p]);
    }
  }

  // ----- the distance of two codewords -----

  lemma {:induction false} DistanceIsWeight(a: Poly, b: Poly)
    requires |a| == |b|
    ensures Distance(a, b) == Weight(Sum(a, b))
  {
    hide Add;
    if a != [] {
      var n := |a| - 1;
      assert Sum(a, b)[..n] == Sum(a[..n], b[..n]);
      DistanceIsWeight(a[..n], b[..n]);
      AddCancel(a[n], b[n]);
    }
  }

  /** Different data of the same length give codewords at least degree + 1 apart. */
  lemma CodewordsFarApart(a: Poly, b: Poly, degree: nat)
    requires |a| == |b| && a != b && degree > 0 && |a| + degree <= 255
    ensures Distance(Codeword(a, degree), Codeword(b, degree)) >= degree + 1
  {
    hide Add, Mul, Power, Remainder, Divisor, Eval, Syndrome, Locators;
    var (c, d) := (Codeword(a, degree), Codeword(b, degree));
    var e := Sum(c, d);
    DistanceIsWeight(c, d);
    if Weight(e) <= degree {
      forall j | 0 <= j < degree
        ensures Syndrome(e, Locators(|e|), j) == ZERO
      {
        CodewordRoots(a, degree, j);
        CodewordRoots(b, degree, j);
        EvalSum(c, d, Power(TWO, j));
        AddZero(ZERO);
        EvalIsSyndrome(e, j);
      }
      LocatorsDistinct(|e|);
      SmallWeightVanishes(e, Locators(|e|), degree);
      WeightZero(e);
      forall i | 0 <= i < |a|
        ensures a[i] == b[i]
      {
        assert e[i] == Add(a[i], b[i]);
        AddCancel(a[i], b[i]);
      }
    }
  }

  lemma {:induction false} DistanceTriangle(a: Poly, b: Poly, c: Poly)
    requires |a| == |b| == |c|
    ensures Distance(a, c) <= Distance(b, a) + Distance(b, c)
  {
    if a != [] {
      var n := |a| - 1;
      DistanceTriangle(a[..n], b[..n], c[..n]);
    }
  }

  /** A received word within half the redundancy of two protected blocks can only
      be within it of one: the data that was sent is determined. */
  lemma ErrorsCorrectable(a: Poly, b: Poly, received: Poly, degree: nat)
    requires |a| == |b| && degree > 0 && |a| + degree <= 255
    requires |received| == |a| + degree
    requires Distance(received, Codeword(a, degree)) <= degree / 2
    requires Distance(received, Codeword(b, degree)) <= degree / 2
    ensures a == b
  {
    if a != b {
      CodewordsFarApart(a, b, degree);
      DistanceTriangle(Codeword(a, degree), received, Codeword(b, degree));
    }
  }
}
