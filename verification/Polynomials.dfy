/** Polynomials over GF(2^8), coefficients from the highest power down. */
module Polynomials {
  import opened Galois

  type Poly = seq<Byte>

  function Zeros(n: nat): (p: Poly)
    ensures |p| == n
  {
    seq(n, i => ZERO)
  }

  function Sum(p: Poly, q: Poly): (r: Poly)
    requires |p| == |q|
    ensures |r| == |p|
  {
    seq(|p|, i requires 0 <= i < |p| => Add(p[i], q[i]))
  }

  function Scale(p: Poly, f: Byte): (r: Poly)
    ensures |r| == |p|
  {
    seq(|p|, i requires 0 <= i < |p| => Mul(p[i], f))
  }

  /** The product, always with |q| + |g| - 1 coefficients. */
  function Product(q: Poly, g: Poly): (r: Poly)
    requires |g| > 0
    ensures |r| == |q| + |g| - 1
  {
    if q == [] then Zeros(|g| - 1)
    else Sum(Product(q[..|q| - 1], g) + [ZERO], Zeros(|q| - 1) + Scale(g, q[|q| - 1]))
  }

  lemma ProductLast(q: Poly, g: Poly)
    requires q != [] && |g| > 0
    ensures var n := |q| - 1;
            Product(q, g) == Sum(Product(q[..n], g) + [ZERO], Zeros(n) + Scale(g, q[n]))
  {
  }

  lemma SumAt(p: Poly, q: Poly, i: nat)
    requires |p| == |q| && i < |p|
    ensures Sum(p, q)[i] == Add(p[i], q[i])
  {
  }

  lemma ShiftedAt(n: nat, g: Poly, f: Byte, i: nat)
    requires i < n + |g|
    ensures (Zeros(n) + Scale(g, f))[i] == if i < n then ZERO else Mul(g[i - n], f)
  {
  }

  /** One coefficient of a product, from the product without the last factor. */
  lemma ProductAt(q: Poly, g: Poly, i: nat)
    requires q != [] && |g| > 0 && i < |q| + |g| - 1
    ensures var n := |q| - 1;
            var r := Product(q[..n], g);
            Product(q, g)[i] == if i < n then r[i] else Add((r + [ZERO])[i], Mul(g[i - n], q[n]))
  {
    hide Add, Mul, Product, Sum, Zeros, Scale;
    var n := |q| - 1;
    ProductLast(q, g);
    SumAt(Product(q[..n], g) + [ZERO], Zeros(n) + Scale(g, q[n]), i);
    ShiftedAt(n, g, q[n], i);
    if i < n {
      AddZero(Product(q[..n], g)[i]);
    }
  }

  /** The value at x, by Horner's rule. */
  function Eval(p: Poly, x: Byte): Byte {
    if p == [] then ZERO else Add(Mul(Eval(p[..|p| - 1], x), x), p[|p| - 1])
  }

  lemma {:induction false} EvalZeros(n: nat, x: Byte)
    ensures Eval(Zeros(n), x) == ZERO
  {
    hide Add, Mul;
    if n > 0 {
      assert Zeros(n)[..n - 1] == Zeros(n - 1);
      EvalZeros(n - 1, x);
      MulOne(x);
      AddZero(ZERO);
    }
  }

  lemma {:induction false} EvalLeadingZeros(n: nat, p: Poly, x: Byte)
    ensures Eval(Zeros(n) + p, x) == Eval(p, x)
  {
    hide Add, Mul;
    if p == [] {
      assert Zeros(n) + p == Zeros(n);
      EvalZeros(n, x);
    } else {
      assert (Zeros(n) + p)[..n + |p| - 1] == Zeros(n) + p[..|p| - 1];
      EvalLeadingZeros(n, p[..|p| - 1], x);
    }
  }

  lemma {:induction false} EvalSum(p: Poly, q: Poly, x: Byte)
    requires |p| == |q|
    ensures Eval(Sum(p, q), x) == Add(Eval(p, x), Eval(q, x))
  {
    hide Add, Mul;
    AddZero(ZERO);
    if p != [] {
      var n := |p| - 1;
      assert Sum(p, q)[..n] == Sum(p[..n], q[..n]);
      EvalSum(p[..n], q[..n], x);
      MulAddLeft(Eval(p[..n], x), Eval(q[..n], x), x);
      AddSwap(Mul(Eval(p[..n], x), x), Mul(Eval(q[..n], x), x), p[n], q[n]);
    }
  }

  lemma {:induction false} EvalScale(p: Poly, f: Byte, x: Byte)
    ensures Eval(Scale(p, f), x) == Mul(Eval(p, x), f)
  {
    hide Add, Mul;
    MulOne(f);
    if p != [] {
      var n := |p| - 1;
      var e := Eval(p[..n], x);
      assert Scale(p, f)[..n] == Scale(p[..n], f);
      EvalScale(p[..n], f, x);
      MulAddLeft(Mul(e, x), p[n], f);
      MulAssoc(e, x, f);
      MulComm(x, f);
      MulAssoc(e, f, x);
    }
  }

  lemma {:induction false} EvalProduct(q: Poly, g: Poly, x: Byte)
    requires |g| > 0
    ensures Eval(Product(q, g), x) == Mul(Eval(q, x), Eval(g, x))
  {
    hide Add, Mul;
    if q == [] {
      EvalZeros(|g| - 1, x);
      MulOne(Eval(g, x));
    } else {
      var n := |q| - 1;
      var (r, e, v) := (Product(q[..n], g), Eval(q[..n], x), Eval(g, x));
      EvalProduct(q[..n], g, x);
      EvalSum(r + [ZERO], Zeros(n) + Scale(g, q[n]), x);
      assert (r + [ZERO])[..|r|] == r;
      AddZero(Mul(Eval(r, x), x));
      EvalLeadingZeros(n, Scale(g, q[n]), x);
      EvalScale(g, q[n], x);
      MulComm(v, q[n]);
      MulAssoc(e, v, x);
      MulComm(v, x);
      MulAssoc(e, x, v);
      MulAddLeft(Mul(e, x), q[n], v);
    }
  }

  /** Multiplying by (x - r), one coefficient at a time. */
  lemma {:induction false} TimesLinear(p: Poly, r: Byte, j: nat)
    requires j <= |p|
    ensures Product(p, [ONE, r])[j]
         == Add(if j < |p| then p[j] else ZERO, if j > 0 then Mul(p[j - 1], r) else ZERO)
  {
    hide Add, Mul;
    AddZero(ZERO);
    if p != [] {
      var n := |p| - 1;
      var prior := Product(p[..n], [ONE, r]);
      ProductAt(p, [ONE, r], j);
      MulOne(p[n]);
      MulComm(p[n], r);
      if j <= n {
        TimesLinear(p[..n], r, j);
        AddZero(prior[j]);
        if j == n {
          var m := if j > 0 then Mul(p[j - 1], r) else ZERO;
          AddZero(m);
          AddComm(m, p[n]);
        }
      }
    }
  }
}
