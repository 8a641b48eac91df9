/** Dense polynomials over a field: coefficient lists without trailing zeros, as the library keeps them. */
module Polynomial {
  import opened Field

  function Pow<F>(f: Field<F>, x: F, n: nat): F {
    if n == 0 then f.one else f.mul(Pow(f, x, n - 1), x)
  }

  /** The first `n` terms at the point `x`. */
  function EvalTo<F>(f: Field<F>, p: seq<F>, x: F, n: nat): F
    requires n <= |p|
  {
    if n == 0 then f.zero else f.add(EvalTo(f, p, x, n - 1), f.mul(p[n - 1], Pow(f, x, n - 1)))
  }

  function Eval<F>(f: Field<F>, p: seq<F>, x: F): F {
    EvalTo(f, p, x, |p|)
  }

  function Trim<F(==)>(f: Field<F>, p: seq<F>): (t: seq<F>)
    ensures t != [] ==> t[|t| - 1] != f.zero
  {
    if p != [] && p[|p| - 1] == f.zero then Trim(f, p[..|p| - 1]) else p
  }

  /** Coefficient `k` of the product of the first `i` terms of `l` with `r`. */
  function Convolve<F>(f: Field<F>, l: seq<F>, r: seq<F>, k: nat, i: nat): F
    requires i <= |l|
  {
    if i == 0 then f.zero
    else if i - 1 <= k < i - 1 + |r| then f.add(Convolve(f, l, r, k, i - 1), f.mul(l[i - 1], r[k - (i - 1)]))
    else Convolve(f, l, r, k, i - 1)
  }

  function ProductLength<F>(l: seq<F>, r: seq<F>): nat
    requires |l| + |r| > 0
  {
    |l| + |r| - 1
  }

  /** The coefficients after `i` rows of the multiplication. */
  function Rows<F>(f: Field<F>, l: seq<F>, r: seq<F>, i: nat): (p: seq<F>)
    requires i <= |l| && |l| + |r| > 0
    ensures |p| == ProductLength(l, r)
  {
    seq(ProductLength(l, r), k requires 0 <= k < ProductLength(l, r) => Convolve(f, l, r, k, i))
  }

  /** `multiply_polynomials`; two empty operands have no product, the original underflows on them. */
  function Product<F(==)>(f: Field<F>, l: seq<F>, r: seq<F>): seq<F>
    requires |l| + |r| > 0
  {
    Trim(f, Rows(f, l, r, |l|))
  }

  method TrimCoefficients<F(==)>(f: Field<F>, p: seq<F>) returns (t: seq<F>)
    ensures t == Trim(f, p)
  {
    var n: nat := |p|;
    assert p[..n] == p;
    while n > 0 && p[n - 1] == f.zero
      invariant n <= |p| && Trim(f, p[..n]) == Trim(f, p)
    {
      n := n - 1;
      assert p[..n + 1][..n] == p[..n];
    }
    t := p[..n];
  }

  /** Coefficient `k` after `i` rows and the first `j` terms of the next one. */
  ghost function Partial<F>(f: Field<F>, l: seq<F>, r: seq<F>, k: nat, i: nat, j: nat): F
    requires i < |l| && j <= |r|
  {
    if i <= k < i + j then f.add(Convolve(f, l, r, k, i), f.mul(l[i], r[k - i])) else Convolve(f, l, r, k, i)
  }

  /** The inner loop of the multiplication: one term of the left factor times the right one. */
  method AddRow<F>(f: Field<F>, l: seq<F>, r: seq<F>, coeffs: array<F>, i: nat)
    requires i < |l| && |l| + |r| == coeffs.Length + 1
    requires forall k: nat :: k < coeffs.Length ==> coeffs[k] == Convolve(f, l, r, k, i)
    modifies coeffs
    ensures forall k: nat :: k < coeffs.Length ==> coeffs[k] == Convolve(f, l, r, k, i + 1)
  {
    var j: nat := 0;
    while j < |r|
      invariant j <= |r|
      invariant forall k: nat :: k < coeffs.Length ==> coeffs[k] == Partial(f, l, r, k, i, j)
    {
      coeffs[i + j] := f.add(coeffs[i + j], f.mul(l[i], r[j]));
      j := j + 1;
    }
  }

  /** The outer loop of the multiplication. */
  method Multiply<F(==)>(f: Field<F>, l: seq<F>, r: seq<F>) returns (p: seq<F>)
    requires |l| + |r| > 0
    ensures p == Product(f, l, r)
  {
    var degree := |l| + |r| - 1;
    var coeffs := new F[degree](_ => f.zero);
    var i: nat := 0;
    while i < |l|
      invariant i <= |l|
      invariant forall k: nat :: k < degree ==> coeffs[k] == Convolve(f, l, r, k, i)
    {
      AddRow(f, l, r, coeffs, i);
      i := i + 1;
    }
    assert coeffs[..] == Rows(f, l, r, |l|);
    p := TrimCoefficients(f, coeffs[..]);
  }

  // ----- evaluation

  lemma {:induction false} EvalToPrefix<F>(f: Field<F>, p: seq<F>, q: seq<F>, x: F, n: nat)
    requires n <= |p| && n <= |q| && forall k :: 0 <= k < n ==> p[k] == q[k]
    ensures EvalTo(f, p, x, n) == EvalTo(f, q, x, n)
    decreases n
  {
    if n > 0 {
      EvalToPrefix(f, p, q, x, n - 1);
    }
  }

  /** Trailing zeros do not change a value. */
  lemma {:induction false} EvalTrim<F(!new)>(f: Field<F>, p: seq<F>, x: F)
    requires IsField(f)
    ensures Eval(f, Trim(f, p), x) == Eval(f, p, x)
  {
    if p != [] && p[|p| - 1] == f.zero {
      var q := p[..|p| - 1];
      EvalTrim(f, q, x);
      EvalToPrefix(f, p, q, x, |q|);
      var w := Pow(f, x, |q|);
      MulZero(f, w);
      assert Laws(f, EvalTo(f, p, x, |q|), f.zero, f.zero);
    }
  }

  lemma {:induction false} PowAdd<F(!new)>(f: Field<F>, x: F, m: nat, n: nat)
    requires IsField(f)
    ensures Pow(f, x, m + n) == f.mul(Pow(f, x, m), Pow(f, x, n))
    decreases n
  {
    var a := Pow(f, x, m);
    if n == 0 {
      assert Laws(f, a, a, a);
    } else {
      PowAdd(f, x, m, n - 1);
      assert Laws(f, a, Pow(f, x, n - 1), x);
    }
  }

  /** A term of a row: `(a + c * b) * (u * v) == a * (u * v) + (c * u) * (b * v)`. */
  lemma RowTerm<F(!new)>(f: Field<F>, a: F, b: F, c: F, u: F, v: F)
    requires IsField(f)
    ensures f.mul(f.add(a, f.mul(c, b)), f.mul(u, v)) == f.add(f.mul(a, f.mul(u, v)), f.mul(f.mul(c, u), f.mul(b, v)))
  {
    assert Laws(f, a, f.mul(c, b), f.mul(u, v));
    MulSwap(f, c, b, u, v);
  }

  /** Adding one more term of a row: with `row == c * u`,
      `(a + row * e) + (b + c * t) * (u * v) == (a + b * (u * v)) + row * (e + t * v)`. */
  lemma RowStep<F(!new)>(f: Field<F>, a: F, e: F, b: F, c: F, t: F, u: F, v: F)
    requires IsField(f)
    ensures
      f.add(f.add(a, f.mul(f.mul(c, u), e)), f.mul(f.add(b, f.mul(c, t)), f.mul(u, v)))
        == f.add(f.add(a, f.mul(b, f.mul(u, v))), f.mul(f.mul(c, u), f.add(e, f.mul(t, v))))
  {
    var row := f.mul(c, u);
    RowTerm(f, b, t, c, u, v);
    AddSwap(f, a, f.mul(row, e), f.mul(b, f.mul(u, v)), f.mul(row, f.mul(t, v)));
    MulAdd(f, e, f.mul(t, v), row);
  }

  /** `before` with a row `c * r`, shifted by `i`, added to it. */
  ghost predicate RowAdded<F>(f: Field<F>, before: seq<F>, after: seq<F>, c: F, r: seq<F>, i: nat) {
    && |after| == |before| && i + |r| <= |before|
    && forall k: nat :: k < |before| ==>
         after[k] == if i <= k < i + |r| then f.add(before[k], f.mul(c, r[k - i])) else before[k]
  }

  function RowPart<F>(r: seq<F>, i: nat, n: nat): (m: nat)
    ensures m <= |r|
  {
    if n <= i then 0 else if n - i <= |r| then n - i else |r|
  }

  /** The claim of `EvalRowTo`. */
  ghost predicate RowEvaluates<F>(f: Field<F>, before: seq<F>, after: seq<F>, c: F, r: seq<F>, i: nat, x: F, n: nat)
    requires n <= |before| == |after|
  {
    EvalTo(f, after, x, n)
      == f.add(EvalTo(f, before, x, n), f.mul(f.mul(c, Pow(f, x, i)), EvalTo(f, r, x, RowPart(r, i, n))))
  }

  lemma RowInside<F(!new)>(f: Field<F>, before: seq<F>, after: seq<F>, c: F, r: seq<F>, i: nat, x: F, k: nat)
    requires IsField(f) && RowAdded(f, before, after, c, r, i) && k < |before|
    requires i <= k < i + |r| && RowEvaluates(f, before, after, c, r, i, x, k)
    ensures RowEvaluates(f, before, after, c, r, i, x, k + 1)
  {
    PowAdd(f, x, i, k - i);
    RowStep(f, EvalTo(f, before, x, k), EvalTo(f, r, x, k - i), before[k], c, r[k - i], Pow(f, x, i), Pow(f, x, k - i));
  }

  lemma RowOutside<F(!new)>(f: Field<F>, before: seq<F>, after: seq<F>, c: F, r: seq<F>, i: nat, x: F, k: nat)
    requires IsField(f) && RowAdded(f, before, after, c, r, i) && k < |before|
    requires !(i <= k < i + |r|) && RowEvaluates(f, before, after, c, r, i, x, k)
    ensures RowEvaluates(f, before, after, c, r, i, x, k + 1)
  {
    var row, e := f.mul(c, Pow(f, x, i)), EvalTo(f, r, x, RowPart(r, i, k));
    AddLast(f, EvalTo(f, before, x, k), f.mul(row, e), f.mul(before[k], Pow(f, x, k)));
  }

  lemma {:induction false} EvalRowTo<F(!new)>(
      f: Field<F>, before: seq<F>, after: seq<F>, c: F, r: seq<F>, i: nat, x: F, n: nat)
    requires IsField(f) && RowAdded(f, before, after, c, r, i) && n <= |before|
    ensures RowEvaluates(f, before, after, c, r, i, x, n)
    decreases n
  {
    if n == 0 {
      MulZero(f, f.mul(c, Pow(f, x, i)));
      assert Laws(f, f.zero, f.zero, f.zero);
    } else {
      EvalRowTo(f, before, after, c, r, i, x, n - 1);
      if i <= n - 1 < i + |r| {
        RowInside(f, before, after, c, r, i, x, n - 1);
      } else {
        RowOutside(f, before, after, c, r, i, x, n - 1);
      }
    }
  }

  lemma EvalRow<F(!new)>(f: Field<F>, before: seq<F>, after: seq<F>, c: F, r: seq<F>, i: nat, x: F)
    requires IsField(f) && RowAdded(f, before, after, c, r, i)
    ensures Eval(f, after, x) == f.add(Eval(f, before, x), f.mul(f.mul(c, Pow(f, x, i)), Eval(f, r, x)))
  {
    EvalRowTo(f, before, after, c, r, i, x, |before|);
    assert RowPart(r, i, |before|) == |r|;
  }

  lemma {:induction false} EvalZeros<F(!new)>(f: Field<F>, p: seq<F>, x: F, n: nat)
    requires IsField(f) && n <= |p| && forall k :: 0 <= k < n ==> p[k] == f.zero
    ensures EvalTo(f, p, x, n) == f.zero
    decreases n
  {
    if n > 0 {
      EvalZeros(f, p, x, n - 1);
      MulZero(f, Pow(f, x, n - 1));
      assert Laws(f, f.zero, f.zero, f.zero);
    }
  }

  lemma {:induction false} EvalRows<F(!new)>(f: Field<F>, l: seq<F>, r: seq<F>, i: nat, x: F)
    requires IsField(f) && i <= |l| && |l| + |r| > 0
    ensures Eval(f, Rows(f, l, r, i), x) == f.mul(EvalTo(f, l, x, i), Eval(f, r, x))
    decreases i
  {
    if i == 0 {
      EvalZeros(f, Rows(f, l, r, 0), x, ProductLength(l, r));
      MulZero(f, Eval(f, r, x));
    } else {
      EvalRows(f, l, r, i - 1, x);
      var before, after := Rows(f, l, r, i - 1), Rows(f, l, r, i);
      if r == [] {
        assert after == before;
        MulZero(f, EvalTo(f, l, x, i - 1));
        MulZero(f, EvalTo(f, l, x, i));
      } else {
        assert RowAdded(f, before, after, l[i - 1], r, i - 1);
        EvalRow(f, before, after, l[i - 1], r, i - 1, x);
        assert Laws(f, EvalTo(f, l, x, i - 1), f.mul(l[i - 1], Pow(f, x, i - 1)), Eval(f, r, x));
      }
    }
  }

  /** Multiplication commutes with evaluation at every point. */
  lemma EvalProduct<F(!new)>(f: Field<F>, l: seq<F>, r: seq<F>, x: F)
    requires IsField(f) && |l| + |r| > 0
    ensures Eval(f, Product(f, l, r), x) == f.mul(Eval(f, l, x), Eval(f, r, x))
  {
    EvalRows(f, l, r, |l|, x);
    EvalTrim(f, Rows(f, l, r, |l|), x);
  }

  // ----- scaling

  function Scale<F>(f: Field<F>, p: seq<F>, c: F): seq<F> {
    seq(|p|, k requires 0 <= k < |p| => f.mul(p[k], c))
  }

  method ScaleInPlace<F>(f: Field<F>, a: array<F>, c: F)
    modifies a
    ensures a[..] == Scale(f, old(a[..]), c)
  {
    var k := 0;
    while k < a.Length
      invariant k <= a.Length
      invariant forall m :: 0 <= m < k ==> a[m] == f.mul(old(a[m]), c)
      invariant forall m :: k <= m < a.Length ==> a[m] == old(a[m])
    {
      a[k] := f.mul(a[k], c);
      k := k + 1;
    }
  }

  lemma {:induction false} EvalScaleTo<F(!new)>(f: Field<F>, p: seq<F>, c: F, x: F, n: nat)
    requires IsField(f) && n <= |p|
    ensures EvalTo(f, Scale(f, p, c), x, n) == f.mul(c, EvalTo(f, p, x, n))
    decreases n
  {
    if n == 0 {
      MulZero(f, c);
    } else {
      EvalScaleTo(f, p, c, x, n - 1);
      var a, w := p[n - 1], Pow(f, x, n - 1);
      assert Laws(f, a, c, w) && Laws(f, c, a, w);
      MulAdd(f, EvalTo(f, p, x, n - 1), f.mul(a, w), c);
    }
  }

  // ----- characteristic polynomials

  /** The polynomial `x - r`. */
  function Linear<F>(f: Field<F>, r: F): seq<F> {
    [f.neg(r), f.one]
  }

  function Characteristic<F(==)>(f: Field<F>, roots: seq<F>): (p: seq<F>)
    decreases |roots|
  {
    if roots == [] then [f.one] else Product(f, Linear(f, roots[0]), Characteristic(f, roots[1..]))
  }

  lemma EvalLinear<F(!new)>(f: Field<F>, r: F, x: F)
    requires IsField(f)
    ensures Eval(f, Linear(f, r), x) == f.add(x, f.neg(r))
  {
    var p := Linear(f, r);
    assert EvalTo(f, p, x, 1) == f.add(f.zero, f.mul(f.neg(r), f.one));
    assert Laws(f, f.neg(r), f.zero, f.one) && Laws(f, f.zero, f.neg(r), f.one) && Laws(f, f.one, x, f.one) && Laws(f, x, f.one, f.one);
    assert Pow(f, x, 1) == f.mul(f.one, x) == x;
    assert f.mul(f.one, x) == x;
    assert Laws(f, f.neg(r), x, f.one);
  }

  /** A characteristic polynomial vanishes exactly at its roots. */
  lemma {:induction false} CharacteristicRoots<F(!new)>(f: Field<F>, roots: seq<F>, x: F)
    requires IsField(f)
    ensures Eval(f, Characteristic(f, roots), x) == f.zero <==> x in roots
    decreases |roots|
  {
    if roots == [] {
      assert EvalTo(f, [f.one], x, 1) == f.add(f.zero, f.mul(f.one, f.one));
      assert Laws(f, f.one, f.zero, f.zero) && Laws(f, f.zero, f.one, f.one) && Laws(f, f.one, f.one, f.one);
    } else {
      var rest := Characteristic(f, roots[1..]);
      CharacteristicRoots(f, roots[1..], x);
      EvalProduct(f, Linear(f, roots[0]), rest, x);
      EvalLinear(f, roots[0], x);
      RootOfLinear(f, x, roots[0]);
      MulZero(f, Eval(f, Linear(f, roots[0]), x));
      MulZero(f, Eval(f, rest, x));
      if Eval(f, Characteristic(f, roots), x) == f.zero {
        NoZeroDivisors(f, Eval(f, Linear(f, roots[0]), x), Eval(f, rest, x));
      }
      assert roots == [roots[0]] + roots[1..];
    }
  }
}
