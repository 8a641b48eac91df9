/** Fields, given by their operations and laws. The scalar field of the pairing library is one; nothing
    below uses more of it than these laws. */
module Field {

  datatype Field<!F> = Field(zero: F, one: F, add: (F, F) -> F, mul: (F, F) -> F, neg: F -> F, inv: F -> F)

  /** The laws for three elements. */
  ghost predicate Laws<F>(f: Field<F>, a: F, b: F, c: F) {
    && f.add(a, b) == f.add(b, a)
    && f.add(f.add(a, b), c) == f.add(a, f.add(b, c))
    && f.add(a, f.zero) == a
    && f.add(a, f.neg(a)) == f.zero
    && f.mul(a, b) == f.mul(b, a)
    && f.mul(f.mul(a, b), c) == f.mul(a, f.mul(b, c))
    && f.mul(a, f.one) == a
    && f.mul(f.add(a, b), c) == f.add(f.mul(a, c), f.mul(b, c))
    && (a != f.zero ==> f.mul(a, f.inv(a)) == f.one)
    && f.zero != f.one
  }

  ghost predicate IsField<F(!new)>(f: Field<F>) {
    forall a: F, b: F, c: F {:trigger Laws(f, a, b, c)} :: Laws(f, a, b, c)
  }

  lemma MulZero<F(!new)>(f: Field<F>, a: F)
    requires IsField(f)
    ensures f.mul(a, f.zero) == f.zero && f.mul(f.zero, a) == f.zero
  {
    var z := f.mul(f.zero, a);
    assert Laws(f, f.zero, f.zero, a) && Laws(f, z, z, f.neg(z)) && Laws(f, z, f.zero, a) && Laws(f, a, f.zero, a);
    assert f.add(z, z) == z;
  }

  lemma NoZeroDivisors<F(!new)>(f: Field<F>, a: F, b: F)
    requires IsField(f) && f.mul(a, b) == f.zero
    ensures a == f.zero || b == f.zero
  {
    if a != f.zero {
      var i := f.inv(a);
      assert Laws(f, a, i, b) && Laws(f, i, a, b) && Laws(f, b, f.one, b) && Laws(f, f.one, b, b);
      assert f.mul(f.mul(i, a), b) == f.mul(i, f.zero);
      MulZero(f, i);
    }
  }

  /** `(a + b) + (c + d) == (a + c) + (b + d)` */
  lemma AddSwap<F(!new)>(f: Field<F>, a: F, b: F, c: F, d: F)
    requires IsField(f)
    ensures f.add(f.add(a, b), f.add(c, d)) == f.add(f.add(a, c), f.add(b, d))
  {
    assert Laws(f, a, b, f.add(c, d)) && Laws(f, b, c, d) && Laws(f, c, b, d) && Laws(f, a, c, f.add(b, d));
  }

  /** `(a + b) + c == (a + c) + b` */
  lemma AddLast<F(!new)>(f: Field<F>, a: F, b: F, c: F)
    requires IsField(f)
    ensures f.add(f.add(a, b), c) == f.add(f.add(a, c), b)
  {
    assert Laws(f, a, b, c) && Laws(f, b, c, a) && Laws(f, a, c, b);
  }

  /** `c * (a + b) == c * a + c * b` */
  lemma MulAdd<F(!new)>(f: Field<F>, a: F, b: F, c: F)
    requires IsField(f)
    ensures f.mul(c, f.add(a, b)) == f.add(f.mul(c, a), f.mul(c, b))
  {
    assert Laws(f, a, b, c) && Laws(f, c, f.add(a, b), c) && Laws(f, c, a, c) && Laws(f, c, b, c);
  }

  /** `(a * b) * (c * d) == (a * c) * (b * d)` */
  lemma MulSwap<F(!new)>(f: Field<F>, a: F, b: F, c: F, d: F)
    requires IsField(f)
    ensures f.mul(f.mul(a, b), f.mul(c, d)) == f.mul(f.mul(a, c), f.mul(b, d))
  {
    assert Laws(f, a, b, f.mul(c, d)) && Laws(f, b, c, d) && Laws(f, c, b, d) && Laws(f, a, c, f.mul(b, d));
  }

  /** `x - r` vanishes at `r` alone. */
  lemma RootOfLinear<F(!new)>(f: Field<F>, x: F, r: F)
    requires IsField(f)
    ensures f.add(x, f.neg(r)) == f.zero <==> x == r
  {
    assert Laws(f, r, f.neg(r), r) && Laws(f, x, f.neg(r), r) && Laws(f, f.neg(r), r, r);
    assert Laws(f, x, f.zero, r) && Laws(f, f.zero, r, r) && Laws(f, r, f.zero, r);
    if f.add(x, f.neg(r)) == f.zero {
      assert f.add(f.add(x, f.neg(r)), r) == f.add(x, f.add(f.neg(r), r)) == x;
    }
  }
}
