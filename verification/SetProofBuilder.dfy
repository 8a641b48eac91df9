/** Building polynomial set proofs. Whatever the builders return holds as a polynomial identity, passes the
    verifier at the derived challenge, and selects what the query evaluates to. */
module SetProofBuilder {
  import opened Wrappers
  import opened Field
  import opened Polynomial
  import opened BooleanExpr
  import opened SetProofs

  function QuotientPolynomial<F(==)>(s: Suite<F>, numerator: Transparent<F>, denominator: Transparent<F>): Result<Transparent<F>> {
    match ToDense(s, numerator)
    case Err(e) => Err(e)
    case Ok(n) =>
      match ToDense(s, denominator)
      case Err(e) => Err(e)
      case Ok(d) =>
        match s.divide(n, d)
        case None => Err("polynomial division failed")
        case Some((quotient, remainder)) =>
          if remainder != [] then Err("polynomial division has non-zero remainder") else Ok(FromDense(s, quotient))
  }

  function NormalizeBezoutIdentity<F(==)>(s: Suite<F>, left: Transparent<F>, right: Transparent<F>)
    : Result<(Transparent<F>, Transparent<F>)>
  {
    match ToDense(s, left)
    case Err(e) => Err(e)
    case Ok(l) =>
      match ToDense(s, right)
      case Err(e) => Err(e)
      case Ok(r) =>
        match s.xgcd(l, r)
        case None => Err("extended gcd for quotient polynomials failed")
        case Some((gcd, u, v)) =>
          if gcd == [] then Err("gcd is zero")
          else if |gcd| != 1 then Err("quotient polynomials are not coprime")
          else if gcd[0] == s.field.zero then Err("gcd constant is zero")
          else
            var inv := s.field.inv(gcd[0]);
            Ok((FromDense(s, Scale(s.field, u, inv)), FromDense(s, Scale(s.field, v, inv))))
  }

  function MultiplyPolynomials<F(==)>(s: Suite<F>, left: Transparent<F>, right: Transparent<F>): Result<Transparent<F>> {
    match ToDense(s, left)
    case Err(e) => Err(e)
    case Ok(l) =>
      match ToDense(s, right)
      case Err(e) => Err(e)
      case Ok(r) => if l == [] && r == [] then Err("both operands are zero") else Ok(FromDense(s, Product(s.field, l, r)))
  }

  /** The common part of the two node builders. */
  function BuildParts<F(==)>(
      s: Suite<F>, left: Transparent<F>, right: Transparent<F>, setPoly: Transparent<F>, intersection: Transparent<F>): Result<Parts<F>>
  {
    var ql := QuotientPolynomial(s, left, intersection);
    var qr := QuotientPolynomial(s, right, intersection);
    if ql.Err? then Err(ql.error)
    else if qr.Err? then Err(qr.error)
    else
      match NormalizeBezoutIdentity(s, ql.value, qr.value)
      case Err(e) => Err(e)
      case Ok((u, v)) =>
        var p := Parts(setPoly, intersection, ql.value, qr.value, u, v, s.field.zero);
        Ok(p.(challenge := s.challenge(Transcript(left, right, p))))
  }

  function BuildIntersectionNode<F(==)>(s: Suite<F>, left: Node<F>, right: Node<F>, resultFids: seq<string>): Result<Node<F>> {
    var setPoly := CharacteristicOf(s, resultFids);
    match BuildParts(s, PolynomialOf(left), PolynomialOf(right), setPoly, setPoly)
    case Err(e) => Err(e)
    case Ok(p) => Ok(AndNode(p, left, right))
  }

  /** The union must be the intersection times both quotients. */
  predicate UnionMatches<F(==)>(s: Suite<F>, p: Parts<F>) {
    var quotients := MultiplyPolynomials(s, p.quotientLeft, p.quotientRight);
    && quotients.Ok?
    && MultiplyPolynomials(s, p.intersection, quotients.value) == Ok(p.setPolynomial)
  }

  function BuildUnionNode<F(==)>(
      s: Suite<F>, left: Node<F>, right: Node<F>, intersectionFids: seq<string>, resultFids: seq<string>): Result<Node<F>>
  {
    match BuildParts(s, PolynomialOf(left), PolynomialOf(right), CharacteristicOf(s, resultFids), CharacteristicOf(s, intersectionFids))
    case Err(e) => Err(e)
    case Ok(p) =>
      if UnionMatches(s, p) then Ok(OrNode(p, left, right))
      else Err("union polynomial does not match the provided result set")
  }

  /** `build_polynomial_proof_tree`: the proof together with the set it is for. */
  function BuildTree<F(==)>(s: Suite<F>, expr: Expr, leaves: map<string, SetProofLeaf>): Result<(Node<F>, set<string>)> {
    match expr
    case Keyword(kw) =>
      if kw !in leaves then Err("Missing query leaf data")
      else Ok((LeafNode(leaves[kw], CharacteristicOf(s, leaves[kw].fids)), FidSet(leaves[kw].fids)))
    case Not(_) => Err("NOT boolean queries are not supported by the polynomial proof layer")
    case And(l, r) =>
      var left := BuildTree(s, l, leaves);
      if left.Err? then Err(left.error)
      else
        var right := BuildTree(s, r, leaves);
        if right.Err? then Err(right.error)
        else
          var both := left.value.1 * right.value.1;
          var node := BuildIntersectionNode(s, left.value.0, right.value.0, s.sorted(both));
          if node.Err? then Err(node.error) else Ok((node.value, both))
    case Or(l, r) =>
      var left := BuildTree(s, l, leaves);
      if left.Err? then Err(left.error)
      else
        var right := BuildTree(s, r, leaves);
        if right.Err? then Err(right.error)
        else
          var both, either := left.value.1 * right.value.1, left.value.1 + right.value.1;
          var node := BuildUnionNode(s, left.value.0, right.value.0, s.sorted(both), s.sorted(either));
          if node.Err? then Err(node.error) else Ok((node.value, either))
  }

  // ----- what the foreign algorithms promise

  predicate Dense<F(==)>(f: Field<F>, p: seq<F>) {
    p == [] || p[|p| - 1] != f.zero
  }

  ghost predicate DividesWell<F(!new)>(s: Suite<F>, n: seq<F>, d: seq<F>) {
    s.divide(n, d).Some? ==>
      var (q, r) := s.divide(n, d).value;
      Dense(s.field, q) && (r == [] ==> forall x: F :: Eval(s.field, n, x) == s.field.mul(Eval(s.field, d, x), Eval(s.field, q, x)))
  }

  ghost predicate BezoutHolds<F(!new)>(s: Suite<F>, l: seq<F>, r: seq<F>) {
    var f := s.field;
    s.xgcd(l, r).Some? ==>
      var (g, u, v) := s.xgcd(l, r).value;
      && Dense(f, u) && Dense(f, v)
      && forall x: F :: f.add(f.mul(Eval(f, u, x), Eval(f, l, x)), f.mul(Eval(f, v, x), Eval(f, r, x))) == Eval(f, g, x)
  }

  ghost predicate GoodLibrary<F(!new)>(s: Suite<F>) {
    && IsField(s.field)
    && (forall n, d :: DividesWell(s, n, d))
    && (forall l, r :: BezoutHolds(s, l, r))
  }

  // ----- single polynomials

  lemma DenseIsTrimmed<F>(f: Field<F>, p: seq<F>)
    requires Dense(f, p)
    ensures Polynomial.Trim(f, p) == p
  {}

  lemma FromDenseVerifies<F>(s: Suite<F>, p: seq<F>)
    requires Dense(s.field, p)
    ensures VerifyTransparent(s, FromDense(s, p)) && ToDense(s, FromDense(s, p)) == Ok(p)
  {
    DenseIsTrimmed(s.field, p);
  }

  lemma CharacteristicVerifies<F(!new)>(s: Suite<F>, fids: seq<string>)
    requires IsField(s.field)
    ensures VerifyTransparent(s, CharacteristicOf(s, fids))
  {
    assert Laws(s.field, s.field.zero, s.field.zero, s.field.zero);
    FromDenseVerifies(s, CharacteristicOf(s, fids).coefficients);
  }

  lemma DenseValue<F(!new)>(s: Suite<F>, t: Transparent<F>, x: F)
    requires IsField(s.field) && ToDense(s, t).Ok?
    ensures Eval(s.field, ToDense(s, t).value, x) == Value(s, t, x)
  {
    EvalTrim(s.field, t.coefficients, x);
  }

  lemma QuotientHolds<F(!new)>(s: Suite<F>, n: Transparent<F>, d: Transparent<F>, x: F)
    requires GoodLibrary(s) && QuotientPolynomial(s, n, d).Ok?
    ensures
      var q := QuotientPolynomial(s, n, d).value;
      VerifyTransparent(s, q) && Value(s, n, x) == s.field.mul(Value(s, d, x), Value(s, q, x))
  {
    DenseValue(s, n, x);
    DenseValue(s, d, x);
    assert DividesWell(s, ToDense(s, n).value, ToDense(s, d).value);
    FromDenseVerifies(s, s.divide(ToDense(s, n).value, ToDense(s, d).value).value.0);
  }

  lemma ScaledIsDense<F(!new)>(f: Field<F>, p: seq<F>, c: F)
    requires IsField(f) && Dense(f, p) && c != f.zero
    ensures Dense(f, Scale(f, p, c))
  {
    if p != [] && f.mul(p[|p| - 1], c) == f.zero {
      NoZeroDivisors(f, p[|p| - 1], c);
    }
  }

  lemma InverseIsNotZero<F(!new)>(f: Field<F>, a: F)
    requires IsField(f) && a != f.zero
    ensures f.inv(a) != f.zero && f.mul(f.inv(a), a) == f.one
  {
    assert Laws(f, a, f.inv(a), a);
    MulZero(f, a);
  }

  lemma EvalConstant<F(!new)>(f: Field<F>, c: F, x: F)
    requires IsField(f)
    ensures Eval(f, [c], x) == c
  {
    assert EvalTo(f, [c], x, 1) == f.add(EvalTo(f, [c], x, 0), f.mul(c, Pow(f, x, 0)));
    assert Laws(f, c, f.zero, c) && Laws(f, f.zero, c, c);
  }

  /** Dividing a Bezout identity by its constant: `(i * a) * l + (i * b) * r == i * (a * l + b * r)`. */
  lemma ScaledIdentity<F(!new)>(f: Field<F>, i: F, a: F, l: F, b: F, r: F)
    requires IsField(f)
    ensures f.add(f.mul(f.mul(i, a), l), f.mul(f.mul(i, b), r)) == f.mul(i, f.add(f.mul(a, l), f.mul(b, r)))
  {
    assert Laws(f, i, a, l) && Laws(f, i, b, r);
    MulAdd(f, f.mul(a, l), f.mul(b, r), i);
  }

  lemma BezoutNormalized<F(!new)>(s: Suite<F>, l: Transparent<F>, r: Transparent<F>, x: F)
    requires GoodLibrary(s) && NormalizeBezoutIdentity(s, l, r).Ok?
    ensures
      var (f, (u, v)) := (s.field, NormalizeBezoutIdentity(s, l, r).value);
      && VerifyTransparent(s, u) && VerifyTransparent(s, v)
      && f.add(f.mul(Value(s, u, x), Value(s, l, x)), f.mul(Value(s, v, x), Value(s, r, x))) == f.one
  {
    var f, dl, dr := s.field, ToDense(s, l).value, ToDense(s, r).value;
    DenseValue(s, l, x);
    DenseValue(s, r, x);
    assert BezoutHolds(s, dl, dr);
    var (g, u, v) := s.xgcd(dl, dr).value;
    var inv := f.inv(g[0]);
    InverseIsNotZero(f, g[0]);
    assert g == [g[0]];
    EvalConstant(f, g[0], x);
    EvalScaleTo(f, u, inv, x, |u|);
    EvalScaleTo(f, v, inv, x, |v|);
    ScaledIdentity(f, inv, Eval(f, u, x), Value(s, l, x), Eval(f, v, x), Value(s, r, x));
    ScaledIsDense(f, u, inv);
    ScaledIsDense(f, v, inv);
    FromDenseVerifies(s, Scale(f, u, inv));
    FromDenseVerifies(s, Scale(f, v, inv));
  }

  lemma ProductHolds<F(!new)>(s: Suite<F>, l: Transparent<F>, r: Transparent<F>, x: F)
    requires IsField(s.field) && MultiplyPolynomials(s, l, r).Ok?
    ensures Value(s, MultiplyPolynomials(s, l, r).value, x) == s.field.mul(Value(s, l, x), Value(s, r, x))
  {
    DenseValue(s, l, x);
    DenseValue(s, r, x);
    EvalProduct(s.field, ToDense(s, l).value, ToDense(s, r).value, x);
  }

  // ----- nodes

  lemma PartsHold<F(!new)>(
      s: Suite<F>, left: Transparent<F>, right: Transparent<F>, setPoly: Transparent<F>, intersection: Transparent<F>, x: F)
    requires GoodLibrary(s) && BuildParts(s, left, right, setPoly, intersection).Ok?
    requires VerifyTransparent(s, setPoly) && VerifyTransparent(s, intersection)
    ensures
      var p := BuildParts(s, left, right, setPoly, intersection).value;
      && PartsCommitted(s, p) && p.setPolynomial == setPoly && p.intersection == intersection
      && s.challenge(Transcript(left, right, p)) == p.challenge
      && Value(s, left, x) == s.field.mul(Value(s, intersection, x), Value(s, p.quotientLeft, x))
      && Value(s, right, x) == s.field.mul(Value(s, intersection, x), Value(s, p.quotientRight, x))
      && s.field.add(s.field.mul(Value(s, p.bezoutU, x), Value(s, p.quotientLeft, x)),
                     s.field.mul(Value(s, p.bezoutV, x), Value(s, p.quotientRight, x))) == s.field.one
  {
    var p := BuildParts(s, left, right, setPoly, intersection).value;
    QuotientHolds(s, left, intersection, x);
    QuotientHolds(s, right, intersection, x);
    BezoutNormalized(s, p.quotientLeft, p.quotientRight, x);
    assert Transcript(left, right, p) == Transcript(left, right, p.(challenge := s.field.zero));
  }

  lemma UnionHolds<F(!new)>(s: Suite<F>, p: Parts<F>, x: F)
    requires IsField(s.field) && UnionMatches(s, p)
    ensures
      var i, ql, qr := Value(s, p.intersection, x), Value(s, p.quotientLeft, x), Value(s, p.quotientRight, x);
      Value(s, p.setPolynomial, x) == s.field.mul(s.field.mul(i, ql), qr)
  {
    var quotients := MultiplyPolynomials(s, p.quotientLeft, p.quotientRight).value;
    ProductHolds(s, p.quotientLeft, p.quotientRight, x);
    ProductHolds(s, p.intersection, quotients, x);
    assert Laws(s.field, Value(s, p.intersection, x), Value(s, p.quotientLeft, x), Value(s, p.quotientRight, x));
  }

  /** A built intersection node satisfies its equations at every point. */
  lemma IntersectionNodeHolds<F(!new)>(s: Suite<F>, left: Node<F>, right: Node<F>, fids: seq<string>, x: F)
    requires GoodLibrary(s) && BuildIntersectionNode(s, left, right, fids).Ok?
    ensures
      var node := BuildIntersectionNode(s, left, right, fids).value;
      && PartsCommitted(s, node.parts) && node.left == left && node.right == right
      && node.parts.setPolynomial == CharacteristicOf(s, fids)
      && s.challenge(Transcript(PolynomialOf(left), PolynomialOf(right), node.parts)) == node.parts.challenge
      && Equations(s, PolynomialOf(left), PolynomialOf(right), node.parts, false, x)
  {
    CharacteristicVerifies(s, fids);
    var setPoly := CharacteristicOf(s, fids);
    PartsHold(s, PolynomialOf(left), PolynomialOf(right), setPoly, setPoly, x);
  }

  /** A built union node satisfies its equations at every point. */
  lemma UnionNodeHolds<F(!new)>(
      s: Suite<F>, left: Node<F>, right: Node<F>, intersectionFids: seq<string>, fids: seq<string>, x: F)
    requires GoodLibrary(s) && BuildUnionNode(s, left, right, intersectionFids, fids).Ok?
    ensures
      var node := BuildUnionNode(s, left, right, intersectionFids, fids).value;
      && PartsCommitted(s, node.parts) && node.left == left && node.right == right
      && node.parts.setPolynomial == CharacteristicOf(s, fids)
      && s.challenge(Transcript(PolynomialOf(left), PolynomialOf(right), node.parts)) == node.parts.challenge
      && Equations(s, PolynomialOf(left), PolynomialOf(right), node.parts, true, x)
  {
    CharacteristicVerifies(s, fids);
    CharacteristicVerifies(s, intersectionFids);
    PartsHold(s, PolynomialOf(left), PolynomialOf(right), CharacteristicOf(s, fids), CharacteristicOf(s, intersectionFids), x);
    UnionHolds(s, BuildUnionNode(s, left, right, intersectionFids, fids).value.parts, x);
  }

  // ----- trees

  ghost predicate LeavesOk<F>(s: Suite<F>, leaves: map<string, SetProofLeaf>) {
    forall kw :: kw in leaves ==> s.leafOk(leaves[kw])
  }

  function Results(leaves: map<string, SetProofLeaf>): map<string, set<string>> {
    map kw | kw in leaves :: FidSet(leaves[kw].fids)
  }

  /** A built tree passes the verifier, and its equations hold at every point. */
  ghost predicate Verifies<F(!new)>(s: Suite<F>, node: Node<F>) {
    VerifyNode(s, node) == Some(PolynomialOf(node)) && Identities(s, node) && LeavesMatch(s, node)
  }

  lemma BinaryVerifies<F(!new)>(s: Suite<F>, node: Node<F>)
    requires !node.LeafNode? && Verifies(s, node.left) && Verifies(s, node.right) && PartsCommitted(s, node.parts)
    requires s.challenge(Transcript(PolynomialOf(node.left), PolynomialOf(node.right), node.parts)) == node.parts.challenge
    requires forall x: F :: Equations(s, PolynomialOf(node.left), PolynomialOf(node.right), node.parts, node.OrNode?, x)
    ensures Verifies(s, node)
  {
    assert Equations(s, PolynomialOf(node.left), PolynomialOf(node.right), node.parts, node.OrNode?, node.parts.challenge);
  }

  lemma LeafVerifies<F(!new)>(s: Suite<F>, leaf: SetProofLeaf)
    requires IsField(s.field) && s.leafOk(leaf)
    ensures Verifies(s, LeafNode(leaf, CharacteristicOf(s, leaf.fids)))
  {
    CharacteristicVerifies(s, leaf.fids);
  }

  lemma IntersectionNodeVerifies<F(!new)>(s: Suite<F>, left: Node<F>, right: Node<F>, fids: seq<string>)
    requires GoodLibrary(s) && BuildIntersectionNode(s, left, right, fids).Ok? && Verifies(s, left) && Verifies(s, right)
    ensures Verifies(s, BuildIntersectionNode(s, left, right, fids).value)
    ensures PolynomialOf(BuildIntersectionNode(s, left, right, fids).value) == CharacteristicOf(s, fids)
  {
    var node := BuildIntersectionNode(s, left, right, fids).value;
    IntersectionNodeHolds(s, left, right, fids, s.field.zero);
    forall x: F ensures Equations(s, PolynomialOf(node.left), PolynomialOf(node.right), node.parts, false, x) {
      IntersectionNodeHolds(s, left, right, fids, x);
    }
    BinaryVerifies(s, node);
  }

  lemma UnionNodeVerifies<F(!new)>(s: Suite<F>, left: Node<F>, right: Node<F>, intersectionFids: seq<string>, fids: seq<string>)
    requires GoodLibrary(s) && BuildUnionNode(s, left, right, intersectionFids, fids).Ok?
    requires Verifies(s, left) && Verifies(s, right)
    ensures Verifies(s, BuildUnionNode(s, left, right, intersectionFids, fids).value)
    ensures PolynomialOf(BuildUnionNode(s, left, right, intersectionFids, fids).value) == CharacteristicOf(s, fids)
  {
    var node := BuildUnionNode(s, left, right, intersectionFids, fids).value;
    UnionNodeHolds(s, left, right, intersectionFids, fids, s.field.zero);
    forall x: F ensures Equations(s, PolynomialOf(node.left), PolynomialOf(node.right), node.parts, true, x) {
      UnionNodeHolds(s, left, right, intersectionFids, fids, x);
    }
    BinaryVerifies(s, node);
  }

  /** The set a tree is built for is what the query evaluates to, whatever the foreign parts do: the
      manager's comparison of the two can never fail. */
  lemma {:induction false} BuiltSetIsEvaluation<F>(s: Suite<F>, expr: Expr, leaves: map<string, SetProofLeaf>)
    requires BuildTree(s, expr, leaves).Ok?
    ensures expr.NotFree() && BuildTree(s, expr, leaves).value.1 == expr.Evaluate(Results(leaves))
  {
    match expr
    case Keyword(_) =>
    case And(l, r) =>
      BuiltSetIsEvaluation(s, l, leaves);
      BuiltSetIsEvaluation(s, r, leaves);
    case Or(l, r) =>
      BuiltSetIsEvaluation(s, l, leaves);
      BuiltSetIsEvaluation(s, r, leaves);
  }

  lemma {:induction false} BuiltSetIsSelected<F>(s: Suite<F>, expr: Expr, leaves: map<string, SetProofLeaf>)
    requires BuildTree(s, expr, leaves).Ok?
    ensures Selected(BuildTree(s, expr, leaves).value.0) == BuildTree(s, expr, leaves).value.1
  {
    match expr
    case Keyword(_) =>
    case And(l, r) =>
      BuiltSetIsSelected(s, l, leaves);
      BuiltSetIsSelected(s, r, leaves);
    case Or(l, r) =>
      BuiltSetIsSelected(s, l, leaves);
      BuiltSetIsSelected(s, r, leaves);
  }

  lemma {:induction false} BuiltTreeHolds<F(!new)>(s: Suite<F>, expr: Expr, leaves: map<string, SetProofLeaf>)
    requires GoodLibrary(s) && LeavesOk(s, leaves) && BuildTree(s, expr, leaves).Ok?
    ensures
      var (node, fids) := BuildTree(s, expr, leaves).value;
      Verifies(s, node) && (!expr.Keyword? ==> PolynomialOf(node) == CharacteristicOf(s, s.sorted(fids)))
  {
    match expr
    case Keyword(kw) => LeafVerifies(s, leaves[kw]);
    case And(l, r) =>
      BuiltTreeHolds(s, l, leaves);
      BuiltTreeHolds(s, r, leaves);
      var (left, ls) := BuildTree(s, l, leaves).value;
      var (right, rs) := BuildTree(s, r, leaves).value;
      IntersectionNodeVerifies(s, left, right, s.sorted(ls * rs));
    case Or(l, r) =>
      BuiltTreeHolds(s, l, leaves);
      BuiltTreeHolds(s, r, leaves);
      var (left, ls) := BuildTree(s, l, leaves).value;
      var (right, rs) := BuildTree(s, r, leaves).value;
      UnionNodeVerifies(s, left, right, s.sorted(ls * rs), s.sorted(ls + rs));
  }

  // ----- single keywords

  lemma ProductOfLinear<F(!new)>(f: Field<F>, r: F, p: seq<F>)
    requires IsField(f) && p != [] && p[|p| - 1] == f.one
    ensures
      var q := Product(f, Linear(f, r), p);
      |q| == |p| + 1 && q[|p|] == f.one
  {
    var l := Linear(f, r);
    var rows := Rows(f, l, p, 2);
    assert Convolve(f, l, p, |p|, 1) == Convolve(f, l, p, |p|, 0) == f.zero;
    assert Convolve(f, l, p, |p|, 2) == f.add(Convolve(f, l, p, |p|, 1), f.mul(l[1], p[|p| - 1]));
    assert rows[|p|] == Convolve(f, l, p, |p|, 2);
    assert Laws(f, f.one, f.zero, f.zero) && Laws(f, f.zero, f.one, f.one) && Laws(f, f.one, f.one, f.one);
  }

  /** A characteristic polynomial is monic, of the degree of its roots. */
  lemma {:induction false} CharacteristicDegree<F(!new)>(f: Field<F>, roots: seq<F>)
    requires IsField(f)
    ensures
      var p := Characteristic(f, roots);
      |p| == |roots| + 1 && p[|roots|] == f.one
    decreases |roots|
  {
    if roots != [] {
      CharacteristicDegree(f, roots[1..]);
      ProductOfLinear(f, roots[0], Characteristic(f, roots[1..]));
    }
  }

  predicate Distinct(fids: seq<string>) {
    multiset(fids) == multiset(FidSet(fids))
  }

  /** A proof for a single keyword verifies if and only if its identifiers are distinct. */
  lemma LeafProofIff<F(!new)>(s: Suite<F>, leaf: SetProofLeaf)
    requires IsField(s.field) && Lists(s) && s.leafOk(leaf)
    ensures VerifyAggregate(s, s.sorted(FidSet(leaf.fids)), LeafNode(leaf, CharacteristicOf(s, leaf.fids))) <==> Distinct(leaf.fids)
  {
    var once := s.sorted(FidSet(leaf.fids));
    LeafVerifies(s, leaf);
    if !Distinct(leaf.fids) {
      var a, b := s.listed(multiset(leaf.fids)), s.listed(multiset(once));
      DistinctByLength(leaf.fids, once);
      SameMultisetSameLength(a, leaf.fids);
      SameMultisetSameLength(b, once);
      CharacteristicDegree(s.field, Roots(s, a));
      CharacteristicDegree(s.field, Roots(s, b));
    }
  }

  lemma SameMultisetSameLength(a: seq<string>, b: seq<string>)
    requires multiset(a) == multiset(b)
    ensures |a| == |b|
  {
    assert |multiset(a)| == |a| && |multiset(b)| == |b|;
  }

  lemma DistinctByLength(fids: seq<string>, once: seq<string>)
    requires multiset(once) == multiset(FidSet(fids)) && !Distinct(fids)
    ensures |once| < |fids|
  {
    assert |multiset(once)| == |once| && |multiset(fids)| == |fids|;
    var all, each := multiset(fids), multiset(FidSet(fids));
    forall fid ensures each[fid] <= all[fid] {
      assert fid in FidSet(fids) ==> fid in all;
    }
    assert each <= all && each != all;
    assert all == each + (all - each);
    assert all - each != multiset{};
  }

  /** A tree the builder returns is accepted for the set it returns if and only if it is not a single
      keyword with duplicate identifiers; and that set is what the query evaluates to and what the tree's
      leaves select. */
  lemma BuiltTreeIsAccepted<F(!new)>(s: Suite<F>, expr: Expr, leaves: map<string, SetProofLeaf>)
    requires GoodLibrary(s) && Lists(s) && LeavesOk(s, leaves) && BuildTree(s, expr, leaves).Ok?
    ensures
      var (node, fids) := BuildTree(s, expr, leaves).value;
      && fids == expr.Evaluate(Results(leaves)) == Selected(node) && expr.NotFree() && Identities(s, node)
      && (VerifyAggregate(s, s.sorted(fids), node) <==> (expr.Keyword? ==> Distinct(leaves[expr.keyword].fids)))
  {
    BuiltSetIsEvaluation(s, expr, leaves);
    BuiltSetIsSelected(s, expr, leaves);
    BuiltTreeHolds(s, expr, leaves);
    if expr.Keyword? {
      LeafProofIff(s, leaves[expr.keyword]);
    }
  }
}
