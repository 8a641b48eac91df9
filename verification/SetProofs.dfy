/** Polynomial set proofs. A tree of polynomials mirrors a boolean query: an intersection divides both of
    its operands with coprime quotients, a union is the intersection times both quotients. Hashes, the
    division and the extended Euclidean algorithm are foreign; a `Suite` holds them as functions. */
module SetProofs {
  import opened Wrappers
  import opened Hex
  import opened Field
  import opened Polynomial
  import opened BooleanExpr

  datatype SetProofLeaf = SetProofLeaf(
    keyword: string, nodeName: string, rootHash: seq<Byte>, proof: seq<Byte>, fids: seq<string>)

  datatype Transparent<F> = Transparent(commitment: seq<Byte>, coefficients: seq<F>)

  datatype Parts<F> = Parts(
    setPolynomial: Transparent<F>, intersection: Transparent<F>,
    quotientLeft: Transparent<F>, quotientRight: Transparent<F>,
    bezoutU: Transparent<F>, bezoutV: Transparent<F>, challenge: F)

  datatype Node<F> =
    | LeafNode(leaf: SetProofLeaf, setPolynomial: Transparent<F>)
    | AndNode(parts: Parts<F>, left: Node<F>, right: Node<F>)
    | OrNode(parts: Parts<F>, left: Node<F>, right: Node<F>)

  datatype Suite<!F> = Suite(
    field: Field<F>,
    commit: seq<F> -> seq<Byte>,
    challenge: seq<seq<Byte>> -> F,
    rootOf: string -> F,
    listed: multiset<string> -> seq<string>,
    sorted: set<string> -> seq<string>,
    divide: (seq<F>, seq<F>) -> Option<(seq<F>, seq<F>)>,
    xgcd: (seq<F>, seq<F>) -> Option<(seq<F>, seq<F>, seq<F>)>,
    leafOk: SetProofLeaf -> bool)

  // ----- transparent polynomials

  function FromDense<F>(s: Suite<F>, p: seq<F>): Transparent<F> {
    Transparent(s.commit(p), p)
  }

  function ToDense<F(==)>(s: Suite<F>, t: Transparent<F>): Result<seq<F>> {
    if s.commit(t.coefficients) != t.commitment then Err("transparent polynomial commitment mismatch")
    else Ok(Polynomial.Trim(s.field, t.coefficients))
  }

  predicate VerifyTransparent<F(==)>(s: Suite<F>, t: Transparent<F>) {
    var dense := ToDense(s, t);
    dense.Ok? && s.commit(dense.value) == t.commitment
  }

  function Value<F>(s: Suite<F>, t: Transparent<F>, x: F): F {
    Eval(s.field, t.coefficients, x)
  }

  function Roots<F>(s: Suite<F>, fids: seq<string>): seq<F> {
    seq(|fids|, i requires 0 <= i < |fids| => s.rootOf(fids[i]))
  }

  /** `build_characteristic_polynomial`: the identifiers are first collected into a multiset. */
  function CharacteristicOf<F(==)>(s: Suite<F>, fids: seq<string>): Transparent<F> {
    FromDense(s, Characteristic(s.field, Roots(s, s.listed(multiset(fids)))))
  }

  function PolynomialOf<F>(node: Node<F>): Transparent<F> {
    if node.LeafNode? then node.setPolynomial else node.parts.setPolynomial
  }

  function Transcript<F>(left: Transparent<F>, right: Transparent<F>, p: Parts<F>): seq<seq<Byte>> {
    [ left.commitment, right.commitment, p.setPolynomial.commitment, p.intersection.commitment,
      p.quotientLeft.commitment, p.quotientRight.commitment, p.bezoutU.commitment, p.bezoutV.commitment ]
  }

  // ----- verification

  /** What a binary node claims: the intersection divides both operands, with coprime quotients, and the node's own
      polynomial is the intersection or that times both quotients. */
  datatype Equation = LeftDivides | RightDivides | Coprime | ResultIs

  /** One equation at one point. */
  predicate Holds<F(==)>(
      s: Suite<F>, left: Transparent<F>, right: Transparent<F>, p: Parts<F>, union: bool, equation: Equation, x: F)
  {
    var f := s.field;
    var i, ql, qr := Value(s, p.intersection, x), Value(s, p.quotientLeft, x), Value(s, p.quotientRight, x);
    match equation
    case LeftDivides => Value(s, left, x) == f.mul(i, ql)
    case RightDivides => Value(s, right, x) == f.mul(i, qr)
    case Coprime => f.add(f.mul(Value(s, p.bezoutU, x), ql), f.mul(Value(s, p.bezoutV, x), qr)) == f.one
    case ResultIs => Value(s, p.setPolynomial, x) == if union then f.mul(f.mul(i, ql), qr) else i
  }

  /** The equations of a binary node at one point. */
  predicate Equations<F(==)>(s: Suite<F>, left: Transparent<F>, right: Transparent<F>, p: Parts<F>, union: bool, x: F) {
    && Holds(s, left, right, p, union, LeftDivides, x) && Holds(s, left, right, p, union, RightDivides, x)
    && Holds(s, left, right, p, union, Coprime, x) && Holds(s, left, right, p, union, ResultIs, x)
  }

  predicate PartsCommitted<F(==)>(s: Suite<F>, p: Parts<F>) {
    && VerifyTransparent(s, p.setPolynomial) && VerifyTransparent(s, p.intersection)
    && VerifyTransparent(s, p.quotientLeft) && VerifyTransparent(s, p.quotientRight)
    && VerifyTransparent(s, p.bezoutU) && VerifyTransparent(s, p.bezoutV)
  }

  function VerifyBinary<F(==)>(
      s: Suite<F>, left: Option<Transparent<F>>, right: Option<Transparent<F>>, p: Parts<F>, union: bool): Option<Transparent<F>>
  {
    if left.None? || right.None? || !PartsCommitted(s, p) then None
    else if s.challenge(Transcript(left.value, right.value, p)) != p.challenge then None
    else if !Equations(s, left.value, right.value, p, union, p.challenge) then None
    else Some(p.setPolynomial)
  }

  function VerifyNode<F(==)>(s: Suite<F>, node: Node<F>): Option<Transparent<F>> {
    match node
    case LeafNode(leaf, poly) => if s.leafOk(leaf) && VerifyTransparent(s, poly) then Some(poly) else None
    case AndNode(p, l, r) => VerifyBinary(s, VerifyNode(s, l), VerifyNode(s, r), p, false)
    case OrNode(p, l, r) => VerifyBinary(s, VerifyNode(s, l), VerifyNode(s, r), p, true)
  }

  predicate VerifyAggregate<F(==)>(s: Suite<F>, resultFids: seq<string>, root: Node<F>) {
    VerifyNode(s, root) == Some(CharacteristicOf(s, resultFids))
  }

  // ----- soundness

  /** The equations of every node as polynomial identities: at every point, not just the challenge. */
  ghost predicate Identities<F(!new)>(s: Suite<F>, node: Node<F>) {
    match node
    case LeafNode(_, _) => true
    case AndNode(p, l, r) =>
      Identities(s, l) && Identities(s, r) && forall x: F :: Equations(s, PolynomialOf(l), PolynomialOf(r), p, false, x)
    case OrNode(p, l, r) =>
      Identities(s, l) && Identities(s, r) && forall x: F :: Equations(s, PolynomialOf(l), PolynomialOf(r), p, true, x)
  }

  /** The challenge is no lucky point: an equation that holds there holds everywhere. */
  ghost predicate ChallengeTells<F(!new)>(s: Suite<F>, left: Transparent<F>, right: Transparent<F>, p: Parts<F>, union: bool) {
    forall equation, x: F :: Holds(s, left, right, p, union, equation, p.challenge) ==> Holds(s, left, right, p, union, equation, x)
  }

  ghost predicate ChallengesTell<F(!new)>(s: Suite<F>, node: Node<F>) {
    !node.LeafNode? ==>
      && ChallengesTell(s, node.left) && ChallengesTell(s, node.right)
      && ChallengeTells(s, PolynomialOf(node.left), PolynomialOf(node.right), node.parts, node.OrNode?)
  }

  /** Acceptance gives the equations at the challenges, and challenges that tell make them identities. */
  lemma {:induction false} AcceptedIdentities<F(!new)>(s: Suite<F>, node: Node<F>)
    requires VerifyNode(s, node).Some? && ChallengesTell(s, node)
    ensures Identities(s, node) && VerifyNode(s, node).value == PolynomialOf(node)
  {
    if !node.LeafNode? {
      AcceptedIdentities(s, node.left);
      AcceptedIdentities(s, node.right);
    }
  }

  // ----- what is refused

  /** What is wrong at the node itself: the storager's proof or a commitment is, or the challenge is not the one derived,
      or an equation fails there. */
  ghost predicate Defective<F(!new)>(s: Suite<F>, node: Node<F>) {
    if node.LeafNode? then !s.leafOk(node.leaf) || !VerifyTransparent(s, node.setPolynomial)
    else
      var left, right, p := PolynomialOf(node.left), PolynomialOf(node.right), node.parts;
      || !PartsCommitted(s, p)
      || p.challenge != s.challenge(Transcript(left, right, p))
      || exists equation :: !Holds(s, left, right, p, node.OrNode?, equation, p.challenge)
  }

  /** `part` is the tree or somewhere in it. */
  ghost predicate IsPart<F(!new)>(part: Node<F>, whole: Node<F>) {
    part == whole || (!whole.LeafNode? && (IsPart(part, whole.left) || IsPart(part, whole.right)))
  }

  lemma AcceptedHere<F(!new)>(s: Suite<F>, node: Node<F>)
    requires !node.LeafNode? && VerifyNode(s, node.left) == Some(PolynomialOf(node.left))
    requires VerifyNode(s, node.right) == Some(PolynomialOf(node.right))
    ensures VerifyNode(s, node) == if Defective(s, node) then None else Some(PolynomialOf(node))
  {
    var left, right, p := PolynomialOf(node.left), PolynomialOf(node.right), node.parts;
    if !Equations(s, left, right, p, node.OrNode?, p.challenge) {
      assert exists equation :: !Holds(s, left, right, p, node.OrNode?, equation, p.challenge);
    }
  }

  /** A tree is accepted if and only if nothing is wrong at any of its nodes. */
  lemma {:induction false} AcceptedIff<F(!new)>(s: Suite<F>, node: Node<F>)
    ensures VerifyNode(s, node).Some? <==> forall part :: IsPart(part, node) ==> !Defective(s, part)
    ensures VerifyNode(s, node).Some? ==> VerifyNode(s, node).value == PolynomialOf(node)
  {
    assert IsPart(node, node);
    if node.LeafNode? {
      assert VerifyNode(s, node).Some? <==> !Defective(s, node);
      forall part | IsPart(part, node) ensures part == node {}
    } else {
      AcceptedIff(s, node.left);
      AcceptedIff(s, node.right);
      if VerifyNode(s, node.left).Some? && VerifyNode(s, node.right).Some? {
        AcceptedHere(s, node);
      }
      forall part ensures IsPart(part, node) <==> part == node || IsPart(part, node.left) || IsPart(part, node.right) {}
    }
  }

  lemma AcceptedIsCommitted<F(!new)>(s: Suite<F>, node: Node<F>)
    requires VerifyNode(s, node).Some?
    ensures VerifyTransparent(s, PolynomialOf(node))
  {
    AcceptedIff(s, node);
    assert IsPart(node, node);
  }

  lemma AcceptedBinary<F(!new)>(s: Suite<F>, node: Node<F>)
    requires VerifyNode(s, node).Some? && !node.LeafNode?
    ensures VerifyTransparent(s, PolynomialOf(node.left)) && VerifyTransparent(s, PolynomialOf(node.right))
    ensures PartsCommitted(s, node.parts)
    ensures node.parts.challenge == s.challenge(Transcript(PolynomialOf(node.left), PolynomialOf(node.right), node.parts))
  {
    AcceptedIff(s, node.left);
    AcceptedIff(s, node.right);
    AcceptedIsCommitted(s, node.left);
    AcceptedIsCommitted(s, node.right);
  }

  /** The commitment tells two polynomials apart. */
  predicate NoCollision<F(==)>(s: Suite<F>, t: Transparent<F>, u: Transparent<F>) {
    s.commit(t.coefficients) == s.commit(u.coefficients) ==> t.coefficients == u.coefficients
  }

  lemma CommitmentBinds<F>(s: Suite<F>, t: Transparent<F>, u: Transparent<F>)
    requires VerifyTransparent(s, t) && VerifyTransparent(s, u) && t.commitment == u.commitment && NoCollision(s, t, u)
    ensures t == u
  {}

  predicate NoCollisions<F(==)>(s: Suite<F>, p: Parts<F>, q: Parts<F>) {
    && NoCollision(s, p.setPolynomial, q.setPolynomial) && NoCollision(s, p.intersection, q.intersection)
    && NoCollision(s, p.quotientLeft, q.quotientLeft) && NoCollision(s, p.quotientRight, q.quotientRight)
    && NoCollision(s, p.bezoutU, q.bezoutU) && NoCollision(s, p.bezoutV, q.bezoutV)
  }

  lemma PartsBind<F>(s: Suite<F>, p: Parts<F>, q: Parts<F>, ta: seq<seq<Byte>>,
      l: Transparent<F>, r: Transparent<F>, l': Transparent<F>, r': Transparent<F>)
    requires PartsCommitted(s, p) && PartsCommitted(s, q) && NoCollisions(s, p, q)
    requires ta == Transcript(l, r, p) == Transcript(l', r', q)
    ensures q == p.(challenge := q.challenge) && l.commitment == l'.commitment && r.commitment == r'.commitment
  {
    assert ta[0] == l.commitment == l'.commitment && ta[1] == r.commitment == r'.commitment;
    assert ta[2] == p.setPolynomial.commitment == q.setPolynomial.commitment && ta[3] == p.intersection.commitment == q.intersection.commitment;
    assert ta[4] == p.quotientLeft.commitment == q.quotientLeft.commitment && ta[5] == p.quotientRight.commitment == q.quotientRight.commitment;
    assert ta[6] == p.bezoutU.commitment == q.bezoutU.commitment && ta[7] == p.bezoutV.commitment == q.bezoutV.commitment;
    CommitmentBinds(s, p.setPolynomial, q.setPolynomial);
    CommitmentBinds(s, p.intersection, q.intersection);
    CommitmentBinds(s, p.quotientLeft, q.quotientLeft);
    CommitmentBinds(s, p.quotientRight, q.quotientRight);
    CommitmentBinds(s, p.bezoutU, q.bezoutU);
    CommitmentBinds(s, p.bezoutV, q.bezoutV);
  }

  /** The transcript binds: accepted nodes with the same transcript claim the same polynomials at the same challenge, unless
      two of their polynomials collide under the commitment. */
  lemma TranscriptBinds<F(!new)>(s: Suite<F>, a: Node<F>, b: Node<F>)
    requires !a.LeafNode? && !b.LeafNode? && VerifyNode(s, a).Some? && VerifyNode(s, b).Some?
    requires Transcript(PolynomialOf(a.left), PolynomialOf(a.right), a.parts)
      == Transcript(PolynomialOf(b.left), PolynomialOf(b.right), b.parts)
    requires NoCollision(s, PolynomialOf(a.left), PolynomialOf(b.left)) && NoCollision(s, PolynomialOf(a.right), PolynomialOf(b.right))
    requires NoCollisions(s, a.parts, b.parts)
    ensures PolynomialOf(a.left) == PolynomialOf(b.left) && PolynomialOf(a.right) == PolynomialOf(b.right) && a.parts == b.parts
  {
    AcceptedBinary(s, a);
    AcceptedBinary(s, b);
    var ta := Transcript(PolynomialOf(a.left), PolynomialOf(a.right), a.parts);
    PartsBind(s, a.parts, b.parts, ta, PolynomialOf(a.left), PolynomialOf(a.right), PolynomialOf(b.left), PolynomialOf(b.right));
    CommitmentBinds(s, PolynomialOf(a.left), PolynomialOf(b.left));
    CommitmentBinds(s, PolynomialOf(a.right), PolynomialOf(b.right));
  }

  // ----- what is accepted

  /** Every leaf's polynomial is the characteristic polynomial of its identifiers. */
  ghost predicate LeavesMatch<F>(s: Suite<F>, node: Node<F>) {
    match node
    case LeafNode(leaf, poly) => poly == CharacteristicOf(s, leaf.fids)
    case AndNode(_, l, r) => LeavesMatch(s, l) && LeavesMatch(s, r)
    case OrNode(_, l, r) => LeavesMatch(s, l) && LeavesMatch(s, r)
  }

  function FidSet(fids: seq<string>): set<string> {
    set fid | fid in fids
  }

  /** The boolean evaluation of the leaves' identifier sets. */
  function Selected<F>(node: Node<F>): set<string> {
    match node
    case LeafNode(leaf, _) => FidSet(leaf.fids)
    case AndNode(_, l, r) => Selected(l) * Selected(r)
    case OrNode(_, l, r) => Selected(l) + Selected(r)
  }

  /** All identifiers that leaves list. */
  function LeafFids<F>(node: Node<F>): set<string> {
    match node
    case LeafNode(leaf, _) => FidSet(leaf.fids)
    case AndNode(_, l, r) => LeafFids(l) + LeafFids(r)
    case OrNode(_, l, r) => LeafFids(l) + LeafFids(r)
  }

  /** The hash into the field has no collision among these identifiers. */
  ghost predicate DistinctRoots<F>(s: Suite<F>, fids: set<string>) {
    forall a, b :: a in fids && b in fids && s.rootOf(a) == s.rootOf(b) ==> a == b
  }

  lemma {:induction false} SelectedFromLeaves<F>(node: Node<F>)
    ensures Selected(node) <= LeafFids(node)
  {
    match node
    case LeafNode(_, _) =>
    case AndNode(_, l, r) => SelectedFromLeaves(l); SelectedFromLeaves(r);
    case OrNode(_, l, r) => SelectedFromLeaves(l); SelectedFromLeaves(r);
  }

  ghost predicate Lists<F>(s: Suite<F>) {
    && (forall m :: multiset(s.listed(m)) == m)
    && (forall st :: multiset(s.sorted(st)) == multiset(st))
  }

  /** An intersection node vanishes exactly where both operands do, a union node where either does; the intersection
      polynomial of either kind vanishes where both do. */
  lemma NodeRoots<F(!new)>(s: Suite<F>, left: Transparent<F>, right: Transparent<F>, p: Parts<F>, union: bool, x: F)
    requires IsField(s.field) && Equations(s, left, right, p, union, x)
    ensures
      var f := s.field;
      Value(s, p.setPolynomial, x) == f.zero <==>
        if union then Value(s, left, x) == f.zero || Value(s, right, x) == f.zero
        else Value(s, left, x) == f.zero && Value(s, right, x) == f.zero
    ensures
      Value(s, p.intersection, x) == s.field.zero <==> Value(s, left, x) == s.field.zero && Value(s, right, x) == s.field.zero
  {
    var f := s.field;
    var i, ql, qr := Value(s, p.intersection, x), Value(s, p.quotientLeft, x), Value(s, p.quotientRight, x);
    MulZero(f, i);
    MulZero(f, ql);
    MulZero(f, qr);
    MulZero(f, f.mul(i, ql));
    if Value(s, left, x) == f.zero && i != f.zero {
      NoZeroDivisors(f, i, ql);
    }
    if Value(s, right, x) == f.zero && i != f.zero {
      NoZeroDivisors(f, i, qr);
    }
    if Value(s, p.setPolynomial, x) == f.zero && union {
      NoZeroDivisors(f, f.mul(i, ql), qr);
    }
    MulZero(f, Value(s, p.bezoutU, x));
    MulZero(f, Value(s, p.bezoutV, x));
    assert Laws(f, f.zero, f.zero, f.zero);
  }

  lemma CharacteristicVanishes<F(!new)>(s: Suite<F>, fids: seq<string>, fid: string)
    requires IsField(s.field) && Lists(s) && DistinctRoots(s, FidSet(fids) + {fid})
    ensures Value(s, CharacteristicOf(s, fids), s.rootOf(fid)) == s.field.zero <==> fid in fids
  {
    var list := s.listed(multiset(fids));
    CharacteristicRoots(s.field, Roots(s, list), s.rootOf(fid));
    assert fid in list <==> fid in multiset(list);
    assert fid in fids <==> fid in multiset(fids);
    if fid in list {
      var i :| 0 <= i < |list| && list[i] == fid;
      assert Roots(s, list)[i] == s.rootOf(fid);
    }
    if s.rootOf(fid) in Roots(s, list) {
      var i :| 0 <= i < |list| && Roots(s, list)[i] == s.rootOf(fid);
      assert list[i] in multiset(list);
      assert list[i] == fid;
    }
  }

  /** At any depth the root polynomial vanishes exactly at the identifiers the query selects, as long as the
      hash into the field tells the identifiers at hand apart. */
  lemma {:induction false} RootsAreSelected<F(!new)>(s: Suite<F>, node: Node<F>, fid: string)
    requires IsField(s.field) && Lists(s) && Identities(s, node) && LeavesMatch(s, node)
    requires DistinctRoots(s, LeafFids(node) + {fid})
    ensures Value(s, PolynomialOf(node), s.rootOf(fid)) == s.field.zero <==> fid in Selected(node)
  {
    match node
    case LeafNode(leaf, _) => CharacteristicVanishes(s, leaf.fids, fid);
    case AndNode(p, l, r) =>
      RootsAreSelected(s, l, fid);
      RootsAreSelected(s, r, fid);
      NodeRoots(s, PolynomialOf(l), PolynomialOf(r), p, false, s.rootOf(fid));
    case OrNode(p, l, r) =>
      RootsAreSelected(s, l, fid);
      RootsAreSelected(s, r, fid);
      NodeRoots(s, PolynomialOf(l), PolynomialOf(r), p, true, s.rootOf(fid));
  }

  /** The verifier does not compare a leaf's polynomial with its list: a leaf that lists one identifier is accepted with
      the polynomial of another, as proof of a result the query does not select. */
  lemma ForeignPolynomialIsAccepted<F(!new)>(s: Suite<F>, leaf: SetProofLeaf)
    requires IsField(s.field) && Lists(s) && DistinctRoots(s, {"a", "b"})
    requires s.leafOk(leaf) && leaf.fids == ["a"] && VerifyTransparent(s, CharacteristicOf(s, ["b"]))
    ensures
      var node := LeafNode(leaf, CharacteristicOf(s, ["b"]));
      VerifyAggregate(s, ["b"], node) && !LeavesMatch(s, node) && Selected(node) == {"a"} != FidSet(["b"])
  {
    FewerRoots(s, {"a", "b"}, FidSet(["a"]) + {"b"});
    FewerRoots(s, {"a", "b"}, FidSet(["b"]) + {"b"});
    CharacteristicVanishes(s, ["a"], "b");
    CharacteristicVanishes(s, ["b"], "b");
    assert "b" in ["b"] && "b" !in ["a"] && "a" in FidSet(["a"]) && "b" in FidSet(["b"]);
  }

  lemma FewerRoots<F>(s: Suite<F>, all: set<string>, some: set<string>)
    requires DistinctRoots(s, all) && some <= all
    ensures DistinctRoots(s, some)
  {}

  lemma AcceptedResultAt<F(!new)>(s: Suite<F>, resultFids: seq<string>, root: Node<F>, fid: string)
    requires IsField(s.field) && Lists(s) && ChallengesTell(s, root) && LeavesMatch(s, root)
    requires DistinctRoots(s, LeafFids(root) + FidSet(resultFids)) && fid in LeafFids(root) + FidSet(resultFids)
    requires VerifyAggregate(s, resultFids, root)
    ensures fid in FidSet(resultFids) <==> fid in Selected(root)
  {
    var all := LeafFids(root) + FidSet(resultFids);
    FewerRoots(s, all, LeafFids(root) + {fid});
    FewerRoots(s, all, FidSet(resultFids) + {fid});
    AcceptedIdentities(s, root);
    RootsAreSelected(s, root, fid);
    CharacteristicVanishes(s, resultFids, fid);
  }

  /** An accepted proof, at challenges that are no lucky points and over leaves with their own characteristic
      polynomials, claims exactly the identifiers the query selects. */
  lemma AcceptedResultIsSelected<F(!new)>(s: Suite<F>, resultFids: seq<string>, root: Node<F>)
    requires IsField(s.field) && Lists(s) && ChallengesTell(s, root) && LeavesMatch(s, root)
    requires DistinctRoots(s, LeafFids(root) + FidSet(resultFids)) && VerifyAggregate(s, resultFids, root)
    ensures FidSet(resultFids) == Selected(root)
  {
    SelectedFromLeaves(root);
    forall fid | fid in LeafFids(root) + FidSet(resultFids) ensures fid in FidSet(resultFids) <==> fid in Selected(root) {
      AcceptedResultAt(s, resultFids, root, fid);
    }
    assert FidSet(resultFids) == Selected(root);
  }
}
