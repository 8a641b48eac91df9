/** Set proofs over accumulator values. The verifier recomputes every set itself and has the foreign
    proofs confirm the accumulator values; the builder mirrors the query. */
module AccumulatorProofs {
  import opened Wrappers
  import opened Hex
  import opened BooleanExpr
  import SetProofs

  datatype ProofNode<I, U> =
    | LeafNode(leaf: SetProofs.SetProofLeaf)
    | AndNode(left: ProofNode<I, U>, right: ProofNode<I, U>, resultFids: seq<string>, intersection: I)
    | OrNode(left: ProofNode<I, U>, right: ProofNode<I, U>, resultFids: seq<string>, union: U)

  /** The foreign accumulator, with values `V`, intersection proofs `I` and union proofs `U`. */
  datatype Accumulator<!V, !I, !U> = Accumulator(
    value: set<string> -> V,
    proveIntersection: (set<string>, set<string>, set<string>) -> Result<I>,
    proveUnion: (V, I, set<string>) -> Result<U>,
    verifyIntersection: (I, V, V, V) -> bool,
    verifyUnion: (U, V, V, V) -> bool,
    sorted: set<string> -> seq<string>,
    sortedSlice: seq<string> -> seq<string>,
    leafOk: SetProofs.SetProofLeaf -> bool)

  function Verify<V, I, U>(acc: Accumulator<V, I, U>, node: ProofNode<I, U>): Option<set<string>> {
    match node
    case LeafNode(leaf) => if acc.leafOk(leaf) then Some(SetProofs.FidSet(leaf.fids)) else None
    case AndNode(l, r, fids, proof) =>
      var left, right := Verify(acc, l), Verify(acc, r);
      if left.None? || right.None? then None
      else
        var result := left.value * right.value;
        if acc.sorted(result) != acc.sortedSlice(fids) then None
        else if !acc.verifyIntersection(proof, acc.value(left.value), acc.value(right.value), acc.value(SetProofs.FidSet(fids))) then None
        else Some(result)
    case OrNode(l, r, fids, proof) =>
      var left, right := Verify(acc, l), Verify(acc, r);
      if left.None? || right.None? then None
      else
        var result := left.value + right.value;
        if acc.sorted(result) != acc.sortedSlice(fids) then None
        else if !acc.verifyUnion(proof, acc.value(left.value), acc.value(right.value), acc.value(SetProofs.FidSet(fids))) then None
        else Some(result)
  }

  predicate VerifyAggregate<V, I, U>(acc: Accumulator<V, I, U>, resultFids: seq<string>, root: ProofNode<I, U>) {
    var result := Verify(acc, root);
    result.Some? && acc.sorted(result.value) == resultFids
  }

  /** `build_accumulator_proof_tree` */
  function BuildTree<V, I, U>(acc: Accumulator<V, I, U>, expr: Expr, leaves: map<string, SetProofs.SetProofLeaf>)
    : Result<(ProofNode<I, U>, set<string>)>
  {
    match expr
    case Keyword(kw) =>
      if kw !in leaves then Err("Missing query leaf data") else Ok((LeafNode(leaves[kw]), SetProofs.FidSet(leaves[kw].fids)))
    case Not(_) => Err("NOT boolean queries are not supported by the accumulator proof layer")
    case And(l, r) =>
      var left, right := BuildTree(acc, l, leaves), BuildTree(acc, r, leaves);
      if left.Err? then Err(left.error)
      else if right.Err? then Err(right.error)
      else
        var both := left.value.1 * right.value.1;
        var proof := acc.proveIntersection(left.value.1, right.value.1, both);
        if proof.Err? then Err(proof.error)
        else Ok((AndNode(left.value.0, right.value.0, acc.sorted(both), proof.value), both))
    case Or(l, r) =>
      var left, right := BuildTree(acc, l, leaves), BuildTree(acc, r, leaves);
      if left.Err? then Err(left.error)
      else if right.Err? then Err(right.error)
      else
        var both, either := left.value.1 * right.value.1, left.value.1 + right.value.1;
        var intersection := acc.proveIntersection(left.value.1, right.value.1, both);
        if intersection.Err? then Err(intersection.error)
        else
          var proof := acc.proveUnion(acc.value(both), intersection.value, either);
          if proof.Err? then Err(proof.error)
          else Ok((OrNode(left.value.0, right.value.0, acc.sorted(either), proof.value), either))
  }

  /** The boolean evaluation of the leaves. */
  function Evaluate<I, U>(node: ProofNode<I, U>): set<string> {
    match node
    case LeafNode(leaf) => SetProofs.FidSet(leaf.fids)
    case AndNode(l, r, _, _) => Evaluate(l) * Evaluate(r)
    case OrNode(l, r, _, _) => Evaluate(l) + Evaluate(r)
  }

  ghost predicate Lists<V, I, U>(acc: Accumulator<V, I, U>) {
    && (forall st :: SetProofs.FidSet(acc.sorted(st)) == st)
    && (forall st :: acc.sortedSlice(acc.sorted(st)) == acc.sorted(st))
    && (forall fids :: multiset(acc.sortedSlice(fids)) == multiset(fids))
  }

  /** Proofs made for two sets and their intersection or union verify. */
  ghost predicate Complete<V(!new), I, U>(acc: Accumulator<V, I, U>) {
    forall a, b ::
      var proof := acc.proveIntersection(a, b, a * b);
      proof.Ok? ==>
        && acc.verifyIntersection(proof.value, acc.value(a), acc.value(b), acc.value(a * b))
        && var union := acc.proveUnion(acc.value(a * b), proof.value, a + b);
           (union.Ok? ==> acc.verifyUnion(union.value, acc.value(a), acc.value(b), acc.value(a + b)))
  }

  /** Whatever tree is accepted, the set returned is the evaluation of its leaves, and the listed
      identifiers of every node are those it stands for, each once. */
  lemma {:induction false} AcceptedIsEvaluation<V(!new), I, U>(acc: Accumulator<V, I, U>, node: ProofNode<I, U>)
    requires Lists(acc) && Verify(acc, node).Some?
    ensures Verify(acc, node).value == Evaluate(node)
    ensures !node.LeafNode? ==>
      SetProofs.FidSet(node.resultFids) == Evaluate(node) && multiset(node.resultFids) == multiset(acc.sorted(Evaluate(node)))
  {
    if !node.LeafNode? {
      AcceptedIsEvaluation(acc, node.left);
      AcceptedIsEvaluation(acc, node.right);
      assert multiset(acc.sortedSlice(node.resultFids)) == multiset(node.resultFids);
      SameElements(acc.sorted(Evaluate(node)), node.resultFids);
    }
  }

  function Leaves<I, U>(node: ProofNode<I, U>): set<SetProofs.SetProofLeaf> {
    if node.LeafNode? then {node.leaf} else Leaves(node.left) + Leaves(node.right)
  }

  /** Every node below lists what it stands for, each once and in order, with an accepted proof. */
  predicate Claimed<V, I, U>(acc: Accumulator<V, I, U>, node: ProofNode<I, U>) {
    !node.LeafNode? ==>
      var left, right, listed := acc.value(Evaluate(node.left)), acc.value(Evaluate(node.right)), acc.value(Evaluate(node));
      && Claimed(acc, node.left) && Claimed(acc, node.right) && acc.sortedSlice(node.resultFids) == acc.sorted(Evaluate(node))
      && if node.AndNode? then acc.verifyIntersection(node.intersection, left, right, listed) else acc.verifyUnion(node.union, left, right, listed)
  }

  /** A tree is accepted exactly if each leaf's own proof is, and each node's list and proof are right. */
  lemma {:induction false} TreeIsAcceptedIff<V(!new), I, U>(acc: Accumulator<V, I, U>, node: ProofNode<I, U>)
    requires Lists(acc)
    ensures Verify(acc, node).Some? <==> (forall leaf :: leaf in Leaves(node) ==> acc.leafOk(leaf)) && Claimed(acc, node)
    ensures Verify(acc, node).Some? ==> Verify(acc, node).value == Evaluate(node)
  {
    if !node.LeafNode? {
      TreeIsAcceptedIff(acc, node.left);
      TreeIsAcceptedIff(acc, node.right);
      if acc.sortedSlice(node.resultFids) == acc.sorted(Evaluate(node)) {
        assert multiset(acc.sortedSlice(node.resultFids)) == multiset(node.resultFids);
        SameElements(acc.sorted(Evaluate(node)), node.resultFids);
      }
    }
  }

  lemma SameElements(a: seq<string>, b: seq<string>)
    requires multiset(a) == multiset(b)
    ensures SetProofs.FidSet(a) == SetProofs.FidSet(b)
  {
    forall x ensures x in a <==> x in b {
      assert x in a <==> x in multiset(a);
      assert x in b <==> x in multiset(b);
    }
  }

  /** A result is accepted exactly with an accepted tree, and if it is the evaluation of that tree, each identifier once and
      in order. */
  lemma AcceptedResult<V(!new), I, U>(acc: Accumulator<V, I, U>, resultFids: seq<string>, root: ProofNode<I, U>)
    requires Lists(acc)
    ensures VerifyAggregate(acc, resultFids, root) <==>
      && (forall leaf :: leaf in Leaves(root) ==> acc.leafOk(leaf)) && Claimed(acc, root)
      && resultFids == acc.sorted(Evaluate(root))
    ensures VerifyAggregate(acc, resultFids, root) ==> SetProofs.FidSet(resultFids) == Evaluate(root)
  {
    TreeIsAcceptedIff(acc, root);
  }

  /** A built tree is for exactly the set the query evaluates to, passes the verifier with it, and exists
      only for expressions without negation. */
  lemma {:induction false} BuiltTreeIsAccepted<V(!new), I, U>(
      acc: Accumulator<V, I, U>, expr: Expr, leaves: map<string, SetProofs.SetProofLeaf>, results: map<string, set<string>>)
    requires Lists(acc) && Complete(acc) && BuildTree(acc, expr, leaves).Ok?
    requires forall kw :: kw in leaves ==> acc.leafOk(leaves[kw])
    requires results == map kw | kw in leaves :: SetProofs.FidSet(leaves[kw].fids)
    ensures
      var (node, fids) := BuildTree(acc, expr, leaves).value;
      && expr.NotFree() && fids == expr.Evaluate(results)
      && Verify(acc, node) == Some(fids) && VerifyAggregate(acc, acc.sorted(fids), node)
  {
    match expr
    case Keyword(_) =>
    case And(l, r) =>
      BuiltTreeIsAccepted(acc, l, leaves, results);
      BuiltTreeIsAccepted(acc, r, leaves, results);
    case Or(l, r) =>
      BuiltTreeIsAccepted(acc, l, leaves, results);
      BuiltTreeIsAccepted(acc, r, leaves, results);
  }
}
