/** The verifier for boolean query proofs that split every pair of operands into three parts: what both
    hold, what only the left holds and what only the right holds. */
module DecompositionProofs {
  import opened Wrappers
  import opened Hex
  import opened SetProofs

  datatype Decomposition = Decomposition(
    intersectionFids: seq<string>, leftOnlyFids: seq<string>, rightOnlyFids: seq<string>,
    intersectionLeftOnly: seq<Byte>, intersectionRightOnly: seq<Byte>, leftOnlyRightOnly: seq<Byte>)

  datatype ProofNode =
    | Leaf(leaf: SetProofLeaf)
    | And(left: ProofNode, right: ProofNode, decomposition: Decomposition)
    | Or(left: ProofNode, right: ProofNode, decomposition: Decomposition)

  /** The foreign checks: a storager's own proof, and an accumulator's proof that two lists are disjoint; and the order in
      which a set is listed. */
  datatype Checks = Checks(
    leafOk: SetProofLeaf -> bool, disjoint: (seq<string>, seq<string>, seq<Byte>) -> bool, sorted: set<string> -> seq<string>)

  predicate VerifyDisjointness(c: Checks, left: seq<string>, right: seq<string>, proof: seq<Byte>) {
    if left == [] || right == [] then proof == [] else c.disjoint(left, right, proof)
  }

  predicate VerifyPairwiseDisjoint(c: Checks, d: Decomposition) {
    && VerifyDisjointness(c, d.intersectionFids, d.leftOnlyFids, d.intersectionLeftOnly)
    && VerifyDisjointness(c, d.intersectionFids, d.rightOnlyFids, d.intersectionRightOnly)
    && VerifyDisjointness(c, d.leftOnlyFids, d.rightOnlyFids, d.leftOnlyRightOnly)
  }

  predicate Composes(c: Checks, d: Decomposition, left: set<string>, right: set<string>) {
    && VerifyPairwiseDisjoint(c, d)
    && FidSet(d.intersectionFids) + FidSet(d.leftOnlyFids) == left
    && FidSet(d.intersectionFids) + FidSet(d.rightOnlyFids) == right
  }

  function VerifyNode(c: Checks, node: ProofNode, rootHashes: map<string, seq<Byte>>): Option<set<string>> {
    match node
    case Leaf(leaf) =>
      if leaf.nodeName !in rootHashes || rootHashes[leaf.nodeName] != leaf.rootHash || !c.leafOk(leaf) then None
      else Some(FidSet(leaf.fids))
    case And(l, r, d) =>
      var left, right := VerifyNode(c, l, rootHashes), VerifyNode(c, r, rootHashes);
      if left.None? || right.None? || !Composes(c, d, left.value, right.value) then None
      else Some(FidSet(d.intersectionFids))
    case Or(l, r, d) =>
      var left, right := VerifyNode(c, l, rootHashes), VerifyNode(c, r, rootHashes);
      if left.None? || right.None? || !Composes(c, d, left.value, right.value) then None
      else Some(FidSet(d.intersectionFids) + FidSet(d.leftOnlyFids) + FidSet(d.rightOnlyFids))
  }

  predicate VerifyAggregate(c: Checks, resultFids: seq<string>, root: ProofNode, rootHashes: map<string, seq<Byte>>) {
    var result := VerifyNode(c, root, rootHashes);
    result.Some? && c.sorted(result.value) == resultFids
  }

  /** The boolean evaluation of the leaves. */
  function Evaluate(node: ProofNode): set<string> {
    match node
    case Leaf(leaf) => FidSet(leaf.fids)
    case And(l, r, _) => Evaluate(l) * Evaluate(r)
    case Or(l, r, _) => Evaluate(l) + Evaluate(r)
  }

  /** A disjointness proof that is accepted between these two lists is right. */
  ghost predicate ProofIsSound(c: Checks, left: seq<string>, right: seq<string>, proof: seq<Byte>) {
    c.disjoint(left, right, proof) ==> FidSet(left) !! FidSet(right)
  }

  /** The three disjointness proofs of a decomposition do not lie. */
  ghost predicate PartsAreSound(c: Checks, d: Decomposition) {
    && ProofIsSound(c, d.intersectionFids, d.leftOnlyFids, d.intersectionLeftOnly)
    && ProofIsSound(c, d.intersectionFids, d.rightOnlyFids, d.intersectionRightOnly)
    && ProofIsSound(c, d.leftOnlyFids, d.rightOnlyFids, d.leftOnlyRightOnly)
  }

  /** No disjointness proof in the tree is a forgery; nothing is asked of proofs outside it. */
  ghost predicate Sound(c: Checks, node: ProofNode) {
    !node.Leaf? ==> PartsAreSound(c, node.decomposition) && Sound(c, node.left) && Sound(c, node.right)
  }

  lemma DisjointnessIsSound(c: Checks, left: seq<string>, right: seq<string>, proof: seq<Byte>)
    requires ProofIsSound(c, left, right, proof) && VerifyDisjointness(c, left, right, proof)
    ensures FidSet(left) !! FidSet(right)
  {
    if left == [] {
      assert FidSet(left) == {};
    } else if right == [] {
      assert FidSet(right) == {};
    }
  }

  /** An accepted decomposition is the only one: it lists the intersection and the two differences. */
  lemma DecompositionIsForced(c: Checks, d: Decomposition, left: set<string>, right: set<string>)
    requires PartsAreSound(c, d) && Composes(c, d, left, right)
    ensures FidSet(d.intersectionFids) == left * right
    ensures FidSet(d.leftOnlyFids) == left - right && FidSet(d.rightOnlyFids) == right - left
  {
    DisjointnessIsSound(c, d.intersectionFids, d.leftOnlyFids, d.intersectionLeftOnly);
    DisjointnessIsSound(c, d.intersectionFids, d.rightOnlyFids, d.intersectionRightOnly);
    DisjointnessIsSound(c, d.leftOnlyFids, d.rightOnlyFids, d.leftOnlyRightOnly);
  }

  /** Whatever tree is accepted, the set returned is the boolean evaluation of its leaves. */
  lemma {:induction false} AcceptedIsEvaluation(c: Checks, node: ProofNode, rootHashes: map<string, seq<Byte>>)
    requires Sound(c, node) && VerifyNode(c, node, rootHashes).Some?
    ensures VerifyNode(c, node, rootHashes).value == Evaluate(node)
  {
    match node
    case Leaf(_) =>
    case And(l, r, d) =>
      AcceptedIsEvaluation(c, l, rootHashes);
      AcceptedIsEvaluation(c, r, rootHashes);
      DecompositionIsForced(c, d, Evaluate(l), Evaluate(r));
    case Or(l, r, d) =>
      AcceptedIsEvaluation(c, l, rootHashes);
      AcceptedIsEvaluation(c, r, rootHashes);
      DecompositionIsForced(c, d, Evaluate(l), Evaluate(r));
  }

  /** A conjunction or disjunction of accepted operands is accepted exactly with the true decomposition and
      accepted disjointness proofs. */
  lemma BinaryIsAcceptedIff(c: Checks, node: ProofNode, rootHashes: map<string, seq<Byte>>)
    requires Sound(c, node) && !node.Leaf?
    requires VerifyNode(c, node.left, rootHashes).Some? && VerifyNode(c, node.right, rootHashes).Some?
    ensures
      var (l, r, d) := (Evaluate(node.left), Evaluate(node.right), node.decomposition);
      VerifyNode(c, node, rootHashes).Some? <==>
        && VerifyPairwiseDisjoint(c, d)
        && FidSet(d.intersectionFids) == l * r && FidSet(d.leftOnlyFids) == l - r && FidSet(d.rightOnlyFids) == r - l
  {
    AcceptedIsEvaluation(c, node.left, rootHashes);
    AcceptedIsEvaluation(c, node.right, rootHashes);
    var l, r, d := Evaluate(node.left), Evaluate(node.right), node.decomposition;
    if VerifyNode(c, node, rootHashes).Some? {
      DecompositionIsForced(c, d, l, r);
    }
    assert l * r + (l - r) == l && l * r + (r - l) == r;
  }

  /** The storager's own proof is accepted, and its root hash is the one given for that storager. */
  predicate LeafIsGood(c: Checks, leaf: SetProofLeaf, rootHashes: map<string, seq<Byte>>) {
    c.leafOk(leaf) && leaf.nodeName in rootHashes && rootHashes[leaf.nodeName] == leaf.rootHash
  }

  function Leaves(node: ProofNode): set<SetProofLeaf> {
    if node.Leaf? then {node.leaf} else Leaves(node.left) + Leaves(node.right)
  }

  /** Two lists come with an accepted proof that they are disjoint; if one is empty, with none. */
  predicate ShownDisjoint(c: Checks, left: seq<string>, right: seq<string>, proof: seq<Byte>) {
    || (left != [] && right != [] && c.disjoint(left, right, proof))
    || ((left == [] || right == []) && proof == [])
  }

  /** The decomposition at every node below lists the intersection and the differences, shown to be disjoint. */
  predicate Decomposed(c: Checks, node: ProofNode) {
    !node.Leaf? ==>
      var d := node.decomposition;
      && Decomposed(c, node.left) && Decomposed(c, node.right)
      && ShownDisjoint(c, d.intersectionFids, d.leftOnlyFids, d.intersectionLeftOnly)
      && ShownDisjoint(c, d.intersectionFids, d.rightOnlyFids, d.intersectionRightOnly)
      && ShownDisjoint(c, d.leftOnlyFids, d.rightOnlyFids, d.leftOnlyRightOnly)
      && FidSet(node.decomposition.intersectionFids) == Evaluate(node.left) * Evaluate(node.right)
      && FidSet(node.decomposition.leftOnlyFids) == Evaluate(node.left) - Evaluate(node.right)
      && FidSet(node.decomposition.rightOnlyFids) == Evaluate(node.right) - Evaluate(node.left)
  }

  /** A tree is accepted exactly if all its leaves are good and all its decompositions are true. */
  lemma {:induction false} TreeIsAcceptedIff(c: Checks, node: ProofNode, rootHashes: map<string, seq<Byte>>)
    requires Sound(c, node)
    ensures VerifyNode(c, node, rootHashes).Some? <==>
      (forall leaf :: leaf in Leaves(node) ==> LeafIsGood(c, leaf, rootHashes)) && Decomposed(c, node)
  {
    if node.Leaf? {
      assert node.leaf in Leaves(node);
    } else {
      TreeIsAcceptedIff(c, node.left, rootHashes);
      TreeIsAcceptedIff(c, node.right, rootHashes);
      assert forall leaf :: leaf in Leaves(node) <==> leaf in Leaves(node.left) || leaf in Leaves(node.right);
      if VerifyNode(c, node.left, rootHashes).Some? && VerifyNode(c, node.right, rootHashes).Some? {
        BinaryIsAcceptedIff(c, node, rootHashes);
      }
    }
  }

  /** A result is accepted exactly over good leaves and true decompositions, and if it lists the evaluation in order. */
  lemma ResultIsAcceptedIff(c: Checks, resultFids: seq<string>, root: ProofNode, rootHashes: map<string, seq<Byte>>)
    requires Sound(c, root)
    ensures VerifyAggregate(c, resultFids, root, rootHashes) <==>
      && (forall leaf :: leaf in Leaves(root) ==> LeafIsGood(c, leaf, rootHashes)) && Decomposed(c, root)
      && resultFids == c.sorted(Evaluate(root))
  {
    TreeIsAcceptedIff(c, root, rootHashes);
    if VerifyNode(c, root, rootHashes).Some? {
      AcceptedIsEvaluation(c, root, rootHashes);
    }
  }
}
