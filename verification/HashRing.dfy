/** The consistent-hash ring object. */
module HashRing {
  import opened Wrappers
  import opened ConsistentHash

  function VirtualNodeOf(hashKey: string -> Hash, node: string, i: nat): VirtualNode {
    VirtualNode(hashKey(KeyOf(node, i)), KeyOf(node, i))
  }

  function VirtualNodesOf(hashKey: string -> Hash, node: string, count: nat): seq<VirtualNode> {
    seq(count, i requires 0 <= i < count => VirtualNodeOf(hashKey, node, i))
  }

  /** The ring holds the virtual nodes of its nodes and nothing else. */
  ghost predicate IsVirtualNode(hashKey: string -> Hash, nodes: map<string, nat>, v: VirtualNode) {
    exists n, i: nat :: n in nodes && i < nodes[n] && v == VirtualNodeOf(hashKey, n, i)
  }

  ghost predicate RingOk(hashKey: string -> Hash, ring: seq<VirtualNode>, nodes: map<string, nat>) {
    && Sorted(ring)
    && (forall n :: n in nodes ==> ValidName(n))
    && (forall v :: v in ring <==> IsVirtualNode(hashKey, nodes, v))
  }

  lemma OwnerOfVirtualNode(hashKey: string -> Hash, ring: seq<VirtualNode>, nodes: map<string, nat>, v: VirtualNode)
    requires RingOk(hashKey, ring, nodes) && v in ring
    ensures BeforeLastHash(v.key) == Some(Owner(v)) && Owner(v) in nodes
    ensures forall node :: ValidName(node) ==> (node + "#" <= v.key <==> node == Owner(v))
  {
    assert IsVirtualNode(hashKey, nodes, v);
    var n, i: nat :| n in nodes && i < nodes[n] && v == VirtualNodeOf(hashKey, n, i);
    OwnerOfKey(n, i);
    forall node | ValidName(node) ensures node + "#" <= v.key <==> node == n {
      PrefixOfKey(node, n, i);
    }
  }

  lemma {:induction false} WithoutNone(s: seq<VirtualNode>, node: string)
    requires forall v :: v in s ==> !(node + "#" <= v.key)
    ensures Without(s, node) == s
    decreases |s|
  {
    if s != [] {
      assert s == s[..|s| - 1] + [s[|s| - 1]];
      WithoutNone(s[..|s| - 1], node);
    }
  }

  lemma {:induction false} WithoutAll(s: seq<VirtualNode>, node: string)
    requires forall v :: v in s ==> node + "#" <= v.key
    ensures Without(s, node) == []
    decreases |s|
  {
    if s != [] {
      WithoutAll(s[..|s| - 1], node);
    }
  }

  lemma NewNodesAreMarked(hashKey: string -> Hash, node: string, count: nat, v: VirtualNode)
    requires ValidName(node) && v in VirtualNodesOf(hashKey, node, count)
    ensures node + "#" <= v.key && Owner(v) == node
  {
    var i: nat :| i < count && v == VirtualNodeOf(hashKey, node, i);
    OwnerOfKey(node, i);
    PrefixOfKey(node, node, i);
  }

  lemma AddKeepsRing(hashKey: string -> Hash, ring: seq<VirtualNode>, nodes: map<string, nat>, node: string, count: nat)
    requires RingOk(hashKey, ring, nodes) && ValidName(node) && node !in nodes
    ensures RingOk(hashKey, Sort(ring + VirtualNodesOf(hashKey, node, count)), nodes[node := count])
  {
    var added, nodes' := VirtualNodesOf(hashKey, node, count), nodes[node := count];
    SortIsSorted(ring + added);
    forall v ensures v in Sort(ring + added) <==> IsVirtualNode(hashKey, nodes', v) {
      SortMembers(ring + added, v);
      if IsVirtualNode(hashKey, nodes, v) {
        var n, i: nat :| n in nodes && i < nodes[n] && v == VirtualNodeOf(hashKey, n, i);
        assert n in nodes' && i < nodes'[n];
      }
      if v in added {
        var i: nat :| i < count && v == added[i];
        assert node in nodes' && i < nodes'[node];
      }
      if IsVirtualNode(hashKey, nodes', v) {
        var n, i: nat :| n in nodes' && i < nodes'[n] && v == VirtualNodeOf(hashKey, n, i);
        if n == node {
          assert added[i] == v;
        } else {
          assert IsVirtualNode(hashKey, nodes, v);
        }
      }
    }
  }

  lemma {:induction false} WithoutKeepsSorted(s: seq<VirtualNode>, node: string)
    requires Sorted(s)
    ensures Sorted(Without(s, node))
    decreases |s|
  {
    if s != [] {
      var init := s[..|s| - 1];
      WithoutKeepsSorted(init, node);
      forall i | 0 <= i < |Without(init, node)| ensures Without(init, node)[i].hash <= s[|s| - 1].hash {
        WithoutMembers(init, node, Without(init, node)[i]);
      }
    }
  }

  lemma RemoveKeepsRing(hashKey: string -> Hash, ring: seq<VirtualNode>, nodes: map<string, nat>, node: string)
    requires RingOk(hashKey, ring, nodes) && ValidName(node)
    ensures RingOk(hashKey, Without(ring, node), nodes - {node})
  {
    WithoutKeepsSorted(ring, node);
    forall v ensures v in Without(ring, node) <==> IsVirtualNode(hashKey, nodes - {node}, v) {
      WithoutMembers(ring, node, v);
      RemainingNode(hashKey, ring, nodes, node, v);
    }
  }

  lemma RemainingNode(hashKey: string -> Hash, ring: seq<VirtualNode>, nodes: map<string, nat>, node: string, v: VirtualNode)
    requires RingOk(hashKey, ring, nodes) && ValidName(node)
    ensures IsVirtualNode(hashKey, nodes - {node}, v) <==> v in ring && !(node + "#" <= v.key)
  {
    var nodes' := nodes - {node};
    if v in ring && !(node + "#" <= v.key) {
      assert IsVirtualNode(hashKey, nodes, v);
      var n, i: nat :| n in nodes && i < nodes[n] && v == VirtualNodeOf(hashKey, n, i);
      PrefixOfKey(node, n, i);
      assert n in nodes' && i < nodes'[n];
    }
    if IsVirtualNode(hashKey, nodes', v) {
      var n, i: nat :| n in nodes' && i < nodes'[n] && v == VirtualNodeOf(hashKey, n, i);
      assert n in nodes && i < nodes[n];
      PrefixOfKey(node, n, i);
    }
  }

  // ----- replicas

  /** Some virtual node of `a` comes before every virtual node of `b`. */
  ghost predicate Before(ring: seq<VirtualNode>, h: Hash, a: string, b: string) {
    exists v :: v in ring && Owner(v) == a
      && forall w :: w in ring && Owner(w) == b ==> Clockwise(h, v.hash) <= Clockwise(h, w.hash)
  }

  ghost predicate Owns(ring: seq<VirtualNode>, node: string) {
    exists v :: v in ring && Owner(v) == node
  }

  /** The nodes nearest to `h` clockwise: each once, nearest first, none left out that is nearer. */
  ghost predicate Replicas(ring: seq<VirtualNode>, h: Hash, count: nat, result: seq<string>) {
    && |result| <= count
    && (forall i :: 0 <= i < |result| ==> Owns(ring, result[i]))
    && (forall i, j :: 0 <= i < j < |result| ==> result[i] != result[j] && Before(ring, h, result[i], result[j]))
    && (forall node :: Owns(ring, node) && node !in result ==>
          |result| == count && forall i :: 0 <= i < |result| ==> Before(ring, h, result[i], node))
  }

  /** The owner met `i` places on. */
  function Met(ring: seq<VirtualNode>, start: nat, i: nat): string
    requires ring != []
  {
    Owner(Around(ring, start, i))
  }

  /** A walk that has looked at `n` places: `at` says where each owner of the result was first met. */
  ghost predicate Walked(ring: seq<VirtualNode>, start: nat, n: nat, result: seq<string>, at: seq<nat>)
    requires ring != []
  {
    && |at| == |result| && n <= |ring|
    && (forall i :: 0 <= i < |result| ==> at[i] < n && Met(ring, start, at[i]) == result[i])
    && (forall i, j :: 0 <= i < j < |result| ==> at[i] < at[j] && result[i] != result[j])
    && (forall i, k: nat :: 0 <= i < |result| && k < at[i] ==> Met(ring, start, k) != result[i])
    && (forall k: nat :: k < n ==> Met(ring, start, k) in result)
  }

  lemma MetSomewhere(ring: seq<VirtualNode>, start: nat, v: VirtualNode) returns (k: nat)
    requires start < |ring| && v in ring
    ensures k < |ring| && Around(ring, start, k) == v
  {
    var p :| 0 <= p < |ring| && ring[p] == v;
    k := if p >= start then p - start else p + |ring| - start;
    AroundIs(ring, start, k);
  }

  /** What is first met at `a` comes before what is not met before `a`. */
  lemma FirstMetIsBefore(ring: seq<VirtualNode>, h: Hash, start: nat, a: nat, node: string)
    requires IsStart(ring, h, start) && a < |ring|
    requires forall k: nat :: k < a ==> Met(ring, start, k) != node
    ensures Before(ring, h, Met(ring, start, a), node)
  {
    var v := Around(ring, start, a);
    AroundIs(ring, start, a);
    forall w | w in ring && Owner(w) == node ensures Clockwise(h, v.hash) <= Clockwise(h, w.hash) {
      var k := MetSomewhere(ring, start, w);
      assert Met(ring, start, k) == node;
    }
  }

  lemma WalkedOwns(ring: seq<VirtualNode>, start: nat, k: nat)
    requires start < |ring| && k < |ring|
    ensures Owns(ring, Met(ring, start, k))
  {
    AroundIs(ring, start, k);
    assert Around(ring, start, k) in ring;
  }

  /** A walk that is full or has gone all the way round yields the replicas. */
  lemma WalkedReplicas(ring: seq<VirtualNode>, h: Hash, start: nat, n: nat, count: nat, result: seq<string>, at: seq<nat>)
    requires IsStart(ring, h, start) && Walked(ring, start, n, result, at)
    requires |result| <= count && (|result| == count || n == |ring|)
    ensures Replicas(ring, h, count, result)
  {
    forall i | 0 <= i < |result| ensures Owns(ring, result[i]) {
      WalkedOwns(ring, start, at[i]);
    }
    forall i, j | 0 <= i < j < |result| ensures Before(ring, h, result[i], result[j]) {
      FirstMetIsBefore(ring, h, start, at[i], result[j]);
    }
    forall node | Owns(ring, node) && node !in result
      ensures |result| == count && forall i :: 0 <= i < |result| ==> Before(ring, h, result[i], node)
    {
      var v :| v in ring && Owner(v) == node;
      var k := MetSomewhere(ring, start, v);
      assert Met(ring, start, k) == node;
      forall i | 0 <= i < |result| ensures Before(ring, h, result[i], node) {
        FirstMetIsBefore(ring, h, start, at[i], node);
      }
    }
  }

  lemma SplitAtMatch(ring: seq<VirtualNode>, h: Hash, mid: nat)
    requires Sorted(ring) && mid < |ring| && ring[mid].hash == h
    ensures IsNext(ring, h, ring[mid])
    ensures DistinctHashes(ring) ==> IsStart(ring, h, mid)
  {
    if DistinctHashes(ring) {
      SplitIsStart(ring, h, mid);
    }
  }

  class ConsistentHashRing {
    const hashKey: string -> Hash
    var ring: seq<VirtualNode>
    var nodes: map<string, nat>

    ghost predicate Valid()
      reads this
    {
      RingOk(hashKey, ring, nodes)
    }

    constructor (hashKey: string -> Hash)
      ensures Valid() && ring == [] && nodes == map[] && this.hashKey == hashKey
    {
      this.hashKey := hashKey;
      ring, nodes := [], map[];
    }

    method AddNode(node: string, virtualNodes: nat) returns (error: Option<AddNodeError>)
      requires Valid()
      modifies this
      ensures Valid()
      ensures error == (if !ValidName(node) then Some(InvalidNodeName) else if node in old(nodes) then Some(NodeAlreadyExists) else None)
      ensures error.Some? ==> ring == old(ring) && nodes == old(nodes)
      ensures error.None? ==>
        && nodes == old(nodes)[node := virtualNodes]
        && ring == Sort(old(ring) + VirtualNodesOf(hashKey, node, virtualNodes))
    {
      if !ValidName(node) {
        return Some(InvalidNodeName);
      }
      if node in nodes {
        return Some(NodeAlreadyExists);
      }
      AddKeepsRing(hashKey, ring, nodes, node, virtualNodes);
      var newNodes: seq<VirtualNode> := [];
      for i := 0 to virtualNodes
        invariant newNodes == VirtualNodesOf(hashKey, node, i)
      {
        newNodes := newNodes + [VirtualNodeOf(hashKey, node, i)];
      }
      ring := Sort(ring + newNodes);
      nodes := nodes[node := virtualNodes];
      error := None;
    }

    method RemoveNode(node: string) returns (removed: bool)
      requires Valid()
      modifies this
      ensures Valid() && removed == (node in old(nodes))
      ensures nodes == old(nodes) - {node}
      ensures ring == if removed then Without(old(ring), node) else old(ring)
    {
      if node !in nodes {
        return false;
      }
      RemoveKeepsRing(hashKey, ring, nodes, node);
      nodes := nodes - {node};
      var kept: seq<VirtualNode> := [];
      for i := 0 to |ring|
        invariant ring == old(ring) && nodes == old(nodes) - {node} && kept == Without(ring[..i], node)
      {
        assert ring[..i + 1] == ring[..i] + [ring[i]];
        WithoutSnoc(ring[..i], ring[i], node);
        if !(node + "#" <= ring[i].key) {
          kept := kept + [ring[i]];
        }
      }
      assert ring[..|ring|] == ring;
      ring := kept;
      removed := true;
    }

    /** The binary search of the lookups. */
    method FindStart(h: Hash) returns (start: nat)
      requires Valid() && ring != []
      ensures start < |ring| && IsNext(ring, h, ring[start])
      ensures DistinctHashes(ring) ==> IsStart(ring, h, start)
    {
      var lo: nat, hi: nat := 0, |ring|;
      while lo < hi
        invariant lo <= hi <= |ring|
        invariant forall i :: 0 <= i < lo ==> ring[i].hash < h
        invariant forall i :: hi <= i < |ring| ==> ring[i].hash > h
      {
        var mid := (lo + hi) / 2;
        if ring[mid].hash == h {
          SplitAtMatch(ring, h, mid);
          return mid;
        } else if ring[mid].hash < h {
          lo := mid + 1;
        } else {
          hi := mid;
        }
      }
      SplitIsStart(ring, h, lo);
      start := if lo == |ring| then 0 else lo;
      StartIsNext(ring, h, start);
    }

    /** A key belongs to the owner of the next virtual node clockwise. */
    method GetNode(key: string) returns (owner: Option<string>)
      requires Valid()
      ensures owner.None? <==> ring == []
      ensures owner.Some? ==> owner.value in nodes
      ensures owner.Some? ==> exists v :: IsNext(ring, hashKey(key), v) && owner.value == Owner(v)
    {
      if ring == [] {
        return None;
      }
      var start := FindStart(hashKey(key));
      OwnerOfVirtualNode(hashKey, ring, nodes, ring[start]);
      owner := BeforeLastHash(ring[start].key);
    }

    /** The first `count` owners clockwise. */
    method GetNodes(key: string, count: nat) returns (result: seq<string>)
      requires Valid()
      ensures DistinctHashes(ring) ==> Replicas(ring, hashKey(key), count, result)
      ensures ring != [] && count > 0 ==> result != [] && exists v :: IsNext(ring, hashKey(key), v) && result[0] == Owner(v)
      ensures forall i :: 0 <= i < |result| ==> result[i] in nodes
    {
      if ring == [] || count == 0 {
        return [];
      }
      var start := FindStart(hashKey(key));
      result := [];
      var seen: set<string> := {};
      ghost var at: seq<nat> := [];
      var i: nat := 0;
      while i < |ring|
        invariant Walked(ring, start, i, result, at) && |result| < count
        invariant forall n :: n in seen <==> n in result
      {
        MeetNext(hashKey, ring, nodes, start, i, result, at);
        var node := BeforeLastHash(Around(ring, start, i).key).value;
        if node !in seen {
          seen := seen + {node};
          result, at := result + [node], at + [i];
        }
        i := i + 1;
        if |result| >= count {
          break;
        }
      }
      WalkEnds(hashKey, ring, nodes, hashKey(key), start, i, count, result, at);
    }
  }

  lemma WalkEnds(
      hashKey: string -> Hash, ring: seq<VirtualNode>, nodes: map<string, nat>,
      h: Hash, start: nat, n: nat, count: nat, result: seq<string>, at: seq<nat>)
    requires RingOk(hashKey, ring, nodes) && start < |ring| && 0 < n && Walked(ring, start, n, result, at)
    requires |result| <= count && (|result| == count || n == |ring|) && (DistinctHashes(ring) ==> IsStart(ring, h, start))
    ensures DistinctHashes(ring) ==> Replicas(ring, h, count, result)
    ensures result != [] && result[0] == Owner(ring[start]) && forall i :: 0 <= i < |result| ==> result[i] in nodes
  {
    WalkedOwners(hashKey, ring, nodes, start, n, result, at);
    if DistinctHashes(ring) {
      WalkedReplicas(ring, h, start, n, count, result, at);
    }
  }

  lemma {:induction false} PositionsGrow(at: seq<nat>, i: nat)
    requires i < |at| && forall j, k :: 0 <= j < k < |at| ==> at[j] < at[k]
    ensures at[i] >= i
  {
    if i > 0 {
      PositionsGrow(at, i - 1);
    }
  }

  lemma MeetNext(
      hashKey: string -> Hash, ring: seq<VirtualNode>, nodes: map<string, nat>,
      start: nat, n: nat, result: seq<string>, at: seq<nat>)
    requires RingOk(hashKey, ring, nodes) && start < |ring| && n < |ring| && Walked(ring, start, n, result, at)
    ensures BeforeLastHash(Around(ring, start, n).key) == Some(Met(ring, start, n))
    ensures
      if Met(ring, start, n) in result then Walked(ring, start, n + 1, result, at)
      else Walked(ring, start, n + 1, result + [Met(ring, start, n)], at + [n])
  {
    AroundIs(ring, start, n);
    OwnerOfVirtualNode(hashKey, ring, nodes, Around(ring, start, n));
    WalkedMeets(ring, start, n, result, at);
  }

  /** The owners met are nodes, and the first of them owns the entry the walk starts at. */
  lemma WalkedOwners(
      hashKey: string -> Hash, ring: seq<VirtualNode>, nodes: map<string, nat>,
      start: nat, n: nat, result: seq<string>, at: seq<nat>)
    requires RingOk(hashKey, ring, nodes) && start < |ring| && 0 < n && Walked(ring, start, n, result, at)
    ensures result != [] && result[0] == Owner(ring[start])
    ensures forall i :: 0 <= i < |result| ==> result[i] in nodes
  {
    AroundIs(ring, start, 0);
    assert Met(ring, start, 0) in result;
    forall i | 0 <= i < |result| ensures result[i] in nodes {
      AroundIs(ring, start, at[i]);
      OwnerOfVirtualNode(hashKey, ring, nodes, Around(ring, start, at[i]));
    }
    var first :| 0 <= first < |result| && result[first] == Met(ring, start, 0);
    assert at[first] == 0;
    PositionsGrow(at, first);
  }

  lemma WalkedMeets(ring: seq<VirtualNode>, start: nat, n: nat, result: seq<string>, at: seq<nat>)
    requires n < |ring| && Walked(ring, start, n, result, at)
    ensures
      if Met(ring, start, n) in result then Walked(ring, start, n + 1, result, at)
      else Walked(ring, start, n + 1, result + [Met(ring, start, n)], at + [n])
  {}

  // ----- whole operations

  /** Adding a node sends each key to its old owner or to the new node. */
  lemma AddMovesMinimally(
      hashKey: string -> Hash, ring: seq<VirtualNode>, nodes: map<string, nat>, node: string, count: nat,
      h: Hash, before: VirtualNode, after: VirtualNode)
    requires RingOk(hashKey, ring, nodes) && ValidName(node) && node !in nodes
    requires
      var ring' := Sort(ring + VirtualNodesOf(hashKey, node, count));
      DistinctHashes(ring') && IsNext(ring, h, before) && IsNext(ring', h, after)
    ensures Owner(after) == node || Owner(after) == Owner(before)
  {
    var added := VirtualNodesOf(hashKey, node, count);
    AddMovesOnlyToNew(ring, added, h, before, after);
    if after in added {
      NewNodesAreMarked(hashKey, node, count, after);
    }
  }

  /** Removing a node leaves the owner of every key that was not its own. */
  lemma RemoveMovesMinimally(
      hashKey: string -> Hash, ring: seq<VirtualNode>, nodes: map<string, nat>, node: string,
      h: Hash, before: VirtualNode, after: VirtualNode)
    requires RingOk(hashKey, ring, nodes) && ValidName(node) && DistinctHashes(ring)
    requires IsNext(ring, h, before) && IsNext(Without(ring, node), h, after)
    ensures Owner(after) != node
    ensures Owner(before) != node ==> Owner(after) == Owner(before)
  {
    RemoveMovesOnlyItsKeys(ring, node, h, before, after);
    WithoutMembers(ring, node, after);
    OwnerOfVirtualNode(hashKey, ring, nodes, before);
    OwnerOfVirtualNode(hashKey, ring, nodes, after);
  }

  /** Adding a node and removing it again restores the ring exactly, whatever the hashes. */
  lemma AddThenRemoveRestores(
      hashKey: string -> Hash, ring: seq<VirtualNode>, nodes: map<string, nat>, node: string, count: nat)
    requires RingOk(hashKey, ring, nodes) && ValidName(node) && node !in nodes
    ensures Without(Sort(ring + VirtualNodesOf(hashKey, node, count)), node) == ring
    ensures nodes[node := count] - {node} == nodes
  {
    RingHasNone(hashKey, ring, nodes, node);
    NewNodesAreAll(hashKey, node, count);
    AddThenRemove(ring, VirtualNodesOf(hashKey, node, count), node);
  }

  lemma RingHasNone(hashKey: string -> Hash, ring: seq<VirtualNode>, nodes: map<string, nat>, node: string)
    requires RingOk(hashKey, ring, nodes) && ValidName(node) && node !in nodes
    ensures Without(ring, node) == ring
  {
    forall v | v in ring ensures !(node + "#" <= v.key) {
      OwnerOfVirtualNode(hashKey, ring, nodes, v);
    }
    WithoutNone(ring, node);
  }

  lemma NewNodesAreAll(hashKey: string -> Hash, node: string, count: nat)
    requires ValidName(node)
    ensures Without(VirtualNodesOf(hashKey, node, count), node) == []
  {
    var added := VirtualNodesOf(hashKey, node, count);
    forall v | v in added ensures node + "#" <= v.key {
      NewNodesAreMarked(hashKey, node, count, v);
    }
    WithoutAll(added, node);
  }
}
