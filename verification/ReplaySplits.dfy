/** When a replay splits a leaf: never, exactly if at each buffered add the leaf's counter stays within the threshold. */
module ReplaySplits {
  import opened Wrappers
  import opened Hex
  import opened Ring
  import opened Routing
  import opened AccTree
  import opened Migration
  import opened MigrationInvariant
  import opened MigrationClient
  import opened MigrationTheorems
  import opened Unguarded
  import opened ReplayReads

  // ----- one operation

  function OpDelta(op: Operation): int {
    if op.Add? then 1 else -1
  }

  /** The ring after an operation has been counted at a leaf, as far as counters go. */
  ghost predicate CountedAt(ring: RingState, leaf: nat, delta: int, ring': RingState) {
    && |ring'.entries| == |ring.entries|
    && forall i :: 0 <= i < |ring.entries| ==>
      ring'.entries[i].counter == if i == leaf then Saturate(ring.entries[i].counter + delta) else ring.entries[i].counter
  }

  lemma FindLeaf(ring: RingState, leaf: nat)
    requires ring.Forest() && leaf < |ring.entries|
    ensures ring.Find(ring.entries[leaf].prefix) == Some(leaf)
  {
    var prefix := ring.entries[leaf].prefix;
    assert ring.EntryOk(leaf);
    CanonicalOfLowerHex(prefix);
    assert Capped(prefix) == prefix;
    ring.FindInvertsPrefix(prefix, leaf);
  }

  lemma CountedAndUpdated(ring: RingState, leaf: nat, delta: int, summary: seq<Byte>)
    requires ring.Forest() && leaf < |ring.entries|
    ensures
      var prefix := ring.entries[leaf].prefix;
      var ring' := ring.Count(prefix, delta).UpdateSummary(prefix, summary).0;
      ring.SameShape(ring') && ring'.Find(prefix) == Some(leaf) && CountedAt(ring, leaf, delta, ring')
  {
    var prefix := ring.entries[leaf].prefix;
    FindLeaf(ring, leaf);
    ring.CountKeepsShape(prefix, delta);
    ring.Count(prefix, delta).UpdateSummaryKeepsShape(prefix, summary);
  }

  /** An insert at a leaf splits it if and only if the counter passes the threshold and a digit is left. */
  lemma InsertSplitsIff(ring: RingState, leaf: nat, summary: seq<Byte>)
    requires ring.Forest() && ring.IsLeaf(leaf)
    ensures
      var (ring', _, event) := ring.Apply(Insert(ring.entries[leaf].prefix, summary));
      && (event.Some? <==> Saturate(ring.entries[leaf].counter + 1) > ring.splitThreshold && |ring.entries[leaf].prefix| < MAX_PREFIX_LEN)
      && (event.None? ==> ring.SameShape(ring') && CountedAt(ring, leaf, 1, ring'))
  {
    assert ring.EntryOk(leaf);
    CountedAndUpdated(ring, leaf, 1, summary);
  }

  /** How an operation sent to its keyword's leaf ends. */
  lemma StoreSplitsIff(c: Cluster, op: Operation, summary: seq<Byte>)
    requires Sane(c) && RouteKeyword(c, op.keyword) == RingLookup(c.ring, op.keyword)
    ensures RouteKeyword(c, op.keyword).Some? && RouteKeyword(c, op.keyword).value.node < |c.nodes|
    ensures
      var leaf := c.ring.LeafOf(op.keyword.Key());
      var (stored, event) := Store(c, op, RouteKeyword(c, op.keyword).value, summary);
      && c.ring.IsLeaf(leaf)
      && (event.Some? <==>
            && op.Add? && Saturate(c.ring.entries[leaf].counter + 1) > c.ring.splitThreshold
            && |c.ring.entries[leaf].prefix| < MAX_PREFIX_LEN)
      && (event.None? ==> c.ring.SameShape(stored.ring) && CountedAt(c.ring, leaf, OpDelta(op), stored.ring))
  {
    var leaf := c.ring.LeafOf(op.keyword.Key());
    c.ring.RouteIsUnique(op.keyword.Key(), leaf);
    RouteIsNamed(c, op.keyword);
    if op.Add? {
      InsertSplitsIff(c.ring, leaf, summary);
    } else {
      CountedAndUpdated(c.ring, leaf, -1, summary);
    }
  }

  // ----- the counter of a leaf along a list of operations

  ghost function CountAfter(ring: RingState, ops: seq<Operation>, leaf: nat): nat
    requires ring.Forest() && leaf < |ring.entries|
  {
    if ops == [] then ring.entries[leaf].counter
    else
      var last := ops[|ops| - 1];
      var before := CountAfter(ring, ops[..|ops| - 1], leaf);
      if ring.LeafOf(last.keyword.Key()) == leaf then Saturate(before + OpDelta(last)) else before
  }

  lemma LeafInRange(ring: RingState, k: Keyword)
    requires ring.Forest()
    ensures ring.LeafOf(k.Key()) < |ring.entries|
  {
    ring.RouteIsUnique(k.Key(), ring.LeafOf(k.Key()));
  }

  /** The ring after the first operation is where the counting goes on. */
  lemma {:induction false} CountAfterFirst(ring: RingState, op: Operation, ring': RingState, rest: seq<Operation>, leaf: nat)
    requires ring.Forest() && ring'.Forest() && ring.SameShape(ring') && leaf < |ring.entries|
    requires CountedAt(ring, ring.LeafOf(op.keyword.Key()), OpDelta(op), ring')
    ensures CountAfter(ring, [op] + rest, leaf) == CountAfter(ring', rest, leaf)
    decreases |rest|
  {
    var all := [op] + rest;
    if rest == [] {
      assert all == [op] && all[..0] == [];
    } else {
      var n := |rest| - 1;
      assert all[..n + 1] == [op] + rest[..n] && all[n + 1] == rest[n];
      CountAfterFirst(ring, op, ring', rest[..n], leaf);
      ring.SameShapeKeepsRoutes(ring', rest[n].keyword.Key());
    }
  }

  /** After the operations the leaf has not counted more than the threshold, or it is as deep as can be. */
  ghost predicate Fits(ring: RingState, ops: seq<Operation>, leaf: nat)
    requires ring.Forest() && leaf < |ring.entries|
  {
    |ring.entries[leaf].prefix| == MAX_PREFIX_LEN || CountAfter(ring, ops, leaf) <= ring.splitThreshold
  }

  ghost predicate FitsAt(ring: RingState, ops: seq<Operation>, i: nat)
    requires ring.Forest() && i < |ops|
  {
    LeafInRange(ring, ops[i].keyword);
    ops[i].Add? ==> Fits(ring, ops[..i + 1], ring.LeafOf(ops[i].keyword.Key()))
  }

  ghost predicate AllFit(ring: RingState, ops: seq<Operation>)
    requires ring.Forest()
  {
    forall i: nat :: i < |ops| ==> FitsAt(ring, ops, i)
  }

  lemma FitsAtFirst(ring: RingState, ops: seq<Operation>)
    requires ring.Forest() && ops != []
    ensures ring.LeafOf(ops[0].keyword.Key()) < |ring.entries|
    ensures
      var leaf := ring.LeafOf(ops[0].keyword.Key());
      FitsAt(ring, ops, 0) <==>
        (ops[0].Add? ==> |ring.entries[leaf].prefix| == MAX_PREFIX_LEN || Saturate(ring.entries[leaf].counter + 1) <= ring.splitThreshold)
  {
    LeafInRange(ring, ops[0].keyword);
    var leaf := ring.LeafOf(ops[0].keyword.Key());
    assert CountAfter(ring, ops[..0 + 1], leaf) == Saturate(ring.entries[leaf].counter + OpDelta(ops[0])) by {
      assert ops[..0 + 1] == [ops[0]] && [ops[0]][..0] == [];
      assert CountAfter(ring, [], leaf) == ring.entries[leaf].counter;
    }
    assert FitsAt(ring, ops, 0) <==> (ops[0].Add? ==> Fits(ring, ops[..0 + 1], leaf));
  }

  lemma FitsAtNext(ring: RingState, ops: seq<Operation>, ring': RingState, i: nat)
    requires ring.Forest() && ring'.Forest() && ring.SameShape(ring') && i + 1 < |ops|
    requires CountedAt(ring, ring.LeafOf(ops[0].keyword.Key()), OpDelta(ops[0]), ring')
    ensures FitsAt(ring, ops, i + 1) <==> FitsAt(ring', ops[1..], i)
  {
    var rest, leaf := ops[1..], ring.LeafOf(ops[i + 1].keyword.Key());
    assert rest[i] == ops[i + 1];
    LeafInRange(ring, ops[i + 1].keyword);
    ring.SameShapeKeepsRoutes(ring', rest[i].keyword.Key());
    CountAfterFirst(ring, ops[0], ring', rest[..i + 1], leaf);
    assert CountAfter(ring, ops[..i + 1 + 1], leaf) == CountAfter(ring', rest[..i + 1], leaf) by {
      assert ops[..i + 1 + 1] == [ops[0]] + rest[..i + 1];
    }
    assert Fits(ring, ops[..i + 1 + 1], leaf) <==> Fits(ring', rest[..i + 1], leaf);
    assert ring'.LeafOf(rest[i].keyword.Key()) == leaf;
  }

  lemma AllFitFirst(ring: RingState, ops: seq<Operation>, ring': RingState)
    requires ring.Forest() && ring'.Forest() && ring.SameShape(ring') && ops != []
    requires CountedAt(ring, ring.LeafOf(ops[0].keyword.Key()), OpDelta(ops[0]), ring')
    ensures AllFit(ring, ops) <==> FitsAt(ring, ops, 0) && AllFit(ring', ops[1..])
  {
    forall i: nat | i < |ops[1..]| ensures FitsAt(ring, ops, i + 1) <==> FitsAt(ring', ops[1..], i) {
      FitsAtNext(ring, ops, ring', i);
    }
    if FitsAt(ring, ops, 0) && AllFit(ring', ops[1..]) {
      forall i: nat | i < |ops| ensures FitsAt(ring, ops, i) {
        if i > 0 {
          assert FitsAt(ring', ops[1..], i - 1);
        }
      }
    }
    if AllFit(ring, ops) {
      forall i: nat | i < |ops[1..]| ensures FitsAt(ring', ops[1..], i) {
        assert FitsAt(ring, ops, i + 1);
      }
    }
  }

  // ----- a replay without nested splits

  /** The operation, sent to its route, splits a leaf. */
  ghost predicate Splits(c: Cluster, op: Operation, summary: seq<Byte>)
    requires Sane(c) && c.run.None?
  {
    StoreSane(c, op, summary);
    Store(c, op, RouteKeyword(c, op.keyword).value, summary).1.Some?
  }

  /** No operation of the replay splits a leaf. */
  ghost predicate NoSplits(c: Cluster, ops: seq<Operation>, summaries: seq<seq<Byte>>)
    requires Sane(c) && c.run.None? && |summaries| == |ops|
    decreases |ops|
  {
    ops == [] || (!Splits(c, ops[0], summaries[0]) && NoSplits(After(c, ops[0], summaries[0]), ops[1..], summaries[1..]))
  }

  /** One operation more: no split if there was none and it causes none. */
  lemma {:induction false} NoSplitsSnoc(
      c: Cluster, ops: seq<Operation>, summaries: seq<seq<Byte>>, op: Operation, summary: seq<Byte>)
    requires Sane(c) && c.run.None? && |summaries| == |ops|
    ensures NoSplits(c, ops + [op], summaries + [summary]) <==>
        NoSplits(c, ops, summaries) && !Splits(End(c, ops, summaries), op, summary)
    decreases |ops|
  {
    if ops == [] {
      assert ops + [op] == [op] && summaries + [summary] == [summary];
      assert End(c, ops, summaries) == c;
      assert NoSplits(After(c, op, summary), [op][1..], [summary][1..]);
    } else {
      assert (ops + [op])[1..] == ops[1..] + [op] && (summaries + [summary])[1..] == summaries[1..] + [summary];
      EndStep(c, ops, summaries);
      NoSplitsSnoc(After(c, ops[0], summaries[0]), ops[1..], summaries[1..], op, summary);
    }
  }

  /** The operations are routed by the ring: no override names another route. */
  ghost predicate RoutedByRing(c: Cluster, ops: seq<Operation>)
    requires c.ring.Valid()
  {
    forall j :: 0 <= j < |ops| ==> RouteKeyword(c, ops[j].keyword) == RingLookup(c.ring, ops[j].keyword)
  }

  lemma StillRoutedByRing(c: Cluster, op: Operation, summary: seq<Byte>, ops: seq<Operation>)
    requires Sane(c) && c.run.None? && RoutedByRing(c, ops) && RouteKeyword(c, op.keyword) == RingLookup(c.ring, op.keyword)
    requires c.ring.SameShape(After(c, op, summary).ring)
    ensures RoutedByRing(After(c, op, summary), ops)
  {
    var next := After(c, op, summary);
    StoreSane(c, op, summary);
    forall j | 0 <= j < |ops| ensures RouteKeyword(next, ops[j].keyword) == RingLookup(next.ring, ops[j].keyword) {
      SameShapeKeepsLookup(c.ring, next.ring, ops[j].keyword);
    }
  }

  /** A replay meets no nested split if and only if, counting its operations leaf by leaf, every add leaves the
      counter of its leaf within the threshold, unless the leaf is as deep as can be. */
  lemma {:induction false} NoSplitsIff(c: Cluster, ops: seq<Operation>, summaries: seq<seq<Byte>>)
    requires Sane(c) && c.run.None? && |summaries| == |ops| && RoutedByRing(c, ops)
    ensures NoSplits(c, ops, summaries) <==> AllFit(c.ring, ops)
    decreases |ops|
  {
    if ops != [] {
      StoreSplitsIff(c, ops[0], summaries[0]);
      FitsAtFirst(c.ring, ops);
      var next := After(c, ops[0], summaries[0]);
      var event := Store(c, ops[0], RouteKeyword(c, ops[0].keyword).value, summaries[0]).1;
      assert c.ring.EntryOk(c.ring.LeafOf(ops[0].keyword.Key()));
      if event.None? {
        AllFitFirst(c.ring, ops, next.ring);
        StillRoutedByRing(c, ops[0], summaries[0], ops[1..]);
        NoSplitsIff(next, ops[1..], summaries[1..]);
      }
    }
  }

  /** Without a split the ring keeps every route. */
  lemma {:induction false} NoSplitsIsSteady(c: Cluster, ops: seq<Operation>, summaries: seq<seq<Byte>>, k: Keyword)
    requires Sane(c) && c.run.None? && |summaries| == |ops| && NoSplits(c, ops, summaries)
    ensures Steady(c, ops, summaries, k)
    decreases |ops|
  {
    if ops != [] {
      StoreSane(c, ops[0], summaries[0]);
      RouteIsNamed(c, ops[0].keyword);
      StoreTakenApart(c, ops[0], RouteKeyword(c, ops[0].keyword).value, summaries[0]);
      c.ring.SameShapeKeepsRoutes(After(c, ops[0], summaries[0]).ring, k.Key());
      NoSplitsIsSteady(After(c, ops[0], summaries[0]), ops[1..], summaries[1..], k);
    }
  }

  // ----- when only adds are buffered

  /** How many of the operations are on keywords of the leaf. */
  ghost function OpsAt(ring: RingState, ops: seq<Operation>, leaf: nat): nat
    requires ring.Forest()
  {
    if ops == [] then 0
    else OpsAt(ring, ops[..|ops| - 1], leaf) + if ring.LeafOf(ops[|ops| - 1].keyword.Key()) == leaf then 1 else 0
  }

  ghost predicate OnlyAdds(ops: seq<Operation>) {
    forall i :: 0 <= i < |ops| ==> ops[i].Add?
  }

  lemma {:induction false} AddsAreCounted(ring: RingState, ops: seq<Operation>, leaf: nat)
    requires ring.Forest() && leaf < |ring.entries| && OnlyAdds(ops) && ring.splitThreshold < U64_MAX
    ensures CountAfter(ring, ops, leaf) <= ring.splitThreshold <==> ring.entries[leaf].counter + OpsAt(ring, ops, leaf) <= ring.splitThreshold
    ensures CountAfter(ring, ops, leaf) <= ring.splitThreshold ==>
      CountAfter(ring, ops, leaf) == ring.entries[leaf].counter + OpsAt(ring, ops, leaf)
  {
    if ops != [] {
      AddsAreCounted(ring, ops[..|ops| - 1], leaf);
    }
  }

  lemma {:induction false} OpsAtGrows(ring: RingState, ops: seq<Operation>, leaf: nat, i: nat)
    requires ring.Forest() && i <= |ops|
    ensures OpsAt(ring, ops[..i], leaf) <= OpsAt(ring, ops, leaf)
    decreases |ops| - i
  {
    if i == |ops| {
      assert ops[..i] == ops;
    } else {
      assert ops[..i + 1][..i] == ops[..i];
      OpsAtGrows(ring, ops, leaf, i + 1);
    }
  }

  /** The last operation on a leaf has seen all operations on it. */
  lemma {:induction false} LastAt(ring: RingState, ops: seq<Operation>, leaf: nat) returns (i: nat)
    requires ring.Forest() && OpsAt(ring, ops, leaf) > 0
    ensures i < |ops| && ring.LeafOf(ops[i].keyword.Key()) == leaf && OpsAt(ring, ops[..i + 1], leaf) == OpsAt(ring, ops, leaf)
  {
    var n := |ops| - 1;
    if ring.LeafOf(ops[n].keyword.Key()) == leaf {
      i := n;
      assert ops[..n + 1] == ops;
    } else {
      i := LastAt(ring, ops[..n], leaf);
      assert ops[..n][..i + 1] == ops[..i + 1];
    }
  }

  /** The leaf has room for all the operations on it. */
  ghost predicate HasRoom(ring: RingState, ops: seq<Operation>, leaf: nat)
    requires ring.Forest() && leaf < |ring.entries|
  {
    |ring.entries[leaf].prefix| == MAX_PREFIX_LEN || ring.entries[leaf].counter + OpsAt(ring, ops, leaf) <= ring.splitThreshold
  }

  lemma FitHaveRoom(ring: RingState, ops: seq<Operation>, leaf: nat)
    requires ring.Forest() && OnlyAdds(ops) && ring.splitThreshold < U64_MAX && AllFit(ring, ops)
    requires leaf < |ring.entries| && OpsAt(ring, ops, leaf) > 0
    ensures HasRoom(ring, ops, leaf)
  {
    var i := LastAt(ring, ops, leaf);
    assert FitsAt(ring, ops, i);
    AddsAreCounted(ring, ops[..i + 1], leaf);
  }

  lemma RoomLetsFit(ring: RingState, ops: seq<Operation>, i: nat)
    requires ring.Forest() && OnlyAdds(ops) && ring.splitThreshold < U64_MAX && i < |ops|
    requires ring.LeafOf(ops[i].keyword.Key()) < |ring.entries| && HasRoom(ring, ops, ring.LeafOf(ops[i].keyword.Key()))
    ensures FitsAt(ring, ops, i)
  {
    var leaf := ring.LeafOf(ops[i].keyword.Key());
    OpsAtGrows(ring, ops, leaf, i + 1);
    AddsAreCounted(ring, ops[..i + 1], leaf);
  }

  /** Every leaf that operations are on has room for them. */
  ghost predicate AllHaveRoom(ring: RingState, ops: seq<Operation>)
    requires ring.Forest()
  {
    forall leaf: nat :: leaf < |ring.entries| && OpsAt(ring, ops, leaf) > 0 ==> HasRoom(ring, ops, leaf)
  }

  lemma OpIsAtItsLeaf(ring: RingState, ops: seq<Operation>, i: nat)
    requires ring.Forest() && i < |ops|
    ensures OpsAt(ring, ops, ring.LeafOf(ops[i].keyword.Key())) > 0
  {
    assert ops[..i + 1][..i] == ops[..i];
    OpsAtGrows(ring, ops, ring.LeafOf(ops[i].keyword.Key()), i + 1);
  }

  /** When only adds are buffered, a replay meets no nested split if and only if each leaf's counter and the adds
      buffered for it together stay within the threshold. */
  lemma AddsFitIff(ring: RingState, ops: seq<Operation>)
    requires ring.Forest() && OnlyAdds(ops) && ring.splitThreshold < U64_MAX
    ensures AllFit(ring, ops) <==> AllHaveRoom(ring, ops)
  {
    if AllFit(ring, ops) {
      forall leaf: nat | leaf < |ring.entries| && OpsAt(ring, ops, leaf) > 0 ensures HasRoom(ring, ops, leaf) {
        FitHaveRoom(ring, ops, leaf);
      }
    }
    if AllHaveRoom(ring, ops) {
      forall i: nat | i < |ops| ensures FitsAt(ring, ops, i) {
        OpIsAtItsLeaf(ring, ops, i);
        LeafInRange(ring, ops[i].keyword);
        RoomLetsFit(ring, ops, i);
      }
    }
  }
}
