/** Where the operations of a replay land, keyword by keyword, and what a read finds afterwards. */
module ReplayReads {
  import opened Wrappers
  import opened Hex
  import opened Ring
  import opened Routing
  import opened AccTree
  import opened Migration
  import opened MigrationInvariant
  import opened MigrationClient
  import opened Unguarded

  // ----- operations that name an identifier

  predicate Names(ops: seq<Operation>, fid: string) {
    exists i :: 0 <= i < |ops| && ops[i].fid == fid
  }

  /** Operations decide about the identifiers they name and leave the others as they were. */
  lemma {:induction false} NamedAreDecided(ops: seq<Operation>, fids: set<string>, fid: string)
    ensures fid in ApplyAll(ops, fids) <==> if Names(ops, fid) then fid in ApplyAll(ops, {}) else fid in fids
  {
    if ops != [] {
      var n := |ops| - 1;
      NamedAreDecided(ops[..n], fids, fid);
      if ops[n].fid == fid {
        assert Names(ops, fid);
      } else {
        assert Names(ops, fid) <==> Names(ops[..n], fid) by {
          if Names(ops[..n], fid) {
            var i :| 0 <= i < n && ops[..n][i].fid == fid;
            assert ops[i].fid == fid;
          }
          if i :| 0 <= i < |ops| && ops[i].fid == fid {
            assert ops[..n][i].fid == fid;
          }
        }
      }
    }
  }

  /** The same operations lead to the same identifiers exactly if they name all in which the starts differ. */
  lemma SameAfterIff(ops: seq<Operation>, a: set<string>, b: set<string>)
    ensures ApplyAll(ops, a) == ApplyAll(ops, b) <==> forall fid :: !Names(ops, fid) ==> (fid in a <==> fid in b)
  {
    forall fid ensures (fid in ApplyAll(ops, a) <==> fid in ApplyAll(ops, b)) <==> Names(ops, fid) || (fid in a <==> fid in b) {
      NamedAreDecided(ops, a, fid);
      NamedAreDecided(ops, b, fid);
    }
    if ApplyAll(ops, a) == ApplyAll(ops, b) {
      forall fid | !Names(ops, fid) ensures fid in a <==> fid in b {
        assert fid in ApplyAll(ops, a) <==> fid in ApplyAll(ops, b);
      }
    }
  }

  /** Starting from nothing instead makes no difference exactly if every identifier there was is named. */
  lemma SameFromNothingIff(ops: seq<Operation>, fids: set<string>)
    ensures ApplyAll(ops, {}) == ApplyAll(ops, fids) <==> forall fid :: fid in fids ==> Names(ops, fid)
  {
    SameAfterIff(ops, {}, fids);
  }

  // ----- where operations land

  ghost function RouteNode(c: Cluster, k: Keyword): (n: nat)
    requires Sane(c)
    ensures n < |c.nodes|
  {
    RouteIsNamed(c, k);
    RouteKeyword(c, k).value.node
  }

  /** The operations on the keyword that a replay sends to storager `n`, in order. */
  ghost function Landed(c: Cluster, ops: seq<Operation>, summaries: seq<seq<Byte>>, k: Keyword, n: nat): seq<Operation>
    requires Sane(c) && c.run.None? && |summaries| == |ops|
    decreases |ops|
  {
    if ops == [] then []
    else
      (if ops[0].keyword == k && RouteNode(c, k) == n then [ops[0]] else [])
      + Landed(After(c, ops[0], summaries[0]), ops[1..], summaries[1..], k, n)
  }

  lemma AfterFids(c: Cluster, op: Operation, summary: seq<Byte>, k: Keyword, n: nat)
    requires Sane(c) && c.run.None? && n < |c.nodes|
    ensures Fids(After(c, op, summary).nodes[n], k)
      == if op.keyword == k && RouteNode(c, k) == n then ApplyToFids(op, Fids(c.nodes[n], k)) else Fids(c.nodes[n], k)
  {
    StoreSane(c, op, summary);
    FidsAfterStore(c.nodes[n], op, k);
  }

  /** What each storager holds of the keyword after a replay: what has landed there, applied to what it held. */
  lemma {:induction false} LandedFids(c: Cluster, ops: seq<Operation>, summaries: seq<seq<Byte>>, k: Keyword, n: nat)
    requires Sane(c) && c.run.None? && |summaries| == |ops| && n < |c.nodes|
    ensures Fids(End(c, ops, summaries).nodes[n], k) == ApplyAll(Landed(c, ops, summaries, k, n), Fids(c.nodes[n], k))
    decreases |ops|
  {
    if ops != [] {
      var next := After(c, ops[0], summaries[0]);
      EndStep(c, ops, summaries);
      AfterFids(c, ops[0], summaries[0], k, n);
      LandedFids(next, ops[1..], summaries[1..], k, n);
      var rest := Landed(next, ops[1..], summaries[1..], k, n);
      if ops[0].keyword == k && RouteNode(c, k) == n {
        ApplyAllCons(ops[0], rest, Fids(c.nodes[n], k));
      } else {
        assert [] + rest == rest;
      }
    }
  }

  // ----- what a read finds

  /** A read after the replay finds what the operations make of `fids`. */
  ghost predicate ReplayFinds(c: Cluster, ops: seq<Operation>, summaries: seq<seq<Byte>>, k: Keyword, fids: set<string>)
    requires Sane(c) && c.run.None? && |summaries| == |ops|
  {
    var end := End(c, ops, summaries);
    Fids(end.nodes[RouteNode(end, k)], k) == ApplyAll(OpsFor(ops, k), fids)
  }

  /** Storager and operations agree about an identifier: what the landed operations and the storager's own records
      say of it is what all operations and `fids` say. */
  ghost predicate AgreeOn(landed: seq<Operation>, held: set<string>, ops: seq<Operation>, fids: set<string>, fid: string) {
    (if Names(landed, fid) then fid in ApplyAll(landed, {}) else fid in held)
    == (if Names(ops, fid) then fid in ApplyAll(ops, {}) else fid in fids)
  }

  ghost predicate AgreeOnAll(landed: seq<Operation>, held: set<string>, ops: seq<Operation>, fids: set<string>) {
    forall fid :: AgreeOn(landed, held, ops, fids, fid)
  }

  /** In general, however often splits move the keyword during the replay: the storager read at the end has to
      agree about every identifier. */
  lemma ReplayFindsIff(c: Cluster, ops: seq<Operation>, summaries: seq<seq<Byte>>, k: Keyword, fids: set<string>)
    requires Sane(c) && c.run.None? && |summaries| == |ops|
    ensures
      var n := RouteNode(End(c, ops, summaries), k);
      ReplayFinds(c, ops, summaries, k, fids) <==>
        AgreeOnAll(Landed(c, ops, summaries, k, n), Fids(c.nodes[n], k), OpsFor(ops, k), fids)
  {
    var n := RouteNode(End(c, ops, summaries), k);
    LandedFids(c, ops, summaries, k, n);
    AgreeIff(Landed(c, ops, summaries, k, n), Fids(c.nodes[n], k), OpsFor(ops, k), fids);
  }

  lemma AgreeIff(landed: seq<Operation>, held: set<string>, ops: seq<Operation>, fids: set<string>)
    ensures ApplyAll(landed, held) == ApplyAll(ops, fids) <==> AgreeOnAll(landed, held, ops, fids)
  {
    forall fid
      ensures (fid in ApplyAll(landed, held) <==> fid in ApplyAll(ops, fids)) <==> AgreeOn(landed, held, ops, fids, fid)
    {
      NamedAreDecided(landed, held, fid);
      NamedAreDecided(ops, fids, fid);
    }
    if ApplyAll(landed, held) == ApplyAll(ops, fids) {
      forall fid ensures AgreeOn(landed, held, ops, fids, fid) {
        assert fid in ApplyAll(landed, held) <==> fid in ApplyAll(ops, fids);
      }
    }
  }

  // ----- a keyword that no split of the replay moves

  /** The ring sends the keyword to the same storager throughout the replay. */
  ghost predicate Steady(c: Cluster, ops: seq<Operation>, summaries: seq<seq<Byte>>, k: Keyword)
    requires Sane(c) && c.run.None? && |summaries| == |ops|
    decreases |ops|
  {
    ops == []
    || (var next := After(c, ops[0], summaries[0]);
        next.ring.OwnerOf(k.Key()) == c.ring.OwnerOf(k.Key()) && Steady(next, ops[1..], summaries[1..], k))
  }

  lemma AfterRoute(c: Cluster, op: Operation, summary: seq<Byte>, k: Keyword)
    requires Sane(c) && c.run.None?
    ensures
      var next := After(c, op, summary);
      RouteNode(next, k) ==
        if op.keyword == k then (if op.Add? then RouteNode(c, k) else next.ring.OwnerOf(k.Key()))
        else if k in c.overrides then RouteNode(c, k) else next.ring.OwnerOf(k.Key())
  {
    StoreSane(c, op, summary);
    RouteIsNamed(c, k);
    RouteIsNamed(After(c, op, summary), k);
  }

  lemma AfterSteady(c: Cluster, op: Operation, summary: seq<Byte>, k: Keyword)
    requires Sane(c) && c.run.None? && RouteNode(c, k) == c.ring.OwnerOf(k.Key())
    requires After(c, op, summary).ring.OwnerOf(k.Key()) == c.ring.OwnerOf(k.Key())
    ensures RouteNode(After(c, op, summary), k) == c.ring.OwnerOf(k.Key())
  {
    AfterRoute(c, op, summary, k);
  }

  lemma FirstFor(ops: seq<Operation>, k: Keyword)
    requires ops != []
    ensures OpsFor(ops, k) == (if ops[0].keyword == k then [ops[0]] else []) + OpsFor(ops[1..], k)
  {
    assert ops == [ops[0]] + ops[1..];
    OpsForCons(ops[0], ops[1..], k);
  }

  lemma {:induction false} SteadyLands(c: Cluster, ops: seq<Operation>, summaries: seq<seq<Byte>>, k: Keyword)
    requires Sane(c) && c.run.None? && |summaries| == |ops|
    requires Steady(c, ops, summaries, k) && RouteNode(c, k) == c.ring.OwnerOf(k.Key())
    ensures
      var owner, end := c.ring.OwnerOf(k.Key()), End(c, ops, summaries);
      && Landed(c, ops, summaries, k, owner) == OpsFor(ops, k)
      && RouteNode(end, k) == owner == end.ring.OwnerOf(k.Key())
    decreases |ops|
  {
    if ops != [] {
      AfterSteady(c, ops[0], summaries[0], k);
      EndStep(c, ops, summaries);
      SteadyLands(After(c, ops[0], summaries[0]), ops[1..], summaries[1..], k);
      FirstFor(ops, k);
    }
  }

  /** If no split moves the keyword and nothing overrides its route, everything lands at the ring's owner, and reads
      find what they should if and only if owner and `fids` differ at most in identifiers the operations name. */
  lemma SteadyFindsIff(c: Cluster, ops: seq<Operation>, summaries: seq<seq<Byte>>, k: Keyword, fids: set<string>)
    requires Sane(c) && c.run.None? && |summaries| == |ops|
    requires Steady(c, ops, summaries, k) && RouteNode(c, k) == c.ring.OwnerOf(k.Key())
    ensures c.ring.OwnerOf(k.Key()) < |c.nodes|
    ensures
      var owner := c.ring.OwnerOf(k.Key());
      ReplayFinds(c, ops, summaries, k, fids) <==>
        forall fid :: !Names(OpsFor(ops, k), fid) ==> (fid in Fids(c.nodes[owner], k) <==> fid in fids)
  {
    var owner := c.ring.OwnerOf(k.Key());
    SteadyLands(c, ops, summaries, k);
    LandedFids(c, ops, summaries, k, owner);
    SameAfterIff(OpsFor(ops, k), Fids(c.nodes[owner], k), fids);
  }

  // ----- a keyword that a split of the replay moves

  /** Every operation on the keyword lands at storager `n`. */
  ghost predicate AllLandAt(c: Cluster, ops: seq<Operation>, summaries: seq<seq<Byte>>, k: Keyword, n: nat)
    requires Sane(c) && c.run.None? && |summaries| == |ops|
  {
    Landed(c, ops, summaries, k, n) == OpsFor(ops, k)
  }

  lemma {:induction false} LandedElsewhere(
      c: Cluster, ops: seq<Operation>, summaries: seq<seq<Byte>>, k: Keyword, n: nat, other: nat)
    requires Sane(c) && c.run.None? && |summaries| == |ops| && n != other
    ensures |Landed(c, ops, summaries, k, n)| + |Landed(c, ops, summaries, k, other)| <= |OpsFor(ops, k)|
    decreases |ops|
  {
    if ops != [] {
      LandedElsewhere(After(c, ops[0], summaries[0]), ops[1..], summaries[1..], k, n, other);
      FirstFor(ops, k);
    }
  }

  /** If all operations on a keyword have landed where its records are, a split of its leaf leaves them behind unless
      the last of them was an add, whose override still names that storager, or the ring comes back to it. */
  lemma MovedFindsIff(c: Cluster, ops: seq<Operation>, summaries: seq<seq<Byte>>, k: Keyword, n: nat)
    requires Sane(c) && c.run.None? && |summaries| == |ops| && n < |c.nodes|
    requires AllLandAt(c, ops, summaries, k, n)
    ensures
      var end := End(c, ops, summaries);
      ReplayFinds(c, ops, summaries, k, Fids(c.nodes[n], k)) <==>
        || RouteNode(end, k) == n
        || Fids(c.nodes[RouteNode(end, k)], k) == ApplyAll(OpsFor(ops, k), Fids(c.nodes[n], k))
  {
    var last := RouteNode(End(c, ops, summaries), k);
    LandedFids(c, ops, summaries, k, last);
    if last != n {
      LandedElsewhere(c, ops, summaries, k, n, last);
      assert Landed(c, ops, summaries, k, last) == [];
    }
  }
}
