/** What every step of the migration machine keeps. */
module MigrationInvariant {
  import opened Wrappers
  import opened Hex
  import opened Ring
  import opened Routing
  import opened AccTree
  import opened Migration

  ghost predicate PlanOk(plan: PrefixSplitPlan, parent: string, nodeCount: nat) {
    && plan.source.prefix == parent
    && plan.source.node < nodeCount
    && |plan.children| == 16
    && LowerHex(parent) && |parent| < MAX_PREFIX_LEN
    && forall d: Nibble :: plan.children[d] == RouteTarget(parent + [HexDigit(d)], (plan.source.node + d) % nodeCount)
  }

  /** The split entry is in the ring, and until the migration is confirmed its children stay leaves. */
  ghost predicate EntryOk(ring: RingState, plan: PrefixSplitPlan, entry: nat, confirmed: bool)
    requires |plan.children| == 16
  {
    && ring.IsSplit(entry) && ring.entries[entry].prefix == plan.source.prefix
    && (!confirmed ==> forall d: Nibble :: ChildIsLeaf(ring, plan, entry, d))
  }

  ghost predicate ChildIsLeaf(ring: RingState, plan: PrefixSplitPlan, entry: nat, d: Nibble)
    requires ring.IsSplit(entry) && |plan.children| == 16
  {
    var child := ring.entries[entry].splitChildStart.value + d;
    ring.IsLeaf(child) && ring.entries[child].ownerRef == plan.children[d].node
  }

  ghost predicate PendingOk(pending: seq<Operation>, confirmed: bool, parent: string) {
    && (confirmed ==> pending == [])
    && forall j :: 0 <= j < |pending| ==> parent <= pending[j].keyword.Key()
  }

  ghost predicate MigrationOk(ring: RingState, nodeCount: nat, m: PrefixMigration, parent: string) {
    && PlanOk(m.plan, parent, nodeCount)
    && EntryOk(ring, m.plan, m.entry, m.confirmed)
    && PendingOk(m.pending, m.confirmed, parent)
  }

  ghost predicate MigrationsOk(ring: RingState, nodeCount: nat, ms: Migrations) {
    && ring.Forest() && nodeCount == |ring.nodeNames|
    && forall p :: p in ms ==> MigrationOk(ring, nodeCount, ms[p], p)
  }

  /** While no migration covers a keyword, an override names the ring's own route. */
  ghost predicate OverridesOk(ring: RingState, ms: Migrations, overrides: map<Keyword, RouteTarget>)
    requires ring.Forest()
  {
    forall k :: k in overrides && Idle(ms, k) ==> RingLookup(ring, k) == Some(overrides[k])
  }

  ghost predicate QueuedOk(ms: Migrations, queued: set<string>) {
    forall p :: p in queued ==> p in ms && !ms[p].confirmed && !ms[p].moved
  }

  /** Exported segments are what the source still holds; imported ones are what the target holds. */
  ghost predicate SegmentOk(nodes: seq<Storager>, plan: PrefixSplitPlan, moved: bool, segment: Segment, i: nat, imported: bool)
    requires i < |plan.children| && plan.children[i].node < |nodes| && plan.source.node < |nodes|
  {
    var prefix := plan.children[i].prefix;
    && segment.version == MIGRATION_FORMAT_VERSION && segment.prefixHex == prefix
    && (forall r :: r in segment.records ==> Under(r, prefix))
    && (!moved ==> RecordsUnder(nodes[plan.source.node].records, prefix) == segment.records)
    && (imported ==> RecordsUnder(nodes[plan.children[i].node].records, prefix) == segment.records)
  }

  ghost predicate ProgressOk(plan: PrefixSplitPlan, moved: bool, run: Run) {
    && |plan.children| == 16
    && run.prepared <= 16 && run.confirmedUpTo <= 16
    && (forall i: nat :: i in run.segments <==> i < run.prepared && plan.IsForeign(i))
    && run.imported <= run.segments.Keys
    && (run.imported != {} ==> run.prepared == 16)
    && (run.confirmedUpTo > 0 || moved ==> run.prepared == 16 && run.imported == run.segments.Keys)
    && (moved ==> forall i :: i in run.segments ==> i < run.confirmedUpTo)
  }

  /** The source retains what is prepared and not yet confirmed, and remembers exactly what is confirmed. */
  ghost predicate SourceOk(source: Storager, plan: PrefixSplitPlan, moved: bool, run: Run)
    requires ProgressOk(plan, moved, run)
  {
    && (forall i :: i in run.segments && i >= run.confirmedUpTo ==> plan.children[i].prefix in source.retained)
    && (run.segments != map[] && !moved ==> source.confirmed == ConfirmedPrefixes(plan, moved, run))
  }

  ghost function ConfirmedPrefixes(plan: PrefixSplitPlan, moved: bool, run: Run): set<string>
    requires ProgressOk(plan, moved, run)
  {
    set i | i in run.segments && i < run.confirmedUpTo :: plan.children[i].prefix
  }

  ghost predicate SegmentsOk(nodes: seq<Storager>, plan: PrefixSplitPlan, moved: bool, run: Run)
    requires ProgressOk(plan, moved, run) && PlanOk(plan, run.parent, |nodes|)
  {
    forall i :: i in run.segments ==> SegmentOk(nodes, plan, moved, run.segments[i], i, i in run.imported)
  }

  ghost predicate RunOk(nodes: seq<Storager>, plan: PrefixSplitPlan, moved: bool, run: Run) {
    && PlanOk(plan, run.parent, |nodes|)
    && ProgressOk(plan, moved, run)
    && SourceOk(nodes[plan.source.node], plan, moved, run)
    && SegmentsOk(nodes, plan, moved, run)
  }

  ghost predicate Inv(c: Cluster) {
    && MigrationsOk(c.ring, |c.nodes|, c.migrations)
    && OverridesOk(c.ring, c.migrations, c.overrides)
    && QueuedOk(c.migrations, c.queued)
    && (c.run.Some? ==>
          && c.run.value.parent in c.migrations && c.run.value.parent !in c.queued
          && !c.migrations[c.run.value.parent].confirmed
          && RunOk(c.nodes, c.migrations[c.run.value.parent].plan, c.migrations[c.run.value.parent].moved, c.run.value))
  }

  /** The part of the invariant that speaks of the running migration alone. */
  ghost predicate RunInv(c: Cluster) {
    c.run.Some? ==>
      && c.run.value.parent in c.migrations && c.run.value.parent !in c.queued
      && !c.migrations[c.run.value.parent].confirmed
      && RunOk(c.nodes, c.migrations[c.run.value.parent].plan, c.migrations[c.run.value.parent].moved, c.run.value)
  }

  // ----- keywords under an active migration

  lemma CoversIsUnder(m: PrefixMigration, parent: string, nodeCount: nat, keyword: Keyword)
    requires PlanOk(m.plan, parent, nodeCount)
    ensures m.Covers(keyword) <==> parent <= keyword.Key()
  {
    MatchIsStringPrefix(keyword, parent);
    if m.Covers(keyword) {
      var d :| 0 <= d < 16 && KeywordMatchesPrefix(keyword, m.plan.children[d].prefix);
      ChildMatchesByDigit(keyword, parent, d);
    }
    if parent <= keyword.Key() {
      var d := DigitAt(keyword.Key(), |parent|);
      ChildMatchesByDigit(keyword, parent, d);
      assert KeywordMatchesPrefix(keyword, m.plan.children[d].prefix);
    }
  }

  /** Under an unconfirmed migration the ring already routes to the plan's child. */
  lemma ActiveRoute(ring: RingState, nodeCount: nat, ms: Migrations, parent: string, keyword: Keyword)
    requires MigrationsOk(ring, nodeCount, ms) && ActiveIn(ms, parent, keyword)
    ensures PlanOk(ms[parent].plan, parent, nodeCount) && parent <= keyword.Key()
    ensures
      var m, d := ms[parent], DigitAt(keyword.Key(), |parent|);
      && m.plan.children[d].prefix <= keyword.Key()
      && RingLookup(ring, keyword) == Some(m.plan.children[d])
      && ring.OwnerOf(keyword.Key()) == m.plan.children[d].node
  {
    var key, m := keyword.Key(), ms[parent];
    assert MigrationOk(ring, nodeCount, m, parent);
    CoversIsUnder(m, parent, nodeCount, keyword);
    var d := DigitAt(key, |parent|);
    var start := ring.entries[m.entry].splitChildStart.value;
    assert ring.EntryOk(m.entry);
    assert ring.ChildOk(start, parent, d);
    assert ChildIsLeaf(ring, m.plan, m.entry, d);
    NibbleInjective(HexDigit(d), key[|parent|]);
    assert parent + [HexDigit(d)] <= key;
    ring.RouteIsUnique(key, start + d);
  }

  lemma ActiveIsUnique(ring: RingState, nodeCount: nat, ms: Migrations, p: string, q: string, keyword: Keyword)
    requires MigrationsOk(ring, nodeCount, ms) && ActiveIn(ms, p, keyword) && ActiveIn(ms, q, keyword)
    ensures p == q
  {
    ActiveRoute(ring, nodeCount, ms, p, keyword);
    ActiveRoute(ring, nodeCount, ms, q, keyword);
    var a, b := ms[p].plan.children[DigitAt(keyword.Key(), |p|)].prefix, ms[q].plan.children[DigitAt(keyword.Key(), |q|)].prefix;
    assert a == b;
    assert a[..|a| - 1] == p && b[..|b| - 1] == q;
  }

  lemma ActiveParentIs(ring: RingState, nodeCount: nat, ms: Migrations, parent: string, keyword: Keyword)
    requires MigrationsOk(ring, nodeCount, ms) && ActiveIn(ms, parent, keyword)
    ensures ActiveParent(ms, keyword) == Some(parent)
  {
    ActiveIsUnique(ring, nodeCount, ms, parent, ActiveParent(ms, keyword).value, keyword);
  }

  /** Two keywords with the same ring route are covered by the same migration. */
  lemma SameRouteSameActive(ring: RingState, nodeCount: nat, ms: Migrations, p: string, k: Keyword, other: Keyword)
    requires MigrationsOk(ring, nodeCount, ms) && ActiveIn(ms, p, k)
    requires RingLookup(ring, other) == RingLookup(ring, k)
    ensures ActiveIn(ms, p, other)
  {
    ActiveRoute(ring, nodeCount, ms, p, k);
    var d := DigitAt(k.Key(), |p|);
    ring.RouteIsUnique(other.Key(), ring.LeafOf(other.Key()));
    assert p + [HexDigit(d)] <= other.Key();
    CoversIsUnder(ms[p], p, nodeCount, other);
  }

  // ----- where a keyword's records are

  /** The node that answers for a keyword: the source until it has deleted, then the ring's owner. */
  ghost function Home(ring: RingState, ms: Migrations, keyword: Keyword): nat
    requires ring.Forest()
  {
    match ActiveParent(ms, keyword)
    case None => ring.OwnerOf(keyword.Key())
    case Some(p) => if ms[p].moved then ring.OwnerOf(keyword.Key()) else ms[p].plan.source.node
  }

  ghost function PendingFor(ms: Migrations, keyword: Keyword): seq<Operation> {
    match ActiveParent(ms, keyword)
    case None => []
    case Some(p) => OpsFor(ms[p].pending, keyword)
  }

  /** The file identifiers a keyword stands for: what its home holds, then the buffered operations. */
  ghost function Contents(c: Cluster, keyword: Keyword): set<string>
    requires MigrationsOk(c.ring, |c.nodes|, c.migrations)
  {
    HomeInRange(c.ring, |c.nodes|, c.migrations, keyword);
    ApplyAll(PendingFor(c.migrations, keyword), Fids(c.nodes[Home(c.ring, c.migrations, keyword)], keyword))
  }

  lemma HomeInRange(ring: RingState, nodeCount: nat, ms: Migrations, keyword: Keyword)
    requires MigrationsOk(ring, nodeCount, ms)
    ensures Home(ring, ms, keyword) < nodeCount
  {
    ring.RouteIsUnique(keyword.Key(), ring.LeafOf(keyword.Key()));
    var p := ActiveParent(ms, keyword);
    if p.Some? {
      assert MigrationOk(ring, nodeCount, ms[p.value], p.value);
    }
  }

  /** Contents depend on the home's records of the keyword and on the operations buffered for it. */
  lemma ContentsByParts(c: Cluster, c': Cluster, keyword: Keyword)
    requires MigrationsOk(c.ring, |c.nodes|, c.migrations) && MigrationsOk(c'.ring, |c'.nodes|, c'.migrations)
    requires PendingFor(c'.migrations, keyword) == PendingFor(c.migrations, keyword)
    requires Home(c'.ring, c'.migrations, keyword) < |c'.nodes| && Home(c.ring, c.migrations, keyword) < |c.nodes|
    requires Fids(c'.nodes[Home(c'.ring, c'.migrations, keyword)], keyword) == Fids(c.nodes[Home(c.ring, c.migrations, keyword)], keyword)
    ensures Contents(c', keyword) == Contents(c, keyword)
  {}

  // ----- lists of operations

  lemma ApplyAllSnoc(ops: seq<Operation>, op: Operation, fids: set<string>)
    ensures ApplyAll(ops + [op], fids) == ApplyToFids(op, ApplyAll(ops, fids))
  {
    assert (ops + [op])[..|ops|] == ops;
  }

  lemma OpsForSnoc(ops: seq<Operation>, op: Operation, keyword: Keyword)
    ensures OpsFor(ops + [op], keyword) == OpsFor(ops, keyword) + if op.keyword == keyword then [op] else []
  {
    assert (ops + [op])[..|ops|] == ops;
  }

  lemma {:induction false} OpsForCons(op: Operation, ops: seq<Operation>, keyword: Keyword)
    ensures OpsFor([op] + ops, keyword) == (if op.keyword == keyword then [op] else []) + OpsFor(ops, keyword)
  {
    if ops == [] {
      assert [op] + ops == [op];
      assert [op][..0] == [];
    } else {
      var n := |ops| - 1;
      assert ([op] + ops)[..n + 1] == [op] + ops[..n];
      OpsForCons(op, ops[..n], keyword);
    }
  }

  lemma {:induction false} ApplyAllCons(op: Operation, ops: seq<Operation>, fids: set<string>)
    ensures ApplyAll([op] + ops, fids) == ApplyAll(ops, ApplyToFids(op, fids))
  {
    if ops == [] {
      assert [op] + ops == [op];
      assert [op][..0] == [];
    } else {
      var n := |ops| - 1;
      assert ([op] + ops)[..n + 1] == [op] + ops[..n];
      ApplyAllCons(op, ops[..n], fids);
    }
  }

  lemma BufferedContents(pending: seq<Operation>, op: Operation, keyword: Keyword, fids: set<string>)
    ensures ApplyAll(OpsFor(pending + [op], keyword), fids)
      == if keyword == op.keyword then ApplyToFids(op, ApplyAll(OpsFor(pending, keyword), fids))
         else ApplyAll(OpsFor(pending, keyword), fids)
  {
    OpsForSnoc(pending, op, keyword);
    if keyword == op.keyword {
      ApplyAllSnoc(OpsFor(pending, keyword), op, fids);
    } else {
      assert OpsFor(pending, keyword) + [] == OpsFor(pending, keyword);
    }
  }

  lemma FidsAfterStore(s: Storager, op: Operation, keyword: Keyword)
    ensures
      var after := Fids(s.(records := ApplyToRecords(op, s.records)), keyword);
      after == if op.keyword == keyword then ApplyToFids(op, Fids(s, keyword)) else Fids(s, keyword)
  {
    var after := Fids(s.(records := ApplyToRecords(op, s.records)), keyword);
    forall fid ensures fid in after <==> Record(keyword, fid) in ApplyToRecords(op, s.records) {}
    forall fid ensures fid in Fids(s, keyword) <==> Record(keyword, fid) in s.records {}
  }

  /** Records of a keyword are the records under any prefix of its key. */
  lemma FidsFromPrefix(s: Storager, s': Storager, prefix: string, keyword: Keyword)
    requires RecordsUnder(s'.records, prefix) == RecordsUnder(s.records, prefix) && prefix <= keyword.Key()
    ensures Fids(s', keyword) == Fids(s, keyword)
  {
    forall fid ensures fid in Fids(s', keyword) <==> fid in Fids(s, keyword) {
      var r := Record(keyword, fid);
      assert r in RecordsUnder(s'.records, prefix) <==> r in RecordsUnder(s.records, prefix);
    }
  }
}
