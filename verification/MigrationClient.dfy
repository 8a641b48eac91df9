/** Client steps keep the invariant and act on a keyword's contents exactly like the plain operation. */
module MigrationClient {
  import opened Wrappers
  import opened Hex
  import opened Ring
  import opened Routing
  import opened AccTree
  import opened Migration
  import opened MigrationInvariant

  // ----- buffered operations

  ghost predicate SamePlans(ms: Migrations, ms': Migrations) {
    ms'.Keys == ms.Keys && forall p :: p in ms ==> ms'[p].plan == ms[p].plan && ms'[p].confirmed == ms[p].confirmed
  }

  lemma SamePlansSameActive(ms: Migrations, ms': Migrations, p: string, k: Keyword)
    requires SamePlans(ms, ms')
    ensures ActiveIn(ms', p, k) <==> ActiveIn(ms, p, k)
  {
    if p in ms {
      assert ms'[p].Covers(k) <==> ms[p].Covers(k);
    }
  }

  lemma SamePlansKeepOverrides(ring: RingState, ms: Migrations, ms': Migrations, overrides: map<Keyword, RouteTarget>)
    requires ring.Forest() && OverridesOk(ring, ms, overrides) && SamePlans(ms, ms')
    ensures OverridesOk(ring, ms', overrides)
  {
    forall k | k in overrides && Idle(ms', k) ensures RingLookup(ring, k) == Some(overrides[k]) {
      forall p ensures !ActiveIn(ms, p, k) {
        SamePlansSameActive(ms, ms', p, k);
      }
    }
  }

  lemma BufferKeepsPending(pending: seq<Operation>, op: Operation, parent: string)
    requires PendingOk(pending, false, parent) && parent <= op.keyword.Key()
    ensures PendingOk(pending + [op], false, parent)
  {}

  lemma BufferKeepsMigrations(c: Cluster, parent: string, op: Operation)
    requires MigrationsOk(c.ring, |c.nodes|, c.migrations) && ActiveIn(c.migrations, parent, op.keyword)
    ensures MigrationsOk(c.ring, |c.nodes|, Buffer(c, parent, op).migrations)
    ensures SamePlans(c.migrations, Buffer(c, parent, op).migrations)
  {
    var c' := Buffer(c, parent, op);
    ActiveRoute(c.ring, |c.nodes|, c.migrations, parent, op.keyword);
    BufferKeepsMigration(c.ring, |c.nodes|, c.migrations[parent], parent, op);
    forall p | p in c'.migrations ensures MigrationOk(c.ring, |c.nodes|, c'.migrations[p], p) {
      assert p != parent ==> MigrationOk(c.ring, |c.nodes|, c.migrations[p], p);
    }
  }

  lemma BufferKeepsMigration(ring: RingState, nodeCount: nat, m: PrefixMigration, parent: string, op: Operation)
    requires MigrationOk(ring, nodeCount, m, parent) && !m.confirmed && parent <= op.keyword.Key()
    ensures MigrationOk(ring, nodeCount, m.(pending := m.pending + [op]), parent)
  {
    BufferKeepsPending(m.pending, op, parent);
  }

  lemma BufferKeepsInv(c: Cluster, parent: string, op: Operation)
    requires Inv(c) && ActiveIn(c.migrations, parent, op.keyword)
    ensures Inv(Buffer(c, parent, op)) && SamePlans(c.migrations, Buffer(c, parent, op).migrations)
  {
    BufferKeepsMigrations(c, parent, op);
    SamePlansKeepOverrides(c.ring, c.migrations, Buffer(c, parent, op).migrations, c.overrides);
  }

  lemma BufferContents(c: Cluster, parent: string, op: Operation, keyword: Keyword)
    requires Inv(c) && ActiveIn(c.migrations, parent, op.keyword) && Inv(Buffer(c, parent, op))
    ensures Contents(Buffer(c, parent, op), keyword)
      == if keyword == op.keyword then ApplyToFids(op, Contents(c, keyword)) else Contents(c, keyword)
  {
    var c' := Buffer(c, parent, op);
    BufferKeepsInv(c, parent, op);
    var active, active' := ActiveParent(c.migrations, keyword), ActiveParent(c'.migrations, keyword);
    SamePlansSameActive(c.migrations, c'.migrations, active.GetOr(""), keyword);
    SamePlansSameActive(c.migrations, c'.migrations, active'.GetOr(""), keyword);
    if active.Some? {
      ActiveIsUnique(c.ring, |c.nodes|, c.migrations, active.value, active'.value, keyword);
      if keyword == op.keyword {
        ActiveIsUnique(c.ring, |c.nodes|, c.migrations, active.value, parent, keyword);
      }
      HomeInRange(c.ring, |c.nodes|, c.migrations, keyword);
      BufferedContents(c.migrations[active.value].pending, op, keyword, Fids(c.nodes[Home(c.ring, c.migrations, keyword)], keyword));
    }
  }

  // ----- changes of the ring that keep its shape

  /** The cluster with another ring of the same shape behaves the same. */
  lemma SameShapeKeepsInv(c: Cluster, ring: RingState)
    requires Inv(c) && c.ring.SameShape(ring)
    ensures Inv(c.(ring := ring))
  {
    c.ring.SameShapeKeepsForest(ring);
    forall p | p in c.migrations ensures MigrationOk(ring, |c.nodes|, c.migrations[p], p) {
      var m := c.migrations[p];
      assert MigrationOk(c.ring, |c.nodes|, m, p);
      if !m.confirmed {
        forall d: Nibble ensures ChildIsLeaf(ring, m.plan, m.entry, d) {
          assert ChildIsLeaf(c.ring, m.plan, m.entry, d);
        }
      }
    }
    forall k | k in c.overrides && Idle(c.migrations, k) ensures RingLookup(ring, k) == Some(c.overrides[k]) {
      SameShapeKeepsLookup(c.ring, ring, k);
    }
  }

  lemma SameShapeKeepsContents(c: Cluster, ring: RingState, keyword: Keyword)
    requires Inv(c) && c.ring.SameShape(ring) && Inv(c.(ring := ring))
    ensures Contents(c.(ring := ring), keyword) == Contents(c, keyword)
  {
    c.ring.SameShapeKeepsRoutes(ring, keyword.Key());
  }

  // ----- operations sent to a storager

  /** Storing at the ring's own route, seen before the ring counts the operation. */
  function PutRecord(c: Cluster, op: Operation, route: RouteTarget): Cluster
    requires route.node < |c.nodes|
  {
    var node := c.nodes[route.node];
    c.(nodes := c.nodes[route.node := node.(records := ApplyToRecords(op, node.records))],
       overrides := if op.Add? then c.overrides[op.keyword := route] else c.overrides - {op.keyword})
  }

  lemma PutRecordKeepsInv(c: Cluster, op: Operation, route: RouteTarget)
    requires Inv(c) && Idle(c.migrations, op.keyword)
    requires RingLookup(c.ring, op.keyword) == Some(route) && route.node < |c.nodes|
    ensures Inv(PutRecord(c, op, route))
  {
    var c' := PutRecord(c, op, route);
    if c.run.Some? {
      var run := c.run.value;
      var m := c.migrations[run.parent];
      forall i | i in run.segments
        ensures SegmentOk(c'.nodes, m.plan, m.moved, run.segments[i], i, i in run.imported)
      {
        assert SegmentOk(c.nodes, m.plan, m.moved, run.segments[i], i, i in run.imported);
        PutRecordOutside(c, op, route, run.parent, i, m.plan.source.node);
        PutRecordOutside(c, op, route, run.parent, i, m.plan.children[i].node);
      }
    }
  }

  /** An operation on an idle keyword leaves every record under a running migration alone. */
  lemma PutRecordOutside(c: Cluster, op: Operation, route: RouteTarget, parent: string, i: nat, n: nat)
    requires Inv(c) && n < |c.nodes| && Idle(c.migrations, op.keyword) && route.node < |c.nodes|
    requires parent in c.migrations && !c.migrations[parent].confirmed && i < 16
    ensures PlanOk(c.migrations[parent].plan, parent, |c.nodes|)
    ensures RecordsUnder(PutRecord(c, op, route).nodes[n].records, c.migrations[parent].plan.children[i].prefix)
      == RecordsUnder(c.nodes[n].records, c.migrations[parent].plan.children[i].prefix)
  {
    IdleIsOutside(c, parent, op.keyword);
    ParentOfChild(c.migrations[parent].plan, parent, |c.nodes|, i);
    OtherPrefixUntouched(c.nodes[n].records, op, parent, c.migrations[parent].plan.children[i].prefix);
  }

  lemma ParentOfChild(plan: PrefixSplitPlan, parent: string, nodeCount: nat, i: Nibble)
    requires PlanOk(plan, parent, nodeCount)
    ensures parent <= plan.children[i].prefix
  {}

  lemma OtherPrefixUntouched(records: set<Record>, op: Operation, parent: string, prefix: string)
    requires parent <= prefix && !(parent <= op.keyword.Key())
    ensures RecordsUnder(ApplyToRecords(op, records), prefix) == RecordsUnder(records, prefix)
  {
    assert !(prefix <= op.keyword.Key());
  }

  lemma PutRecordContents(c: Cluster, op: Operation, route: RouteTarget, keyword: Keyword)
    requires Inv(c) && Idle(c.migrations, op.keyword)
    requires RingLookup(c.ring, op.keyword) == Some(route)
    requires route.node < |c.nodes| && Inv(PutRecord(c, op, route))
    ensures Contents(PutRecord(c, op, route), keyword)
      == if keyword == op.keyword then ApplyToFids(op, Contents(c, keyword)) else Contents(c, keyword)
  {
    HomeInRange(c.ring, |c.nodes|, c.migrations, keyword);
    FidsAfterStore(c.nodes[route.node], op, keyword);
  }

  /** The ring after a split of a leaf, up to counters and summaries. */
  ghost predicate IsSplitOf(ring: RingState, before: RingState, leaf: nat, after: RingState, event: SplitEvent) {
    && ring.SameShape(before) && before.Forest() && before.CanSplit(leaf)
    && after == before.SplitAt(leaf) && event == before.SplitEventAt(leaf)
  }

  /** What `Store` does, taken apart: the record, the count, and a split of the keyword's own leaf. */
  lemma StoreParts(c: Cluster, op: Operation, route: RouteTarget, summary: seq<Byte>)
    requires c.ring.Forest() && RingLookup(c.ring, op.keyword) == Some(route) && route.node < |c.nodes|
    ensures
      var (stored, event) := Store(c, op, route, summary);
      && stored == PutRecord(c, op, route).(ring := stored.ring)
      && match event
         case None => c.ring.SameShape(stored.ring)
         case Some(e) =>
           exists before: RingState :: IsSplitOf(c.ring, before, c.ring.LeafOf(op.keyword.Key()), stored.ring, e)
  {
    var (stored, event) := Store(c, op, route, summary);
    var leaf := c.ring.LeafOf(op.keyword.Key());
    c.ring.RouteIsUnique(op.keyword.Key(), leaf);
    assert c.ring.EntryOk(leaf);
    CanonicalOfLowerHex(route.prefix);
    assert Capped(route.prefix) == route.prefix;
    c.ring.FindInvertsPrefix(route.prefix, leaf);
    var ringOp := match op
      case Add(_, _) => Insert(route.prefix, summary)
      case Delete(_, _) => RingOp.Delete(route.prefix, summary);
    c.ring.ApplySplitsAtMostTheNamedLeaf(ringOp);
    if event.Some? {
      var before: RingState :| c.ring.SameShape(before) && before.Forest()
        && before.CanSplit(leaf) && stored.ring == before.SplitAt(leaf) && event.value == before.SplitEventAt(leaf);
      assert IsSplitOf(c.ring, before, leaf, stored.ring, event.value);
    }
  }

  // ----- a split and the migration it schedules

  /** The cluster after leaf `leaf` of its ring has been split and the migration scheduled. */
  function SplitAndSchedule(c: Cluster, leaf: nat): Cluster
    requires c.ring.CanSplit(leaf)
  {
    ScheduleSplitMigration(c.(ring := c.ring.SplitAt(leaf)), c.ring.SplitEventAt(leaf))
  }

  /** The migration map after a fresh split. */
  function Scheduled(c: Cluster, leaf: nat): Migrations
    requires c.ring.CanSplit(leaf)
  {
    c.migrations[c.ring.entries[leaf].prefix := PrefixMigration(PlanFor(c.ring, leaf), false, [], leaf, false)]
  }

  lemma SplitPrefixIsNew(c: Cluster, leaf: nat)
    requires MigrationsOk(c.ring, |c.nodes|, c.migrations) && c.ring.CanSplit(leaf)
    ensures c.ring.entries[leaf].prefix !in c.migrations
    ensures SplitAndSchedule(c, leaf) == c.(
      ring := c.ring.SplitAt(leaf), migrations := Scheduled(c, leaf), queued := c.queued + {c.ring.entries[leaf].prefix})
  {
    var parent := c.ring.entries[leaf].prefix;
    assert PlanFor(c.ring, leaf).source.prefix == parent;
    if parent in c.migrations {
      var m := c.migrations[parent];
      assert MigrationOk(c.ring, |c.nodes|, m, parent);
      assert c.ring.EntryOk(leaf);
      CanonicalOfLowerHex(parent);
      c.ring.FindInvertsPrefix(parent, leaf);
      c.ring.FindInvertsPrefix(parent, m.entry);
    }
  }

  lemma NewPlanOk(ring: RingState, leaf: nat)
    requires ring.Forest() && ring.CanSplit(leaf)
    ensures PlanOk(PlanFor(ring, leaf), ring.entries[leaf].prefix, |ring.nodeNames|)
    ensures EntryOk(ring.SplitAt(leaf), PlanFor(ring, leaf), leaf, false)
  {
    assert ring.EntryOk(leaf);
    var plan := PlanFor(ring, leaf);
    forall d: Nibble
      ensures plan.children[d] == RouteTarget(ring.entries[leaf].prefix + [HexDigit(d)], (plan.source.node + d) % |ring.nodeNames|)
      ensures ChildIsLeaf(ring.SplitAt(leaf), plan, leaf, d)
    {
      PlanShape(ring, leaf, d);
      assert ring.SplitAt(leaf).entries[|ring.entries| + d] == ring.ChildEntry(leaf, d);
    }
  }

  lemma OtherLeafStays(ring: RingState, leaf: nat, plan: PrefixSplitPlan, entry: nat, d: Nibble)
    requires ring.Forest() && ring.CanSplit(leaf) && ring.IsSplit(entry) && |plan.children| == 16
    requires ChildIsLeaf(ring, plan, entry, d) && ring.entries[entry].splitChildStart.value + d != leaf
    ensures ring.SplitAt(leaf).IsSplit(entry) && ChildIsLeaf(ring.SplitAt(leaf), plan, entry, d)
  {}

  /** Splitting the leaf of an idle keyword leaves the children of every pending migration alone. */
  lemma OldEntryOk(c: Cluster, leaf: nat, keyword: Keyword, p: string)
    requires MigrationsOk(c.ring, |c.nodes|, c.migrations) && c.ring.CanSplit(leaf)
    requires c.ring.LeafOf(keyword.Key()) == leaf && Idle(c.migrations, keyword) && p in c.migrations
    ensures EntryOk(c.ring.SplitAt(leaf), c.migrations[p].plan, c.migrations[p].entry, c.migrations[p].confirmed)
  {
    var m := c.migrations[p];
    assert MigrationOk(c.ring, |c.nodes|, m, p);
    if !m.confirmed {
      forall d: Nibble ensures ChildIsLeaf(c.ring.SplitAt(leaf), m.plan, m.entry, d) {
        assert ChildIsLeaf(c.ring, m.plan, m.entry, d);
        LeafIsNotAChild(c, leaf, keyword, p, d);
        OtherLeafStays(c.ring, leaf, m.plan, m.entry, d);
      }
    }
  }

  lemma LeafIsNotAChild(c: Cluster, leaf: nat, keyword: Keyword, p: string, d: Nibble)
    requires MigrationsOk(c.ring, |c.nodes|, c.migrations)
    requires c.ring.LeafOf(keyword.Key()) == leaf && Idle(c.migrations, keyword)
    requires p in c.migrations && !c.migrations[p].confirmed
    ensures c.ring.IsSplit(c.migrations[p].entry)
    ensures c.ring.entries[c.migrations[p].entry].splitChildStart.value + d != leaf
  {
    IdleIsOutside(c, p, keyword);
    c.ring.RouteIsUnique(keyword.Key(), leaf);
    ChildPrefix(c.ring, c.migrations[p].entry, d);
    var child := c.ring.entries[c.migrations[p].entry].splitChildStart.value + d;
    assert c.ring.entries[child].prefix[..|p|] == p;
  }

  lemma IdleIsOutside(c: Cluster, p: string, keyword: Keyword)
    requires MigrationsOk(c.ring, |c.nodes|, c.migrations)
    requires p in c.migrations && !c.migrations[p].confirmed && Idle(c.migrations, keyword)
    ensures MigrationOk(c.ring, |c.nodes|, c.migrations[p], p) && !(p <= keyword.Key())
  {
    assert MigrationOk(c.ring, |c.nodes|, c.migrations[p], p);
    assert !ActiveIn(c.migrations, p, keyword);
    CoversIsUnder(c.migrations[p], p, |c.nodes|, keyword);
  }

  lemma ChildPrefix(ring: RingState, entry: nat, d: Nibble)
    requires ring.Forest() && ring.IsSplit(entry)
    ensures
      var child := ring.entries[entry].splitChildStart.value + d;
      child < |ring.entries| && ring.entries[child].prefix == ring.entries[entry].prefix + [HexDigit(d)]
  {
    assert ring.EntryOk(entry);
    assert ring.ChildOk(ring.entries[entry].splitChildStart.value, ring.entries[entry].prefix, d);
  }

  lemma ScheduleKeepsMigrations(c: Cluster, leaf: nat, keyword: Keyword)
    requires MigrationsOk(c.ring, |c.nodes|, c.migrations) && c.ring.CanSplit(leaf)
    requires c.ring.LeafOf(keyword.Key()) == leaf && Idle(c.migrations, keyword)
    ensures MigrationsOk(c.ring.SplitAt(leaf), |c.nodes|, Scheduled(c, leaf))
  {
    var split, ms' := c.ring.SplitAt(leaf), Scheduled(c, leaf);
    c.ring.SplitKeepsForest(leaf);
    forall p | p in ms' ensures MigrationOk(split, |c.nodes|, ms'[p], p) {
      if p == c.ring.entries[leaf].prefix {
        NewPlanOk(c.ring, leaf);
      } else {
        assert MigrationOk(c.ring, |c.nodes|, c.migrations[p], p);
        OldEntryOk(c, leaf, keyword, p);
      }
    }
  }

  /** After the split exactly the keywords under the split prefix become covered by the new migration,
      and they were idle before. */
  lemma ScheduledActive(c: Cluster, leaf: nat, keyword: Keyword, k: Keyword)
    requires MigrationsOk(c.ring, |c.nodes|, c.migrations) && c.ring.CanSplit(leaf)
    requires c.ring.LeafOf(keyword.Key()) == leaf && Idle(c.migrations, keyword)
    ensures
      var parent := c.ring.entries[leaf].prefix;
      && (ActiveIn(Scheduled(c, leaf), parent, k) <==> parent <= k.Key())
      && (parent <= k.Key() ==> Idle(c.migrations, k))
      && (forall p :: p != parent ==> (ActiveIn(Scheduled(c, leaf), p, k) <==> ActiveIn(c.migrations, p, k)))
  {
    var parent := c.ring.entries[leaf].prefix;
    NewPlanOk(c.ring, leaf);
    CoversIsUnder(Scheduled(c, leaf)[parent], parent, |c.nodes|, k);
    if parent <= k.Key() && !Idle(c.migrations, k) {
      var p :| ActiveIn(c.migrations, p, k);
      c.ring.RouteIsUnique(k.Key(), leaf);
      c.ring.RouteIsUnique(keyword.Key(), leaf);
      SameRouteSameActive(c.ring, |c.nodes|, c.migrations, p, k, keyword);
    }
  }

  lemma ScheduleKeepsInv(c: Cluster, leaf: nat, keyword: Keyword)
    requires Inv(c) && c.ring.CanSplit(leaf)
    requires c.ring.LeafOf(keyword.Key()) == leaf && Idle(c.migrations, keyword)
    ensures Inv(SplitAndSchedule(c, leaf))
  {
    var parent := c.ring.entries[leaf].prefix;
    SplitPrefixIsNew(c, leaf);
    ScheduleKeepsMigrations(c, leaf, keyword);
    var split, ms' := c.ring.SplitAt(leaf), Scheduled(c, leaf);
    forall k | k in c.overrides && Idle(ms', k) ensures RingLookup(split, k) == Some(c.overrides[k]) {
      ScheduledActive(c, leaf, keyword, k);
      SplitLookup(c.ring, leaf, k);
      assert !ActiveIn(ms', parent, k);
      forall p ensures !ActiveIn(c.migrations, p, k) {
        assert !ActiveIn(ms', p, k);
        assert p == parent ==> p !in c.migrations;
      }
    }
  }

  lemma ScheduleKeepsContentsUnder(c: Cluster, leaf: nat, keyword: Keyword, k: Keyword)
    requires Inv(c) && c.ring.CanSplit(leaf) && Inv(SplitAndSchedule(c, leaf))
    requires c.ring.LeafOf(keyword.Key()) == leaf && Idle(c.migrations, keyword)
    requires c.ring.entries[leaf].prefix <= k.Key()
    ensures Contents(SplitAndSchedule(c, leaf), k) == Contents(c, k)
  {
    var c' := SplitAndSchedule(c, leaf);
    var parent := c.ring.entries[leaf].prefix;
    SplitPrefixIsNew(c, leaf);
    ScheduledActive(c, leaf, keyword, k);
    ActiveParentIs(c'.ring, |c'.nodes|, c'.migrations, parent, k);
    assert PlanFor(c.ring, leaf).source.node == c.ring.entries[leaf].ownerRef;
    c.ring.RouteIsUnique(k.Key(), leaf);
  }

  lemma ScheduleKeepsActiveParent(c: Cluster, leaf: nat, keyword: Keyword, k: Keyword)
    requires Inv(c) && c.ring.CanSplit(leaf) && MigrationsOk(c.ring.SplitAt(leaf), |c.nodes|, Scheduled(c, leaf))
    requires c.ring.LeafOf(keyword.Key()) == leaf && Idle(c.migrations, keyword)
    requires !(c.ring.entries[leaf].prefix <= k.Key())
    ensures ActiveParent(Scheduled(c, leaf), k) == ActiveParent(c.migrations, k)
    ensures ActiveParent(c.migrations, k).Some? ==> ActiveParent(c.migrations, k).value != c.ring.entries[leaf].prefix
  {
    ScheduledActive(c, leaf, keyword, k);
    SplitPrefixIsNew(c, leaf);
    var active, active' := ActiveParent(c.migrations, k), ActiveParent(Scheduled(c, leaf), k);
    if active.Some? {
      ActiveParentIs(c.ring.SplitAt(leaf), |c.nodes|, Scheduled(c, leaf), active.value, k);
    }
  }

  lemma ScheduleKeepsContents(c: Cluster, leaf: nat, keyword: Keyword, k: Keyword)
    requires Inv(c) && c.ring.CanSplit(leaf) && Inv(SplitAndSchedule(c, leaf))
    requires c.ring.LeafOf(keyword.Key()) == leaf && Idle(c.migrations, keyword)
    ensures Contents(SplitAndSchedule(c, leaf), k) == Contents(c, k)
  {
    if c.ring.entries[leaf].prefix <= k.Key() {
      ScheduleKeepsContentsUnder(c, leaf, keyword, k);
    } else {
      SplitPrefixIsNew(c, leaf);
      ScheduleKeepsActiveParent(c, leaf, keyword, k);
      c.ring.SplitIsLocal(leaf, k.Key());
    }
  }

  // ----- the client step

  lemma RouteOfIdle(c: Cluster, keyword: Keyword)
    requires Inv(c) && Idle(c.migrations, keyword)
    ensures RouteKeyword(c, keyword) == RingLookup(c.ring, keyword)
    ensures RingLookup(c.ring, keyword).Some? && RingLookup(c.ring, keyword).value.node < |c.nodes|
  {
    c.ring.RouteIsUnique(keyword.Key(), c.ring.LeafOf(keyword.Key()));
  }

  /** A client operation keeps the invariant, and the contents of its keyword change exactly as if the
      operation were applied to them directly; all other contents stay. */
  lemma ClientStepRefines(c: Cluster, op: Operation, summary: seq<Byte>, c': Cluster, keyword: Keyword)
    requires Inv(c) && ClientStep(c, op, summary, c')
    ensures Inv(c')
    ensures Contents(c', keyword) == if keyword == op.keyword then ApplyToFids(op, Contents(c, keyword)) else Contents(c, keyword)
  {
    if !Idle(c.migrations, op.keyword) {
      var p :| ActiveIn(c.migrations, p, op.keyword) && c' == Buffer(c, p, op);
      BufferKeepsInv(c, p, op);
      BufferContents(c, p, op, keyword);
    } else {
      RouteOfIdle(c, op.keyword);
      var route := RingLookup(c.ring, op.keyword).value;
      var (stored, event) := Store(c, op, route, summary);
      StoreParts(c, op, route, summary);
      PutRecordKeepsInv(c, op, route);
      PutRecordContents(c, op, route, keyword);
      var put := PutRecord(c, op, route);
      if event.None? {
        SameShapeKeepsInv(put, stored.ring);
        SameShapeKeepsContents(put, stored.ring, keyword);
      } else {
        var leaf := c.ring.LeafOf(op.keyword.Key());
        var before :| IsSplitOf(c.ring, before, leaf, stored.ring, event.value);
        SameShapeKeepsInv(put, before);
        SameShapeKeepsContents(put, before, keyword);
        c.ring.SameShapeKeepsRoutes(before, op.keyword.Key());
        var counted := put.(ring := before);
        assert stored == counted.(ring := before.SplitAt(leaf));
        ScheduleKeepsInv(counted, leaf, op.keyword);
        ScheduleKeepsContents(counted, leaf, op.keyword, keyword);
      }
    }
  }
}
