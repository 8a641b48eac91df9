/** Where records lie when no migration aborts: in exactly one place, the one the routes name. */
module MigrationPlacement {
  import opened Wrappers
  import opened Hex
  import opened Ring
  import opened Routing
  import opened AccTree
  import opened Migration
  import opened MigrationInvariant
  import opened MigrationClient
  import opened MigrationServer
  import opened MigrationPresplit
  import opened MigrationTheorems

  /** A record of `k` on node `n` is at its home, or is the copy a running migration has imported. */
  ghost predicate Placed(c: Cluster, n: nat, k: Keyword)
    requires c.ring.Forest()
  {
    || n == Home(c.ring, c.migrations, k)
    || (c.run.Some? && c.run.value.parent <= k.Key() && n == c.ring.OwnerOf(k.Key())
        && DigitAt(k.Key(), |c.run.value.parent|) in c.run.value.imported)
  }

  ghost predicate AllPlaced(c: Cluster)
    requires c.ring.Forest()
  {
    forall n: nat, r :: n < |c.nodes| && r in c.nodes[n].records ==> Placed(c, n, r.keyword)
  }

  /** The prefixes a running migration has prepared and not yet confirmed. */
  ghost function Awaiting(plan: PrefixSplitPlan, run: Run): set<string> {
    set i | i in run.segments && i < |plan.children| && i >= run.confirmedUpTo :: plan.children[i].prefix
  }

  /** No storager retains anything but what the running migration is about to confirm. */
  ghost predicate RetainedOk(c: Cluster) {
    forall n: nat :: n < |c.nodes| ==> c.nodes[n].retained == RetainedBy(c, n)
  }

  ghost function RetainedBy(c: Cluster, n: nat): set<string> {
    if c.run.Some? && c.run.value.parent in c.migrations && c.migrations[c.run.value.parent].plan.source.node == n
    then Awaiting(c.migrations[c.run.value.parent].plan, c.run.value) else {}
  }

  /** Every pending migration is still queued or running. */
  ghost predicate PendingAccounted(c: Cluster) {
    forall p :: p in c.migrations && !c.migrations[p].confirmed ==>
      p in c.queued || (c.run.Some? && c.run.value.parent == p)
  }

  /** Until the source deletes, something is left to confirm. */
  ghost predicate SomethingLeft(c: Cluster) {
    c.run.Some? && c.run.value.parent in c.migrations && !c.migrations[c.run.value.parent].moved && c.run.value.segments != map[]
    ==> exists i :: i in c.run.value.segments && i >= c.run.value.confirmedUpTo
  }

  ghost predicate CleanInv(c: Cluster) {
    Inv(c) && AllPlaced(c) && RetainedOk(c) && PendingAccounted(c) && SomethingLeft(c)
  }

  // ----- client steps

  lemma BufferKeepsHome(c: Cluster, parent: string, op: Operation, k: Keyword)
    requires Inv(c) && ActiveIn(c.migrations, parent, op.keyword)
    ensures Home(c.ring, Buffer(c, parent, op).migrations, k) == Home(c.ring, c.migrations, k)
  {
    BufferKeepsMigrations(c, parent, op);
    SamePlansSameActiveParent(c, Buffer(c, parent, op).migrations, k);
  }

  lemma BufferKeepsClean(c: Cluster, parent: string, op: Operation)
    requires CleanInv(c) && ActiveIn(c.migrations, parent, op.keyword)
    ensures CleanInv(Buffer(c, parent, op))
  {
    var c' := Buffer(c, parent, op);
    BufferKeepsInv(c, parent, op);
    forall n: nat, r | n < |c'.nodes| && r in c'.nodes[n].records ensures Placed(c', n, r.keyword) {
      assert Placed(c, n, r.keyword);
      BufferKeepsHome(c, parent, op, r.keyword);
    }
    forall n: nat | n < |c'.nodes| ensures c'.nodes[n].retained == RetainedBy(c', n) {
      assert c.nodes[n].retained == RetainedBy(c, n);
    }
  }

  lemma SameShapeKeepsClean(c: Cluster, ring: RingState)
    requires CleanInv(c) && c.ring.SameShape(ring)
    ensures CleanInv(c.(ring := ring))
  {
    var c' := c.(ring := ring);
    SameShapeKeepsInv(c, ring);
    forall n: nat, r | n < |c'.nodes| && r in c'.nodes[n].records ensures Placed(c', n, r.keyword) {
      assert Placed(c, n, r.keyword);
      c.ring.SameShapeKeepsRoutes(ring, r.keyword.Key());
    }
    forall n: nat | n < |c'.nodes| ensures c'.nodes[n].retained == RetainedBy(c', n) {
      assert c.nodes[n].retained == RetainedBy(c, n);
    }
  }

  lemma PutRecordKeepsClean(c: Cluster, op: Operation, route: RouteTarget)
    requires CleanInv(c) && Idle(c.migrations, op.keyword)
    requires RingLookup(c.ring, op.keyword) == Some(route) && route.node < |c.nodes|
    ensures CleanInv(PutRecord(c, op, route))
  {
    var c' := PutRecord(c, op, route);
    PutRecordKeepsInv(c, op, route);
    forall n: nat, r | n < |c'.nodes| && r in c'.nodes[n].records ensures Placed(c', n, r.keyword) {
      assert r in c.nodes[n].records ==> Placed(c, n, r.keyword);
    }
    forall n: nat | n < |c'.nodes| ensures c'.nodes[n].retained == RetainedBy(c', n) {
      assert c.nodes[n].retained == RetainedBy(c, n);
    }
  }

  lemma ScheduleKeepsHomeUnder(c: Cluster, leaf: nat, keyword: Keyword, k: Keyword)
    requires Inv(c) && c.ring.CanSplit(leaf) && MigrationsOk(c.ring.SplitAt(leaf), |c.nodes|, Scheduled(c, leaf))
    requires c.ring.LeafOf(keyword.Key()) == leaf && Idle(c.migrations, keyword)
    requires c.ring.entries[leaf].prefix <= k.Key()
    ensures Home(c.ring.SplitAt(leaf), Scheduled(c, leaf), k) == Home(c.ring, c.migrations, k)
  {
    ScheduledActive(c, leaf, keyword, k);
    ActiveParentIs(c.ring.SplitAt(leaf), |c.nodes|, Scheduled(c, leaf), c.ring.entries[leaf].prefix, k);
    assert PlanFor(c.ring, leaf).source.node == c.ring.entries[leaf].ownerRef;
    c.ring.RouteIsUnique(k.Key(), leaf);
  }

  lemma ScheduleKeepsHome(c: Cluster, leaf: nat, keyword: Keyword, k: Keyword)
    requires Inv(c) && c.ring.CanSplit(leaf) && MigrationsOk(c.ring.SplitAt(leaf), |c.nodes|, Scheduled(c, leaf))
    requires c.ring.LeafOf(keyword.Key()) == leaf && Idle(c.migrations, keyword)
    ensures Home(c.ring.SplitAt(leaf), Scheduled(c, leaf), k) == Home(c.ring, c.migrations, k)
  {
    if c.ring.entries[leaf].prefix <= k.Key() {
      ScheduleKeepsHomeUnder(c, leaf, keyword, k);
    } else {
      c.ring.SplitIsLocal(leaf, k.Key());
      ScheduleKeepsActiveParent(c, leaf, keyword, k);
    }
  }

  /** Keywords of a running migration keep their owner when an idle keyword's leaf splits. */
  lemma ScheduleKeepsPlaced(c: Cluster, leaf: nat, keyword: Keyword, n: nat, k: Keyword)
    requires Inv(c) && c.ring.CanSplit(leaf) && Inv(SplitAndSchedule(c, leaf))
    requires c.ring.LeafOf(keyword.Key()) == leaf && Idle(c.migrations, keyword)
    requires Placed(c, n, k)
    ensures Placed(SplitAndSchedule(c, leaf), n, k)
  {
    SplitPrefixIsNew(c, leaf);
    ScheduleKeepsMigrations(c, leaf, keyword);
    ScheduleKeepsHome(c, leaf, keyword, k);
    if c.run.Some? && c.run.value.parent <= k.Key() {
      CoversIsUnder(c.migrations[c.run.value.parent], c.run.value.parent, |c.nodes|, k);
      ScheduledActive(c, leaf, keyword, k);
      assert !(c.ring.entries[leaf].prefix <= k.Key()) by {
        assert ActiveIn(c.migrations, c.run.value.parent, k);
      }
      c.ring.SplitIsLocal(leaf, k.Key());
    }
  }

  lemma ScheduleKeepsClean(c: Cluster, leaf: nat, keyword: Keyword)
    requires CleanInv(c) && c.ring.CanSplit(leaf)
    requires c.ring.LeafOf(keyword.Key()) == leaf && Idle(c.migrations, keyword)
    ensures CleanInv(SplitAndSchedule(c, leaf))
  {
    var c' := SplitAndSchedule(c, leaf);
    ScheduleKeepsInv(c, leaf, keyword);
    SplitPrefixIsNew(c, leaf);
    forall n: nat, r | n < |c'.nodes| && r in c'.nodes[n].records ensures Placed(c', n, r.keyword) {
      ScheduleKeepsPlaced(c, leaf, keyword, n, r.keyword);
    }
    forall n: nat | n < |c'.nodes| ensures c'.nodes[n].retained == RetainedBy(c', n) {
      assert c.nodes[n].retained == RetainedBy(c, n);
    }
  }

  lemma ClientKeepsClean(c: Cluster, op: Operation, summary: seq<Byte>, c': Cluster)
    requires CleanInv(c) && ClientStep(c, op, summary, c')
    ensures CleanInv(c')
  {
    if !Idle(c.migrations, op.keyword) {
      var p :| ActiveIn(c.migrations, p, op.keyword) && c' == Buffer(c, p, op);
      BufferKeepsClean(c, p, op);
    } else {
      RouteOfIdle(c, op.keyword);
      var route := RingLookup(c.ring, op.keyword).value;
      var (stored, event) := Store(c, op, route, summary);
      StoreParts(c, op, route, summary);
      PutRecordKeepsClean(c, op, route);
      var put := PutRecord(c, op, route);
      if event.None? {
        SameShapeKeepsClean(put, stored.ring);
      } else {
        var leaf := c.ring.LeafOf(op.keyword.Key());
        var before :| IsSplitOf(c.ring, before, leaf, stored.ring, event.value);
        SameShapeKeepsClean(put, before);
        c.ring.SameShapeKeepsRoutes(before, op.keyword.Key());
        var counted := put.(ring := before);
        assert stored == counted.(ring := before.SplitAt(leaf));
        ScheduleKeepsClean(counted, leaf, op.keyword);
      }
    }
  }

  // ----- migration steps

  /** Steps that leave the ring and the migrations alone only have to place what they store. */
  lemma PlacedAgain(c: Cluster, c': Cluster)
    requires Inv(c) && c'.ring == c.ring && c'.migrations == c.migrations && |c'.nodes| == |c.nodes|
    requires c.run.Some? ==>
      c'.run.Some? && c'.run.value.parent == c.run.value.parent && c.run.value.imported <= c'.run.value.imported
    requires forall n: nat, r :: n < |c'.nodes| && r in c'.nodes[n].records ==> Placed(c, n, r.keyword)
    ensures AllPlaced(c')
  {
    forall n: nat, r | n < |c'.nodes| && r in c'.nodes[n].records ensures Placed(c', n, r.keyword) {
      StaysPlaced(c, c', n, r.keyword);
    }
  }

  lemma StaysPlaced(c: Cluster, c': Cluster, n: nat, k: Keyword)
    requires Inv(c) && c'.ring == c.ring && c'.migrations == c.migrations && Placed(c, n, k)
    requires c.run.Some? ==>
      c'.run.Some? && c'.run.value.parent == c.run.value.parent && c.run.value.imported <= c'.run.value.imported
    ensures Placed(c', n, k)
  {}

  lemma StartKeepsClean(c: Cluster, parent: string, c': Cluster, k: Keyword)
    requires CleanInv(c) && StartStep(c, parent, c')
    ensures CleanInv(c')
  {
    StartKeeps(c, parent, c', k);
    PlacedAgain(c, c');
    forall n: nat | n < |c'.nodes| ensures c'.nodes[n].retained == RetainedBy(c', n) {
      assert c.nodes[n].retained == RetainedBy(c, n);
    }
  }

  lemma PrepareRetains(nodes: seq<Storager>, plan: PrefixSplitPlan, moved: bool, run: Run)
    requires RunOk(nodes, plan, moved, run) && run.prepared < 16
    requires nodes[plan.source.node].retained == Awaiting(plan, run)
    ensures
      var i := run.prepared;
      if plan.IsForeign(i) then
        var prepared := nodes[plan.source.node].Prepare(plan.children[i].prefix);
        && prepared.Ok? && prepared.value.0.records == nodes[plan.source.node].records
        && prepared.value.0.retained == Awaiting(plan, run.(prepared := i + 1, segments := run.segments[i := prepared.value.1]))
      else Awaiting(plan, run.(prepared := i + 1)) == Awaiting(plan, run)
  {
    var i := run.prepared;
    if plan.IsForeign(i) {
      ChildPrefixes(plan, run.parent, |nodes|, i, i);
      assert run.confirmedUpTo == 0;
      var segment := nodes[plan.source.node].Prepare(plan.children[i].prefix).value.1;
      assert Awaiting(plan, run.(prepared := i + 1, segments := run.segments[i := segment]))
        == Awaiting(plan, run) + {plan.children[i].prefix};
    }
  }

  lemma PrepareKeepsClean(c: Cluster, c': Cluster, k: Keyword)
    requires CleanInv(c) && PrepareStep(c, c')
    ensures CleanInv(c')
  {
    PrepareKeeps(c, c', k);
    var run, m := c.run.value, c.migrations[c.run.value.parent];
    assert c.nodes[m.plan.source.node].retained == RetainedBy(c, m.plan.source.node);
    PrepareRetains(c.nodes, m.plan, m.moved, run);
    forall n: nat, r | n < |c'.nodes| && r in c'.nodes[n].records ensures Placed(c, n, r.keyword) {
      assert r in c.nodes[n].records;
    }
    PlacedAgain(c, c');
    forall n: nat | n < |c'.nodes| ensures c'.nodes[n].retained == RetainedBy(c', n) {
      assert c.nodes[n].retained == RetainedBy(c, n);
    }
    PrepareLeavesSomething(m.plan, m.moved, run, c'.run.value);
  }

  lemma PrepareLeavesSomething(plan: PrefixSplitPlan, moved: bool, run: Run, run': Run)
    requires ProgressOk(plan, moved, run) && run.prepared < 16
    requires run'.confirmedUpTo == run.confirmedUpTo
    ensures run'.segments != map[] ==> exists i :: i in run'.segments && i >= run'.confirmedUpTo
  {
    assert run'.confirmedUpTo == 0;
    if run'.segments != map[] {
      var i :| i in run'.segments;
      assert i >= run'.confirmedUpTo;
    }
  }

  /** What an import stores is under the child's prefix, and the ring routes that child to the target. */
  lemma ImportedIsPlaced(c: Cluster, i: nat, c': Cluster, n: nat, r: Record)
    requires CleanInv(c) && ImportStep(c, i, c') && n < |c'.nodes| && r in c'.nodes[n].records
    ensures Placed(c', n, r.keyword)
  {
    if r in c.nodes[n].records {
      StaysPlaced(c, c', n, r.keyword);
    } else {
      CopyIsOfChild(c, i, c', n, r);
    }
  }

  lemma CopyIsOfChild(c: Cluster, i: nat, c': Cluster, n: nat, r: Record)
    requires Inv(c) && ImportStep(c, i, c') && n < |c'.nodes| && r in c'.nodes[n].records && r !in c.nodes[n].records
    ensures c.run.value.parent <= r.keyword.Key() && n == c.ring.OwnerOf(r.keyword.Key())
    ensures DigitAt(r.keyword.Key(), |c.run.value.parent|) == i
  {
    var run, m := c.run.value, c.migrations[c.run.value.parent];
    assert SegmentOk(c.nodes, m.plan, m.moved, run.segments[i], i, false);
    ChildPrefixes(m.plan, run.parent, |c.nodes|, i, i);
    assert Under(r, m.plan.children[i].prefix);
    CoversIsUnder(m, run.parent, |c.nodes|, r.keyword);
    ActiveRoute(c.ring, |c.nodes|, c.migrations, run.parent, r.keyword);
    ChildPrefixes(m.plan, run.parent, |c.nodes|, i, DigitAt(r.keyword.Key(), |run.parent|));
  }

  lemma ImportKeepsRetained(c: Cluster, i: nat, c': Cluster)
    requires RunInv(c) && RetainedOk(c) && ImportStep(c, i, c')
    ensures RetainedOk(c')
  {
    var m := c.migrations[c.run.value.parent];
    assert Awaiting(m.plan, c'.run.value) == Awaiting(m.plan, c.run.value);
    forall n: nat | n < |c'.nodes| ensures c'.nodes[n].retained == RetainedBy(c', n) {
      assert c.nodes[n].retained == RetainedBy(c, n);
    }
  }

  lemma ImportKeepsClean(c: Cluster, i: nat, c': Cluster, k: Keyword)
    requires CleanInv(c) && ImportStep(c, i, c')
    ensures CleanInv(c')
  {
    ImportKeeps(c, i, c', k);
    ImportKeepsRetained(c, i, c');
    forall n: nat, r | n < |c'.nodes| && r in c'.nodes[n].records ensures Placed(c', n, r.keyword) {
      ImportedIsPlaced(c, i, c', n, r);
    }
    assert SomethingLeft(c);
  }

  // ----- confirm

  lemma SkipRetains(plan: PrefixSplitPlan, run: Run)
    requires run.confirmedUpTo !in run.segments
    ensures Awaiting(plan, run.(confirmedUpTo := run.confirmedUpTo + 1)) == Awaiting(plan, run)
  {}

  lemma SkipKeepsClean(c: Cluster, c': Cluster, k: Keyword)
    requires CleanInv(c) && ConfirmStep(c, c') && c.run.value.confirmedUpTo !in c.run.value.segments
    ensures CleanInv(c')
  {
    ConfirmKeeps(c, c', k);
    var m := c.migrations[c.run.value.parent];
    SkipRetains(m.plan, c.run.value);
    forall n: nat, r | n < |c'.nodes| && r in c'.nodes[n].records ensures Placed(c, n, r.keyword) {
      assert r in c.nodes[n].records;
    }
    PlacedAgain(c, c');
    forall n: nat | n < |c'.nodes| ensures c'.nodes[n].retained == RetainedBy(c', n) {
      assert c.nodes[n].retained == RetainedBy(c, n);
    }
  }

  /** Confirming takes one prefix off what the source still retains. */
  lemma ConfirmRetains(plan: PrefixSplitPlan, nodeCount: nat, moved: bool, run: Run)
    requires PlanOk(plan, run.parent, nodeCount) && ProgressOk(plan, moved, run)
    requires run.confirmedUpTo in run.segments
    ensures
      var i := run.confirmedUpTo;
      Awaiting(plan, run.(confirmedUpTo := i + 1)) == Awaiting(plan, run) - {plan.children[i].prefix}
  {
    var i := run.confirmedUpTo;
    forall j: Nibble ensures plan.children[j].prefix == plan.children[i].prefix <==> j == i {
      ChildPrefixes(plan, run.parent, nodeCount, j, i);
    }
  }

  lemma ConfirmTakesPrefix(source: Storager, prefix: string)
    requires NormalizePrefixHex(prefix) == Ok(prefix) && source.Confirm(prefix).Ok?
    ensures source.Confirm(prefix).value.retained == source.retained - {prefix}
    ensures Deletes(source, prefix) <==> source.Confirm(prefix).value.retained == {}
    ensures source.Confirm(prefix).value.records <= source.records
  {}

  /** The effect of confirming a prepared child, as far as retained prefixes and the flag go. */
  ghost predicate ConfirmedSource(c: Cluster, c': Cluster, prefix: string)
    requires c.run.Some? && c.run.value.parent in c.migrations
  {
    var run, m := c.run.value, c.migrations[c.run.value.parent];
    var source := m.plan.source.node;
    && OnlyRunChanges(c, c') && source < |c.nodes|
    && c'.run.value == run.(confirmedUpTo := run.confirmedUpTo + 1)
    && c'.nodes[source].retained == c.nodes[source].retained - {prefix}
    && c'.nodes == c.nodes[source := c'.nodes[source]]
    && (c'.migrations[run.parent].moved <==> m.moved || c'.nodes[source].retained == {})
  }

  lemma ConfirmSource(c: Cluster, c': Cluster)
    requires RunInv(c) && ConfirmStep(c, c') && c.run.value.confirmedUpTo in c.run.value.segments
    requires OnlyRunChanges(c, c')
    ensures ConfirmedSource(c, c', c.migrations[c.run.value.parent].plan.children[c.run.value.confirmedUpTo].prefix)
  {
    var run, m := c.run.value, c.migrations[c.run.value.parent];
    PreparedPrefixIsNormal(c, run.confirmedUpTo);
    ConfirmTakesPrefix(c.nodes[m.plan.source.node], m.plan.children[run.confirmedUpTo].prefix);
  }

  lemma PreparedPrefixIsNormal(c: Cluster, i: nat)
    requires RunInv(c) && c.run.Some? && i < 16
    ensures
      var m := c.migrations[c.run.value.parent];
      |m.plan.children| == 16 && NormalizePrefixHex(m.plan.children[i].prefix) == Ok(m.plan.children[i].prefix)
  {
    ChildPrefixes(c.migrations[c.run.value.parent].plan, c.run.value.parent, |c.nodes|, i, i);
  }

  lemma ConfirmedKeepsRetained(c: Cluster, c': Cluster)
    requires RunInv(c) && RetainedOk(c) && c.run.Some? && c.run.value.confirmedUpTo in c.run.value.segments
    requires ConfirmedSource(c, c', c.migrations[c.run.value.parent].plan.children[c.run.value.confirmedUpTo].prefix)
    ensures RetainedOk(c')
  {
    var run, m := c.run.value, c.migrations[c.run.value.parent];
    ConfirmRetains(m.plan, |c.nodes|, m.moved, run);
    forall n: nat | n < |c'.nodes| ensures c'.nodes[n].retained == RetainedBy(c', n) {
      assert c.nodes[n].retained == RetainedBy(c, n);
    }
  }

  lemma ConfirmedLeavesSomething(c: Cluster, c': Cluster)
    requires RunInv(c) && RetainedOk(c') && c.run.Some? && c.run.value.confirmedUpTo in c.run.value.segments
    requires ConfirmedSource(c, c', c.migrations[c.run.value.parent].plan.children[c.run.value.confirmedUpTo].prefix)
    ensures SomethingLeft(c')
  {
    var run', m' := c'.run.value, c'.migrations[c.run.value.parent];
    assert c'.nodes[m'.plan.source.node].retained == RetainedBy(c', m'.plan.source.node);
    if !m'.moved {
      var p :| p in Awaiting(m'.plan, run');
      AwaitingIsLeft(m'.plan, run', p);
    }
  }

  lemma AwaitingIsLeft(plan: PrefixSplitPlan, run: Run, p: string)
    requires p in Awaiting(plan, run)
    ensures exists i :: i in run.segments && i >= run.confirmedUpTo
  {
    var i :| i in run.segments && i < |plan.children| && i >= run.confirmedUpTo && plan.children[i].prefix == p;
    assert i in run.segments && i >= run.confirmedUpTo;
  }

  /** The deleting confirm leaves the source no record of a child that moves away. */
  lemma DeletingConfirmLeaves(nodes: seq<Storager>, plan: PrefixSplitPlan, moved: bool, run: Run, r: Record)
    requires RunOk(nodes, plan, moved, run) && run.prepared == 16 && run.imported == run.segments.Keys
    requires run.confirmedUpTo < 16 && run.confirmedUpTo in run.segments
    requires Deletes(nodes[plan.source.node], plan.children[run.confirmedUpTo].prefix)
    requires run.parent <= r.keyword.Key()
    ensures
      var confirmed := nodes[plan.source.node].Confirm(plan.children[run.confirmedUpTo].prefix);
      confirmed.Ok? && (r in confirmed.value.records ==> !plan.IsForeign(DigitAt(r.keyword.Key(), |run.parent|)))
  {
    DeletingConfirmKeepsRun(nodes, plan, moved, run);
    UnderItsChild(plan, run.parent, |nodes|, r);
  }

  lemma UnderItsChild(plan: PrefixSplitPlan, parent: string, nodeCount: nat, r: Record)
    requires PlanOk(plan, parent, nodeCount) && parent <= r.keyword.Key()
    ensures Under(r, plan.children[DigitAt(r.keyword.Key(), |parent|)].prefix)
  {
    var d := DigitAt(r.keyword.Key(), |parent|);
    assert plan.children[d].prefix == parent + [HexDigit(d)];
  }

  lemma DeletedAtSource(c: Cluster, c': Cluster, r: Record)
    requires RunInv(c) && ConfirmStep(c, c') && c.run.value.parent <= r.keyword.Key()
    requires !c.migrations[c.run.value.parent].moved && c'.migrations[c.run.value.parent].moved
    requires r in c'.nodes[c.migrations[c.run.value.parent].plan.source.node].records
    ensures
      var m := c.migrations[c.run.value.parent];
      !m.plan.IsForeign(DigitAt(r.keyword.Key(), |c.run.value.parent|))
  {
    var run, m := c.run.value, c.migrations[c.run.value.parent];
    DeletingConfirmLeaves(c.nodes, m.plan, m.moved, run, r);
  }

  /** After the deleting confirm every record under the parent is where the ring routes it. */
  lemma DeletedIsPlaced(c: Cluster, c': Cluster, n: nat, r: Record)
    requires Inv(c) && AllPlaced(c) && ConfirmStep(c, c')
    requires !c.migrations[c.run.value.parent].moved && c'.migrations[c.run.value.parent].moved
    requires n < |c'.nodes| && r in c'.nodes[n].records && r in c.nodes[n].records
    requires c.run.value.parent <= r.keyword.Key()
    ensures n == c.ring.OwnerOf(r.keyword.Key())
  {
    var run, m := c.run.value, c.migrations[c.run.value.parent];
    assert Placed(c, n, r.keyword);
    CoversIsUnder(m, run.parent, |c.nodes|, r.keyword);
    ActiveParentIs(c.ring, |c.nodes|, c.migrations, run.parent, r.keyword);
    ActiveRoute(c.ring, |c.nodes|, c.migrations, run.parent, r.keyword);
    if n == m.plan.source.node {
      DeletedAtSource(c, c', r);
    }
  }

  lemma ConfirmKeepsPlaced(c: Cluster, c': Cluster, n: nat, r: Record)
    requires Inv(c) && AllPlaced(c) && ConfirmStep(c, c') && OnlyRunChanges(c, c')
    requires SamePlans(c.migrations, c'.migrations)
    requires n < |c'.nodes| && r in c'.nodes[n].records && r in c.nodes[n].records
    ensures Placed(c', n, r.keyword)
  {
    var parent := c.run.value.parent;
    if parent <= r.keyword.Key() && c'.migrations[parent].moved && !c.migrations[parent].moved {
      DeletedIsPlaced(c, c', n, r);
      HomeAfterHandOver(c, c', r.keyword);
    } else {
      HomeWithoutHandOver(c, c', r.keyword);
      assert Placed(c, n, r.keyword);
      assert c'.run.value.imported == c.run.value.imported;
    }
  }

  lemma HomeAfterHandOver(c: Cluster, c': Cluster, k: Keyword)
    requires Inv(c) && OnlyRunChanges(c, c') && SamePlans(c.migrations, c'.migrations)
    requires c.run.value.parent <= k.Key() && c'.migrations[c.run.value.parent].moved
    ensures Home(c'.ring, c'.migrations, k) == c.ring.OwnerOf(k.Key())
  {
    SamePlansSameActiveParent(c, c'.migrations, k);
    CoversIsUnder(c.migrations[c.run.value.parent], c.run.value.parent, |c.nodes|, k);
    ActiveParentIs(c.ring, |c.nodes|, c.migrations, c.run.value.parent, k);
  }

  lemma HomeWithoutHandOver(c: Cluster, c': Cluster, k: Keyword)
    requires Inv(c) && OnlyRunChanges(c, c') && SamePlans(c.migrations, c'.migrations)
    requires c.run.value.parent <= k.Key() && c'.migrations[c.run.value.parent].moved ==> c.migrations[c.run.value.parent].moved
    requires c.migrations[c.run.value.parent].moved ==> c'.migrations[c.run.value.parent].moved
    ensures Home(c'.ring, c'.migrations, k) == Home(c.ring, c.migrations, k)
  {
    SamePlansSameActiveParent(c, c'.migrations, k);
    CoversIsUnder(c.migrations[c.run.value.parent], c.run.value.parent, |c.nodes|, k);
  }

  lemma ConfirmOnlyRemoves(c: Cluster, c': Cluster, n: nat, r: Record)
    requires ConfirmStep(c, c') && n < |c'.nodes| && r in c'.nodes[n].records
    ensures n < |c.nodes| && r in c.nodes[n].records
  {}

  lemma ConfirmKeepsClean(c: Cluster, c': Cluster, k: Keyword)
    requires CleanInv(c) && ConfirmStep(c, c')
    ensures CleanInv(c')
  {
    if c.run.value.confirmedUpTo !in c.run.value.segments {
      SkipKeepsClean(c, c', k);
    } else {
      ConfirmKeepsRun(c, c');
      RunChangeKeepsInv(c, c');
      ConfirmSource(c, c');
      ConfirmedKeepsRetained(c, c');
      ConfirmedLeavesSomething(c, c');
      forall n: nat, r | n < |c'.nodes| && r in c'.nodes[n].records ensures Placed(c', n, r.keyword) {
        ConfirmOnlyRemoves(c, c', n, r);
        ConfirmKeepsPlaced(c, c', n, r);
      }
    }
  }

  // ----- finish

  /** Once all is confirmed, a covered keyword's source has deleted or is the owner itself. */
  lemma MovedOrAtHome(c: Cluster, k: Keyword)
    requires Inv(c) && c.run.Some? && SomethingLeft(c) && c.run.value.confirmedUpTo == 16
    requires c.run.value.parent <= k.Key() && !c.migrations[c.run.value.parent].moved
    ensures c.migrations[c.run.value.parent].plan.source.node == c.ring.OwnerOf(k.Key())
  {
    var parent, m := c.run.value.parent, c.migrations[c.run.value.parent];
    CoversIsUnder(m, parent, |c.nodes|, k);
    ActiveRoute(c.ring, |c.nodes|, c.migrations, parent, k);
    assert c.run.value.segments == map[];
    assert !m.plan.IsForeign(DigitAt(k.Key(), |parent|));
  }

  lemma SettledIsPlaced(c: Cluster, n: nat, k: Keyword)
    requires Inv(c) && c.run.Some? && SomethingLeft(c) && Inv(Settled(c)) && c.run.value.confirmedUpTo == 16
    requires Placed(c, n, k)
    ensures Placed(Settled(c), n, k)
  {
    var parent := c.run.value.parent;
    SettledActive(c, k);
    CoversIsUnder(c.migrations[parent], parent, |c.nodes|, k);
    if parent <= k.Key() {
      ActiveParentIs(c.ring, |c.nodes|, c.migrations, parent, k);
      if !c.migrations[parent].moved {
        MovedOrAtHome(c, k);
      }
    }
  }

  lemma SettledKeepsClean(c: Cluster)
    requires CleanInv(c) && c.run.Some? && c.run.value.confirmedUpTo == 16
    ensures CleanInv(Settled(c))
  {
    var s := Settled(c);
    SettledKeepsInv(c);
    forall n: nat, r | n < |s.nodes| && r in s.nodes[n].records ensures Placed(s, n, r.keyword) {
      SettledIsPlaced(c, n, r.keyword);
    }
    assert Awaiting(c.migrations[c.run.value.parent].plan, c.run.value) == {};
    forall n: nat | n < |s.nodes| ensures s.nodes[n].retained == RetainedBy(s, n) {
      assert c.nodes[n].retained == RetainedBy(c, n);
    }
  }

  lemma {:induction false} ReplayKeepsClean(c: Cluster, ops: seq<Operation>, summary: seq<Byte>, c': Cluster)
    requires CleanInv(c) && Replay(c, ops, summary) == Some(c') && AllIdle(c.migrations, ops)
    ensures CleanInv(c')
    decreases |ops|
  {
    if ops != [] {
      AllIdleTail(c.migrations, ops);
      ReplayUnfolds(c, ops, summary);
      var stored := ReplayStep(c, ops, summary, ops[0].keyword);
      var next := Store(c, ops[0], RouteKeyword(c, ops[0].keyword).value, summary).0;
      ClientKeepsClean(c, ops[0], summary, next);
      ReplayOne(c, ops[0], summary, ops[0].keyword);
      ReplayKeepsClean(next, ops[1..], summary, c');
    }
  }

  lemma FinishKeepsClean(c: Cluster, summary: seq<Byte>, c': Cluster)
    requires CleanInv(c) && FinishStep(c, summary, c')
    ensures CleanInv(c')
  {
    SettledKeepsClean(c);
    FinishIsReplay(c, summary, c');
    PendingIsIdleAfterwards(c);
    ReplayKeepsClean(Settled(c), c.migrations[c.run.value.parent].pending, summary, c');
  }

  // ----- presplit

  lemma PresplitKeepsOwner(c: Cluster, leaf: nat, k: Keyword)
    requires Inv(c) && c.ring.CanSplit(leaf) && SafeToPresplit(c, c.ring.entries[leaf].prefix)
    requires c.run.Some? && c.run.value.parent <= k.Key()
    ensures c.ring.SplitAt(leaf).Forest() && c.ring.SplitAt(leaf).OwnerOf(k.Key()) == c.ring.OwnerOf(k.Key())
  {
    var parent := c.run.value.parent;
    assert ActiveIn(c.migrations, parent, k) by {
      CoversIsUnder(c.migrations[parent], parent, |c.nodes|, k);
    }
    c.ring.SplitKeepsForest(leaf);
    c.ring.SplitIsLocal(leaf, k.Key());
    assert c.ring.entries[leaf].prefix <= k.Key() ==> Idle(c.migrations, k);
  }

  lemma PresplitKeepsPlaced(c: Cluster, leaf: nat, n: nat, r: Record)
    requires Inv(c) && c.ring.CanSplit(leaf) && SafeToPresplit(c, c.ring.entries[leaf].prefix)
    requires n < |c.nodes| && r in c.nodes[n].records && Placed(c, n, r.keyword)
    ensures c.ring.SplitAt(leaf).Forest() && Placed(Presplitted(c, leaf), n, r.keyword)
  {
    assert !StoredNowhere(c, r.keyword) by {
      assert r.fid in Fids(c.nodes[n], r.keyword);
    }
    PresplitKeepsHome(c, leaf, r.keyword);
    if c.run.Some? && c.run.value.parent <= r.keyword.Key() {
      PresplitKeepsOwner(c, leaf, r.keyword);
    }
  }

  lemma PresplitKeepsClean(c: Cluster, prefix: string, incoming: nat, c': Cluster, k: Keyword)
    requires CleanInv(c) && PresplitStep(c, prefix, incoming, c')
    ensures CleanInv(c')
  {
    PresplitKeeps(c, prefix, incoming, c', k);
    var leaf := PresplitSplitsLeaf(c, prefix, incoming, c');
    if c' != c {
      forall n: nat, r | n < |c'.nodes| && r in c'.nodes[n].records ensures Placed(c', n, r.keyword) {
        assert Placed(c, n, r.keyword);
        PresplitKeepsPlaced(c, leaf, n, r);
      }
      forall n: nat | n < |c'.nodes| ensures c'.nodes[n].retained == RetainedBy(c', n) {
        assert c.nodes[n].retained == RetainedBy(c, n);
      }
    }
  }

  // ----- the placement theorem

  lemma NextKeepsClean(c: Cluster, step: Step, c': Cluster, k: Keyword)
    requires CleanInv(c) && Next(c, step, c') && !step.AbortMigration?
    ensures CleanInv(c')
  {
    match step
    case Client(op, summary) => ClientKeepsClean(c, op, summary, c');
    case UpdateSummary(prefix, summary) =>
      c.ring.UpdateSummaryKeepsShape(prefix, summary);
      SameShapeKeepsClean(c, c'.ring);
    case StartMigration(parent) => StartKeepsClean(c, parent, c', k);
    case PrepareChild => PrepareKeepsClean(c, c', k);
    case ImportChild(i) => ImportKeepsClean(c, i, c', k);
    case ConfirmChild => ConfirmKeepsClean(c, c', k);
    case FinishMigration(summary) => FinishKeepsClean(c, summary, c');
    case PresplitPrefix(prefix, incoming) => PresplitKeepsClean(c, prefix, incoming, c', k);
  }

  lemma InitIsClean(c: Cluster, k: Keyword)
    requires Init(c)
    ensures CleanInv(c)
  {
    InitIsInv(c, k);
  }

  lemma {:induction false} RunKeepsClean(trace: seq<Cluster>, steps: seq<Step>, n: nat, k: Keyword)
    requires IsRun(trace, steps) && n <= |steps|
    requires forall i :: 0 <= i < n ==> !steps[i].AbortMigration?
    ensures CleanInv(trace[n])
  {
    if n == 0 {
      InitIsClean(trace[0], k);
    } else {
      RunKeepsClean(trace, steps, n - 1, k);
      NextKeepsClean(trace[n - 1], steps[n - 1], trace[n], k);
    }
  }

  /** When no migration has aborted and none is running, every record lies on exactly one storager: the
      one a query for its keyword is routed to. */
  lemma EveryRecordInOnePlace(trace: seq<Cluster>, steps: seq<Step>, n: nat, node: nat, r: Record)
    requires IsRun(trace, steps) && n <= |steps|
    requires forall i :: 0 <= i < n ==> !steps[i].AbortMigration?
    requires trace[n].run.None?
    requires node < |trace[n].nodes| && r in trace[n].nodes[node].records
    ensures trace[n].ring.Valid()
    ensures QueryRouteKeyword(trace[n], r.keyword).Some? && QueryRouteKeyword(trace[n], r.keyword).value.node == node
  {
    var c, k := trace[n], r.keyword;
    RunKeepsClean(trace, steps, n, k);
    assert Placed(c, node, k);
    if Idle(c.migrations, k) {
      RouteOfIdle(c, k);
    } else {
      var p := ActiveParent(c.migrations, k).value;
      assert p in c.queued;
    }
  }
}
