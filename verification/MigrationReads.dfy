/** Which reads follow a migration. Single-keyword queries ask `query_route_keyword`; boolean queries ask
    `route_keyword`, which knows nothing of migrations. This module says exactly when the two agree, and
    exactly when a boolean query finds the records. */
module MigrationReads {
  import opened Wrappers
  import opened Hex
  import opened Ring
  import opened Routing
  import opened AccTree
  import opened Migration
  import opened MigrationInvariant
  import opened MigrationClient
  import opened MigrationServer
  import opened MigrationTheorems
  import opened MigrationPlacement

  /** An override under a pending migration still names the source. */
  ghost predicate SourceOverrides(ms: Migrations, overrides: map<Keyword, RouteTarget>) {
    forall k, p :: k in overrides && ActiveIn(ms, p, k) ==> overrides[k] == ms[p].plan.source
  }

  lemma SamePlansKeepSource(ms: Migrations, ms': Migrations, overrides: map<Keyword, RouteTarget>)
    requires SamePlans(ms, ms') && SourceOverrides(ms, overrides)
    ensures SourceOverrides(ms', overrides)
  {
    forall k, p | k in overrides && ActiveIn(ms', p, k) ensures overrides[k] == ms'[p].plan.source {
      SamePlansSameActive(ms, ms', p, k);
    }
  }

  lemma PutKeepsSource(c: Cluster, op: Operation, route: RouteTarget)
    requires SourceOverrides(c.migrations, c.overrides) && Idle(c.migrations, op.keyword) && route.node < |c.nodes|
    ensures SourceOverrides(PutRecord(c, op, route).migrations, PutRecord(c, op, route).overrides)
  {}

  /** A split turns overrides of idle keywords, which name the leaf, into overrides that name the source. */
  lemma ScheduleKeepsSource(c: Cluster, leaf: nat, keyword: Keyword)
    requires Inv(c) && c.ring.CanSplit(leaf) && SourceOverrides(c.migrations, c.overrides)
    requires c.ring.LeafOf(keyword.Key()) == leaf && Idle(c.migrations, keyword)
    ensures SourceOverrides(SplitAndSchedule(c, leaf).migrations, SplitAndSchedule(c, leaf).overrides)
  {
    var parent, ms' := c.ring.entries[leaf].prefix, Scheduled(c, leaf);
    SplitPrefixIsNew(c, leaf);
    forall k, p | k in c.overrides && ActiveIn(ms', p, k) ensures c.overrides[k] == ms'[p].plan.source {
      ScheduledActive(c, leaf, keyword, k);
      if p == parent {
        LeafNamesSource(c.ring, leaf, k);
      } else {
        assert ActiveIn(c.migrations, p, k);
      }
    }
  }

  lemma LeafNamesSource(ring: RingState, leaf: nat, k: Keyword)
    requires ring.Forest() && ring.CanSplit(leaf) && ring.entries[leaf].prefix <= k.Key()
    ensures RingLookup(ring, k) == Some(PlanFor(ring, leaf).source)
  {
    ring.RouteIsUnique(k.Key(), leaf);
    PlanShape(ring, leaf, 0);
  }

  lemma ClientKeepsSource(c: Cluster, op: Operation, summary: seq<Byte>, c': Cluster)
    requires Inv(c) && SourceOverrides(c.migrations, c.overrides) && ClientStep(c, op, summary, c')
    ensures SourceOverrides(c'.migrations, c'.overrides)
  {
    if !Idle(c.migrations, op.keyword) {
      var p :| ActiveIn(c.migrations, p, op.keyword) && c' == Buffer(c, p, op);
      BufferKeepsInv(c, p, op);
      SamePlansKeepSource(c.migrations, c'.migrations, c.overrides);
    } else {
      RouteOfIdle(c, op.keyword);
      var route := RingLookup(c.ring, op.keyword).value;
      var (stored, event) := Store(c, op, route, summary);
      StoreParts(c, op, route, summary);
      PutKeepsSource(c, op, route);
      if event.Some? {
        var leaf := c.ring.LeafOf(op.keyword.Key());
        var before :| IsSplitOf(c.ring, before, leaf, stored.ring, event.value);
        PutRecordKeepsInv(c, op, route);
        SameShapeKeepsInv(PutRecord(c, op, route), before);
        c.ring.SameShapeKeepsRoutes(before, op.keyword.Key());
        var counted := PutRecord(c, op, route).(ring := before);
        assert stored == counted.(ring := before.SplitAt(leaf));
        ScheduleKeepsSource(counted, leaf, op.keyword);
      }
    }
  }

  lemma SettledKeepsSource(c: Cluster)
    requires Inv(c) && c.run.Some? && SourceOverrides(c.migrations, c.overrides)
    ensures SourceOverrides(Settled(c).migrations, Settled(c).overrides)
  {
    var s := Settled(c);
    forall k, p | k in s.overrides && ActiveIn(s.migrations, p, k) ensures s.overrides[k] == s.migrations[p].plan.source {
      assert ActiveIn(c.migrations, p, k);
    }
  }

  lemma {:induction false} ReplayKeepsSource(c: Cluster, ops: seq<Operation>, summary: seq<Byte>, c': Cluster)
    requires Inv(c) && SourceOverrides(c.migrations, c.overrides)
    requires Replay(c, ops, summary) == Some(c') && AllIdle(c.migrations, ops)
    ensures SourceOverrides(c'.migrations, c'.overrides)
    decreases |ops|
  {
    if ops != [] {
      AllIdleTail(c.migrations, ops);
      ReplayUnfolds(c, ops, summary);
      ReplayOne(c, ops[0], summary, ops[0].keyword);
      var next := Store(c, ops[0], RouteKeyword(c, ops[0].keyword).value, summary).0;
      ClientKeepsSource(c, ops[0], summary, next);
      ReplayKeepsSource(next, ops[1..], summary, c');
    }
  }

  lemma FinishKeepsSource(c: Cluster, summary: seq<Byte>, c': Cluster)
    requires Inv(c) && SourceOverrides(c.migrations, c.overrides) && FinishStep(c, summary, c')
    ensures SourceOverrides(c'.migrations, c'.overrides)
  {
    SettledKeepsInv(c);
    SettledKeepsSource(c);
    FinishIsReplay(c, summary, c');
    PendingIsIdleAfterwards(c);
    ReplayKeepsSource(Settled(c), c.migrations[c.run.value.parent].pending, summary, c');
  }

  lemma ConfirmKeepsSource(c: Cluster, c': Cluster)
    requires Inv(c) && SourceOverrides(c.migrations, c.overrides) && ConfirmStep(c, c')
    ensures SourceOverrides(c'.migrations, c'.overrides)
  {
    ConfirmKeepsRun(c, c');
    RunChangeKeepsInv(c, c');
    SamePlansKeepSource(c.migrations, c'.migrations, c.overrides);
  }

  lemma NextKeepsSource(c: Cluster, step: Step, c': Cluster)
    requires Inv(c) && SourceOverrides(c.migrations, c.overrides) && Next(c, step, c')
    ensures SourceOverrides(c'.migrations, c'.overrides)
  {
    match step
    case Client(op, summary) => ClientKeepsSource(c, op, summary, c');
    case FinishMigration(summary) => FinishKeepsSource(c, summary, c');
    case ConfirmChild => ConfirmKeepsSource(c, c');
    case _ =>
  }

  lemma {:induction false} RunKeepsSource(trace: seq<Cluster>, steps: seq<Step>, n: nat, k: Keyword)
    requires IsRun(trace, steps) && n <= |steps|
    ensures Inv(trace[n]) && SourceOverrides(trace[n].migrations, trace[n].overrides)
  {
    ContentsFollowAccepted(trace, steps, n, k);
    if n > 0 {
      RunKeepsSource(trace, steps, n - 1, k);
      NextKeepsSource(trace[n - 1], steps[n - 1], trace[n]);
    }
  }

  /** Where the two routes lead while a migration covers the keyword. */
  lemma ActiveRoutes(c: Cluster, p: string, k: Keyword)
    requires Inv(c) && SourceOverrides(c.migrations, c.overrides) && ActiveIn(c.migrations, p, k)
    ensures RouteKeyword(c, k).Some? && QueryRouteKeyword(c, k).Some?
    ensures
      var plan, d := c.migrations[p].plan, DigitAt(k.Key(), |p|);
      && QueryRouteKeyword(c, k).value.node == plan.source.node
      && RouteKeyword(c, k).value.node == (if k in c.overrides then plan.source.node else c.ring.OwnerOf(k.Key()))
      && (plan.IsForeign(d) <==> c.ring.OwnerOf(k.Key()) != plan.source.node)
  {
    ActiveParentIs(c.ring, |c.nodes|, c.migrations, p, k);
    ActiveRoute(c.ring, |c.nodes|, c.migrations, p, k);
  }

  /** In every reachable state a boolean query reads the keyword where a single-keyword query does if and
      only if no pending migration covers it, or its override is still there, or its child stays on the
      source. */
  lemma BooleanQueriesAgreeIff(trace: seq<Cluster>, steps: seq<Step>, n: nat, k: Keyword)
    requires IsRun(trace, steps) && n <= |steps|
    ensures trace[n].ring.Valid()
    ensures
      var c := trace[n];
      && RouteKeyword(c, k).Some? && QueryRouteKeyword(c, k).Some?
      && (RouteKeyword(c, k).value.node == QueryRouteKeyword(c, k).value.node
          <==> match ActiveParent(c.migrations, k)
               case None => true
               case Some(p) => k in c.overrides || !c.migrations[p].plan.IsForeign(DigitAt(k.Key(), |p|)))
  {
    RunKeepsSource(trace, steps, n, k);
    var c := trace[n];
    if Idle(c.migrations, k) {
      RouteOfIdle(c, k);
    } else {
      ActiveRoutes(c, ActiveParent(c.migrations, k).value, k);
    }
  }

  // ----- what a boolean query finds

  /** What the storagers hold of a keyword, at its home. */
  ghost function Stored(c: Cluster, k: Keyword): set<string>
    requires MigrationsOk(c.ring, |c.nodes|, c.migrations)
  {
    HomeInRange(c.ring, |c.nodes|, c.migrations, k);
    Fids(c.nodes[Home(c.ring, c.migrations, k)], k)
  }

  ghost predicate BooleanReadFinds(c: Cluster, k: Keyword)
    requires MigrationsOk(c.ring, |c.nodes|, c.migrations)
  {
    var route := RouteKeyword(c, k);
    route.Some? && route.value.node < |c.nodes| && Fids(c.nodes[route.value.node], k) == Stored(c, k)
  }

  /** The running migration has imported the child. */
  ghost predicate IsImported(c: Cluster, p: string, d: nat) {
    c.run.Some? && c.run.value.parent == p && d in c.run.value.imported
  }

  /** Once the source has deleted, all children that move have been imported. */
  lemma MovedIsImported(c: Cluster, p: string, d: Nibble)
    requires CleanInv(c) && p in c.migrations && !c.migrations[p].confirmed && c.migrations[p].moved
    requires |c.migrations[p].plan.children| == 16 && c.migrations[p].plan.IsForeign(d)
    ensures IsImported(c, p, d)
  {
    assert p !in c.queued;
    assert ProgressOk(c.migrations[p].plan, true, c.run.value);
  }

  /** An imported child is on its target as it is at its home. */
  lemma ImportedIsStored(c: Cluster, p: string, k: Keyword)
    requires Inv(c) && ActiveIn(c.migrations, p, k) && |c.migrations[p].plan.children| == 16
    requires IsImported(c, p, DigitAt(k.Key(), |p|))
    ensures c.ring.OwnerOf(k.Key()) < |c.nodes| && Fids(c.nodes[c.ring.OwnerOf(k.Key())], k) == Stored(c, k)
  {
    var m, d := c.migrations[p], DigitAt(k.Key(), |p|);
    ActiveRoute(c.ring, |c.nodes|, c.migrations, p, k);
    ActiveParentIs(c.ring, |c.nodes|, c.migrations, p, k);
    if !m.moved {
      assert SegmentOk(c.nodes, m.plan, m.moved, c.run.value.segments[d], d, true);
      FidsFromPrefix(c.nodes[m.plan.source.node], c.nodes[m.plan.children[d].node], m.plan.children[d].prefix, k);
    }
  }

  /** Without an abort, a target holds nothing of a child before it is imported. */
  lemma NotYetImported(c: Cluster, p: string, k: Keyword)
    requires CleanInv(c) && ActiveIn(c.migrations, p, k) && |c.migrations[p].plan.children| == 16
    requires c.migrations[p].plan.IsForeign(DigitAt(k.Key(), |p|)) && !IsImported(c, p, DigitAt(k.Key(), |p|))
    ensures c.ring.OwnerOf(k.Key()) < |c.nodes| && Fids(c.nodes[c.ring.OwnerOf(k.Key())], k) == {}
  {
    var d, owner := DigitAt(k.Key(), |p|), c.ring.OwnerOf(k.Key());
    ActiveRoute(c.ring, |c.nodes|, c.migrations, p, k);
    ActiveParentIs(c.ring, |c.nodes|, c.migrations, p, k);
    if c.migrations[p].moved {
      MovedIsImported(c, p, d);
    }
    forall r | r in c.nodes[owner].records ensures r.keyword != k {
      assert Placed(c, owner, r.keyword);
      if r.keyword == k && c.run.Some? && c.run.value.parent <= k.Key() {
        RunningIsActive(c, k);
        ActiveIsUnique(c.ring, |c.nodes|, c.migrations, p, c.run.value.parent, k);
      }
    }
  }

  lemma RunningIsActive(c: Cluster, k: Keyword)
    requires Inv(c) && c.run.Some? && c.run.value.parent <= k.Key()
    ensures ActiveIn(c.migrations, c.run.value.parent, k)
  {
    CoversIsUnder(c.migrations[c.run.value.parent], c.run.value.parent, |c.nodes|, k);
  }

  /** Once it has deleted, the source holds nothing of a child that moved. */
  lemma NothingAtSource(c: Cluster, p: string, k: Keyword)
    requires CleanInv(c) && ActiveIn(c.migrations, p, k) && c.migrations[p].moved && |c.migrations[p].plan.children| == 16
    requires c.migrations[p].plan.IsForeign(DigitAt(k.Key(), |p|))
    ensures c.migrations[p].plan.source.node < |c.nodes| && Fids(c.nodes[c.migrations[p].plan.source.node], k) == {}
  {
    var source := c.migrations[p].plan.source.node;
    ActiveRoute(c.ring, |c.nodes|, c.migrations, p, k);
    ActiveParentIs(c.ring, |c.nodes|, c.migrations, p, k);
    forall r | r in c.nodes[source].records ensures r.keyword != k {
      assert Placed(c, source, r.keyword);
    }
  }

  /** When a boolean query of a covered keyword finds its records. */
  ghost predicate FindsUnder(c: Cluster, p: string, k: Keyword)
    requires MigrationsOk(c.ring, |c.nodes|, c.migrations) && p in c.migrations && |c.migrations[p].plan.children| == 16
  {
    var m, d := c.migrations[p], DigitAt(k.Key(), |p|);
    || !m.plan.IsForeign(d)
    || (if k in c.overrides then !m.moved else IsImported(c, p, d))
    || Stored(c, k) == {}
  }

  /** Home of a covered keyword, and the storager of its write route. */
  lemma RoutesUnder(c: Cluster, p: string, k: Keyword)
    requires Inv(c) && SourceOverrides(c.migrations, c.overrides) && ActiveIn(c.migrations, p, k)
    ensures |c.migrations[p].plan.children| == 16 && RouteKeyword(c, k).Some?
    ensures
      var m, owner := c.migrations[p], c.ring.OwnerOf(k.Key());
      && owner < |c.nodes| && m.plan.source.node < |c.nodes|
      && Home(c.ring, c.migrations, k) == (if m.moved then owner else m.plan.source.node)
      && RouteKeyword(c, k).value.node == (if k in c.overrides then m.plan.source.node else owner)
      && (m.plan.IsForeign(DigitAt(k.Key(), |p|)) <==> owner != m.plan.source.node)
  {
    ActiveRoute(c.ring, |c.nodes|, c.migrations, p, k);
    ActiveParentIs(c.ring, |c.nodes|, c.migrations, p, k);
    ActiveRoutes(c, p, k);
  }

  lemma OverriddenRead(c: Cluster, p: string, k: Keyword)
    requires CleanInv(c) && SourceOverrides(c.migrations, c.overrides) && ActiveIn(c.migrations, p, k) && k in c.overrides
    ensures |c.migrations[p].plan.children| == 16 && (BooleanReadFinds(c, k) <==> FindsUnder(c, p, k))
  {
    RoutesUnder(c, p, k);
    if c.migrations[p].plan.IsForeign(DigitAt(k.Key(), |p|)) && c.migrations[p].moved {
      NothingAtSource(c, p, k);
    }
  }

  lemma PlainRead(c: Cluster, p: string, k: Keyword)
    requires CleanInv(c) && SourceOverrides(c.migrations, c.overrides) && ActiveIn(c.migrations, p, k) && k !in c.overrides
    ensures |c.migrations[p].plan.children| == 16 && (BooleanReadFinds(c, k) <==> FindsUnder(c, p, k))
  {
    RoutesUnder(c, p, k);
    if IsImported(c, p, DigitAt(k.Key(), |p|)) {
      ImportedIsStored(c, p, k);
    } else if c.migrations[p].plan.IsForeign(DigitAt(k.Key(), |p|)) {
      NotYetImported(c, p, k);
    }
  }

  /** In every run without aborts a boolean query finds what is stored of a keyword if and only if no pending
      migration covers it, or its child stays on the source, or it has an override and the source has not
      deleted, or it has none and its child has been imported, or nothing of it is stored. */
  lemma BooleanReadFindsIff(trace: seq<Cluster>, steps: seq<Step>, n: nat, k: Keyword)
    requires IsRun(trace, steps) && n <= |steps| && forall i :: 0 <= i < n ==> !steps[i].AbortMigration?
    ensures MigrationsOk(trace[n].ring, |trace[n].nodes|, trace[n].migrations)
    ensures Holds(trace[n], Home(trace[n].ring, trace[n].migrations, k), k, Accepted(steps[..n]))
    ensures
      var c, p := trace[n], ActiveParent(trace[n].migrations, k);
      && (p.Some? ==> |c.migrations[p.value].plan.children| == 16)
      && (BooleanReadFinds(c, k) <==> p.None? || FindsUnder(c, p.value, k))
  {
    RunKeepsSource(trace, steps, n, k);
    RunKeepsClean(trace, steps, n, k);
    ContentsFollowAccepted(trace, steps, n, k);
    var c, p := trace[n], ActiveParent(trace[n].migrations, k);
    HomeInRange(c.ring, |c.nodes|, c.migrations, k);
    if p.Some? {
      if k in c.overrides {
        OverriddenRead(c, p.value, k);
      } else {
        PlainRead(c, p.value, k);
      }
    } else {
      RouteOfIdle(c, k);
    }
  }

  /** With aborts allowed: a boolean query still finds what is stored when no pending migration covers the keyword, or its
      child stays on the source, or it has an override and the source has not deleted, or it has none and its child has
      been imported by the running migration. In the other cases only a copy left by an aborted migration could be found. */
  lemma BooleanReadFindsDespiteAborts(trace: seq<Cluster>, steps: seq<Step>, n: nat, k: Keyword)
    requires IsRun(trace, steps) && n <= |steps|
    ensures MigrationsOk(trace[n].ring, |trace[n].nodes|, trace[n].migrations)
    ensures
      var c, p := trace[n], ActiveParent(trace[n].migrations, k);
      && (p.Some? ==> |c.migrations[p.value].plan.children| == 16)
      && (p.None? || RightlyRouted(c, p.value, k) ==> BooleanReadFinds(c, k))
  {
    RunKeepsSource(trace, steps, n, k);
    var c, p := trace[n], ActiveParent(trace[n].migrations, k);
    HomeInRange(c.ring, |c.nodes|, c.migrations, k);
    if p.Some? {
      RoutesUnder(c, p.value, k);
      if k !in c.overrides && IsImported(c, p.value, DigitAt(k.Key(), |p.value|)) {
        ImportedIsStored(c, p.value, k);
      }
    } else {
      RouteOfIdle(c, k);
    }
  }

  ghost predicate RightlyRouted(c: Cluster, p: string, k: Keyword)
    requires p in c.migrations && |c.migrations[p].plan.children| == 16
  {
    var m, d := c.migrations[p], DigitAt(k.Key(), |p|);
    !m.plan.IsForeign(d) || (if k in c.overrides then !m.moved else IsImported(c, p, d))
  }
}
