/** Where else a keyword's records lie in the unguarded machine: nowhere, as long as no migration is aborted and no step
    harms the keyword. */
module UnguardedPlacement {
  import opened Wrappers
  import opened Hex
  import opened Ring
  import opened Routing
  import opened AccTree
  import opened Presplit
  import opened Migration
  import opened MigrationInvariant
  import opened MigrationClient
  import opened MigrationServer
  import opened MigrationTheorems
  import opened MigrationPlacement
  import opened MigrationAborts
  import opened Unguarded
  import opened ReplayReads
  import opened UnguardedReads
  import opened UnguardedKeywords

  // ----- what storagers retain

  ghost predicate NodesClean(c: Cluster) {
    RetainedOk(c) && SomethingLeft(c)
  }

  ghost predicate SameRetained(c: Cluster, c': Cluster) {
    |c'.nodes| == |c.nodes| && forall n: nat :: n < |c.nodes| ==> c'.nodes[n].retained == c.nodes[n].retained
  }

  /** A step that leaves the run, its plan and what is retained alone. */
  lemma RetainedStays(c: Cluster, c': Cluster)
    requires NodesClean(c) && SameRetained(c, c') && c'.run == c.run
    requires c.run.Some? ==>
      && c.run.value.parent in c.migrations && c.run.value.parent in c'.migrations
      && c'.migrations[c.run.value.parent].plan == c.migrations[c.run.value.parent].plan
      && c'.migrations[c.run.value.parent].moved == c.migrations[c.run.value.parent].moved
    ensures NodesClean(c')
  {
    forall n: nat | n < |c'.nodes| ensures c'.nodes[n].retained == RetainedBy(c', n) {
      assert c.nodes[n].retained == RetainedBy(c, n);
    }
  }

  lemma PrepareRetained(c: Cluster, c': Cluster)
    requires Sane(c) && NodesClean(c) && PrepareStep(c, c')
    ensures NodesClean(c')
  {
    var run, m := c.run.value, c.migrations[c.run.value.parent];
    assert c.nodes[m.plan.source.node].retained == RetainedBy(c, m.plan.source.node);
    PrepareRetains(c.nodes, m.plan, m.moved, run);
    forall n: nat | n < |c'.nodes| ensures c'.nodes[n].retained == RetainedBy(c', n) {
      assert c.nodes[n].retained == RetainedBy(c, n);
    }
    PrepareLeavesSomething(m.plan, m.moved, run, c'.run.value);
  }

  /** Nothing to confirm: only the count of confirmed children moves on. */
  ghost predicate Skips(c: Cluster, c': Cluster) {
    && c.run.Some? && c.run.value.confirmedUpTo !in c.run.value.segments
    && c' == c.(run := Some(c.run.value.(confirmedUpTo := c.run.value.confirmedUpTo + 1)))
  }

  lemma SkipRetained(c: Cluster, c': Cluster)
    requires RunInv(c) && RetainedOk(c) && Skips(c, c')
    ensures RetainedOk(c')
  {
    SkipRetains(c.migrations[c.run.value.parent].plan, c.run.value);
    forall n: nat | n < |c'.nodes| ensures c'.nodes[n].retained == RetainedBy(c', n) {
      assert c.nodes[n].retained == RetainedBy(c, n);
    }
  }

  lemma SkipLeaves(c: Cluster, c': Cluster)
    requires RunInv(c) && SomethingLeft(c) && Skips(c, c')
    ensures SomethingLeft(c')
  {
    var run := c.run.value;
    if !c.migrations[run.parent].moved && run.segments != map[] {
      var i :| i in run.segments && i >= run.confirmedUpTo;
      assert i in c'.run.value.segments && i >= c'.run.value.confirmedUpTo;
    }
  }

  lemma ConfirmRetained(c: Cluster, c': Cluster)
    requires Sane(c) && NodesClean(c) && ConfirmStep(c, c')
    ensures NodesClean(c')
  {
    if c.run.value.confirmedUpTo in c.run.value.segments {
      ConfirmKeepsRun(c, c');
      ConfirmSource(c, c');
      ConfirmedKeepsRetained(c, c');
      ConfirmedLeavesSomething(c, c');
    } else {
      SkipRetained(c, c');
      SkipLeaves(c, c');
    }
  }

  lemma ImportRetained(c: Cluster, i: nat, c': Cluster)
    requires Sane(c) && NodesClean(c) && ImportStep(c, i, c')
    ensures NodesClean(c')
  {
    ImportKeepsRetained(c, i, c');
  }

  /** Every migration goes on as it is, but for what is buffered. */
  ghost predicate MigrationsGoOn(c: Cluster, c': Cluster) {
    forall p :: p in c.migrations ==>
      && p in c'.migrations && c'.migrations[p].plan == c.migrations[p].plan && c'.migrations[p].moved == c.migrations[p].moved
  }

  lemma ScheduleGoesOn(c: Cluster, leaf: nat)
    requires Sane(c) && c.ring.CanSplit(leaf)
    ensures MigrationsGoOn(c, SplitAndSchedule(c, leaf)) && SplitAndSchedule(c, leaf).nodes == c.nodes
    ensures SplitAndSchedule(c, leaf).run == c.run
  {
    NewParentIsNew(c, leaf);
  }

  lemma CountedGoesOn(c: Cluster, op: Operation, route: RouteTarget, ring: RingState)
    requires route.node < |c.nodes|
    ensures
      var c' := Counted(c, op, route, ring);
      SameRetained(c, c') && c'.run == c.run && MigrationsGoOn(c, c')
  {}

  lemma GoesOnTwice(a: Cluster, b: Cluster, c: Cluster)
    requires SameRetained(a, b) && MigrationsGoOn(a, b) && MigrationsGoOn(b, c) && c.nodes == b.nodes
    ensures SameRetained(a, c) && MigrationsGoOn(a, c)
  {}

  lemma ClientRetained(c: Cluster, op: Operation, summary: seq<Byte>, c': Cluster)
    requires Sane(c) && ClientStep(c, op, summary, c')
    ensures SameRetained(c, c') && c'.run == c.run && MigrationsGoOn(c, c')
  {
    if Idle(c.migrations, op.keyword) {
      StoredRetained(c, op, summary, c');
    } else {
      var q :| ActiveIn(c.migrations, q, op.keyword) && c' == Buffer(c, q, op);
      BufferGoesOn(c, q, op);
    }
  }

  lemma BufferGoesOn(c: Cluster, q: string, op: Operation)
    requires q in c.migrations
    ensures SameRetained(c, Buffer(c, q, op)) && Buffer(c, q, op).run == c.run && MigrationsGoOn(c, Buffer(c, q, op))
  {}

  lemma StoredRetained(c: Cluster, op: Operation, summary: seq<Byte>, c': Cluster)
    requires Sane(c) && ClientStep(c, op, summary, c') && Idle(c.migrations, op.keyword)
    ensures SameRetained(c, c') && c'.run == c.run && MigrationsGoOn(c, c')
  {
    var route, ring, leaf := ClientStores(c, op, summary, c');
    var counted := Counted(c, op, route, ring);
    CountedGoesOn(c, op, route, ring);
    if c' != counted {
      ScheduleGoesOn(counted, leaf);
      GoesOnTwice(c, counted, c');
    }
  }

  lemma ClientFids(c: Cluster, op: Operation, summary: seq<Byte>, c': Cluster, k: Keyword)
    requires Sane(c) && ClientStep(c, op, summary, c') && (k != op.keyword || !Idle(c.migrations, op.keyword))
    ensures SameFids(c, c', k)
  {
    if Idle(c.migrations, op.keyword) {
      var route, ring, leaf := ClientStores(c, op, summary, c');
      StoredFids(c, op, route, ring, k);
      if c' != Counted(c, op, route, ring) {
        ScheduleGoesOn(Counted(c, op, route, ring), leaf);
      }
    }
  }

  lemma {:induction false} ReplayRetained(c: Cluster, ops: seq<Operation>, summaries: seq<seq<Byte>>)
    requires Sane(c) && c.run.None? && |summaries| == |ops|
    ensures SameRetained(c, End(c, ops, summaries))
    decreases |ops|
  {
    if ops != [] {
      EndStep(c, ops, summaries);
      StoreSane(c, ops[0], summaries[0]);
      StoreKeepsRetained(c, ops[0], RouteKeyword(c, ops[0].keyword).value, summaries[0]);
      ReplayRetained(After(c, ops[0], summaries[0]), ops[1..], summaries[1..]);
    }
  }

  lemma NothingAwaits(c: Cluster, c': Cluster)
    requires Sane(c) && NodesClean(c) && ReadyToReplay(c) && SameRetained(c, c') && c'.run.None?
    ensures NodesClean(c')
  {
    ReadyIsImported(c);
    assert Awaiting(c.migrations[c.run.value.parent].plan, c.run.value) == {};
    forall n: nat | n < |c'.nodes| ensures c'.nodes[n].retained == RetainedBy(c', n) {
      assert c.nodes[n].retained == RetainedBy(c, n);
    }
  }

  lemma EndRetained(c: Cluster, step: CodeStep, c': Cluster)
    requires Sane(c) && NodesClean(c) && CodeNext(c, step, c') && (step.FinishAll? || step.StopReplay?)
    ensures NodesClean(c')
  {
    var parent := c.run.value.parent;
    match step {
      case FinishAll(summaries) =>
        SettledSane(c);
        FinishAllIsReplay(c, summaries, c');
        ReplayRetained(Settled(c), c.migrations[parent].pending, summaries);
      case StopReplay(summaries) =>
        TakenSane(c);
        StopReplayIsReplay(c, summaries, c');
        ReplayRetained(Taken(c, parent).(run := None), c.migrations[parent].pending[..|summaries|], summaries);
    }
    NothingAwaits(c, c');
  }

  predicate IsAbort(step: CodeStep) {
    step.Take? && step.step.AbortMigration?
  }

  lemma StepRetained(c: Cluster, step: CodeStep, c': Cluster)
    requires Sane(c) && NodesClean(c) && CodeNext(c, step, c') && !IsAbort(step)
    ensures NodesClean(c')
  {
    match step
    case PresplitAny(_, _) => RetainedStays(c, c');
    case FinishAll(_) => EndRetained(c, step, c');
    case StopReplay(_) => EndRetained(c, step, c');
    case Take(s) =>
      match s
      case Client(op, summary) =>
        ClientRetained(c, op, summary, c');
        RetainedStays(c, c');
      case UpdateSummary(_, _) => RetainedStays(c, c');
      case StartMigration(_) => StartRetained(c, c');
      case PrepareChild => PrepareRetained(c, c');
      case ImportChild(i) => ImportRetained(c, i, c');
      case ConfirmChild => ConfirmRetained(c, c');
  }

  lemma StartRetained(c: Cluster, c': Cluster)
    requires NodesClean(c) && c.run.None? && c'.nodes == c.nodes && c'.run.Some? && c'.run.value.segments == map[]
    ensures NodesClean(c')
  {
    forall n: nat | n < |c'.nodes| ensures c'.nodes[n].retained == RetainedBy(c', n) {
      assert c.nodes[n].retained == RetainedBy(c, n);
    }
  }

  // ----- where the keyword's records lie

  /** The copy that the running migration has imported. */
  ghost predicate CopyAt(c: Cluster, k: Keyword, n: nat)
    requires Sane(c)
  {
    && c.run.Some? && c.run.value.parent <= k.Key() && DigitAt(k.Key(), |c.run.value.parent|) in c.run.value.imported
    && n == TargetNode(c, k)
  }

  ghost predicate OnlyThere(c: Cluster, k: Keyword)
    requires Sane(c)
  {
    forall n: nat :: n < |c.nodes| && Fids(c.nodes[n], k) != {} ==> n == Holder(c, k) || CopyAt(c, k, n)
  }

  lemma OnlyThereStill(c: Cluster, c': Cluster, k: Keyword)
    requires Sane(c) && Sane(c') && OnlyThere(c, k) && SameFids(c, c', k) && Holder(c', k) == Holder(c, k)
    requires forall n: nat :: CopyAt(c, k, n) ==> CopyAt(c', k, n) || n == Holder(c', k)
    ensures OnlyThere(c', k)
  {}

  lemma HolderStays(c: Cluster, c': Cluster, p: string, k: Keyword)
    requires Sane(c) && Sane(c') && ActiveIn(c.migrations, p, k) && ActiveIn(c'.migrations, p, k)
    requires c'.migrations[p].plan == c.migrations[p].plan && c'.migrations[p].moved == c.migrations[p].moved
    ensures Holder(c', k) == Holder(c, k)
  {
    PledgedUnder(c, p, k);
    PledgedUnder(c', p, k);
  }

  lemma IdleHolderStays(c: Cluster, c': Cluster, k: Keyword)
    requires Sane(c) && Sane(c') && Idle(c.migrations, k) && Idle(c'.migrations, k) && Aligned(c, k) && Aligned(c', k)
    requires c'.ring.OwnerOf(k.Key()) == c.ring.OwnerOf(k.Key())
    ensures Holder(c', k) == Holder(c, k)
  {}

  lemma NoCopyOfIdle(c: Cluster, k: Keyword, n: nat)
    requires Sane(c) && Idle(c.migrations, k)
    ensures !CopyAt(c, k, n)
  {
    if c.run.Some? {
      NotUnderRun(c, k);
    }
  }

  // ----- under a pending migration

  lemma CopyStays(c: Cluster, c': Cluster, k: Keyword, n: nat)
    requires Sane(c) && Sane(c') && CopyAt(c, k, n) && |c'.nodes| == |c.nodes|
    requires c'.run.Some? && c'.run.value.parent == c.run.value.parent && c.run.value.imported <= c'.run.value.imported
    requires c'.migrations[c.run.value.parent].plan == c.migrations[c.run.value.parent].plan
    ensures CopyAt(c', k, n)
  {}

  lemma ClientUnderOnly(c: Cluster, op: Operation, summary: seq<Byte>, c': Cluster, p: string, k: Keyword)
    requires Sane(c) && Sane(c') && ClientStep(c, op, summary, c') && ActiveIn(c.migrations, p, k) && OnlyThere(c, k)
    ensures OnlyThere(c', k)
  {
    ClientUnder(c, op, summary, c', p, k);
    ClientRetained(c, op, summary, c');
    ClientFids(c, op, summary, c', k);
    HolderStays(c, c', p, k);
    forall n: nat | CopyAt(c, k, n) ensures CopyAt(c', k, n) {
      CopyStays(c, c', k, n);
    }
    OnlyThereStill(c, c', k);
  }

  lemma ImportUnderOnly(c: Cluster, i: nat, c': Cluster, p: string, k: Keyword)
    requires Sane(c) && Sane(c') && ImportStep(c, i, c') && ActiveIn(c.migrations, p, k) && OnlyThere(c, k)
    ensures OnlyThere(c', k)
  {
    ImportUnder(c, i, c', p, k);
    HolderStays(c, c', p, k);
    forall n: nat | n < |c'.nodes| && Fids(c'.nodes[n], k) != {} ensures n == Holder(c', k) || CopyAt(c', k, n) {
      if Fids(c'.nodes[n], k) == Fids(c.nodes[n], k) {
        assert CopyAt(c, k, n) ==> CopyAt(c', k, n);
      } else {
        ImportedHere(c, i, c', k, n);
      }
    }
  }

  lemma ImportedHere(c: Cluster, i: nat, c': Cluster, k: Keyword, n: nat)
    requires Sane(c) && Sane(c') && ImportStep(c, i, c') && n < |c.nodes| && Fids(c'.nodes[n], k) != Fids(c.nodes[n], k)
    ensures CopyAt(c', k, n)
  {
    var run, m := c.run.value, c.migrations[c.run.value.parent];
    var prefix, target := m.plan.children[i].prefix, m.plan.children[i].node;
    ChildPrefixes(m.plan, run.parent, |c.nodes|, i, i);
    assert SegmentOk(c.nodes, m.plan, m.moved, run.segments[i], i, false);
    if !(prefix <= k.Key()) {
      ImportLeavesOthers(c.nodes[target], run.segments[i], prefix, k);
    }
    assert k.Key()[|run.parent|] == HexDigit(i);
  }

  lemma RunCovers(c: Cluster, p: string, k: Keyword)
    requires Sane(c) && c.run.Some? && ActiveIn(c.migrations, p, k) && c.run.value.parent <= k.Key()
    ensures p == c.run.value.parent
  {
    CoveredIff(c, c.run.value.parent, k);
    OnlyOneCovers(c, c.run.value.parent, k);
    OnlyOneCovers(c, p, k);
  }

  lemma ConfirmUnderOnly(c: Cluster, c': Cluster, p: string, k: Keyword)
    requires Sane(c) && Sane(c') && ConfirmStep(c, c') && ActiveIn(c.migrations, p, k) && OnlyThere(c, k)
    ensures OnlyThere(c', k)
  {
    ConfirmUnder(c, c', p, k);
    ConfirmKeepsRun(c, c');
    var q := c.run.value.parent;
    if q <= k.Key() {
      RunCovers(c, p, k);
    }
    if q <= k.Key() && c'.migrations[q].moved != c.migrations[q].moved {
      HandedOverOnly(c, c', k);
    } else {
      NotHandedOver(c, c', p, k);
    }
  }

  lemma NotHandedOver(c: Cluster, c': Cluster, p: string, k: Keyword)
    requires Sane(c) && Sane(c') && ConfirmStep(c, c') && OnlyRunChanges(c, c') && OnlyThere(c, k)
    requires ActiveIn(c.migrations, p, k) && ActiveIn(c'.migrations, p, k)
    requires p == c.run.value.parent || !(c.run.value.parent <= k.Key())
    requires c.run.value.parent <= k.Key() ==>
      c'.migrations[c.run.value.parent].moved == c.migrations[c.run.value.parent].moved
    ensures OnlyThere(c', k)
  {
    CoveredIff(c, p, k);
    ConfirmFids(c, c', k);
    HolderStays(c, c', p, k);
    forall n: nat | CopyAt(c, k, n) ensures CopyAt(c', k, n) {
      CopyStays(c, c', k, n);
    }
    OnlyThereStill(c, c', k);
  }

  lemma HandedOverOnly(c: Cluster, c': Cluster, k: Keyword)
    requires Sane(c) && Sane(c') && ConfirmStep(c, c') && OnlyRunChanges(c, c') && OnlyThere(c, k)
    requires ActiveIn(c.migrations, c.run.value.parent, k) && ActiveIn(c'.migrations, c.run.value.parent, k)
    requires !c.migrations[c.run.value.parent].moved && c'.migrations[c.run.value.parent].moved
    ensures OnlyThere(c', k)
  {
    var p := c.run.value.parent;
    CoveredIff(c, p, k);
    PledgedUnder(c', p, k);
    forall n: nat | n < |c'.nodes| && Fids(c'.nodes[n], k) != {} ensures n == Holder(c', k) {
      var fid :| fid in Fids(c'.nodes[n], k);
      LeftAtTarget(c, c', k, n, fid);
    }
  }

  /** What the deleting confirm leaves of the keyword lies at the target. */
  lemma LeftAtTarget(c: Cluster, c': Cluster, k: Keyword, n: nat, fid: string)
    requires Sane(c) && ConfirmStep(c, c') && OnlyThere(c, k) && ActiveIn(c.migrations, c.run.value.parent, k)
    requires !c.migrations[c.run.value.parent].moved && c'.migrations[c.run.value.parent].moved
    requires c.run.value.parent <= k.Key() && n < |c'.nodes| && fid in Fids(c'.nodes[n], k)
    ensures n == TargetNode(c, k)
  {
    ConfirmOnlyRemoves(c, c', n, Record(k, fid));
    assert fid in Fids(c.nodes[n], k);
    PledgedUnder(c, c.run.value.parent, k);
    if n == c.migrations[c.run.value.parent].plan.source.node {
      DeletedAtSource(c, c', Record(k, fid));
    }
  }

  /** When all is confirmed, nothing of the keyword lies anywhere but at the target. */
  lemma OnlyAtTarget(c: Cluster, k: Keyword, n: nat)
    requires Sane(c) && NodesClean(c) && OnlyThere(c, k) && ReadyToReplay(c) && c.run.value.parent <= k.Key()
    requires n < |c.nodes| && n != TargetNode(c, k)
    ensures Fids(c.nodes[n], k) == {}
  {
    var p := c.run.value.parent;
    ReadyIsImported(c);
    CoveredIff(c, p, k);
    PledgedUnder(c, p, k);
    if !c.migrations[p].moved {
      assert c.run.value.segments == map[];
      assert !c.migrations[p].plan.IsForeign(DigitAt(k.Key(), |p|));
    }
  }

  lemma TargetIsHolder(c: Cluster, k: Keyword)
    requires Sane(c) && NodesClean(c) && ReadyToReplay(c) && c.run.value.parent <= k.Key()
    ensures Holder(c, k) == TargetNode(c, k)
  {
    var p := c.run.value.parent;
    ReadyIsImported(c);
    CoveredIff(c, p, k);
    PledgedUnder(c, p, k);
    if !c.migrations[p].moved {
      assert c.run.value.segments == map[];
      assert !c.migrations[p].plan.IsForeign(DigitAt(k.Key(), |p|));
    }
  }

  /** A replay that stays at the target puts nothing elsewhere. */
  lemma NothingElsewhere(c: Cluster, summaries: seq<seq<Byte>>, c': Cluster, k: Keyword, n: nat)
    requires Sane(c) && NodesClean(c) && OnlyThere(c, k) && FinishAllStep(c, summaries, c')
    requires c.run.value.parent <= k.Key() && |summaries| == |Buffered(c)| && StaysAtTarget(c, summaries, k)
    requires n < |c.nodes| && n != TargetNode(c, k)
    ensures |c'.nodes| == |c.nodes| && Fids(c'.nodes[n], k) == {}
  {
    var s, ops := Settled(c), Buffered(c);
    SettledSane(c);
    FinishIsEnd(c, summaries, c', k);
    SteadyLands(s, ops, summaries, k);
    OnlyAtTarget(c, k, n);
    LandedElsewhere(s, ops, summaries, k, TargetNode(c, k), n);
    LandedFids(s, ops, summaries, k, n);
  }

  lemma FinishOnly(c: Cluster, summaries: seq<seq<Byte>>, c': Cluster, k: Keyword)
    requires Sane(c) && Sane(c') && NodesClean(c) && OnlyThere(c, k) && FinishAllStep(c, summaries, c')
    requires c.run.value.parent <= k.Key() && |summaries| == |Buffered(c)| && StaysAtTarget(c, summaries, k)
    ensures OnlyThere(c', k)
  {
    SettledSane(c);
    FinishKeepsIff(c, summaries, c', k);
    FinishIsEnd(c, summaries, c', k);
    forall n: nat | n < |c'.nodes| && Fids(c'.nodes[n], k) != {} ensures n == Holder(c', k) {
      if n != TargetNode(c, k) {
        NothingElsewhere(c, summaries, c', k, n);
      }
    }
  }

  lemma StopOnly(c: Cluster, summaries: seq<seq<Byte>>, c': Cluster, k: Keyword)
    requires Sane(c) && Sane(c') && NodesClean(c) && OnlyThere(c, k) && StopReplayStep(c, summaries, c')
    requires c.run.value.parent <= k.Key() && OpsFor(Buffered(c), k) == []
    ensures OnlyThere(c', k)
  {
    CoveredIff(c, c.run.value.parent, k);
    StopFids(c, summaries, c', k);
    StopTakes(c, summaries, c');
    StopWithoutOps(c, summaries, c', k);
    HolderStays(c, c', c.run.value.parent, k);
    TargetIsHolder(c, k);
    OnlyThereStill(c, c', k);
  }

  /** The end of another migration. */
  lemma EndOnly(c: Cluster, c': Cluster, k: Keyword)
    requires Sane(c) && Sane(c') && Aligned(c, k) && OnlyThere(c, k) && c.run.Some? && !(c.run.value.parent <= k.Key())
    requires LeftAlone(c, c', k) && OthersStay(c, c', c.run.value.parent)
    ensures OnlyThere(c', k)
  {
    if Idle(c.migrations, k) {
      EndOnlyIdle(c, c', k);
    } else {
      EndOnlyUnder(c, c', ActiveParent(c.migrations, k).value, k);
    }
  }

  lemma EndOnlyIdle(c: Cluster, c': Cluster, k: Keyword)
    requires Sane(c) && Sane(c') && Idle(c.migrations, k) && Aligned(c, k) && OnlyThere(c, k) && c.run.Some?
    requires LeftAlone(c, c', k) && OthersStay(c, c', c.run.value.parent) && !(c.run.value.parent <= k.Key())
    ensures OnlyThere(c', k)
  {
    IdleStaysIdle(c, c', k);
    IdleLeftAlone(c, c', k);
    IdleOnly(c, c', k);
  }

  lemma EndOnlyUnder(c: Cluster, c': Cluster, p: string, k: Keyword)
    requires Sane(c) && Sane(c') && OnlyThere(c, k) && c.run.Some? && !(c.run.value.parent <= k.Key())
    requires SameFids(c, c', k) && OthersStay(c, c', c.run.value.parent) && ActiveIn(c.migrations, p, k)
    ensures OnlyThere(c', k)
  {
    CoveredIff(c, p, k);
    OtherStays(c, c', p, k);
    HolderStays(c, c', p, k);
    OnlyThereStill(c, c', k);
  }

  // ----- a keyword that nothing covers

  lemma ClientIdleOnly(c: Cluster, op: Operation, summary: seq<Byte>, c': Cluster, k: Keyword)
    requires Sane(c) && Sane(c') && ClientStep(c, op, summary, c') && Idle(c.migrations, k) && Aligned(c, k) && OnlyThere(c, k)
    ensures OnlyThere(c', k)
  {
    if Idle(c.migrations, op.keyword) {
      StoredIdleOnly(c, op, summary, c', k);
    } else {
      var q :| ActiveIn(c.migrations, q, op.keyword) && c' == Buffer(c, q, op);
      BufferedIdleOnly(c, q, op, k);
    }
  }

  lemma BufferedIdleOnly(c: Cluster, q: string, op: Operation, k: Keyword)
    requires Sane(c) && q in c.migrations && Sane(Buffer(c, q, op))
    requires Idle(c.migrations, k) && Aligned(c, k) && OnlyThere(c, k)
    ensures OnlyThere(Buffer(c, q, op), k)
  {
    StillIdle(c, Buffer(c, q, op), k);
    IdleLeftAlone(c, Buffer(c, q, op), k);
    IdleOnly(c, Buffer(c, q, op), k);
  }

  lemma IdleCopies(c: Cluster, k: Keyword)
    requires Sane(c) && Idle(c.migrations, k)
    ensures forall n: nat :: !CopyAt(c, k, n)
  {
    forall n: nat ensures !CopyAt(c, k, n) {
      NoCopyOfIdle(c, k, n);
    }
  }

  lemma StoredIdleOnly(c: Cluster, op: Operation, summary: seq<Byte>, c': Cluster, k: Keyword)
    requires Sane(c) && Sane(c') && ClientStep(c, op, summary, c') && Idle(c.migrations, op.keyword)
    requires Idle(c.migrations, k) && Aligned(c, k) && OnlyThere(c, k)
    ensures OnlyThere(c', k)
  {
    var route, ring, leaf := ClientStores(c, op, summary, c');
    var counted := Counted(c, op, route, ring);
    CountedIdleOnly(c, op, route, ring, k);
    CountedIdle(c, op, route, ring, k);
    if c' != counted {
      SplitIdleOnly(counted, leaf, k);
    }
  }

  lemma CountedIdleOnly(c: Cluster, op: Operation, route: RouteTarget, ring: RingState, k: Keyword)
    requires Sane(c) && Idle(c.migrations, op.keyword) && Idle(c.migrations, k) && Aligned(c, k) && OnlyThere(c, k)
    requires RouteKeyword(c, op.keyword) == Some(route) && route.node < |c.nodes|
    requires c.ring.SameShape(ring) && Sane(Counted(c, op, route, ring))
    ensures OnlyThere(Counted(c, op, route, ring), k)
  {
    var c' := Counted(c, op, route, ring);
    CountedIdle(c, op, route, ring, k);
    c.ring.SameShapeKeepsRoutes(ring, k.Key());
    IdleHolderStays(c, c', k);
    IdleCopies(c, k);
    forall n: nat | n < |c'.nodes| && Fids(c'.nodes[n], k) != {} ensures n == Holder(c', k) {
      CountedFids(c, op, route, ring, k, n);
    }
  }

  lemma SplitIdleHolder(c: Cluster, leaf: nat, k: Keyword)
    requires Sane(c) && Idle(c.migrations, k) && Aligned(c, k)
    requires c.ring.CanSplit(leaf) && Sane(SplitAndSchedule(c, leaf)) && c.ring.entries[leaf].prefix <= k.Key()
    ensures Holder(SplitAndSchedule(c, leaf), k) == Holder(c, k)
  {
    var c', parent := SplitAndSchedule(c, leaf), c.ring.entries[leaf].prefix;
    NewParentIsNew(c, leaf);
    CoveredIff(c', parent, k);
    PledgedUnder(c', parent, k);
    assert PlanFor(c.ring, leaf).source.node == c.ring.entries[leaf].ownerRef;
    c.ring.RouteIsUnique(k.Key(), leaf);
  }

  lemma SplitElsewhereHolder(c: Cluster, leaf: nat, k: Keyword)
    requires Sane(c) && Idle(c.migrations, k) && Aligned(c, k)
    requires c.ring.CanSplit(leaf) && Sane(SplitAndSchedule(c, leaf)) && !(c.ring.entries[leaf].prefix <= k.Key())
    ensures Holder(SplitAndSchedule(c, leaf), k) == Holder(c, k)
  {
    NewParentIsNew(c, leaf);
    OtherLeafSplits(c, leaf, k);
    c.ring.SplitIsLocal(leaf, k.Key());
    StillIdle(c, SplitAndSchedule(c, leaf), k);
    IdleHolderStays(c, SplitAndSchedule(c, leaf), k);
  }

  lemma SplitIdleOnly(c: Cluster, leaf: nat, k: Keyword)
    requires Sane(c) && Idle(c.migrations, k) && Aligned(c, k) && OnlyThere(c, k)
    requires c.ring.CanSplit(leaf) && Sane(SplitAndSchedule(c, leaf))
    ensures OnlyThere(SplitAndSchedule(c, leaf), k)
  {
    IdleCopies(c, k);
    ScheduleGoesOn(c, leaf);
    if c.ring.entries[leaf].prefix <= k.Key() {
      SplitIdleHolder(c, leaf, k);
    } else {
      SplitElsewhereHolder(c, leaf, k);
    }
    OnlyThereStill(c, SplitAndSchedule(c, leaf), k);
  }

  /** A step that leaves an idle keyword's records and owner alone. */
  lemma IdleOnly(c: Cluster, c': Cluster, k: Keyword)
    requires Sane(c) && Sane(c') && Idle(c.migrations, k) && Idle(c'.migrations, k) && Aligned(c, k) && Aligned(c', k)
    requires OnlyThere(c, k) && SameFids(c, c', k) && c'.ring.OwnerOf(k.Key()) == c.ring.OwnerOf(k.Key())
    ensures OnlyThere(c', k)
  {
    IdleHolderStays(c, c', k);
    IdleCopies(c, k);
    OnlyThereStill(c, c', k);
  }

  lemma StepIdleOnly(c: Cluster, step: Step, c': Cluster, k: Keyword)
    requires Sane(c) && Sane(c') && CodeNext(c, Take(step), c') && Idle(c.migrations, k) && Aligned(c, k) && OnlyThere(c, k)
    ensures OnlyThere(c', k)
  {
    StepIdle(c, step, c', k);
    match step
    case Client(op, summary) => ClientIdleOnly(c, op, summary, c', k);
    case UpdateSummary(prefix, summary) =>
      c.ring.UpdateSummaryKeepsShape(prefix, summary);
      c.ring.SameShapeKeepsRoutes(c'.ring, k.Key());
      IdleOnly(c, c', k);
    case StartMigration(_) => IdleOnly(c, c', k);
    case AbortMigration => IdleOnly(c, c', k);
    case PrepareChild =>
      PrepareFids(c, c', k);
      IdleOnly(c, c', k);
    case ImportChild(i) => ImportIdleOnly(c, i, c', k);
    case ConfirmChild => ConfirmIdleOnly(c, c', k);
  }

  lemma ImportIdleOnly(c: Cluster, i: nat, c': Cluster, k: Keyword)
    requires Sane(c) && Sane(c') && ImportStep(c, i, c') && Idle(c.migrations, k) && Aligned(c, k) && Aligned(c', k) && OnlyThere(c, k)
    ensures OnlyThere(c', k)
  {
    NotUnderRun(c, k);
    forall n: nat | n < |c.nodes| ensures Fids(c'.nodes[n], k) == Fids(c.nodes[n], k) {
      ImportFids(c, i, c', k, n);
    }
    IdleOnly(c, c', k);
  }

  lemma ConfirmIdleOnly(c: Cluster, c': Cluster, k: Keyword)
    requires Sane(c) && Sane(c') && ConfirmStep(c, c') && Idle(c.migrations, k) && Aligned(c, k) && Aligned(c', k) && OnlyThere(c, k)
    ensures OnlyThere(c', k)
  {
    NotUnderRun(c, k);
    ConfirmKeepsRun(c, c');
    ConfirmFids(c, c', k);
    StillIdle(c, c', k);
    IdleOnly(c, c', k);
  }

  // ----- all steps

  /** A step that leaves an active keyword's migration and records alone. */
  lemma UnderOnly(c: Cluster, c': Cluster, p: string, k: Keyword)
    requires Sane(c) && Sane(c') && ActiveIn(c.migrations, p, k) && OnlyThere(c, k) && SameFids(c, c', k)
    requires c'.migrations == c.migrations
    requires c.run.Some? ==>
      c'.run.Some? && c'.run.value.parent == c.run.value.parent && c'.run.value.imported == c.run.value.imported
    ensures OnlyThere(c', k)
  {
    HolderStays(c, c', p, k);
    OnlyThereStill(c, c', k);
  }

  lemma StepUnderOnly(c: Cluster, step: Step, c': Cluster, p: string, k: Keyword)
    requires Sane(c) && Sane(c') && CodeNext(c, Take(step), c') && !step.AbortMigration?
    requires ActiveIn(c.migrations, p, k) && OnlyThere(c, k)
    ensures OnlyThere(c', k)
  {
    match step
    case Client(op, summary) => ClientUnderOnly(c, op, summary, c', p, k);
    case UpdateSummary(_, _) => UnderOnly(c, c', p, k);
    case StartMigration(_) => UnderOnly(c, c', p, k);
    case PrepareChild =>
      PrepareFids(c, c', k);
      UnderOnly(c, c', p, k);
    case ImportChild(i) => ImportUnderOnly(c, i, c', p, k);
    case ConfirmChild => ConfirmUnderOnly(c, c', p, k);
  }

  lemma HarmlessKeepsOnly(c: Cluster, step: CodeStep, c': Cluster, k: Keyword)
    requires Sane(c) && Sane(c') && Aligned(c, k) && NodesClean(c) && OnlyThere(c, k)
    requires CodeNext(c, step, c') && !IsAbort(step) && Harmless(c, step, c', k)
    ensures OnlyThere(c', k)
  {
    match step
    case Take(s) =>
      if Idle(c.migrations, k) {
        StepIdleOnly(c, s, c', k);
      } else {
        StepUnderOnly(c, s, c', ActiveParent(c.migrations, k).value, k);
      }
    case PresplitAny(prefix, incoming) =>
      if Idle(c.migrations, k) {
        PresplitKeepsKeyword(c, prefix, incoming, c', k);
        IdleOnly(c, c', k);
      } else {
        UnderOnly(c, c', ActiveParent(c.migrations, k).value, k);
      }
    case FinishAll(summaries) =>
      if c.run.value.parent <= k.Key() {
        FinishOnly(c, summaries, c', k);
      } else {
        FinishedOutside(c, summaries, c', k);
        EndOnly(c, c', k);
      }
    case StopReplay(summaries) =>
      if c.run.value.parent <= k.Key() {
        StopOnly(c, summaries, c', k);
      } else {
        StoppedOutside(c, summaries, c', k);
        EndOnly(c, c', k);
      }
  }

  ghost predicate NoAborts(steps: seq<CodeStep>, n: nat) {
    forall i: nat :: i < n && i < |steps| ==> !IsAbort(steps[i])
  }

  /** All that is known of a keyword that no step has harmed. */
  ghost predicate InPlace(c: Cluster, k: Keyword) {
    Sane(c) && Aligned(c, k) && NodesClean(c) && OnlyThere(c, k)
  }

  lemma InPlaceAtFirst(c: Cluster, k: Keyword)
    requires Init(c)
    ensures InPlace(c, k)
  {
    NothingAtFirst(c, k);
  }

  lemma StepKeepsInPlace(c: Cluster, step: CodeStep, c': Cluster, k: Keyword)
    requires InPlace(c, k) && Sane(c') && CodeNext(c, step, c') && !IsAbort(step) && Harmless(c, step, c', k)
    ensures InPlace(c', k)
  {
    StepRetained(c, step, c');
    HarmlessKeeps(c, step, c', k);
    HarmlessKeepsOnly(c, step, c', k);
  }

  /** In every run of the code without aborts, as long as the steps are harmless to a keyword, its records lie at one
      storager, besides the copy a running migration has imported. */
  lemma {:induction false} KeptInOnePlace(trace: seq<Cluster>, steps: seq<CodeStep>, n: nat, k: Keyword)
    requires IsCodeRun(trace, steps) && n <= |steps| && HarmlessRun(trace, steps, n, k) && NoAborts(steps, n)
    ensures InPlace(trace[n], k)
  {
    if n == 0 {
      InPlaceAtFirst(trace[0], k);
    } else {
      KeptInOnePlace(trace, steps, n - 1, k);
      OneMoreInPlace(trace, steps, n, k);
    }
  }

  lemma OneMoreInPlace(trace: seq<Cluster>, steps: seq<CodeStep>, n: nat, k: Keyword)
    requires IsCodeRun(trace, steps) && 0 < n <= |steps| && InPlace(trace[n - 1], k)
    requires HarmlessRun(trace, steps, n, k) && NoAborts(steps, n)
    ensures InPlace(trace[n], k)
  {
    CodeRunSane(trace, steps, n);
    assert HarmlessAt(trace, steps, n - 1, k) && StepTaken(trace, steps, n - 1);
    StepKeepsInPlace(trace[n - 1], steps[n - 1], trace[n], k);
  }
}
