/** What the unguarded machine keeps for one keyword, over every run: everything, as long as no presplit, no split of
    a replay and no stopped replay harms it. The steps that can harm it are told exactly. */
module UnguardedKeywords {
  import opened Wrappers
  import opened Hex
  import opened Ring
  import opened Routing
  import opened AccTree
  import opened Presplit
  import opened Migration
  import opened MigrationInvariant
  import opened MigrationClient
  import opened MigrationServer
  import opened MigrationTheorems
  import opened Unguarded
  import opened ReplayReads
  import opened UnguardedReads

  // ----- a keyword that nothing covers

  lemma StillIdle(c: Cluster, c': Cluster, k: Keyword)
    requires Sane(c) && Sane(c') && Idle(c.migrations, k)
    requires forall p :: p in c'.migrations && !c'.migrations[p].confirmed && p <= k.Key() ==>
      p in c.migrations && !c.migrations[p].confirmed
    ensures Idle(c'.migrations, k)
  {
    forall p ensures !ActiveIn(c'.migrations, p, k) {
      CoveredIff(c, p, k);
      CoveredIff(c', p, k);
      assert !ActiveIn(c.migrations, p, k);
    }
  }

  lemma IdleLeftAlone(c: Cluster, c': Cluster, k: Keyword)
    requires Sane(c) && Sane(c') && Idle(c.migrations, k) && Idle(c'.migrations, k) && Aligned(c, k) && LeftAlone(c, c', k)
    ensures Aligned(c', k) && Pledged(c', k) == Pledged(c, k)
  {
    RouteIsNamed(c, k);
    RouteIsNamed(c', k);
    PledgedIdle(c, k);
    PledgedIdle(c', k);
  }

  /** A split of the keyword's leaf by a client's insert puts it under a new migration, from where its records are. */
  lemma LeafSplits(c: Cluster, leaf: nat, k: Keyword)
    requires Sane(c) && Idle(c.migrations, k) && c.ring.CanSplit(leaf) && c.ring.entries[leaf].prefix <= k.Key()
    requires Sane(SplitAndSchedule(c, leaf))
    ensures c.ring.OwnerOf(k.Key()) < |c.nodes|
    ensures
      var c' := SplitAndSchedule(c, leaf);
      Aligned(c', k) && Pledged(c', k) == Fids(c.nodes[c.ring.OwnerOf(k.Key())], k)
  {
    var c', parent := SplitAndSchedule(c, leaf), c.ring.entries[leaf].prefix;
    NewParentIsNew(c, leaf);
    CoveredIff(c', parent, k);
    PledgedUnder(c', parent, k);
    assert PlanFor(c.ring, leaf).source.node == c.ring.entries[leaf].ownerRef;
    c.ring.RouteIsUnique(k.Key(), leaf);
  }

  lemma OtherLeafSplits(c: Cluster, leaf: nat, k: Keyword)
    requires Sane(c) && Idle(c.migrations, k) && Aligned(c, k)
    requires c.ring.CanSplit(leaf) && !(c.ring.entries[leaf].prefix <= k.Key()) && Sane(SplitAndSchedule(c, leaf))
    ensures var c' := SplitAndSchedule(c, leaf); Aligned(c', k) && Pledged(c', k) == Pledged(c, k)
  {
    var c' := SplitAndSchedule(c, leaf);
    NewParentIsNew(c, leaf);
    c.ring.SplitIsLocal(leaf, k.Key());
    StillIdle(c, c', k);
    IdleLeftAlone(c, c', k);
  }

  lemma CountedIdle(c: Cluster, op: Operation, route: RouteTarget, ring: RingState, k: Keyword)
    requires Sane(c) && Idle(c.migrations, op.keyword) && Idle(c.migrations, k) && Aligned(c, k)
    requires RouteKeyword(c, op.keyword) == Some(route) && route.node < |c.nodes|
    requires c.ring.SameShape(ring) && Sane(Counted(c, op, route, ring))
    ensures
      var c' := Counted(c, op, route, ring);
      Aligned(c', k) && Pledged(c', k) == if op.keyword == k then ApplyToFids(op, Pledged(c, k)) else Pledged(c, k)
  {
    var c' := Counted(c, op, route, ring);
    c.ring.SameShapeKeepsRoutes(ring, k.Key());
    if op.keyword == k {
      RouteIsNamed(c', k);
      PledgedIdle(c, k);
      PledgedIdle(c', k);
      CountedFids(c, op, route, ring, k, route.node);
    } else {
      StoredFids(c, op, route, ring, k);
      IdleLeftAlone(c, c', k);
    }
  }

  lemma ClientIdle(c: Cluster, op: Operation, summary: seq<Byte>, c': Cluster, k: Keyword)
    requires Sane(c) && Sane(c') && ClientStep(c, op, summary, c') && Idle(c.migrations, k) && Aligned(c, k)
    ensures Aligned(c', k)
    ensures Pledged(c', k) == if op.keyword == k then ApplyToFids(op, Pledged(c, k)) else Pledged(c, k)
  {
    if Idle(c.migrations, op.keyword) {
      StoredIdle(c, op, summary, c', k);
    } else {
      var q :| ActiveIn(c.migrations, q, op.keyword) && c' == Buffer(c, q, op);
      StillIdle(c, c', k);
      IdleLeftAlone(c, c', k);
    }
  }

  lemma StoredIdle(c: Cluster, op: Operation, summary: seq<Byte>, c': Cluster, k: Keyword)
    requires Sane(c) && Sane(c') && ClientStep(c, op, summary, c') && Idle(c.migrations, op.keyword)
    requires Idle(c.migrations, k) && Aligned(c, k)
    ensures Aligned(c', k)
    ensures Pledged(c', k) == if op.keyword == k then ApplyToFids(op, Pledged(c, k)) else Pledged(c, k)
  {
    var route, ring, leaf := ClientStores(c, op, summary, c');
    var counted := Counted(c, op, route, ring);
    CountedIdle(c, op, route, ring, k);
    if c' != counted {
      if ring.entries[leaf].prefix <= k.Key() {
        PledgedIdle(counted, k);
        LeafSplits(counted, leaf, k);
      } else {
        OtherLeafSplits(counted, leaf, k);
      }
    }
  }

  lemma NotUnderRun(c: Cluster, k: Keyword)
    requires Sane(c) && c.run.Some? && Idle(c.migrations, k)
    ensures !(c.run.value.parent <= k.Key())
  {
    CoveredIff(c, c.run.value.parent, k);
    assert !ActiveIn(c.migrations, c.run.value.parent, k);
  }

  /** A storager call of the running migration touches no idle keyword. */
  lemma ServerLeavesAlone(c: Cluster, c': Cluster, k: Keyword)
    requires Sane(c) && Sane(c') && Idle(c.migrations, k) && Aligned(c, k) && SameFids(c, c', k)
    requires c'.ring == c.ring && c'.overrides == c.overrides
    requires c'.migrations == c.migrations || OnlyRunChanges(c, c')
    ensures Aligned(c', k) && Pledged(c', k) == Pledged(c, k)
  {
    StillIdle(c, c', k);
    IdleLeftAlone(c, c', k);
  }

  lemma ImportIdle(c: Cluster, i: nat, c': Cluster, k: Keyword)
    requires Sane(c) && Sane(c') && ImportStep(c, i, c') && Idle(c.migrations, k) && Aligned(c, k)
    ensures Aligned(c', k) && Pledged(c', k) == Pledged(c, k)
  {
    NotUnderRun(c, k);
    forall n: nat | n < |c.nodes| ensures Fids(c'.nodes[n], k) == Fids(c.nodes[n], k) {
      ImportFids(c, i, c', k, n);
    }
    ServerLeavesAlone(c, c', k);
  }

  lemma ConfirmIdle(c: Cluster, c': Cluster, k: Keyword)
    requires Sane(c) && Sane(c') && ConfirmStep(c, c') && Idle(c.migrations, k) && Aligned(c, k)
    ensures Aligned(c', k) && Pledged(c', k) == Pledged(c, k)
  {
    NotUnderRun(c, k);
    ConfirmKeepsRun(c, c');
    ConfirmFids(c, c', k);
    ServerLeavesAlone(c, c', k);
  }

  lemma StepIdle(c: Cluster, step: Step, c': Cluster, k: Keyword)
    requires Sane(c) && Sane(c') && !step.FinishMigration? && !step.PresplitPrefix? && Next(c, step, c')
    requires Idle(c.migrations, k) && Aligned(c, k)
    ensures Aligned(c', k)
    ensures Pledged(c', k) == if step.Client? && step.op.keyword == k then ApplyToFids(step.op, Pledged(c, k)) else Pledged(c, k)
  {
    match step
    case Client(op, summary) => ClientIdle(c, op, summary, c', k);
    case UpdateSummary(prefix, summary) =>
      c.ring.UpdateSummaryKeepsShape(prefix, summary);
      c.ring.SameShapeKeepsRoutes(c'.ring, k.Key());
      IdleLeftAlone(c, c', k);
    case StartMigration(_) => IdleLeftAlone(c, c', k);
    case AbortMigration => IdleLeftAlone(c, c', k);
    case PrepareChild =>
      PrepareFids(c, c', k);
      ServerLeavesAlone(c, c', k);
    case ImportChild(i) => ImportIdle(c, i, c', k);
    case ConfirmChild => ConfirmIdle(c, c', k);
  }

  // ----- the end of a migration

  /** The storager that the running migration takes the keyword to. */
  ghost function TargetNode(c: Cluster, k: Keyword): (n: nat)
    requires Sane(c) && c.run.Some?
    ensures n < |c.nodes|
  {
    PlanHas16(c, c.run.value.parent);
    c.migrations[c.run.value.parent].plan.children[DigitAt(k.Key(), |c.run.value.parent|)].node
  }

  ghost function Buffered(c: Cluster): seq<Operation>
    requires Sane(c) && c.run.Some?
  {
    c.migrations[c.run.value.parent].pending
  }

  lemma ReadyIsImported(c: Cluster)
    requires Sane(c) && ReadyToReplay(c)
    ensures c.run.value.prepared == 16 && c.run.value.imported == c.run.value.segments.Keys && c.run.value.confirmedUpTo == 16
  {
    PlanHas16(c, c.run.value.parent);
  }

  /** Before the replay the target has the keyword's records. */
  lemma PledgedBefore(c: Cluster, k: Keyword)
    requires Sane(c) && ReadyToReplay(c) && c.run.value.parent <= k.Key()
    ensures Pledged(c, k) == ApplyAll(OpsFor(Buffered(c), k), Fids(c.nodes[TargetNode(c, k)], k))
  {
    var parent := c.run.value.parent;
    ReadyIsImported(c);
    CoveredIff(c, parent, k);
    PledgedUnder(c, parent, k);
    if !c.migrations[parent].moved {
      CopyAtTarget(c, k);
    }
  }

  lemma IdleAfterFinish(c: Cluster, c': Cluster, k: Keyword)
    requires Sane(c) && Sane(c') && c.run.Some? && c.run.value.parent <= k.Key()
    requires c'.migrations == c.migrations[c.run.value.parent := c.migrations[c.run.value.parent].(confirmed := true, pending := [])]
    ensures Idle(c'.migrations, k)
  {
    var parent := c.run.value.parent;
    forall p ensures !ActiveIn(c'.migrations, p, k) {
      CoveredIff(c', p, k);
      assert p <= k.Key() ==> p <= parent || parent <= p;
    }
  }

  lemma SettledRoute(c: Cluster, k: Keyword)
    requires Sane(c) && c.run.Some? && c.run.value.parent <= k.Key() && Sane(Settled(c))
    ensures k !in Settled(c).overrides && RouteNode(Settled(c), k) == c.ring.OwnerOf(k.Key())
  {
    var parent := c.run.value.parent;
    PlanHas16(c, parent);
    MatchIsStringPrefix(k, parent);
    RouteIsNamed(Settled(c), k);
  }

  /** A finish is a replay of what is buffered; it keeps what is pledged exactly if reads then find what the buffered
      operations make of the target's records. */
  lemma FinishIsEnd(c: Cluster, summaries: seq<seq<Byte>>, c': Cluster, k: Keyword)
    requires Sane(c) && FinishAllStep(c, summaries, c') && c.run.value.parent <= k.Key()
    ensures Sane(c') && Sane(Settled(c)) && |summaries| == |Buffered(c)| && c' == End(Settled(c), Buffered(c), summaries)
    ensures Idle(c'.migrations, k) && RouteNode(Settled(c), k) == c.ring.OwnerOf(k.Key())
    ensures Pledged(c', k) == Pledged(c, k)
      <==> ReplayFinds(Settled(c), Buffered(c), summaries, k, Fids(c.nodes[TargetNode(c, k)], k))
  {
    SettledSane(c);
    FinishAllSane(c, summaries, c');
    FinishAllIsReplay(c, summaries, c');
    SettledRoute(c, k);
    IdleAfterFinish(c, c', k);
    PledgedBefore(c, k);
    PledgedIdle(c', k);
  }

  /** A finish in whose replay no split moves the keyword, whatever has happened to its leaf before: what is pledged
      is kept if and only if the ring's owner and the target differ at most in identifiers that buffered operations
      of the keyword name. */
  lemma FinishKeepsIff(c: Cluster, summaries: seq<seq<Byte>>, c': Cluster, k: Keyword)
    requires Sane(c) && FinishAllStep(c, summaries, c') && c.run.value.parent <= k.Key() && Sane(Settled(c))
    requires Steady(Settled(c), Buffered(c), summaries, k)
    ensures Sane(c') && c.ring.OwnerOf(k.Key()) < |c.nodes| && RouteNode(c', k) == c.ring.OwnerOf(k.Key()) == c'.ring.OwnerOf(k.Key())
    ensures Pledged(c', k) == Pledged(c, k) <==>
      forall fid :: !Names(OpsFor(Buffered(c), k), fid) ==>
        (fid in Fids(c.nodes[c.ring.OwnerOf(k.Key())], k) <==> fid in Fids(c.nodes[TargetNode(c, k)], k))
  {
    FinishIsEnd(c, summaries, c', k);
    SteadyLands(Settled(c), Buffered(c), summaries, k);
    SteadyFindsIff(Settled(c), Buffered(c), summaries, k, Fids(c.nodes[TargetNode(c, k)], k));
  }

  /** A finish in whose replay a split moves the keyword after all its operations have landed at the target, or when it
      has none: what is pledged is kept if and only if the route still leads there, by an override or by the ring, or
      the storager it leads to holds just that. */
  lemma NestedSplitKeepsIff(c: Cluster, summaries: seq<seq<Byte>>, c': Cluster, k: Keyword)
    requires Sane(c) && FinishAllStep(c, summaries, c') && c.run.value.parent <= k.Key() && Sane(Settled(c))
    requires |summaries| == |Buffered(c)| && AllLandAt(Settled(c), Buffered(c), summaries, k, TargetNode(c, k))
    ensures Sane(c') && |c'.nodes| == |c.nodes|
    ensures Pledged(c', k) == Pledged(c, k) <==>
      RouteNode(c', k) == TargetNode(c, k) || Fids(c.nodes[RouteNode(c', k)], k) == Pledged(c, k)
  {
    FinishIsEnd(c, summaries, c', k);
    PledgedBefore(c, k);
    MovedFindsIff(Settled(c), Buffered(c), summaries, k, TargetNode(c, k));
    assert Settled(c).nodes == c.nodes;
  }

  // ----- a replay that stops

  /** Of a replay that stops, what was applied stays and the rest is lost to the keyword. */
  lemma StopDropsRest(c: Cluster, summaries: seq<seq<Byte>>, c': Cluster, k: Keyword)
    requires Sane(c) && StopReplayStep(c, summaries, c') && c.run.value.parent <= k.Key() && c.migrations[c.run.value.parent].moved
    requires Sane(Taken(c, c.run.value.parent).(run := None)) && c.ring.OwnerOf(k.Key()) == TargetNode(c, k)
    requires Steady(Taken(c, c.run.value.parent).(run := None), Buffered(c)[..|summaries|], summaries, k)
    ensures Sane(c') && ActiveIn(c'.migrations, c.run.value.parent, k)
    ensures Pledged(c', k) == ApplyAll(OpsFor(Buffered(c)[..|summaries|], k), Fids(c.nodes[TargetNode(c, k)], k))
  {
    var parent := c.run.value.parent;
    var base, ops := Taken(c, parent).(run := None), Buffered(c)[..|summaries|];
    StopReplaySane(c, summaries, c');
    StopReplayIsReplay(c, summaries, c');
    TakenRoute(c, k);
    SteadyLands(base, ops, summaries, k);
    LandedFids(base, ops, summaries, k, TargetNode(c, k));
    CoveredIff(c', parent, k);
    PledgedUnder(c', parent, k);
    assert OpsFor(c'.migrations[parent].pending, k) == [];
  }

  lemma TakenRoute(c: Cluster, k: Keyword)
    requires Sane(c) && c.run.Some? && c.run.value.parent <= k.Key() && Sane(Taken(c, c.run.value.parent).(run := None))
    ensures RouteNode(Taken(c, c.run.value.parent).(run := None), k) == c.ring.OwnerOf(k.Key())
  {
    var parent := c.run.value.parent;
    PlanHas16(c, parent);
    MatchIsStringPrefix(k, parent);
    RouteIsNamed(Taken(c, parent).(run := None), k);
  }

  lemma {:induction false} NothingLands(c: Cluster, ops: seq<Operation>, summaries: seq<seq<Byte>>, k: Keyword, n: nat)
    requires Sane(c) && c.run.None? && |summaries| == |ops| && OpsFor(ops, k) == []
    ensures Landed(c, ops, summaries, k, n) == []
    decreases |ops|
  {
    if ops != [] {
      FirstFor(ops, k);
      NothingLands(After(c, ops[0], summaries[0]), ops[1..], summaries[1..], k, n);
    }
  }

  lemma {:induction false} PrefixHasNone(ops: seq<Operation>, n: nat, k: Keyword)
    requires n <= |ops| && OpsFor(ops, k) == []
    ensures OpsFor(ops[..n], k) == []
    decreases |ops|
  {
    if n == |ops| {
      assert ops[..n] == ops;
    } else {
      assert ops[..|ops| - 1][..n] == ops[..n];
      PrefixHasNone(ops[..|ops| - 1], n, k);
    }
  }

  lemma ReplayWithoutOps(c: Cluster, ops: seq<Operation>, summaries: seq<seq<Byte>>, k: Keyword)
    requires Sane(c) && c.run.None? && |summaries| == |ops| && OpsFor(ops, k) == []
    ensures SameFids(c, End(c, ops, summaries), k)
  {
    forall n: nat | n < |c.nodes| ensures Fids(End(c, ops, summaries).nodes[n], k) == Fids(c.nodes[n], k) {
      NothingLands(c, ops, summaries, k, n);
      LandedFids(c, ops, summaries, k, n);
    }
  }

  lemma StopFids(c: Cluster, summaries: seq<seq<Byte>>, c': Cluster, k: Keyword)
    requires Sane(c) && StopReplayStep(c, summaries, c') && OpsFor(Buffered(c), k) == []
    ensures SameFids(c, c', k)
  {
    TakenSane(c);
    StopReplayIsReplay(c, summaries, c');
    PrefixHasNone(Buffered(c), |summaries|, k);
    ReplayWithoutOps(Taken(c, c.run.value.parent).(run := None), Buffered(c)[..|summaries|], summaries, k);
  }

  lemma StopTakes(c: Cluster, summaries: seq<seq<Byte>>, c': Cluster)
    requires c.ring.Valid() && StopReplayStep(c, summaries, c')
    ensures c'.migrations == c.migrations[c.run.value.parent := c.migrations[c.run.value.parent].(pending := [])]
  {
    ReplayAllKeepsMigrations(Taken(c, c.run.value.parent), c.migrations[c.run.value.parent].pending[..|summaries|], summaries);
  }

  lemma StopWithoutOps(c: Cluster, summaries: seq<seq<Byte>>, c': Cluster, k: Keyword)
    requires Sane(c) && Sane(c') && StopReplayStep(c, summaries, c') && c.run.value.parent <= k.Key()
    requires OpsFor(Buffered(c), k) == []
    ensures ActiveIn(c'.migrations, c.run.value.parent, k) && Pledged(c', k) == Pledged(c, k)
  {
    CoveredIff(c, c.run.value.parent, k);
    StopFids(c, summaries, c', k);
    StopTakes(c, summaries, c');
    UntouchedUnder(c, c', c.run.value.parent, k);
  }

  // ----- harmless steps

  /** The replay at the end of the keyword's migration sends it where the migration did, throughout. */
  ghost predicate StaysAtTarget(c: Cluster, summaries: seq<seq<Byte>>, k: Keyword)
    requires Sane(c) && c.run.Some? && |summaries| == |Buffered(c)|
  {
    SettledSane(c);
    c.ring.OwnerOf(k.Key()) == TargetNode(c, k) && Steady(Settled(c), Buffered(c), summaries, k)
  }

  /** A step that cannot harm the keyword: presplits that leave an idle keyword on its storager, finishes whose replay
      sends it nowhere else, and stopped replays with no operation of it. All other steps are harmless. */
  ghost predicate Harmless(c: Cluster, step: CodeStep, c': Cluster, k: Keyword)
    requires Sane(c) && Sane(c') && CodeNext(c, step, c')
  {
    match step
    case Take(_) => true
    case PresplitAny(_, _) => Idle(c.migrations, k) ==> c'.ring.OwnerOf(k.Key()) == c.ring.OwnerOf(k.Key())
    case FinishAll(summaries) => c.run.value.parent <= k.Key() ==> StaysAtTarget(c, summaries, k)
    case StopReplay(_) => c.run.value.parent <= k.Key() ==> OpsFor(Buffered(c), k) == []
  }

  /** What a step should make of the keyword. */
  ghost function Expected(c: Cluster, step: CodeStep, k: Keyword): set<string>
    requires Sane(c)
  {
    if IsClientOp(step, k) then ApplyToFids(step.step.op, Pledged(c, k)) else Pledged(c, k)
  }

  lemma TakeKeeps(c: Cluster, step: Step, c': Cluster, k: Keyword)
    requires Sane(c) && Sane(c') && Aligned(c, k) && CodeNext(c, Take(step), c')
    ensures Aligned(c', k) && Pledged(c', k) == Expected(c, Take(step), k)
  {
    if Idle(c.migrations, k) {
      StepIdle(c, step, c', k);
    } else {
      StepUnder(c, step, c', ActiveParent(c.migrations, k).value, k);
    }
  }

  lemma PresplitKeepsKeyword(c: Cluster, prefix: string, incoming: nat, c': Cluster, k: Keyword)
    requires Sane(c) && Sane(c') && Aligned(c, k) && CodeNext(c, PresplitAny(prefix, incoming), c')
    requires Harmless(c, PresplitAny(prefix, incoming), c', k)
    ensures Aligned(c', k) && Pledged(c', k) == Pledged(c, k)
  {
    if Idle(c.migrations, k) {
      IdleLeftAlone(c, c', k);
    } else {
      UntouchedUnder(c, c', ActiveParent(c.migrations, k).value, k);
    }
  }

  lemma FinishKeepsKeyword(c: Cluster, summaries: seq<seq<Byte>>, c': Cluster, k: Keyword)
    requires Sane(c) && Sane(c') && Aligned(c, k) && CodeNext(c, FinishAll(summaries), c')
    requires Harmless(c, FinishAll(summaries), c', k)
    ensures Aligned(c', k) && Pledged(c', k) == Pledged(c, k)
  {
    if c.run.value.parent <= k.Key() {
      SettledSane(c);
      FinishKeepsIff(c, summaries, c', k);
    } else {
      FinishedOutside(c, summaries, c', k);
      EndKeepsOthers(c, c', k);
    }
  }

  lemma StopKeepsKeyword(c: Cluster, summaries: seq<seq<Byte>>, c': Cluster, k: Keyword)
    requires Sane(c) && Sane(c') && Aligned(c, k) && CodeNext(c, StopReplay(summaries), c')
    requires Harmless(c, StopReplay(summaries), c', k)
    ensures Aligned(c', k) && Pledged(c', k) == Pledged(c, k)
  {
    if c.run.value.parent <= k.Key() {
      StopWithoutOps(c, summaries, c', k);
    } else {
      StoppedOutside(c, summaries, c', k);
      EndKeepsOthers(c, c', k);
    }
  }

  /** The end of another migration covers no keyword anew. */
  lemma IdleStaysIdle(c: Cluster, c': Cluster, k: Keyword)
    requires Sane(c) && Sane(c') && Idle(c.migrations, k) && c.run.Some? && !(c.run.value.parent <= k.Key())
    requires OthersStay(c, c', c.run.value.parent)
    ensures Idle(c'.migrations, k)
  {
    StillIdle(c, c', k);
  }

  lemma OtherStays(c: Cluster, c': Cluster, p: string, k: Keyword)
    requires Sane(c) && Sane(c') && c.run.Some? && !(c.run.value.parent <= k.Key()) && ActiveIn(c.migrations, p, k)
    requires SameFids(c, c', k) && OthersStay(c, c', c.run.value.parent)
    ensures ActiveIn(c'.migrations, p, k) && Pledged(c', k) == Pledged(c, k)
  {
    CoveredIff(c, p, k);
    UntouchedUnder(c, c', p, k);
  }

  lemma EndKeepsOthers(c: Cluster, c': Cluster, k: Keyword)
    requires Sane(c) && Sane(c') && Aligned(c, k) && c.run.Some? && !(c.run.value.parent <= k.Key())
    requires LeftAlone(c, c', k) && OthersStay(c, c', c.run.value.parent)
    ensures Aligned(c', k) && Pledged(c', k) == Pledged(c, k)
  {
    if Idle(c.migrations, k) {
      IdleStaysIdle(c, c', k);
      IdleLeftAlone(c, c', k);
    } else {
      OtherStays(c, c', ActiveParent(c.migrations, k).value, k);
    }
  }

  lemma HarmlessKeeps(c: Cluster, step: CodeStep, c': Cluster, k: Keyword)
    requires Sane(c) && Sane(c') && Aligned(c, k) && CodeNext(c, step, c') && Harmless(c, step, c', k)
    ensures Aligned(c', k) && Pledged(c', k) == Expected(c, step, k)
  {
    match step
    case Take(s) => TakeKeeps(c, s, c', k);
    case PresplitAny(prefix, incoming) => PresplitKeepsKeyword(c, prefix, incoming, c', k);
    case FinishAll(summaries) => FinishKeepsKeyword(c, summaries, c', k);
    case StopReplay(summaries) => StopKeepsKeyword(c, summaries, c', k);
  }

  // ----- runs

  /** The first `n` steps are harmless to the keyword. */
  ghost predicate HarmlessRun(trace: seq<Cluster>, steps: seq<CodeStep>, n: nat, k: Keyword)
    requires IsCodeRun(trace, steps) && n <= |steps|
  {
    forall i: nat :: i < n ==> HarmlessAt(trace, steps, i, k)
  }

  ghost predicate HarmlessAt(trace: seq<Cluster>, steps: seq<CodeStep>, i: nat, k: Keyword)
    requires IsCodeRun(trace, steps) && i < |steps|
  {
    CodeRunSane(trace, steps, i);
    CodeRunSane(trace, steps, i + 1);
    assert StepTaken(trace, steps, i);
    Harmless(trace[i], steps[i], trace[i + 1], k)
  }

  lemma OpsOneMore(steps: seq<CodeStep>, n: nat, k: Keyword)
    requires n < |steps|
    ensures ApplyAll(OpsFor(AcceptedOps(steps[..n + 1]), k), {}) ==
      var fids := ApplyAll(OpsFor(AcceptedOps(steps[..n]), k), {});
      if IsClientOp(steps[n], k) then ApplyToFids(steps[n].step.op, fids) else fids
  {
    var before := AcceptedOps(steps[..n]);
    assert steps[..n + 1][..n] == steps[..n];
    if steps[n].Take? && steps[n].step.Client? {
      BufferedContents(before, steps[n].step.op, k, {});
    } else {
      assert before + [] == before;
    }
  }

  lemma NothingAtFirst(c: Cluster, k: Keyword)
    requires Init(c)
    ensures Sane(c) && Aligned(c, k) && Pledged(c, k) == {}
  {
    assert Idle(c.migrations, k);
    RouteIsNamed(c, k);
    PledgedIdle(c, k);
  }

  lemma HarmlessStepKeeps(trace: seq<Cluster>, steps: seq<CodeStep>, i: nat, k: Keyword)
    requires IsCodeRun(trace, steps) && i < |steps| && HarmlessAt(trace, steps, i, k)
    requires Sane(trace[i]) && Aligned(trace[i], k)
    ensures Sane(trace[i + 1]) && Aligned(trace[i + 1], k) && Pledged(trace[i + 1], k) == Expected(trace[i], steps[i], k)
  {
    CodeRunSane(trace, steps, i + 1);
    assert StepTaken(trace, steps, i);
    HarmlessKeeps(trace[i], steps[i], trace[i + 1], k);
  }

  lemma OneMoreKept(trace: seq<Cluster>, steps: seq<CodeStep>, n: nat, k: Keyword)
    requires IsCodeRun(trace, steps) && 0 < n <= |steps| && HarmlessRun(trace, steps, n, k)
    requires Sane(trace[n - 1]) && Aligned(trace[n - 1], k)
    requires Pledged(trace[n - 1], k) == ApplyAll(OpsFor(AcceptedOps(steps[..n - 1]), k), {})
    ensures Sane(trace[n]) && Aligned(trace[n], k)
    ensures Pledged(trace[n], k) == ApplyAll(OpsFor(AcceptedOps(steps[..n]), k), {})
  {
    assert HarmlessAt(trace, steps, n - 1, k);
    HarmlessStepKeeps(trace, steps, n - 1, k);
    OpsOneMore(steps, n - 1, k);
  }

  /** In every run of the code, aborted migrations, stopped replays, nested splits and presplits included: as long as
      the steps are harmless to a keyword, what is pledged of it is what the accepted operations on it leave. */
  lemma {:induction false} KeptKeyword(trace: seq<Cluster>, steps: seq<CodeStep>, n: nat, k: Keyword)
    requires IsCodeRun(trace, steps) && n <= |steps| && HarmlessRun(trace, steps, n, k)
    ensures Sane(trace[n]) && Aligned(trace[n], k)
    ensures Pledged(trace[n], k) == ApplyAll(OpsFor(AcceptedOps(steps[..n]), k), {})
  {
    if n == 0 {
      NothingAtFirst(trace[0], k);
    } else {
      KeptKeyword(trace, steps, n - 1, k);
      OneMoreKept(trace, steps, n, k);
    }
  }

  // ----- migrations that nobody takes up again

  /** Pending, but neither queued nor running. */
  ghost predicate Stuck(c: Cluster, p: string) {
    && p in c.migrations && !c.migrations[p].confirmed && p !in c.queued
    && !(c.run.Some? && c.run.value.parent == p)
  }

  lemma ClientKeepsStuck(c: Cluster, op: Operation, summary: seq<Byte>, c': Cluster, p: string)
    requires Sane(c) && ClientStep(c, op, summary, c') && Stuck(c, p)
    ensures Stuck(c', p)
  {
    if Idle(c.migrations, op.keyword) {
      var route, ring, leaf := ClientStores(c, op, summary, c');
      if c' != Counted(c, op, route, ring) {
        NewParentIsNew(Counted(c, op, route, ring), leaf);
      }
    }
  }

  lemma TakeKeepsStuck(c: Cluster, step: Step, c': Cluster, p: string)
    requires Sane(c) && CodeNext(c, Take(step), c') && Stuck(c, p)
    ensures Stuck(c', p)
  {
    if step.Client? {
      ClientKeepsStuck(c, step.op, step.summary, c', p);
    } else if step.ConfirmChild? {
      ConfirmKeepsRun(c, c');
    }
  }

  lemma StepKeepsStuck(c: Cluster, step: CodeStep, c': Cluster, p: string)
    requires Sane(c) && CodeNext(c, step, c') && Stuck(c, p)
    ensures Stuck(c', p)
  {
    match step
    case Take(s) => TakeKeepsStuck(c, s, c', p);
    case PresplitAny(_, _) =>
    case FinishAll(summaries) => ReplayAllKeepsMigrations(Taken(c, c.run.value.parent), Buffered(c), summaries);
    case StopReplay(summaries) =>
      ReplayAllKeepsMigrations(Taken(c, c.run.value.parent), Buffered(c)[..|summaries|], summaries);
  }

  /** Giving a migration up, and stopping its replay, leave it stuck. */
  lemma GivenUpIsStuck(c: Cluster, step: CodeStep, c': Cluster)
    requires Sane(c) && c.run.Some? && CodeNext(c, step, c') && (step.StopReplay? || (step.Take? && step.step.AbortMigration?))
    ensures Stuck(c', c.run.value.parent)
  {
    if step.StopReplay? {
      StopTakes(c, step.summaries, c');
      ReplayAllKeepsMigrations(Taken(c, c.run.value.parent), Buffered(c)[..|step.summaries|], step.summaries);
    }
  }

  lemma {:induction false} StaysStuck(trace: seq<Cluster>, steps: seq<CodeStep>, m: nat, n: nat, p: string)
    requires IsCodeRun(trace, steps) && m <= n <= |steps| && Stuck(trace[m], p)
    ensures Stuck(trace[n], p)
    decreases n
  {
    if m < n {
      StaysStuck(trace, steps, m, n - 1, p);
      OneMoreStuck(trace, steps, n, p);
    }
  }

  lemma OneMoreStuck(trace: seq<Cluster>, steps: seq<CodeStep>, n: nat, p: string)
    requires IsCodeRun(trace, steps) && 0 < n <= |steps| && Stuck(trace[n - 1], p)
    ensures Stuck(trace[n], p)
  {
    CodeRunSane(trace, steps, n - 1);
    assert StepTaken(trace, steps, n - 1);
    StepKeepsStuck(trace[n - 1], steps[n - 1], trace[n], p);
  }

  /** A migration that has been given up, or whose replay has stopped, stays pending in the rest of the run: keywords under
      its prefix are covered for good, so that writes on them are buffered and reads go to the source. */
  lemma StuckForGood(trace: seq<Cluster>, steps: seq<CodeStep>, m: nat, n: nat, p: string, k: Keyword)
    requires IsCodeRun(trace, steps) && m <= n <= |steps| && Stuck(trace[m], p) && p <= k.Key()
    ensures Stuck(trace[n], p) && ActiveIn(trace[n].migrations, p, k)
  {
    StaysStuck(trace, steps, m, n, p);
    CodeRunSane(trace, steps, n);
    CoveredIff(trace[n], p, k);
  }
}
