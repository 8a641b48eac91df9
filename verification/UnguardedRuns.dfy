/** The theorems about what the code does beyond the guarded machine: which keywords a presplit, a split during a replay
    or both together strand, over every run of the unguarded machine; and a run in which it happens. */
module UnguardedRuns {
  import opened Wrappers
  import opened Hex
  import opened Ring
  import opened Routing
  import opened AccTree
  import opened Presplit
  import opened Migration
  import opened MigrationInvariant
  import opened MigrationClient
  import opened MigrationServer
  import opened MigrationTheorems
  import opened MigrationPlacement
  import opened MigrationReads
  import opened PresplitRecords
  import opened MigrationProgress
  import opened Unguarded
  import opened ReplayReads
  import opened ReplaySplits
  import opened UnguardedReads
  import opened UnguardedKeywords
  import opened UnguardedPlacement

  // ----- the guarded machine is part of the unguarded one

  /** A migration's overrides name its source, so what the guarded machine keeps is sane. */
  lemma InvIsSane(c: Cluster)
    requires Inv(c) && SourceOverrides(c.migrations, c.overrides)
    ensures Sane(c)
  {
    forall p | p in c.migrations ensures PlanStands(c.ring, |c.nodes|, c.migrations[p], p) {
      assert MigrationOk(c.ring, |c.nodes|, c.migrations[p], p);
    }
    InvIsApart(c);
    forall k | k in c.overrides ensures Named(c.ring, k, c.overrides[k]) {
      if Idle(c.migrations, k) {
        LookupIsNamed(c.ring, k);
      } else {
        var p := ActiveParent(c.migrations, k).value;
        SourceIsNamed(c, p, k);
      }
    }
  }

  lemma SourceIsNamed(c: Cluster, p: string, k: Keyword)
    requires Inv(c) && ActiveIn(c.migrations, p, k)
    ensures Named(c.ring, k, c.migrations[p].plan.source)
  {
    ActiveRoute(c.ring, |c.nodes|, c.migrations, p, k);
    assert MigrationOk(c.ring, |c.nodes|, c.migrations[p], p);
    assert NamesEntry(c.ring, c.migrations[p].plan.source, c.migrations[p].entry);
  }

  lemma InvIsApart(c: Cluster)
    requires Inv(c)
    ensures Apart(c.migrations)
  {
    forall p, q | p in c.migrations && q in c.migrations && !c.migrations[p].confirmed && !c.migrations[q].confirmed && p <= q
      ensures p == q
    {
      assert MigrationOk(c.ring, |c.nodes|, c.migrations[p], p) && MigrationOk(c.ring, |c.nodes|, c.migrations[q], q);
      var k := Keyword("", DigestOf(q));
      KeyOfDigest("", q);
      CoversIsUnder(c.migrations[p], p, |c.nodes|, k);
      CoversIsUnder(c.migrations[q], q, |c.nodes|, k);
      ActiveIsUnique(c.ring, |c.nodes|, c.migrations, p, q, k);
    }
  }

  /** On what the guarded machine reaches without aborts, what is pledged is the keyword's contents, in one place. */
  lemma CleanIsInPlace(c: Cluster, k: Keyword)
    requires CleanInv(c) && SourceOverrides(c.migrations, c.overrides)
    ensures InPlace(c, k) && Pledged(c, k) == Contents(c, k)
  {
    InvIsSane(c);
    HomeInRange(c.ring, |c.nodes|, c.migrations, k);
    HolderIsHome(c, k);
    PlacedIsThere(c, k);
  }

  lemma HolderIsHome(c: Cluster, k: Keyword)
    requires Inv(c) && Sane(c)
    ensures Holder(c, k) == Home(c.ring, c.migrations, k) && Aligned(c, k)
  {
    if Idle(c.migrations, k) {
      RouteOfIdle(c, k);
      LookupIsNamed(c.ring, k);
    } else {
      ActiveRoute(c.ring, |c.nodes|, c.migrations, ActiveParent(c.migrations, k).value, k);
    }
  }

  lemma PlacedIsThere(c: Cluster, k: Keyword)
    requires Inv(c) && AllPlaced(c) && Sane(c) && Holder(c, k) == Home(c.ring, c.migrations, k)
    ensures OnlyThere(c, k)
  {
    forall n: nat | n < |c.nodes| && Fids(c.nodes[n], k) != {} ensures n == Holder(c, k) || CopyAt(c, k, n) {
      var fid :| fid in Fids(c.nodes[n], k);
      assert Placed(c, n, Record(k, fid).keyword);
      if n != Holder(c, k) {
        CoveredIff(c, c.run.value.parent, k);
        ActiveRoute(c.ring, |c.nodes|, c.migrations, c.run.value.parent, k);
      }
    }
  }

  lemma CodeStepOf(c: Cluster, step: Step, c': Cluster) returns (s: CodeStep)
    requires c.ring.Valid() && Next(c, step, c')
    ensures CodeNext(c, s, c') && Matches(step, s)
  {
    match step
    case FinishMigration(summary) =>
      GuardedFinish(c, summary, c');
      var n := |c.migrations[c.run.value.parent].pending|;
      s := FinishAll(seq(n, i requires 0 <= i < n => summary));
    case PresplitPrefix(prefix, incoming) => s := PresplitAny(prefix, incoming);
    case _ => s := Take(step);
  }

  lemma RunBefore(trace: seq<Cluster>, steps: seq<Step>)
    requires IsRun(trace, steps) && steps != []
    ensures IsRun(trace[..|steps|], steps[..|steps| - 1])
    ensures trace[|steps| - 1].ring.Valid() && Next(trace[|steps| - 1], steps[|steps| - 1], trace[|steps|])
  {
    var n := |steps| - 1;
    var trace', steps' := trace[..n + 1], steps[..n];
    forall i | 0 <= i < n ensures trace'[i].ring.Valid() && Next(trace'[i], steps'[i], trace'[i + 1]) {
      assert trace'[i] == trace[i] && trace'[i + 1] == trace[i + 1] && steps'[i] == steps[i];
    }
  }

  /** The steps correspond one by one. */
  ghost predicate Matches(step: Step, s: CodeStep) {
    && (IsAbort(s) <==> step.AbortMigration?)
    && if step.Client? then s == Take(step) else !(s.Take? && s.step.Client?)
  }

  ghost predicate AllMatch(steps: seq<Step>, code: seq<CodeStep>) {
    |code| == |steps| && forall i :: 0 <= i < |steps| ==> Matches(steps[i], code[i])
  }

  lemma {:induction false} MatchingAccept(steps: seq<Step>, code: seq<CodeStep>)
    requires AllMatch(steps, code)
    ensures AcceptedOps(code) == Accepted(steps)
  {
    if steps != [] {
      var n := |steps| - 1;
      MatchingAccept(steps[..n], code[..n]);
      assert Matches(steps[n], code[n]);
    }
  }

  /** Every run of the guarded machine is a run of the code, with the same operations accepted. */
  lemma {:induction false} GuardedRunIsCodeRun(trace: seq<Cluster>, steps: seq<Step>) returns (code: seq<CodeStep>)
    requires IsRun(trace, steps)
    ensures IsCodeRun(trace, code) && AllMatch(steps, code) && AcceptedOps(code) == Accepted(steps)
    decreases |steps|
  {
    if steps == [] {
      code := [];
    } else {
      var n := |steps| - 1;
      RunBefore(trace, steps);
      var before := GuardedRunIsCodeRun(trace[..n + 1], steps[..n]);
      var s := CodeStepOf(trace[n], steps[n], trace[n + 1]);
      code := before + [s];
      CodeRunOnce(trace[..n + 1], before, s, trace[n + 1]);
      assert trace[..n + 1] + [trace[n + 1]] == trace;
      OneMoreMatches(steps, before, s);
      MatchingAccept(steps, code);
    }
  }

  lemma OneMoreMatches(steps: seq<Step>, before: seq<CodeStep>, s: CodeStep)
    requires steps != [] && AllMatch(steps[..|steps| - 1], before) && Matches(steps[|steps| - 1], s)
    ensures AllMatch(steps, before + [s])
  {
    forall i | 0 <= i < |steps| ensures Matches(steps[i], (before + [s])[i]) {
      if i < |before| {
        assert steps[..|steps| - 1][i] == steps[i];
      }
    }
  }

  lemma CodeRunOnce(trace: seq<Cluster>, steps: seq<CodeStep>, step: CodeStep, c': Cluster)
    requires IsCodeRun(trace, steps) && trace[|steps|].ring.Valid() && CodeNext(trace[|steps|], step, c')
    ensures IsCodeRun(trace + [c'], steps + [step])
  {
    var trace', steps' := trace + [c'], steps + [step];
    forall i: nat | i < |steps'| ensures StepTaken(trace', steps', i) {
      if i < |steps| {
        assert StepTaken(trace, steps, i);
        assert trace'[i] == trace[i] && trace'[i + 1] == trace[i + 1] && steps'[i] == steps[i];
      }
    }
  }

  // ----- when a finish meets no nested split

  lemma BufferedByRing(c: Cluster)
    requires Sane(c) && c.run.Some? && Sane(Settled(c))
    ensures RoutedByRing(Settled(c), Buffered(c))
  {
    var parent := c.run.value.parent;
    assert PlanStands(c.ring, |c.nodes|, c.migrations[parent], parent);
    forall j | 0 <= j < |Buffered(c)|
      ensures RouteKeyword(Settled(c), Buffered(c)[j].keyword) == RingLookup(Settled(c).ring, Buffered(c)[j].keyword)
    {
      SettledRoute(c, Buffered(c)[j].keyword);
    }
  }

  lemma {:induction false} ReplayIffNoSplits(c: Cluster, ops: seq<Operation>, summary: seq<Byte>, summaries: seq<seq<Byte>>)
    requires Sane(c) && c.run.None? && |summaries| == |ops| && forall i :: 0 <= i < |summaries| ==> summaries[i] == summary
    ensures Replay(c, ops, summary).Some? <==> NoSplits(c, ops, summaries)
    decreases |ops|
  {
    if ops != [] {
      StoreSane(c, ops[0], summaries[0]);
      ReplayIffNoSplits(After(c, ops[0], summaries[0]), ops[1..], summary, summaries[1..]);
    }
  }

  /** The guarded machine can finish a migration, that is, its replay meets no nested split, if and only if every
      buffered add leaves the counter of its child within the threshold, counting the buffered operations in order. */
  lemma FinishIsGuardedIff(c: Cluster, summary: seq<Byte>)
    requires Inv(c) && SourceOverrides(c.migrations, c.overrides) && ReadyToReplay(c)
    ensures (exists c' :: FinishStep(c, summary, c')) <==> AllFit(c.ring, c.migrations[c.run.value.parent].pending)
  {
    var parent, s := c.run.value.parent, Settled(c);
    var pending := c.migrations[parent].pending;
    var cleared := c.(overrides := DropOverridesUnder(c.overrides, parent));
    var summaries := seq(|pending|, i requires 0 <= i < |pending| => summary);
    InvIsSane(c);
    SettledSane(c);
    BufferedByRing(c);
    NoSplitsIff(s, pending, summaries);
    ReplayIffNoSplits(s, pending, summary, summaries);
    ReplayIgnoresMigrations(cleared, pending, summary, s.migrations, None);
    assert cleared.(migrations := s.migrations, run := None) == s;
    FinishIffReplay(c, summary);
  }

  lemma FinishIffReplay(c: Cluster, summary: seq<Byte>)
    requires c.ring.Valid() && ReadyToReplay(c)
    ensures
      var parent := c.run.value.parent;
      var cleared := c.(overrides := DropOverridesUnder(c.overrides, parent));
      (exists c' :: FinishStep(c, summary, c')) <==> Replay(cleared, c.migrations[parent].pending, summary).Some?
  {
    var parent, m := c.run.value.parent, c.migrations[c.run.value.parent];
    var replayed := Replay(c.(overrides := DropOverridesUnder(c.overrides, parent)), m.pending, summary);
    if replayed.Some? {
      assert FinishStep(c, summary, replayed.value.(
        migrations := replayed.value.migrations[parent := m.(confirmed := true, pending := [])], run := None));
    }
  }

  /** The same test before any finish of the code: then no split of the replay moves any keyword. */
  lemma FitIsSteady(c: Cluster, summaries: seq<seq<Byte>>, k: Keyword)
    requires Sane(c) && c.run.Some? && |summaries| == |Buffered(c)| && Sane(Settled(c)) && AllFit(c.ring, Buffered(c))
    ensures Steady(Settled(c), Buffered(c), summaries, k)
  {
    BufferedByRing(c);
    NoSplitsIff(Settled(c), Buffered(c), summaries);
    NoSplitsIsSteady(Settled(c), Buffered(c), summaries, k);
  }

  // ----- what reads find

  lemma IdleReadFinds(c: Cluster, k: Keyword, fids: set<string>)
    requires Sane(c) && Idle(c.migrations, k)
    ensures ReadFinds(c, k, fids) <==> Fids(c.nodes[RouteNode(c, k)], k) == fids
  {
    RouteIsNamed(c, k);
  }

  ghost function AcceptedFids(steps: seq<CodeStep>, n: nat, k: Keyword): set<string>
    requires n <= |steps|
  {
    ApplyAll(OpsFor(AcceptedOps(steps[..n]), k), {})
  }

  /** Step `n` of the run, from `c` to `c'`, finishes the keyword's migration, and no step before has harmed the keyword. */
  ghost predicate AtFinish(
      trace: seq<Cluster>, steps: seq<CodeStep>, n: nat, k: Keyword, c: Cluster, summaries: seq<seq<Byte>>, c': Cluster)
  {
    && IsCodeRun(trace, steps) && n < |steps| && HarmlessRun(trace, steps, n, k) && NoAborts(steps, n)
    && c == trace[n] && steps[n] == FinishAll(summaries) && c' == trace[n + 1]
    && c.run.Some? && c.run.value.parent <= k.Key()
  }

  /** The finish of a migration of a keyword that nothing has harmed. */
  ghost predicate Finishes(c: Cluster, summaries: seq<seq<Byte>>, c': Cluster, k: Keyword) {
    InPlace(c, k) && FinishAllStep(c, summaries, c') && c.run.value.parent <= k.Key() && Sane(c') && Sane(Settled(c))
  }

  lemma ComesToFinish(
      trace: seq<Cluster>, steps: seq<CodeStep>, n: nat, k: Keyword, c: Cluster, summaries: seq<seq<Byte>>, c': Cluster)
    requires AtFinish(trace, steps, n, k, c, summaries, c')
    ensures Finishes(c, summaries, c', k) && Pledged(c, k) == AcceptedFids(steps, n, k)
  {
    KeptInOnePlace(trace, steps, n, k);
    KeptKeyword(trace, steps, n, k);
    CodeRunSane(trace, steps, n + 1);
    assert StepTaken(trace, steps, n);
    SettledSane(c);
  }

  /** What a read finds after a finish. */
  lemma FinishReads(c: Cluster, summaries: seq<seq<Byte>>, c': Cluster, k: Keyword)
    requires Finishes(c, summaries, c', k)
    ensures |summaries| == |Buffered(c)| && |c'.nodes| == |c.nodes| && c' == End(Settled(c), Buffered(c), summaries)
    ensures ReadFinds(c', k, Pledged(c, k)) <==> Pledged(c', k) == Pledged(c, k)
    ensures ReadFinds(c', k, Pledged(c, k)) <==>
      ReplayFinds(Settled(c), Buffered(c), summaries, k, Fids(c.nodes[TargetNode(c, k)], k))
  {
    FinishIsEnd(c, summaries, c', k);
    IdleReadFinds(c', k, Pledged(c, k));
    PledgedIdle(c', k);
  }

  /** In general: after the finish reads find what was accepted if and only if, identifier by identifier, what the
      replay sent to the storager read now, on top of what that held, says what all buffered operations say on top of
      the target's records. */
  lemma FinishFindsIff(
      trace: seq<Cluster>, steps: seq<CodeStep>, n: nat, k: Keyword, c: Cluster, summaries: seq<seq<Byte>>, c': Cluster)
    requires AtFinish(trace, steps, n, k, c, summaries, c')
    ensures Sane(c) && Sane(c') && Sane(Settled(c)) && |summaries| == |Buffered(c)| && |c'.nodes| == |c.nodes|
    ensures
      var last := RouteNode(c', k);
      ReadFinds(c', k, AcceptedFids(steps, n, k)) <==>
        AgreeOnAll(Landed(Settled(c), Buffered(c), summaries, k, last), Fids(c.nodes[last], k),
          OpsFor(Buffered(c), k), Fids(c.nodes[TargetNode(c, k)], k))
  {
    ComesToFinish(trace, steps, n, k, c, summaries, c');
    FinishReads(c, summaries, c', k);
    ReplayFindsIff(Settled(c), Buffered(c), summaries, k, Fids(c.nodes[TargetNode(c, k)], k));
  }

  /** All identifiers the target holds of the keyword are named by operations buffered for it. */
  ghost predicate AllNamed(c: Cluster, k: Keyword)
    requires Sane(c) && c.run.Some?
  {
    forall fid :: fid in Fids(c.nodes[TargetNode(c, k)], k) ==> Names(OpsFor(Buffered(c), k), fid)
  }

  lemma SteadyFinish(c: Cluster, summaries: seq<seq<Byte>>, c': Cluster, k: Keyword)
    requires Finishes(c, summaries, c', k) && |summaries| == |Buffered(c)| && Steady(Settled(c), Buffered(c), summaries, k)
    ensures ReadFinds(c', k, Pledged(c, k)) <==> c.ring.OwnerOf(k.Key()) == TargetNode(c, k) || AllNamed(c, k)
  {
    FinishReads(c, summaries, c', k);
    FinishKeepsIff(c, summaries, c', k);
    if c.ring.OwnerOf(k.Key()) != TargetNode(c, k) {
      OnlyAtTarget(c, k, c.ring.OwnerOf(k.Key()));
    }
  }

  /** If no split of the replay moves the keyword: reads find what was accepted if and only if the ring still sends the
      keyword where the migration took it, or every identifier there is named by a buffered operation. */
  lemma SteadyFinishFindsIff(
      trace: seq<Cluster>, steps: seq<CodeStep>, n: nat, k: Keyword, c: Cluster, summaries: seq<seq<Byte>>, c': Cluster)
    requires AtFinish(trace, steps, n, k, c, summaries, c') && Sane(c) && Sane(Settled(c)) && |summaries| == |Buffered(c)|
    requires Steady(Settled(c), Buffered(c), summaries, k)
    ensures Sane(c')
    ensures ReadFinds(c', k, AcceptedFids(steps, n, k)) <==> c.ring.OwnerOf(k.Key()) == TargetNode(c, k) || AllNamed(c, k)
  {
    ComesToFinish(trace, steps, n, k, c, summaries, c');
    SteadyFinish(c, summaries, c', k);
  }

  /** The route after the replay, if all operations on the keyword landed at the target. */
  lemma RouteAfterwards(c: Cluster, summaries: seq<seq<Byte>>, c': Cluster, k: Keyword)
    requires Finishes(c, summaries, c', k) && |summaries| == |Buffered(c)|
    requires AllLandAt(Settled(c), Buffered(c), summaries, k, TargetNode(c, k))
    ensures RouteNode(c', k) == if k in c'.overrides then TargetNode(c, k) else c'.ring.OwnerOf(k.Key())
  {
    FinishIsEnd(c, summaries, c', k);
    SettledRoute(c, k);
    OverrideLands(Settled(c), Buffered(c), summaries, k, TargetNode(c, k));
    RouteIsNamed(c', k);
  }

  lemma NestedFinish(c: Cluster, summaries: seq<seq<Byte>>, c': Cluster, k: Keyword)
    requires Finishes(c, summaries, c', k) && |summaries| == |Buffered(c)|
    requires AllLandAt(Settled(c), Buffered(c), summaries, k, TargetNode(c, k))
    ensures ReadFinds(c', k, Pledged(c, k)) <==> RouteNode(c', k) == TargetNode(c, k) || Pledged(c, k) == {}
  {
    FinishReads(c, summaries, c', k);
    NestedSplitKeepsIff(c, summaries, c', k);
    if RouteNode(c', k) != TargetNode(c, k) {
      OnlyAtTarget(c, k, RouteNode(c', k));
    }
  }

  /** If all operations buffered for the keyword land where the migration took it, and a split of the replay then moves
      its leaf: reads find what was accepted if and only if an override is left, or the ring sends the keyword there
      after all, or nothing was to be found. */
  lemma NestedSplitStrandsIff(
      trace: seq<Cluster>, steps: seq<CodeStep>, n: nat, k: Keyword, c: Cluster, summaries: seq<seq<Byte>>, c': Cluster)
    requires AtFinish(trace, steps, n, k, c, summaries, c') && Sane(c) && Sane(Settled(c)) && |summaries| == |Buffered(c)|
    requires AllLandAt(Settled(c), Buffered(c), summaries, k, TargetNode(c, k))
    ensures Sane(c')
    ensures ReadFinds(c', k, AcceptedFids(steps, n, k)) <==>
      k in c'.overrides || c'.ring.OwnerOf(k.Key()) == TargetNode(c, k) || AcceptedFids(steps, n, k) == {}
  {
    ComesToFinish(trace, steps, n, k, c, summaries, c');
    NestedFinish(c, summaries, c', k);
    RouteAfterwards(c, summaries, c', k);
  }

  lemma {:induction false} LandedAtMost(c: Cluster, ops: seq<Operation>, summaries: seq<seq<Byte>>, k: Keyword, n: nat)
    requires Sane(c) && c.run.None? && |summaries| == |ops|
    ensures |Landed(c, ops, summaries, k, n)| <= |OpsFor(ops, k)|
    decreases |ops|
  {
    if ops != [] {
      FirstFor(ops, k);
      LandedAtMost(After(c, ops[0], summaries[0]), ops[1..], summaries[1..], k, n);
    }
  }

  lemma SameHeads(op: Operation, mine: bool, here: bool, rest: seq<Operation>, ops: seq<Operation>)
    requires (if mine && here then [op] else []) + rest == (if mine then [op] else []) + ops && |rest| <= |ops|
    ensures (mine ==> here) && rest == ops
  {
    var head, head' := if mine && here then [op] else [], if mine then [op] else [];
    assert |head + rest| == |head| + |rest| && |head' + ops| == |head'| + |ops|;
    assert (head + rest)[|head|..] == rest && (head' + ops)[|head'|..] == ops;
  }

  /** If every operation on the keyword lands at `n`, so does the first, and so do the rest. */
  lemma FirstLands(c: Cluster, ops: seq<Operation>, summaries: seq<seq<Byte>>, k: Keyword, n: nat)
    requires Sane(c) && c.run.None? && |summaries| == |ops| && ops != [] && AllLandAt(c, ops, summaries, k, n)
    ensures ops[0].keyword == k ==> RouteNode(c, k) == n
    ensures AllLandAt(After(c, ops[0], summaries[0]), ops[1..], summaries[1..], k, n)
  {
    FirstFor(ops, k);
    LandedAtMost(After(c, ops[0], summaries[0]), ops[1..], summaries[1..], k, n);
    SameHeads(ops[0], ops[0].keyword == k, RouteNode(c, k) == n,
      Landed(After(c, ops[0], summaries[0]), ops[1..], summaries[1..], k, n), OpsFor(ops[1..], k));
  }

  lemma {:induction false} OverrideLands(c: Cluster, ops: seq<Operation>, summaries: seq<seq<Byte>>, k: Keyword, n: nat)
    requires Sane(c) && c.run.None? && |summaries| == |ops| && AllLandAt(c, ops, summaries, k, n)
    requires k in c.overrides ==> c.overrides[k].node == n
    ensures k in End(c, ops, summaries).overrides ==> End(c, ops, summaries).overrides[k].node == n
    decreases |ops|
  {
    if ops != [] {
      FirstLands(c, ops, summaries, k, n);
      EndStep(c, ops, summaries);
      StoreSane(c, ops[0], summaries[0]);
      OverrideLands(After(c, ops[0], summaries[0]), ops[1..], summaries[1..], k, n);
    }
  }

  // ----- a presplit while the keyword's migration runs

  /** A split of another keyword's leaf by a client's insert leaves the owner of a covered keyword. */
  lemma ClientKeepsOwner(c: Cluster, op: Operation, summary: seq<Byte>, c': Cluster, p: string, k: Keyword)
    requires Sane(c) && Sane(c') && ClientStep(c, op, summary, c') && ActiveIn(c.migrations, p, k)
    ensures c'.ring.OwnerOf(k.Key()) == c.ring.OwnerOf(k.Key())
  {
    if Idle(c.migrations, op.keyword) {
      var route, ring, leaf := ClientStores(c, op, summary, c');
      c.ring.SameShapeKeepsRoutes(ring, k.Key());
      if c' != Counted(c, op, route, ring) {
        NewParentIsNew(Counted(c, op, route, ring), leaf);
        NotTheLeafOf(Counted(c, op, route, ring), leaf, op.keyword, p, k);
        ring.SplitIsLocal(leaf, k.Key());
      }
    }
  }

  lemma NotTheLeafOf(c: Cluster, leaf: nat, other: Keyword, p: string, k: Keyword)
    requires Sane(c) && c.ring.CanSplit(leaf) && c.ring.LeafOf(other.Key()) == leaf && Idle(c.migrations, other)
    requires ActiveIn(c.migrations, p, k)
    ensures !(c.ring.entries[leaf].prefix <= k.Key())
  {
    CoveredIff(c, p, k);
    NewParentIsApart(c, leaf, other, p);
  }

  /** While a migration covers the keyword, only presplits change where the ring sends it. */
  lemma StepKeepsOwner(c: Cluster, step: CodeStep, c': Cluster, p: string, k: Keyword)
    requires Sane(c) && Sane(c') && CodeNext(c, step, c') && ActiveIn(c.migrations, p, k) && !step.PresplitAny?
    requires step.FinishAll? || step.StopReplay? ==> !(c.run.value.parent <= k.Key())
    ensures ActiveIn(c'.migrations, p, k) && c'.ring.OwnerOf(k.Key()) == c.ring.OwnerOf(k.Key())
  {
    match step
    case Take(s) =>
      StepUnder(c, s, c', p, k);
      TakeKeepsOwner(c, s, c', p, k);
    case FinishAll(summaries) =>
      FinishedOutside(c, summaries, c', k);
      CoveredIff(c, p, k);
      OtherStays(c, c', p, k);
    case StopReplay(summaries) =>
      StoppedOutside(c, summaries, c', k);
      CoveredIff(c, p, k);
      OtherStays(c, c', p, k);
  }

  lemma TakeKeepsPlan(c: Cluster, step: Step, c': Cluster, p: string)
    requires Sane(c) && CodeNext(c, Take(step), c') && p in c.migrations && p in c'.migrations
    ensures c'.migrations[p].plan == c.migrations[p].plan
  {
    if step.Client? {
      ClientRetained(c, step.op, step.summary, c');
    } else if step.ConfirmChild? {
      ConfirmKeepsRun(c, c');
    }
  }

  lemma StepKeepsPlan(c: Cluster, step: CodeStep, c': Cluster, p: string)
    requires Sane(c) && CodeNext(c, step, c') && p in c.migrations && p in c'.migrations
    ensures c'.migrations[p].plan == c.migrations[p].plan
  {
    match step
    case Take(s) => TakeKeepsPlan(c, s, c', p);
    case PresplitAny(_, _) =>
    case FinishAll(_) =>
    case StopReplay(summaries) => StopTakes(c, summaries, c');
  }

  lemma TakeKeepsOwner(c: Cluster, step: Step, c': Cluster, p: string, k: Keyword)
    requires Sane(c) && Sane(c') && CodeNext(c, Take(step), c') && ActiveIn(c.migrations, p, k)
    ensures c'.ring.OwnerOf(k.Key()) == c.ring.OwnerOf(k.Key())
  {
    match step
    case Client(op, summary) => ClientKeepsOwner(c, op, summary, c', p, k);
    case UpdateSummary(prefix, summary) =>
      c.ring.UpdateSummaryKeepsShape(prefix, summary);
      c.ring.SameShapeKeepsRoutes(c'.ring, k.Key());
    case _ =>
  }

  /** A step that neither presplits nor replays the keyword's migration. */
  ghost predicate IsBetween(c: Cluster, step: CodeStep, k: Keyword) {
    && !step.PresplitAny?
    && (step.FinishAll? || step.StopReplay? ==> c.run.Some? && !(c.run.value.parent <= k.Key()))
  }

  ghost predicate BetweenSteps(trace: seq<Cluster>, steps: seq<CodeStep>, m: nat, n: nat, k: Keyword)
    requires IsCodeRun(trace, steps) && m <= n <= |steps|
  {
    forall i: nat :: m <= i < n ==> IsBetween(trace[i], steps[i], k)
  }

  /** What stays of a covered keyword: its migration, the plan and the owner. */
  ghost predicate OwnerKept(c: Cluster, c': Cluster, p: string, k: Keyword) {
    && c.ring.Forest() && c'.ring.Forest()
    && ActiveIn(c.migrations, p, k) && ActiveIn(c'.migrations, p, k)
    && c'.migrations[p].plan == c.migrations[p].plan && c'.ring.OwnerOf(k.Key()) == c.ring.OwnerOf(k.Key())
  }

  lemma OneStepKeepsOwner(c: Cluster, step: CodeStep, c': Cluster, p: string, k: Keyword)
    requires Sane(c) && Sane(c') && CodeNext(c, step, c') && IsBetween(c, step, k) && ActiveIn(c.migrations, p, k)
    ensures OwnerKept(c, c', p, k)
  {
    StepKeepsOwner(c, step, c', p, k);
    StepKeepsPlan(c, step, c', p);
  }

  lemma KeptTwice(a: Cluster, b: Cluster, c: Cluster, p: string, k: Keyword)
    requires OwnerKept(a, b, p, k) && OwnerKept(b, c, p, k)
    ensures OwnerKept(a, c, p, k)
  {}

  /** One step of the run, after the presplit and before the finish. */
  lemma BetweenKeepsOwner(trace: seq<Cluster>, steps: seq<CodeStep>, n: nat, p: string, k: Keyword, b: Cluster, c: Cluster)
    requires IsCodeRun(trace, steps) && n < |steps| && b == trace[n] && c == trace[n + 1] && IsBetween(b, steps[n], k)
    requires ActiveIn(b.migrations, p, k)
    ensures OwnerKept(b, c, p, k)
  {
    CodeRunSane(trace, steps, n);
    CodeRunSane(trace, steps, n + 1);
    assert StepTaken(trace, steps, n);
    OneStepKeepsOwner(b, steps[n], c, p, k);
  }

  lemma {:induction false} OwnerStays(
      trace: seq<Cluster>, steps: seq<CodeStep>, m: nat, n: nat, p: string, k: Keyword, a: Cluster, b: Cluster)
    requires IsCodeRun(trace, steps) && m <= n <= |steps| && BetweenSteps(trace, steps, m, n, k)
    requires a == trace[m] && b == trace[n] && a.ring.Forest() && ActiveIn(a.migrations, p, k)
    ensures OwnerKept(a, b, p, k)
    decreases n
  {
    if m < n {
      var previous := trace[n - 1];
      OwnerStays(trace, steps, m, n - 1, p, k, a, previous);
      assert IsBetween(trace[n - 1], steps[n - 1], k);
      BetweenKeepsOwner(trace, steps, n - 1, p, k, previous, b);
      KeptTwice(a, previous, b, p, k);
    }
  }

  /** The ring sends the keyword where its pending migration takes it. */
  ghost predicate RingAgrees(c: Cluster, p: string, k: Keyword)
    requires Sane(c)
  {
    && ActiveIn(c.migrations, p, k) && |c.migrations[p].plan.children| == 16
    && c.ring.OwnerOf(k.Key()) == c.migrations[p].plan.children[DigitAt(k.Key(), |p|)].node
  }

  /** A presplit of the keyword's leaf decides whether the ring still agrees with the migration. */
  lemma PresplitDisagreesIff(c: Cluster, prefix: string, incoming: nat, c': Cluster, p: string, k: Keyword)
    requires Sane(c) && Sane(c') && CodeNext(c, PresplitAny(prefix, incoming), c') && RingAgrees(c, p, k)
    requires Eligible(c.ring, prefix, incoming) && Canonical(Capped(prefix)) <= k.Key()
    ensures ActiveIn(c'.migrations, p, k) && |c.nodes| > 0
    ensures RingAgrees(c', p, k) <==> DigitAt(k.Key(), |Canonical(Capped(prefix))|) % |c.nodes| == 0
  {
    PresplitRoute(c.ring, prefix, incoming, k);
  }

  lemma StillAgreesIff(c: Cluster, c': Cluster, p: string, k: Keyword)
    requires Sane(c) && Sane(c') && OwnerKept(c, c', p, k) && c'.run.Some? && c'.run.value.parent <= k.Key()
    ensures RingAgrees(c, p, k) <==> c'.ring.OwnerOf(k.Key()) == TargetNode(c', k)
  {
    PlanHas16(c, p);
    RunCovers(c', p, k);
  }

  /** From the presplit to the finish. */
  /** Whether the ring still agrees with the migration right after the presplit at step `m`. */
  lemma AgreesAfterIff(trace: seq<Cluster>, steps: seq<CodeStep>, m: nat, p: string, k: Keyword)
    requires IsCodeRun(trace, steps) && m < |steps| && steps[m].PresplitAny? && Sane(trace[m]) && RingAgrees(trace[m], p, k)
    requires Eligible(trace[m].ring, steps[m].prefix, steps[m].incoming) && Canonical(Capped(steps[m].prefix)) <= k.Key()
    ensures Sane(trace[m + 1]) && ActiveIn(trace[m + 1].migrations, p, k) && |trace[m].nodes| > 0
    ensures RingAgrees(trace[m + 1], p, k) <==>
      DigitAt(k.Key(), |Canonical(Capped(steps[m].prefix))|) % |trace[m].nodes| == 0
  {
    CodeRunSane(trace, steps, m + 1);
    assert StepTaken(trace, steps, m);
    PresplitDisagreesIff(trace[m], steps[m].prefix, steps[m].incoming, trace[m + 1], p, k);
  }

  /** From the presplit to the finish nothing changes about that. */
  lemma AgreesUntilFinish(trace: seq<Cluster>, steps: seq<CodeStep>, m: nat, n: nat, p: string, k: Keyword)
    requires IsCodeRun(trace, steps) && m <= n <= |steps| && BetweenSteps(trace, steps, m, n, k)
    requires Sane(trace[m]) && ActiveIn(trace[m].migrations, p, k)
    requires Sane(trace[n]) && trace[n].run.Some? && trace[n].run.value.parent <= k.Key()
    ensures RingAgrees(trace[m], p, k) <==> trace[n].ring.OwnerOf(k.Key()) == TargetNode(trace[n], k)
  {
    OwnerStays(trace, steps, m, n, p, k, trace[m], trace[n]);
    StillAgreesIff(trace[m], trace[n], p, k);
  }

  lemma AgreesAtFinishIff(
      trace: seq<Cluster>, steps: seq<CodeStep>, m: nat, n: nat, p: string, k: Keyword, before: Cluster, c: Cluster)
    requires IsCodeRun(trace, steps) && m < n <= |steps| && steps[m].PresplitAny? && BetweenSteps(trace, steps, m + 1, n, k)
    requires before == trace[m] && Sane(before) && RingAgrees(before, p, k)
    requires Eligible(before.ring, steps[m].prefix, steps[m].incoming) && Canonical(Capped(steps[m].prefix)) <= k.Key()
    requires c == trace[n] && Sane(c) && c.run.Some? && c.run.value.parent <= k.Key()
    ensures |before.nodes| > 0
    ensures c.ring.OwnerOf(k.Key()) == TargetNode(c, k) <==>
      DigitAt(k.Key(), |Canonical(Capped(steps[m].prefix))|) % |before.nodes| == 0
  {
    AgreesAfterIff(trace, steps, m, p, k);
    AgreesUntilFinish(trace, steps, m + 1, n, p, k);
  }

  /** A presplit of a child while the migration that fills it runs, with any client steps, buffered operations and steps
      of other migrations in between: after the finish, in whose replay no split moves the keyword, reads find what was
      accepted if and only if its digit below the presplit is a multiple of the number of storagers, or every identifier
      that was moved is named by an operation buffered for it. */
  lemma PresplitInMigrationStrandsIff(
      trace: seq<Cluster>, steps: seq<CodeStep>, m: nat, n: nat, p: string, k: Keyword,
      before: Cluster, c: Cluster, summaries: seq<seq<Byte>>, c': Cluster)
    requires AtFinish(trace, steps, n, k, c, summaries, c') && Sane(c) && Sane(Settled(c)) && |summaries| == |Buffered(c)|
    requires m < n && steps[m].PresplitAny? && BetweenSteps(trace, steps, m + 1, n, k)
    requires before == trace[m] && Sane(before) && RingAgrees(before, p, k)
    requires Eligible(before.ring, steps[m].prefix, steps[m].incoming) && Canonical(Capped(steps[m].prefix)) <= k.Key()
    requires Steady(Settled(c), Buffered(c), summaries, k)
    ensures Sane(c') && |before.nodes| > 0
    ensures ReadFinds(c', k, AcceptedFids(steps, n, k)) <==>
      DigitAt(k.Key(), |Canonical(Capped(steps[m].prefix))|) % |before.nodes| == 0 || AllNamed(c, k)
  {
    SteadyFinishFindsIff(trace, steps, n, k, c, summaries, c');
    AgreesAtFinishIff(trace, steps, m, n, p, k, before, c);
  }

  // ----- a presplit of an idle leaf

  /** In every run of the code, aborted migrations included: after a presplit of the leaf of a keyword that nothing covers
      and no step has harmed, reads find what was accepted if and only if an override still names its storager, or its
      digit is a multiple of the number of storagers, or the storager it is sent to holds the same; without aborts, the
      latter holds nothing. */
  lemma IdlePresplitFindsIff(trace: seq<Cluster>, steps: seq<CodeStep>, n: nat, k: Keyword)
    requires IsCodeRun(trace, steps) && n < |steps| && steps[n].PresplitAny? && HarmlessRun(trace, steps, n, k)
    requires Sane(trace[n]) && Sane(trace[n + 1]) && Idle(trace[n].migrations, k)
    requires Eligible(trace[n].ring, steps[n].prefix, steps[n].incoming) && Canonical(Capped(steps[n].prefix)) <= k.Key()
    ensures trace[n + 1].ring.OwnerOf(k.Key()) < |trace[n].nodes|
    ensures
      var owner', fids := trace[n + 1].ring.OwnerOf(k.Key()), AcceptedFids(steps, n, k);
      && (ReadFinds(trace[n + 1], k, fids) <==>
            || k in trace[n].overrides
            || DigitAt(k.Key(), |Canonical(Capped(steps[n].prefix))|) % |trace[n].nodes| == 0
            || Fids(trace[n].nodes[owner'], k) == fids)
      && (NoAborts(steps, n) && owner' != trace[n].ring.OwnerOf(k.Key()) ==> Fids(trace[n].nodes[owner'], k) == {})
  {
    var c, c' := trace[n], trace[n + 1];
    assert StepTaken(trace, steps, n);
    KeptKeyword(trace, steps, n, k);
    PresplitRoute(c.ring, steps[n].prefix, steps[n].incoming, k);
    IdleReadFinds(c', k, AcceptedFids(steps, n, k));
    PledgedIdle(c, k);
    RouteIsNamed(c, k);
    RouteIsNamed(c', k);
    if NoAborts(steps, n) {
      KeptInOnePlace(trace, steps, n, k);
      IdleCopies(c, k);
    }
  }

  // ----- a run

  /** One add, its split and all of the migration but the finish. */
  lemma MovedNotFinished(f: string) returns (c: Cluster)
    ensures Reachable(c, [Operation.Add(Witness("k"), f)]) && c.ring.Forest() && |c.nodes| == 2 && c.ring.splitThreshold == 0
    ensures c.run.Some? && c.run.value.parent == "0" && c.run.value.confirmedUpTo == 16
    ensures "0" in c.migrations && !c.migrations["0"].confirmed && c.migrations["0"].pending == []
    ensures
      var leaf := c.ring.LeafOf(Witness("k").Key());
      c.ring.CanSplit(leaf) && c.ring.entries[leaf].prefix == "01" && c.ring.entries[leaf].counter == 0
  {
    var k, start := Witness("k"), Fresh();
    WitnessKey("k");
    FreshRing(k);
    ReachInit(start);
    var split, before := AddSplits(start, [], k, f);
    AfterSplit(start.ring, start.ring.LeafOf(k.Key()), split.ring, before, k);
    assert [] + [Operation.Add(k, f)] == [Operation.Add(k, f)];
    var started := StartOne(split, [Operation.Add(k, f)], "0");
    c := RunToConfirmed(started, [Operation.Add(k, f)]);
    assert "0" + [HexDigit(1)] == "01";
  }

  /** There the keyword's child is eligible for a presplit, and the ring agrees with the migration. */
  lemma MovedIsInPlace(c: Cluster, ops: seq<Operation>, k: Keyword)
    requires Reachable(c, ops) && c.run.Some? && c.run.value.parent <= k.Key() && c.run.value.confirmedUpTo == 16
    ensures InPlace(c, k) && ReadyToReplay(c) && ActiveIn(c.migrations, c.run.value.parent, k)
    ensures c.ring.OwnerOf(k.Key()) == TargetNode(c, k) && Pledged(c, k) == ApplyAll(OpsFor(ops, k), {})
  {
    var trace, steps :| EndsIn(c, ops, trace, steps);
    RunKeepsSource(trace, steps, |steps|, k);
    ReachableIsClean(c, ops, k);
    CleanIsInPlace(c, k);
    PlanHas16(c, c.run.value.parent);
    CoveredIff(c, c.run.value.parent, k);
    ActiveRoute(c.ring, |c.nodes|, c.migrations, c.run.value.parent, k);
  }

  /** The presplit of the child. */
  lemma PresplitChild(c: Cluster, k: Keyword) returns (c': Cluster)
    requires InPlace(c, k) && ReadyToReplay(c) && ActiveIn(c.migrations, c.run.value.parent, k)
    requires c.ring.OwnerOf(k.Key()) == TargetNode(c, k) && |c.nodes| == 2 && "01" <= k.Key() && DigitAt(k.Key(), 2) == 1
    requires Eligible(c.ring, "01", 1) && Canonical(Capped("01")) == "01"
    ensures CodeNext(c, PresplitAny("01", 1), c') && InPlace(c', k)
    ensures c'.run == c.run && c'.migrations == c.migrations && c'.ring.OwnerOf(k.Key()) != TargetNode(c', k)
  {
    c' := c.(ring := c.ring.Apply(Presplit("01", 1)).0);
    PresplitSane(c, "01", 1);
    PresplitRoute(c.ring, "01", 1, k);
    StepKeepsInPlace(c, PresplitAny("01", 1), c', k);
  }

  /** The buffered add. */
  lemma BufferAdd(c: Cluster, k: Keyword, g: string) returns (c': Cluster)
    requires InPlace(c, k) && ReadyToReplay(c) && ActiveIn(c.migrations, c.run.value.parent, k) && Buffered(c) == []
    ensures CodeNext(c, Take(Client(Operation.Add(k, g), [])), c') && InPlace(c', k) && ReadyToReplay(c')
    ensures c'.run == c.run && c'.ring == c.ring && Buffered(c') == [Operation.Add(k, g)] && TargetNode(c', k) == TargetNode(c, k)
  {
    var p, op := c.run.value.parent, Operation.Add(k, g);
    c' := Buffer(c, p, op);
    BufferSane(c, p, op);
    assert !Idle(c.migrations, k);
    assert [] + [op] == [op];
    StepKeepsInPlace(c, Take(Client(op, [])), c', k);
  }

  /** One operation replayed. */
  lemma EndOfOne(c: Cluster, op: Operation)
    requires Sane(c) && c.run.None?
    ensures End(c, [op], [[]]) == After(c, op, [])
  {
    var once: seq<seq<Byte>> := [[]];
    EndStep(c, [op], once);
    assert [op][1..] == [] && once[1..] == [];
    assert End(After(c, op, []), [], []) == After(c, op, []);
  }

  lemma OneAddLands(c: Cluster, k: Keyword, g: string)
    requires Sane(c) && c.run.None?
    ensures
      var end := End(c, [Operation.Add(k, g)], [[]]);
      RouteNode(end, k) == RouteNode(c, k) && Fids(end.nodes[RouteNode(c, k)], k) == Fids(c.nodes[RouteNode(c, k)], k) + {g}
  {
    EndOfOne(c, Operation.Add(k, g));
    AfterRoute(c, Operation.Add(k, g), [], k);
    AfterFids(c, Operation.Add(k, g), [], k, RouteNode(c, k));
  }

  /** The replay of one add that the ring sends elsewhere. */
  lemma OneAddElsewhere(c: Cluster, k: Keyword, g: string) returns (c': Cluster)
    requires InPlace(c, k) && ReadyToReplay(c) && c.run.value.parent <= k.Key()
    requires Buffered(c) == [Operation.Add(k, g)] && c.ring.OwnerOf(k.Key()) != TargetNode(c, k)
    ensures CodeNext(c, FinishAll([[]]), c') && Sane(c') && Idle(c'.migrations, k) && ReadFinds(c', k, {g})
  {
    SettledSane(c);
    FinishAllCan(c, [[]]);
    NothingAtOwner(c, k);
    c' := End(Settled(c), Buffered(c), [[]]);
    OneAddRead(c, c', k, g);
  }

  lemma OneAddRead(c: Cluster, c': Cluster, k: Keyword, g: string)
    requires Sane(c) && FinishAllStep(c, [[]], c') && c.run.value.parent <= k.Key() && Buffered(c) == [Operation.Add(k, g)]
    requires c.ring.OwnerOf(k.Key()) < |c.nodes| && Fids(c.nodes[c.ring.OwnerOf(k.Key())], k) == {}
    ensures Sane(c') && Idle(c'.migrations, k) && ReadFinds(c', k, {g})
  {
    FinishIsEnd(c, [[]], c', k);
    OneAddAt(c, c', k, g);
    IdleReadFinds(c', k, {g});
  }

  lemma NothingAtOwner(c: Cluster, k: Keyword)
    requires InPlace(c, k) && ReadyToReplay(c) && c.run.value.parent <= k.Key() && c.ring.OwnerOf(k.Key()) != TargetNode(c, k)
    ensures c.ring.OwnerOf(k.Key()) < |c.nodes| && Fids(c.nodes[c.ring.OwnerOf(k.Key())], k) == {}
  {
    LookupIsNamed(c.ring, k);
    OnlyAtTarget(c, k, c.ring.OwnerOf(k.Key()));
  }

  lemma OneAddAt(c: Cluster, c': Cluster, k: Keyword, g: string)
    requires Sane(c) && c.run.Some? && Sane(Settled(c)) && c' == End(Settled(c), [Operation.Add(k, g)], [[]])
    requires RouteNode(Settled(c), k) == c.ring.OwnerOf(k.Key())
    ensures RouteNode(c', k) == c.ring.OwnerOf(k.Key()) < |c.nodes| == |c'.nodes|
    ensures Fids(c'.nodes[RouteNode(c', k)], k) == Fids(c.nodes[RouteNode(c', k)], k) + {g}
  {
    OneAddLands(Settled(c), k, g);
  }

  /** A finish is never blocked. */
  lemma FinishAllCan(c: Cluster, summaries: seq<seq<Byte>>)
    requires Sane(c) && ReadyToReplay(c) && |summaries| == |Buffered(c)| && Sane(Settled(c))
    ensures FinishAllStep(c, summaries, End(Settled(c), Buffered(c), summaries))
  {
    var parent, s := c.run.value.parent, Settled(c);
    ReplaySane(s, Buffered(c), summaries);
    ReplayAllIgnores(Taken(c, parent), Buffered(c), summaries, s.migrations, None);
    assert Taken(c, parent).(migrations := s.migrations, run := None) == s;
  }

  lemma AddedTwice(k: Keyword, f: string, g: string)
    ensures ApplyAll(OpsFor([Operation.Add(k, f), Operation.Add(k, g)], k), {}) == {f, g}
  {
    var ops := [Operation.Add(k, f), Operation.Add(k, g)];
    OneAdd(k, f);
    assert ops[..1] == [Operation.Add(k, f)];
    assert OpsFor(ops, k) == ops;
  }

  lemma AcceptOneMore(steps: seq<CodeStep>, step: CodeStep)
    ensures AcceptedOps(steps + [step]) == AcceptedOps(steps) + if step.Take? && step.step.Client? then [step.step.op] else []
    ensures NoAborts(steps, |steps|) && !IsAbort(step) ==> NoAborts(steps + [step], |steps| + 1)
  {
    assert (steps + [step])[..|steps|] == steps;
    if NoAborts(steps, |steps|) && !IsAbort(step) {
      forall i: nat | i < |steps| + 1 ensures !IsAbort((steps + [step])[i]) {
        if i < |steps| {
          assert (steps + [step])[i] == steps[i];
        }
      }
    }
  }

  /** A run that goes on by one step. */
  ghost predicate Reaches(c: Cluster, ops: seq<Operation>, trace: seq<Cluster>, steps: seq<CodeStep>) {
    IsCodeRun(trace, steps) && trace[|steps|] == c && AcceptedOps(steps) == ops && NoAborts(steps, |steps|)
  }

  ghost predicate CodeReachable(c: Cluster, ops: seq<Operation>) {
    exists trace, steps :: Reaches(c, ops, trace, steps)
  }

  lemma CodeReachNext(c: Cluster, ops: seq<Operation>, step: CodeStep, c': Cluster)
    requires CodeReachable(c, ops) && c.ring.Valid() && CodeNext(c, step, c') && !IsAbort(step)
    ensures CodeReachable(c', ops + if step.Take? && step.step.Client? then [step.step.op] else [])
  {
    var trace, steps :| Reaches(c, ops, trace, steps);
    CodeRunOnce(trace, steps, step, c');
    AcceptOneMore(steps, step);
    assert Reaches(c', AcceptedOps(steps + [step]), trace + [c'], steps + [step]);
  }

  lemma ReachableIsCodeReachable(c: Cluster, ops: seq<Operation>)
    requires Reachable(c, ops)
    ensures CodeReachable(c, ops)
  {
    var trace, steps :| EndsIn(c, ops, trace, steps);
    var code := GuardedRunIsCodeRun(trace, steps);
    forall i: nat | i < |code| ensures !IsAbort(code[i]) {
      assert Matches(steps[i], code[i]);
    }
    assert Reaches(c, ops, trace, code);
  }

  /** Two identifiers of the keyword have been accepted, and reads find the second alone. */
  ghost predicate Forgets(c: Cluster, k: Keyword, f: string, g: string) {
    && CodeReachable(c, [Operation.Add(k, f), Operation.Add(k, g)])
    && ApplyAll(OpsFor([Operation.Add(k, f), Operation.Add(k, g)], k), {}) == {f, g}
    && c.ring.Valid() && ReadFinds(c, k, {g})
  }

  /** The child of a running migration, presplit, with one add buffered, and the migration finished. */
  lemma ForgettingRun(f: string, g: string) returns (done: Cluster)
    ensures CodeReachable(done, [Operation.Add(Witness("k"), f)] + [Operation.Add(Witness("k"), g)])
    ensures done.ring.Valid() && ReadFinds(done, Witness("k"), {g})
  {
    var k := Witness("k");
    var c := MovedNotFinished(f);
    WitnessKey("k");
    MovedIsInPlace(c, [Operation.Add(k, f)], k);
    UncountedLeafIsEligible(c.ring, c.ring.LeafOf(k.Key()));
    var split := PresplitChild(c, k);
    var buffered := BufferAdd(split, k, g);
    done := OneAddElsewhere(buffered, k, g);
    ThreeMore(c, [Operation.Add(k, f)], split, buffered, done, Operation.Add(k, g));
  }

  /** Without any abort the code can come to forget an identifier: a child is presplit while its migration runs, and one
      write of the keyword is buffered. */
  lemma BufferedAddCanForget(f: string, g: string)
    ensures exists c, k :: Forgets(c, k, f, g)
  {
    var k := Witness("k");
    var done := ForgettingRun(f, g);
    AddedTwice(k, f, g);
    assert [Operation.Add(k, f)] + [Operation.Add(k, g)] == [Operation.Add(k, f), Operation.Add(k, g)];
    assert Forgets(done, k, f, g);
  }

  lemma ThreeMore(c: Cluster, ops: seq<Operation>, split: Cluster, buffered: Cluster, done: Cluster, op: Operation)
    requires Reachable(c, ops) && c.ring.Valid() && CodeNext(c, PresplitAny("01", 1), split) && split.ring.Valid()
    requires CodeNext(split, Take(Client(op, [])), buffered) && buffered.ring.Valid() && CodeNext(buffered, FinishAll([[]]), done)
    ensures CodeReachable(done, ops + [op])
  {
    ReachableIsCodeReachable(c, ops);
    CodeReachNext(c, ops, PresplitAny("01", 1), split);
    assert ops + [] == ops;
    CodeReachNext(split, ops, Take(Client(op, [])), buffered);
    CodeReachNext(buffered, ops + [op], FinishAll([[]]), done);
    assert (ops + [op]) + [] == ops + [op];
  }
}
