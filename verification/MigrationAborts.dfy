/** What aborted migrations leave behind. A storager deletes handed-over records only when it retains
    nothing else, so a prefix that an aborted migration prepared decides whether later ones delete. */
module MigrationAborts {
  import opened Wrappers
  import opened Hex
  import opened Ring
  import opened Routing
  import opened AccTree
  import opened Migration
  import opened MigrationInvariant
  import opened MigrationClient
  import opened MigrationServer
  import opened MigrationTheorems

  ghost predicate AllConfirmed(run: Run) {
    forall j :: j in run.segments ==> j < run.confirmedUpTo
  }

  /** The source has deleted exactly if it came to retain nothing. */
  ghost predicate DeletionOk(source: Storager, plan: PrefixSplitPlan, moved: bool, run: Run) {
    && (forall j :: j in run.segments && j < run.confirmedUpTo && j < |plan.children| ==>
          plan.children[j].prefix !in source.retained)
    && (moved ==> source.retained == {})
    && (!moved && run.segments != map[] && AllConfirmed(run) ==> source.retained != {})
  }

  ghost predicate NothingLeft(source: Storager, plan: PrefixSplitPlan) {
    forall d :: 0 <= d < |plan.children| && plan.IsForeign(d) ==> RecordsUnder(source.records, plan.children[d].prefix) == {}
  }

  function ForeignPrefixes(plan: PrefixSplitPlan): set<string> {
    set d | 0 <= d < |plan.children| && plan.IsForeign(d) :: plan.children[d].prefix
  }

  /** What the source retains besides the running migration's own prefixes. */
  ghost function Stale(c: Cluster): set<string>
    requires RunAt(c)
  {
    Source(c).retained - ForeignPrefixes(Plan(c))
  }

  ghost predicate RunAt(c: Cluster) {
    c.run.Some? && c.run.value.parent in c.migrations && Plan(c).source.node < |c.nodes|
  }

  ghost function Plan(c: Cluster): PrefixSplitPlan
    requires c.run.Some? && c.run.value.parent in c.migrations
  {
    c.migrations[c.run.value.parent].plan
  }

  ghost function Moved(c: Cluster): bool
    requires c.run.Some? && c.run.value.parent in c.migrations
  {
    c.migrations[c.run.value.parent].moved
  }

  ghost function Source(c: Cluster): Storager
    requires RunAt(c)
  {
    c.nodes[Plan(c).source.node]
  }

  ghost predicate AbortInv(c: Cluster) {
    && RunAt(c)
    && DeletionOk(Source(c), Plan(c), Moved(c), c.run.value)
    && (Moved(c) ==> NothingLeft(Source(c), Plan(c)))
  }

  /** The run goes on, under the same plan. */
  ghost predicate SameRun(c: Cluster, c': Cluster) {
    RunAt(c) && RunAt(c') && c'.run.value.parent == c.run.value.parent && Plan(c') == Plan(c)
  }

  /** A step that touches neither the source's prefixes nor how far the run has confirmed. */
  lemma UntouchedSource(c: Cluster, c': Cluster)
    requires AbortInv(c) && SameRun(c, c') && Source(c').retained == Source(c).retained && Moved(c') == Moved(c)
    requires c'.run.value.segments == c.run.value.segments && c'.run.value.confirmedUpTo == c.run.value.confirmedUpTo
    requires Moved(c) ==> NothingLeft(Source(c'), Plan(c))
    ensures AbortInv(c') && Stale(c') == Stale(c)
  {
    assert AllConfirmed(c'.run.value) == AllConfirmed(c.run.value);
  }

  // ----- clients

  lemma ScheduleKeepsUnconfirmed(c: Cluster, event: SplitEvent, parent: string)
    requires EventOk(c.ring, event) && parent in c.migrations && !c.migrations[parent].confirmed
    ensures
      var c' := ScheduleSplitMigration(c, event);
      parent in c'.migrations && c'.migrations[parent] == c.migrations[parent] && c'.nodes == c.nodes && c'.run == c.run
  {}

  lemma StoreKeepsRetained(c: Cluster, op: Operation, route: RouteTarget, summary: seq<Byte>)
    requires route.node < |c.nodes|
    ensures
      var c' := Store(c, op, route, summary).0;
      && c'.migrations == c.migrations && c'.run == c.run && |c'.nodes| == |c.nodes|
      && forall n: nat :: n < |c.nodes| ==>
           && c'.nodes[n].retained == c.nodes[n].retained
           && c'.nodes[n].records == if n == route.node then ApplyToRecords(op, c.nodes[n].records) else c.nodes[n].records
  {}

  /** The effect of a client's operation on a run: at most a record under another prefix. */
  ghost predicate RunUndisturbed(c: Cluster, op: Operation, c': Cluster) {
    && c'.run == c.run && SameRun(c, c') && Moved(c') == Moved(c)
    && Source(c').retained == Source(c).retained
    && (Source(c').records == Source(c).records
        || (Source(c').records == ApplyToRecords(op, Source(c).records) && !(c.run.value.parent <= op.keyword.Key())))
  }

  lemma StoreKeepsRun(c: Cluster, op: Operation, route: RouteTarget, summary: seq<Byte>)
    requires RunAt(c) && route.node < |c.nodes| && !(c.run.value.parent <= op.keyword.Key())
    ensures RunUndisturbed(c, op, Store(c, op, route, summary).0)
  {
    StoreKeepsRetained(c, op, route, summary);
  }

  lemma ScheduleKeepsRun(c: Cluster, stored: Cluster, op: Operation, event: SplitEvent)
    requires RunAt(c) && RunUndisturbed(c, op, stored) && !stored.migrations[c.run.value.parent].confirmed
    requires EventOk(stored.ring, event)
    ensures RunUndisturbed(c, op, ScheduleSplitMigration(stored, event))
  {
    ScheduleKeepsUnconfirmed(stored, event, c.run.value.parent);
  }

  /** A client leaves the run, its flag and what is retained alone, and stores nothing under the parent. */
  lemma ClientKeepsRun(c: Cluster, op: Operation, summary: seq<Byte>, c': Cluster)
    requires Inv(c) && c.run.Some? && ClientStep(c, op, summary, c')
    ensures RunUndisturbed(c, op, c')
  {
    if Idle(c.migrations, op.keyword) {
      IdleIsOutside(c, c.run.value.parent, op.keyword);
      var route := RouteKeyword(c, op.keyword);
      if route.Some? {
        StoreKeepsRetained(c, op, route.value, summary);
        StoreKeepsRun(c, op, route.value, summary);
        var (stored, event) := Store(c, op, route.value, summary);
        if event.Some? {
          ScheduleKeepsRun(c, stored, op, event.value);
        }
      }
    }
  }

  lemma NothingLeftStays(plan: PrefixSplitPlan, parent: string, nodeCount: nat, source: Storager, source': Storager, op: Operation)
    requires PlanOk(plan, parent, nodeCount) && NothingLeft(source, plan) && !(parent <= op.keyword.Key())
    requires source'.records == ApplyToRecords(op, source.records)
    ensures NothingLeft(source', plan)
  {
    forall d | 0 <= d < |plan.children| && plan.IsForeign(d)
      ensures RecordsUnder(source'.records, plan.children[d].prefix) == {}
    {
      OtherPrefixUntouched(source.records, op, parent, plan.children[d].prefix);
    }
  }

  lemma ClientKeepsAbortInv(c: Cluster, op: Operation, summary: seq<Byte>, c': Cluster)
    requires Inv(c) && AbortInv(c) && ClientStep(c, op, summary, c')
    ensures AbortInv(c') && SameRun(c, c') && Stale(c') == Stale(c)
  {
    ClientKeepsRun(c, op, summary, c');
    if Moved(c) && Source(c').records != Source(c).records {
      NothingLeftStays(Plan(c), c.run.value.parent, |c.nodes|, Source(c), Source(c'), op);
    }
    UntouchedSource(c, c');
  }

  // ----- the migration's own steps

  lemma PreparedIsForeign(plan: PrefixSplitPlan, parent: string, nodeCount: nat, i: Nibble)
    requires PlanOk(plan, parent, nodeCount) && plan.IsForeign(i)
    ensures plan.children[i].prefix in ForeignPrefixes(plan)
    ensures NormalizePrefixHex(plan.children[i].prefix) == Ok(plan.children[i].prefix)
  {
    ChildPrefixes(plan, parent, nodeCount, i, i);
  }

  lemma PrepareKeepsDeletion(source: Storager, source': Storager, plan: PrefixSplitPlan, moved: bool, run: Run, run': Run)
    requires ProgressOk(plan, moved, run) && run.prepared < 16 && run'.confirmedUpTo == run.confirmedUpTo
    ensures DeletionOk(source', plan, moved, run')
  {
    assert run'.confirmedUpTo == 0;
    if run'.segments != map[] {
      var j :| j in run'.segments;
      assert !AllConfirmed(run');
    }
  }

  lemma PrepareKeepsAbortInv(c: Cluster, c': Cluster)
    requires Inv(c) && AbortInv(c) && PrepareStep(c, c')
    ensures AbortInv(c') && SameRun(c, c') && Stale(c') == Stale(c)
  {
    PrepareAtSource(c, c');
    PrepareKeepsDeletion(Source(c), Source(c'), Plan(c), Moved(c), c.run.value, c'.run.value);
  }

  /** A prepare adds at most a prefix of its own plan to what the source retains. */
  lemma PrepareAtSource(c: Cluster, c': Cluster)
    requires Inv(c) && PrepareStep(c, c')
    ensures SameRun(c, c') && Moved(c') == Moved(c) && !Moved(c) && Stale(c') == Stale(c)
    ensures c'.run.value.confirmedUpTo == c.run.value.confirmedUpTo
  {
    if Plan(c).IsForeign(c.run.value.prepared) {
      PreparedIsForeign(Plan(c), c.run.value.parent, |c.nodes|, c.run.value.prepared);
    }
  }

  /** An import changes its target only, and happens before the source deletes. */
  lemma ImportAtSource(c: Cluster, i: nat, c': Cluster)
    requires Inv(c) && ImportStep(c, i, c')
    ensures SameRun(c, c') && Source(c') == Source(c) && !Moved(c) && !Moved(c')
    ensures c'.run.value.segments == c.run.value.segments && c'.run.value.confirmedUpTo == c.run.value.confirmedUpTo
  {
    assert Plan(c).IsForeign(i);
  }

  lemma ImportKeepsAbortInv(c: Cluster, i: nat, c': Cluster)
    requires Inv(c) && AbortInv(c) && ImportStep(c, i, c')
    ensures AbortInv(c') && SameRun(c, c') && Stale(c') == Stale(c)
  {
    ImportAtSource(c, i, c');
    UntouchedSource(c, c');
  }

  lemma SkipKeepsAbortInv(c: Cluster, c': Cluster)
    requires AbortInv(c) && ConfirmStep(c, c') && c.run.value.confirmedUpTo !in c.run.value.segments
    ensures AbortInv(c') && SameRun(c, c') && Stale(c') == Stale(c)
  {
    assert AllConfirmed(c'.run.value) ==> AllConfirmed(c.run.value) by {
      forall j | j in c.run.value.segments && AllConfirmed(c'.run.value) ensures j < c.run.value.confirmedUpTo {
        assert j in c'.run.value.segments;
      }
    }
  }

  lemma ConfirmKeepsDeletion(source: Storager, source': Storager, plan: PrefixSplitPlan, nodeCount: nat, moved: bool, run: Run)
    requires PlanOk(plan, run.parent, nodeCount) && ProgressOk(plan, moved, run) && DeletionOk(source, plan, moved, run)
    requires run.confirmedUpTo in run.segments
    requires source'.retained == source.retained - {plan.children[run.confirmedUpTo].prefix}
    ensures !moved
    ensures DeletionOk(source', plan, source'.retained == {}, run.(confirmedUpTo := run.confirmedUpTo + 1))
  {}

  lemma ConfirmableIsForeign(plan: PrefixSplitPlan, parent: string, nodeCount: nat, moved: bool, run: Run)
    requires PlanOk(plan, parent, nodeCount) && ProgressOk(plan, moved, run) && run.confirmedUpTo in run.segments
    ensures plan.IsForeign(run.confirmedUpTo)
    ensures NormalizePrefixHex(plan.children[run.confirmedUpTo].prefix) == Ok(plan.children[run.confirmedUpTo].prefix)
  {
    PreparedIsForeign(plan, parent, nodeCount, run.confirmedUpTo);
  }

  /** What a confirm of an exported child does to the source. */
  lemma ConfirmAtSource(c: Cluster, c': Cluster)
    requires RunAt(c) && ConfirmStep(c, c') && c.run.value.confirmedUpTo in c.run.value.segments
    requires
      var prefix := Plan(c).children[c.run.value.confirmedUpTo].prefix;
      NormalizePrefixHex(prefix) == Ok(prefix)
    ensures SameRun(c, c')
    ensures
      var run := c.run.value;
      && Source(c').retained == Source(c).retained - {Plan(c).children[run.confirmedUpTo].prefix}
      && Moved(c') == (Moved(c) || Source(c').retained == {})
      && c'.run.value == run.(confirmedUpTo := run.confirmedUpTo + 1)
  {}

  lemma DeletionLeavesNothing(nodes: seq<Storager>, plan: PrefixSplitPlan, moved: bool, run: Run)
    requires RunOk(nodes, plan, moved, run) && run.prepared == 16 && run.imported == run.segments.Keys
    requires run.confirmedUpTo in run.segments
    requires Deletes(nodes[plan.source.node], plan.children[run.confirmedUpTo].prefix)
    ensures
      var confirmed := nodes[plan.source.node].Confirm(plan.children[run.confirmedUpTo].prefix);
      confirmed.Ok? && NothingLeft(confirmed.value, plan)
  {
    DeletingConfirmKeepsRun(nodes, plan, moved, run);
    var after := nodes[plan.source.node].Confirm(plan.children[run.confirmedUpTo].prefix).value;
    forall d: nat | d < |plan.children| && plan.IsForeign(d) ensures RecordsUnder(after.records, plan.children[d].prefix) == {} {
      assert d in run.segments;
    }
  }

  lemma SourceAfterDeletion(c: Cluster, c': Cluster)
    requires Inv(c) && ConfirmStep(c, c') && c.run.value.confirmedUpTo in c.run.value.segments && SameRun(c, c')
    requires Moved(c') && !Moved(c)
    ensures NothingLeft(Source(c'), Plan(c'))
  {
    DeletionLeavesNothing(c.nodes, Plan(c), Moved(c), c.run.value);
  }

  lemma ConfirmKeepsAbortInv(c: Cluster, c': Cluster)
    requires Inv(c) && AbortInv(c) && ConfirmStep(c, c')
    ensures AbortInv(c') && SameRun(c, c') && Stale(c') == Stale(c)
  {
    if c.run.value.confirmedUpTo !in c.run.value.segments {
      SkipKeepsAbortInv(c, c');
    } else {
      ConfirmableIsForeign(Plan(c), c.run.value.parent, |c.nodes|, Moved(c), c.run.value);
      ConfirmAtSource(c, c');
      if Moved(c') && !Moved(c) {
        SourceAfterDeletion(c, c');
      }
      ConfirmedKeepsAbortInv(c, c', |c.nodes|);
    }
  }

  lemma ConfirmedKeepsAbortInv(c: Cluster, c': Cluster, nodeCount: nat)
    requires RunAt(c) && nodeCount == |c.nodes| && RunOk(c.nodes, Plan(c), Moved(c), c.run.value)
    requires AbortInv(c) && SameRun(c, c') && c.run.value.confirmedUpTo in c.run.value.segments
    requires Source(c').retained == Source(c).retained - {Plan(c).children[c.run.value.confirmedUpTo].prefix}
    requires Moved(c') == (Moved(c) || Source(c').retained == {})
    requires c'.run.value == c.run.value.(confirmedUpTo := c.run.value.confirmedUpTo + 1)
    requires Moved(c') && !Moved(c) ==> NothingLeft(Source(c'), Plan(c'))
    ensures AbortInv(c') && Stale(c') == Stale(c)
  {
    ConfirmKeepsDeletion(Source(c), Source(c'), Plan(c), nodeCount, Moved(c), c.run.value);
    PreparedIsForeign(Plan(c), c.run.value.parent, nodeCount, c.run.value.confirmedUpTo);
  }

  lemma RingAloneKeepsAbortInv(c: Cluster, c': Cluster)
    requires AbortInv(c) && c' == c.(ring := c'.ring)
    ensures AbortInv(c') && SameRun(c, c') && Stale(c') == Stale(c)
  {}

  lemma StepKeepsAbortInv(c: Cluster, step: Step, c': Cluster)
    requires Inv(c) && AbortInv(c) && Next(c, step, c') && !step.FinishMigration? && !step.AbortMigration?
    ensures AbortInv(c') && SameRun(c, c') && Stale(c') == Stale(c)
  {
    match step
    case Client(op, summary) => ClientKeepsAbortInv(c, op, summary, c');
    case UpdateSummary(_, _) => RingAloneKeepsAbortInv(c, c');
    case PrepareChild => PrepareKeepsAbortInv(c, c');
    case ImportChild(i) => ImportKeepsAbortInv(c, i, c');
    case ConfirmChild => ConfirmKeepsAbortInv(c, c');
    case PresplitPrefix(_, _) => RingAloneKeepsAbortInv(c, c');
  }

  lemma StartEstablishesAbortInv(c: Cluster, parent: string, c': Cluster)
    requires Inv(c) && StartStep(c, parent, c')
    ensures AbortInv(c')
  {
    assert MigrationOk(c.ring, |c.nodes|, c.migrations[parent], parent);
  }

  // ----- a whole run

  /** Step `i` starts a migration that is neither finished nor aborted before step `n`. */
  ghost predicate Running(steps: seq<Step>, i: nat, n: nat) {
    && i < n <= |steps| && steps[i].StartMigration?
    && forall j :: i < j < n ==> !steps[j].FinishMigration? && !steps[j].AbortMigration?
  }

  lemma StateIsInv(trace: seq<Cluster>, steps: seq<Step>, n: nat, k: Keyword)
    requires IsRun(trace, steps) && n <= |steps|
    ensures Inv(trace[n])
  {
    ContentsFollowAccepted(trace, steps, n, k);
  }

  lemma RunningStarts(trace: seq<Cluster>, steps: seq<Step>, i: nat, k: Keyword)
    requires IsRun(trace, steps) && i < |steps| && steps[i].StartMigration?
    ensures Inv(trace[i]) && AbortInv(trace[i + 1]) && trace[i + 1].nodes == trace[i].nodes
  {
    StateIsInv(trace, steps, i, k);
    StartEstablishesAbortInv(trace[i], steps[i].parent, trace[i + 1]);
  }

  ghost predicate Keeps(c: Cluster, c': Cluster) {
    AbortInv(c) ==> AbortInv(c') && SameRun(c, c') && Stale(c') == Stale(c)
  }

  lemma RunningStep(trace: seq<Cluster>, steps: seq<Step>, n: nat, k: Keyword)
    requires IsRun(trace, steps) && n < |steps| && !steps[n].FinishMigration? && !steps[n].AbortMigration?
    ensures Keeps(trace[n], trace[n + 1])
  {
    if AbortInv(trace[n]) {
      StateIsInv(trace, steps, n, k);
      StepKeepsAbortInv(trace[n], steps[n], trace[n + 1]);
    }
  }

  lemma {:induction false} KeepsAlong(trace: seq<Cluster>, i: nat, n: nat)
    requires i <= n < |trace| && forall j: nat :: i <= j < n ==> Keeps(trace[j], trace[j + 1])
    ensures Keeps(trace[i], trace[n])
    decreases n
  {
    if i < n {
      KeepsAlong(trace, i, n - 1);
      assert Keeps(trace[n - 1], trace[n - 1 + 1]);
    }
  }

  lemma RunningKeeps(trace: seq<Cluster>, steps: seq<Step>, i: nat, n: nat, k: Keyword)
    requires IsRun(trace, steps) && Running(steps, i, n)
    ensures Keeps(trace[i + 1], trace[n])
  {
    forall j: nat | i + 1 <= j < n ensures Keeps(trace[j], trace[j + 1]) {
      RunningStep(trace, steps, j, k);
    }
    KeepsAlong(trace, i + 1, n);
  }

  /** At the end of a run the source has deleted if and only if nothing stale was retained. */
  lemma MovedIffNothingStale(c: Cluster, d: Nibble)
    requires Inv(c) && AbortInv(c) && c.run.value.confirmedUpTo == 16 && Plan(c).IsForeign(d)
    ensures Moved(c) <==> Stale(c) == {}
  {
    var run := c.run.value;
    assert d in run.segments;
    assert Stale(c) == Source(c).retained by {
      forall p | p in ForeignPrefixes(Plan(c)) ensures p !in Source(c).retained {
        var e: nat :| e < 16 && Plan(c).IsForeign(e) && Plan(c).children[e].prefix == p;
        assert e in run.segments;
      }
    }
  }

  /** At the end of a run the target of a child has its records, and the source has let go of them if and
      only if nothing stale was retained. */
  lemma RecordsAtTheEnd(c: Cluster, d: Nibble)
    requires Inv(c) && AbortInv(c) && c.run.value.confirmedUpTo == 16 && Plan(c).IsForeign(d)
    ensures Plan(c).children[d].node < |c.nodes|
    ensures
      var plan := Plan(c);
      var prefix, target := plan.children[d].prefix, c.nodes[plan.children[d].node];
      RecordsUnder(Source(c).records, prefix) == if Stale(c) == {} then {} else RecordsUnder(target.records, prefix)
  {
    MovedIffNothingStale(c, d);
    assert d in c.run.value.segments;
    assert SegmentOk(c.nodes, Plan(c), Moved(c), c.run.value.segments[d], d, true);
  }

  /** A migration that runs to its end leaves every child's records on the target alone if and only if the
      source retained nothing stale when it started: with a stale prefix each of them is held twice. */
  lemma HandOverIsCompleteIff(trace: seq<Cluster>, steps: seq<Step>, i: nat, n: nat, d: Nibble, k: Keyword)
    requires IsRun(trace, steps) && Running(steps, i, n) && n < |steps| && steps[n].FinishMigration?
    ensures Inv(trace[n]) && trace[n].run.Some? && Inv(trace[i])
    ensures
      var c, plan := trace[n], Plan(trace[n]);
      plan.IsForeign(d) ==>
        && plan.source.node < |trace[i].nodes| && plan.children[d].node < |c.nodes|
        && var stale := trace[i].nodes[plan.source.node].retained - ForeignPrefixes(plan);
           RecordsUnder(c.nodes[plan.source.node].records, plan.children[d].prefix)
             == if stale == {} then {} else RecordsUnder(c.nodes[plan.children[d].node].records, plan.children[d].prefix)
  {
    StateIsInv(trace, steps, n, k);
    RunningStarts(trace, steps, i, k);
    RunningKeeps(trace, steps, i, n, k);
    assert Next(trace[n], steps[n], trace[n + 1]);
    if Plan(trace[n]).IsForeign(d) {
      RecordsAtTheEnd(trace[n], d);
    }
  }
}
