/** The migration machine with nothing left out of what the code does: presplits test the counter alone, a replay
    goes on after a split it has caused, and a replay may stop at a failed call. What every step still keeps is
    `Sane`; what a step can do to the records of a keyword is said in the modules that build on this one. */
module Unguarded {
  import opened Wrappers
  import opened Hex
  import opened Ring
  import opened Routing
  import opened AccTree
  import opened Presplit
  import opened Migration
  import opened MigrationInvariant
  import opened MigrationClient
  import opened MigrationServer
  import opened MigrationTheorems

  // ----- the steps

  /** The loop of a replay. A split that an insert causes changes the ring; no migration follows it. */
  ghost function ReplayAll(c: Cluster, ops: seq<Operation>, summaries: seq<seq<Byte>>): Option<Cluster>
    requires c.ring.Valid() && |summaries| == |ops|
    decreases |ops|
  {
    if ops == [] then Some(c)
    else match RouteKeyword(c, ops[0].keyword)
      case None => None
      case Some(route) =>
        if route.node >= |c.nodes| then None
        else
          var stored := Store(c, ops[0], route, summaries[0]).0;
          if !stored.ring.Valid() then None else ReplayAll(stored, ops[1..], summaries[1..])
  }

  /** The overrides under the parent dropped, and the buffered operations taken off their list. */
  function Taken(c: Cluster, parent: string): Cluster
    requires parent in c.migrations
  {
    c.(overrides := DropOverridesUnder(c.overrides, parent),
       migrations := c.migrations[parent := c.migrations[parent].(pending := [])])
  }

  ghost predicate ReadyToReplay(c: Cluster) {
    && c.run.Some? && c.run.value.parent in c.migrations
    && c.run.value.confirmedUpTo == |c.migrations[c.run.value.parent].plan.children|
  }

  ghost predicate FinishAllStep(c: Cluster, summaries: seq<seq<Byte>>, c': Cluster)
    requires c.ring.Valid()
  {
    && ReadyToReplay(c)
    && var parent := c.run.value.parent;
    && |summaries| == |c.migrations[parent].pending|
    && var replayed := ReplayAll(Taken(c, parent), c.migrations[parent].pending, summaries);
    && replayed.Some?
    && c' == replayed.value.(
         migrations := c.migrations[parent := c.migrations[parent].(confirmed := true, pending := [])], run := None)
  }

  /** A call of the replay fails: what was taken and not applied is gone, and the migration stays unconfirmed. */
  ghost predicate StopReplayStep(c: Cluster, summaries: seq<seq<Byte>>, c': Cluster)
    requires c.ring.Valid()
  {
    && ReadyToReplay(c)
    && var parent := c.run.value.parent;
    && |summaries| < |c.migrations[parent].pending|
    && var replayed := ReplayAll(Taken(c, parent), c.migrations[parent].pending[..|summaries|], summaries);
    && replayed.Some? && c' == replayed.value.(run := None)
  }

  datatype CodeStep =
    | Take(step: Step)
    | PresplitAny(prefix: string, incoming: nat)
    | FinishAll(summaries: seq<seq<Byte>>)
    | StopReplay(summaries: seq<seq<Byte>>)

  ghost predicate CodeNext(c: Cluster, step: CodeStep, c': Cluster)
    requires c.ring.Valid()
  {
    match step
    case Take(s) => !s.FinishMigration? && !s.PresplitPrefix? && Next(c, s, c')
    case PresplitAny(prefix, incoming) => c' == c.(ring := c.ring.Apply(Presplit(prefix, incoming)).0)
    case FinishAll(summaries) => FinishAllStep(c, summaries, c')
    case StopReplay(summaries) => StopReplayStep(c, summaries, c')
  }

  /** Step `i` of the run leads from one cluster to the next. */
  ghost predicate StepTaken(trace: seq<Cluster>, steps: seq<CodeStep>, i: nat) {
    && i < |steps| && i + 1 < |trace|
    && trace[i].ring.Valid() && CodeNext(trace[i], steps[i], trace[i + 1])
  }

  ghost predicate IsCodeRun(trace: seq<Cluster>, steps: seq<CodeStep>) {
    && |trace| == |steps| + 1 && Init(trace[0])
    && forall i: nat :: i < |steps| ==> StepTaken(trace, steps, i)
  }

  predicate IsClientOp(step: CodeStep, k: Keyword) {
    step.Take? && step.step.Client? && step.step.op.keyword == k
  }

  /** The client operations among the steps, in the order they were accepted. */
  function AcceptedOps(steps: seq<CodeStep>): seq<Operation> {
    if steps == [] then []
    else
      var last := steps[|steps| - 1];
      AcceptedOps(steps[..|steps| - 1]) + if last.Take? && last.step.Client? then [last.step.op] else []
  }

  // ----- the guarded machine is part of it

  lemma {:induction false} ReplayIsReplayAll(c: Cluster, ops: seq<Operation>, summary: seq<Byte>, summaries: seq<seq<Byte>>)
    requires c.ring.Valid() && Replay(c, ops, summary).Some?
    requires |summaries| == |ops| && forall i :: 0 <= i < |summaries| ==> summaries[i] == summary
    ensures ReplayAll(c, ops, summaries) == Replay(c, ops, summary)
    decreases |ops|
  {
    if ops != [] {
      ReplayUnfolds(c, ops, summary);
      ReplayIsReplayAll(
        Store(c, ops[0], RouteKeyword(c, ops[0].keyword).value, summary).0, ops[1..], summary, summaries[1..]);
    }
  }

  /** The replay looks at no migration and at no run. */
  lemma {:induction false} ReplayAllIgnores(
      c: Cluster, ops: seq<Operation>, summaries: seq<seq<Byte>>, ms: Migrations, run: Option<Run>)
    requires c.ring.Valid() && |summaries| == |ops|
    ensures ReplayAll(c.(migrations := ms, run := run), ops, summaries)
      == match ReplayAll(c, ops, summaries)
         case None => None
         case Some(r) => Some(r.(migrations := ms, run := run))
    decreases |ops|
  {
    if ops != [] {
      var route := RouteKeyword(c, ops[0].keyword);
      if route.Some? && route.value.node < |c.nodes| {
        var stored := Store(c, ops[0], route.value, summaries[0]).0;
        if stored.ring.Valid() {
          ReplayAllIgnores(stored, ops[1..], summaries[1..], ms, run);
        }
      }
    }
  }

  /** Every finish without a nested split is a finish of the code. */
  lemma GuardedFinish(c: Cluster, summary: seq<Byte>, c': Cluster)
    requires c.ring.Valid() && FinishStep(c, summary, c')
    ensures
      var n := |c.migrations[c.run.value.parent].pending|;
      FinishAllStep(c, seq(n, i requires 0 <= i < n => summary), c')
  {
    var parent := c.run.value.parent;
    var pending := c.migrations[parent].pending;
    var cleared := c.(overrides := DropOverridesUnder(c.overrides, parent));
    var summaries := seq(|pending|, i requires 0 <= i < |pending| => summary);
    ReplayIsReplayAll(cleared, pending, summary, summaries);
    ReplayKeepsMigrations(cleared, pending, summary);
    ReplayAllIgnores(cleared, pending, summaries, Taken(c, parent).migrations, c.run);
    assert cleared.(migrations := Taken(c, parent).migrations, run := c.run) == Taken(c, parent);
  }

  /** A finish is a replay on the cluster in which the migration counts as confirmed already. */
  lemma FinishAllIsReplay(c: Cluster, summaries: seq<seq<Byte>>, c': Cluster)
    requires c.ring.Valid() && FinishAllStep(c, summaries, c')
    ensures ReplayAll(Settled(c), c.migrations[c.run.value.parent].pending, summaries) == Some(c')
  {
    var parent, s := c.run.value.parent, Settled(c);
    ReplayAllIgnores(Taken(c, parent), c.migrations[parent].pending, summaries, s.migrations, None);
    assert Taken(c, parent).(migrations := s.migrations, run := None) == s;
  }

  lemma StopReplayIsReplay(c: Cluster, summaries: seq<seq<Byte>>, c': Cluster)
    requires c.ring.Valid() && StopReplayStep(c, summaries, c')
    ensures
      var parent := c.run.value.parent;
      ReplayAll(Taken(c, parent).(run := None), c.migrations[parent].pending[..|summaries|], summaries) == Some(c')
  {
    var parent := c.run.value.parent;
    var t, ops := Taken(c, parent), c.migrations[parent].pending[..|summaries|];
    ReplayAllIgnores(t, ops, summaries, t.migrations, None);
    ReplayAllKeepsMigrations(t, ops, summaries);
    assert t.(migrations := t.migrations, run := None) == t.(run := None);
  }

  lemma {:induction false} ReplayAllKeepsMigrations(c: Cluster, ops: seq<Operation>, summaries: seq<seq<Byte>>)
    requires c.ring.Valid() && |summaries| == |ops| && ReplayAll(c, ops, summaries).Some?
    ensures
      var r := ReplayAll(c, ops, summaries).value;
      && r.migrations == c.migrations && r.queued == c.queued && r.run == c.run && |r.nodes| == |c.nodes|
      && r.ring.Valid()
    decreases |ops|
  {
    if ops != [] {
      ReplayAllKeepsMigrations(
        Store(c, ops[0], RouteKeyword(c, ops[0].keyword).value, summaries[0]).0, ops[1..], summaries[1..]);
    }
  }

  lemma ReplayAllUnfolds(c: Cluster, ops: seq<Operation>, summaries: seq<seq<Byte>>)
    requires c.ring.Valid() && |summaries| == |ops| && ops != [] && ReplayAll(c, ops, summaries).Some?
    ensures RouteKeyword(c, ops[0].keyword).Some? && RouteKeyword(c, ops[0].keyword).value.node < |c.nodes|
    ensures
      var stored := Store(c, ops[0], RouteKeyword(c, ops[0].keyword).value, summaries[0]).0;
      stored.ring.Valid() && ReplayAll(stored, ops[1..], summaries[1..]) == ReplayAll(c, ops, summaries)
  {}

  lemma ReplayAllFolds(c: Cluster, op: Operation, rest: seq<Operation>, summary: seq<Byte>, others: seq<seq<Byte>>)
    requires c.ring.Valid() && |others| == |rest|
    requires RouteKeyword(c, op.keyword).Some? && RouteKeyword(c, op.keyword).value.node < |c.nodes|
    requires Store(c, op, RouteKeyword(c, op.keyword).value, summary).0.ring.Valid()
    ensures ReplayAll(c, [op] + rest, [summary] + others)
      == ReplayAll(Store(c, op, RouteKeyword(c, op.keyword).value, summary).0, rest, others)
  {
    assert ([op] + rest)[1..] == rest && ([summary] + others)[1..] == others;
  }

  lemma ConsSnoc<T>(list: seq<T>, last: T)
    requires list != []
    ensures list + [last] == [list[0]] + (list[1..] + [last])
  {}

  /** One operation more. */
  lemma {:induction false} ReplayAllSnoc(
      c: Cluster, ops: seq<Operation>, summaries: seq<seq<Byte>>, r: Cluster, op: Operation, summary: seq<Byte>)
    requires c.ring.Valid() && |summaries| == |ops| && ReplayAll(c, ops, summaries) == Some(r) && r.ring.Valid()
    requires RouteKeyword(r, op.keyword).Some? && RouteKeyword(r, op.keyword).value.node < |r.nodes|
    requires Store(r, op, RouteKeyword(r, op.keyword).value, summary).0.ring.Valid()
    ensures ReplayAll(c, ops + [op], summaries + [summary]) == Some(Store(r, op, RouteKeyword(r, op.keyword).value, summary).0)
    decreases |ops|
  {
    if ops == [] {
      assert ops + [op] == [op] && summaries + [summary] == [summary];
    } else {
      ConsSnoc(ops, op);
      ConsSnoc(summaries, summary);
      ReplayAllUnfolds(c, ops, summaries);
      ReplayAllSnoc(Store(c, ops[0], RouteKeyword(c, ops[0].keyword).value, summaries[0]).0, ops[1..], summaries[1..], r, op, summary);
      ReplayAllFolds(c, ops[0], ops[1..] + [op], summaries[0], summaries[1..] + [summary]);
    }
  }

  // ----- what every step keeps

  ghost predicate NamesEntry(ring: RingState, o: RouteTarget, i: nat) {
    && i < |ring.entries| && ring.entries[i].prefix == o.prefix
    && (ring.IsLeaf(i) ==> ring.entries[i].ownerRef == o.node)
  }

  /** A route of the keyword that the ring gave at some time: a leaf it names still has that owner. */
  ghost predicate Named(ring: RingState, k: Keyword, o: RouteTarget) {
    o.prefix <= k.Key() && o.node < |ring.nodeNames| && exists i: nat :: NamesEntry(ring, o, i)
  }

  ghost predicate OverridesNamed(ring: RingState, overrides: map<Keyword, RouteTarget>) {
    forall k :: k in overrides ==> Named(ring, k, overrides[k])
  }

  /** A migration's plan is that of an entry which has been split. */
  ghost predicate PlanStands(ring: RingState, nodeCount: nat, m: PrefixMigration, parent: string) {
    && PlanOk(m.plan, parent, nodeCount) && PendingOk(m.pending, m.confirmed, parent)
    && ring.IsSplit(m.entry) && ring.entries[m.entry].prefix == parent
  }

  ghost predicate PlansStand(ring: RingState, nodeCount: nat, ms: Migrations) {
    forall p :: p in ms ==> PlanStands(ring, nodeCount, ms[p], p)
  }

  /** No pending migration lies under another. */
  ghost predicate Apart(ms: Migrations) {
    forall p, q :: p in ms && q in ms && !ms[p].confirmed && !ms[q].confirmed && p <= q ==> p == q
  }

  ghost predicate Sane(c: Cluster) {
    && c.ring.Forest() && |c.nodes| == |c.ring.nodeNames|
    && PlansStand(c.ring, |c.nodes|, c.migrations) && Apart(c.migrations)
    && OverridesNamed(c.ring, c.overrides) && QueuedOk(c.migrations, c.queued) && RunInv(c)
  }

  // ----- which migration covers a keyword

  lemma CoveredIff(c: Cluster, p: string, k: Keyword)
    requires Sane(c)
    ensures ActiveIn(c.migrations, p, k) <==> p in c.migrations && !c.migrations[p].confirmed && p <= k.Key()
  {
    if p in c.migrations {
      assert PlanStands(c.ring, |c.nodes|, c.migrations[p], p);
      CoversIsUnder(c.migrations[p], p, |c.nodes|, k);
    }
  }

  lemma OnlyOneCovers(c: Cluster, p: string, k: Keyword)
    requires Sane(c) && ActiveIn(c.migrations, p, k)
    ensures ActiveParent(c.migrations, k) == Some(p)
  {
    var q := ActiveParent(c.migrations, k).value;
    CoveredIff(c, p, k);
    CoveredIff(c, q, k);
    assert p <= q || q <= p;
  }

  // ----- routes

  lemma SameShapeKeepsNamed(ring: RingState, ring': RingState, k: Keyword, o: RouteTarget)
    requires ring.SameShape(ring') && Named(ring, k, o)
    ensures Named(ring', k, o)
  {
    var i: nat :| NamesEntry(ring, o, i);
    assert NamesEntry(ring', o, i);
  }

  lemma SplitKeepsNamed(ring: RingState, leaf: nat, k: Keyword, o: RouteTarget)
    requires ring.CanSplit(leaf) && Named(ring, k, o)
    ensures Named(ring.SplitAt(leaf), k, o)
  {
    var i: nat :| NamesEntry(ring, o, i);
    assert NamesEntry(ring.SplitAt(leaf), o, i);
  }

  lemma LookupIsNamed(ring: RingState, k: Keyword)
    requires ring.Forest()
    ensures RingLookup(ring, k).Some? && Named(ring, k, RingLookup(ring, k).value)
    ensures RingLookup(ring, k).value.node == ring.OwnerOf(k.Key())
  {
    var leaf := ring.LeafOf(k.Key());
    ring.RouteIsUnique(k.Key(), leaf);
    assert NamesEntry(ring, RingLookup(ring, k).value, leaf);
  }

  lemma RouteIsNamed(c: Cluster, k: Keyword)
    requires c.ring.Forest() && OverridesNamed(c.ring, c.overrides)
    ensures RouteKeyword(c, k).Some? && Named(c.ring, k, RouteKeyword(c, k).value)
    ensures k !in c.overrides ==> RouteKeyword(c, k).value.node == c.ring.OwnerOf(k.Key())
  {
    LookupIsNamed(c.ring, k);
  }

  /** A split caused by storing is that of the keyword's own leaf, and the operation went to that leaf's owner. */
  ghost predicate OwnLeafSplit(c: Cluster, op: Operation, route: RouteTarget, ring: RingState, e: SplitEvent, before: RingState)
    requires c.ring.Forest()
  {
    && IsSplitOf(c.ring, before, c.ring.LeafOf(op.keyword.Key()), ring, e)
    && c.ring.OwnerOf(op.keyword.Key()) == route.node
  }

  lemma StoreTakenApart(c: Cluster, op: Operation, route: RouteTarget, summary: seq<Byte>)
    requires c.ring.Forest() && Named(c.ring, op.keyword, route) && route.node < |c.nodes|
    ensures
      var (stored, event) := Store(c, op, route, summary);
      && stored == PutRecord(c, op, route).(ring := stored.ring)
      && match event
         case None => c.ring.SameShape(stored.ring)
         case Some(e) => op.Add? && exists before: RingState :: OwnLeafSplit(c, op, route, stored.ring, e, before)
  {
    var (stored, event) := Store(c, op, route, summary);
    var i: nat :| NamesEntry(c.ring, route, i);
    CanonicalOfLowerHex(route.prefix);
    assert c.ring.EntryOk(i);
    assert Capped(route.prefix) == route.prefix;
    c.ring.FindInvertsPrefix(route.prefix, i);
    c.ring.RouteIsUnique(op.keyword.Key(), i);
    var ringOp := match op
      case Add(_, _) => Insert(route.prefix, summary)
      case Delete(_, _) => RingOp.Delete(route.prefix, summary);
    c.ring.ApplySplitsAtMostTheNamedLeaf(ringOp);
    if event.Some? {
      var before: RingState :| c.ring.SameShape(before) && before.Forest()
        && before.CanSplit(i) && stored.ring == before.SplitAt(i) && event.value == before.SplitEventAt(i);
      assert OwnLeafSplit(c, op, route, stored.ring, event.value, before);
    }
  }

  // ----- changes of the ring

  lemma SameShapeSane(c: Cluster, ring: RingState)
    requires Sane(c) && c.ring.SameShape(ring)
    ensures Sane(c.(ring := ring))
  {
    c.ring.SameShapeKeepsForest(ring);
    forall p | p in c.migrations ensures PlanStands(ring, |c.nodes|, c.migrations[p], p) {
      assert PlanStands(c.ring, |c.nodes|, c.migrations[p], p);
    }
    forall k | k in c.overrides ensures Named(ring, k, c.overrides[k]) {
      SameShapeKeepsNamed(c.ring, ring, k, c.overrides[k]);
    }
  }

  lemma SplitPlansStand(ring: RingState, leaf: nat, nodeCount: nat, ms: Migrations)
    requires ring.Forest() && ring.CanSplit(leaf) && PlansStand(ring, nodeCount, ms)
    ensures PlansStand(ring.SplitAt(leaf), nodeCount, ms)
  {
    forall p | p in ms ensures PlanStands(ring.SplitAt(leaf), nodeCount, ms[p], p) {
      assert PlanStands(ring, nodeCount, ms[p], p);
    }
  }

  lemma SplitSane(c: Cluster, leaf: nat)
    requires Sane(c) && c.ring.CanSplit(leaf)
    ensures Sane(c.(ring := c.ring.SplitAt(leaf)))
  {
    var ring := c.ring.SplitAt(leaf);
    c.ring.SplitKeepsForest(leaf);
    SplitPlansStand(c.ring, leaf, |c.nodes|, c.migrations);
    forall k | k in c.overrides ensures Named(ring, k, c.overrides[k]) {
      SplitKeepsNamed(c.ring, leaf, k, c.overrides[k]);
    }
  }

  // ----- storing

  lemma PutKeepsRunOk(nodes: seq<Storager>, plan: PrefixSplitPlan, moved: bool, run: Run, op: Operation, n: nat)
    requires RunOk(nodes, plan, moved, run) && n < |nodes| && !(run.parent <= op.keyword.Key())
    ensures RunOk(nodes[n := nodes[n].(records := ApplyToRecords(op, nodes[n].records))], plan, moved, run)
  {
    var nodes' := nodes[n := nodes[n].(records := ApplyToRecords(op, nodes[n].records))];
    forall i | i in run.segments ensures SegmentOk(nodes', plan, moved, run.segments[i], i, i in run.imported) {
      assert SegmentOk(nodes, plan, moved, run.segments[i], i, i in run.imported);
      ParentOfChild(plan, run.parent, |nodes|, i);
      OtherPrefixUntouched(nodes[n].records, op, run.parent, plan.children[i].prefix);
    }
  }

  lemma PutSane(c: Cluster, op: Operation, route: RouteTarget)
    requires Sane(c) && Named(c.ring, op.keyword, route) && route.node < |c.nodes|
    requires c.run.None? || Idle(c.migrations, op.keyword)
    ensures Sane(PutRecord(c, op, route))
  {
    if c.run.Some? {
      var run := c.run.value;
      assert !ActiveIn(c.migrations, run.parent, op.keyword);
      CoveredIff(c, run.parent, op.keyword);
      PutKeepsRunOk(c.nodes, c.migrations[run.parent].plan, c.migrations[run.parent].moved, run, op, route.node);
    }
  }

  // ----- a split that schedules a migration

  /** A leaf's prefix begins the prefix of no split entry. */
  lemma LeafIsNotAbove(ring: RingState, leaf: nat, i: nat)
    requires ring.Forest() && ring.IsLeaf(leaf) && ring.IsSplit(i)
    ensures !(ring.entries[leaf].prefix <= ring.entries[i].prefix)
  {
    var digits := ring.entries[i].prefix;
    assert ring.EntryOk(i);
    KeyOfDigest("", digits);
    var key := Keyword("", DigestOf(digits)).Key();
    if ring.entries[leaf].prefix <= digits {
      ring.RouteIsUnique(key, leaf);
      ring.OnTheWay(i, key);
      ring.DescendDeepens(i, key);
    }
  }

  lemma NewParentIsApart(c: Cluster, leaf: nat, keyword: Keyword, p: string)
    requires Sane(c) && c.ring.CanSplit(leaf) && c.ring.LeafOf(keyword.Key()) == leaf && Idle(c.migrations, keyword)
    requires p in c.migrations && !c.migrations[p].confirmed
    ensures var parent := c.ring.entries[leaf].prefix; !(p <= parent) && !(parent <= p)
  {
    assert PlanStands(c.ring, |c.nodes|, c.migrations[p], p);
    LeafIsNotAbove(c.ring, leaf, c.migrations[p].entry);
    c.ring.RouteIsUnique(keyword.Key(), leaf);
    assert !ActiveIn(c.migrations, p, keyword);
    CoveredIff(c, p, keyword);
  }

  lemma NewParentIsNew(c: Cluster, leaf: nat)
    requires Sane(c) && c.ring.CanSplit(leaf)
    ensures c.ring.entries[leaf].prefix !in c.migrations
    ensures SplitAndSchedule(c, leaf) == c.(
      ring := c.ring.SplitAt(leaf), migrations := Scheduled(c, leaf), queued := c.queued + {c.ring.entries[leaf].prefix})
  {
    var parent := c.ring.entries[leaf].prefix;
    assert PlanFor(c.ring, leaf).source.prefix == parent;
    if parent in c.migrations {
      assert PlanStands(c.ring, |c.nodes|, c.migrations[parent], parent);
      LeafIsNotAbove(c.ring, leaf, c.migrations[parent].entry);
    }
  }

  lemma ScheduledPlansStand(c: Cluster, leaf: nat)
    requires Sane(c) && c.ring.CanSplit(leaf)
    ensures PlansStand(c.ring.SplitAt(leaf), |c.nodes|, Scheduled(c, leaf))
  {
    SplitPlansStand(c.ring, leaf, |c.nodes|, c.migrations);
    NewPlanOk(c.ring, leaf);
    forall p | p in Scheduled(c, leaf)
      ensures PlanStands(c.ring.SplitAt(leaf), |c.nodes|, Scheduled(c, leaf)[p], p)
    {
      if p != c.ring.entries[leaf].prefix {
        assert PlanStands(c.ring.SplitAt(leaf), |c.nodes|, c.migrations[p], p);
      }
    }
  }

  lemma ScheduledApart(c: Cluster, leaf: nat, keyword: Keyword)
    requires Sane(c) && c.ring.CanSplit(leaf) && c.ring.LeafOf(keyword.Key()) == leaf && Idle(c.migrations, keyword)
    ensures Apart(Scheduled(c, leaf))
  {
    var parent, ms' := c.ring.entries[leaf].prefix, Scheduled(c, leaf);
    forall p, q | p in ms' && q in ms' && !ms'[p].confirmed && !ms'[q].confirmed && p <= q ensures p == q {
      if p != parent && q == parent {
        NewParentIsApart(c, leaf, keyword, p);
      } else if p == parent && q != parent {
        NewParentIsApart(c, leaf, keyword, q);
      }
    }
  }

  lemma ScheduleSane(c: Cluster, leaf: nat, keyword: Keyword)
    requires Sane(c) && c.ring.CanSplit(leaf) && c.ring.LeafOf(keyword.Key()) == leaf && Idle(c.migrations, keyword)
    ensures Sane(SplitAndSchedule(c, leaf))
  {
    NewParentIsNew(c, leaf);
    SplitSane(c, leaf);
    ScheduledPlansStand(c, leaf);
    ScheduledApart(c, leaf, keyword);
  }

  // ----- client steps

  /** The cluster after an operation has been stored and counted, before any split. */
  function Counted(c: Cluster, op: Operation, route: RouteTarget, ring: RingState): Cluster
    requires route.node < |c.nodes|
  {
    PutRecord(c, op, route).(ring := ring)
  }

  lemma CountedSane(c: Cluster, op: Operation, route: RouteTarget, ring: RingState)
    requires Sane(c) && Named(c.ring, op.keyword, route) && route.node < |c.nodes| && c.ring.SameShape(ring)
    requires c.run.None? || Idle(c.migrations, op.keyword)
    ensures Sane(Counted(c, op, route, ring))
  {
    PutSane(c, op, route);
    SameShapeSane(PutRecord(c, op, route), ring);
  }

  lemma BufferSane(c: Cluster, parent: string, op: Operation)
    requires Sane(c) && ActiveIn(c.migrations, parent, op.keyword)
    ensures Sane(Buffer(c, parent, op))
  {
    var c' := Buffer(c, parent, op);
    CoveredIff(c, parent, op.keyword);
    BufferStands(c.ring, |c.nodes|, c.migrations[parent], parent, op);
    forall p | p in c'.migrations ensures PlanStands(c'.ring, |c'.nodes|, c'.migrations[p], p) {
      assert PlanStands(c.ring, |c.nodes|, c.migrations[p], p);
    }
  }

  lemma BufferStands(ring: RingState, nodeCount: nat, m: PrefixMigration, parent: string, op: Operation)
    requires PlanStands(ring, nodeCount, m, parent) && !m.confirmed && parent <= op.keyword.Key()
    ensures PlanStands(ring, nodeCount, m.(pending := m.pending + [op]), parent)
  {
    BufferKeepsPending(m.pending, op, parent);
  }

  /** How a client's operation on an idle keyword can end: stored and counted, or with its leaf split besides. */
  lemma ClientStores(c: Cluster, op: Operation, summary: seq<Byte>, c': Cluster) returns (route: RouteTarget, ring: RingState, leaf: nat)
    requires Sane(c) && ClientStep(c, op, summary, c') && Idle(c.migrations, op.keyword)
    ensures RouteKeyword(c, op.keyword) == Some(route) && Named(c.ring, op.keyword, route) && route.node < |c.nodes|
    ensures c.ring.SameShape(ring) && Sane(Counted(c, op, route, ring))
    ensures leaf == c.ring.LeafOf(op.keyword.Key())
    ensures
      || c' == Counted(c, op, route, ring)
      || (op.Add? && c.ring.OwnerOf(op.keyword.Key()) == route.node && ring.CanSplit(leaf) && ring.LeafOf(op.keyword.Key()) == leaf
          && c' == SplitAndSchedule(Counted(c, op, route, ring), leaf))
  {
    RouteIsNamed(c, op.keyword);
    route, leaf := RouteKeyword(c, op.keyword).value, c.ring.LeafOf(op.keyword.Key());
    StoreTakenApart(c, op, route, summary);
    var (stored, event) := Store(c, op, route, summary);
    if event.None? {
      ring := stored.ring;
      CountedSane(c, op, route, ring);
    } else {
      ring :| OwnLeafSplit(c, op, route, stored.ring, event.value, ring);
      CountedSane(c, op, route, ring);
      c.ring.SameShapeKeepsRoutes(ring, op.keyword.Key());
      assert stored == Counted(c, op, route, ring).(ring := ring.SplitAt(leaf));
    }
  }

  lemma ClientSane(c: Cluster, op: Operation, summary: seq<Byte>, c': Cluster)
    requires Sane(c) && ClientStep(c, op, summary, c')
    ensures Sane(c')
  {
    if !Idle(c.migrations, op.keyword) {
      var p :| ActiveIn(c.migrations, p, op.keyword) && c' == Buffer(c, p, op);
      BufferSane(c, p, op);
    } else {
      var route, ring, leaf := ClientStores(c, op, summary, c');
      if c' != Counted(c, op, route, ring) {
        ScheduleSane(Counted(c, op, route, ring), leaf, op.keyword);
      }
    }
  }

  // ----- steps of the running migration

  /** A step that changes storagers and progress only. */
  lemma ProgressSane(c: Cluster, nodes: seq<Storager>, run: Run)
    requires Sane(c) && c.run.Some? && run.parent == c.run.value.parent && |nodes| == |c.nodes|
    requires RunOk(nodes, c.migrations[run.parent].plan, c.migrations[run.parent].moved, run)
    ensures Sane(c.(nodes := nodes, run := Some(run)))
  {}

  lemma PrepareSane(c: Cluster, c': Cluster)
    requires Sane(c) && PrepareStep(c, c')
    ensures Sane(c')
  {
    var run, m := c.run.value, c.migrations[c.run.value.parent];
    if m.plan.IsForeign(run.prepared) {
      PrepareKeepsRun(c.nodes, m.plan, m.moved, run);
    } else {
      StayingChildKeepsRun(c.nodes, m.plan, m.moved, run);
    }
    ProgressSane(c, c'.nodes, c'.run.value);
  }

  lemma MovedStands(ring: RingState, nodeCount: nat, ms: Migrations, p: string, moved: bool)
    requires PlansStand(ring, nodeCount, ms) && Apart(ms) && p in ms
    ensures PlansStand(ring, nodeCount, ms[p := ms[p].(moved := moved)]) && Apart(ms[p := ms[p].(moved := moved)])
  {
    var ms' := ms[p := ms[p].(moved := moved)];
    forall q | q in ms' ensures PlanStands(ring, nodeCount, ms'[q], q) {
      assert PlanStands(ring, nodeCount, ms[q], q);
    }
  }

  lemma MovedSane(c: Cluster, c': Cluster)
    requires Sane(c) && OnlyRunChanges(c, c')
    requires
      var m' := c'.migrations[c'.run.value.parent];
      RunOk(c'.nodes, m'.plan, m'.moved, c'.run.value)
    ensures Sane(c')
  {
    MovedStands(c.ring, |c.nodes|, c.migrations, c.run.value.parent, c'.migrations[c.run.value.parent].moved);
  }

  // ----- replay

  /** One operation of a replay: stored and counted, and its leaf possibly split. */
  lemma StoreSane(c: Cluster, op: Operation, summary: seq<Byte>)
    requires Sane(c) && c.run.None?
    ensures RouteKeyword(c, op.keyword).Some? && RouteKeyword(c, op.keyword).value.node < |c.nodes|
    ensures
      var stored := Store(c, op, RouteKeyword(c, op.keyword).value, summary).0;
      Sane(stored) && stored.migrations == c.migrations && stored.run == c.run && |stored.nodes| == |c.nodes|
  {
    RouteIsNamed(c, op.keyword);
    var route := RouteKeyword(c, op.keyword).value;
    StoreTakenApart(c, op, route, summary);
    var (stored, event) := Store(c, op, route, summary);
    if event.None? {
      CountedSane(c, op, route, stored.ring);
    } else {
      var before :| OwnLeafSplit(c, op, route, stored.ring, event.value, before);
      CountedSane(c, op, route, before);
      SplitSane(Counted(c, op, route, before), c.ring.LeafOf(op.keyword.Key()));
      assert stored == Counted(c, op, route, before).(ring := before.SplitAt(c.ring.LeafOf(op.keyword.Key())));
    }
  }

  /** The cluster after one operation of a replay. */
  ghost function After(c: Cluster, op: Operation, summary: seq<Byte>): (stored: Cluster)
    requires Sane(c) && c.run.None?
    ensures Sane(stored) && stored.migrations == c.migrations && stored.run.None? && |stored.nodes| == |c.nodes|
  {
    StoreSane(c, op, summary);
    Store(c, op, RouteKeyword(c, op.keyword).value, summary).0
  }

  /** A replay never fails for want of a route. */
  lemma {:induction false} ReplaySane(c: Cluster, ops: seq<Operation>, summaries: seq<seq<Byte>>)
    requires Sane(c) && c.run.None? && |summaries| == |ops|
    ensures ReplayAll(c, ops, summaries).Some? && Sane(ReplayAll(c, ops, summaries).value)
    ensures
      var r := ReplayAll(c, ops, summaries).value;
      r.migrations == c.migrations && r.run.None? && |r.nodes| == |c.nodes|
    decreases |ops|
  {
    if ops != [] {
      StoreSane(c, ops[0], summaries[0]);
      ReplaySane(After(c, ops[0], summaries[0]), ops[1..], summaries[1..]);
    }
  }

  /** The cluster at the end of a replay. */
  ghost function End(c: Cluster, ops: seq<Operation>, summaries: seq<seq<Byte>>): (r: Cluster)
    requires Sane(c) && c.run.None? && |summaries| == |ops|
    ensures Sane(r) && r.migrations == c.migrations && r.run.None? && |r.nodes| == |c.nodes|
  {
    ReplaySane(c, ops, summaries);
    ReplayAll(c, ops, summaries).value
  }

  lemma EndStep(c: Cluster, ops: seq<Operation>, summaries: seq<seq<Byte>>)
    requires Sane(c) && c.run.None? && |summaries| == |ops| && ops != []
    ensures End(c, ops, summaries) == End(After(c, ops[0], summaries[0]), ops[1..], summaries[1..])
  {
    StoreSane(c, ops[0], summaries[0]);
  }

  /** Dropping overrides and ending the run, with other flags in one migration. */
  lemma WithoutRunSane(c: Cluster, parent: string, m: PrefixMigration, overrides: map<Keyword, RouteTarget>)
    requires Sane(c) && parent in c.migrations && parent !in c.queued && m.plan == c.migrations[parent].plan
    requires m.entry == c.migrations[parent].entry && m.pending == [] && (!m.confirmed ==> !c.migrations[parent].confirmed)
    requires overrides.Keys <= c.overrides.Keys && forall k :: k in overrides ==> overrides[k] == c.overrides[k]
    ensures Sane(c.(overrides := overrides, migrations := c.migrations[parent := m], run := None))
  {
    var ms' := c.migrations[parent := m];
    forall p | p in ms' ensures PlanStands(c.ring, |c.nodes|, ms'[p], p) {
      assert PlanStands(c.ring, |c.nodes|, c.migrations[p], p);
    }
  }

  lemma SettledSane(c: Cluster)
    requires Sane(c) && c.run.Some?
    ensures Sane(Settled(c))
  {
    var parent := c.run.value.parent;
    WithoutRunSane(c, parent, c.migrations[parent].(confirmed := true, pending := []), DropOverridesUnder(c.overrides, parent));
  }

  lemma TakenSane(c: Cluster)
    requires Sane(c) && c.run.Some?
    ensures Sane(Taken(c, c.run.value.parent).(run := None))
  {
    var parent := c.run.value.parent;
    WithoutRunSane(c, parent, c.migrations[parent].(pending := []), DropOverridesUnder(c.overrides, parent));
  }

  lemma FinishAllSane(c: Cluster, summaries: seq<seq<Byte>>, c': Cluster)
    requires Sane(c) && FinishAllStep(c, summaries, c')
    ensures Sane(c')
  {
    SettledSane(c);
    FinishAllIsReplay(c, summaries, c');
    ReplaySane(Settled(c), c.migrations[c.run.value.parent].pending, summaries);
  }

  lemma StopReplaySane(c: Cluster, summaries: seq<seq<Byte>>, c': Cluster)
    requires Sane(c) && StopReplayStep(c, summaries, c')
    ensures Sane(c')
  {
    var parent := c.run.value.parent;
    TakenSane(c);
    StopReplayIsReplay(c, summaries, c');
    ReplaySane(Taken(c, parent).(run := None), c.migrations[parent].pending[..|summaries|], summaries);
  }

  // ----- all steps

  lemma PresplitSane(c: Cluster, prefix: string, incoming: nat)
    requires Sane(c)
    ensures Sane(c.(ring := c.ring.Apply(Presplit(prefix, incoming)).0))
  {
    PresplitIff(c.ring, prefix, incoming);
    var event := c.ring.Apply(Presplit(prefix, incoming)).2;
    if event.Some? {
      SplitSane(c, event.value.parentEntryIndex);
    }
  }

  lemma StepSane(c: Cluster, step: Step, c': Cluster)
    requires Sane(c) && !step.FinishMigration? && !step.PresplitPrefix? && Next(c, step, c')
    ensures Sane(c')
  {
    match step
    case Client(op, summary) => ClientSane(c, op, summary, c');
    case UpdateSummary(prefix, summary) =>
      c.ring.UpdateSummaryKeepsShape(prefix, summary);
      SameShapeSane(c, c'.ring);
    case StartMigration(parent) => assert PlanStands(c.ring, |c.nodes|, c.migrations[parent], parent);
    case PrepareChild => PrepareSane(c, c');
    case ImportChild(i) =>
      ImportKeepsRun(c.nodes, c.migrations[c.run.value.parent].plan, c.migrations[c.run.value.parent].moved, c.run.value, i);
    case ConfirmChild =>
      ConfirmKeepsRun(c, c');
      MovedSane(c, c');
    case AbortMigration =>
  }

  lemma CodeNextSane(c: Cluster, step: CodeStep, c': Cluster)
    requires Sane(c) && CodeNext(c, step, c')
    ensures Sane(c')
  {
    match step
    case Take(s) => StepSane(c, s, c');
    case PresplitAny(prefix, incoming) => PresplitSane(c, prefix, incoming);
    case FinishAll(summaries) => FinishAllSane(c, summaries, c');
    case StopReplay(summaries) => StopReplaySane(c, summaries, c');
  }

  lemma {:induction false} CodeRunSane(trace: seq<Cluster>, steps: seq<CodeStep>, n: nat)
    requires IsCodeRun(trace, steps) && n <= |steps|
    ensures Sane(trace[n])
  {
    if n > 0 {
      CodeRunSane(trace, steps, n - 1);
      assert StepTaken(trace, steps, n - 1);
      CodeNextSane(trace[n - 1], steps[n - 1], trace[n]);
    }
  }
}
