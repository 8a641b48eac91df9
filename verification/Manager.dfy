/** The manager object. Its fields change in place under a client's operations and the background
    migration; each method is proved to take steps of the machine in module `Migration`. The storagers'
    states stand for the remote storagers, and whether a remote call gets through is a parameter. */
module Manager {
  import opened Wrappers
  import opened Hex
  import opened Ring
  import opened Routing
  import opened AccTree
  import opened Migration
  import opened MigrationInvariant
  import opened MigrationClient
  import opened MigrationServer
  import opened MigrationPresplit
  import opened MigrationTheorems
  import opened MigrationReads
  import opened Presplit
  import opened Unguarded
  import opened ReplaySplits
  import MigrationProgress
  import UnguardedReads
  import UnguardedRuns
  import Router

  /** How a background migration ended. */
  datatype Outcome = Completed | Aborted | ReplayFailed | NestedSplit

  /** What the network does to the calls of a migration: which get through, by child or by buffered operation, and the
      summaries that are published and those that replayed calls return. */
  datatype Calls = Calls(
    prepares: nat -> bool, imports: nat -> bool, confirms: nat -> bool, replays: nat -> bool,
    published: nat -> seq<Byte>, returned: nat -> seq<Byte>)

  /** The children that leave the source. */
  function ForeignChildren(plan: PrefixSplitPlan): set<nat> {
    set i: nat | i < |plan.children| && plan.IsForeign(i)
  }

  predicate AllThrough(reached: nat -> bool, children: set<nat>) {
    forall i :: i in children ==> reached(i)
  }

  /** All calls up to the replay get through. */
  predicate HandsOver(plan: PrefixSplitPlan, calls: Calls) {
    var foreign := ForeignChildren(plan);
    AllThrough(calls.prepares, foreign) && AllThrough(calls.imports, foreign) && AllThrough(calls.confirms, foreign)
  }

  /** Those of the children before `n` got through. */
  predicate ThroughBefore(reached: nat -> bool, children: set<nat>, n: nat) {
    forall i :: i in children && i < n ==> reached(i)
  }

  /** The first `n` buffered operations got through, with these replies. */
  predicate RepliesAre(calls: Calls, n: nat, replies: seq<seq<Byte>>) {
    |replies| == n && forall i: nat :: i < n ==> calls.replays(i) && replies[i] == calls.returned(i)
  }

  lemma OneMoreReply(calls: Calls, n: nat, replies: seq<seq<Byte>>)
    requires RepliesAre(calls, n, replies) && calls.replays(n)
    ensures RepliesAre(calls, n + 1, replies + [calls.returned(n)])
  {}

  const SOME_KEYWORD: Keyword := Keyword("", seq(16, _ => 0))

  ghost predicate SameContents(c: Cluster, c': Cluster)
    requires MigrationsOk(c.ring, |c.nodes|, c.migrations) && MigrationsOk(c'.ring, |c'.nodes|, c'.migrations)
  {
    forall k: Keyword :: Contents(c', k) == Contents(c, k)
  }

  ghost predicate ClusterOk(c: Cluster) {
    Inv(c) && SourceOverrides(c.migrations, c.overrides)
  }

  // ----- the machine's steps, for all keywords at once

  ghost predicate KeptFor(c: Cluster, c': Cluster, k: Keyword)
    requires MigrationsOk(c.ring, |c.nodes|, c.migrations)
  {
    Inv(c') && Contents(c', k) == Contents(c, k)
  }

  lemma KeptForAll(c: Cluster, c': Cluster)
    requires ClusterOk(c) && forall k: Keyword :: KeptFor(c, c', k)
    ensures Inv(c') && SameContents(c, c')
  {
    assert KeptFor(c, c', SOME_KEYWORD);
    forall k: Keyword ensures Contents(c', k) == Contents(c, k) {
      assert KeptFor(c, c', k);
    }
  }

  lemma StartOk(c: Cluster, parent: string, c': Cluster)
    requires ClusterOk(c) && StartStep(c, parent, c')
    ensures ClusterOk(c') && SameContents(c, c')
  {
    forall k: Keyword ensures KeptFor(c, c', k) {
      StartKeeps(c, parent, c', k);
    }
    KeptForAll(c, c');
  }

  lemma PrepareOk(c: Cluster, c': Cluster)
    requires ClusterOk(c) && PrepareStep(c, c')
    ensures ClusterOk(c') && SameContents(c, c')
  {
    forall k: Keyword ensures KeptFor(c, c', k) {
      PrepareKeeps(c, c', k);
    }
    KeptForAll(c, c');
  }

  lemma ImportOk(c: Cluster, i: nat, c': Cluster)
    requires ClusterOk(c) && ImportStep(c, i, c')
    ensures ClusterOk(c') && SameContents(c, c')
  {
    forall k: Keyword ensures KeptFor(c, c', k) {
      ImportKeeps(c, i, c', k);
    }
    KeptForAll(c, c');
  }

  lemma ConfirmOk(c: Cluster, c': Cluster)
    requires ClusterOk(c) && ConfirmStep(c, c')
    ensures ClusterOk(c') && SameContents(c, c')
  {
    ConfirmKeepsSource(c, c');
    forall k: Keyword ensures KeptFor(c, c', k) {
      ConfirmKeeps(c, c', k);
    }
    KeptForAll(c, c');
  }

  /** The source has confirmed child `i`. */
  lemma ChildConfirmed(c: Cluster, parent: string, i: nat, segments: map<nat, Segment>, c': Cluster)
    requires ClusterOk(c) && c.run == Some(Run(parent, 16, segments, segments.Keys, i)) && i in segments
    requires
      var m := c.migrations[parent];
      var source, prefix := c.nodes[m.plan.source.node], m.plan.children[i].prefix;
      && source.Confirm(prefix).Ok?
      && c' == c.(nodes := c.nodes[m.plan.source.node := source.Confirm(prefix).value],
                  migrations := c.migrations[parent := m.(moved := m.moved || Deletes(source, prefix))],
                  run := Some(Run(parent, 16, segments, segments.Keys, i + 1)))
    ensures ClusterOk(c') && SameContents(c, c')
  {
    ChildConfirmStep(c, parent, i, segments, c');
    ConfirmOk(c, c');
  }

  lemma ChildConfirmStep(c: Cluster, parent: string, i: nat, segments: map<nat, Segment>, c': Cluster)
    requires parent in c.migrations && |c.migrations[parent].plan.children| == 16 && i < 16 && i in segments
    requires c.run == Some(Run(parent, 16, segments, segments.Keys, i)) && c.migrations[parent].plan.source.node < |c.nodes|
    requires
      var m := c.migrations[parent];
      var source, prefix := c.nodes[m.plan.source.node], m.plan.children[i].prefix;
      && source.Confirm(prefix).Ok?
      && c' == c.(nodes := c.nodes[m.plan.source.node := source.Confirm(prefix).value],
                  migrations := c.migrations[parent := m.(moved := m.moved || Deletes(source, prefix))],
                  run := Some(Run(parent, 16, segments, segments.Keys, i + 1)))
    ensures ConfirmStep(c, c')
  {}

  lemma SegmentsAreChildren(c: Cluster, i: nat)
    requires Inv(c) && c.run.Some? && i in c.run.value.segments
    ensures i < 16 && c.migrations[c.run.value.parent].plan.IsForeign(i)
  {}

  predicate ImportsLeft(keys: set<nat>, remaining: set<nat>, imported: set<nat>, reached: nat -> bool, done: bool) {
    && remaining <= keys && imported !! remaining && (done ==> imported == keys - remaining)
    && (done <==> AllThrough(reached, keys - remaining))
  }

  lemma OneImportLess(keys: set<nat>, remaining: set<nat>, imported: set<nat>, reached: nat -> bool, done: bool, i: nat)
    requires ImportsLeft(keys, remaining, imported, reached, done) && i in remaining
    ensures ImportsLeft(keys, remaining - {i}, if reached(i) then imported + {i} else imported, reached, done && reached(i))
  {}

  lemma SummaryOk(c: Cluster, prefix: string, summary: seq<Byte>, c': Cluster)
    requires ClusterOk(c) && c' == c.(ring := c.ring.Apply(SetRootSummary(prefix, summary)).0)
    ensures ClusterOk(c') && SameContents(c, c')
  {
    forall k: Keyword ensures KeptFor(c, c', k) {
      SummaryKeeps(c, prefix, summary, c', k);
    }
    KeptForAll(c, c');
  }

  lemma AbortOk(c: Cluster)
    requires ClusterOk(c)
    ensures ClusterOk(c.(run := None)) && SameContents(c, c.(run := None))
  {}

  ghost predicate ContentsAfter(c: Cluster, op: Operation, c': Cluster)
    requires MigrationsOk(c.ring, |c.nodes|, c.migrations) && MigrationsOk(c'.ring, |c'.nodes|, c'.migrations)
  {
    forall k: Keyword :: Contents(c', k) == if k == op.keyword then ApplyToFids(op, Contents(c, k)) else Contents(c, k)
  }

  /** A client's step changes the contents of its keyword as the plain operation does. */
  lemma ClientStepOk(c: Cluster, op: Operation, summary: seq<Byte>, c': Cluster)
    requires ClusterOk(c) && ClientStep(c, op, summary, c')
    ensures ClusterOk(c') && ContentsAfter(c, op, c')
  {
    ClientStepRefines(c, op, summary, c', op.keyword);
    ClientKeepsSource(c, op, summary, c');
    forall k: Keyword
      ensures Contents(c', k) == if k == op.keyword then ApplyToFids(op, Contents(c, k)) else Contents(c, k)
    {
      ClientStepRefines(c, op, summary, c', k);
    }
  }

  // ----- replay

  /** The state replay works towards: as now, but with the migration settled. */
  ghost function Towards(c: Cluster, settled: Cluster): Cluster {
    c.(migrations := settled.migrations, run := settled.run)
  }

  ghost predicate OverridesInRange(c: Cluster) {
    forall k :: k in c.overrides ==> c.overrides[k].node < |c.nodes|
  }

  lemma OkIsInRange(c: Cluster)
    requires ClusterOk(c)
    ensures OverridesInRange(c)
  {
    forall k | k in c.overrides ensures c.overrides[k].node < |c.nodes| {
      if Idle(c.migrations, k) {
        RouteOfIdle(c, k);
      } else {
        var p :| ActiveIn(c.migrations, p, k);
        assert MigrationOk(c.ring, |c.nodes|, c.migrations[p], p);
      }
    }
  }

  lemma LookupInRange(ring: RingState, k: Keyword)
    requires ring.Forest()
    ensures RingLookup(ring, k).Some? && RingLookup(ring, k).value.node < |ring.nodeNames|
  {
    ring.RouteIsUnique(k.Key(), ring.LeafOf(k.Key()));
  }

  /** What has been replayed so far. */
  ghost predicate Replayed(settled: Cluster, ops: seq<Operation>, c: Cluster)
    requires MigrationsOk(settled.ring, |settled.nodes|, settled.migrations)
  {
    && ClusterOk(c) && c.migrations == settled.migrations
    && forall k: Keyword :: Contents(c, k) == ApplyAll(OpsFor(ops, k), Contents(settled, k))
  }

  lemma NothingReplayed(settled: Cluster)
    requires ClusterOk(settled)
    ensures Replayed(settled, [], settled)
  {}

  lemma ReplayedOneMore(settled: Cluster, ops: seq<Operation>, c: Cluster, op: Operation, summary: seq<Byte>)
    requires ClusterOk(settled) && Replayed(settled, ops, c) && Idle(settled.migrations, op.keyword)
    ensures RouteKeyword(c, op.keyword).Some? && RouteKeyword(c, op.keyword).value.node < |c.nodes|
    ensures
      var (stored, event) := Store(c, op, RouteKeyword(c, op.keyword).value, summary);
      event.None? ==> Replayed(settled, ops + [op], stored)
  {
    RouteOfIdle(c, op.keyword);
    var (stored, event) := Store(c, op, RouteKeyword(c, op.keyword).value, summary);
    if event.None? {
      ClientStepOk(c, op, summary, stored);
      forall k: Keyword ensures Contents(stored, k) == ApplyAll(OpsFor(ops + [op], k), Contents(settled, k)) {
        BufferedContents(ops, op, k, Contents(settled, k));
      }
    }
  }

  /** Replaying everything brings back the contents the pending operations stood for. */
  lemma AllReplayed(c: Cluster, done: Cluster)
    requires ClusterOk(c) && c.run.Some? && c.run.value.confirmedUpTo == 16 && ClusterOk(Settled(c))
    requires Replayed(Settled(c), c.migrations[c.run.value.parent].pending, done)
    ensures SameContents(c, done)
  {
    forall k: Keyword ensures Contents(done, k) == Contents(c, k) {
      SettledContents(c, k);
    }
  }

  lemma MigrationsSettled(ms: Migrations, parent: string)
    requires parent in ms
    ensures
      var taken := ms[parent := ms[parent].(pending := [])];
      taken[parent := taken[parent].(confirmed := true)] == ms[parent := ms[parent].(confirmed := true, pending := [])]
  {}

  /** Of the operations buffered in `c`, `applied` have been applied and the others are gone; the migration stays
      unconfirmed. */
  ghost predicate StoppedAfter(c: Cluster, parent: string, applied: nat, stopped: Cluster) {
    && c.run.Some? && c.run.value.parent == parent && parent in c.migrations
    && applied < |c.migrations[parent].pending|
    && ClusterOk(Settled(c)) && Replayed(Settled(c), c.migrations[parent].pending[..applied], Towards(stopped, Settled(c)))
    && stopped.migrations == c.migrations[parent := c.migrations[parent].(pending := [])]
  }

  ghost predicate ReadyToSettle(c: Cluster, parent: string) {
    ClusterOk(c) && c.run.Some? && c.run.value.parent == parent && c.run.value.confirmedUpTo == 16
  }

  lemma SettledIsOk(c: Cluster)
    requires ClusterOk(c) && c.run.Some?
    ensures ClusterOk(Settled(c))
    ensures AllIdle(Settled(c).migrations, c.migrations[c.run.value.parent].pending)
  {
    SettledKeepsInv(c);
    SettledKeepsSource(c);
    PendingIsIdleAfterwards(c);
  }

  lemma ReadyIsInRange(c: Cluster, parent: string)
    requires ReadyToSettle(c, parent)
    ensures parent in c.migrations && |c.nodes| == |c.ring.nodeNames|
    ensures OverridesInRange(c.(overrides := DropOverridesUnder(c.overrides, parent)))
  {
    OkIsInRange(c);
  }

  lemma RouteExists(c: Cluster, k: Keyword)
    requires c.ring.Forest() && OverridesInRange(c) && |c.nodes| == |c.ring.nodeNames|
    ensures RouteKeyword(c, k).Some? && RouteKeyword(c, k).value.node < |c.nodes|
  {
    LookupInRange(c.ring, k);
  }

  lemma StoreTowards(c: Cluster, settled: Cluster, op: Operation, route: RouteTarget, summary: seq<Byte>)
    requires route.node < |c.nodes|
    ensures Store(Towards(c, settled), op, route, summary).0 == Towards(Store(c, op, route, summary).0, settled)
    ensures Store(Towards(c, settled), op, route, summary).1 == Store(c, op, route, summary).1
  {}

  lemma ReplayTowards(settled: Cluster, ops: seq<Operation>, i: nat, c: Cluster, summary: seq<Byte>)
    requires ClusterOk(settled) && i < |ops| && AllIdle(settled.migrations, ops)
    requires Replayed(settled, ops[..i], Towards(c, settled))
    ensures c.ring.Valid() && RouteKeyword(c, ops[i].keyword).Some? && RouteKeyword(c, ops[i].keyword).value.node < |c.nodes|
    ensures
      var (stored, event) := Store(c, ops[i], RouteKeyword(c, ops[i].keyword).value, summary);
      event.None? ==> Replayed(settled, ops[..i + 1], Towards(stored, settled))
  {
    ReplayedOneMore(settled, ops[..i], Towards(c, settled), ops[i], summary);
    assert ops[..i + 1] == ops[..i] + [ops[i]];
    StoreTowards(c, settled, ops[i], RouteKeyword(c, ops[i].keyword).value, summary);
  }

  /** How far a replay has come: the operations applied so far lead, as the code's loop applies them, to this state, and
      `nested` tells whether one of them has split a leaf. */
  ghost predicate ReplayedTo(
      c: Cluster, parent: string, applied: nat, summaries: seq<seq<Byte>>, nested: bool, now: Cluster)
    requires c.run.Some? && c.run.value.parent == parent && parent in c.migrations
  {
    && Sane(Settled(c)) && |summaries| == applied <= |c.migrations[parent].pending| && Taken(c, parent).ring.Valid()
    && ReplayAll(Taken(c, parent), c.migrations[parent].pending[..applied], summaries) == Some(now)
    && (nested <==> !NoSplits(Settled(c), c.migrations[parent].pending[..applied], summaries))
  }

  lemma ReplayStarts(c: Cluster, parent: string)
    requires ReadyToSettle(c, parent)
    ensures ReplayedTo(c, parent, 0, [], false, Taken(c, parent))
  {
    UnguardedRuns.InvIsSane(c);
    SettledSane(c);
    assert c.migrations[parent].pending[..0] == [];
  }

  lemma EndIsTowards(c: Cluster, parent: string, applied: nat, summaries: seq<seq<Byte>>, nested: bool, now: Cluster)
    requires c.run.Some? && c.run.value.parent == parent && parent in c.migrations && ReplayedTo(c, parent, applied, summaries, nested, now)
    ensures End(Settled(c), c.migrations[parent].pending[..applied], summaries) == Towards(now, Settled(c))
  {
    var s, t := Settled(c), Taken(c, parent);
    ReplayAllIgnores(t, c.migrations[parent].pending[..applied], summaries, s.migrations, None);
    assert t.(migrations := s.migrations, run := None) == s;
  }

  lemma NestedOn(
      c: Cluster, parent: string, applied: nat, summaries: seq<seq<Byte>>, nested: bool, now: Cluster, op: Operation, summary: seq<Byte>)
    requires c.run.Some? && c.run.value.parent == parent && parent in c.migrations && ReplayedTo(c, parent, applied, summaries, nested, now)
    requires now.ring.Valid() && RouteKeyword(now, op.keyword).Some? && RouteKeyword(now, op.keyword).value.node < |now.nodes|
    ensures
      var split := Store(now, op, RouteKeyword(now, op.keyword).value, summary).1.Some?;
      nested || split <==> !NoSplits(Settled(c), c.migrations[parent].pending[..applied] + [op], summaries + [summary])
  {
    NoSplitsSnoc(Settled(c), c.migrations[parent].pending[..applied], summaries, op, summary);
    EndIsTowards(c, parent, applied, summaries, nested, now);
    StoreTowards(now, Settled(c), op, RouteKeyword(now, op.keyword).value, summary);
  }

  lemma OnePrefixMore(ops: seq<Operation>, n: nat)
    requires n < |ops|
    ensures ops[..n + 1] == ops[..n] + [ops[n]]
  {}

  lemma ReplayedOn(
      c: Cluster, parent: string, applied: nat, summaries: seq<seq<Byte>>, nested: bool, now: Cluster, op: Operation, summary: seq<Byte>)
    requires c.run.Some? && c.run.value.parent == parent && parent in c.migrations && ReplayedTo(c, parent, applied, summaries, nested, now)
    requires applied < |c.migrations[parent].pending| && op == c.migrations[parent].pending[applied]
    requires now.ring.Valid() && RouteKeyword(now, op.keyword).Some? && RouteKeyword(now, op.keyword).value.node < |now.nodes|
    requires Store(now, op, RouteKeyword(now, op.keyword).value, summary).0.ring.Valid()
    ensures
      var (stored, event) := Store(now, op, RouteKeyword(now, op.keyword).value, summary);
      ReplayedTo(c, parent, applied + 1, summaries + [summary], nested || event.Some?, stored)
  {
    var pending := c.migrations[parent].pending;
    OnePrefixMore(pending, applied);
    ReplayAllSnoc(Taken(c, parent), pending[..applied], summaries, now, op, summary);
    NestedOn(c, parent, applied, summaries, nested, now, op, summary);
  }

  /** The same, and what it has made of all contents while no leaf was split. */
  ghost predicate InReplay(c: Cluster, parent: string, applied: nat, summaries: seq<seq<Byte>>, nested: bool, now: Cluster)
    requires c.run.Some? && c.run.value.parent == parent && parent in c.migrations && ClusterOk(Settled(c))
  {
    && ReplayedTo(c, parent, applied, summaries, nested, now)
    && (!nested ==> Replayed(Settled(c), c.migrations[parent].pending[..applied], Towards(now, Settled(c))))
  }

  lemma InReplayFirst(c: Cluster, parent: string)
    requires ReadyToSettle(c, parent) && ClusterOk(Settled(c))
    ensures InReplay(c, parent, 0, [], false, Taken(c, parent))
  {
    ReplayStarts(c, parent);
    assert Towards(Taken(c, parent), Settled(c)) == Settled(c);
    assert c.migrations[parent].pending[..0] == [];
    NothingReplayed(Settled(c));
  }

  lemma InReplayOn(
      c: Cluster, parent: string, i: nat, summaries: seq<seq<Byte>>, nested: bool, now: Cluster, op: Operation, summary: seq<Byte>)
    requires c.run.Some? && c.run.value.parent == parent && parent in c.migrations && ClusterOk(Settled(c))
    requires AllIdle(Settled(c).migrations, c.migrations[parent].pending) && InReplay(c, parent, i, summaries, nested, now)
    requires i < |c.migrations[parent].pending| && op == c.migrations[parent].pending[i] && now.ring.Valid()
    requires RouteKeyword(now, op.keyword).Some? && RouteKeyword(now, op.keyword).value.node < |now.nodes|
    requires Store(now, op, RouteKeyword(now, op.keyword).value, summary).0.ring.Valid()
    ensures
      var (stored, event) := Store(now, op, RouteKeyword(now, op.keyword).value, summary);
      InReplay(c, parent, i + 1, summaries + [summary], nested || event.Some?, stored)
  {
    ReplayedOn(c, parent, i, summaries, nested, now, op, summary);
    if !nested {
      ReplayTowards(Settled(c), c.migrations[parent].pending, i, now, summary);
    }
  }

  /** A replay that has gone through finishes the migration, with or without nested splits; which of the two is decided
      by the counters and the buffered operations. */
  lemma ReplayedIsFinish(c: Cluster, parent: string, summaries: seq<seq<Byte>>, nested: bool, now: Cluster)
    requires ReadyToSettle(c, parent) && ReplayedTo(c, parent, |c.migrations[parent].pending|, summaries, nested, now)
    ensures
      var ms := c.migrations[parent := c.migrations[parent].(confirmed := true, pending := [])];
      FinishAllStep(c, summaries, now.(migrations := ms, run := None))
    ensures nested <==> !AllFit(c.ring, c.migrations[parent].pending)
  {
    var pending := c.migrations[parent].pending;
    assert pending[..|pending|] == pending;
    UnguardedRuns.InvIsSane(c);
    UnguardedReads.PlanHas16(c, parent);
    UnguardedRuns.BufferedByRing(c);
    NoSplitsIff(Settled(c), pending, summaries);
  }

  lemma ReplayedIsStop(c: Cluster, parent: string, applied: nat, summaries: seq<seq<Byte>>, nested: bool, now: Cluster)
    requires ReadyToSettle(c, parent) && ReplayedTo(c, parent, applied, summaries, nested, now)
    requires applied < |c.migrations[parent].pending|
    ensures StopReplayStep(c, summaries, now.(run := None))
  {
    UnguardedRuns.InvIsSane(c);
    UnguardedReads.PlanHas16(c, parent);
  }

  // ----- presplitting for a batch

  predicate IsDescendantOfAny(prefix: string, ancestors: set<string>) {
    exists a :: a in ancestors && a <= prefix
  }

  /** Overrides name a prefix of their keyword. */
  ghost predicate OverridesUnder(overrides: map<Keyword, RouteTarget>) {
    forall k :: k in overrides ==> overrides[k].prefix <= k.Key() && LowerHex(overrides[k].prefix)
  }

  lemma OkIsUnder(c: Cluster)
    requires ClusterOk(c)
    ensures OverridesUnder(c.overrides)
  {
    forall k | k in c.overrides ensures c.overrides[k].prefix <= k.Key() && LowerHex(c.overrides[k].prefix) {
      if Idle(c.migrations, k) {
        LookupIsUnder(c.ring, k);
      } else {
        var p :| ActiveIn(c.migrations, p, k);
        ActiveRoute(c.ring, |c.nodes|, c.migrations, p, k);
      }
    }
  }

  lemma LookupIsUnder(ring: RingState, k: Keyword)
    requires ring.Forest()
    ensures RingLookup(ring, k).Some? && RingLookup(ring, k).value.prefix == LeafPrefix(ring, k)
  {
    ring.RouteIsUnique(k.Key(), ring.LeafOf(k.Key()));
  }

  /** The prefix an item is counted under. */
  ghost function PrefixOf(ring: RingState, overrides: map<Keyword, RouteTarget>, k: Keyword): string
    requires ring.Forest()
  {
    if k in overrides then overrides[k].prefix else LeafPrefix(ring, k)
  }

  /** How many items are counted under a prefix. */
  ghost function RouteCount(ring: RingState, overrides: map<Keyword, RouteTarget>, items: seq<Keyword>, prefix: string): nat
    requires ring.Forest()
  {
    if items == [] then 0
    else
      RouteCount(ring, overrides, items[..|items| - 1], prefix) + if PrefixOf(ring, overrides, items[|items| - 1]) == prefix then 1 else 0
  }

  lemma {:induction false} CountedItem(ring: RingState, overrides: map<Keyword, RouteTarget>, items: seq<Keyword>, prefix: string)
    requires ring.Forest() && RouteCount(ring, overrides, items, prefix) > 0
    ensures exists k :: k in items && PrefixOf(ring, overrides, k) == prefix
    decreases |items|
  {
    var last := |items| - 1;
    if PrefixOf(ring, overrides, items[last]) != prefix {
      CountedItem(ring, overrides, items[..last], prefix);
    }
  }

  ghost predicate CountsRoutes(ring: RingState, overrides: map<Keyword, RouteTarget>, items: seq<Keyword>, counts: map<string, nat>)
    requires ring.Forest()
  {
    forall p: string ::
      && (p in counts <==> RouteCount(ring, overrides, items, p) > 0)
      && (p in counts ==> counts[p] == RouteCount(ring, overrides, items, p))
  }

  /** Every prefix without counted operations that more items route to than the threshold has been split. */
  ghost predicate CrowdedAreSplit(ring: RingState, ring': RingState, overrides: map<Keyword, RouteTarget>, items: seq<Keyword>)
    requires ring.Forest()
  {
    forall p: string :: Eligible(ring, p, RouteCount(ring, overrides, items, p)) ==> DeepensUnder(ring, ring', p)
  }

  lemma CrowdedStaySplit(before: RingState, ring: RingState, ring': RingState, overrides: map<Keyword, RouteTarget>, items: seq<Keyword>)
    requires Deepens(before, ring) && Deepens(ring, ring') && CrowdedAreSplit(before, ring, overrides, items)
    ensures CrowdedAreSplit(before, ring', overrides, items)
  {
    forall p: string | Eligible(before, p, RouteCount(before, overrides, items, p)) ensures DeepensUnder(before, ring', p) {
      DeepensUnderAlong(before, ring, ring', p);
    }
  }

  /** The parents of the first `n` plans. */
  function Parents(plans: seq<PrefixSplitPlan>, n: nat): set<string>
    requires n <= |plans|
  {
    if n == 0 then {} else Parents(plans, n - 1) + {plans[n - 1].source.prefix}
  }

  /** A split counts as applied if its parent is not below a known one, and then that parent is known from
      there on. */
  ghost predicate Recorded(parents: set<string>, known: set<string>, applied: bool, prefixes: set<string>) {
    && (applied <==> exists p :: p in parents && !IsDescendantOfAny(p, known))
    && known <= prefixes <= known + parents && (!applied ==> prefixes == known)
    && forall p :: p in parents ==> IsDescendantOfAny(p, prefixes)
  }

  lemma RecordOneMore(parents: set<string>, known: set<string>, applied: bool, prefixes: set<string>, parent: string)
    requires Recorded(parents, known, applied, prefixes)
    ensures
      if IsDescendantOfAny(parent, prefixes) then Recorded(parents + {parent}, known, applied, prefixes)
      else Recorded(parents + {parent}, known, true, prefixes + {parent})
  {
    if !IsDescendantOfAny(parent, prefixes) {
      assert parent in prefixes + {parent} && parent <= parent;
    }
  }

  // ----- what presplits do to records

  /** Nothing is stored, overridden or on the move under the prefix. */
  ghost predicate EmptyUnder(c: Cluster, prefix: string) {
    forall k: Keyword :: prefix <= k.Key() ==> Idle(c.migrations, k) && k !in c.overrides && StoredNowhere(c, k)
  }

  /** What the presplit loop takes for granted: a leaf that has counted no operation is empty. */
  ghost predicate UncountedAreEmpty(c: Cluster) {
    forall i: nat :: c.ring.CanSplit(i) && c.ring.entries[i].counter == 0 ==> EmptyUnder(c, c.ring.entries[i].prefix)
  }

  lemma ChildrenAreEmpty(c: Cluster, leaf: nat, i: nat)
    requires UncountedAreEmpty(c) && c.ring.CanSplit(leaf) && c.ring.entries[leaf].counter == 0
    requires c.ring.SplitAt(leaf).CanSplit(i) && c.ring.SplitAt(leaf).entries[i].counter == 0
    ensures EmptyUnder(Presplitted(c, leaf), c.ring.SplitAt(leaf).entries[i].prefix)
  {
    var split := c.ring.SplitAt(leaf);
    if i < |c.ring.entries| {
      assert split.entries[i] == c.ring.entries[i] && c.ring.CanSplit(i);
      assert EmptyUnder(c, c.ring.entries[i].prefix);
    } else {
      assert split.entries[i] == c.ring.ChildEntry(leaf, i - |c.ring.entries|);
      assert c.ring.entries[leaf].prefix <= split.entries[i].prefix;
      assert EmptyUnder(c, c.ring.entries[leaf].prefix);
    }
  }

  lemma PresplitOk(c: Cluster, prefix: string, incoming: nat, c': Cluster)
    requires ClusterOk(c) && |c.nodes| > 0 && UncountedAreEmpty(c) && c' == c.(ring := c.ring.Apply(Presplit(prefix, incoming)).0)
    ensures ClusterOk(c') && SameContents(c, c') && UncountedAreEmpty(c') && PresplitStep(c, prefix, incoming, c')
  {
    PresplitIff(c.ring, prefix, incoming);
    var event := c.ring.Apply(Presplit(prefix, incoming)).2;
    if event.Some? {
      var leaf := event.value.parentEntryIndex;
      assert Eligible(c.ring, prefix, incoming);
      UncountedLeaf(c.ring, prefix, incoming, leaf);
      assert EmptyUnder(c, c.ring.entries[leaf].prefix);
      forall i: nat | c'.ring.CanSplit(i) && c'.ring.entries[i].counter == 0 ensures EmptyUnder(c', c'.ring.entries[i].prefix) {
        ChildrenAreEmpty(c, leaf, i);
      }
    }
    forall k: Keyword ensures KeptFor(c, c', k) {
      PresplitKeeps(c, prefix, incoming, c', k);
    }
    KeptForAll(c, c');
  }

  lemma UncountedLeaf(ring: RingState, prefix: string, incoming: nat, leaf: nat)
    requires ring.Forest() && Eligible(ring, prefix, incoming) && leaf < |ring.entries|
    requires ring.entries[leaf].prefix == Canonical(Capped(prefix))
    ensures ring.CanSplit(leaf) && ring.entries[leaf].counter == 0
  {
    var i: nat :| ring.CanSplit(i) && ring.entries[i].counter == 0 && ring.entries[i].prefix == Canonical(Capped(prefix));
    ring.FindInvertsPrefix(prefix, i);
    ring.FindInvertsPrefix(prefix, leaf);
  }

  lemma SummaryKeepsUncounted(c: Cluster, prefix: string, summary: seq<Byte>, c': Cluster)
    requires c.ring.Forest() && UncountedAreEmpty(c) && c' == c.(ring := c.ring.Apply(SetRootSummary(prefix, summary)).0)
    ensures UncountedAreEmpty(c')
  {
    c.ring.UpdateSummaryKeepsShape(prefix, summary);
    forall i: nat | c'.ring.CanSplit(i) && c'.ring.entries[i].counter == 0 ensures EmptyUnder(c', c'.ring.entries[i].prefix) {
      assert c.ring.CanSplit(i) && c.ring.entries[i].counter == 0;
      assert EmptyUnder(c, c.ring.entries[i].prefix);
    }
  }

  /** As long as uncounted leaves are empty, any number of presplits loses, moves and hides nothing. */
  lemma {:induction false} PresplitsOk(c: Cluster, ops: seq<RingOp>)
    requires ClusterOk(c) && |c.nodes| > 0 && UncountedAreEmpty(c) && ArePresplitCalls(ops)
    ensures
      var c' := c.(ring := c.ring.Run(ops));
      ClusterOk(c') && SameContents(c, c') && UncountedAreEmpty(c')
    decreases |ops|
  {
    if ops != [] {
      var next := c.(ring := c.ring.Apply(ops[0]).0);
      assert IsPresplitCall(ops[0]);
      match ops[0] {
        case Presplit(prefix, incoming) => PresplitOk(c, prefix, incoming, next);
        case SetRootSummary(prefix, summary) =>
          SummaryOk(c, prefix, summary, next);
          SummaryKeepsUncounted(c, prefix, summary, next);
      }
      PresplitsOk(next, ops[1..]);
      assert c.(ring := c.ring.Run(ops)) == next.(ring := next.ring.Run(ops[1..]));
    }
  }

  lemma BatchKeepsContents(c: Cluster, c': Cluster)
    requires ByPresplits(c.ring, c'.ring) && c' == c.(ring := c'.ring)
    ensures ClusterOk(c) && |c.nodes| > 0 && UncountedAreEmpty(c) ==> ClusterOk(c') && SameContents(c, c') && UncountedAreEmpty(c')
  {
    var ops :| ArePresplitCalls(ops) && c'.ring == c.ring.Run(ops);
    if ClusterOk(c) && |c.nodes| > 0 && UncountedAreEmpty(c) {
      PresplitsOk(c, ops);
    }
  }

  /** The summaries of the first `n` children set. */
  function SummariesSet(ring: RingState, children: seq<RouteTarget>, summaries: nat -> seq<Byte>, n: nat): RingState
    requires n <= |children|
  {
    if n == 0 then ring
    else SummariesSet(ring, children, summaries, n - 1).Apply(SetRootSummary(children[n - 1].prefix, summaries(n - 1))).0
  }

  const NO_SUMMARIES: nat -> seq<Byte> := _ => []

  /** A round that presplits brings some item's leaf further down. */
  lemma PresplitShrinksSlack(
      ring: RingState, overrides: map<Keyword, RouteTarget>, ring': RingState, items: seq<Keyword>, counts: map<string, nat>)
    requires Deepens(ring, ring') && OverridesUnder(overrides) && CountsRoutes(ring, overrides, items, counts)
    requires exists p :: p in counts && DeepensUnder(ring, ring', p) && counts[p] > 0
    ensures Slack(ring', items) < Slack(ring, items)
  {
    var p :| p in counts && DeepensUnder(ring, ring', p) && counts[p] > 0;
    CountedItem(ring, overrides, items, p);
    var k :| k in items && PrefixOf(ring, overrides, k) == p;
    assert p <= k.Key() && LowerHex(p);
    CanonicalOfLowerHex(p);
    assert Capped(p) == p;
    SlackShrinksAt(ring, ring', items, k);
  }

  // ----- storagers do not refuse what a migration asks of them

  lemma PrepareIsGranted(c: Cluster)
    requires Inv(c) && c.run.Some? && c.run.value.prepared < 16
    ensures c.run.value.parent in c.migrations
    ensures
      var run, plan := c.run.value, c.migrations[c.run.value.parent].plan;
      plan.IsForeign(run.prepared) ==> c.nodes[plan.source.node].Prepare(plan.children[run.prepared].prefix).Ok?
  {
    var run, m := c.run.value, c.migrations[c.run.value.parent];
    if m.plan.IsForeign(run.prepared) {
      PrepareKeepsRun(c.nodes, m.plan, m.moved, run);
    }
  }

  lemma ImportIsGranted(c: Cluster, i: nat)
    requires Inv(c) && c.run.Some? && c.run.value.prepared == 16 && i in c.run.value.segments && i !in c.run.value.imported
    ensures c.run.value.parent in c.migrations && i < 16
    ensures
      var plan := c.migrations[c.run.value.parent].plan;
      c.nodes[plan.children[i].node].Import(c.run.value.segments[i]).Ok?
  {
    var m := c.migrations[c.run.value.parent];
    SegmentsAreChildren(c, i);
    ImportKeepsRun(c.nodes, m.plan, m.moved, c.run.value, i);
  }

  lemma ConfirmIsGranted(c: Cluster)
    requires Inv(c) && c.run.Some? && c.run.value.prepared == 16 && c.run.value.imported == c.run.value.segments.Keys
    requires c.run.value.confirmedUpTo < 16 && c.run.value.confirmedUpTo in c.run.value.segments
    ensures c.run.value.parent in c.migrations
    ensures
      var plan := c.migrations[c.run.value.parent].plan;
      c.nodes[plan.source.node].Confirm(plan.children[c.run.value.confirmedUpTo].prefix).Ok?
  {
    MigrationProgress.ConfirmSucceeds(c);
  }

  /** Once all children are prepared, the segments are those of the children that leave the source. */
  lemma ForeignHaveSegments(c: Cluster, parent: string, segments: map<nat, Segment>)
    requires Inv(c) && c.run == Some(Run(parent, 16, segments, {}, 0))
    ensures parent in c.migrations && |c.migrations[parent].plan.children| == 16
    ensures segments.Keys == ForeignChildren(c.migrations[parent].plan)
  {
    forall i | i in segments ensures i in ForeignChildren(c.migrations[parent].plan) {
      SegmentsAreChildren(c, i);
    }
  }

  class Manager {
    const router: Router.Router
    var nodes: seq<Storager>
    var migrations: map<string, PrefixMigration>
    var queued: set<string>
    ghost var run: Option<Run>

    ghost function State(): Cluster
      reads this, router, router.ring
    {
      Cluster(router.ring.State(), router.keywordOverrides, nodes, migrations, queued, run)
    }

    ghost predicate Valid()
      reads this, router, router.ring
    {
      router.Valid() && ClusterOk(State())
    }

    constructor (nodeNames: seq<string>, splitThreshold: nat)
      requires 0 < |nodeNames| < Router.EPRing.USIZE_LIMIT
      ensures Valid() && fresh(router) && fresh(router.ring) && Init(State())
    {
      router := new Router.Router(nodeNames, splitThreshold);
      nodes := seq(|nodeNames|, _ => Storager({}, {}, {}));
      migrations, queued, run := map[], {}, None;
      new;
      InitIsInv(State(), SOME_KEYWORD);
    }

    method ActivePrefixMigrationForKeyword(keyword: Keyword) returns (parent: Option<string>)
      ensures parent.Some? ==> ActiveIn(migrations, parent.value, keyword)
      ensures parent.None? ==> Idle(migrations, keyword)
    {
      var remaining := migrations.Keys;
      while remaining != {}
        invariant remaining <= migrations.Keys
        invariant forall p :: p in migrations && p !in remaining ==> !ActiveIn(migrations, p, keyword)
        decreases |remaining|
      {
        var p :| p in remaining;
        remaining := remaining - {p};
        var plan := migrations[p].plan;
        if !migrations[p].confirmed && exists d :: 0 <= d < |plan.children| && KeywordMatchesPrefix(keyword, plan.children[d].prefix) {
          return Some(p);
        }
      }
      parent := None;
    }

    method BufferOperationDuringMigration(op: Operation) returns (done: bool)
      modifies this`migrations
      ensures done <==> !Idle(old(migrations), op.keyword)
      ensures done ==> exists p :: ActiveIn(old(migrations), p, op.keyword) && State() == Buffer(old(State()), p, op)
      ensures !done ==> migrations == old(migrations)
    {
      var parent := ActivePrefixMigrationForKeyword(op.keyword);
      if parent.None? {
        return false;
      }
      var m := migrations[parent.value];
      migrations := migrations[parent.value := m.(pending := m.pending + [op])];
      assert State() == Buffer(old(State()), parent.value, op);
      done := true;
    }

    method QueryRouteKeyword(keyword: Keyword) returns (route: Option<RouteTarget>)
      requires Valid()
      ensures route.Some? && Migration.QueryRouteKeyword(State(), keyword).Some?
      ensures route.value.node == Migration.QueryRouteKeyword(State(), keyword).value.node < |nodes|
    {
      var parent := ActivePrefixMigrationForKeyword(keyword);
      ghost var c := State();
      if parent.Some? {
        ActiveParentIs(c.ring, |c.nodes|, c.migrations, parent.value, keyword);
        var plan := migrations[parent.value].plan;
        assert MigrationOk(c.ring, |c.nodes|, c.migrations[parent.value], parent.value);
        ghost var d :| 0 <= d < |plan.children| && KeywordMatchesPrefix(keyword, plan.children[d].prefix);
        var i := 0;
        while !KeywordMatchesPrefix(keyword, plan.children[i].prefix)
          invariant 0 <= i <= d
          decreases d - i
        {
          i := i + 1;
        }
        return Some(RouteTarget(plan.children[i].prefix, plan.source.node));
      }
      RouteOfIdle(c, keyword);
      route := router.RouteKeyword(keyword);
    }

    method ScheduleSplitMigration(event: SplitEvent)
      requires EventOk(router.ring.State(), event)
      modifies this`migrations, this`queued
      ensures State() == Migration.ScheduleSplitMigration(old(State()), event)
    {
      var plan := BuildSplitPlan(event, router.ring.State());
      var parent := plan.source.prefix;
      if parent in migrations && !migrations[parent].confirmed {
        return;
      }
      migrations := migrations[parent := PrefixMigration(plan, false, [], event.parentEntryIndex, false)];
      queued := queued + {parent};
    }

    /** `add` for one keyword: buffered while a migration covers it, else stored at its route; a split it
        causes is scheduled. A failed remote call changes nothing. */
    method Add(keyword: Keyword, fid: string, summary: seq<Byte>, reached: bool) returns (done: bool)
      requires Valid()
      modifies this, router, router.ring
      ensures Valid() && (done <==> reached || !Idle(old(migrations), keyword))
      ensures if done then ContentsAfter(old(State()), Operation.Add(keyword, fid), State()) else State() == old(State())
      ensures done ==> ClientStep(old(State()), Operation.Add(keyword, fid), summary, State())
    {
      ghost var c := State();
      var op := Operation.Add(keyword, fid);
      var buffered := BufferOperationDuringMigration(op);
      if buffered {
        ClientStepOk(c, op, summary, State());
        return true;
      }
      RouteOfIdle(c, keyword);
      var route := router.RouteKeyword(keyword);
      if route.None? || !reached {
        return false;
      }
      var target := route.value.node;
      nodes := nodes[target := nodes[target].(records := nodes[target].records + {Record(keyword, fid)})];
      var event := router.RecordInsert(keyword, route.value.prefix, target, summary);
      assert State() == Store(c, op, route.value, summary).0;
      if event.Some? {
        ScheduleSplitMigration(event.value);
      }
      ClientStepOk(c, op, summary, State());
      done := true;
    }

    method Delete(keyword: Keyword, fid: string, summary: seq<Byte>, reached: bool) returns (done: bool)
      requires Valid()
      modifies this, router, router.ring
      ensures Valid() && (done <==> reached || !Idle(old(migrations), keyword))
      ensures if done then ContentsAfter(old(State()), Operation.Delete(keyword, fid), State()) else State() == old(State())
      ensures done ==> ClientStep(old(State()), Operation.Delete(keyword, fid), summary, State())
    {
      ghost var c := State();
      var op := Operation.Delete(keyword, fid);
      var buffered := BufferOperationDuringMigration(op);
      if buffered {
        ClientStepOk(c, op, summary, State());
        return true;
      }
      RouteOfIdle(c, keyword);
      var route := router.RouteKeyword(keyword);
      if route.None? || !reached {
        return false;
      }
      var target := route.value.node;
      nodes := nodes[target := nodes[target].(records := nodes[target].records - {Record(keyword, fid)})];
      router.RecordDelete(keyword, route.value.prefix, summary);
      assert State() == Store(c, op, route.value, summary).0;
      ClientStepOk(c, op, summary, State());
      done := true;
    }

    /** Starts the migration queued under `parent`, which then holds the migration lock. */
    method TakeMigrationLock(parent: string)
      requires Valid() && run.None? && parent in queued
      modifies this`queued, this`run
      ensures Valid() && SameContents(old(State()), State())
      ensures run == Some(Run(parent, 0, map[], {}, 0)) && queued == old(queued) - {parent}
    {
      ghost var c := State();
      queued := queued - {parent};
      run := Some(Run(parent, 0, map[], {}, 0));
      StartOk(c, parent, State());
    }

    /** Prepares the children that leave the source, in order; stops at the first failed call. */
    method PrepareChildren(plan: PrefixSplitPlan, calls: Calls) returns (segments: Option<map<nat, Segment>>)
      requires Valid() && run.Some? && run.value == Run(run.value.parent, 0, map[], {}, 0)
      requires migrations[run.value.parent].plan == plan
      modifies this`nodes, this`run
      ensures Valid() && SameContents(old(State()), State())
      ensures run.Some? && run.value.parent == old(run).value.parent
      ensures segments.Some? ==> run.value == Run(run.value.parent, 16, segments.value, {}, 0)
      ensures segments.Some? <==> AllThrough(calls.prepares, ForeignChildren(plan))
    {
      ghost var parent := run.value.parent;
      assert |plan.children| == 16;
      var prepared: map<nat, Segment> := map[];
      var i: nat := 0;
      while i < 16
        invariant i <= 16 && Valid() && SameContents(old(State()), State())
        invariant run == Some(Run(parent, i, prepared, {}, 0))
        invariant ThroughBefore(calls.prepares, ForeignChildren(plan), i)
      {
        ghost var c := State();
        var child := plan.children[i];
        if child.node != plan.source.node {
          var response := nodes[plan.source.node].Prepare(child.prefix);
          PrepareIsGranted(c);
          if !calls.prepares(i) || response.Err? {
            assert i in ForeignChildren(plan);
            return None;
          }
          nodes := nodes[plan.source.node := response.value.0];
          prepared := prepared[i := response.value.1];
        }
        i := i + 1;
        run := Some(Run(parent, i, prepared, {}, 0));
        PrepareOk(c, State());
      }
      segments := Some(prepared);
    }

    /** One import call to a child's target. */
    method ImportSegment(plan: PrefixSplitPlan, segment: Segment, i: nat, reached: bool) returns (done: bool)
      requires Valid() && run.Some? && run.value.prepared == 16 && migrations[run.value.parent].plan == plan
      requires i in run.value.segments && i !in run.value.imported && run.value.segments[i] == segment
      modifies this`nodes, this`run
      ensures Valid() && SameContents(old(State()), State())
      ensures run == if done then Some(old(run).value.(imported := old(run).value.imported + {i})) else old(run)
      ensures done <==> reached
    {
      ImportIsGranted(State(), i);
      var child := plan.children[i];
      var response := nodes[child.node].Import(segment);
      done := reached && response.Ok?;
      if done {
        nodes := nodes[child.node := response.value];
        run := Some(run.value.(imported := run.value.imported + {i}));
        ImportOk(old(State()), i, State());
      }
    }

    /** Imports the prepared segments at their targets. The calls run concurrently, so in any order; all
        are attempted even if some fail. */
    method ImportSegments(plan: PrefixSplitPlan, segments: map<nat, Segment>, calls: Calls) returns (done: bool)
      requires Valid() && run.Some? && run.value == Run(run.value.parent, 16, segments, {}, 0)
      requires migrations[run.value.parent].plan == plan
      modifies this`nodes, this`run
      ensures Valid() && SameContents(old(State()), State())
      ensures run.Some? && run.value.parent == old(run).value.parent
      ensures done ==> run.value == Run(run.value.parent, 16, segments, segments.Keys, 0)
      ensures done <==> AllThrough(calls.imports, segments.Keys)
    {
      ghost var parent := run.value.parent;
      done := true;
      var remaining := segments.Keys;
      ghost var imported: set<nat> := {};
      while remaining != {}
        invariant ImportsLeft(segments.Keys, remaining, imported, calls.imports, done)
        invariant Valid() && SameContents(old(State()), State())
        invariant run == Some(Run(parent, 16, segments, imported, 0))
        decreases |remaining|
      {
        var i :| i in remaining;
        var ok := ImportSegment(plan, segments[i], i, calls.imports(i));
        OneImportLess(segments.Keys, remaining, imported, calls.imports, done, i);
        remaining := remaining - {i};
        imported := if ok then imported + {i} else imported;
        done := done && ok;
      }
    }

    /** One confirm call to the source. */
    method ConfirmChild(parent: string, plan: PrefixSplitPlan, i: nat, ghost segments: map<nat, Segment>, reached: bool)
      returns (done: bool)
      requires Valid() && run == Some(Run(parent, 16, segments, segments.Keys, i)) && i in segments
      requires migrations[parent].plan == plan
      modifies this`nodes, this`migrations, this`run
      ensures Valid() && SameContents(old(State()), State())
      ensures parent in migrations && migrations[parent].plan == plan
      ensures run == if done then Some(Run(parent, 16, segments, segments.Keys, i + 1)) else old(run)
      ensures done <==> reached
    {
      ghost var c := State();
      ConfirmIsGranted(c);
      var m := migrations[parent];
      var source, prefix := nodes[plan.source.node], plan.children[i].prefix;
      var response := source.Confirm(prefix);
      if !reached || response.Err? {
        return false;
      }
      nodes := nodes[plan.source.node := response.value];
      migrations := migrations[parent := m.(moved := m.moved || Deletes(source, prefix))];
      run := Some(Run(parent, 16, segments, segments.Keys, i + 1));
      ChildConfirmed(c, parent, i, segments, State());
      done := true;
    }

    /** Confirms the imported children at the source, in order; stops at the first failed call. */
    method ConfirmChildren(parent: string, plan: PrefixSplitPlan, segments: map<nat, Segment>, calls: Calls) returns (done: bool)
      requires Valid() && run == Some(Run(parent, 16, segments, segments.Keys, 0))
      requires migrations[parent].plan == plan
      modifies this`nodes, this`migrations, this`run
      ensures Valid() && SameContents(old(State()), State())
      ensures run.Some? && run.value.parent == parent && parent in migrations && migrations[parent].plan == plan
      ensures done ==> run.value == Run(parent, 16, segments, segments.Keys, 16)
      ensures segments.Keys == ForeignChildren(plan) ==> (done <==> AllThrough(calls.confirms, segments.Keys))
    {
      var i: nat := 0;
      while i < 16
        invariant i <= 16 && Valid() && SameContents(old(State()), State())
        invariant parent in migrations && migrations[parent].plan == plan
        invariant run == Some(Run(parent, 16, segments, segments.Keys, i))
        invariant ThroughBefore(calls.confirms, segments.Keys, i)
      {
        if i in segments {
          var ok := ConfirmChild(parent, plan, i, segments, calls.confirms(i));
          if !ok {
            return false;
          }
        } else {
          SkipChild(parent, i, segments);
        }
        i := i + 1;
      }
      done := true;
    }

    /** A child that stays on the source has nothing to confirm. */
    ghost method SkipChild(parent: string, i: nat, segments: map<nat, Segment>)
      requires Valid() && run == Some(Run(parent, 16, segments, segments.Keys, i)) && i < 16 && i !in segments
      modifies this`run
      ensures Valid() && SameContents(old(State()), State())
      ensures run == Some(Run(parent, 16, segments, segments.Keys, i + 1))
    {
      run := Some(Run(parent, 16, segments, segments.Keys, i + 1));
      ConfirmOk(old(State()), State());
    }

    /** Publishes the root summaries of the children. */
    method UpdatePrefixSummaries(plan: PrefixSplitPlan, calls: Calls)
      requires Valid()
      modifies router.ring
      ensures Valid() && SameContents(old(State()), State())
      ensures router.ring.State() == SummariesSet(old(router.ring.State()), plan.children, calls.published, |plan.children|)
    {
      for i := 0 to |plan.children|
        invariant Valid() && SameContents(old(State()), State())
        invariant router.ring.State() == SummariesSet(old(router.ring.State()), plan.children, calls.published, i)
      {
        ghost var c := State();
        router.UpdatePrefixSummary(plan.children[i].prefix, calls.published(i));
        SummaryOk(c, plan.children[i].prefix, calls.published(i), State());
      }
    }

    /** Sends one buffered operation to its route of the moment; a split it causes is not followed by a
        migration. */
    method ReplayOperation(op: Operation, summary: seq<Byte>) returns (split: bool)
      requires router.Valid() && OverridesInRange(State()) && |nodes| == |router.ring.nodeNames|
      requires RouteKeyword(State(), op.keyword).Some? && RouteKeyword(State(), op.keyword).value.node < |nodes|
      modifies this`nodes, router, router.ring
      ensures router.Valid() && OverridesInRange(State()) && |nodes| == old(|nodes|)
      ensures State() == Store(old(State()), op, RouteKeyword(old(State()), op.keyword).value, summary).0
      ensures split <==> Store(old(State()), op, RouteKeyword(old(State()), op.keyword).value, summary).1.Some?
    {
      var found := router.RouteKeyword(op.keyword);
      var route := found.value;
      nodes := nodes[route.node := nodes[route.node].(records := ApplyToRecords(op, nodes[route.node].records))];
      match op {
        case Add(keyword, _) =>
          var event := router.RecordInsert(keyword, route.prefix, route.node, summary);
          split := event.Some?;
        case Delete(keyword, _) =>
          router.RecordDelete(keyword, route.prefix, summary);
          split := false;
      }
    }

    /** Takes the buffered operations and replays them in order, as the unguarded machine does. When a call fails,
        `applied` of them have been applied, in order and once each, and the rest is gone with the list. `c` is the state
        before the overrides under the parent were dropped, `nested` says whether a leaf was split, and `summaries` are
        those the storagers returned. */
    method ReplayPendingOperations(parent: string, calls: Calls, ghost c: Cluster)
      returns (outcome: Outcome, ghost applied: nat, ghost nested: bool, ghost summaries: seq<seq<Byte>>)
      requires router.Valid() && ReadyToSettle(c, parent)
      requires State() == c.(overrides := DropOverridesUnder(c.overrides, parent))
      modifies this`nodes, this`migrations, router, router.ring
      ensures router.Valid() && ReadyToSettle(c, parent) && State().run == c.run && queued == c.queued
      ensures migrations == c.migrations[parent := c.migrations[parent].(pending := [])]
      ensures ClusterOk(Settled(c)) && applied <= |c.migrations[parent].pending|
      ensures InReplay(c, parent, applied, summaries, nested, State())
      ensures outcome == Completed ==> !nested && applied == |c.migrations[parent].pending|
      ensures outcome == ReplayFailed ==> applied < |c.migrations[parent].pending| && !calls.replays(applied)
      ensures RepliesAre(calls, applied, summaries)
      ensures outcome == NestedSplit ==> nested && applied == |c.migrations[parent].pending|
      ensures outcome != Aborted
    {
      ReadyIsInRange(c, parent);
      SettledIsOk(c);
      InReplayFirst(c, parent);
      var pending := migrations[parent].pending;
      migrations := migrations[parent := migrations[parent].(pending := [])];
      assert State() == Taken(c, parent);
      var split := false;
      nested, applied, summaries := false, 0, [];
      for i := 0 to |pending|
        invariant router.Valid() && OverridesInRange(State()) && |nodes| == |router.ring.nodeNames|
        invariant migrations == c.migrations[parent := c.migrations[parent].(pending := [])]
        invariant applied == i && nested == split && InReplay(c, parent, i, summaries, nested, State())
        invariant RepliesAre(calls, i, summaries)
      {
        if !calls.replays(i) {
          outcome := ReplayFailed;
          return;
        }
        var summary := calls.returned(i);
        ghost var before := State();
        RouteExists(before, pending[i].keyword);
        var splits := ReplayOperation(pending[i], summary);
        OneMoreReply(calls, i, summaries);
        InReplayOn(c, parent, i, summaries, nested, before, pending[i], summary);
        split := split || splits;
        nested, applied, summaries := split, i + 1, summaries + [summary];
      }
      outcome := if split then NestedSplit else Completed;
    }

    /** The background migration of one split, from taking the lock to its end. A failed call aborts it
        with everything in place; a replay without failed calls and nested splits completes it. Once it replays, it ends
        in the step of the unguarded machine, and the counters at its start tell whether a split nests. */
    method RunSplitMigration(parent: string, calls: Calls)
      returns (outcome: Outcome, ghost c: Cluster, ghost applied: nat, ghost nested: bool, ghost summaries: seq<seq<Byte>>)
      requires Valid() && run.None? && parent in queued
      modifies this, router, router.ring
      ensures outcome in {Completed, Aborted} ==> Valid() && run.None? && SameContents(old(State()), State())
      ensures parent in migrations
      ensures outcome == Aborted <==> !HandsOver(old(migrations)[parent].plan, calls)
      ensures outcome == ReplayFailed ==> !calls.replays(applied)
      ensures outcome != Aborted ==> RepliesAre(calls, applied, summaries)
      ensures outcome == Completed ==> migrations[parent].confirmed && migrations[parent].pending == []
      ensures outcome != Aborted ==> ReadyToSettle(c, parent) && SameContents(old(State()), c)
      ensures outcome != Aborted ==>
        c.ring == SummariesSet(old(router.ring.State()), old(migrations)[parent].plan.children, calls.published, 16)
      ensures outcome in {Completed, NestedSplit} ==> FinishAllStep(c, summaries, State())
      ensures outcome == Completed ==> AllFit(c.ring, c.migrations[parent].pending)
      ensures outcome == NestedSplit ==> !AllFit(c.ring, c.migrations[parent].pending)
      ensures outcome == ReplayFailed ==> StopReplayStep(c, summaries, State())
      ensures outcome == ReplayFailed && !nested ==> StoppedAfter(c, parent, applied, State())
    {
      c, applied, nested, summaries := State(), 0, false, [];
      TakeMigrationLock(parent);
      var handedOver := HandOver(parent, calls);
      if !handedOver {
        Abort();
        outcome := Aborted;
        return;
      }
      UpdatePrefixSummaries(migrations[parent].plan, calls);
      c := State();
      outcome, applied, nested, summaries := ReplayAndConfirm(parent, calls);
    }

    /** All the prepares, then all the imports, then all the confirms; the first failed call ends it. */
    method HandOver(parent: string, calls: Calls) returns (done: bool)
      requires Valid() && run == Some(Run(parent, 0, map[], {}, 0))
      modifies this`nodes, this`migrations, this`run
      ensures Valid() && SameContents(old(State()), State())
      ensures run.Some? && run.value.parent == parent && parent in migrations && migrations[parent].plan == old(migrations)[parent].plan
      ensures done ==> run.value.confirmedUpTo == 16
      ensures done <==> HandsOver(migrations[parent].plan, calls)
    {
      var plan := migrations[parent].plan;
      var segments := PrepareChildren(plan, calls);
      if segments.None? {
        return false;
      }
      ForeignHaveSegments(State(), parent, segments.value);
      var imported := ImportSegments(plan, segments.value, calls);
      if !imported {
        return false;
      }
      done := ConfirmChildren(parent, plan, segments.value, calls);
    }

    ghost method Abort()
      requires Valid() && run.Some?
      modifies this`run
      ensures Valid() && run.None? && SameContents(old(State()), State())
    {
      AbortOk(State());
      run := None;
    }

    method ReplayAndConfirm(parent: string, calls: Calls)
      returns (outcome: Outcome, ghost applied: nat, ghost nested: bool, ghost summaries: seq<seq<Byte>>)
      requires Valid() && ReadyToSettle(State(), parent)
      modifies this, router, router.ring
      ensures parent in migrations
      ensures outcome == Completed ==>
        && Valid() && run.None? && SameContents(old(State()), State())
        && migrations[parent].confirmed && migrations[parent].pending == []
      ensures outcome in {Completed, NestedSplit} ==> FinishAllStep(old(State()), summaries, State())
      ensures outcome == Completed ==> AllFit(old(State()).ring, old(State()).migrations[parent].pending)
      ensures outcome == NestedSplit ==> !AllFit(old(State()).ring, old(State()).migrations[parent].pending)
      ensures outcome == ReplayFailed ==> StopReplayStep(old(State()), summaries, State())
      ensures outcome == ReplayFailed && !nested ==> StoppedAfter(old(State()), parent, applied, State())
      ensures outcome != Aborted
      ensures outcome == ReplayFailed ==> !calls.replays(applied)
      ensures RepliesAre(calls, applied, summaries)
    {
      ghost var c := State();
      router.ClearKeywordOverridesForPrefix(parent);
      outcome, applied, nested, summaries := ReplayPendingOperations(parent, calls, c);
      ghost var replayed := State();
      run := None;
      if outcome == ReplayFailed {
        ReplayedIsStop(c, parent, applied, summaries, nested, replayed);
        return;
      }
      migrations := migrations[parent := migrations[parent].(confirmed := true)];
      MigrationsSettled(c.migrations, parent);
      ReplayedIsFinish(c, parent, summaries, nested, replayed);
      if outcome == Completed {
        assert c.migrations[parent].pending[..applied] == c.migrations[parent].pending;
        assert State() == Towards(replayed, Settled(c));
        AllReplayed(c, Towards(replayed, Settled(c)));
      }
    }

    /** The rounds of presplitting at the start of `batch_add`. Every round but the last deepens the leaf
        of some item, so the digits left below the items' leaves bound the number of rounds. Afterwards every
        prefix that was crowded and empty is split; keywords of leaves that have counted operations keep
        their routes. */
    method PresplitForBatch(items: seq<Keyword>)
      requires router.Valid() && OverridesUnder(router.keywordOverrides)
      modifies router.ring
      ensures router.Valid() && Deepens(old(router.ring.State()), router.ring.State())
      ensures CrowdedAreSplit(old(router.ring.State()), router.ring.State(), router.keywordOverrides, items)
      ensures old(Valid() && |nodes| > 0 && UncountedAreEmpty(State())) ==>
        Valid() && UncountedAreEmpty(State()) && SameContents(old(State()), State())
    {
      ghost var before := router.ring.State();
      DeepensRefl(before);
      NoPresplits(before);
      var presplitPrefixes: set<string> := {};
      var appliedSplit := true;
      ghost var first := true;
      while appliedSplit
        invariant router.Valid() && Deepens(before, router.ring.State()) && ByPresplits(before, router.ring.State())
        invariant if first then appliedSplit && router.ring.State() == before
          else CrowdedAreSplit(before, router.ring.State(), router.keywordOverrides, items)
        decreases Slack(router.ring.State(), items), if appliedSplit then 1 else 0
      {
        ghost var round := router.ring.State();
        var counts := CountPrefixes(items);
        var plans := router.PresplitEmptyPrefixes(counts);
        DeepensTrans(before, round, router.ring.State());
        PresplitsJoin(before, round, router.ring.State());
        if !first {
          CrowdedStaySplit(before, round, router.ring.State(), router.keywordOverrides, items);
        }
        if plans != [] {
          PresplitShrinksSlack(round, router.keywordOverrides, router.ring.State(), items, counts);
        }
        ghost var presplit := router.ring.State();
        appliedSplit, presplitPrefixes := ApplyPresplits(plans, presplitPrefixes);
        SlackShrinks(presplit, router.ring.State(), items);
        DeepensTrans(before, presplit, router.ring.State());
        PresplitsJoin(before, presplit, router.ring.State());
        CrowdedStaySplit(before, presplit, router.ring.State(), router.keywordOverrides, items);
        first := false;
      }
      BatchKeepsContents(old(State()), State());
    }

    /** Clears the children's summaries for each plan that is not below an earlier one. */
    method ApplyPresplits(plans: seq<PrefixSplitPlan>, known: set<string>) returns (applied: bool, prefixes: set<string>)
      requires router.Valid()
      modifies router.ring
      ensures router.Valid() && Deepens(old(router.ring.State()), router.ring.State())
      ensures Recorded(Parents(plans, |plans|), known, applied, prefixes)
      ensures ByPresplits(old(router.ring.State()), router.ring.State())
    {
      DeepensRefl(router.ring.State());
      NoPresplits(router.ring.State());
      applied, prefixes := false, known;
      for i := 0 to |plans|
        invariant router.Valid() && Deepens(old(router.ring.State()), router.ring.State())
        invariant Recorded(Parents(plans, i), known, applied, prefixes)
        invariant ByPresplits(old(router.ring.State()), router.ring.State())
      {
        RecordOneMore(Parents(plans, i), known, applied, prefixes, plans[i].source.prefix);
        var parent := plans[i].source.prefix;
        if !IsDescendantOfAny(parent, prefixes) {
          ghost var c := router.ring.State();
          ClearChildSummaries(plans[i]);
          DeepensTrans(old(router.ring.State()), c, router.ring.State());
          PresplitsJoin(old(router.ring.State()), c, router.ring.State());
          prefixes := prefixes + {parent};
          applied := true;
        }
      }
    }

    /** How many items route to each prefix. */
    method CountPrefixes(items: seq<Keyword>) returns (counts: map<string, nat>)
      requires router.Valid()
      ensures CountsRoutes(router.ring.State(), router.keywordOverrides, items, counts)
    {
      counts := map[];
      for i := 0 to |items|
        invariant CountsRoutes(router.ring.State(), router.keywordOverrides, items[..i], counts)
      {
        var route := router.RouteKeyword(items[i]);
        LookupIsUnder(router.ring.State(), items[i]);
        var p := route.value.prefix;
        counts := counts[p := (if p in counts then counts[p] else 0) + 1];
        assert items[..i + 1] == items[..i] + [items[i]];
      }
      assert items[..|items|] == items;
    }

    method ClearChildSummaries(plan: PrefixSplitPlan)
      requires router.Valid()
      modifies router.ring
      ensures router.Valid() && Deepens(old(router.ring.State()), router.ring.State())
      ensures router.ring.State() == SummariesSet(old(router.ring.State()), plan.children, NO_SUMMARIES, |plan.children|)
      ensures ByPresplits(old(router.ring.State()), router.ring.State())
    {
      DeepensRefl(router.ring.State());
      NoPresplits(router.ring.State());
      for j := 0 to |plan.children|
        invariant router.Valid() && Deepens(old(router.ring.State()), router.ring.State())
        invariant router.ring.State() == SummariesSet(old(router.ring.State()), plan.children, NO_SUMMARIES, j)
        invariant ByPresplits(old(router.ring.State()), router.ring.State())
      {
        ghost var c := router.ring.State();
        SummaryDeepens(c, plan.children[j].prefix, []);
        OnePresplitMore(old(router.ring.State()), c, SetRootSummary(plan.children[j].prefix, []));
        router.UpdatePrefixSummary(plan.children[j].prefix, []);
        DeepensTrans(old(router.ring.State()), c, router.ring.State());
      }
    }
  }
}
