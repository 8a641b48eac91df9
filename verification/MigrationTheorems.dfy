/** The main results about splits, migration and replay, over every run of the machine. */
module MigrationTheorems {
  import opened Wrappers
  import opened Hex
  import opened Ring
  import opened Routing
  import opened AccTree
  import opened Migration
  import opened MigrationInvariant
  import opened MigrationClient
  import opened MigrationServer
  import opened MigrationPresplit

  // ----- replay

  /** The cluster just before replay, with the migration already marked confirmed. */
  function Settled(c: Cluster): Cluster
    requires c.run.Some? && c.run.value.parent in c.migrations
  {
    var parent := c.run.value.parent;
    c.(overrides := DropOverridesUnder(c.overrides, parent),
       migrations := c.migrations[parent := c.migrations[parent].(confirmed := true, pending := [])],
       run := None)
  }

  lemma SettledKeepsMigrations(c: Cluster)
    requires Inv(c) && c.run.Some?
    ensures MigrationsOk(c.ring, |c.nodes|, Settled(c).migrations)
  {
    var s := Settled(c);
    forall p | p in s.migrations ensures MigrationOk(s.ring, |s.nodes|, s.migrations[p], p) {
      assert MigrationOk(c.ring, |c.nodes|, c.migrations[p], p);
    }
  }

  lemma SettledKeepsOverrides(c: Cluster)
    requires Inv(c) && c.run.Some?
    ensures OverridesOk(c.ring, Settled(c).migrations, Settled(c).overrides)
  {
    var parent, s := c.run.value.parent, Settled(c);
    forall k | k in s.overrides && Idle(s.migrations, k) ensures RingLookup(s.ring, k) == Some(s.overrides[k]) {
      MatchIsStringPrefix(k, parent);
      CoversIsUnder(c.migrations[parent], parent, |c.nodes|, k);
      forall p ensures !ActiveIn(c.migrations, p, k) {
        assert !ActiveIn(s.migrations, p, k);
      }
    }
  }

  lemma SettledKeepsInv(c: Cluster)
    requires Inv(c) && c.run.Some?
    ensures Inv(Settled(c))
  {
    SettledKeepsMigrations(c);
    SettledKeepsOverrides(c);
  }

  lemma SettledActive(c: Cluster, k: Keyword)
    requires Inv(c) && c.run.Some? && Inv(Settled(c))
    ensures c.run.value.parent <= k.Key() ==> Idle(Settled(c).migrations, k)
    ensures !(c.run.value.parent <= k.Key()) ==> ActiveParent(Settled(c).migrations, k) == ActiveParent(c.migrations, k)
  {
    var parent, s := c.run.value.parent, Settled(c);
    CoversIsUnder(c.migrations[parent], parent, |c.nodes|, k);
    forall p | p != parent ensures ActiveIn(s.migrations, p, k) <==> ActiveIn(c.migrations, p, k) {}
    assert !ActiveIn(s.migrations, parent, k);
    if parent <= k.Key() {
      forall p ensures !ActiveIn(s.migrations, p, k) {
        if p != parent && ActiveIn(c.migrations, p, k) {
          ActiveIsUnique(c.ring, |c.nodes|, c.migrations, p, parent, k);
        }
      }
    } else {
      var active, active' := ActiveParent(c.migrations, k), ActiveParent(s.migrations, k);
      if active.Some? {
        ActiveParentIs(s.ring, |s.nodes|, s.migrations, active.value, k);
      }
    }
  }

  lemma SettledContentsUnder(c: Cluster, k: Keyword)
    requires Inv(c) && c.run.Some? && Inv(Settled(c)) && c.run.value.confirmedUpTo == 16
    requires c.run.value.parent <= k.Key()
    ensures Contents(c, k) == ApplyAll(OpsFor(c.migrations[c.run.value.parent].pending, k), Contents(Settled(c), k))
  {
    var parent := c.run.value.parent;
    SettledActive(c, k);
    CoversIsUnder(c.migrations[parent], parent, |c.nodes|, k);
    ActiveParentIs(c.ring, |c.nodes|, c.migrations, parent, k);
    HomeInRange(c.ring, |c.nodes|, c.migrations, k);
    if !c.migrations[parent].moved {
      TargetHoldsCopy(c, k);
    }
  }

  /** All that settling leaves to do is to replay the buffered operations. */
  lemma SettledContents(c: Cluster, k: Keyword)
    requires Inv(c) && c.run.Some? && Inv(Settled(c)) && c.run.value.confirmedUpTo == 16
    ensures Contents(c, k) == ApplyAll(OpsFor(c.migrations[c.run.value.parent].pending, k), Contents(Settled(c), k))
  {
    var parent := c.run.value.parent;
    if parent <= k.Key() {
      SettledContentsUnder(c, k);
    } else {
      SettledKeepsHomeOutside(c, k);
      HomeInRange(c.ring, |c.nodes|, c.migrations, k);
      assert MigrationOk(c.ring, |c.nodes|, c.migrations[parent], parent);
      NothingPendingOutside(c.migrations[parent].pending, parent, k);
      ContentsByParts(c, Settled(c), k);
    }
  }

  lemma SettledKeepsHomeOutside(c: Cluster, k: Keyword)
    requires Inv(c) && c.run.Some? && Inv(Settled(c)) && !(c.run.value.parent <= k.Key())
    ensures Home(c.ring, Settled(c).migrations, k) == Home(c.ring, c.migrations, k)
    ensures PendingFor(Settled(c).migrations, k) == PendingFor(c.migrations, k)
  {
    var active, s := ActiveParent(c.migrations, k), Settled(c);
    SettledActive(c, k);
    if active.Some? {
      assert active.value != c.run.value.parent by {
        CoversIsUnder(c.migrations[c.run.value.parent], c.run.value.parent, |c.nodes|, k);
      }
      assert s.migrations[active.value] == c.migrations[active.value];
    }
  }

  lemma {:induction false} NothingPendingOutside(pending: seq<Operation>, parent: string, k: Keyword)
    requires forall j :: 0 <= j < |pending| ==> parent <= pending[j].keyword.Key()
    requires !(parent <= k.Key())
    ensures OpsFor(pending, k) == []
  {
    if pending != [] {
      NothingPendingOutside(pending[..|pending| - 1], parent, k);
    }
  }

  /** Replay only looks at the ring, the overrides and the storagers. */
  lemma {:induction false} ReplayIgnoresMigrations(
      c: Cluster, ops: seq<Operation>, summary: seq<Byte>, ms: Migrations, run: Option<Run>)
    requires c.ring.Valid()
    ensures Replay(c.(migrations := ms, run := run), ops, summary)
      == match Replay(c, ops, summary)
         case None => None
         case Some(r) => Some(r.(migrations := ms, run := run))
    decreases |ops|
  {
    if ops != [] {
      var route := RouteKeyword(c, ops[0].keyword);
      if route.Some? && route.value.node < |c.nodes| {
        var (stored, event) := Store(c, ops[0], route.value, summary);
        if event.None? && stored.ring.Valid() {
          ReplayIgnoresMigrations(stored, ops[1..], summary, ms, run);
        }
      }
    }
  }

  /** One replayed operation is a client operation that triggers no split. */
  lemma ReplayOne(c: Cluster, op: Operation, summary: seq<Byte>, k: Keyword)
    requires Inv(c) && Idle(c.migrations, op.keyword)
    ensures RouteKeyword(c, op.keyword).Some? && RouteKeyword(c, op.keyword).value.node < |c.nodes|
    ensures
      var (stored, event) := Store(c, op, RouteKeyword(c, op.keyword).value, summary);
      event.None? ==>
        && Inv(stored) && stored.migrations == c.migrations && stored.run == c.run && |stored.nodes| == |c.nodes|
        && Contents(stored, k) == if op.keyword == k then ApplyToFids(op, Contents(c, k)) else Contents(c, k)
  {
    RouteOfIdle(c, op.keyword);
    var (stored, event) := Store(c, op, RouteKeyword(c, op.keyword).value, summary);
    if event.None? {
      ClientStepRefines(c, op, summary, stored, k);
    }
  }

  lemma ReplayedContents(ops: seq<Operation>, k: Keyword, fids: set<string>)
    requires ops != []
    ensures ApplyAll(OpsFor(ops, k), fids)
      == ApplyAll(OpsFor(ops[1..], k), if ops[0].keyword == k then ApplyToFids(ops[0], fids) else fids)
  {
    assert ops == [ops[0]] + ops[1..];
    OpsForCons(ops[0], ops[1..], k);
    if ops[0].keyword == k {
      ApplyAllCons(ops[0], OpsFor(ops[1..], k), fids);
    } else {
      assert [] + OpsFor(ops[1..], k) == OpsFor(ops[1..], k);
    }
  }

  lemma ReplayUnfolds(c: Cluster, ops: seq<Operation>, summary: seq<Byte>)
    requires c.ring.Valid() && ops != [] && Replay(c, ops, summary).Some?
    ensures RouteKeyword(c, ops[0].keyword).Some? && RouteKeyword(c, ops[0].keyword).value.node < |c.nodes|
    ensures
      var (stored, event) := Store(c, ops[0], RouteKeyword(c, ops[0].keyword).value, summary);
      event == None && stored.ring.Valid() && Replay(stored, ops[1..], summary) == Replay(c, ops, summary)
  {}

  lemma ReplayStep(c: Cluster, ops: seq<Operation>, summary: seq<Byte>, k: Keyword) returns (stored: Cluster)
    requires Inv(c) && ops != [] && Replay(c, ops, summary).Some? && Idle(c.migrations, ops[0].keyword)
    ensures Inv(stored) && stored.migrations == c.migrations && stored.run == c.run && |stored.nodes| == |c.nodes|
    ensures Replay(stored, ops[1..], summary) == Replay(c, ops, summary)
    ensures Contents(stored, k) == if ops[0].keyword == k then ApplyToFids(ops[0], Contents(c, k)) else Contents(c, k)
  {
    ReplayUnfolds(c, ops, summary);
    ReplayOne(c, ops[0], summary, k);
    stored := Store(c, ops[0], RouteKeyword(c, ops[0].keyword).value, summary).0;
  }

  ghost predicate AllIdle(ms: Migrations, ops: seq<Operation>) {
    forall j :: 0 <= j < |ops| ==> Idle(ms, ops[j].keyword)
  }

  lemma AllIdleTail(ms: Migrations, ops: seq<Operation>)
    requires AllIdle(ms, ops) && ops != []
    ensures Idle(ms, ops[0].keyword) && AllIdle(ms, ops[1..])
  {}

  lemma {:induction false} ReplayKeepsInv(c: Cluster, ops: seq<Operation>, summary: seq<Byte>, c': Cluster, k: Keyword)
    requires Inv(c) && Replay(c, ops, summary) == Some(c') && AllIdle(c.migrations, ops)
    ensures Inv(c')
    decreases |ops|
  {
    if ops != [] {
      AllIdleTail(c.migrations, ops);
      var stored := ReplayStep(c, ops, summary, k);
      ReplayKeepsInv(stored, ops[1..], summary, c', k);
    }
  }

  /** Replaying operations on idle keywords applies each once, in order, to the contents. */
  lemma {:induction false} ReplayContents(c: Cluster, ops: seq<Operation>, summary: seq<Byte>, c': Cluster, k: Keyword)
    requires Inv(c) && Replay(c, ops, summary) == Some(c') && Inv(c') && AllIdle(c.migrations, ops)
    ensures Contents(c', k) == ApplyAll(OpsFor(ops, k), Contents(c, k))
    decreases |ops|
  {
    if ops != [] {
      AllIdleTail(c.migrations, ops);
      var stored := ReplayStep(c, ops, summary, k);
      ReplayContents(stored, ops[1..], summary, c', k);
      ReplayedContents(ops, k, Contents(c, k));
    }
  }

  /** Finishing a migration is settling it and replaying what was buffered. */
  lemma FinishIsReplay(c: Cluster, summary: seq<Byte>, c': Cluster)
    requires c.ring.Valid() && FinishStep(c, summary, c')
    ensures Replay(Settled(c), c.migrations[c.run.value.parent].pending, summary) == Some(c')
  {
    var parent, s := c.run.value.parent, Settled(c);
    var pending := c.migrations[parent].pending;
    var cleared := c.(overrides := DropOverridesUnder(c.overrides, parent));
    ReplayKeepsMigrations(cleared, pending, summary);
    ReplayIgnoresMigrations(cleared, pending, summary, s.migrations, None);
    assert cleared.(migrations := s.migrations, run := None) == s;
  }

  lemma PendingIsIdleAfterwards(c: Cluster)
    requires Inv(c) && c.run.Some? && Inv(Settled(c))
    ensures AllIdle(Settled(c).migrations, c.migrations[c.run.value.parent].pending)
  {
    var parent, s := c.run.value.parent, Settled(c);
    var pending := c.migrations[parent].pending;
    assert MigrationOk(c.ring, |c.nodes|, c.migrations[parent], parent);
    forall j | 0 <= j < |pending| ensures Idle(s.migrations, pending[j].keyword) {
      SettledActive(c, pending[j].keyword);
    }
  }

  lemma FinishKeeps(c: Cluster, summary: seq<Byte>, c': Cluster, k: Keyword)
    requires Inv(c) && FinishStep(c, summary, c')
    ensures Inv(c') && Contents(c', k) == Contents(c, k)
  {
    var parent, s := c.run.value.parent, Settled(c);
    var pending := c.migrations[parent].pending;
    SettledKeepsInv(c);
    SettledContents(c, k);
    PendingIsIdleAfterwards(c);
    FinishIsReplay(c, summary, c');
    ReplayKeepsInv(s, pending, summary, c', k);
    ReplayContents(s, pending, summary, c', k);
  }

  lemma {:induction false} ReplayKeepsMigrations(c: Cluster, ops: seq<Operation>, summary: seq<Byte>)
    requires c.ring.Valid() && Replay(c, ops, summary).Some?
    ensures Replay(c, ops, summary).value.migrations == c.migrations
    ensures Replay(c, ops, summary).value.queued == c.queued
    decreases |ops|
  {
    if ops != [] {
      ReplayKeepsMigrations(Store(c, ops[0], RouteKeyword(c, ops[0].keyword).value, summary).0, ops[1..], summary);
    }
  }

  // ----- all steps

  /** Every step keeps the invariant. A client operation acts on its keyword's contents as the plain
      operation does; no other step, whether it succeeds or aborts, changes any contents. */
  lemma NextRefines(c: Cluster, step: Step, c': Cluster, k: Keyword)
    requires Inv(c) && Next(c, step, c')
    ensures Inv(c')
    ensures Contents(c', k)
      == if step.Client? && step.op.keyword == k then ApplyToFids(step.op, Contents(c, k)) else Contents(c, k)
  {
    match step
    case Client(op, summary) => ClientStepRefines(c, op, summary, c', k);
    case UpdateSummary(prefix, summary) => SummaryKeeps(c, prefix, summary, c', k);
    case StartMigration(parent) => StartKeeps(c, parent, c', k);
    case PrepareChild => PrepareKeeps(c, c', k);
    case ImportChild(i) => ImportKeeps(c, i, c', k);
    case ConfirmChild => ConfirmKeeps(c, c', k);
    case FinishMigration(summary) => FinishKeeps(c, summary, c', k);
    case AbortMigration => AbortKeeps(c, c', k);
    case PresplitPrefix(prefix, incoming) => PresplitKeeps(c, prefix, incoming, c', k);
  }

  lemma InitIsInv(c: Cluster, k: Keyword)
    requires Init(c)
    ensures Inv(c) && Contents(c, k) == {}
  {
    assert ActiveParent(c.migrations, k).None?;
    HomeInRange(c.ring, |c.nodes|, c.migrations, k);
  }

  lemma AcceptedOneMore(steps: seq<Step>, n: nat, k: Keyword)
    requires n < |steps|
    ensures ApplyAll(OpsFor(Accepted(steps[..n + 1]), k), {}) ==
      var fids := ApplyAll(OpsFor(Accepted(steps[..n]), k), {});
      if steps[n].Client? && steps[n].op.keyword == k then ApplyToFids(steps[n].op, fids) else fids
  {
    var before := Accepted(steps[..n]);
    assert steps[..n + 1][..n] == steps[..n];
    if steps[n].Client? {
      BufferedContents(before, steps[n].op, k, {});
    } else {
      assert before + [] == before;
    }
  }

  /** In every reachable state a keyword's contents are what the accepted operations on it, applied
      directly in order, would leave. */
  lemma {:induction false} ContentsFollowAccepted(trace: seq<Cluster>, steps: seq<Step>, n: nat, k: Keyword)
    requires IsRun(trace, steps) && n <= |steps|
    ensures Inv(trace[n])
    ensures Contents(trace[n], k) == ApplyAll(OpsFor(Accepted(steps[..n]), k), {})
  {
    if n == 0 {
      InitIsInv(trace[0], k);
    } else {
      ContentsFollowAccepted(trace, steps, n - 1, k);
      NextRefines(trace[n - 1], steps[n - 1], trace[n], k);
      AcceptedOneMore(steps, n - 1, k);
    }
  }

  /** `node` holds exactly what `ops` leave of the keyword, up to the operations still buffered for it. */
  ghost predicate Holds(c: Cluster, node: nat, k: Keyword, ops: seq<Operation>) {
    && node < |c.nodes|
    && ApplyAll(PendingFor(c.migrations, k), Fids(c.nodes[node], k)) == ApplyAll(OpsFor(ops, k), {})
  }

  /** No record is lost at any step of any run, aborted migrations included: some storager holds what
      the accepted operations leave of the keyword. */
  lemma NoRecordIsLost(trace: seq<Cluster>, steps: seq<Step>, n: nat, k: Keyword)
    requires IsRun(trace, steps) && n <= |steps|
    ensures exists node :: Holds(trace[n], node, k, Accepted(steps[..n]))
  {
    ContentsFollowAccepted(trace, steps, n, k);
    HomeInRange(trace[n].ring, |trace[n].nodes|, trace[n].migrations, k);
    assert Holds(trace[n], Home(trace[n].ring, trace[n].migrations, k), k, Accepted(steps[..n]));
  }

  /** The window in which a covered keyword's source has deleted but its migration is not confirmed. */
  ghost predicate InHandOver(c: Cluster, k: Keyword) {
    exists p :: ActiveIn(c.migrations, p, k) && c.migrations[p].moved
  }

  /** Outside the hand-over window a read is sent to a storager that holds exactly the keyword's
      records, up to the operations still buffered for it. */
  lemma ReadsAreComplete(trace: seq<Cluster>, steps: seq<Step>, n: nat, k: Keyword)
    requires IsRun(trace, steps) && n <= |steps| && !InHandOver(trace[n], k)
    ensures trace[n].ring.Valid()
    ensures
      var route := QueryRouteKeyword(trace[n], k);
      route.Some? && Holds(trace[n], route.value.node, k, Accepted(steps[..n]))
  {
    ContentsFollowAccepted(trace, steps, n, k);
    HomeInRange(trace[n].ring, |trace[n].nodes|, trace[n].migrations, k);
    if Idle(trace[n].migrations, k) {
      RouteOfIdle(trace[n], k);
    }
  }

  /** In particular a read with nothing buffered sees exactly the accepted operations. */
  lemma ReadsWithoutBufferedWrites(trace: seq<Cluster>, steps: seq<Step>, n: nat, k: Keyword)
    requires IsRun(trace, steps) && n <= |steps| && Idle(trace[n].migrations, k)
    ensures trace[n].ring.Valid()
    ensures
      var route := QueryRouteKeyword(trace[n], k);
      && route.Some? && route.value.node < |trace[n].nodes|
      && Fids(trace[n].nodes[route.value.node], k) == ApplyAll(OpsFor(Accepted(steps[..n]), k), {})
  {
    ReadsAreComplete(trace, steps, n, k);
  }
}
