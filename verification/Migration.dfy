/** Prefix splits, record migration and replay as a state machine over the manager and its storagers.
    A client write is one step. A background migration takes one step per storager call and may stop
    at any point. Steps of clients and of the one running migration interleave freely. Presplits and
    replays are guarded here; `Unguarded` takes them as the code does. */
module Migration {
  import opened Wrappers
  import opened Hex
  import opened Ring
  import opened Routing
  import opened AccTree

  datatype Operation =
    | Add(keyword: Keyword, fid: string)
    | Delete(keyword: Keyword, fid: string)

  /** The manager's state for one split prefix. `entry` and `moved` are the model's bookkeeping: the
      ring entry that was split, and whether the source has deleted the confirmed records. */
  datatype PrefixMigration = PrefixMigration(
    plan: PrefixSplitPlan, confirmed: bool, pending: seq<Operation>, entry: nat, moved: bool)
  {
    ghost predicate Covers(keyword: Keyword) {
      exists d :: 0 <= d < |plan.children| && KeywordMatchesPrefix(keyword, plan.children[d].prefix)
    }
  }

  /** The migration that holds the migration lock: children below `prepared` have been prepared,
      `segments` holds the exported ones, and children below `confirmedUpTo` have been confirmed. */
  datatype Run = Run(parent: string, prepared: nat, segments: map<nat, Segment>, imported: set<nat>, confirmedUpTo: nat)

  datatype Cluster = Cluster(
    ring: RingState, overrides: map<Keyword, RouteTarget>, nodes: seq<Storager>,
    migrations: Migrations, queued: set<string>, run: Option<Run>)

  // ----- routing during migrations

  type Migrations = map<string, PrefixMigration>

  ghost predicate ActiveIn(ms: Migrations, parent: string, keyword: Keyword) {
    parent in ms && !ms[parent].confirmed && ms[parent].Covers(keyword)
  }

  ghost predicate Idle(ms: Migrations, keyword: Keyword) {
    forall p :: !ActiveIn(ms, p, keyword)
  }

  ghost function ActiveParent(ms: Migrations, keyword: Keyword): (parent: Option<string>)
    ensures parent.Some? ==> ActiveIn(ms, parent.value, keyword)
    ensures parent.None? ==> Idle(ms, keyword)
  {
    if p: string :| ActiveIn(ms, p, keyword) then Some(p) else None
  }

  ghost function RouteKeyword(c: Cluster, keyword: Keyword): Option<RouteTarget>
    requires c.ring.Valid()
  {
    if keyword in c.overrides then Some(c.overrides[keyword]) else RingLookup(c.ring, keyword)
  }

  /** During a migration reads stay on the source. */
  ghost function QueryRouteKeyword(c: Cluster, keyword: Keyword): Option<RouteTarget>
    requires c.ring.Valid()
  {
    match ActiveParent(c.migrations, keyword)
    case None => RouteKeyword(c, keyword)
    case Some(p) =>
      var plan := c.migrations[p].plan;
      var d :| 0 <= d < |plan.children| && KeywordMatchesPrefix(keyword, plan.children[d].prefix);
      Some(RouteTarget(plan.children[d].prefix, plan.source.node))
  }

  // ----- steps

  function ApplyToRecords(op: Operation, records: set<Record>): set<Record> {
    match op
    case Add(keyword, fid) => records + {Record(keyword, fid)}
    case Delete(keyword, fid) => records - {Record(keyword, fid)}
  }

  /** Sends an operation to the storager a route names and records it with the router. */
  function Store(c: Cluster, op: Operation, route: RouteTarget, summary: seq<Byte>): (Cluster, Option<SplitEvent>)
    requires route.node < |c.nodes|
  {
    var node := c.nodes[route.node];
    var nodes := c.nodes[route.node := node.(records := ApplyToRecords(op, node.records))];
    match op
    case Add(keyword, _) =>
      var (ring, _, event) := c.ring.Apply(Insert(route.prefix, summary));
      (c.(nodes := nodes, ring := ring, overrides := c.overrides[keyword := route]), event)
    case Delete(keyword, _) =>
      (c.(nodes := nodes, ring := c.ring.Apply(RingOp.Delete(route.prefix, summary)).0,
          overrides := c.overrides - {keyword}), None)
  }

  function Buffer(c: Cluster, parent: string, op: Operation): Cluster
    requires parent in c.migrations
  {
    var m := c.migrations[parent];
    c.(migrations := c.migrations[parent := m.(pending := m.pending + [op])])
  }

  ghost predicate EventOk(ring: RingState, event: SplitEvent) {
    && event.parentEntryIndex < |ring.entries|
    && forall d :: 0 <= d < |event.childRoutes| ==> event.childRoutes[d].entryIndex < |ring.entries|
  }

  /** Registers the migration a split calls for, unless one is already pending under that prefix. */
  function ScheduleSplitMigration(c: Cluster, event: SplitEvent): Cluster
    requires EventOk(c.ring, event)
  {
    var plan := BuildSplitPlan(event, c.ring);
    var parent := plan.source.prefix;
    if parent in c.migrations && !c.migrations[parent].confirmed then c
    else c.(migrations := c.migrations[parent := PrefixMigration(plan, false, [], event.parentEntryIndex, false)],
            queued := c.queued + {parent})
  }

  ghost predicate ClientStep(c: Cluster, op: Operation, summary: seq<Byte>, c': Cluster)
    requires c.ring.Valid()
  {
    if !Idle(c.migrations, op.keyword) then
      exists p :: ActiveIn(c.migrations, p, op.keyword) && c' == Buffer(c, p, op)
    else match RouteKeyword(c, op.keyword)
      case None => c' == c
      case Some(route) =>
        && route.node < |c.nodes|
        && var (stored, event) := Store(c, op, route, summary);
           match event
           case None => c' == stored
           case Some(e) => EventOk(stored.ring, e) && c' == ScheduleSplitMigration(stored, e)
  }

  ghost predicate StartStep(c: Cluster, parent: string, c': Cluster) {
    && c.run.None? && parent in c.queued
    && c' == c.(queued := c.queued - {parent}, run := Some(Run(parent, 0, map[], {}, 0)))
  }

  /** The next child in order: skipped when it stays on the source, else exported and retained there. */
  ghost predicate PrepareStep(c: Cluster, c': Cluster) {
    && c.run.Some? && c.run.value.parent in c.migrations
    && var run, m := c.run.value, c.migrations[c.run.value.parent];
    && run.prepared < |m.plan.children|
    && if !m.plan.IsForeign(run.prepared) then
         c' == c.(run := Some(run.(prepared := run.prepared + 1)))
       else
         && m.plan.source.node < |c.nodes|
         && var prepared := c.nodes[m.plan.source.node].Prepare(m.plan.children[run.prepared].prefix);
         && prepared.Ok?
         && c' == c.(
              nodes := c.nodes[m.plan.source.node := prepared.value.0],
              run := Some(run.(prepared := run.prepared + 1,
                               segments := run.segments[run.prepared := prepared.value.1])))
  }

  /** Imports run concurrently once every child has been prepared, so in any order. */
  ghost predicate ImportStep(c: Cluster, i: nat, c': Cluster) {
    && c.run.Some? && c.run.value.parent in c.migrations
    && var run, m := c.run.value, c.migrations[c.run.value.parent];
    && run.prepared == |m.plan.children| && i in run.segments && i !in run.imported && i < |m.plan.children|
    && m.plan.children[i].node < |c.nodes|
    && var target := m.plan.children[i].node;
    && var imported := c.nodes[target].Import(run.segments[i]);
    && imported.Ok?
    && c' == c.(nodes := c.nodes[target := imported.value], run := Some(run.(imported := run.imported + {i})))
  }

  /** Whether confirming `prefix` is the confirm at which a storager deletes. */
  predicate Deletes(s: Storager, prefix: string) {
    s.retained - {prefix} == {}
  }

  /** Confirms follow, in child order, once every import has succeeded. */
  ghost predicate ConfirmStep(c: Cluster, c': Cluster) {
    && c.run.Some? && c.run.value.parent in c.migrations
    && var run, m := c.run.value, c.migrations[c.run.value.parent];
    && run.prepared == |m.plan.children| && run.imported == run.segments.Keys
    && run.confirmedUpTo < |m.plan.children|
    && if run.confirmedUpTo !in run.segments then
         c' == c.(run := Some(run.(confirmedUpTo := run.confirmedUpTo + 1)))
       else
         && m.plan.source.node < |c.nodes|
         && var source, prefix := c.nodes[m.plan.source.node], m.plan.children[run.confirmedUpTo].prefix;
         && source.Confirm(prefix).Ok?
         && c' == c.(
              nodes := c.nodes[m.plan.source.node := source.Confirm(prefix).value],
              migrations := c.migrations[run.parent := m.(moved := m.moved || Deletes(source, prefix))],
              run := Some(run.(confirmedUpTo := run.confirmedUpTo + 1)))
  }

  function DropOverridesUnder(overrides: map<Keyword, RouteTarget>, prefix: string): map<Keyword, RouteTarget> {
    map k | k in overrides && !KeywordMatchesPrefix(k, prefix) :: overrides[k]
  }

  /** Replays buffered operations in order, each at the route of the moment. `None` stands for a replay
      that finds no route or runs into a nested split; `Unguarded.ReplayAll` goes on there as the code does. */
  ghost function Replay(c: Cluster, ops: seq<Operation>, summary: seq<Byte>): Option<Cluster>
    requires c.ring.Valid()
    decreases |ops|
  {
    if ops == [] then Some(c)
    else match RouteKeyword(c, ops[0].keyword)
      case None => None
      case Some(route) =>
        if route.node >= |c.nodes| then None
        else
          var (stored, event) := Store(c, ops[0], route, summary);
          if event.Some? || !stored.ring.Valid() then None else Replay(stored, ops[1..], summary)
  }

  /** All children confirmed: drop the overrides under the parent, replay what was buffered, and mark
      the migration confirmed. */
  ghost predicate FinishStep(c: Cluster, summary: seq<Byte>, c': Cluster)
    requires c.ring.Valid()
  {
    && c.run.Some? && c.run.value.parent in c.migrations
    && var run, m := c.run.value, c.migrations[c.run.value.parent];
    && run.confirmedUpTo == |m.plan.children|
    && var cleared := c.(overrides := DropOverridesUnder(c.overrides, run.parent));
    && var replayed := Replay(cleared, m.pending, summary);
    && replayed.Some?
    && c' == replayed.value.(
         migrations := replayed.value.migrations[run.parent := m.(confirmed := true, pending := [])],
         run := None)
  }

  /** Nothing under the prefix that a presplit could leave behind: no migration covers it, no override names
      its old route, and every keyword with records there keeps its storager. */
  ghost predicate SafeToPresplit(c: Cluster, prefix: string) {
    && |c.nodes| > 0
    && forall k: Keyword :: prefix <= k.Key() ==>
      && Idle(c.migrations, k) && k !in c.overrides
      && (StoredNowhere(c, k) || DigitAt(k.Key(), |prefix|) % |c.nodes| == 0)
  }

  ghost predicate StoredNowhere(c: Cluster, k: Keyword) {
    forall n: nat :: n < |c.nodes| ==> Fids(c.nodes[n], k) == {}
  }

  /** The router splits an uncounted prefix ahead of a batch and moves no record. The code tests the counter
      alone; this step is the split when that test tells the truth. What happens otherwise is said in modules
      `PresplitRecords` and `UnguardedRuns`. */
  ghost predicate PresplitStep(c: Cluster, prefix: string, incoming: nat, c': Cluster) {
    var (ring, _, event) := c.ring.Apply(Presplit(prefix, incoming));
    c' == c.(ring := ring) && (event.Some? ==> SafeToPresplit(c, Canonical(Capped(prefix))))
  }

  datatype Step =
    | Client(op: Operation, summary: seq<Byte>)
    | UpdateSummary(prefix: string, summary: seq<Byte>)
    | StartMigration(parent: string)
    | PrepareChild
    | ImportChild(child: nat)
    | ConfirmChild
    | FinishMigration(summary: seq<Byte>)
    | AbortMigration
    | PresplitPrefix(prefix: string, incoming: nat)

  ghost predicate Next(c: Cluster, step: Step, c': Cluster)
    requires c.ring.Valid()
  {
    match step
    case Client(op, summary) => ClientStep(c, op, summary, c')
    case UpdateSummary(prefix, summary) =>
      c' == c.(ring := c.ring.Apply(SetRootSummary(prefix, summary)).0)
    case StartMigration(parent) => StartStep(c, parent, c')
    case PrepareChild => PrepareStep(c, c')
    case ImportChild(i) => ImportStep(c, i, c')
    case ConfirmChild => ConfirmStep(c, c')
    case FinishMigration(summary) => FinishStep(c, summary, c')
    case AbortMigration => c.run.Some? && c' == c.(run := None)
    case PresplitPrefix(prefix, incoming) => PresplitStep(c, prefix, incoming, c')
  }

  ghost predicate Init(c: Cluster) {
    && c.ring.Forest() && (forall i: nat :: !c.ring.IsSplit(i))
    && |c.nodes| == |c.ring.nodeNames|
    && (forall n :: 0 <= n < |c.nodes| ==> c.nodes[n] == Storager({}, {}, {}))
    && c.overrides == map[] && c.migrations == map[] && c.queued == {} && c.run == None
  }

  ghost predicate IsRun(trace: seq<Cluster>, steps: seq<Step>) {
    && |trace| == |steps| + 1 && Init(trace[0])
    && forall i :: 0 <= i < |steps| ==> trace[i].ring.Valid() && Next(trace[i], steps[i], trace[i + 1])
  }

  // ----- what clients observe

  function Fids(s: Storager, keyword: Keyword): set<string> {
    set r | r in s.records && r.keyword == keyword :: r.fid
  }

  function ApplyToFids(op: Operation, fids: set<string>): set<string> {
    match op
    case Add(_, fid) => fids + {fid}
    case Delete(_, fid) => fids - {fid}
  }

  function ApplyAll(ops: seq<Operation>, fids: set<string>): set<string> {
    if ops == [] then fids else ApplyToFids(ops[|ops| - 1], ApplyAll(ops[..|ops| - 1], fids))
  }

  /** The operations on one keyword, in order. */
  function OpsFor(ops: seq<Operation>, keyword: Keyword): seq<Operation> {
    if ops == [] then []
    else OpsFor(ops[..|ops| - 1], keyword) + if ops[|ops| - 1].keyword == keyword then [ops[|ops| - 1]] else []
  }

  /** The client operations among the first `n` steps, in the order they were accepted. */
  function Accepted(steps: seq<Step>): seq<Operation> {
    if steps == [] then []
    else Accepted(steps[..|steps| - 1]) + if steps[|steps| - 1].Client? then [steps[|steps| - 1].op] else []
  }
}
