/** Runs that get somewhere: a migration with nothing buffered can always be taken to its end. From them, two
    reachable clusters in which a query misses what is stored. */
module MigrationProgress {
  import opened Wrappers
  import opened Hex
  import opened Ring
  import opened Routing
  import opened AccTree
  import opened Presplit
  import opened Migration
  import opened MigrationInvariant
  import opened MigrationClient
  import opened MigrationServer
  import opened MigrationTheorems
  import opened MigrationPlacement
  import opened MigrationReads
  import opened PresplitRecords

  // ----- reachable clusters

  /** A run without aborts that ends in `c` and has accepted `ops`. */
  ghost predicate EndsIn(c: Cluster, ops: seq<Operation>, trace: seq<Cluster>, steps: seq<Step>) {
    && IsRun(trace, steps) && trace[|steps|] == c && Accepted(steps) == ops
    && forall i :: 0 <= i < |steps| ==> !steps[i].AbortMigration?
  }

  ghost predicate Reachable(c: Cluster, ops: seq<Operation>) {
    exists trace, steps :: EndsIn(c, ops, trace, steps)
  }

  lemma ReachInit(c: Cluster)
    requires Init(c)
    ensures Reachable(c, [])
  {
    assert EndsIn(c, [], [c], []);
  }

  lemma RunOnce(trace: seq<Cluster>, steps: seq<Step>, step: Step, c': Cluster)
    requires IsRun(trace, steps) && trace[|steps|].ring.Valid() && Next(trace[|steps|], step, c')
    ensures IsRun(trace + [c'], steps + [step])
  {
    var trace', steps' := trace + [c'], steps + [step];
    forall i | 0 <= i < |steps'| ensures trace'[i].ring.Valid() && Next(trace'[i], steps'[i], trace'[i + 1]) {
      if i < |steps| {
        assert trace'[i] == trace[i] && trace'[i + 1] == trace[i + 1] && steps'[i] == steps[i];
      }
    }
  }

  lemma ReachNext(c: Cluster, ops: seq<Operation>, step: Step, c': Cluster)
    requires Reachable(c, ops) && c.ring.Valid() && Next(c, step, c') && !step.AbortMigration?
    ensures Reachable(c', if step.Client? then ops + [step.op] else ops)
  {
    var trace, steps :| EndsIn(c, ops, trace, steps);
    var trace', steps' := trace + [c'], steps + [step];
    assert steps'[..|steps|] == steps;
    assert ops + [] == ops;
    RunOnce(trace, steps, step, c');
    assert EndsIn(c', if step.Client? then ops + [step.op] else ops, trace', steps');
  }

  lemma ReachableIsClean(c: Cluster, ops: seq<Operation>, k: Keyword)
    requires Reachable(c, ops)
    ensures CleanInv(c) && Contents(c, k) == ApplyAll(OpsFor(ops, k), {})
  {
    var trace, steps :| EndsIn(c, ops, trace, steps);
    RunKeepsClean(trace, steps, |steps|, k);
    ContentsFollowAccepted(trace, steps, |steps|, k);
    assert steps[..|steps|] == steps;
  }

  const ANY_KEYWORD := Keyword("", DigestOf(""))

  // ----- taking a migration to its end

  /** What the steps of one migration leave alone. */
  ghost predicate SameFrame(c: Cluster, c': Cluster, parent: string) {
    && c'.ring == c.ring && c'.overrides == c.overrides && c'.queued == c.queued && |c'.nodes| == |c.nodes|
    && parent in c.migrations && parent in c'.migrations
    && c'.migrations == c.migrations[parent := c.migrations[parent].(moved := c'.migrations[parent].moved)]
  }

  lemma FrameJoin(a: Cluster, b: Cluster, c: Cluster, parent: string)
    requires SameFrame(a, b, parent) && SameFrame(b, c, parent)
    ensures SameFrame(a, c, parent)
  {}

  lemma ImportedInRange(c: Cluster)
    requires Inv(c) && c.run.Some?
    ensures c.run.value.imported <= c.run.value.segments.Keys && c.run.value.confirmedUpTo <= 16 && c.run.value.parent in c.migrations
  {}

  lemma PrepareCan(c: Cluster) returns (c': Cluster)
    requires Inv(c) && c.run.Some? && c.run.value.prepared < 16
    ensures PrepareStep(c, c') && c'.run.Some? && SameFrame(c, c', c.run.value.parent)
    ensures c'.run.value.parent == c.run.value.parent && c'.run.value.prepared == c.run.value.prepared + 1
  {
    var run, m := c.run.value, c.migrations[c.run.value.parent];
    if m.plan.IsForeign(run.prepared) {
      PrepareKeepsRun(c.nodes, m.plan, m.moved, run);
      var prepared := c.nodes[m.plan.source.node].Prepare(m.plan.children[run.prepared].prefix);
      c' := c.(nodes := c.nodes[m.plan.source.node := prepared.value.0],
               run := Some(run.(prepared := run.prepared + 1, segments := run.segments[run.prepared := prepared.value.1])));
    } else {
      c' := c.(run := Some(run.(prepared := run.prepared + 1)));
    }
  }

  lemma PrepareOne(c: Cluster, ops: seq<Operation>) returns (c': Cluster)
    requires Reachable(c, ops) && c.run.Some? && c.run.value.prepared < 16
    ensures Reachable(c', ops) && c'.run.Some? && SameFrame(c, c', c.run.value.parent)
    ensures c'.run.value.parent == c.run.value.parent && c'.run.value.prepared == c.run.value.prepared + 1
  {
    ReachableIsClean(c, ops, ANY_KEYWORD);
    c' := PrepareCan(c);
    assert Next(c, PrepareChild, c');
    ReachNext(c, ops, PrepareChild, c');
  }

  lemma {:induction false} PrepareRest(c: Cluster, ops: seq<Operation>) returns (c': Cluster)
    requires Reachable(c, ops) && c.run.Some? && c.run.value.prepared <= 16 && c.run.value.parent in c.migrations
    ensures Reachable(c', ops) && c'.run.Some? && SameFrame(c, c', c.run.value.parent)
    ensures c'.run.value.parent == c.run.value.parent && c'.run.value.prepared == 16
    decreases 16 - c.run.value.prepared
  {
    if c.run.value.prepared == 16 {
      c' := c;
    } else {
      var next := PrepareOne(c, ops);
      c' := PrepareRest(next, ops);
      FrameJoin(c, next, c', c.run.value.parent);
    }
  }

  ghost function LeftToImport(run: Run): set<nat> {
    run.segments.Keys - run.imported
  }

  lemma ImportCan(c: Cluster, i: nat) returns (c': Cluster)
    requires Inv(c) && c.run.Some? && c.run.value.prepared == 16 && i in LeftToImport(c.run.value)
    ensures ImportStep(c, i, c') && SameFrame(c, c', c.run.value.parent)
    ensures c'.run == Some(c.run.value.(imported := c.run.value.imported + {i}))
  {
    var run, m := c.run.value, c.migrations[c.run.value.parent];
    ImportKeepsRun(c.nodes, m.plan, m.moved, run, i);
    var target := m.plan.children[i].node;
    c' := c.(nodes := c.nodes[target := c.nodes[target].Import(run.segments[i]).value],
             run := Some(run.(imported := run.imported + {i})));
  }

  lemma ImportOne(c: Cluster, ops: seq<Operation>, i: nat) returns (c': Cluster)
    requires Reachable(c, ops) && c.run.Some? && c.run.value.prepared == 16 && i in LeftToImport(c.run.value)
    ensures Reachable(c', ops) && SameFrame(c, c', c.run.value.parent)
    ensures c'.run == Some(c.run.value.(imported := c.run.value.imported + {i}))
  {
    ReachableIsClean(c, ops, ANY_KEYWORD);
    c' := ImportCan(c, i);
    assert Next(c, ImportChild(i), c');
    ReachNext(c, ops, ImportChild(i), c');
  }

  lemma OneLeftLess(run: Run, i: nat)
    requires i in LeftToImport(run)
    ensures |LeftToImport(run.(imported := run.imported + {i}))| < |LeftToImport(run)|
  {
    assert LeftToImport(run.(imported := run.imported + {i})) == LeftToImport(run) - {i};
  }

  lemma NoneLeft(run: Run)
    requires run.imported <= run.segments.Keys && LeftToImport(run) == {}
    ensures run == run.(imported := run.segments.Keys)
  {
    forall i | i in run.segments ensures i in run.imported {
      assert i !in LeftToImport(run);
    }
  }

  lemma AllImported(c: Cluster, ops: seq<Operation>)
    requires Reachable(c, ops) && c.run.Some? && LeftToImport(c.run.value) == {}
    ensures c.run == Some(c.run.value.(imported := c.run.value.segments.Keys))
  {
    assert c.run.value.imported <= c.run.value.segments.Keys by {
      ReachableIsClean(c, ops, ANY_KEYWORD);
      ImportedInRange(c);
    }
    NoneLeft(c.run.value);
  }

  lemma ImportSome(c: Cluster, ops: seq<Operation>) returns (c': Cluster)
    requires Reachable(c, ops) && c.run.Some? && c.run.value.prepared == 16 && LeftToImport(c.run.value) != {}
    ensures Reachable(c', ops) && SameFrame(c, c', c.run.value.parent)
    ensures c'.run.Some? && c'.run.value == c.run.value.(imported := c'.run.value.imported)
    ensures |LeftToImport(c'.run.value)| < |LeftToImport(c.run.value)|
  {
    var i :| i in LeftToImport(c.run.value);
    OneLeftLess(c.run.value, i);
    c' := ImportOne(c, ops, i);
  }

  lemma {:induction false} ImportRest(c: Cluster, ops: seq<Operation>) returns (c': Cluster)
    requires Reachable(c, ops) && c.run.Some? && c.run.value.prepared == 16 && c.run.value.parent in c.migrations
    ensures Reachable(c', ops) && SameFrame(c, c', c.run.value.parent)
    ensures c'.run == Some(c.run.value.(imported := c.run.value.segments.Keys))
    decreases |LeftToImport(c.run.value)|
  {
    if LeftToImport(c.run.value) == {} {
      c' := c;
      AllImported(c, ops);
    } else {
      var next := ImportSome(c, ops);
      c' := ImportRest(next, ops);
      FrameJoin(c, next, c', c.run.value.parent);
    }
  }

  lemma ConfirmSucceeds(c: Cluster)
    requires Inv(c) && c.run.Some? && c.run.value.prepared == 16 && c.run.value.imported == c.run.value.segments.Keys
    requires c.run.value.confirmedUpTo < 16 && c.run.value.confirmedUpTo in c.run.value.segments
    ensures
      var m := c.migrations[c.run.value.parent];
      c.nodes[m.plan.source.node].Confirm(m.plan.children[c.run.value.confirmedUpTo].prefix).Ok?
  {
    var run, m := c.run.value, c.migrations[c.run.value.parent];
    if Deletes(c.nodes[m.plan.source.node], m.plan.children[run.confirmedUpTo].prefix) {
      DeletingConfirmKeepsRun(c.nodes, m.plan, m.moved, run);
    } else {
      KeepingConfirmKeepsRun(c.nodes, m.plan, m.moved, run);
    }
  }

  /** Everything is imported and the confirms are under way. */
  ghost predicate Confirming(c: Cluster) {
    && c.run.Some? && c.run.value.parent in c.migrations && c.run.value.prepared == 16
    && c.run.value.imported == c.run.value.segments.Keys && c.run.value.confirmedUpTo <= 16
  }

  lemma ConfirmOne(c: Cluster, ops: seq<Operation>) returns (c': Cluster)
    requires Reachable(c, ops) && Confirming(c) && c.run.value.confirmedUpTo < 16
    ensures Reachable(c', ops) && Confirming(c') && SameFrame(c, c', c.run.value.parent)
    ensures c'.run.value == c.run.value.(confirmedUpTo := c.run.value.confirmedUpTo + 1)
  {
    ReachableIsClean(c, ops, ANY_KEYWORD);
    var run, m := c.run.value, c.migrations[c.run.value.parent];
    if run.confirmedUpTo in run.segments {
      ConfirmSucceeds(c);
      var source, prefix := c.nodes[m.plan.source.node], m.plan.children[run.confirmedUpTo].prefix;
      c' := c.(nodes := c.nodes[m.plan.source.node := source.Confirm(prefix).value],
               migrations := c.migrations[run.parent := m.(moved := m.moved || Deletes(source, prefix))],
               run := Some(run.(confirmedUpTo := run.confirmedUpTo + 1)));
    } else {
      c' := c.(run := Some(run.(confirmedUpTo := run.confirmedUpTo + 1)));
    }
    assert Next(c, ConfirmChild, c');
    ReachNext(c, ops, ConfirmChild, c');
  }

  lemma {:induction false} ConfirmRest(c: Cluster, ops: seq<Operation>) returns (c': Cluster)
    requires Reachable(c, ops) && Confirming(c)
    ensures Reachable(c', ops) && Confirming(c') && SameFrame(c, c', c.run.value.parent)
    ensures c'.run.value == c.run.value.(confirmedUpTo := 16)
    decreases 16 - c.run.value.confirmedUpTo
  {
    if c.run.value.confirmedUpTo == 16 {
      c' := c;
    } else {
      var next := ConfirmOne(c, ops);
      c' := ConfirmRest(next, ops);
      FrameJoin(c, next, c', c.run.value.parent);
    }
  }

  lemma FinishOne(c: Cluster, ops: seq<Operation>) returns (c': Cluster)
    requires Reachable(c, ops) && Confirming(c) && c.run.value.confirmedUpTo == 16
    requires c.migrations[c.run.value.parent].pending == []
    ensures Reachable(c', ops)
    ensures
      var parent := c.run.value.parent;
      c' == c.(overrides := DropOverridesUnder(c.overrides, parent), run := None,
               migrations := c.migrations[parent := c.migrations[parent].(confirmed := true, pending := [])])
  {
    ReachableIsClean(c, ops, ANY_KEYWORD);
    var parent := c.run.value.parent;
    c' := c.(overrides := DropOverridesUnder(c.overrides, parent), run := None,
             migrations := c.migrations[parent := c.migrations[parent].(confirmed := true, pending := [])]);
    assert Next(c, FinishMigration([]), c');
    ReachNext(c, ops, FinishMigration([]), c');
  }

  lemma StartOne(c: Cluster, ops: seq<Operation>, parent: string) returns (c': Cluster)
    requires Reachable(c, ops) && c.run.None? && parent in c.queued
    ensures Reachable(c', ops) && c' == c.(queued := c.queued - {parent}, run := Some(Run(parent, 0, map[], {}, 0)))
  {
    ReachableIsClean(c, ops, ANY_KEYWORD);
    c' := c.(queued := c.queued - {parent}, run := Some(Run(parent, 0, map[], {}, 0)));
    assert Next(c, StartMigration(parent), c');
    ReachNext(c, ops, StartMigration(parent), c');
  }

  lemma RunToConfirmed(c: Cluster, ops: seq<Operation>) returns (c': Cluster)
    requires Reachable(c, ops) && c.run.Some? && c.run.value.prepared == 0 && c.run.value.parent in c.migrations
    ensures Reachable(c', ops) && Confirming(c') && SameFrame(c, c', c.run.value.parent)
    ensures c'.run.value.parent == c.run.value.parent && c'.run.value.confirmedUpTo == 16
  {
    var prepared := PrepareRest(c, ops);
    var imported := ImportRest(prepared, ops);
    FrameJoin(c, prepared, imported, c.run.value.parent);
    assert Confirming(imported) by {
      ReachableIsClean(imported, ops, ANY_KEYWORD);
      ImportedInRange(imported);
    }
    c' := ConfirmRest(imported, ops);
    FrameJoin(c, imported, c', c.run.value.parent);
  }

  /** A queued migration with nothing buffered can be taken to its end: the ring stays, the overrides under its
      prefix are gone, and it is confirmed. */
  lemma MigrationCanComplete(c: Cluster, ops: seq<Operation>, parent: string) returns (c': Cluster)
    requires Reachable(c, ops) && c.run.None? && parent in c.queued && parent in c.migrations && c.migrations[parent].pending == []
    ensures Reachable(c', ops) && c'.ring == c.ring && c'.run.None? && |c'.nodes| == |c.nodes|
    ensures c'.overrides == DropOverridesUnder(c.overrides, parent) && c'.queued == c.queued - {parent}
    ensures c'.migrations.Keys == c.migrations.Keys && c'.migrations[parent].confirmed
    ensures forall p :: p in c.migrations && p != parent ==> c'.migrations[p] == c.migrations[p]
  {
    var started := StartOne(c, ops, parent);
    var confirmed := RunToConfirmed(started, ops);
    c' := FinishOne(confirmed, ops);
  }

  // ----- an add that splits

  /** The ring after a leaf has counted and split. */
  ghost predicate CountedAndSplit(ring: RingState, leaf: nat, ring': RingState, before: RingState) {
    ring.SameShape(before) && before.Forest() && before.CanSplit(leaf) && ring' == before.SplitAt(leaf)
  }

  lemma InsertSplits(ring: RingState, leaf: nat, prefix: string)
    requires ring.Forest() && ring.CanSplit(leaf) && ring.splitThreshold == 0 && prefix == ring.entries[leaf].prefix
    ensures ring.Apply(Insert(prefix, [])).2.Some?
  {
    assert ring.EntryOk(leaf);
    CanonicalOfLowerHex(prefix);
    assert Capped(prefix) == prefix;
    ring.FindInvertsPrefix(prefix, leaf);
    ring.CountKeepsShape(prefix, 1);
    var counted := ring.Count(prefix, 1);
    assert counted.entries[leaf].counter > 0;
    counted.UpdateSummaryKeepsShape(prefix, []);
    var updated := counted.UpdateSummary(prefix, []).0;
    assert updated.entries[leaf].counter > 0 && updated.CanSplit(leaf) && updated.Find(prefix) == Some(leaf);
  }

  /** What such an add makes of the cluster. */
  ghost predicate SplitByAdd(c: Cluster, k: Keyword, c': Cluster, before: RingState)
    requires c.ring.Forest() && c.ring.CanSplit(c.ring.LeafOf(k.Key()))
  {
    var leaf := c.ring.LeafOf(k.Key());
    var parent := c.ring.entries[leaf].prefix;
    && |c'.nodes| == |c.nodes| && c'.run == c.run
    && CountedAndSplit(c.ring, leaf, c'.ring, before)
    && parent !in c.migrations
    && c'.migrations == c.migrations[parent := PrefixMigration(PlanFor(before, leaf), false, [], leaf, false)]
    && c'.queued == c.queued + {parent}
    && c'.overrides.Keys == c.overrides.Keys + {k}
  }

  lemma StoreThenSchedule(c: Cluster, k: Keyword, fid: string, route: RouteTarget, before: RingState, event: SplitEvent)
    requires Inv(c) && Idle(c.migrations, k) && RingLookup(c.ring, k) == Some(route) && route.node < |c.nodes|
    requires c.ring.CanSplit(c.ring.LeafOf(k.Key()))
    requires
      var (stored, e) := Store(c, Operation.Add(k, fid), route, []);
      && e == Some(event) && stored == PutRecord(c, Operation.Add(k, fid), route).(ring := stored.ring)
      && IsSplitOf(c.ring, before, c.ring.LeafOf(k.Key()), stored.ring, event)
    ensures
      var stored := Store(c, Operation.Add(k, fid), route, []).0;
      EventOk(stored.ring, event) && SplitByAdd(c, k, ScheduleSplitMigration(stored, event), before)
  {
    var op, leaf := Operation.Add(k, fid), c.ring.LeafOf(k.Key());
    var put := PutRecord(c, op, route);
    PutRecordKeepsInv(c, op, route);
    SameShapeKeepsInv(put, before);
    var counted := put.(ring := before);
    SplitPrefixIsNew(counted, leaf);
    assert Store(c, op, route, []).0 == counted.(ring := before.SplitAt(leaf));
  }

  /** With a threshold of zero every add to an idle leaf splits it and schedules a migration. */
  lemma AddSplits(c: Cluster, ops: seq<Operation>, k: Keyword, fid: string) returns (c': Cluster, before: RingState)
    requires Reachable(c, ops) && c.ring.Forest() && c.ring.splitThreshold == 0 && Idle(c.migrations, k)
    requires c.ring.CanSplit(c.ring.LeafOf(k.Key()))
    ensures Reachable(c', ops + [Operation.Add(k, fid)]) && SplitByAdd(c, k, c', before)
  {
    ReachableIsClean(c, ops, k);
    RouteOfIdle(c, k);
    var op, route, leaf := Operation.Add(k, fid), RingLookup(c.ring, k).value, c.ring.LeafOf(k.Key());
    InsertSplits(c.ring, leaf, route.prefix);
    StoreParts(c, op, route, []);
    var (stored, event) := Store(c, op, route, []);
    before :| IsSplitOf(c.ring, before, leaf, stored.ring, event.value);
    StoreThenSchedule(c, k, fid, route, before, event.value);
    c' := ScheduleSplitMigration(stored, event.value);
    assert Next(c, Client(op, []), c');
    ReachNext(c, ops, Client(op, []), c');
  }

  /** Where a split sends the keys under it, and what the next leaf is like. */
  lemma AfterSplit(ring: RingState, leaf: nat, ring': RingState, before: RingState, k: Keyword)
    requires ring.Forest() && CountedAndSplit(ring, leaf, ring', before) && ring.entries[leaf].prefix <= k.Key()
    requires |ring.entries[leaf].prefix| + 1 < MAX_PREFIX_LEN
    ensures ring'.Forest() && ring'.nodeNames == ring.nodeNames && ring'.splitThreshold == ring.splitThreshold
    ensures
      var p := ring.entries[leaf].prefix;
      var d := DigitAt(k.Key(), |p|);
      var child := ring'.LeafOf(k.Key());
      && ring'.CanSplit(child) && ring'.entries[child].counter == 0
      && ring'.entries[child].prefix == p + [HexDigit(d)]
      && ring'.entries[child].ownerRef == (ring.OwnerOf(k.Key()) + d) % |ring.nodeNames|
  {
    before.SplitKeepsForest(leaf);
    ring.SameShapeKeepsRoutes(before, k.Key());
    before.RouteIsUnique(k.Key(), leaf);
    before.SplitIsLocal(leaf, k.Key());
    var d := DigitAt(k.Key(), |ring.entries[leaf].prefix|);
    assert before.EntryOk(leaf);
    assert ring'.entries[|before.entries| + d] == before.ChildEntry(leaf, d);
  }

  // ----- the runs

  /** The key of both witnesses starts with these digits. */
  const DIGITS := "011"

  ghost function Witness(text: string): Keyword {
    Keyword(text, DigestOf(DIGITS))
  }

  lemma WitnessKey(text: string)
    ensures
      var key := Witness(text).Key();
      && key[..1] == "0" && key[..2] == "01" && "0" <= key && "01" <= key
      && DigitAt(key, 0) == 0 && DigitAt(key, 1) == 1 && DigitAt(key, 2) == 1
  {
    var key := Witness(text).Key();
    KeyOfDigest(text, DIGITS);
    assert key[0] == DIGITS[0] && key[1] == DIGITS[1] && key[2] == DIGITS[2];
  }

  /** A new cluster of two storagers that splits with every insert. */
  function Fresh(): Cluster {
    Cluster(RingState.Initial(["a", "b"], 1, 0), map[], [Storager({}, {}, {}), Storager({}, {}, {})], map[], {}, None)
  }

  lemma FreshRing(k: Keyword)
    requires "0" <= k.Key()
    ensures
      var ring := Fresh().ring;
      && ring.Forest() && Init(Fresh())
      && var leaf := ring.LeafOf(k.Key());
         ring.CanSplit(leaf) && ring.entries[leaf].prefix == "0"
  {
    var ring := Fresh().ring;
    RingState.InitialIsForest(["a", "b"], 1, 0);
    ring.RootMatches(k.Key());
    var root := Value(k.Key()[..1]);
    ring.RouteIsUnique(k.Key(), root);
    assert k.Key()[..1] == "0";
  }

  /** After one add and its whole migration, the keyword lies on its new storager, its leaf has counted no
      operation, and no override names it. */
  lemma MovedOnce(fid: string) returns (c: Cluster)
    ensures Reachable(c, [Operation.Add(Witness("k"), fid)]) && c.ring.Forest() && |c.nodes| == 2 && c.ring.splitThreshold == 0
    ensures c.run.None? && c.migrations.Keys == {"0"} && c.migrations["0"].confirmed && Witness("k") !in c.overrides
    ensures
      var leaf := c.ring.LeafOf(Witness("k").Key());
      c.ring.CanSplit(leaf) && c.ring.entries[leaf].prefix == "01" && c.ring.entries[leaf].counter == 0
  {
    var k, start := Witness("k"), Fresh();
    WitnessKey("k");
    FreshRing(k);
    ReachInit(start);
    var split, before := AddSplits(start, [], k, fid);
    AfterSplit(start.ring, start.ring.LeafOf(k.Key()), split.ring, before, k);
    assert [] + [Operation.Add(k, fid)] == [Operation.Add(k, fid)];
    c := MigrationCanComplete(split, [Operation.Add(k, fid)], "0");
    assert "0" + [HexDigit(1)] == "01";
    MatchIsStringPrefix(k, "0");
  }

  lemma OneAdd(k: Keyword, fid: string)
    ensures ApplyAll(OpsFor([Operation.Add(k, fid)], k), {}) == {fid}
  {
    assert OpsFor([Operation.Add(k, fid)], k) == [Operation.Add(k, fid)];
  }

  /** A run without aborts that has stored one identifier of the keyword, after which an eligible presplit hides
      it from reads. */
  ghost predicate Strands(trace: seq<Cluster>, steps: seq<Step>, prefix: string, k: Keyword, fid: string) {
    && IsRun(trace, steps) && (forall i :: 0 <= i < |steps| ==> !steps[i].AbortMigration?)
    && ApplyAll(OpsFor(Accepted(steps), k), {}) == {fid}
    && trace[|steps|].ring.Forest() && Eligible(trace[|steps|].ring, prefix, 1)
    && AfterPresplit(trace[|steps|], prefix, 1).ring.Valid()
    && !ReadFinds(AfterPresplit(trace[|steps|], prefix, 1), k, {fid})
  }

  lemma UncountedLeafIsEligible(ring: RingState, leaf: nat)
    requires ring.Forest() && ring.splitThreshold == 0 && ring.CanSplit(leaf) && ring.entries[leaf].counter == 0
    ensures Eligible(ring, ring.entries[leaf].prefix, 1)
    ensures Canonical(Capped(ring.entries[leaf].prefix)) == ring.entries[leaf].prefix
  {
    assert ring.EntryOk(leaf);
    CanonicalOfLowerHex(ring.entries[leaf].prefix);
    assert Capped(ring.entries[leaf].prefix) == ring.entries[leaf].prefix;
  }

  lemma PresplitCanStrand(fid: string)
    ensures exists trace, steps, k :: Strands(trace, steps, "01", k, fid)
  {
    var c := MovedOnce(fid);
    var k := Witness("k");
    WitnessKey("k");
    UncountedLeafIsEligible(c.ring, c.ring.LeafOf(k.Key()));
    var trace, steps :| EndsIn(c, [Operation.Add(k, fid)], trace, steps);
    StrandedBy(c, trace, steps, k, fid);
  }

  lemma StrandedBy(c: Cluster, trace: seq<Cluster>, steps: seq<Step>, k: Keyword, fid: string)
    requires EndsIn(c, [Operation.Add(k, fid)], trace, steps) && k == Witness("k")
    requires c.ring.Forest() && |c.nodes| == 2 && c.migrations.Keys == {"0"} && c.migrations["0"].confirmed && k !in c.overrides
    requires Eligible(c.ring, "01", 1) && Canonical(Capped("01")) == "01"
    ensures Strands(trace, steps, "01", k, fid)
  {
    WitnessKey("k");
    OneAdd(k, fid);
    assert steps[..|steps|] == steps;
    PresplitStrandsIff(trace, steps, |steps|, "01", 1, k);
  }

  /** A run without aborts that has stored one identifier of the keyword, which a boolean query misses. */
  ghost predicate Misses(trace: seq<Cluster>, steps: seq<Step>, k: Keyword, fid: string) {
    && IsRun(trace, steps) && (forall i :: 0 <= i < |steps| ==> !steps[i].AbortMigration?)
    && ApplyAll(OpsFor(Accepted(steps), k), {}) == {fid}
    && MigrationsOk(trace[|steps|].ring, |trace[|steps|].nodes|, trace[|steps|].migrations)
    && Stored(trace[|steps|], k) == {fid} && !BooleanReadFinds(trace[|steps|], k)
  }

  /** The second split of a keyword's leaf covers it by a migration that has imported nothing yet. */
  lemma BooleanReadCanMiss(fid: string)
    ensures exists trace, steps, k :: Misses(trace, steps, k, fid)
  {
    var c := MovedOnce(fid);
    var k, other := Witness("k"), Witness("other");
    WitnessKey("k");
    assert k.Key() == other.Key();
    var split, before := AddSplits(c, [Operation.Add(k, fid)], other, fid);
    var ops := [Operation.Add(k, fid)] + [Operation.Add(other, fid)];
    var trace, steps :| EndsIn(split, ops, trace, steps);
    assert steps[..|steps|] == steps;
    MissedUnder(split, ops, before, c.ring.LeafOf(k.Key()), k, fid);
    BooleanReadFindsIff(trace, steps, |steps|, k);
    assert Misses(trace, steps, k, fid);
  }

  /** A keyword that a migration of its leaf covers and that moves. */
  lemma MissedUnder(c: Cluster, ops: seq<Operation>, before: RingState, leaf: nat, k: Keyword, fid: string)
    requires k == Witness("k") && Reachable(c, ops) && ops == [Operation.Add(k, fid), Operation.Add(Witness("other"), fid)]
    requires |c.nodes| == 2 && c.run.None? && k !in c.overrides && before.Forest() && before.CanSplit(leaf)
    requires "01" in c.migrations && c.migrations["01"] == PrefixMigration(PlanFor(before, leaf), false, [], leaf, false)
    ensures Inv(c) && ActiveParent(c.migrations, k) == Some("01") && |c.migrations["01"].plan.children| == 16
    ensures ApplyAll(OpsFor(ops, k), {}) == {fid} == Stored(c, k) && !FindsUnder(c, "01", k)
  {
    WitnessKey("k");
    ReachableIsClean(c, ops, k);
    CoveredBy(c, "01", k);
    TwoAdds(k, Witness("other"), fid);
    ForeignOfTwo(c, "01", 1);
  }

  lemma CoveredBy(c: Cluster, p: string, k: Keyword)
    requires Inv(c) && p in c.migrations && !c.migrations[p].confirmed && !c.migrations[p].moved && c.migrations[p].pending == [] && p <= k.Key()
    ensures ActiveParent(c.migrations, k) == Some(p) && Stored(c, k) == Contents(c, k)
  {
    assert MigrationOk(c.ring, |c.nodes|, c.migrations[p], p);
    CoversIsUnder(c.migrations[p], p, |c.nodes|, k);
    ActiveParentIs(c.ring, |c.nodes|, c.migrations, p, k);
  }

  lemma ForeignOfTwo(c: Cluster, p: string, d: Nibble)
    requires Inv(c) && p in c.migrations && |c.nodes| == 2 && d % 2 == 1
    ensures |c.migrations[p].plan.children| == 16 && c.migrations[p].plan.IsForeign(d)
  {
    assert MigrationOk(c.ring, |c.nodes|, c.migrations[p], p);
    var plan := c.migrations[p].plan;
    assert plan.children[d] == RouteTarget(p + [HexDigit(d)], (plan.source.node + d) % 2);
  }

  lemma TwoAdds(k: Keyword, other: Keyword, fid: string)
    requires k != other
    ensures ApplyAll(OpsFor([Operation.Add(k, fid), Operation.Add(other, fid)], k), {}) == {fid}
  {
    var ops := [Operation.Add(k, fid), Operation.Add(other, fid)];
    OneAdd(k, fid);
    assert ops[..1] == [Operation.Add(k, fid)];
    assert OpsFor(ops, k) == OpsFor(ops[..1], k) + [];
  }
}
