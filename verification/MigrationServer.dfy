/** The steps of a background migration keep the invariant and change no keyword's contents. */
module MigrationServer {
  import opened Wrappers
  import opened Hex
  import opened Ring
  import opened Routing
  import opened AccTree
  import opened Migration
  import opened MigrationInvariant
  import opened MigrationClient

  // ----- facts about a plan's children

  lemma ChildPrefixes(plan: PrefixSplitPlan, parent: string, nodeCount: nat, i: Nibble, j: Nibble)
    requires PlanOk(plan, parent, nodeCount)
    ensures plan.children[i].prefix == parent + [HexDigit(i)] && parent <= plan.children[i].prefix
    ensures NormalizePrefixHex(plan.children[i].prefix) == Ok(plan.children[i].prefix)
    ensures |plan.children[i].prefix| == |plan.children[j].prefix| == |parent| + 1
    ensures plan.children[i].prefix == plan.children[j].prefix <==> i == j
    ensures plan.children[i].node < nodeCount
  {
    RingPrefixIsNormal(parent + [HexDigit(i)]);
    if plan.children[i].prefix == plan.children[j].prefix {
      assert (parent + [HexDigit(i)])[|parent|] == HexDigit(i);
    }
  }

  /** A change of one node that touches no record under `prefix`. */
  ghost predicate OnlyNodeChanges(nodes: seq<Storager>, nodes': seq<Storager>, n: nat) {
    |nodes'| == |nodes| && n < |nodes| && forall k :: 0 <= k < |nodes| && k != n ==> nodes'[k] == nodes[k]
  }

  lemma SameFidsSameContents(c: Cluster, nodes: seq<Storager>, run: Option<Run>, keyword: Keyword)
    requires Inv(c) && Inv(c.(nodes := nodes, run := run)) && |nodes| == |c.nodes|
    requires Home(c.ring, c.migrations, keyword) < |nodes|
    requires Fids(nodes[Home(c.ring, c.migrations, keyword)], keyword)
      == Fids(c.nodes[Home(c.ring, c.migrations, keyword)], keyword)
    ensures Contents(c.(nodes := nodes, run := run), keyword) == Contents(c, keyword)
  {}

  // ----- start, abort, summaries

  lemma StartKeeps(c: Cluster, parent: string, c': Cluster, keyword: Keyword)
    requires Inv(c) && StartStep(c, parent, c')
    ensures Inv(c') && Contents(c', keyword) == Contents(c, keyword)
  {
    assert MigrationOk(c.ring, |c.nodes|, c.migrations[parent], parent);
  }

  lemma AbortKeeps(c: Cluster, c': Cluster, keyword: Keyword)
    requires Inv(c) && c' == c.(run := None)
    ensures Inv(c') && Contents(c', keyword) == Contents(c, keyword)
  {}

  lemma SummaryKeeps(c: Cluster, prefix: string, summary: seq<Byte>, c': Cluster, keyword: Keyword)
    requires Inv(c) && c' == c.(ring := c.ring.Apply(SetRootSummary(prefix, summary)).0)
    ensures Inv(c') && Contents(c', keyword) == Contents(c, keyword)
  {
    c.ring.UpdateSummaryKeepsShape(prefix, summary);
    SameShapeKeepsInv(c, c'.ring);
    SameShapeKeepsContents(c, c'.ring, keyword);
  }

  // ----- prepare

  lemma PrepareKeepsRun(nodes: seq<Storager>, plan: PrefixSplitPlan, moved: bool, run: Run)
    requires RunOk(nodes, plan, moved, run) && run.prepared < 16 && plan.IsForeign(run.prepared)
    ensures
      var i := run.prepared;
      var prepared := nodes[plan.source.node].Prepare(plan.children[i].prefix);
      && prepared.Ok?
      && prepared.value.0.records == nodes[plan.source.node].records
      && RunOk(nodes[plan.source.node := prepared.value.0], plan, moved,
               run.(prepared := i + 1, segments := run.segments[i := prepared.value.1]))
  {
    var i := run.prepared;
    ChildPrefixes(plan, run.parent, |nodes|, i, i);
    var (source', segment) := nodes[plan.source.node].Prepare(plan.children[i].prefix).value;
    var nodes' := nodes[plan.source.node := source'];
    var run' := run.(prepared := i + 1, segments := run.segments[i := segment]);
    forall j: nat ensures j in run'.segments <==> j < run'.prepared && plan.IsForeign(j) {}
    assert ConfirmedPrefixes(plan, moved, run') == {};
    forall j | j in run'.segments
      ensures SegmentOk(nodes', plan, moved, run'.segments[j], j, j in run'.imported)
    {
      if j != i {
        assert SegmentOk(nodes, plan, moved, run.segments[j], j, j in run.imported);
      }
    }
  }

  lemma PrepareKeeps(c: Cluster, c': Cluster, keyword: Keyword)
    requires Inv(c) && PrepareStep(c, c')
    ensures Inv(c') && Contents(c', keyword) == Contents(c, keyword)
  {
    var run, m := c.run.value, c.migrations[c.run.value.parent];
    if m.plan.IsForeign(run.prepared) {
      PrepareKeepsRun(c.nodes, m.plan, m.moved, run);
      HomeInRange(c.ring, |c.nodes|, c.migrations, keyword);
      SameFidsSameContents(c, c'.nodes, c'.run, keyword);
    } else {
      StayingChildKeepsRun(c.nodes, m.plan, m.moved, run);
    }
  }

  lemma StayingChildKeepsRun(nodes: seq<Storager>, plan: PrefixSplitPlan, moved: bool, run: Run)
    requires RunOk(nodes, plan, moved, run) && run.prepared < 16 && !plan.IsForeign(run.prepared)
    ensures RunOk(nodes, plan, moved, run.(prepared := run.prepared + 1))
  {
    var run' := run.(prepared := run.prepared + 1);
    assert ProgressOk(plan, moved, run') by {
      forall j: nat ensures j in run'.segments <==> j < run'.prepared && plan.IsForeign(j) {}
    }
    assert ConfirmedPrefixes(plan, moved, run') == ConfirmedPrefixes(plan, moved, run);
  }

  // ----- import

  /** An import replaces exactly the target's records under the segment's prefix. */
  lemma ImportReplaces(target: Storager, segment: Segment, prefix: string, other: string)
    requires segment.version == MIGRATION_FORMAT_VERSION && segment.prefixHex == prefix
    requires NormalizePrefixHex(prefix) == Ok(prefix)
    requires forall r :: r in segment.records ==> Under(r, prefix)
    ensures target.Import(segment).Ok?
    ensures RecordsUnder(target.Import(segment).value.records, prefix) == segment.records
    ensures |other| == |prefix| && other != prefix ==>
      RecordsUnder(target.Import(segment).value.records, other) == RecordsUnder(target.records, other)
    ensures target.Import(segment).value.retained == target.retained
    ensures target.Import(segment).value.confirmed == target.confirmed
  {
    var imported := target.Import(segment).value;
    forall r ensures r in RecordsUnder(imported.records, prefix) <==> r in segment.records {}
    if |other| == |prefix| && other != prefix {
      forall r ensures r in RecordsUnder(imported.records, other) <==> r in RecordsUnder(target.records, other) {
        assert Under(r, other) ==> !Under(r, prefix);
      }
    }
  }

  lemma ImportKeepsRun(nodes: seq<Storager>, plan: PrefixSplitPlan, moved: bool, run: Run, i: nat)
    requires RunOk(nodes, plan, moved, run) && run.prepared == 16 && i in run.segments && i !in run.imported
    ensures
      var target := plan.children[i].node;
      var imported := nodes[target].Import(run.segments[i]);
      && imported.Ok?
      && RunOk(nodes[target := imported.value], plan, moved, run.(imported := run.imported + {i}))
  {
    var target := plan.children[i].node;
    assert SegmentOk(nodes, plan, moved, run.segments[i], i, false);
    ChildPrefixes(plan, run.parent, |nodes|, i, i);
    ImportReplaces(nodes[target], run.segments[i], plan.children[i].prefix, "");
    var nodes' := nodes[target := nodes[target].Import(run.segments[i]).value];
    var run' := run.(imported := run.imported + {i});
    assert ConfirmedPrefixes(plan, moved, run') == ConfirmedPrefixes(plan, moved, run);
    forall j | j in run'.segments
      ensures SegmentOk(nodes', plan, moved, run'.segments[j], j, j in run'.imported)
    {
      assert SegmentOk(nodes, plan, moved, run.segments[j], j, j in run.imported);
      if j != i {
        ChildPrefixes(plan, run.parent, |nodes|, i, j);
        ImportReplaces(nodes[target], run.segments[i], plan.children[i].prefix, plan.children[j].prefix);
      }
    }
  }

  lemma ImportKeeps(c: Cluster, i: nat, c': Cluster, keyword: Keyword)
    requires Inv(c) && ImportStep(c, i, c')
    ensures Inv(c') && Contents(c', keyword) == Contents(c, keyword)
  {
    ImportKeepsRun(c.nodes, c.migrations[c.run.value.parent].plan, c.migrations[c.run.value.parent].moved, c.run.value, i);
    HomeInRange(c.ring, |c.nodes|, c.migrations, keyword);
    ImportKeepsHome(c, i, c', keyword);
    SameFidsSameContents(c, c'.nodes, c'.run, keyword);
  }

  lemma ImportKeepsHome(c: Cluster, i: nat, c': Cluster, keyword: Keyword)
    requires Inv(c) && ImportStep(c, i, c') && Home(c.ring, c.migrations, keyword) < |c.nodes|
    ensures
      var home := Home(c.ring, c.migrations, keyword);
      home < |c'.nodes| && Fids(c'.nodes[home], keyword) == Fids(c.nodes[home], keyword)
  {
    var run, m := c.run.value, c.migrations[c.run.value.parent];
    var prefix, target := m.plan.children[i].prefix, m.plan.children[i].node;
    ChildPrefixes(m.plan, run.parent, |c.nodes|, i, i);
    assert SegmentOk(c.nodes, m.plan, m.moved, run.segments[i], i, false);
    if prefix <= keyword.Key() {
      // the keyword is under the running migration, whose reads stay on the source
      CoversIsUnder(m, run.parent, |c.nodes|, keyword);
      ActiveParentIs(c.ring, |c.nodes|, c.migrations, run.parent, keyword);
      assert !m.moved;
    } else {
      ImportLeavesOthers(c.nodes[target], run.segments[i], prefix, keyword);
    }
  }

  lemma ImportLeavesOthers(target: Storager, segment: Segment, prefix: string, keyword: Keyword)
    requires segment.version == MIGRATION_FORMAT_VERSION && segment.prefixHex == prefix
    requires NormalizePrefixHex(prefix) == Ok(prefix) && !(prefix <= keyword.Key())
    ensures target.Import(segment).Ok? && Fids(target.Import(segment).value, keyword) == Fids(target, keyword)
  {
    forall fid ensures Record(keyword, fid) in target.Import(segment).value.records <==> Record(keyword, fid) in target.records {}
  }

  // ----- confirm

  lemma SkipKeepsRun(nodes: seq<Storager>, plan: PrefixSplitPlan, moved: bool, run: Run)
    requires RunOk(nodes, plan, moved, run) && run.prepared == 16 && run.imported == run.segments.Keys
    requires run.confirmedUpTo < 16 && run.confirmedUpTo !in run.segments
    ensures RunOk(nodes, plan, moved, run.(confirmedUpTo := run.confirmedUpTo + 1))
  {
    var run' := run.(confirmedUpTo := run.confirmedUpTo + 1);
    assert ConfirmedPrefixes(plan, moved, run') == ConfirmedPrefixes(plan, moved, run);
    forall j | j in run'.segments
      ensures SegmentOk(nodes, plan, moved, run'.segments[j], j, j in run'.imported)
    {
      assert SegmentOk(nodes, plan, moved, run.segments[j], j, j in run.imported);
    }
  }

  /** A confirm that does not delete moves one prefix from retained to confirmed. */
  lemma KeepingConfirmKeepsRun(nodes: seq<Storager>, plan: PrefixSplitPlan, moved: bool, run: Run)
    requires RunOk(nodes, plan, moved, run) && run.prepared == 16 && run.imported == run.segments.Keys
    requires run.confirmedUpTo < 16 && run.confirmedUpTo in run.segments
    requires !Deletes(nodes[plan.source.node], plan.children[run.confirmedUpTo].prefix)
    ensures !moved
    ensures
      var i := run.confirmedUpTo;
      var confirmed := nodes[plan.source.node].Confirm(plan.children[i].prefix);
      && confirmed.Ok? && confirmed.value.records == nodes[plan.source.node].records
      && RunOk(nodes[plan.source.node := confirmed.value], plan, moved, run.(confirmedUpTo := i + 1))
  {
    var i := run.confirmedUpTo;
    ChildPrefixes(plan, run.parent, |nodes|, i, i);
    var source := nodes[plan.source.node];
    var source' := source.Confirm(plan.children[i].prefix).value;
    KeepingConfirmKeepsSource(source, source', plan, |nodes|, moved, run);
    SameRecordsKeepSegments(nodes, source', plan, moved, run);
  }

  lemma KeepingConfirmKeepsSource(
      source: Storager, source': Storager, plan: PrefixSplitPlan, nodeCount: nat, moved: bool, run: Run)
    requires PlanOk(plan, run.parent, nodeCount) && ProgressOk(plan, moved, run) && SourceOk(source, plan, moved, run)
    requires run.confirmedUpTo in run.segments && run.imported == run.segments.Keys
    requires
      var prefix := plan.children[run.confirmedUpTo].prefix;
      source' == source.(retained := source.retained - {prefix}, confirmed := source.confirmed + {prefix})
    requires source'.retained != {} && !moved
    ensures ProgressOk(plan, moved, run.(confirmedUpTo := run.confirmedUpTo + 1))
    ensures SourceOk(source', plan, moved, run.(confirmedUpTo := run.confirmedUpTo + 1))
  {
    var i, run' := run.confirmedUpTo, run.(confirmedUpTo := run.confirmedUpTo + 1);
    assert ConfirmedPrefixes(plan, moved, run') == ConfirmedPrefixes(plan, moved, run) + {plan.children[i].prefix};
    forall j | j in run'.segments && j >= run'.confirmedUpTo ensures plan.children[j].prefix in source'.retained {
      ChildPrefixes(plan, run.parent, nodeCount, i, j);
    }
  }

  lemma SameRecordsKeepSegments(
      nodes: seq<Storager>, source': Storager, plan: PrefixSplitPlan, moved: bool, run: Run)
    requires PlanOk(plan, run.parent, |nodes|) && ProgressOk(plan, moved, run) && SegmentsOk(nodes, plan, moved, run)
    requires source'.records == nodes[plan.source.node].records
    ensures SegmentsOk(nodes[plan.source.node := source'], plan, moved, run)
  {
    var nodes' := nodes[plan.source.node := source'];
    forall j | j in run.segments ensures SegmentOk(nodes', plan, moved, run.segments[j], j, j in run.imported) {
      assert SegmentOk(nodes, plan, moved, run.segments[j], j, j in run.imported);
    }
  }

  lemma OnlyElement(s: set<string>, x: string)
    requires s - {x} == {}
    ensures forall z :: z in s ==> z == x
  {
    assert forall z :: z in s ==> z == x || z in s - {x};
  }

  /** The storager deletes only when no prepared child is left to confirm. */
  lemma DeletingConfirmIsLast(source: Storager, plan: PrefixSplitPlan, nodeCount: nat, moved: bool, run: Run)
    requires PlanOk(plan, run.parent, nodeCount) && ProgressOk(plan, moved, run) && SourceOk(source, plan, moved, run)
    requires run.confirmedUpTo < 16 && Deletes(source, plan.children[run.confirmedUpTo].prefix)
    ensures forall j :: j in run.segments ==> j <= run.confirmedUpTo
  {
    OnlyElement(source.retained, plan.children[run.confirmedUpTo].prefix);
    forall j | j in run.segments ensures j <= run.confirmedUpTo {
      ChildPrefixes(plan, run.parent, nodeCount, run.confirmedUpTo, j);
    }
  }

  /** The deleting confirm is the last one: it removes exactly the records of the children that left. */
  lemma DeletingConfirmKeepsRun(nodes: seq<Storager>, plan: PrefixSplitPlan, moved: bool, run: Run)
    requires RunOk(nodes, plan, moved, run) && run.prepared == 16 && run.imported == run.segments.Keys
    requires run.confirmedUpTo < 16 && run.confirmedUpTo in run.segments
    requires Deletes(nodes[plan.source.node], plan.children[run.confirmedUpTo].prefix)
    ensures !moved
    ensures
      var i := run.confirmedUpTo;
      var confirmed := nodes[plan.source.node].Confirm(plan.children[i].prefix);
      && confirmed.Ok?
      && (forall r :: r in confirmed.value.records <==>
            r in nodes[plan.source.node].records && forall j :: j in run.segments ==> !Under(r, plan.children[j].prefix))
      && confirmed.value.retained == {} && confirmed.value.confirmed == {}
      && RunOk(nodes[plan.source.node := confirmed.value], plan, true, run.(confirmedUpTo := i + 1))
  {
    var i := run.confirmedUpTo;
    ChildPrefixes(plan, run.parent, |nodes|, i, i);
    var source := nodes[plan.source.node];
    DeletingConfirmIsLast(source, plan, |nodes|, moved, run);
    LastConfirmDeletes(source, plan, moved, run);
    AllConfirmedIsOk(nodes, source.Confirm(plan.children[i].prefix).value, plan, moved, run);
  }

  /** After the last confirm only the targets' copies matter. */
  lemma AllConfirmedIsOk(nodes: seq<Storager>, source': Storager, plan: PrefixSplitPlan, moved: bool, run: Run)
    requires RunOk(nodes, plan, moved, run) && run.prepared == 16 && run.imported == run.segments.Keys
    requires run.confirmedUpTo < 16 && forall j :: j in run.segments ==> j <= run.confirmedUpTo
    ensures RunOk(nodes[plan.source.node := source'], plan, true, run.(confirmedUpTo := run.confirmedUpTo + 1))
  {
    var nodes' := nodes[plan.source.node := source'];
    var run' := run.(confirmedUpTo := run.confirmedUpTo + 1);
    assert ProgressOk(plan, true, run');
    forall j | j in run'.segments
      ensures SegmentOk(nodes', plan, true, run'.segments[j], j, j in run'.imported)
    {
      assert SegmentOk(nodes, plan, moved, run.segments[j], j, j in run.imported);
      assert plan.IsForeign(j);
    }
  }

  lemma LastConfirmDeletes(source: Storager, plan: PrefixSplitPlan, moved: bool, run: Run)
    requires ProgressOk(plan, moved, run) && SourceOk(source, plan, moved, run) && !moved
    requires run.confirmedUpTo in run.segments && forall j :: j in run.segments ==> j <= run.confirmedUpTo
    requires NormalizePrefixHex(plan.children[run.confirmedUpTo].prefix) == Ok(plan.children[run.confirmedUpTo].prefix)
    requires Deletes(source, plan.children[run.confirmedUpTo].prefix)
    ensures
      var confirmed := source.Confirm(plan.children[run.confirmedUpTo].prefix);
      && confirmed.Ok?
      && forall r :: r in confirmed.value.records <==>
           r in source.records && forall j :: j in run.segments ==> !Under(r, plan.children[j].prefix)
  {
    var i := run.confirmedUpTo;
    var doomed := source.confirmed + {plan.children[i].prefix};
    forall r | r in source.records
      ensures r in RecordsUnderAny(source.records, doomed)
        <==> exists j :: j in run.segments && Under(r, plan.children[j].prefix)
    {
      if p :| p in doomed && Under(r, p) {
        if p != plan.children[i].prefix {
          assert p in ConfirmedPrefixes(plan, moved, run);
        }
      }
      if j :| j in run.segments && Under(r, plan.children[j].prefix) {
        assert j < i ==> plan.children[j].prefix in ConfirmedPrefixes(plan, moved, run);
        assert plan.children[j].prefix in doomed;
      }
    }
  }

  /** Marking a migration as moved changes no plan. */
  lemma MovedKeepsMigrations(c: Cluster, parent: string, moved: bool)
    requires MigrationsOk(c.ring, |c.nodes|, c.migrations) && parent in c.migrations
    ensures
      var ms' := c.migrations[parent := c.migrations[parent].(moved := moved)];
      MigrationsOk(c.ring, |c.nodes|, ms') && SamePlans(c.migrations, ms')
  {
    var ms' := c.migrations[parent := c.migrations[parent].(moved := moved)];
    forall p | p in ms' ensures MigrationOk(c.ring, |c.nodes|, ms'[p], p) {
      assert MigrationOk(c.ring, |c.nodes|, c.migrations[p], p);
    }
  }

  /** Everything but the source, its migration's flag and the progress stays. */
  ghost predicate OnlyRunChanges(c: Cluster, c': Cluster) {
    && c.run.Some? && c'.run.Some? && c.run.value.parent in c.migrations
    && c'.run.value.parent == c.run.value.parent && c.run.value.parent in c'.migrations
    && c'.ring == c.ring && c'.overrides == c.overrides && c'.queued == c.queued && |c'.nodes| == |c.nodes|
    && c'.migrations == c.migrations[c.run.value.parent :=
         c.migrations[c.run.value.parent].(moved := c'.migrations[c.run.value.parent].moved)]
  }

  lemma ConfirmKeepsRun(c: Cluster, c': Cluster)
    requires RunInv(c) && ConfirmStep(c, c')
    ensures OnlyRunChanges(c, c')
    ensures
      var m' := c'.migrations[c'.run.value.parent];
      RunOk(c'.nodes, m'.plan, m'.moved, c'.run.value)
  {
    var run, m := c.run.value, c.migrations[c.run.value.parent];
    if run.confirmedUpTo !in run.segments {
      SkipKeepsRun(c.nodes, m.plan, m.moved, run);
    } else if Deletes(c.nodes[m.plan.source.node], m.plan.children[run.confirmedUpTo].prefix) {
      DeletingConfirmKeepsRun(c.nodes, m.plan, m.moved, run);
    } else {
      KeepingConfirmKeepsRun(c.nodes, m.plan, m.moved, run);
    }
  }

  lemma RunChangeKeepsInv(c: Cluster, c': Cluster)
    requires Inv(c) && OnlyRunChanges(c, c')
    requires
      var m' := c'.migrations[c'.run.value.parent];
      RunOk(c'.nodes, m'.plan, m'.moved, c'.run.value)
    ensures Inv(c') && SamePlans(c.migrations, c'.migrations)
  {
    MovedKeepsMigrations(c, c.run.value.parent, c'.migrations[c.run.value.parent].moved);
    SamePlansKeepOverrides(c.ring, c.migrations, c'.migrations, c.overrides);
  }

  // ----- what a confirm does to contents

  /** A confirm changes the records of no keyword that is not under a confirmed child. */
  lemma ConfirmLeavesOthers(source: Storager, prefix: string, keyword: Keyword)
    requires NormalizePrefixHex(prefix) == Ok(prefix) && prefix in source.retained
    requires Deletes(source, prefix) ==> forall p :: p in source.confirmed + {prefix} ==> !(p <= keyword.Key())
    ensures source.Confirm(prefix).Ok? && Fids(source.Confirm(prefix).value, keyword) == Fids(source, keyword)
  {
    forall fid ensures Record(keyword, fid) in source.Confirm(prefix).value.records <==> Record(keyword, fid) in source.records {}
  }

  /** What every keyword under the parent finds at the ring's owner once its child has been imported. */
  lemma TargetHoldsCopy(c: Cluster, keyword: Keyword)
    requires Inv(c) && c.run.Some?
    requires c.run.value.parent <= keyword.Key()
    requires !c.migrations[c.run.value.parent].moved && c.run.value.prepared == 16
    requires c.run.value.imported == c.run.value.segments.Keys
    ensures
      var source, owner := c.migrations[c.run.value.parent].plan.source.node, c.ring.OwnerOf(keyword.Key());
      && source < |c.nodes| && owner < |c.nodes|
      && Fids(c.nodes[owner], keyword) == Fids(c.nodes[source], keyword)
  {
    var run, m := c.run.value, c.migrations[c.run.value.parent];
    CoversIsUnder(m, run.parent, |c.nodes|, keyword);
    ActiveRoute(c.ring, |c.nodes|, c.migrations, run.parent, keyword);
    var d := DigitAt(keyword.Key(), |run.parent|);
    ChildPrefixes(m.plan, run.parent, |c.nodes|, d, d);
    if m.plan.IsForeign(d) {
      assert SegmentOk(c.nodes, m.plan, m.moved, run.segments[d], d, true);
      FidsFromPrefix(c.nodes[m.plan.source.node], c.nodes[m.plan.children[d].node], m.plan.children[d].prefix, keyword);
    }
  }

  /** If a keyword's records stay where they are and its migration has not just moved, so do its contents. */
  lemma SameFidsKeepContents(c: Cluster, c': Cluster, keyword: Keyword)
    requires Inv(c) && Inv(c') && OnlyRunChanges(c, c') && SamePlans(c.migrations, c'.migrations)
    requires forall n :: 0 <= n < |c.nodes| ==> Fids(c'.nodes[n], keyword) == Fids(c.nodes[n], keyword)
    requires ActiveIn(c.migrations, c.run.value.parent, keyword) ==>
      c'.migrations[c.run.value.parent].moved == c.migrations[c.run.value.parent].moved
    ensures Contents(c', keyword) == Contents(c, keyword)
  {
    SamePlansSameActiveParent(c, c'.migrations, keyword);
    HomeInRange(c.ring, |c.nodes|, c.migrations, keyword);
    var active := ActiveParent(c.migrations, keyword);
    if active.Some? {
      assert c'.migrations[active.value].pending == c.migrations[active.value].pending;
    }
    ContentsByParts(c, c', keyword);
  }

  /** Keywords outside the running migration do not notice a confirm. */
  lemma ConfirmOutside(c: Cluster, c': Cluster, keyword: Keyword, n: nat)
    requires ConfirmStep(c, c') && OnlyRunChanges(c, c') && n < |c.nodes|
    requires RunOk(c.nodes, c.migrations[c.run.value.parent].plan, c.migrations[c.run.value.parent].moved, c.run.value)
    requires !(c.run.value.parent <= keyword.Key())
    ensures Fids(c'.nodes[n], keyword) == Fids(c.nodes[n], keyword)
  {
    var run, m := c.run.value, c.migrations[c.run.value.parent];
    if run.confirmedUpTo in run.segments {
      SourceKeepsOutside(c.nodes[m.plan.source.node], m.plan, |c.nodes|, m.moved, run, keyword);
    }
  }

  lemma SourceKeepsOutside(source: Storager, plan: PrefixSplitPlan, nodeCount: nat, moved: bool, run: Run, keyword: Keyword)
    requires PlanOk(plan, run.parent, nodeCount) && ProgressOk(plan, moved, run) && SourceOk(source, plan, moved, run)
    requires run.confirmedUpTo in run.segments && !(run.parent <= keyword.Key())
    ensures
      var confirmed := source.Confirm(plan.children[run.confirmedUpTo].prefix);
      confirmed.Ok? && Fids(confirmed.value, keyword) == Fids(source, keyword)
  {
    ChildPrefixes(plan, run.parent, nodeCount, run.confirmedUpTo, run.confirmedUpTo);
    ConfirmedAreUnder(source, plan, nodeCount, moved, run, keyword);
    ConfirmLeavesOthers(source, plan.children[run.confirmedUpTo].prefix, keyword);
  }

  lemma ConfirmedAreUnder(source: Storager, plan: PrefixSplitPlan, nodeCount: nat, moved: bool, run: Run, keyword: Keyword)
    requires PlanOk(plan, run.parent, nodeCount) && ProgressOk(plan, moved, run) && SourceOk(source, plan, moved, run)
    requires run.confirmedUpTo in run.segments && !(run.parent <= keyword.Key())
    ensures forall p :: p in source.confirmed + {plan.children[run.confirmedUpTo].prefix} ==> !(p <= keyword.Key())
  {
    forall p | p in source.confirmed + {plan.children[run.confirmedUpTo].prefix} ensures !(p <= keyword.Key()) {
      if p != plan.children[run.confirmedUpTo].prefix {
        assert p in ConfirmedPrefixes(plan, moved, run);
      }
      assert run.parent <= p;
    }
  }

  lemma SamePlansSameActiveParent(c: Cluster, ms': Migrations, keyword: Keyword)
    requires Inv(c) && SamePlans(c.migrations, ms')
    ensures ActiveParent(ms', keyword) == ActiveParent(c.migrations, keyword)
  {
    var active, active' := ActiveParent(c.migrations, keyword), ActiveParent(ms', keyword);
    SamePlansSameActive(c.migrations, ms', active.GetOr(""), keyword);
    SamePlansSameActive(c.migrations, ms', active'.GetOr(""), keyword);
    if active.Some? {
      ActiveIsUnique(c.ring, |c.nodes|, c.migrations, active.value, active'.value, keyword);
    }
  }

  /** At the deleting confirm the answer for a keyword under the parent passes from the source to the
      ring's owner, which already holds the same. */
  lemma DeleteHandsOver(c: Cluster, c': Cluster, keyword: Keyword)
    requires Inv(c) && ConfirmStep(c, c') && OnlyRunChanges(c, c')
    requires c.run.value.parent <= keyword.Key()
    requires !c.migrations[c.run.value.parent].moved && c'.migrations[c.run.value.parent].moved
    ensures
      var source, owner := c.migrations[c.run.value.parent].plan.source.node, c.ring.OwnerOf(keyword.Key());
      && source < |c.nodes| && owner < |c'.nodes|
      && Fids(c'.nodes[owner], keyword) == Fids(c.nodes[source], keyword)
  {
    var run, m := c.run.value, c.migrations[c.run.value.parent];
    TargetHoldsCopy(c, keyword);
    CoversIsUnder(m, run.parent, |c.nodes|, keyword);
    ActiveRoute(c.ring, |c.nodes|, c.migrations, run.parent, keyword);
    var d := DigitAt(keyword.Key(), |run.parent|);
    if !m.plan.IsForeign(d) {
      DeletingConfirmKeepsRun(c.nodes, m.plan, m.moved, run);
      forall j | j in run.segments ensures !(m.plan.children[j].prefix <= keyword.Key()) {
        ChildPrefixes(m.plan, run.parent, |c.nodes|, d, j);
      }
      forall fid
        ensures Record(keyword, fid) in c'.nodes[m.plan.source.node].records
          <==> Record(keyword, fid) in c.nodes[m.plan.source.node].records
      {}
    }
  }

  /** A confirm that does not delete leaves all records where they are. */
  lemma ConfirmWithoutDelete(c: Cluster, c': Cluster, keyword: Keyword, n: nat)
    requires ConfirmStep(c, c') && OnlyRunChanges(c, c') && n < |c.nodes|
    requires RunOk(c.nodes, c.migrations[c.run.value.parent].plan, c.migrations[c.run.value.parent].moved, c.run.value)
    requires c'.migrations[c.run.value.parent].moved == c.migrations[c.run.value.parent].moved
    ensures Fids(c'.nodes[n], keyword) == Fids(c.nodes[n], keyword)
  {
    var run, m := c.run.value, c.migrations[c.run.value.parent];
    if run.confirmedUpTo in run.segments {
      if Deletes(c.nodes[m.plan.source.node], m.plan.children[run.confirmedUpTo].prefix) {
        DeletingConfirmKeepsRun(c.nodes, m.plan, m.moved, run);
        assert false;
      }
      KeepingConfirmKeepsRun(c.nodes, m.plan, m.moved, run);
    }
  }

  lemma ConfirmKeeps(c: Cluster, c': Cluster, keyword: Keyword)
    requires Inv(c) && ConfirmStep(c, c')
    ensures Inv(c') && Contents(c', keyword) == Contents(c, keyword)
  {
    ConfirmKeepsRun(c, c');
    RunChangeKeepsInv(c, c');
    var parent := c.run.value.parent;
    CoversIsUnder(c.migrations[parent], parent, |c.nodes|, keyword);
    if !(parent <= keyword.Key()) {
      forall n: nat | n < |c.nodes| ensures Fids(c'.nodes[n], keyword) == Fids(c.nodes[n], keyword) {
        ConfirmOutside(c, c', keyword, n);
      }
      SameFidsKeepContents(c, c', keyword);
    } else if c'.migrations[parent].moved == c.migrations[parent].moved {
      forall n: nat | n < |c.nodes| ensures Fids(c'.nodes[n], keyword) == Fids(c.nodes[n], keyword) {
        ConfirmWithoutDelete(c, c', keyword, n);
      }
      SameFidsKeepContents(c, c', keyword);
    } else {
      DeleteHandsOver(c, c', keyword);
      HandOverKeepsContents(c, c', keyword);
    }
  }

  lemma HandOverKeepsContents(c: Cluster, c': Cluster, keyword: Keyword)
    requires Inv(c) && Inv(c') && OnlyRunChanges(c, c') && SamePlans(c.migrations, c'.migrations)
    requires c.run.value.parent <= keyword.Key()
    requires !c.migrations[c.run.value.parent].moved && c'.migrations[c.run.value.parent].moved
    requires
      var source, owner := c.migrations[c.run.value.parent].plan.source.node, c.ring.OwnerOf(keyword.Key());
      && source < |c.nodes| && owner < |c'.nodes|
      && Fids(c'.nodes[owner], keyword) == Fids(c.nodes[source], keyword)
    ensures Contents(c', keyword) == Contents(c, keyword)
  {
    var parent := c.run.value.parent;
    CoversIsUnder(c.migrations[parent], parent, |c.nodes|, keyword);
    ActiveParentIs(c.ring, |c.nodes|, c.migrations, parent, keyword);
    SamePlansSameActiveParent(c, c'.migrations, keyword);
  }
}
