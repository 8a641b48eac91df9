/** What each step of the unguarded machine does to one keyword. `Pledged` is what the keyword's records and buffered
    operations stand for; a step keeps it unless a presplit or a split in a replay sends the keyword elsewhere, or a
    replay stops before one of its operations. */
module UnguardedReads {
  import opened Wrappers
  import opened Hex
  import opened Ring
  import opened Routing
  import opened AccTree
  import opened Presplit
  import opened Migration
  import opened MigrationInvariant
  import opened MigrationClient
  import opened MigrationServer
  import opened MigrationTheorems
  import opened Unguarded
  import opened ReplayReads

  // ----- where a keyword's records are

  /** The storager with the records of a keyword under a pending migration. */
  function HolderUnder(m: PrefixMigration, parent: string, k: Keyword): nat
    requires |m.plan.children| == 16
  {
    if m.moved then m.plan.children[DigitAt(k.Key(), |parent|)].node else m.plan.source.node
  }

  ghost function Holder(c: Cluster, k: Keyword): (n: nat)
    requires Sane(c)
    ensures n < |c.nodes|
  {
    match ActiveParent(c.migrations, k)
    case None => RouteNode(c, k)
    case Some(p) =>
      assert PlanStands(c.ring, |c.nodes|, c.migrations[p], p);
      HolderUnder(c.migrations[p], p, k)
  }

  ghost function Pledged(c: Cluster, k: Keyword): set<string>
    requires Sane(c)
  {
    ApplyAll(PendingFor(c.migrations, k), Fids(c.nodes[Holder(c, k)], k))
  }

  /** While nothing covers the keyword, its route is the ring's. */
  ghost predicate Aligned(c: Cluster, k: Keyword)
    requires Sane(c)
  {
    Idle(c.migrations, k) ==> RouteNode(c, k) == c.ring.OwnerOf(k.Key())
  }

  ghost predicate SameFids(c: Cluster, c': Cluster, k: Keyword) {
    |c'.nodes| == |c.nodes| && forall n: nat :: n < |c.nodes| ==> Fids(c'.nodes[n], k) == Fids(c.nodes[n], k)
  }

  lemma PlanHas16(c: Cluster, p: string)
    requires Sane(c) && p in c.migrations
    ensures PlanOk(c.migrations[p].plan, p, |c.nodes|) && |c.migrations[p].plan.children| == 16
  {
    assert PlanStands(c.ring, |c.nodes|, c.migrations[p], p);
  }

  lemma PledgedUnder(c: Cluster, p: string, k: Keyword)
    requires Sane(c) && ActiveIn(c.migrations, p, k)
    ensures |c.migrations[p].plan.children| == 16 && HolderUnder(c.migrations[p], p, k) == Holder(c, k)
    ensures Pledged(c, k) == ApplyAll(OpsFor(c.migrations[p].pending, k), Fids(c.nodes[Holder(c, k)], k))
  {
    PlanHas16(c, p);
    OnlyOneCovers(c, p, k);
  }

  lemma PledgedIdle(c: Cluster, k: Keyword)
    requires Sane(c) && Idle(c.migrations, k)
    ensures Pledged(c, k) == Fids(c.nodes[RouteNode(c, k)], k)
  {}

  // ----- a keyword under a pending migration

  /** The migration goes on, with the same operations buffered for the keyword and the same records. */
  ghost predicate StillUnder(c: Cluster, c': Cluster, p: string, k: Keyword)
    requires Sane(c) && Sane(c') && p in c.migrations && p in c'.migrations
  {
    PlanHas16(c, p);
    PlanHas16(c', p);
    && !c'.migrations[p].confirmed && c'.migrations[p].plan == c.migrations[p].plan
    && OpsFor(c'.migrations[p].pending, k) == OpsFor(c.migrations[p].pending, k) && |c'.nodes| == |c.nodes|
    && Fids(c'.nodes[HolderUnder(c'.migrations[p], p, k)], k) == Fids(c.nodes[HolderUnder(c.migrations[p], p, k)], k)
  }

  lemma StillUnderKeeps(c: Cluster, c': Cluster, p: string, k: Keyword)
    requires Sane(c) && Sane(c') && ActiveIn(c.migrations, p, k) && p in c'.migrations && StillUnder(c, c', p, k)
    ensures ActiveIn(c'.migrations, p, k) && Pledged(c', k) == Pledged(c, k)
  {
    CoveredIff(c, p, k);
    CoveredIff(c', p, k);
    PledgedUnder(c, p, k);
    PledgedUnder(c', p, k);
  }

  /** A step that changes neither the keyword's records nor its migration, but for operations on others. */
  lemma UntouchedUnder(c: Cluster, c': Cluster, p: string, k: Keyword)
    requires Sane(c) && Sane(c') && ActiveIn(c.migrations, p, k) && p in c'.migrations && SameFids(c, c', k)
    requires c'.migrations[p].plan == c.migrations[p].plan && c'.migrations[p].moved == c.migrations[p].moved
    requires !c'.migrations[p].confirmed && OpsFor(c'.migrations[p].pending, k) == OpsFor(c.migrations[p].pending, k)
    ensures ActiveIn(c'.migrations, p, k) && Pledged(c', k) == Pledged(c, k)
  {
    PlanHas16(c, p);
    PlanHas16(c', p);
    PledgedUnder(c, p, k);
    StillUnderKeeps(c, c', p, k);
  }

  lemma CountedFids(c: Cluster, op: Operation, route: RouteTarget, ring: RingState, k: Keyword, n: nat)
    requires route.node < |c.nodes| && n < |c.nodes|
    ensures Fids(Counted(c, op, route, ring).nodes[n], k)
      == if op.keyword == k && n == route.node then ApplyToFids(op, Fids(c.nodes[n], k)) else Fids(c.nodes[n], k)
  {
    FidsAfterStore(c.nodes[n], op, k);
  }

  lemma StoredFids(c: Cluster, op: Operation, route: RouteTarget, ring: RingState, k: Keyword)
    requires route.node < |c.nodes| && op.keyword != k
    ensures SameFids(c, Counted(c, op, route, ring), k)
  {
    forall n: nat | n < |c.nodes| ensures Fids(Counted(c, op, route, ring).nodes[n], k) == Fids(c.nodes[n], k) {
      CountedFids(c, op, route, ring, k, n);
    }
  }

  lemma StoredUnder(c: Cluster, op: Operation, summary: seq<Byte>, c': Cluster, p: string, k: Keyword)
    requires Sane(c) && Sane(c') && ClientStep(c, op, summary, c') && ActiveIn(c.migrations, p, k)
    requires Idle(c.migrations, op.keyword) && op.keyword != k
    ensures ActiveIn(c'.migrations, p, k) && Pledged(c', k) == Pledged(c, k)
  {
    var route, ring, leaf := ClientStores(c, op, summary, c');
    StoredFids(c, op, route, ring, k);
    if c' != Counted(c, op, route, ring) {
      NewParentIsNew(Counted(c, op, route, ring), leaf);
    }
    UntouchedUnder(c, c', p, k);
  }

  lemma OtherBuffered(c: Cluster, op: Operation, c': Cluster, q: string, p: string, k: Keyword)
    requires Sane(c) && Sane(c') && ActiveIn(c.migrations, p, k) && ActiveIn(c.migrations, q, op.keyword)
    requires c' == Buffer(c, q, op) && op.keyword != k
    ensures ActiveIn(c'.migrations, p, k) && Pledged(c', k) == Pledged(c, k)
  {
    NotMine(c.migrations[q].pending, op, k);
    UntouchedUnder(c, c', p, k);
  }

  lemma NotMine(ops: seq<Operation>, op: Operation, k: Keyword)
    requires op.keyword != k
    ensures OpsFor(ops + [op], k) == OpsFor(ops, k)
  {
    OpsForSnoc(ops, op, k);
    assert OpsFor(ops, k) + [] == OpsFor(ops, k);
  }

  lemma ClientUnder(c: Cluster, op: Operation, summary: seq<Byte>, c': Cluster, p: string, k: Keyword)
    requires Sane(c) && Sane(c') && ClientStep(c, op, summary, c') && ActiveIn(c.migrations, p, k)
    ensures ActiveIn(c'.migrations, p, k)
    ensures Pledged(c', k) == if op.keyword == k then ApplyToFids(op, Pledged(c, k)) else Pledged(c, k)
  {
    if Idle(c.migrations, op.keyword) {
      StoredUnder(c, op, summary, c', p, k);
    } else {
      var q :| ActiveIn(c.migrations, q, op.keyword) && c' == Buffer(c, q, op);
      if op.keyword == k {
        OnlyOneCovers(c, p, k);
        OnlyOneCovers(c, q, k);
        BufferedUnder(c, op, c', p, k);
      } else {
        OtherBuffered(c, op, c', q, p, k);
      }
    }
  }

  lemma BufferedUnder(c: Cluster, op: Operation, c': Cluster, p: string, k: Keyword)
    requires Sane(c) && Sane(c') && ActiveIn(c.migrations, p, k) && op.keyword == k && c' == Buffer(c, p, op)
    ensures ActiveIn(c'.migrations, p, k) && Pledged(c', k) == ApplyToFids(op, Pledged(c, k))
  {
    CoveredIff(c, p, k);
    CoveredIff(c', p, k);
    PledgedUnder(c, p, k);
    PledgedUnder(c', p, k);
    BufferedContents(c.migrations[p].pending, op, k, Fids(c.nodes[Holder(c, k)], k));
  }

  // ----- storager calls

  /** An import leaves every keyword's holder alone. */
  lemma ImportFids(c: Cluster, i: nat, c': Cluster, k: Keyword, n: nat)
    requires Sane(c) && ImportStep(c, i, c') && n < |c.nodes|
    requires c.run.value.parent <= k.Key() ==> n == c.migrations[c.run.value.parent].plan.source.node
    ensures |c'.nodes| == |c.nodes| && Fids(c'.nodes[n], k) == Fids(c.nodes[n], k)
  {
    var run, m := c.run.value, c.migrations[c.run.value.parent];
    var prefix, target := m.plan.children[i].prefix, m.plan.children[i].node;
    ChildPrefixes(m.plan, run.parent, |c.nodes|, i, i);
    assert SegmentOk(c.nodes, m.plan, m.moved, run.segments[i], i, false);
    if !(run.parent <= k.Key()) {
      ImportLeavesOthers(c.nodes[target], run.segments[i], prefix, k);
    }
  }

  lemma ImportIsEarly(c: Cluster, i: nat, c': Cluster)
    requires Sane(c) && ImportStep(c, i, c')
    ensures !c.migrations[c.run.value.parent].moved
  {}

  lemma ImportUnder(c: Cluster, i: nat, c': Cluster, p: string, k: Keyword)
    requires Sane(c) && Sane(c') && ImportStep(c, i, c') && ActiveIn(c.migrations, p, k)
    ensures ActiveIn(c'.migrations, p, k) && Pledged(c', k) == Pledged(c, k)
  {
    ImportIsEarly(c, i, c');
    PledgedUnder(c, p, k);
    CoveredIff(c, c.run.value.parent, k);
    if c.run.value.parent <= k.Key() {
      OnlyOneCovers(c, c.run.value.parent, k);
      OnlyOneCovers(c, p, k);
    }
    ImportFids(c, i, c', k, Holder(c, k));
    StillUnderKeeps(c, c', p, k);
  }

  /** Once all is imported the target holds what the source holds of the keyword. */
  lemma CopyAtTarget(c: Cluster, k: Keyword)
    requires Sane(c) && c.run.Some? && c.run.value.parent <= k.Key() && !c.migrations[c.run.value.parent].moved
    requires c.run.value.prepared == 16 && c.run.value.imported == c.run.value.segments.Keys
    ensures
      var parent := c.run.value.parent;
      var plan, d := c.migrations[parent].plan, DigitAt(k.Key(), |parent|);
      && |plan.children| == 16 && plan.children[d].node < |c.nodes| && plan.source.node < |c.nodes|
      && Fids(c.nodes[plan.children[d].node], k) == Fids(c.nodes[plan.source.node], k)
  {
    var run, m := c.run.value, c.migrations[c.run.value.parent];
    var d := DigitAt(k.Key(), |run.parent|);
    ChildPrefixes(m.plan, run.parent, |c.nodes|, d, d);
    if m.plan.IsForeign(d) {
      assert SegmentOk(c.nodes, m.plan, m.moved, run.segments[d], d, true);
      UnderItsDigit(run.parent, k);
      FidsFromPrefix(c.nodes[m.plan.source.node], c.nodes[m.plan.children[d].node], m.plan.children[d].prefix, k);
    }
  }

  lemma UnderItsDigit(parent: string, k: Keyword)
    requires parent <= k.Key() && |parent| < MAX_PREFIX_LEN
    ensures parent + [HexDigit(DigitAt(k.Key(), |parent|))] <= k.Key()
  {
    var key := k.Key();
    NibbleInjective(HexDigit(DigitAt(key, |parent|)), key[|parent|]);
  }

  /** Across the deleting confirm the target goes on holding the keyword's records. */
  lemma TargetKeeps(c: Cluster, c': Cluster, k: Keyword)
    requires Sane(c) && ConfirmStep(c, c') && OnlyRunChanges(c, c') && c.run.value.parent <= k.Key()
    requires !c.migrations[c.run.value.parent].moved && c'.migrations[c.run.value.parent].moved
    ensures
      var parent := c.run.value.parent;
      var plan, d := c.migrations[parent].plan, DigitAt(k.Key(), |parent|);
      && |plan.children| == 16 && plan.children[d].node < |c.nodes|
      && Fids(c'.nodes[plan.children[d].node], k) == Fids(c.nodes[plan.children[d].node], k)
  {
    var run, m := c.run.value, c.migrations[c.run.value.parent];
    var d := DigitAt(k.Key(), |run.parent|);
    ChildPrefixes(m.plan, run.parent, |c.nodes|, d, d);
    if !m.plan.IsForeign(d) {
      DeletingConfirmKeepsRun(c.nodes, m.plan, m.moved, run);
      UnderItsDigit(run.parent, k);
      forall j | j in run.segments ensures !(m.plan.children[j].prefix <= k.Key()) {
        ChildPrefixes(m.plan, run.parent, |c.nodes|, d, j);
      }
      SameRecordsOf(c.nodes[m.plan.source.node], c'.nodes[m.plan.source.node], k);
    }
  }

  lemma SameRecordsOf(s: Storager, s': Storager, k: Keyword)
    requires forall fid :: Record(k, fid) in s'.records <==> Record(k, fid) in s.records
    ensures Fids(s', k) == Fids(s, k)
  {
    forall fid ensures fid in Fids(s', k) <==> fid in Fids(s, k) {
      assert Record(k, fid) in s'.records <==> Record(k, fid) in s.records;
    }
  }

  lemma HandedOver(c: Cluster, c': Cluster, k: Keyword)
    requires Sane(c) && Sane(c') && ConfirmStep(c, c') && OnlyRunChanges(c, c') && c.run.value.parent <= k.Key()
    requires !c.migrations[c.run.value.parent].moved && c'.migrations[c.run.value.parent].moved
    ensures StillUnder(c, c', c.run.value.parent, k)
  {
    PlanHas16(c, c.run.value.parent);
    CopyAtTarget(c, k);
    TargetKeeps(c, c', k);
  }

  /** A confirm that hands nothing over leaves the keyword's records everywhere. */
  lemma ConfirmFids(c: Cluster, c': Cluster, k: Keyword)
    requires Sane(c) && ConfirmStep(c, c') && OnlyRunChanges(c, c')
    requires c.run.value.parent <= k.Key() ==>
      c'.migrations[c.run.value.parent].moved == c.migrations[c.run.value.parent].moved
    ensures SameFids(c, c', k)
  {
    forall n: nat | n < |c.nodes| ensures Fids(c'.nodes[n], k) == Fids(c.nodes[n], k) {
      if c.run.value.parent <= k.Key() {
        ConfirmWithoutDelete(c, c', k, n);
      } else {
        ConfirmOutside(c, c', k, n);
      }
    }
  }

  lemma ConfirmUnder(c: Cluster, c': Cluster, p: string, k: Keyword)
    requires Sane(c) && Sane(c') && ConfirmStep(c, c') && ActiveIn(c.migrations, p, k)
    ensures ActiveIn(c'.migrations, p, k) && Pledged(c', k) == Pledged(c, k)
  {
    ConfirmKeepsRun(c, c');
    var q := c.run.value.parent;
    CoveredIff(c, q, k);
    if q <= k.Key() {
      OnlyOneCovers(c, q, k);
      OnlyOneCovers(c, p, k);
    }
    if q <= k.Key() && c'.migrations[q].moved != c.migrations[q].moved {
      HandedOver(c, c', k);
      StillUnderKeeps(c, c', p, k);
    } else {
      ConfirmFids(c, c', k);
      UntouchedUnder(c, c', p, k);
    }
  }

  lemma PrepareFids(c: Cluster, c': Cluster, k: Keyword)
    requires Sane(c) && PrepareStep(c, c')
    ensures SameFids(c, c', k) && c'.migrations == c.migrations && c'.ring == c.ring && c'.overrides == c.overrides
  {
    var run, m := c.run.value, c.migrations[c.run.value.parent];
    if m.plan.IsForeign(run.prepared) {
      PrepareKeepsRun(c.nodes, m.plan, m.moved, run);
    }
  }

  /** A keyword under a pending migration: only its own operations change what is pledged, until that migration
      replays. Presplits of its leaf and whatever else happens to the ring do not matter. */
  lemma StepUnder(c: Cluster, step: Step, c': Cluster, p: string, k: Keyword)
    requires Sane(c) && Sane(c') && !step.FinishMigration? && !step.PresplitPrefix? && Next(c, step, c')
    requires ActiveIn(c.migrations, p, k)
    ensures ActiveIn(c'.migrations, p, k)
    ensures Pledged(c', k) == if step.Client? && step.op.keyword == k then ApplyToFids(step.op, Pledged(c, k)) else Pledged(c, k)
  {
    match step
    case Client(op, summary) => ClientUnder(c, op, summary, c', p, k);
    case PrepareChild =>
      PrepareFids(c, c', k);
      UntouchedUnder(c, c', p, k);
    case ImportChild(i) => ImportUnder(c, i, c', p, k);
    case ConfirmChild => ConfirmUnder(c, c', p, k);
    case UpdateSummary(_, _) => UntouchedUnder(c, c', p, k);
    case StartMigration(_) => UntouchedUnder(c, c', p, k);
    case AbortMigration => UntouchedUnder(c, c', p, k);
  }

  // ----- a replay of another migration

  /** An operation under a split prefix can only split a leaf under that prefix. */
  lemma LeafUnder(ring: RingState, entry: nat, k: Keyword, other: Keyword)
    requires ring.Forest() && ring.IsSplit(entry) && ring.entries[entry].prefix <= k.Key()
    requires !(ring.entries[entry].prefix <= other.Key())
    ensures ring.LeafOf(k.Key()) < |ring.entries| && !(ring.entries[ring.LeafOf(k.Key())].prefix <= other.Key())
  {
    var leaf := ring.LeafOf(k.Key());
    ring.RouteIsUnique(k.Key(), leaf);
    LeafIsNotAbove(ring, leaf, entry);
    assert ring.entries[entry].prefix <= ring.entries[leaf].prefix;
  }

  ghost predicate SplitEntry(ring: RingState, entry: nat, prefix: string) {
    ring.IsSplit(entry) && ring.entries[entry].prefix == prefix
  }

  /** A split under the prefix keeps the entry split and the owner of keywords elsewhere. */
  lemma SplitOutside(ring: RingState, before: RingState, parent: string, entry: nat, op: Keyword, k: Keyword)
    requires ring.Forest() && ring.SameShape(before) && before.Forest() && SplitEntry(ring, entry, parent)
    requires parent <= op.Key() && !(parent <= k.Key()) && before.CanSplit(ring.LeafOf(op.Key()))
    ensures
      var ring' := before.SplitAt(ring.LeafOf(op.Key()));
      ring'.Forest() && SplitEntry(ring', entry, parent) && ring'.OwnerOf(k.Key()) == ring.OwnerOf(k.Key())
  {
    var leaf := ring.LeafOf(op.Key());
    LeafUnder(ring, entry, op, k);
    ring.SameShapeKeepsRoutes(before, k.Key());
    before.SplitKeepsForest(leaf);
    before.SplitIsLocal(leaf, k.Key());
  }

  lemma AfterRingOutside(c: Cluster, op: Operation, summary: seq<Byte>, parent: string, entry: nat, k: Keyword)
    requires Sane(c) && c.run.None? && SplitEntry(c.ring, entry, parent)
    requires parent <= op.keyword.Key() && !(parent <= k.Key())
    ensures
      var ring' := After(c, op, summary).ring;
      SplitEntry(ring', entry, parent) && ring'.OwnerOf(k.Key()) == c.ring.OwnerOf(k.Key())
  {
    StoreSane(c, op, summary);
    RouteIsNamed(c, op.keyword);
    var route := RouteKeyword(c, op.keyword).value;
    StoreTakenApart(c, op, route, summary);
    var (stored, event) := Store(c, op, route, summary);
    if event.None? {
      c.ring.SameShapeKeepsRoutes(stored.ring, k.Key());
    } else {
      var before :| OwnLeafSplit(c, op, route, stored.ring, event.value, before);
      SplitOutside(c.ring, before, parent, entry, op.keyword, k);
    }
  }

  lemma AfterOutside(c: Cluster, op: Operation, summary: seq<Byte>, k: Keyword)
    requires Sane(c) && c.run.None? && op.keyword != k
    ensures
      var next := After(c, op, summary);
      (k in next.overrides <==> k in c.overrides) && (k in c.overrides ==> next.overrides[k] == c.overrides[k])
  {
    StoreSane(c, op, summary);
  }

  lemma {:induction false} ReplayOutside(
      c: Cluster, ops: seq<Operation>, summaries: seq<seq<Byte>>, parent: string, entry: nat, k: Keyword)
    requires Sane(c) && c.run.None? && |summaries| == |ops| && SplitEntry(c.ring, entry, parent) && !(parent <= k.Key())
    requires forall j :: 0 <= j < |ops| ==> parent <= ops[j].keyword.Key()
    ensures
      var r := End(c, ops, summaries);
      && SameFids(c, r, k) && r.ring.OwnerOf(k.Key()) == c.ring.OwnerOf(k.Key())
      && (k in r.overrides <==> k in c.overrides) && (k in c.overrides ==> r.overrides[k] == c.overrides[k])
    decreases |ops|
  {
    if ops != [] {
      var next := After(c, ops[0], summaries[0]);
      EndStep(c, ops, summaries);
      AfterRingOutside(c, ops[0], summaries[0], parent, entry, k);
      AfterOutside(c, ops[0], summaries[0], k);
      forall n: nat | n < |c.nodes| ensures Fids(next.nodes[n], k) == Fids(c.nodes[n], k) {
        AfterFids(c, ops[0], summaries[0], k, n);
      }
      ReplayOutside(next, ops[1..], summaries[1..], parent, entry, k);
    }
  }

  /** What the replay at the end of a migration, or the part before a failed call, does to keywords elsewhere. */
  ghost predicate LeftAlone(c: Cluster, c': Cluster, k: Keyword)
    requires c.ring.Forest() && c'.ring.Forest()
  {
    && SameFids(c, c', k) && c'.ring.OwnerOf(k.Key()) == c.ring.OwnerOf(k.Key())
    && (k in c'.overrides <==> k in c.overrides) && (k in c.overrides ==> c'.overrides[k] == c.overrides[k])
  }

  lemma EndsOutside(c: Cluster, base: Cluster, ops: seq<Operation>, summaries: seq<seq<Byte>>, k: Keyword)
    requires Sane(c) && c.run.Some? && !(c.run.value.parent <= k.Key()) && |summaries| == |ops| && Sane(base)
    requires base.ring == c.ring && base.nodes == c.nodes && base.run.None?
    requires base.overrides == DropOverridesUnder(c.overrides, c.run.value.parent)
    requires ops <= c.migrations[c.run.value.parent].pending
    ensures LeftAlone(c, End(base, ops, summaries), k)
  {
    var parent := c.run.value.parent;
    assert PlanStands(c.ring, |c.nodes|, c.migrations[parent], parent);
    MatchIsStringPrefix(k, parent);
    ReplayOutside(base, ops, summaries, parent, c.migrations[parent].entry, k);
  }

  /** The other migrations stay as they are. */
  ghost predicate OthersStay(c: Cluster, c': Cluster, parent: string) {
    && c'.migrations.Keys == c.migrations.Keys
    && forall p :: p in c.migrations && p != parent ==> c'.migrations[p] == c.migrations[p]
  }

  lemma FinishedOutside(c: Cluster, summaries: seq<seq<Byte>>, c': Cluster, k: Keyword)
    requires Sane(c) && Sane(c') && FinishAllStep(c, summaries, c') && !(c.run.value.parent <= k.Key())
    ensures LeftAlone(c, c', k) && OthersStay(c, c', c.run.value.parent)
  {
    SettledSane(c);
    FinishAllIsReplay(c, summaries, c');
    EndsOutside(c, Settled(c), c.migrations[c.run.value.parent].pending, summaries, k);
  }

  lemma StoppedOutside(c: Cluster, summaries: seq<seq<Byte>>, c': Cluster, k: Keyword)
    requires Sane(c) && Sane(c') && StopReplayStep(c, summaries, c') && !(c.run.value.parent <= k.Key())
    ensures LeftAlone(c, c', k) && OthersStay(c, c', c.run.value.parent)
  {
    var parent := c.run.value.parent;
    TakenSane(c);
    StopReplayIsReplay(c, summaries, c');
    EndsOutside(c, Taken(c, parent).(run := None), c.migrations[parent].pending[..|summaries|], summaries, k);
  }
}
