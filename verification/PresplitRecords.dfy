/** What a presplit does to records. Presplitting moves routes without moving records, and neither looks at
    migrations nor at what storagers hold; the manager takes a prefix that has counted no operation to be
    empty, although children of a split start uncounted while records migrate to them. What becomes of a child that
    is presplit while its records are on the move is said in module `UnguardedRuns`. */
module PresplitRecords {
  import opened Wrappers
  import opened Hex
  import opened Ring
  import opened Routing
  import opened AccTree
  import opened Presplit
  import opened Migration
  import opened MigrationInvariant
  import opened MigrationClient
  import opened MigrationTheorems
  import opened MigrationPlacement

  /** The cluster after the router's presplit, whatever is stored under the prefix. */
  function AfterPresplit(c: Cluster, prefix: string, incoming: nat): Cluster {
    c.(ring := c.ring.Apply(Presplit(prefix, incoming)).0)
  }

  lemma NothingElsewhere(c: Cluster, n: nat, k: Keyword)
    requires CleanInv(c) && Idle(c.migrations, k) && n < |c.nodes| && n != Home(c.ring, c.migrations, k)
    ensures Fids(c.nodes[n], k) == {}
  {
    if c.run.Some? {
      IdleIsOutside(c, c.run.value.parent, k);
    }
    forall r | r in c.nodes[n].records ensures r.keyword != k {
      assert Placed(c, n, r.keyword);
    }
  }

  /** Where the ring sends a keyword after a presplit of its leaf. */
  lemma PresplitRoute(ring: RingState, prefix: string, incoming: nat, k: Keyword)
    requires ring.Forest() && Eligible(ring, prefix, incoming) && Canonical(Capped(prefix)) <= k.Key()
    ensures
      var ring' := ring.Apply(Presplit(prefix, incoming)).0;
      && ring'.Valid() && ring'.nodeNames == ring.nodeNames && |ring.nodeNames| > 0
      && ring.OwnerOf(k.Key()) < |ring.nodeNames| && ring'.OwnerOf(k.Key()) < |ring.nodeNames|
      && (ring'.OwnerOf(k.Key()) == ring.OwnerOf(k.Key()) <==> DigitAt(k.Key(), |Canonical(Capped(prefix))|) % |ring.nodeNames| == 0)
  {
    PresplitIff(ring, prefix, incoming);
    var leaf := ring.Apply(Presplit(prefix, incoming)).2.value.parentEntryIndex;
    ring.SplitKeepsForest(leaf);
    ring.SplitIsLocal(leaf, k.Key());
    ring.RouteIsUnique(k.Key(), leaf);
    ModShift(ring.OwnerOf(k.Key()), DigitAt(k.Key(), |ring.entries[leaf].prefix|), |ring.nodeNames|);
  }

  lemma ContentsOfIdle(c: Cluster, k: Keyword)
    requires Inv(c) && Idle(c.migrations, k)
    ensures Home(c.ring, c.migrations, k) < |c.nodes| && Home(c.ring, c.migrations, k) == c.ring.OwnerOf(k.Key())
    ensures Contents(c, k) == Fids(c.nodes[Home(c.ring, c.migrations, k)], k)
  {
    HomeInRange(c.ring, |c.nodes|, c.migrations, k);
  }

  /** What a read after the presplit finds. */
  ghost predicate ReadFinds(c: Cluster, k: Keyword, fids: set<string>)
    requires c.ring.Valid()
  {
    var route := QueryRouteKeyword(c, k);
    route.Some? && route.value.node < |c.nodes| && Fids(c.nodes[route.value.node], k) == fids
  }

  /** After a presplit of a leaf, reads of an idle keyword under it find what was accepted if and only if an
      override still names its storager, or nothing of it is stored, or its next digit is a multiple of the
      number of storagers. */
  lemma PresplitStrandsIff(trace: seq<Cluster>, steps: seq<Step>, n: nat, prefix: string, incoming: nat, k: Keyword)
    requires IsRun(trace, steps) && n <= |steps| && forall i :: 0 <= i < n ==> !steps[i].AbortMigration?
    requires trace[n].ring.Forest() && Idle(trace[n].migrations, k)
    requires Eligible(trace[n].ring, prefix, incoming) && Canonical(Capped(prefix)) <= k.Key()
    ensures AfterPresplit(trace[n], prefix, incoming).ring.Valid() && |trace[n].nodes| > 0
    ensures
      var contents := ApplyAll(OpsFor(Accepted(steps[..n]), k), {});
      ReadFinds(AfterPresplit(trace[n], prefix, incoming), k, contents) <==>
        k in trace[n].overrides || contents == {} || DigitAt(k.Key(), |Canonical(Capped(prefix))|) % |trace[n].nodes| == 0
  {
    var c := trace[n];
    RunKeepsClean(trace, steps, n, k);
    ContentsFollowAccepted(trace, steps, n, k);
    IdleReads(c, prefix, incoming, k);
  }

  lemma IdleReads(c: Cluster, prefix: string, incoming: nat, k: Keyword)
    requires CleanInv(c) && Idle(c.migrations, k) && Eligible(c.ring, prefix, incoming) && Canonical(Capped(prefix)) <= k.Key()
    ensures AfterPresplit(c, prefix, incoming).ring.Valid() && |c.nodes| > 0
    ensures
      ReadFinds(AfterPresplit(c, prefix, incoming), k, Contents(c, k)) <==>
        k in c.overrides || Contents(c, k) == {} || DigitAt(k.Key(), |Canonical(Capped(prefix))|) % |c.nodes| == 0
  {
    PresplitRoute(c.ring, prefix, incoming, k);
    ContentsOfIdle(c, k);
    var ring' := AfterPresplit(c, prefix, incoming).ring;
    ring'.RouteIsUnique(k.Key(), ring'.LeafOf(k.Key()));
    c.ring.RouteIsUnique(k.Key(), c.ring.LeafOf(k.Key()));
    if ring'.OwnerOf(k.Key()) != c.ring.OwnerOf(k.Key()) {
      NothingElsewhere(c, ring'.OwnerOf(k.Key()), k);
    }
  }

  // ----- a child of a migration that is still pending

  /** Under a pending migration a presplit changes no read yet, but the ring now sends the keyword elsewhere
      than the migration, unless its next digit is a multiple of the number of storagers. */
  lemma PresplitUnderMigration(c: Cluster, prefix: string, incoming: nat, p: string, k: Keyword)
    requires Inv(c) && ActiveIn(c.migrations, p, k) && Eligible(c.ring, prefix, incoming) && Canonical(Capped(prefix)) <= k.Key()
    ensures AfterPresplit(c, prefix, incoming).ring.Valid() && |c.nodes| > 0 && |c.migrations[p].plan.children| == 16
    ensures QueryRouteKeyword(AfterPresplit(c, prefix, incoming), k) == QueryRouteKeyword(c, k)
    ensures
      var target := c.migrations[p].plan.children[DigitAt(k.Key(), |p|)].node;
      AfterPresplit(c, prefix, incoming).ring.OwnerOf(k.Key()) == target
      <==> DigitAt(k.Key(), |Canonical(Capped(prefix))|) % |c.nodes| == 0
  {
    PresplitRoute(c.ring, prefix, incoming, k);
    ActiveRoute(c.ring, |c.nodes|, c.migrations, p, k);
  }
}
