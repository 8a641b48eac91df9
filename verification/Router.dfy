/** The router object: the ring and the keyword overrides behind one interface. The route cache in front
    of it is the subject of module `RouteCache`. */
module Router {
  import opened Wrappers
  import opened Hex
  import opened Ring
  import opened Routing
  import opened Presplit
  import opened Migration
  import EPRing

  /** The events a ring reports name entries of the ring it leaves behind. */
  lemma EventsAreOk(ring: RingState, op: RingOp)
    requires ring.Forest()
    ensures ring.Apply(op).0.Forest()
    ensures ring.Apply(op).2.Some? ==> EventOk(ring.Apply(op).0, ring.Apply(op).2.value)
  {
    ring.ApplyKeepsForest(op);
    ring.ApplySplitsAtMostTheNamedLeaf(op);
  }

  class Router {
    const ring: EPRing.EPRing
    var keywordOverrides: map<Keyword, RouteTarget>

    ghost predicate Valid()
      reads this, ring
    {
      ring.State().Forest()
    }

    constructor (nodeNames: seq<string>, splitThreshold: nat)
      requires 0 < |nodeNames| < EPRing.USIZE_LIMIT
      ensures Valid() && fresh(ring) && keywordOverrides == map[]
      ensures ring.nodeNames == nodeNames && forall i: nat :: !ring.State().IsSplit(i)
    {
      ring := new EPRing.EPRing(nodeNames, splitThreshold);
      keywordOverrides := map[];
    }

    /** What a call returns when nothing changes under it. */
    method RouteKeyword(keyword: Keyword) returns (route: Option<RouteTarget>)
      requires Valid()
      ensures route == if keyword in keywordOverrides then Some(keywordOverrides[keyword]) else RingLookup(ring.State(), keyword)
    {
      if keyword in keywordOverrides {
        return Some(keywordOverrides[keyword]);
      }
      var found := ring.RouteKeyword(keyword);
      if found.None? {
        return None;
      }
      ring.State().RouteIsUnique(keyword.Key(), found.value.entryIndex);
      route := Some(RouteTarget(ring.entries[found.value.entryIndex].prefix, found.value.nodeIndex));
    }

    method RecordInsert(keyword: Keyword, prefix: string, node: nat, summary: seq<Byte>) returns (event: Option<SplitEvent>)
      requires Valid()
      modifies this`keywordOverrides, ring
      ensures Valid()
      ensures keywordOverrides == old(keywordOverrides)[keyword := RouteTarget(prefix, node)]
      ensures ring.State() == old(ring.State()).Apply(Insert(prefix, summary)).0
      ensures event == old(ring.State()).Apply(Insert(prefix, summary)).2
      ensures event.Some? ==> EventOk(ring.State(), event.value)
    {
      EventsAreOk(ring.State(), Insert(prefix, summary));
      keywordOverrides := keywordOverrides[keyword := RouteTarget(prefix, node)];
      var change;
      change, event := ring.RecordInsertWithChange(prefix, summary);
    }

    method RecordDelete(keyword: Keyword, prefix: string, summary: seq<Byte>)
      requires Valid()
      modifies this`keywordOverrides, ring
      ensures Valid()
      ensures keywordOverrides == old(keywordOverrides) - {keyword}
      ensures ring.State() == old(ring.State()).Apply(RingOp.Delete(prefix, summary)).0
    {
      EventsAreOk(ring.State(), RingOp.Delete(prefix, summary));
      keywordOverrides := keywordOverrides - {keyword};
      var _ := ring.RecordDeleteWithChange(prefix, summary);
    }

    method UpdatePrefixSummary(prefix: string, summary: seq<Byte>)
      requires Valid()
      modifies ring
      ensures Valid()
      ensures ring.State() == old(ring.State()).Apply(SetRootSummary(prefix, summary)).0
    {
      EventsAreOk(ring.State(), SetRootSummary(prefix, summary));
      var _ := ring.UpdateRootSummaryWithChange(prefix, summary);
    }

    method ClearKeywordOverridesForPrefix(prefix: string)
      modifies this`keywordOverrides
      ensures keywordOverrides == DropOverridesUnder(old(keywordOverrides), prefix)
    {
      keywordOverrides := map k | k in keywordOverrides && !KeywordMatchesPrefix(k, prefix) :: keywordOverrides[k];
    }

    /** Presplits one prefix if it is eligible. */
    method PresplitPrefix(prefix: string, incoming: nat) returns (plan: Option<PrefixSplitPlan>)
      requires Valid()
      modifies ring
      ensures Valid() && ring.State() == old(ring.State()).Apply(Presplit(prefix, incoming)).0
      ensures plan.None? ==> ring.State() == old(ring.State())
      ensures plan.Some? ==>
        && plan.value.source.prefix == Canonical(Capped(prefix)) && incoming > 0
        && Deepens(old(ring.State()), ring.State()) && DeepensUnder(old(ring.State()), ring.State(), prefix)
    {
      PresplitIff(ring.State(), prefix, incoming);
      EventsAreOk(ring.State(), Presplit(prefix, incoming));
      var event := ring.MaybePresplitEmptyPrefix(prefix, incoming);
      plan := if event.Some? then Some(BuildSplitPlan(event.value, ring.State())) else None;
    }

    /** Presplits the given prefixes, shortest first. Leaves only ever get deeper; every eligible prefix is
        split, and a reported split is one of a prefix with items coming. */
    method PresplitEmptyPrefixes(counts: map<string, nat>) returns (plans: seq<PrefixSplitPlan>)
      requires Valid()
      modifies ring
      ensures Valid() && Deepens(old(ring.State()), ring.State()) && ByPresplits(old(ring.State()), ring.State())
      ensures forall i :: 0 <= i < |plans| ==> plans[i].source.prefix in set p | p in counts :: Canonical(Capped(p))
      ensures forall p :: p in counts && Eligible(old(ring.State()), p, counts[p]) ==> DeepensUnder(old(ring.State()), ring.State(), p)
      ensures plans == [] ==> ring.State() == old(ring.State())
      ensures plans != [] ==> exists p :: p in counts && DeepensUnder(old(ring.State()), ring.State(), p) && counts[p] > 0
    {
      plans := [];
      ghost var before := ring.State();
      DeepensRefl(before);
      NoPresplits(before);
      var remaining := counts.Keys;
      while remaining != {}
        invariant Valid() && remaining <= counts.Keys && PresplitSoFar(before, ring.State(), counts, remaining)
        invariant ByPresplits(before, ring.State())
        invariant forall i :: 0 <= i < |plans| ==> plans[i].source.prefix in set p | p in counts :: Canonical(Capped(p))
        invariant plans == [] ==> ring.State() == before
        invariant plans != [] ==> exists p :: p in counts && DeepensUnder(before, ring.State(), p) && counts[p] > 0
        decreases |remaining|
      {
        ShortestExists(remaining);
        var prefix :| prefix in remaining && forall q :: q in remaining ==> |prefix| <= |q|;
        ghost var previous := ring.State();
        PresplitOneMore(before, previous, counts, remaining, prefix);
        OnePresplitMore(before, previous, Presplit(prefix, counts[prefix]));
        remaining := remaining - {prefix};
        var plan := PresplitPrefix(prefix, counts[prefix]);
        if plan.Some? {
          plans := plans + [plan.value];
          DeepensUnderAlong(before, previous, ring.State(), prefix);
        }
      }
    }
  }

  /** The eligible prefixes dealt with are split, and those remaining are split or still eligible. */
  ghost predicate PresplitSoFar(before: RingState, ring: RingState, counts: map<string, nat>, remaining: set<string>) {
    && Deepens(before, ring)
    && forall p :: p in counts && Eligible(before, p, counts[p]) ==>
      DeepensUnder(before, ring, p) || (p in remaining && Eligible(ring, p, counts[p]))
  }

  lemma PresplitOneMore(before: RingState, ring: RingState, counts: map<string, nat>, remaining: set<string>, prefix: string)
    requires PresplitSoFar(before, ring, counts, remaining) && prefix in remaining && prefix in counts
    ensures PresplitSoFar(before, ring.Apply(Presplit(prefix, counts[prefix])).0, counts, remaining - {prefix})
  {
    var ring' := ring.Apply(Presplit(prefix, counts[prefix])).0;
    PresplitIff(ring, prefix, counts[prefix]);
    DeepensTrans(before, ring, ring');
    forall p | p in counts && Eligible(before, p, counts[p])
      ensures DeepensUnder(before, ring', p) || (p in remaining - {prefix} && Eligible(ring', p, counts[p]))
    {
      if DeepensUnder(before, ring, p) || p == prefix {
        DeepensUnderAlong(before, ring, ring', p);
      } else {
        EligibleUntilSplit(ring, p, counts[p], prefix, counts[prefix]);
        if DeepensUnder(ring, ring', p) {
          DeepensUnderAlong(before, ring, ring', p);
        }
      }
    }
  }

  lemma {:induction false} ShortestExists(strings: set<string>)
    requires strings != {}
    ensures exists s :: s in strings && forall t :: t in strings ==> |s| <= |t|
    decreases |strings|
  {
    var s :| s in strings;
    var rest := strings - {s};
    if rest != {} {
      ShortestExists(rest);
      var r :| r in rest && forall t :: t in rest ==> |r| <= |t|;
      var least := if |s| <= |r| then s else r;
      assert least in strings && forall t :: t in strings ==> |least| <= |t| by {
        assert strings == rest + {s};
      }
    } else {
      assert strings == {s};
    }
  }
}
