/** Route targets and split plans: what the router tells the manager about the ring. */
module Routing {
  import opened Wrappers
  import opened Hex
  import opened Ring

  /** Node `n` is the storager named `storager-n`; its address is a function of that name. */
  datatype RouteTarget = RouteTarget(prefix: string, node: nat)

  datatype PrefixSplitPlan = PrefixSplitPlan(source: RouteTarget, children: seq<RouteTarget>) {
    /** Child `i` leaves the source. */
    predicate IsForeign(i: nat) {
      i < |children| && children[i].node != source.node
    }
  }

  ghost function RingLookup(ring: RingState, keyword: Keyword): Option<RouteTarget>
    requires ring.Valid()
  {
    if ring.entries == [] then None
    else
      var leaf := ring.LeafOf(keyword.Key());
      ring.RouteIsUnique(keyword.Key(), leaf);
      Some(RouteTarget(ring.entries[leaf].prefix, ring.entries[leaf].ownerRef))
  }

  /** The plan for a split the ring has just reported. */
  function BuildSplitPlan(event: SplitEvent, ring: RingState): PrefixSplitPlan
    requires event.parentEntryIndex < |ring.entries|
    requires forall d :: 0 <= d < |event.childRoutes| ==> event.childRoutes[d].entryIndex < |ring.entries|
  {
    PrefixSplitPlan(
      RouteTarget(ring.entries[event.parentEntryIndex].prefix, event.originalOwnerIndex),
      seq(|event.childRoutes|, d requires 0 <= d < |event.childRoutes| =>
        RouteTarget(ring.entries[event.childRoutes[d].entryIndex].prefix, event.childRoutes[d].nodeIndex)))
  }

  function PlanFor(ring: RingState, i: nat): PrefixSplitPlan
    requires ring.CanSplit(i)
  {
    BuildSplitPlan(ring.SplitEventAt(i), ring.SplitAt(i))
  }

  /** The plan names the old owner as source and child `d` as digit `d` at `(owner + d) mod n`. */
  lemma PlanShape(ring: RingState, i: nat, d: Nibble)
    requires ring.CanSplit(i)
    ensures
      var parent, owner := ring.entries[i].prefix, ring.entries[i].ownerRef;
      && PlanFor(ring, i).source == RouteTarget(parent, owner)
      && |PlanFor(ring, i).children| == 16
      && PlanFor(ring, i).children[d] == RouteTarget(parent + [HexDigit(d)], (owner + d) % |ring.nodeNames|)
  {
    assert ring.SplitAt(i).entries[|ring.entries| + d] == ring.ChildEntry(i, d);
  }

  lemma ChildMatchesByDigit(keyword: Keyword, parent: string, d: Nibble)
    requires LowerHex(parent) && |parent| < MAX_PREFIX_LEN
    ensures KeywordMatchesPrefix(keyword, parent + [HexDigit(d)])
      <==> KeywordMatchesPrefix(keyword, parent) && DigitAt(keyword.Key(), |parent|) == d
  {
    var key := keyword.Key();
    MatchIsStringPrefix(keyword, parent);
    MatchIsStringPrefix(keyword, parent + [HexDigit(d)]);
    NibbleInjective(HexDigit(d), key[|parent|]);
    assert parent + [HexDigit(d)] <= key <==> parent <= key && key[|parent|] == HexDigit(d);
  }

  /** The sixteen children of a plan partition the keywords under the parent: each such keyword
      matches exactly one child, and that child is where the split ring routes it. All other keywords
      match no child and keep their route. */
  lemma PlanAgreesWithRing(ring: RingState, i: nat, keyword: Keyword, d: Nibble)
    requires ring.Forest() && ring.CanSplit(i)
    ensures ring.SplitAt(i).Forest() && |PlanFor(ring, i).children| == 16
    ensures KeywordMatchesPrefix(keyword, ring.entries[i].prefix) ==>
      && RingLookup(ring, keyword) == Some(PlanFor(ring, i).source)
      && (KeywordMatchesPrefix(keyword, PlanFor(ring, i).children[d].prefix)
          <==> RingLookup(ring.SplitAt(i), keyword) == Some(PlanFor(ring, i).children[d]))
      && RingLookup(ring.SplitAt(i), keyword)
          == Some(PlanFor(ring, i).children[DigitAt(keyword.Key(), |ring.entries[i].prefix|)])
    ensures !KeywordMatchesPrefix(keyword, ring.entries[i].prefix) ==>
      && RingLookup(ring.SplitAt(i), keyword) == RingLookup(ring, keyword)
      && !KeywordMatchesPrefix(keyword, PlanFor(ring, i).children[d].prefix)
  {
    var key, parent := keyword.Key(), ring.entries[i].prefix;
    ring.SplitKeepsForest(i);
    assert ring.EntryOk(i);
    PlanShape(ring, i, d);
    ChildMatchesByDigit(keyword, parent, d);
    MatchIsStringPrefix(keyword, parent);
    SplitLookup(ring, i, keyword);
    if KeywordMatchesPrefix(keyword, parent) {
      PlanShape(ring, i, DigitAt(key, |parent|));
      var e := DigitAt(key, |parent|);
      assert HexDigit(d) == HexDigit(e) <==> d == e;
      assert (parent + [HexDigit(d)])[|parent|] == HexDigit(d) && (parent + [HexDigit(e)])[|parent|] == HexDigit(e);
    }
  }

  lemma SplitLookup(ring: RingState, i: nat, keyword: Keyword)
    requires ring.Forest() && ring.CanSplit(i) && ring.SplitAt(i).Forest()
    ensures
      var key, parent := keyword.Key(), ring.entries[i].prefix;
      if parent <= key then
        var d := DigitAt(key, |parent|);
        && RingLookup(ring, keyword) == Some(RouteTarget(parent, ring.entries[i].ownerRef))
        && RingLookup(ring.SplitAt(i), keyword)
             == Some(RouteTarget(parent + [HexDigit(d)], (ring.entries[i].ownerRef + d) % |ring.nodeNames|))
      else RingLookup(ring.SplitAt(i), keyword) == RingLookup(ring, keyword)
  {
    var key, parent := keyword.Key(), ring.entries[i].prefix;
    assert ring.EntryOk(i);
    ring.SplitIsLocal(i, key);
    ring.RouteIsUnique(key, ring.LeafOf(key));
    if parent <= key {
      assert ring.SplitAt(i).entries[|ring.entries| + DigitAt(key, |parent|)] == ring.ChildEntry(i, DigitAt(key, |parent|));
    }
  }

  lemma ModShift(owner: nat, d: nat, n: nat)
    requires owner < n
    ensures (owner + d) % n == owner <==> d % n == 0
  {
    var q, r := d / n, d % n;
    if owner + r < n {
      ModIs(owner + d, n, q, owner + r);
    } else {
      Distribute(n, q, -1);
      ModIs(owner + d, n, q + 1, owner + r - n);
    }
  }

  lemma NoSmallMultiple(n: int, z: int)
    requires n > 0 && -n < n * z < n
    ensures z == 0
  {}

  lemma Distribute(n: int, a: int, b: int)
    ensures n * (a - b) == n * a - n * b
  {}

  lemma ModIs(x: nat, n: nat, q: nat, r: nat)
    requires r < n && x == n * q + r
    ensures x % n == r
  {
    var p, s := x / n, x % n;
    assert x == n * p + s;
    Distribute(n, p, q);
    NoSmallMultiple(n, p - q);
  }

  /** A split moves a keyword to another storager if and only if its next digit is not a multiple of the
      number of storagers. Where a split is not followed by a migration (a nested split during replay, a
      presplit) these are the keywords whose records are left behind. */
  lemma SplitMovesKeywordIff(ring: RingState, i: nat, keyword: Keyword)
    requires ring.Forest() && ring.CanSplit(i) && KeywordMatchesPrefix(keyword, ring.entries[i].prefix)
    ensures ring.SplitAt(i).Forest() && RingLookup(ring, keyword).Some? && RingLookup(ring.SplitAt(i), keyword).Some?
    ensures RingLookup(ring.SplitAt(i), keyword).value.node == RingLookup(ring, keyword).value.node
      <==> DigitAt(keyword.Key(), |ring.entries[i].prefix|) % |ring.nodeNames| == 0
  {
    ring.SplitKeepsForest(i);
    assert ring.EntryOk(i);
    MatchIsStringPrefix(keyword, ring.entries[i].prefix);
    SplitLookup(ring, i, keyword);
    ModShift(ring.entries[i].ownerRef, DigitAt(keyword.Key(), |ring.entries[i].prefix|), |ring.nodeNames|);
  }

  /** Counters and summaries never change a route. */
  lemma SameShapeKeepsLookup(ring: RingState, ring': RingState, keyword: Keyword)
    requires ring.Forest() && ring.SameShape(ring')
    ensures ring'.Forest() && RingLookup(ring', keyword) == RingLookup(ring, keyword)
  {
    ring.SameShapeKeepsForest(ring');
    ring.SameShapeKeepsRoutes(ring', keyword.Key());
    ring.RouteIsUnique(keyword.Key(), ring.LeafOf(keyword.Key()));
  }
}
