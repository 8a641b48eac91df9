/** Splitting leaves ahead of a batch. The manager presplits prefixes that have counted no operation, so
    a split here moves routes but schedules no migration. */
module Presplit {
  import opened Wrappers
  import opened Hex
  import opened Ring

  /** The prefix of the leaf a keyword routes to. */
  ghost function LeafPrefix(ring: RingState, k: Keyword): (p: string)
    requires ring.Forest()
    ensures p <= k.Key() && LowerHex(p)
  {
    ring.RouteIsUnique(k.Key(), ring.LeafOf(k.Key()));
    assert ring.EntryOk(ring.LeafOf(k.Key()));
    ring.entries[ring.LeafOf(k.Key())].prefix
  }

  ghost predicate LeafCounted(ring: RingState, k: Keyword)
    requires ring.Forest()
  {
    ring.RouteIsUnique(k.Key(), ring.LeafOf(k.Key()));
    ring.entries[ring.LeafOf(k.Key())].counter != 0
  }

  /** How the ring looks to one keyword after some presplits: its leaf is the old one or lies below it,
      and a leaf that had counted operations is still its leaf. */
  ghost predicate DeeperFor(ring: RingState, ring': RingState, k: Keyword)
    requires ring.Forest() && ring'.Forest()
  {
    && LeafPrefix(ring, k) <= LeafPrefix(ring', k)
    && (LeafCounted(ring, k) ==>
          && LeafPrefix(ring', k) == LeafPrefix(ring, k) && LeafCounted(ring', k)
          && ring'.OwnerOf(k.Key()) == ring.OwnerOf(k.Key()))
  }

  ghost predicate Deepens(ring: RingState, ring': RingState) {
    ring.Forest() && ring'.Forest() && forall k: Keyword :: DeeperFor(ring, ring', k)
  }

  lemma DeepensTrans(a: RingState, b: RingState, c: RingState)
    requires Deepens(a, b) && Deepens(b, c)
    ensures Deepens(a, c)
  {
    forall k: Keyword ensures DeeperFor(a, c, k) {
      assert DeeperFor(a, b, k) && DeeperFor(b, c, k);
    }
  }

  /** The digits still free below the leaves of a batch's keywords. */
  ghost function Slack(ring: RingState, items: seq<Keyword>): nat
    requires ring.Forest()
  {
    if items == [] then 0
    else MAX_PREFIX_LEN - |LeafPrefix(ring, items[0])| + Slack(ring, items[1..])
  }

  lemma {:induction false} SlackShrinks(ring: RingState, ring': RingState, items: seq<Keyword>)
    requires Deepens(ring, ring')
    ensures Slack(ring', items) <= Slack(ring, items)
  {
    if items != [] {
      assert DeeperFor(ring, ring', items[0]);
      SlackShrinks(ring, ring', items[1..]);
    }
  }

  lemma {:induction false} SlackShrinksAt(ring: RingState, ring': RingState, items: seq<Keyword>, k: Keyword)
    requires Deepens(ring, ring') && k in items && |LeafPrefix(ring', k)| > |LeafPrefix(ring, k)|
    ensures Slack(ring', items) < Slack(ring, items)
  {
    assert DeeperFor(ring, ring', items[0]);
    if items[0] == k {
      SlackShrinks(ring, ring', items[1..]);
    } else {
      SlackShrinksAt(ring, ring', items[1..], k);
    }
  }

  lemma SplitLeafPrefix(ring: RingState, i: nat, k: Keyword)
    requires ring.Forest() && ring.CanSplit(i) && ring.SplitAt(i).Forest()
    ensures ring.entries[i].prefix <= k.Key() ==>
      && LeafPrefix(ring, k) == ring.entries[i].prefix
      && LeafPrefix(ring.SplitAt(i), k) == ring.entries[i].prefix + [HexDigit(DigitAt(k.Key(), |ring.entries[i].prefix|))]
    ensures !(ring.entries[i].prefix <= k.Key()) ==>
      && LeafPrefix(ring.SplitAt(i), k) == LeafPrefix(ring, k)
      && (LeafCounted(ring.SplitAt(i), k) <==> LeafCounted(ring, k))
      && ring.SplitAt(i).OwnerOf(k.Key()) == ring.OwnerOf(k.Key())
  {
    ring.SplitIsLocal(i, k.Key());
    ring.RouteIsUnique(k.Key(), ring.LeafOf(k.Key()));
    if ring.entries[i].prefix <= k.Key() {
      var d := DigitAt(k.Key(), |ring.entries[i].prefix|);
      assert ring.SplitAt(i).entries[|ring.entries| + d] == ring.ChildEntry(i, d);
    }
  }

  /** Presplitting an uncounted leaf leaves every counted leaf's keywords where they are. */
  lemma SplitDeepens(ring: RingState, i: nat)
    requires ring.Forest() && ring.CanSplit(i) && ring.entries[i].counter == 0
    ensures Deepens(ring, ring.SplitAt(i))
    ensures forall k: Keyword :: ring.entries[i].prefix <= k.Key() ==>
      |LeafPrefix(ring.SplitAt(i), k)| > |LeafPrefix(ring, k)|
  {
    ring.SplitKeepsForest(i);
    forall k: Keyword
      ensures DeeperFor(ring, ring.SplitAt(i), k)
      ensures ring.entries[i].prefix <= k.Key() ==> |LeafPrefix(ring.SplitAt(i), k)| > |LeafPrefix(ring, k)|
    {
      SplitLeafPrefix(ring, i, k);
      ring.RouteIsUnique(k.Key(), i);
    }
  }

  lemma SummaryDeepens(ring: RingState, prefix: string, summary: seq<Byte>)
    requires ring.Forest()
    ensures Deepens(ring, ring.Apply(SetRootSummary(prefix, summary)).0)
  {
    var ring' := ring.Apply(SetRootSummary(prefix, summary)).0;
    ring.UpdateSummaryKeepsShape(prefix, summary);
    ring.SameShapeKeepsForest(ring');
    forall k: Keyword ensures DeeperFor(ring, ring', k) {
      var leaf := ring.LeafOf(k.Key());
      ring.SameShapeKeepsRoutes(ring', k.Key());
      ring.RouteIsUnique(k.Key(), leaf);
      assert ring'.entries[leaf].prefix == ring.entries[leaf].prefix;
    }
  }

  lemma DeepensRefl(ring: RingState)
    requires ring.Forest()
    ensures Deepens(ring, ring)
  {}

  /** The prefix is an uncounted leaf with a free digit, and more items are coming than the threshold. */
  ghost predicate Eligible(ring: RingState, prefix: string, incoming: nat) {
    && incoming > ring.splitThreshold
    && exists i: nat :: ring.CanSplit(i) && ring.entries[i].counter == 0 && ring.entries[i].prefix == Canonical(Capped(prefix))
  }

  /** Every keyword under the prefix has got a deeper leaf. */
  ghost predicate DeepensUnder(ring: RingState, ring': RingState, prefix: string) {
    && ring.Forest() && ring'.Forest()
    && forall k: Keyword :: Canonical(Capped(prefix)) <= k.Key() ==> |LeafPrefix(ring', k)| > |LeafPrefix(ring, k)|
  }

  /** Other deepening before or after does not undo one. */
  lemma DeepensUnderAlong(before: RingState, previous: RingState, after: RingState, prefix: string)
    requires Deepens(before, previous) && Deepens(previous, after)
    requires DeepensUnder(previous, after, prefix) || DeepensUnder(before, previous, prefix)
    ensures DeepensUnder(before, after, prefix)
  {
    forall k: Keyword | Canonical(Capped(prefix)) <= k.Key() ensures |LeafPrefix(after, k)| > |LeafPrefix(before, k)| {
      assert DeeperFor(before, previous, k) && DeeperFor(previous, after, k);
    }
  }

  /** A presplit request splits if and only if its prefix is eligible. */
  lemma PresplitIff(ring: RingState, prefix: string, incoming: nat)
    requires ring.Forest()
    ensures
      var (ring', _, event) := ring.Apply(Presplit(prefix, incoming));
      && Deepens(ring, ring')
      && (event.Some? <==> Eligible(ring, prefix, incoming))
      && (event.None? ==> ring' == ring)
      && (event.Some? ==>
            && event.value.parentEntryIndex < |ring.entries|
            && ring.CanSplit(event.value.parentEntryIndex)
            && ring' == ring.SplitAt(event.value.parentEntryIndex)
            && event.value == ring.SplitEventAt(event.value.parentEntryIndex)
            && ring.entries[event.value.parentEntryIndex].prefix == Canonical(Capped(prefix))
            && DeepensUnder(ring, ring', prefix))
  {
    var found := ring.Find(prefix);
    if found.Some? {
      ring.FindInvertsPrefix(prefix, found.value);
      if ring.CanSplit(found.value) && ring.entries[found.value].counter == 0 {
        SplitDeepens(ring, found.value);
      }
    }
    DeepensRefl(ring);
    if i: nat :| ring.CanSplit(i) && ring.entries[i].counter == 0 && ring.entries[i].prefix == Canonical(Capped(prefix)) {
      ring.FindInvertsPrefix(prefix, i);
    }
  }

  /** A prefix that is eligible stays so until it is split. */
  lemma EligibleUntilSplit(ring: RingState, prefix: string, incoming: nat, other: string, otherIncoming: nat)
    requires ring.Forest() && Eligible(ring, prefix, incoming)
    ensures
      var ring' := ring.Apply(Presplit(other, otherIncoming)).0;
      Eligible(ring', prefix, incoming) || DeepensUnder(ring, ring', prefix)
  {
    var (ring', _, event) := ring.Apply(Presplit(other, otherIncoming));
    PresplitIff(ring, other, otherIncoming);
    var i: nat :| ring.CanSplit(i) && ring.entries[i].counter == 0 && ring.entries[i].prefix == Canonical(Capped(prefix));
    if event.Some? && event.value.parentEntryIndex != i {
      assert ring'.entries[i] == ring.entries[i] && ring'.CanSplit(i);
    } else if event.Some? {
      assert Canonical(Capped(other)) == Canonical(Capped(prefix));
    }
  }

  // ----- many of them

  /** What presplitting does to the ring, one call at a time. */
  predicate IsPresplitCall(op: RingOp) {
    op.Presplit? || op.SetRootSummary?
  }

  predicate ArePresplitCalls(ops: seq<RingOp>) {
    forall i :: 0 <= i < |ops| ==> IsPresplitCall(ops[i])
  }

  /** The second ring comes from the first by presplits and summary updates alone. */
  ghost predicate ByPresplits(ring: RingState, ring': RingState) {
    exists ops :: ArePresplitCalls(ops) && ring' == ring.Run(ops)
  }

  lemma {:induction false} RunAppend(ring: RingState, a: seq<RingOp>, b: seq<RingOp>)
    ensures ring.Run(a + b) == ring.Run(a).Run(b)
    decreases |a|
  {
    if a == [] {
      assert a + b == b;
    } else {
      assert (a + b)[1..] == a[1..] + b;
      RunAppend(ring.Apply(a[0]).0, a[1..], b);
    }
  }

  lemma NoPresplits(ring: RingState)
    ensures ByPresplits(ring, ring)
  {
    assert ring.Run([]) == ring;
  }

  lemma OnePresplitMore(before: RingState, ring: RingState, op: RingOp)
    requires ByPresplits(before, ring) && IsPresplitCall(op)
    ensures ByPresplits(before, ring.Apply(op).0)
  {
    var ops :| ArePresplitCalls(ops) && ring == before.Run(ops);
    RunAppend(before, ops, [op]);
    assert ring.Run([op]) == ring.Apply(op).0.Run([]);
    assert ArePresplitCalls(ops + [op]);
  }

  lemma PresplitsJoin(a: RingState, b: RingState, c: RingState)
    requires ByPresplits(a, b) && ByPresplits(b, c)
    ensures ByPresplits(a, c)
  {
    var first :| ArePresplitCalls(first) && b == a.Run(first);
    var second :| ArePresplitCalls(second) && c == b.Run(second);
    RunAppend(a, first, second);
    assert ArePresplitCalls(first + second);
  }
}
