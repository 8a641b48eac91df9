/** What one call on the ring does to counters and summaries, and what it reports. */
module RingEffects {
  import opened Wrappers
  import opened Hex
  import opened Ring

  /** The entry a call names, whatever the case and the length of the prefix it is given. */
  ghost predicate Names(r: RingState, op: RingOp, i: nat) {
    i < |r.entries| && r.entries[i].prefix == Canonical(Capped(op.prefix))
  }

  /** Inserts count up, deletes count down, and neither wraps around. */
  function CounterAfter(op: RingOp, counter: nat): nat {
    match op
    case Insert(_, _) => Saturate(counter + 1)
    case InsertWithoutSplit(_, _) => Saturate(counter + 1)
    case Delete(_, _) => Saturate(counter - 1)
    case _ => counter
  }

  /** An insert splits a leaf that it makes too full, a presplit an uncounted one that would become so. */
  predicate Splits(r: RingState, op: RingOp, i: nat)
    requires i < |r.entries|
  {
    && r.nodeNames != [] && r.IsLeaf(i) && r.entries[i].prefixLen < 32
    && ((op.Insert? && Saturate(r.entries[i].counter + 1) > r.splitThreshold)
        || (op.Presplit? && r.entries[i].counter == 0 && op.incoming > r.splitThreshold))
  }

  /** A different summary is reported with the one before it, and with the storager if the entry is a leaf. */
  function Report(r: RingState, op: RingOp, i: nat): Option<SummaryChange>
    requires i < |r.entries|
  {
    var e := r.entries[i];
    if op.Presplit? || e.rootSummary == op.summary then None
    else
      var nodeName := if r.IsLeaf(i) && e.ownerRef < |r.nodeNames| then r.nodeNames[e.ownerRef] else "";
      Some(SummaryChange(e.prefix, nodeName, e.rootSummary, op.summary))
  }

  /** The ring after the counter and summary of entry `i` have been set. */
  function Set(r: RingState, op: RingOp, i: nat): RingState
    requires i < |r.entries|
  {
    var e := r.entries[i];
    r.(entries := r.entries[i := e.(
      counter := CounterAfter(op, e.counter), rootSummary := if op.Presplit? then e.rootSummary else op.summary)])
  }

  lemma SetKeepsShape(r: RingState, op: RingOp, i: nat)
    requires i < |r.entries|
    ensures r.SameShape(Set(r, op, i)) && Set(r, op, i).Find(op.prefix) == r.Find(op.prefix)
    ensures Set(r, op, i).CanSplit(i) <==> r.CanSplit(i)
  {
    r.SameShapeKeepsFind(Set(r, op, i), op.prefix);
  }

  /** Counting and setting the summary, one after the other. */
  lemma SummaryIsSet(r: RingState, op: RingOp, i: nat)
    requires r.Find(op.prefix) == Some(i) && i < |r.entries| && !op.Presplit?
    ensures
      var counted := r.SetCounter(i, CounterAfter(op, r.entries[i].counter));
      counted.UpdateSummary(op.prefix, op.summary) == (Set(r, op, i), Report(r, op, i))
  {
    var counted := r.SetCounter(i, CounterAfter(op, r.entries[i].counter));
    assert r.SameShape(counted);
    r.SameShapeKeepsFind(counted, op.prefix);
    assert counted.entries[i := counted.entries[i].(rootSummary := op.summary)]
      == r.entries[i := r.entries[i].(counter := CounterAfter(op, r.entries[i].counter), rootSummary := op.summary)];
    assert counted.SetSummary(i, op.summary).0 == Set(r, op, i);
  }

  lemma NothingToCount(r: RingState, i: nat)
    requires i < |r.entries|
    ensures r.SetCounter(i, r.entries[i].counter) == r
  {
    assert r.entries[i := r.entries[i].(counter := r.entries[i].counter)] == r.entries;
  }

  /** A call is the change of one entry, followed by the split it may call for. */
  lemma ApplyIs(r: RingState, op: RingOp, i: nat)
    requires r.Find(op.prefix) == Some(i) && i < |r.entries|
    ensures
      var (split, event) := if Splits(r, op, i) then (Set(r, op, i).SplitAt(i), Some(r.SplitEventAt(i))) else (Set(r, op, i), None);
      Set(r, op, i).CanSplit(i) == r.CanSplit(i) && r.Apply(op) == (split, Report(r, op, i), event)
  {
    SetKeepsShape(r, op, i);
    if !op.Presplit? {
      SummaryIsSet(r, op, i);
    }
    NothingToCount(r, i);
    assert Set(r, op, i).CanSplit(i) ==> Set(r, op, i).SplitEventAt(i) == r.SplitEventAt(i);
    match op
    case Insert(_, _) =>
    case InsertWithoutSplit(_, _) =>
    case Delete(_, _) =>
    case SetRootSummary(_, _) =>
    case Presplit(_, _) => assert Set(r, op, i) == r;
  }

  /** The entry a call names gets the new counter and summary, the change and the split are reported, and no other entry
      changes. */
  lemma NamedEntryChanges(r: RingState, op: RingOp, i: nat)
    requires r.Forest() && Names(r, op, i)
    ensures
      var (r', change, event) := r.Apply(op);
      && |r'.entries| == |r.entries| + (if Splits(r, op, i) then 16 else 0)
      && r'.entries[i].counter == CounterAfter(op, r.entries[i].counter)
      && r'.entries[i].rootSummary == (if op.Presplit? then r.entries[i].rootSummary else op.summary)
      && change == Report(r, op, i)
      && event == (if Splits(r, op, i) then Some(r.SplitEventAt(i)) else None)
      && (forall j :: 0 <= j < |r.entries| && j != i ==> r'.entries[j] == r.entries[j])
      && (Splits(r, op, i) ==> forall d: Nibble :: r'.entries[|r.entries| + d] == NewChild(r, i, d))
  {
    r.FindInvertsPrefix(op.prefix, i);
    ApplyIs(r, op, i);
    SetKeepsShape(r, op, i);
    if Splits(r, op, i) {
      SplitShape(r, op, i);
    }
  }

  lemma SplitShape(r: RingState, op: RingOp, i: nat)
    requires i < |r.entries| && r.CanSplit(i) && Set(r, op, i).CanSplit(i)
    ensures
      var (counted, split) := (Set(r, op, i), Set(r, op, i).SplitAt(i));
      && |split.entries| == |r.entries| + 16
      && split.entries[i].counter == counted.entries[i].counter && split.entries[i].rootSummary == counted.entries[i].rootSummary
      && (forall j :: 0 <= j < |r.entries| && j != i ==> split.entries[j] == r.entries[j])
      && forall d: Nibble :: split.entries[|r.entries| + d] == NewChild(r, i, d)
  {
    var s := Set(r, op, i);
    forall d: Nibble ensures s.SplitAt(i).entries[|r.entries| + d] == NewChild(r, i, d) {
      assert s.SplitAt(i).entries[|r.entries| + d] == s.ChildEntry(i, d);
    }
  }

  /** A child of a split has counted nothing, and the owners go round from the parent's. */
  function NewChild(r: RingState, i: nat, d: Nibble): Entry
    requires i < |r.entries| && r.nodeNames != []
  {
    var e := r.entries[i];
    Entry(e.prefix + [HexDigit(d)], e.prefixLen + 1, 0, (e.ownerRef + d) % |r.nodeNames|, None, [])
  }

  // ----- the first ring

  /** How many of the first `k` roots a storager owns. */
  function RootsOf(r: RingState, node: nat, k: nat): nat
    requires k <= |r.entries|
  {
    if k == 0 then 0 else RootsOf(r, node, k - 1) + if r.entries[k - 1].ownerRef == node then 1 else 0
  }

  lemma {:induction false} RootsGoRound(nodeNames: seq<string>, len: nat, threshold: nat, node: nat, k: nat)
    requires nodeNames != [] && node < |nodeNames| && k <= Pow16(len)
    ensures
      var (r, n) := (RingState.Initial(nodeNames, len, threshold), |nodeNames|);
      RootsOf(r, node, k) == k / n + if node < k % n then 1 else 0
    decreases k
  {
    if k > 0 {
      RootsGoRound(nodeNames, len, threshold, node, k - 1);
      NextQuotient(k - 1, |nodeNames|);
    }
  }

  lemma NextQuotient(k: nat, n: nat)
    requires n > 0
    ensures k % n < n - 1 ==> (k + 1) / n == k / n && (k + 1) % n == k % n + 1
    ensures k % n == n - 1 ==> (k + 1) / n == k / n + 1 && (k + 1) % n == 0
  {
    var q, m := k / n, k % n;
    assert k == n * q + m;
    if m < n - 1 {
      QuotientIs(k + 1, n, q, m + 1);
    } else {
      assert n * (q + 1) == n * q + n;
      QuotientIs(k + 1, n, q + 1, 0);
    }
  }

  lemma QuotientIs(x: nat, n: nat, q: nat, m: nat)
    requires n > 0 && m < n && x == n * q + m
    ensures x / n == q && x % n == m
  {
    var p, s := x / n, x % n;
    assert x == n * p + s;
    assert n * (p - q) == n * p - n * q;
    NoSmallMultiple(n, p - q);
  }

  lemma NoSmallMultiple(n: int, z: int)
    requires n > 0 && -n < n * z < n
    ensures z == 0
  {}

  /** The first ring shares its roots out evenly: no storager owns more than one root more than another. */
  lemma FirstRingIsEven(nodeNames: seq<string>, len: nat, threshold: nat, a: nat, b: nat)
    requires a < |nodeNames| && b < |nodeNames|
    ensures
      var r := RingState.Initial(nodeNames, len, threshold);
      |r.entries| == Pow16(len) && RootsOf(r, a, |r.entries|) <= RootsOf(r, b, |r.entries|) + 1
  {
    RootsGoRound(nodeNames, len, threshold, a, Pow16(len));
    RootsGoRound(nodeNames, len, threshold, b, Pow16(len));
  }

  lemma UnnamedCallDoesNothing(r: RingState, op: RingOp)
    requires r.Valid() && forall i: nat :: !Names(r, op, i)
    ensures r.Apply(op) == (r, None, None)
  {
    if r.Find(op.prefix).Some? {
      var i := r.Find(op.prefix).value;
      r.FindInvertsPrefix(op.prefix, i);
      assert Names(r, op, i);
    }
  }

  /** A summary that has been stored is not reported again. */
  lemma StoredSummaryIsSilent(r: RingState, op: RingOp)
    requires r.Forest() && !op.Presplit?
    ensures
      var stored, again := r.Apply(op).0, SetRootSummary(op.prefix, op.summary);
      stored.Apply(again) == (stored, None, None)
  {
    var stored, again := r.Apply(op).0, SetRootSummary(op.prefix, op.summary);
    if i: nat :| Names(r, op, i) {
      NamedEntryChanges(r, op, i);
      r.ApplyKeepsForest(op);
      r.ApplySplitsAtMostTheNamedLeaf(op);
      assert Names(stored, again, i);
      stored.FindInvertsPrefix(op.prefix, i);
    } else {
      UnnamedCallDoesNothing(r, op);
      forall i: nat ensures !Names(r, again, i) {
        assert !Names(r, op, i);
      }
      UnnamedCallDoesNothing(r, again);
    }
  }
}
