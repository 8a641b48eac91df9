/** The ring object the router owns: its entry array grows in place, and each method does to the
    fields what the ring value of module `Ring` says. */
module EPRing {
  import opened Wrappers
  import opened Hex
  import opened Ring

  const USIZE_LIMIT: nat := 0x1_0000_0000_0000_0000

  class EPRing {
    var entries: seq<Entry>
    const nodeNames: seq<string>
    const rootPrefixLen: nat
    const splitThreshold: nat

    function State(): RingState
      reads this
    {
      RingState(entries, nodeNames, rootPrefixLen, splitThreshold)
    }

    ghost predicate Valid()
      reads this
    {
      State().Valid()
    }

    constructor (nodeNames: seq<string>, splitThreshold: nat)
      requires |nodeNames| < USIZE_LIMIT
      ensures Valid()
      ensures this.nodeNames == nodeNames && this.splitThreshold == splitThreshold
      ensures nodeNames == [] ==> entries == []
      ensures nodeNames != [] ==>
        && State() == RingState.Initial(nodeNames, rootPrefixLen, splitThreshold)
        && |nodeNames| <= Pow16(rootPrefixLen)
        && (forall len: nat :: len < rootPrefixLen ==> Pow16(len) < |nodeNames|)
    {
      this.nodeNames := nodeNames;
      this.splitThreshold := splitThreshold;
      if nodeNames == [] {
        rootPrefixLen := 0;
        entries := [];
      } else {
        var len := MinimalPrefixLen(|nodeNames|);
        var roots: seq<Entry> := [];
        var idx := 0;
        while idx < Pow16(len)
          invariant idx <= Pow16(len) && |roots| == idx
          invariant forall i :: 0 <= i < idx ==>
            roots[i] == Entry(FormatPrefix(i, len), len, 0, i % |nodeNames|, None, [])
        {
          roots := roots + [Entry(FormatPrefix(idx, len), len, 0, idx % |nodeNames|, None, [])];
          idx := idx + 1;
        }
        rootPrefixLen := len;
        entries := roots;
        assert roots == RingState.Initial(nodeNames, len, splitThreshold).entries;
        RingState.InitialIsForest(nodeNames, len, splitThreshold);
      }
    }

    static method MinimalPrefixLen(nodeCount: nat) returns (prefixLen: nat)
      requires nodeCount < USIZE_LIMIT
      ensures nodeCount <= Pow16(prefixLen) && prefixLen <= MAX_PREFIX_LEN
      ensures forall len: nat :: len < prefixLen ==> Pow16(len) < nodeCount
    {
      prefixLen := 0;
      var capacity := 1;
      while capacity < nodeCount
        invariant capacity == Pow16(prefixLen) && prefixLen <= 16
        invariant forall len: nat :: len < prefixLen ==> Pow16(len) < nodeCount
        decreases 16 - prefixLen
      {
        Pow16OfSixteen(prefixLen);
        prefixLen := prefixLen + 1;
        capacity := capacity * 16;
      }
    }

    static lemma {:induction false} Pow16OfSixteen(k: nat)
      requires k <= 16
      ensures Pow16(16) == USIZE_LIMIT
      ensures k == 16 ==> Pow16(k) == USIZE_LIMIT
    {
      assert Pow16(4) == 0x1_0000;
      assert Pow16(8) == 0x1_0000_0000;
      assert Pow16(12) == 0x1_0000_0000_0000;
    }

    method SplitEntry(entryIndex: nat) returns (event: Option<SplitEvent>)
      requires Valid()
      modifies this
      ensures Valid()
      ensures (State(), event) == old(State()).TrySplit(entryIndex)
    {
      if nodeNames == [] || entryIndex >= |entries| || entries[entryIndex].splitChildStart.Some? {
        return None;
      }
      ghost var before := State();
      var parent := entries[entryIndex];
      if parent.prefixLen >= MAX_PREFIX_LEN {
        return None;
      }
      before.SplitKeepsForest(entryIndex);
      var originalOwner := parent.ownerRef;
      var childStart := |entries|;
      var childRoutes: seq<Route> := [];
      var digit: nat := 0;
      while digit < 16
        invariant digit <= 16 && |childRoutes| == digit && |entries| == childStart + digit
        invariant entries[..childStart] == before.entries
        invariant forall d :: 0 <= d < digit ==>
          && entries[childStart + d] == before.ChildEntry(entryIndex, d)
          && childRoutes[d] == Route(childStart + d, (originalOwner + d) % |nodeNames|)
      {
        var nodeIndex := (originalOwner + digit) % |nodeNames|;
        entries := entries +
          [Entry(parent.prefix + [HexDigit(digit)], parent.prefixLen + 1, 0, nodeIndex, None, [])];
        childRoutes := childRoutes + [Route(childStart + digit, nodeIndex)];
        digit := digit + 1;
      }
      entries := entries[entryIndex :=
        entries[entryIndex].(ownerRef := childStart, splitChildStart := Some(childStart))];
      assert entries == before.SplitAt(entryIndex).entries;
      assert childRoutes == before.SplitEventAt(entryIndex).childRoutes;
      event := Some(SplitEvent(entryIndex, originalOwner, childRoutes));
    }

    method MaybePresplitEmptyPrefix(prefix: string, incomingCount: nat) returns (event: Option<SplitEvent>)
      requires Valid()
      modifies this
      ensures Valid()
      ensures (State(), None, event) == old(State()).Apply(Presplit(prefix, incomingCount))
    {
      var index := FindEntryIndex(prefix);
      if index.None? || index.value >= |entries| {
        return None;
      }
      var entry := entries[index.value];
      if entry.counter != 0 || incomingCount <= splitThreshold || entry.splitChildStart.Some? {
        return None;
      }
      event := SplitEntry(index.value);
    }

    /** Routes a hexadecimal key. A key that ends before the leaf it leads to makes the original
        index past its end; 32-digit keys never do. */
    method RouteKeyHex(keyHex: string) returns (route: Option<Route>)
      requires Valid()
      requires |keyHex| < rootPrefixLen ||
        forall i :: 0 <= i < |entries| && entries[i].splitChildStart.Some? ==> entries[i].prefixLen < |keyHex|
      ensures entries == [] || |keyHex| < rootPrefixLen ==> route == None
      ensures entries != [] && |keyHex| >= rootPrefixLen ==>
        && route.Some? && State().IsLeaf(route.value.entryIndex)
        && route.value.nodeIndex == entries[route.value.entryIndex].ownerRef < |nodeNames|
        && entries[route.value.entryIndex].prefix <= Canonical(keyHex)
      ensures entries != [] && |keyHex| == MAX_PREFIX_LEN ==>
        route.Some? && route.value.entryIndex == State().LeafOf(Canonical(keyHex))
    {
      if entries == [] || |Capped(keyHex)| < rootPrefixLen {
        assert entries != [] ==> State().EntryOk(0);
        return None;
      }
      assert State().EntryOk(0);
      ghost var canonical := Canonical(keyHex);
      var index := RootEntryIndexFromPrefix(keyHex, rootPrefixLen);
      RootIndexIsCanonical(keyHex);
      State().RootMatches(canonical);
      var entryIndex := index.value;
      while entries[entryIndex].splitChildStart.Some?
        invariant entryIndex < |entries| && entries[entryIndex].prefix <= canonical
        decreases |entries| - entryIndex
      {
        RoutingStep(keyHex, entryIndex);
        var childDigit := HexNibble(keyHex[entries[entryIndex].prefixLen]);
        entryIndex := entries[entryIndex].splitChildStart.value + childDigit;
      }
      assert State().EntryOk(entryIndex);
      if |keyHex| == MAX_PREFIX_LEN {
        State().RouteIsUnique(canonical, entryIndex);
      }
      route := Some(Route(entryIndex, entries[entryIndex].ownerRef));
    }

    /** The digit after a split entry's prefix leads to a later entry that still matches the key. */
    lemma RoutingStep(keyHex: string, entryIndex: nat)
      requires State().Forest() && State().IsSplit(entryIndex)
      requires entries[entryIndex].prefix <= Canonical(keyHex)
      requires entries[entryIndex].prefixLen < |keyHex|
      ensures entries[entryIndex].prefixLen < MAX_PREFIX_LEN
      ensures
        var child := entries[entryIndex].splitChildStart.value + HexNibble(keyHex[entries[entryIndex].prefixLen]);
        entryIndex < child < |entries| && entries[child].prefix <= Canonical(keyHex)
    {
      assert State().EntryOk(entryIndex);
      State().ChildMatches(entryIndex, Canonical(keyHex));
      assert HexNibble(Canonical(keyHex)[entries[entryIndex].prefixLen]) == HexNibble(keyHex[entries[entryIndex].prefixLen]);
    }

    lemma RootIndexIsCanonical(prefix: string)
      requires State().Forest() && rootPrefixLen <= |Capped(prefix)|
      ensures Value(Canonical(prefix)[..rootPrefixLen]) == Value(Capped(prefix[..rootPrefixLen]))
      ensures Value(Canonical(Capped(prefix))[..rootPrefixLen]) == Value(Capped(prefix[..rootPrefixLen]))
    {
      assert State().EntryOk(0);
      ValueOfCanonical(prefix[..rootPrefixLen]);
      assert Canonical(prefix)[..rootPrefixLen] == Canonical(prefix[..rootPrefixLen]);
      assert Canonical(Capped(prefix))[..rootPrefixLen] == Canonical(prefix[..rootPrefixLen]);
    }

    method RouteKeyword(keyword: Keyword) returns (route: Option<Route>)
      requires Valid()
      ensures route.None? <==> nodeNames == []
      ensures route.Some? ==>
        && route.value.entryIndex == State().LeafOf(keyword.Key())
        && route.value.nodeIndex == State().OwnerOf(keyword.Key())
    {
      forall i | 0 <= i < |entries| && entries[i].splitChildStart.Some? ensures entries[i].prefixLen < MAX_PREFIX_LEN {
        assert State().EntryOk(i);
      }
      CanonicalOfLowerHex(keyword.Key());
      assert entries != [] ==> State().EntryOk(0);
      route := RouteKeyHex(keyword.Key());
    }

    static method RootEntryIndexFromPrefix(prefix: string, len: nat) returns (index: Option<nat>)
      ensures index == if |prefix| < len then None else Some(Value(Capped(prefix[..len])))
    {
      if len == 0 {
        assert prefix[..0] == "";
        return Some(0);
      }
      if |prefix| < len {
        return None;
      }
      var value := 0;
      var taken := if len < MAX_PREFIX_LEN then len else MAX_PREFIX_LEN;
      for i := 0 to taken
        invariant value == Value(prefix[..i])
      {
        value := 16 * value + HexNibble(prefix[i]);
        assert prefix[..i + 1][..i] == prefix[..i];
      }
      assert prefix[..taken] == Capped(prefix[..len]);
      index := Some(value);
    }

    method FindEntryIndex(prefix: string) returns (index: Option<nat>)
      requires Valid()
      ensures index == State().Find(prefix)
      ensures index.Some? ==> index.value < |entries|
    {
      if entries == [] {
        return None;
      }
      var capped := Capped(prefix);
      if |capped| < rootPrefixLen {
        return None;
      }
      ghost var ring := State();
      ghost var canonical := Canonical(capped);
      var root := RootEntryIndexFromPrefix(prefix, rootPrefixLen);
      RootIndexIsCanonical(prefix);
      var entryIndex: nat := root.value;
      for depth := rootPrefixLen to |capped|
        invariant ring.Find(prefix) == ring.FindFrom(entryIndex, canonical, depth)
      {
        if entryIndex >= |entries| || entries[entryIndex].splitChildStart.None? {
          return None;
        }
        var nibble := HexNibble(prefix[depth]);
        assert HexNibble(canonical[depth]) == nibble;
        entryIndex := entries[entryIndex].splitChildStart.value + nibble;
      }
      ring.FindInvertsPrefix(prefix, entryIndex);
      index := Some(entryIndex);
    }

    method UpdateEntrySummary(entryIndex: nat, rootSummary: seq<Byte>) returns (change: Option<SummaryChange>)
      requires Valid() && entryIndex < |entries|
      modifies this
      ensures Valid()
      ensures (State(), change) == old(State()).SetSummary(entryIndex, rootSummary)
    {
      var entry := entries[entryIndex];
      if entry.rootSummary == rootSummary {
        return None;
      }
      var nodeName := if entry.splitChildStart.Some? || entry.ownerRef >= |nodeNames| then ""
                      else nodeNames[entry.ownerRef];
      ghost var before := State();
      entries := entries[entryIndex := entry.(rootSummary := rootSummary)];
      assert before.SameShape(State());
      before.SameShapeKeepsForest(State());
      change := Some(SummaryChange(entry.prefix, nodeName, entry.rootSummary, rootSummary));
    }

    method UpdateRootSummaryWithChange(prefix: string, rootSummary: seq<Byte>)
      returns (change: Option<SummaryChange>)
      requires Valid()
      modifies this
      ensures Valid()
      ensures (State(), change, None) == old(State()).Apply(SetRootSummary(prefix, rootSummary))
    {
      var index := FindEntryIndex(prefix);
      if index.None? {
        return None;
      }
      change := UpdateEntrySummary(index.value, rootSummary);
    }

    method AddToCounter(entryIndex: nat, delta: int)
      requires Valid() && entryIndex < |entries|
      modifies this
      ensures Valid()
      ensures State() == old(State()).SetCounter(entryIndex, Saturate(old(entries)[entryIndex].counter + delta))
    {
      ghost var before := State();
      var entry := entries[entryIndex];
      entries := entries[entryIndex := entry.(counter := Saturate(entry.counter + delta))];
      assert before.SameShape(State());
      before.SameShapeKeepsForest(State());
    }

    method RecordInsertWithChange(prefix: string, rootSummary: seq<Byte>)
      returns (change: Option<SummaryChange>, split: Option<SplitEvent>)
      requires Valid()
      modifies this
      ensures Valid()
      ensures (State(), change, split) == old(State()).Apply(Insert(prefix, rootSummary))
    {
      ghost var before := State();
      var index := FindEntryIndex(prefix);
      if index.None? {
        return None, None;
      }
      AddToCounter(index.value, 1);
      before.CountKeepsShape(prefix, 1);
      change := UpdateEntrySummary(index.value, rootSummary);
      before.Count(prefix, 1).UpdateSummaryKeepsShape(prefix, rootSummary);
      if entries[index.value].counter > splitThreshold {
        split := SplitEntry(index.value);
      } else {
        split := None;
      }
    }

    method RecordInsertWithoutSplitWithChange(prefix: string, rootSummary: seq<Byte>)
      returns (change: Option<SummaryChange>)
      requires Valid()
      modifies this
      ensures Valid()
      ensures (State(), change, None) == old(State()).Apply(InsertWithoutSplit(prefix, rootSummary))
    {
      ghost var before := State();
      var index := FindEntryIndex(prefix);
      if index.None? {
        return None;
      }
      AddToCounter(index.value, 1);
      before.CountKeepsShape(prefix, 1);
      change := UpdateEntrySummary(index.value, rootSummary);
    }

    method RecordDeleteWithChange(prefix: string, rootSummary: seq<Byte>)
      returns (change: Option<SummaryChange>)
      requires Valid()
      modifies this
      ensures Valid()
      ensures (State(), change, None) == old(State()).Apply(Delete(prefix, rootSummary))
    {
      ghost var before := State();
      var index := FindEntryIndex(prefix);
      if index.None? {
        return None;
      }
      AddToCounter(index.value, -1);
      before.CountKeepsShape(prefix, -1);
      change := UpdateEntrySummary(index.value, rootSummary);
    }
  }
}
