/** The expandable prefix ring as a value: a forest of hexadecimal prefixes stored in one array, in
    which a split leaf points at sixteen consecutive children. */
module Ring {
  import opened Wrappers
  import opened Hex

  const U64_MAX: nat := 0xFFFF_FFFF_FFFF_FFFF

  datatype Entry = Entry(
    prefix: string, prefixLen: nat, counter: nat, ownerRef: nat,
    splitChildStart: Option<nat>, rootSummary: seq<Byte>)

  datatype Route = Route(entryIndex: nat, nodeIndex: nat)

  datatype SplitEvent = SplitEvent(parentEntryIndex: nat, originalOwnerIndex: nat, childRoutes: seq<Route>)

  datatype SummaryChange = SummaryChange(
    prefix: string, nodeName: string, oldSummary: seq<Byte>, newSummary: seq<Byte>)

  /** The calls the router makes on the ring. */
  datatype RingOp =
    | Insert(prefix: string, summary: seq<Byte>)
    | InsertWithoutSplit(prefix: string, summary: seq<Byte>)
    | Delete(prefix: string, summary: seq<Byte>)
    | SetRootSummary(prefix: string, summary: seq<Byte>)
    | Presplit(prefix: string, incoming: nat)

  /** Saturating 64-bit counters. */
  function Saturate(n: int): nat {
    if n < 0 then 0 else if n > U64_MAX then U64_MAX else n
  }

  datatype RingState = RingState(
    entries: seq<Entry>, nodeNames: seq<string>, rootPrefixLen: nat, splitThreshold: nat)
  {
    predicate IsSplit(i: nat) {
      i < |entries| && entries[i].splitChildStart.Some?
    }

    predicate IsLeaf(i: nat) {
      i < |entries| && entries[i].splitChildStart.None?
    }

    predicate IsChild(parent: nat, j: nat) {
      IsSplit(parent) && entries[parent].splitChildStart.value <= j < entries[parent].splitChildStart.value + 16
    }

    ghost predicate HasParent(j: nat) {
      exists i :: 0 <= i < j && IsChild(i, j)
    }

    predicate ChildOk(start: nat, parentPrefix: string, d: Nibble) {
      start + d < |entries| && entries[start + d].prefix == parentPrefix + [HexDigit(d)]
    }

    ghost predicate EntryOk(i: nat)
      requires i < |entries|
    {
      var e := entries[i];
      && e.prefixLen == |e.prefix|
      && rootPrefixLen <= |e.prefix| <= MAX_PREFIX_LEN
      && LowerHex(e.prefix)
      && match e.splitChildStart
         case None => e.ownerRef < |nodeNames|
         case Some(start) =>
           && e.ownerRef == start
           && |e.prefix| < MAX_PREFIX_LEN
           && i < start && Pow16(rootPrefixLen) <= start && start + 16 <= |entries|
           && forall d: Nibble :: ChildOk(start, e.prefix, d)
    }

    /** The array is a complete sixteen-ary forest: the roots are all prefixes of the root length, in
        order, and every other entry is one of the sixteen children of exactly one earlier entry. */
    ghost predicate Forest() {
      && nodeNames != []
      && Pow16(rootPrefixLen) <= |entries|
      && (forall i :: 0 <= i < |entries| ==> EntryOk(i))
      && (forall i {:trigger FormatPrefix(i, rootPrefixLen)} :: 0 <= i < Pow16(rootPrefixLen) ==>
           entries[i].prefix == FormatPrefix(i, rootPrefixLen))
      && (forall j :: Pow16(rootPrefixLen) <= j < |entries| ==> HasParent(j))
    }

    /** A ring without storagers has no entries at all. */
    ghost predicate Valid() {
      Forest() || (nodeNames == [] && entries == [] && rootPrefixLen == 0)
    }

    /** Following the children of a key's digits downwards from entry `i`. */
    ghost function Descend(i: nat, key: string): nat
      requires Forest() && i < |entries| && |key| == MAX_PREFIX_LEN
      decreases |entries| - i
    {
      assert EntryOk(i);
      match entries[i].splitChildStart
      case None => i
      case Some(start) => Descend(start + HexNibble(key[entries[i].prefixLen]), key)
    }

    ghost function RootOf(key: string): (i: nat)
      requires Forest() && |key| == MAX_PREFIX_LEN
      ensures i < |entries|
    {
      assert EntryOk(0);
      Value(key[..rootPrefixLen])
    }

    /** The leaf a key routes to. */
    ghost function LeafOf(key: string): nat
      requires Forest() && |key| == MAX_PREFIX_LEN
    {
      Descend(RootOf(key), key)
    }

    /** The storager a key routes to. */
    ghost function OwnerOf(key: string): nat
      requires Forest() && |key| == MAX_PREFIX_LEN && LowerHex(key)
    {
      var leaf := LeafOf(key);
      RouteIsUnique(key, leaf);
      entries[leaf].ownerRef
    }

    /** Following the digits of `prefix` from position `depth` downwards from entry `i`. */
    function FindFrom(i: nat, prefix: string, depth: nat): Option<nat>
      decreases |prefix| - depth
    {
      if depth >= |prefix| then Some(i)
      else if IsSplit(i) then FindFrom(entries[i].splitChildStart.value + HexNibble(prefix[depth]), prefix, depth + 1)
      else None
    }

    /** The entry whose prefix is `prefix`. */
    function FindEntry(prefix: string): Option<nat> {
      if |prefix| < rootPrefixLen then None
      else FindFrom(Value(prefix[..rootPrefixLen]), prefix, rootPrefixLen)
    }

    /** The first sixteen-way forest over the storagers. */
    static function Initial(nodeNames: seq<string>, rootPrefixLen: nat, splitThreshold: nat): RingState
      requires nodeNames != []
    {
      var roots := seq(Pow16(rootPrefixLen), i requires 0 <= i < Pow16(rootPrefixLen) =>
        Entry(FormatPrefix(i, rootPrefixLen), rootPrefixLen, 0, i % |nodeNames|, None, []));
      RingState(roots, nodeNames, rootPrefixLen, splitThreshold)
    }

    function ChildEntry(parent: nat, d: Nibble): Entry
      requires parent < |entries| && nodeNames != []
    {
      var p := entries[parent];
      Entry(p.prefix + [HexDigit(d)], p.prefixLen + 1, 0, (p.ownerRef + d) % |nodeNames|, None, [])
    }

    predicate CanSplit(i: nat) {
      nodeNames != [] && IsLeaf(i) && entries[i].prefixLen < MAX_PREFIX_LEN
    }

    /** The ring after leaf `i` has received its sixteen children. */
    function SplitAt(i: nat): RingState
      requires CanSplit(i)
    {
      var start := |entries|;
      var children := seq(16, d requires 0 <= d < 16 => ChildEntry(i, d));
      this.(entries := entries[i := entries[i].(ownerRef := start, splitChildStart := Some(start))] + children)
    }

    function SplitEventAt(i: nat): SplitEvent
      requires CanSplit(i)
    {
      SplitEvent(i, entries[i].ownerRef,
        seq(16, d requires 0 <= d < 16 => Route(|entries| + d, (entries[i].ownerRef + d) % |nodeNames|)))
    }

    function TrySplit(i: nat): (RingState, Option<SplitEvent>) {
      if CanSplit(i) then (SplitAt(i), Some(SplitEventAt(i))) else (this, None)
    }

    function SetSummary(i: nat, summary: seq<Byte>): (RingState, Option<SummaryChange>)
      requires i < |entries|
    {
      var e := entries[i];
      if e.rootSummary == summary then (this, None)
      else
        var nodeName := if e.splitChildStart.Some? || e.ownerRef >= |nodeNames| then "" else nodeNames[e.ownerRef];
        (this.(entries := entries[i := e.(rootSummary := summary)]),
         Some(SummaryChange(e.prefix, nodeName, e.rootSummary, summary)))
    }

    function SetCounter(i: nat, counter: nat): RingState
      requires i < |entries|
    {
      this.(entries := entries[i := entries[i].(counter := counter)])
    }

    /** `find_entry_index`: looks up at most the first 32 digits, whatever their case. */
    function Find(prefix: string): (r: Option<nat>) {
      if entries == [] then None else FindEntry(Canonical(Capped(prefix)))
    }

    // ----- the operations callers apply

    function UpdateSummary(prefix: string, summary: seq<Byte>): (RingState, Option<SummaryChange>) {
      match Find(prefix)
      case None => (this, None)
      case Some(i) => if i < |entries| then SetSummary(i, summary) else (this, None)
    }

    function Count(prefix: string, delta: int): RingState {
      match Find(prefix)
      case None => this
      case Some(i) => if i < |entries| then SetCounter(i, Saturate(entries[i].counter + delta)) else this
    }

    function SplitFull(prefix: string): (RingState, Option<SplitEvent>) {
      match Find(prefix)
      case None => (this, None)
      case Some(i) => if i < |entries| && entries[i].counter > splitThreshold then TrySplit(i) else (this, None)
    }

    function PresplitEmpty(prefix: string, incoming: nat): (RingState, Option<SplitEvent>) {
      match Find(prefix)
      case None => (this, None)
      case Some(i) =>
        if i < |entries| && entries[i].counter == 0 && incoming > splitThreshold then TrySplit(i) else (this, None)
    }

    /** One call from the router: the new ring, the reported summary change and the reported split. */
    function Apply(op: RingOp): (RingState, Option<SummaryChange>, Option<SplitEvent>) {
      match op
      case Insert(prefix, summary) =>
        var (updated, change) := Count(prefix, 1).UpdateSummary(prefix, summary);
        var (split, event) := updated.SplitFull(prefix);
        (split, change, event)
      case InsertWithoutSplit(prefix, summary) =>
        var (updated, change) := Count(prefix, 1).UpdateSummary(prefix, summary);
        (updated, change, None)
      case Delete(prefix, summary) =>
        var (updated, change) := Count(prefix, -1).UpdateSummary(prefix, summary);
        (updated, change, None)
      case SetRootSummary(prefix, summary) =>
        var (updated, change) := UpdateSummary(prefix, summary);
        (updated, change, None)
      case Presplit(prefix, incoming) =>
        var (split, event) := PresplitEmpty(prefix, incoming);
        (split, None, event)
    }

    function Run(ops: seq<RingOp>): RingState
      decreases |ops|
    {
      if ops == [] then this else Apply(ops[0]).0.Run(ops[1..])
    }

    // ----- the routing theorem

    /** The split entry a non-root entry is a child of, with the digit that leads to it. */
    lemma ParentOf(j: nat) returns (i: nat)
      requires Forest() && Pow16(rootPrefixLen) <= j < |entries|
      ensures i < j && IsSplit(i) && 0 <= j - entries[i].splitChildStart.value < 16
      ensures entries[j].prefix == entries[i].prefix + [HexDigit(j - entries[i].splitChildStart.value)]
      ensures entries[i].prefixLen == |entries[i].prefix|
    {
      assert HasParent(j);
      i :| 0 <= i < j && IsChild(i, j);
      assert EntryOk(i);
      assert ChildOk(entries[i].splitChildStart.value, entries[i].prefix, j - entries[i].splitChildStart.value);
    }

    /** Every entry whose prefix begins the key is on the key's way down. */
    lemma {:induction false} OnTheWay(j: nat, key: string)
      requires Forest() && j < |entries|
      requires |key| == MAX_PREFIX_LEN && LowerHex(key) && entries[j].prefix <= key
      ensures LeafOf(key) == Descend(j, key)
    {
      assert EntryOk(j);
      if j < Pow16(rootPrefixLen) {
        assert key[..rootPrefixLen] == FormatPrefix(j, rootPrefixLen);
        ValueOfFormat(j, rootPrefixLen);
      } else {
        var i := ParentOf(j);
        assert key[entries[i].prefixLen] == entries[j].prefix[entries[i].prefixLen];
        OnTheWay(i, key);
      }
    }

    /** Every key at least as long as the root prefixes begins with exactly one of them. */
    lemma RootMatches(key: string)
      requires Forest() && LowerHex(key) && |key| >= rootPrefixLen
      ensures Value(key[..rootPrefixLen]) < |entries|
      ensures entries[Value(key[..rootPrefixLen])].prefix == key[..rootPrefixLen] <= key
    {
      FormatOfValue(key[..rootPrefixLen]);
    }

    /** One step down the forest stays on the key. */
    lemma ChildMatches(i: nat, key: string)
      requires Forest() && IsSplit(i)
      requires LowerHex(key) && entries[i].prefix <= key && entries[i].prefixLen == |entries[i].prefix| < |key|
      ensures
        var child := entries[i].splitChildStart.value + HexNibble(key[entries[i].prefixLen]);
        i < child < |entries| && entries[child].prefix <= key
    {
      assert EntryOk(i);
      var len := |entries[i].prefix|;
      var d := HexNibble(key[len]);
      NibbleInjective(HexDigit(d), key[len]);
      assert ChildOk(entries[i].splitChildStart.value, entries[i].prefix, d);
    }

    lemma {:induction false} DescendLands(i: nat, key: string)
      requires Forest() && i < |entries|
      requires |key| == MAX_PREFIX_LEN && LowerHex(key) && entries[i].prefix <= key
      ensures IsLeaf(Descend(i, key)) && entries[Descend(i, key)].prefix <= key
      decreases |entries| - i
    {
      assert EntryOk(i);
      if IsSplit(i) {
        ChildMatches(i, key);
        DescendLands(entries[i].splitChildStart.value + HexNibble(key[entries[i].prefixLen]), key);
      }
    }

    lemma {:induction false} DescendDeepens(i: nat, key: string)
      requires Forest() && i < |entries| && |key| == MAX_PREFIX_LEN && LowerHex(key) && entries[i].prefix <= key
      ensures Descend(i, key) < |entries|
      ensures |entries[Descend(i, key)].prefix| >= |entries[i].prefix| + if IsSplit(i) then 1 else 0
      decreases |entries| - i
    {
      assert EntryOk(i);
      if IsSplit(i) {
        ChildMatches(i, key);
        var child := entries[i].splitChildStart.value + HexNibble(key[entries[i].prefixLen]);
        assert ChildOk(entries[i].splitChildStart.value, entries[i].prefix, HexNibble(key[entries[i].prefixLen]));
        DescendDeepens(child, key);
      }
    }

    /** A key routes to a leaf if and only if that leaf's prefix begins the key. */
    lemma RouteIsUnique(key: string, leaf: nat)
      requires Forest() && |key| == MAX_PREFIX_LEN && LowerHex(key)
      ensures LeafOf(key) == leaf <==> IsLeaf(leaf) && entries[leaf].prefix <= key
      ensures IsLeaf(LeafOf(key)) && entries[LeafOf(key)].ownerRef < |nodeNames|
    {
      var root := RootOf(key);
      assert EntryOk(root);
      RootMatches(key);
      DescendLands(root, key);
      assert EntryOk(LeafOf(key));
      if IsLeaf(leaf) && entries[leaf].prefix <= key {
        OnTheWay(leaf, key);
      }
    }

    /** The same theorem for the test the manager applies to keywords. */
    lemma RouteIsTheMatchingLeaf(keyword: Keyword, leaf: nat)
      requires Forest()
      ensures LeafOf(keyword.Key()) == leaf <==> IsLeaf(leaf) && KeywordMatchesPrefix(keyword, entries[leaf].prefix)
    {
      RouteIsUnique(keyword.Key(), leaf);
      if leaf < |entries| {
        assert EntryOk(leaf);
        MatchIsStringPrefix(keyword, entries[leaf].prefix);
      }
    }

    // ----- finding entries

    lemma {:induction false} FindFromIsSound(i: nat, prefix: string, depth: nat)
      requires Forest() && LowerHex(prefix) && depth <= |prefix|
      requires i < |entries| && entries[i].prefix == prefix[..depth]
      ensures
        var found := FindFrom(i, prefix, depth);
        found.Some? ==> found.value < |entries| && entries[found.value].prefix == prefix
      decreases |prefix| - depth
    {
      if depth == |prefix| {
        assert prefix[..depth] == prefix;
      } else if IsSplit(i) {
        assert EntryOk(i);
        ChildMatches(i, prefix);
        var child := entries[i].splitChildStart.value + HexNibble(prefix[depth]);
        assert ChildOk(entries[i].splitChildStart.value, entries[i].prefix, HexNibble(prefix[depth]));
        FindFromIsSound(child, prefix, depth + 1);
      }
    }

    /** A lookup passes through every entry whose prefix begins the string looked up. */
    lemma {:induction false} FindPasses(j: nat, prefix: string)
      requires Forest() && j < |entries|
      requires LowerHex(prefix) && entries[j].prefix <= prefix
      ensures FindEntry(prefix) == FindFrom(j, prefix, |entries[j].prefix|)
    {
      assert EntryOk(j);
      if j < Pow16(rootPrefixLen) {
        assert prefix[..rootPrefixLen] == FormatPrefix(j, rootPrefixLen);
        ValueOfFormat(j, rootPrefixLen);
      } else {
        var i := ParentOf(j);
        FindPasses(i, prefix);
      }
    }

    /** Looking a prefix up inverts reading an entry's prefix, for every string a caller may pass. */
    lemma FindInvertsPrefix(prefix: string, i: nat)
      requires Valid()
      ensures Find(prefix) == Some(i) <==> i < |entries| && entries[i].prefix == Canonical(Capped(prefix))
    {
      if Forest() {
        var p := Canonical(Capped(prefix));
        assert EntryOk(0);
        if |p| >= rootPrefixLen {
          RootMatches(p);
          FindFromIsSound(Value(p[..rootPrefixLen]), p, rootPrefixLen);
        }
        if i < |entries| && entries[i].prefix == p {
          assert EntryOk(i);
          FindPasses(i, p);
        }
      }
    }

    // ----- what changes preserve

    /** Same prefixes, children and owners: only counters and summaries may differ. */
    ghost predicate SameShape(r: RingState) {
      && nodeNames == r.nodeNames && rootPrefixLen == r.rootPrefixLen && splitThreshold == r.splitThreshold
      && |entries| == |r.entries|
      && forall i :: 0 <= i < |entries| ==>
           && entries[i].prefix == r.entries[i].prefix
           && entries[i].prefixLen == r.entries[i].prefixLen
           && entries[i].ownerRef == r.entries[i].ownerRef
           && entries[i].splitChildStart == r.entries[i].splitChildStart
    }

    lemma SameShapeKeepsForest(r: RingState)
      requires Forest() && SameShape(r)
      ensures r.Forest()
    {
      forall i | 0 <= i < |r.entries| ensures r.EntryOk(i) {
        assert EntryOk(i);
        if entries[i].splitChildStart.Some? {
          forall d: Nibble ensures r.ChildOk(entries[i].splitChildStart.value, entries[i].prefix, d) {
            assert ChildOk(entries[i].splitChildStart.value, entries[i].prefix, d);
          }
        }
      }
      forall j | Pow16(r.rootPrefixLen) <= j < |r.entries| ensures r.HasParent(j) {
        assert HasParent(j);
        var i :| 0 <= i < j && IsChild(i, j);
        assert r.IsChild(i, j);
      }
    }

    lemma SameShapeKeepsRoutes(r: RingState, key: string)
      requires Forest() && SameShape(r) && r.Forest()
      requires |key| == MAX_PREFIX_LEN && LowerHex(key)
      ensures r.LeafOf(key) == LeafOf(key) && r.OwnerOf(key) == OwnerOf(key)
    {
      RouteIsUnique(key, LeafOf(key));
      r.RouteIsUnique(key, LeafOf(key));
    }

    lemma SplitKeepsEntryOk(i: nat, j: nat)
      requires Forest() && CanSplit(i) && j < |SplitAt(i).entries|
      ensures SplitAt(i).EntryOk(j)
    {
      var r := SplitAt(i);
      assert EntryOk(i);
      if j == i {
        forall d: Nibble ensures r.ChildOk(|entries|, entries[i].prefix, d) {
          assert r.entries[|entries| + d] == ChildEntry(i, d);
        }
      } else if j < |entries| {
        assert EntryOk(j);
        if entries[j].splitChildStart.Some? {
          forall d: Nibble ensures r.ChildOk(entries[j].splitChildStart.value, entries[j].prefix, d) {
            assert ChildOk(entries[j].splitChildStart.value, entries[j].prefix, d);
          }
        }
      } else {
        assert r.entries[j] == ChildEntry(i, j - |entries|);
      }
    }

    lemma SplitKeepsParents(i: nat, j: nat)
      requires Forest() && CanSplit(i) && Pow16(rootPrefixLen) <= j < |SplitAt(i).entries|
      ensures SplitAt(i).HasParent(j)
    {
      var r := SplitAt(i);
      if j < |entries| {
        assert HasParent(j);
        var k :| 0 <= k < j && IsChild(k, j);
        assert r.IsChild(k, j);
      } else {
        assert r.IsChild(i, j);
      }
    }

    lemma SplitKeepsForest(i: nat)
      requires Forest() && CanSplit(i)
      ensures SplitAt(i).Forest()
    {
      var r := SplitAt(i);
      forall j | 0 <= j < |r.entries| ensures r.EntryOk(j) {
        SplitKeepsEntryOk(i, j);
      }
      forall j | Pow16(r.rootPrefixLen) <= j < |r.entries| ensures r.HasParent(j) {
        SplitKeepsParents(i, j);
      }
    }

    /** A split re-routes exactly the keys under the split prefix: digit `d` below it goes to owner
        `(old + d) mod n`, and every other key keeps its leaf and its owner. */
    lemma SplitIsLocal(i: nat, key: string)
      requires Forest() && CanSplit(i) && SplitAt(i).Forest()
      requires |key| == MAX_PREFIX_LEN && LowerHex(key)
      ensures entries[i].prefix <= key ==>
        var d := DigitAt(key, |entries[i].prefix|);
        LeafOf(key) == i
        && SplitAt(i).LeafOf(key) == |entries| + d
        && SplitAt(i).OwnerOf(key) == (OwnerOf(key) + d) % |nodeNames|
      ensures !(entries[i].prefix <= key) ==>
        LeafOf(key) != i && SplitAt(i).LeafOf(key) == LeafOf(key) && SplitAt(i).OwnerOf(key) == OwnerOf(key)
    {
      var r := SplitAt(i);
      assert EntryOk(i);
      RouteIsUnique(key, i);
      RouteIsUnique(key, LeafOf(key));
      if entries[i].prefix <= key {
        var len := |entries[i].prefix|;
        var d := HexNibble(key[len]);
        NibbleInjective(HexDigit(d), key[len]);
        assert entries[i].prefix + [key[len]] <= key;
        assert r.entries[|entries| + d] == ChildEntry(i, d);
        r.RouteIsUnique(key, |entries| + d);
      } else {
        r.RouteIsUnique(key, LeafOf(key));
      }
    }

    lemma CountKeepsShape(prefix: string, delta: int)
      ensures SameShape(Count(prefix, delta))
      ensures Count(prefix, delta).Find(prefix) == Find(prefix)
    {
      SameShapeKeepsFind(Count(prefix, delta), prefix);
    }

    lemma UpdateSummaryKeepsShape(prefix: string, summary: seq<Byte>)
      ensures SameShape(UpdateSummary(prefix, summary).0)
      ensures UpdateSummary(prefix, summary).0.Find(prefix) == Find(prefix)
    {
      SameShapeKeepsFind(UpdateSummary(prefix, summary).0, prefix);
    }

    lemma {:induction false} SameShapeKeepsFindFrom(r: RingState, i: nat, prefix: string, depth: nat)
      requires SameShape(r)
      ensures r.FindFrom(i, prefix, depth) == FindFrom(i, prefix, depth)
      decreases |prefix| - depth
    {
      if depth < |prefix| && IsSplit(i) {
        SameShapeKeepsFindFrom(r, entries[i].splitChildStart.value + HexNibble(prefix[depth]), prefix, depth + 1);
      }
    }

    lemma SameShapeKeepsFind(r: RingState, prefix: string)
      requires SameShape(r)
      ensures r.Find(prefix) == Find(prefix)
    {
      var p := Canonical(Capped(prefix));
      if |p| >= rootPrefixLen {
        SameShapeKeepsFindFrom(r, Value(p[..rootPrefixLen]), p, rootPrefixLen);
      }
    }

    /** What one operation can do: nothing to the shape, or one split of the leaf it names. */
    lemma ApplySplitsAtMostTheNamedLeaf(op: RingOp)
      requires Forest()
      ensures
        var (r, _, event) := Apply(op);
        match event
        case None => SameShape(r) && r.Forest()
        case Some(e) =>
          exists before: RingState ::
            && SameShape(before) && before.Forest()
            && Find(op.prefix) == Some(e.parentEntryIndex)
            && before.CanSplit(e.parentEntryIndex)
            && r == before.SplitAt(e.parentEntryIndex)
            && e == before.SplitEventAt(e.parentEntryIndex)
    {
      var before := match op
        case Insert(prefix, summary) => Count(prefix, 1).UpdateSummary(prefix, summary).0
        case InsertWithoutSplit(prefix, summary) => Count(prefix, 1).UpdateSummary(prefix, summary).0
        case Delete(prefix, summary) => Count(prefix, -1).UpdateSummary(prefix, summary).0
        case SetRootSummary(prefix, summary) => UpdateSummary(prefix, summary).0
        case Presplit(_, _) => this;
      match op {
        case Insert(prefix, summary) =>
          CountKeepsShape(prefix, 1);
          Count(prefix, 1).UpdateSummaryKeepsShape(prefix, summary);
        case InsertWithoutSplit(prefix, summary) =>
          CountKeepsShape(prefix, 1);
          Count(prefix, 1).UpdateSummaryKeepsShape(prefix, summary);
        case Delete(prefix, summary) =>
          CountKeepsShape(prefix, -1);
          Count(prefix, -1).UpdateSummaryKeepsShape(prefix, summary);
        case SetRootSummary(prefix, summary) =>
          UpdateSummaryKeepsShape(prefix, summary);
        case Presplit(_, _) =>
      }
      assert SameShape(before) && before.Find(op.prefix) == Find(op.prefix);
      SameShapeKeepsForest(before);
    }

    lemma ApplyKeepsForest(op: RingOp)
      requires Forest()
      ensures Apply(op).0.Forest()
    {
      ApplySplitsAtMostTheNamedLeaf(op);
      var (r, _, event) := Apply(op);
      if event.Some? {
        var i := event.value.parentEntryIndex;
        var before: RingState :| SameShape(before) && before.Forest() && before.CanSplit(i) && r == before.SplitAt(i);
        before.SplitKeepsForest(i);
      }
    }

    /** The forest survives every sequence of operations. */
    lemma {:induction false} RunKeepsForest(ops: seq<RingOp>)
      requires Forest()
      ensures Run(ops).Forest()
      decreases |ops|
    {
      if ops != [] {
        ApplyKeepsForest(ops[0]);
        Apply(ops[0]).0.RunKeepsForest(ops[1..]);
      }
    }

    static lemma InitialIsForest(nodeNames: seq<string>, rootPrefixLen: nat, splitThreshold: nat)
      requires nodeNames != [] && rootPrefixLen <= MAX_PREFIX_LEN
      ensures Initial(nodeNames, rootPrefixLen, splitThreshold).Forest()
    {
      var r := Initial(nodeNames, rootPrefixLen, splitThreshold);
      forall i | 0 <= i < |r.entries| ensures r.EntryOk(i) {}
    }

    /** After any operations on a fresh ring, every keyword matches exactly one leaf, and routes there. */
    static lemma EveryKeywordHasOneLeaf(
        nodeNames: seq<string>, rootPrefixLen: nat, splitThreshold: nat, ops: seq<RingOp>, keyword: Keyword)
      requires nodeNames != [] && rootPrefixLen <= MAX_PREFIX_LEN
      ensures
        var r := Initial(nodeNames, rootPrefixLen, splitThreshold).Run(ops);
        && r.Forest()
        && r.IsLeaf(r.LeafOf(keyword.Key()))
        && forall i: nat :: r.IsLeaf(i) ==>
             (KeywordMatchesPrefix(keyword, r.entries[i].prefix) <==> i == r.LeafOf(keyword.Key()))
    {
      InitialIsForest(nodeNames, rootPrefixLen, splitThreshold);
      Initial(nodeNames, rootPrefixLen, splitThreshold).RunKeepsForest(ops);
      var r := Initial(nodeNames, rootPrefixLen, splitThreshold).Run(ops);
      r.RouteIsUnique(keyword.Key(), r.LeafOf(keyword.Key()));
      forall i: nat | r.IsLeaf(i)
        ensures KeywordMatchesPrefix(keyword, r.entries[i].prefix) <==> i == r.LeafOf(keyword.Key())
      {
        r.RouteIsTheMatchingLeaf(keyword, i);
      }
    }
  }
}
