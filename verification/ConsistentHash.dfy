/** The consistent-hash ring: virtual nodes sorted by hash, a key belonging to the next one clockwise. */
module ConsistentHash {
  import opened Wrappers

  const HASH_RANGE: nat := 0x1_0000_0000_0000_0000

  type Hash = n: nat | n < HASH_RANGE

  datatype VirtualNode = VirtualNode(hash: Hash, key: string)

  datatype AddNodeError = InvalidNodeName | NodeAlreadyExists

  // ----- names of virtual nodes

  function Decimal(n: nat): (d: string)
    ensures forall i :: 0 <= i < |d| ==> '0' <= d[i] <= '9'
  {
    var digit := ['0' + (n % 10) as char];
    if n < 10 then digit else Decimal(n / 10) + digit
  }

  function KeyOf(node: string, i: nat): string {
    node + "#vnode" + Decimal(i)
  }

  predicate ValidName(node: string) {
    forall i :: 0 <= i < |node| ==> node[i] != '#'
  }

  /** `rsplit_once('#')`: what stands before the last `#`. */
  function BeforeLastHash(s: string): Option<string> {
    if s == "" then None
    else if s[|s| - 1] == '#' then Some(s[..|s| - 1])
    else BeforeLastHash(s[..|s| - 1])
  }

  lemma {:induction false} SplitAtTail(head: string, tail: string)
    requires ValidName(tail)
    ensures BeforeLastHash(head + "#" + tail) == Some(head)
    decreases |tail|
  {
    var s := head + "#" + tail;
    if tail == "" {
      assert s[..|s| - 1] == head;
    } else {
      assert s[|s| - 1] == tail[|tail| - 1];
      assert s[..|s| - 1] == head + "#" + tail[..|tail| - 1];
      SplitAtTail(head, tail[..|tail| - 1]);
    }
  }

  /** The owner of a virtual node can be read off its key. */
  lemma OwnerOfKey(node: string, i: nat)
    ensures BeforeLastHash(KeyOf(node, i)) == Some(node)
  {
    var tail := "vnode" + Decimal(i);
    assert ValidName(tail);
    assert KeyOf(node, i) == node + "#" + tail;
    SplitAtTail(node, tail);
  }

  function FirstHash(s: string): (n: nat)
    ensures n <= |s|
  {
    if s == "" || s[0] == '#' then 0 else 1 + FirstHash(s[1..])
  }

  lemma {:induction false} FirstHashIs(name: string, rest: string)
    requires ValidName(name)
    ensures FirstHash(name + "#" + rest) == |name|
  {
    var s := name + "#" + rest;
    if name != "" {
      assert s[1..] == name[1..] + "#" + rest;
      FirstHashIs(name[1..], rest);
    }
  }

  /** The prefix test of `remove_node` picks out exactly one node's keys. */
  lemma PrefixOfKey(node: string, other: string, i: nat)
    requires ValidName(node) && ValidName(other)
    ensures node + "#" <= KeyOf(other, i) <==> node == other
  {
    var key := KeyOf(other, i);
    assert key == other + "#" + ("vnode" + Decimal(i));
    FirstHashIs(other, "vnode" + Decimal(i));
    if node + "#" <= key {
      assert key == node + "#" + key[|node| + 1..];
      FirstHashIs(node, key[|node| + 1..]);
      assert node == key[..|node|] == other;
    }
  }

  // ----- the sorted list

  predicate Sorted(s: seq<VirtualNode>) {
    forall i, j :: 0 <= i < j < |s| ==> s[i].hash <= s[j].hash
  }

  /** Insertion behind every entry whose hash is not larger. */
  function Insert(s: seq<VirtualNode>, v: VirtualNode): (r: seq<VirtualNode>)
    ensures |r| == |s| + 1
  {
    if s == [] || s[|s| - 1].hash <= v.hash then s + [v] else Insert(s[..|s| - 1], v) + [s[|s| - 1]]
  }

  /** The stable sort by hash. */
  function Sort(s: seq<VirtualNode>): seq<VirtualNode> {
    if s == [] then [] else Insert(Sort(s[..|s| - 1]), s[|s| - 1])
  }

  lemma {:induction false} InsertAdds(s: seq<VirtualNode>, v: VirtualNode)
    ensures multiset(Insert(s, v)) == multiset(s) + multiset{v}
    decreases |s|
  {
    if s != [] && s[|s| - 1].hash > v.hash {
      assert s == s[..|s| - 1] + [s[|s| - 1]];
      InsertAdds(s[..|s| - 1], v);
    }
  }

  /** Sorting keeps every entry, as often as it occurs. */
  lemma {:induction false} SortPermutes(s: seq<VirtualNode>)
    ensures multiset(Sort(s)) == multiset(s)
    decreases |s|
  {
    if s != [] {
      assert s == s[..|s| - 1] + [s[|s| - 1]];
      SortPermutes(s[..|s| - 1]);
      InsertAdds(Sort(s[..|s| - 1]), s[|s| - 1]);
    }
  }

  lemma {:induction false} InsertKeepsSorted(s: seq<VirtualNode>, v: VirtualNode)
    requires Sorted(s)
    ensures Sorted(Insert(s, v))
    decreases |s|
  {
    if s != [] && s[|s| - 1].hash > v.hash {
      var init := s[..|s| - 1];
      InsertKeepsSorted(init, v);
      InsertAdds(init, v);
      var r := Insert(init, v);
      forall i | 0 <= i < |r| ensures r[i].hash <= s[|s| - 1].hash {
        assert r[i] in multiset(r);
        assert r[i] in multiset(init) || r[i] == v;
      }
    }
  }

  lemma {:induction false} SortIsSorted(s: seq<VirtualNode>)
    ensures Sorted(Sort(s))
    decreases |s|
  {
    if s != [] {
      SortIsSorted(s[..|s| - 1]);
      InsertKeepsSorted(Sort(s[..|s| - 1]), s[|s| - 1]);
    }
  }

  lemma {:induction false} SortOfSorted(s: seq<VirtualNode>)
    requires Sorted(s)
    ensures Sort(s) == s
    decreases |s|
  {
    if s != [] {
      SortOfSorted(s[..|s| - 1]);
    }
  }

  /** `retain` of everything that is not the node's. */
  function Without(s: seq<VirtualNode>, node: string): seq<VirtualNode> {
    if s == [] then []
    else
      var last := s[|s| - 1];
      Without(s[..|s| - 1], node) + if node + "#" <= last.key then [] else [last]
  }

  lemma {:induction false} WithoutAppend(a: seq<VirtualNode>, b: seq<VirtualNode>, node: string)
    ensures Without(a + b, node) == Without(a, node) + Without(b, node)
    decreases |b|
  {
    if b == [] {
      assert a + b == a;
    } else {
      assert (a + b)[..|a + b| - 1] == a + b[..|b| - 1];
      WithoutAppend(a, b[..|b| - 1], node);
    }
  }

  lemma {:induction false} WithoutMembers(s: seq<VirtualNode>, node: string, v: VirtualNode)
    ensures v in Without(s, node) <==> v in s && !(node + "#" <= v.key)
    decreases |s|
  {
    if s != [] {
      assert s == s[..|s| - 1] + [s[|s| - 1]];
      WithoutMembers(s[..|s| - 1], node, v);
    }
  }

  lemma WithoutSnoc(s: seq<VirtualNode>, v: VirtualNode, node: string)
    ensures Without(s + [v], node) == if node + "#" <= v.key then Without(s, node) else Without(s, node) + [v]
  {
    assert (s + [v])[..|s|] == s;
    assert Without(s, node) + [] == Without(s, node);
  }

  lemma InsertBefore(s: seq<VirtualNode>, last: VirtualNode, v: VirtualNode)
    requires last.hash > v.hash
    ensures Insert(s + [last], v) == Insert(s, v) + [last]
  {
    assert (s + [last])[..|s|] == s;
  }

  /** What is left of entries no larger than `v` takes `v` at the end. */
  lemma InsertLast(s: seq<VirtualNode>, v: VirtualNode, node: string)
    requires Sorted(s) && (s == [] || s[|s| - 1].hash <= v.hash)
    ensures Insert(Without(s, node), v) == Without(s, node) + [v]
  {
    var kept := Without(s, node);
    if kept != [] {
      WithoutMembers(s, node, kept[|kept| - 1]);
    }
  }

  /** Filtering commutes with stable insertion. */
  lemma {:induction false} WithoutInsert(s: seq<VirtualNode>, v: VirtualNode, node: string)
    requires Sorted(s)
    ensures Without(Insert(s, v), node) == if node + "#" <= v.key then Without(s, node) else Insert(Without(s, node), v)
    decreases |s|
  {
    if s == [] || s[|s| - 1].hash <= v.hash {
      WithoutSnoc(s, v, node);
      InsertLast(s, v, node);
    } else {
      var init, last := s[..|s| - 1], s[|s| - 1];
      assert s == init + [last];
      WithoutInsert(init, v, node);
      InsertBefore(init, last, v);
      InsertBefore(Without(init, node), last, v);
      WithoutSnoc(Insert(init, v), last, node);
      WithoutSnoc(init, last, node);
    }
  }

  lemma SortSnoc(s: seq<VirtualNode>, v: VirtualNode)
    ensures Sort(s + [v]) == Insert(Sort(s), v)
  {
    assert (s + [v])[..|s|] == s;
  }

  lemma {:induction false} WithoutSort(s: seq<VirtualNode>, node: string)
    ensures Without(Sort(s), node) == Sort(Without(s, node))
    decreases |s|
  {
    if s != [] {
      var init, last := s[..|s| - 1], s[|s| - 1];
      assert s == init + [last];
      WithoutSnoc(init, last, node);
      WithoutSort(init, node);
      SortIsSorted(init);
      WithoutInsert(Sort(init), last, node);
      SortSnoc(Without(init, node), last);
    }
  }

  // ----- clockwise order

  /** How far clockwise `to` lies from `from`. */
  function Clockwise(from: Hash, to: Hash): nat {
    if to >= from then to - from else HASH_RANGE + to - from
  }

  /** The virtual nodes next to `h` going clockwise. */
  ghost predicate IsNext(ring: seq<VirtualNode>, h: Hash, v: VirtualNode) {
    v in ring && forall w :: w in ring ==> Clockwise(h, v.hash) <= Clockwise(h, w.hash)
  }

  predicate DistinctHashes(ring: seq<VirtualNode>) {
    forall i, j :: 0 <= i < j < |ring| ==> ring[i].hash != ring[j].hash
  }

  /** The entry `i` places on from `start`. */
  function Around(ring: seq<VirtualNode>, start: nat, i: nat): VirtualNode
    requires ring != []
  {
    ring[(start + i) % |ring|]
  }

  lemma AroundIs(ring: seq<VirtualNode>, start: nat, i: nat)
    requires start < |ring| && i < |ring|
    ensures Around(ring, start, i) == ring[Wrap(start + i, |ring|)]
  {}

  /** A position from which the ring, read onwards and around, is in clockwise order. */
  ghost predicate IsStart(ring: seq<VirtualNode>, h: Hash, start: nat) {
    && start < |ring|
    && forall i: nat, j: nat {:trigger Around(ring, start, i), Around(ring, start, j)} :: i <= j < |ring| ==>
         Clockwise(h, Around(ring, start, i).hash) <= Clockwise(h, Around(ring, start, j).hash)
  }

  /** The position of the first entry not before `h`, or the end. */
  ghost predicate SplitsAt(ring: seq<VirtualNode>, h: Hash, n: nat) {
    && n <= |ring|
    && (forall i :: 0 <= i < n ==> ring[i].hash < h)
    && (forall i :: n <= i < |ring| ==> ring[i].hash >= h)
  }

  lemma ClockwiseGrows(ring: seq<VirtualNode>, h: Hash, n: nat, a: nat, b: nat)
    requires Sorted(ring) && SplitsAt(ring, h, n) && a < |ring| && b < |ring|
    requires n <= a <= b || (a <= b < n) || (b < n <= a)
    ensures Clockwise(h, ring[a].hash) <= Clockwise(h, ring[b].hash)
  {}

  function Wrap(k: nat, size: nat): nat
    requires k < 2 * size
  {
    if k < size then k else k - size
  }

  lemma SplitIsStart(ring: seq<VirtualNode>, h: Hash, n: nat)
    requires Sorted(ring) && ring != [] && SplitsAt(ring, h, n)
    ensures IsStart(ring, h, Wrap(n, |ring|))
  {
    var start, size := Wrap(n, |ring|), |ring|;
    forall i: nat, j: nat {:trigger Around(ring, start, i), Around(ring, start, j)} | i <= j < |ring|
      ensures Clockwise(h, Around(ring, start, i).hash) <= Clockwise(h, Around(ring, start, j).hash)
    {
      AroundIs(ring, start, i);
      AroundIs(ring, start, j);
      ClockwiseGrows(ring, h, n, Wrap(start + i, size), Wrap(start + j, size));
    }
  }

  lemma StartIsNext(ring: seq<VirtualNode>, h: Hash, start: nat)
    requires IsStart(ring, h, start)
    ensures IsNext(ring, h, ring[start])
  {
    AroundIs(ring, start, 0);
    forall w | w in ring ensures Clockwise(h, ring[start].hash) <= Clockwise(h, w.hash) {
      var k :| 0 <= k < |ring| && ring[k] == w;
      var j := if k >= start then k - start else k + |ring| - start;
      AroundIs(ring, start, j);
      assert Clockwise(h, Around(ring, start, 0).hash) <= Clockwise(h, Around(ring, start, j).hash);
    }
  }

  lemma ClockwiseInjective(h: Hash, a: Hash, b: Hash)
    requires Clockwise(h, a) == Clockwise(h, b)
    ensures a == b
  {}

  lemma NextIsUnique(ring: seq<VirtualNode>, h: Hash, v: VirtualNode, w: VirtualNode)
    requires DistinctHashes(ring) && IsNext(ring, h, v) && IsNext(ring, h, w)
    ensures v == w
  {
    ClockwiseInjective(h, v.hash, w.hash);
  }

  function Owner(v: VirtualNode): string {
    BeforeLastHash(v.key).GetOr("")
  }

  /** The keys a node owns move only to a node that has been added. */
  lemma AddMovesOnlyToNew(ring: seq<VirtualNode>, added: seq<VirtualNode>, h: Hash, before: VirtualNode, after: VirtualNode)
    requires DistinctHashes(Sort(ring + added)) && IsNext(ring, h, before) && IsNext(Sort(ring + added), h, after)
    ensures after in added || after == before
  {
    SortMembers(ring + added, after);
    SortMembers(ring + added, before);
    if after in ring {
      ClockwiseInjective(h, before.hash, after.hash);
    }
  }

  lemma SortMembers(s: seq<VirtualNode>, v: VirtualNode)
    ensures v in Sort(s) <==> v in s
  {
    SortPermutes(s);
    assert v in Sort(s) <==> v in multiset(Sort(s));
    assert v in s <==> v in multiset(s);
  }

  /** Removing a node moves only the keys that it owned. */
  lemma RemoveMovesOnlyItsKeys(ring: seq<VirtualNode>, node: string, h: Hash, before: VirtualNode, after: VirtualNode)
    requires DistinctHashes(ring) && IsNext(ring, h, before) && IsNext(Without(ring, node), h, after)
    ensures node + "#" <= before.key || after == before
  {
    WithoutMembers(ring, node, before);
    WithoutMembers(ring, node, after);
    if !(node + "#" <= before.key) {
      ClockwiseInjective(h, before.hash, after.hash);
    }
  }

  /** Adding entries and filtering them out again restores a sorted list exactly, ties included. */
  lemma AddThenRemove(ring: seq<VirtualNode>, added: seq<VirtualNode>, node: string)
    requires Sorted(ring) && Without(ring, node) == ring && Without(added, node) == []
    ensures Without(Sort(ring + added), node) == ring
  {
    WithoutSort(ring + added, node);
    WithoutAppend(ring, added, node);
    assert ring + [] == ring;
    SortOfSorted(ring);
  }
}
