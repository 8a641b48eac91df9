/** A MEST bucket: segments of key-value pairs with an index from key to position and a Merkle tree over the
    values. The trees are foreign; here each is the list of its leaf data. */
module Bucket {
  import opened Wrappers
  import opened ValueList

  datatype KVPair = KVPair(key: string, value: string)

  /** One segment with what accompanies it. */
  datatype Segment = Segment(pairs: seq<KVPair>, index: map<string, nat>, leaves: seq<string>)

  function SegmentKey(key: string, segNum: nat): string {
    if segNum < |key| then key[..segNum] else ""
  }

  /** Keys share a segment if they are longer than the segment number and agree that far, or neither is longer. */
  lemma SameSegmentIff(a: string, b: string, segNum: nat)
    ensures SegmentKey(a, segNum) == SegmentKey(b, segNum) <==>
      segNum == 0 || ((|a| > segNum <==> |b| > segNum) && (|a| > segNum && |b| > segNum ==> a[..segNum] == b[..segNum]))
  {}

  function ValuesOf(pairs: seq<KVPair>): seq<string> {
    seq(|pairs|, i requires 0 <= i < |pairs| => pairs[i].value)
  }

  /** The index names every pair's position and nothing else, and the tree's leaves are the values. */
  ghost predicate SegmentOk(s: Segment) {
    && (forall i: nat :: i < |s.pairs| ==> s.pairs[i].key in s.index && s.index[s.pairs[i].key] == i)
    && (forall k :: k in s.index ==> s.index[k] < |s.pairs| && s.pairs[s.index[k]].key == k)
    && s.leaves == ValuesOf(s.pairs)
  }

  function Lookup(s: Segment, key: string): Option<string> {
    if key in s.index && s.index[key] < |s.pairs| then Some(s.pairs[s.index[key]].value) else None
  }

  // ----- edits of a segment

  function Push(s: Segment, kv: KVPair): Segment {
    Segment(s.pairs + [kv], s.index[kv.key := |s.pairs|], s.leaves + [kv.value])
  }

  function Update(s: Segment, i: nat, value: string): Segment
    requires i < |s.pairs| && |s.leaves| == |s.pairs|
  {
    s.(pairs := s.pairs[i := s.pairs[i].(value := value)], leaves := s.leaves[i := value])
  }

  function ShiftIndex(index: map<string, nat>, key: string, i: nat): map<string, nat> {
    map k | k in index && k != key :: if index[k] > i then index[k] - 1 else index[k]
  }

  function Remove(s: Segment, i: nat): Segment
    requires i < |s.pairs|
  {
    var rest := s.pairs[..i] + s.pairs[i + 1..];
    Segment(rest, ShiftIndex(s.index, s.pairs[i].key, i), ValuesOf(rest))
  }

  lemma PushKeeps(s: Segment, kv: KVPair)
    requires SegmentOk(s) && kv.key !in s.index
    ensures SegmentOk(Push(s, kv))
    ensures forall k :: Lookup(Push(s, kv), k) == if k == kv.key then Some(kv.value) else Lookup(s, k)
  {}

  lemma UpdateKeeps(s: Segment, i: nat, value: string)
    requires SegmentOk(s) && i < |s.pairs|
    ensures SegmentOk(Update(s, i, value))
    ensures forall k :: Lookup(Update(s, i, value), k) == if k == s.pairs[i].key then Some(value) else Lookup(s, k)
  {
    forall k | k in s.index && k != s.pairs[i].key ensures s.index[k] != i {}
  }

  /** After removing a pair and shifting the index every other key still finds its value. */
  lemma RemoveKeeps(s: Segment, i: nat)
    requires SegmentOk(s) && i < |s.pairs|
    ensures SegmentOk(Remove(s, i))
    ensures forall k :: Lookup(Remove(s, i), k) == if k == s.pairs[i].key then None else Lookup(s, k)
  {
    var r, key := Remove(s, i), s.pairs[i].key;
    forall j: nat | j < |r.pairs| ensures r.pairs[j].key in r.index && r.index[r.pairs[j].key] == j {
      var from := if j < i then j else j + 1;
      assert r.pairs[j] == s.pairs[from];
      assert s.index[s.pairs[from].key] == from;
    }
    forall k | k in r.index ensures r.index[k] < |r.pairs| && r.pairs[r.index[k]] == s.pairs[s.index[k]] {
      assert s.index[k] != i;
    }
  }

  // ----- the bucket

  datatype Change = Change(segment: Segment, changed: bool)

  /** `insert` into an existing segment. */
  function InsertInto(s: Segment, kv: KVPair): Segment
    requires SegmentOk(s)
  {
    if kv.key in s.index then
      var i := s.index[kv.key];
      var merged := Merged(s.pairs[i].value, kv.value);
      if merged == s.pairs[i].value then s else Update(s, i, merged)
    else Push(s, kv)
  }

  function DeleteFrom(s: Segment, key: string, toDel: string): Change
    requires SegmentOk(s)
  {
    if key !in s.index then Change(s, false)
    else
      var i := s.index[key];
      match Deleted(s.pairs[i].value, toDel)
      case Unchanged => Change(s, false)
      case Emptied => Change(Remove(s, i), true)
      case Shortened(value) => Change(Update(s, i, value), true)
  }

  function Inserted(before: Option<string>, value: string): string {
    if before.None? then value else Merged(before.value, value)
  }

  function AfterDelete(before: Option<string>, toDel: string): Option<string> {
    match before
    case None => None
    case Some(value) =>
      match Deleted(value, toDel)
      case Unchanged => before
      case Emptied => None
      case Shortened(kept) => Some(kept)
  }

  lemma InsertIntoKeeps(s: Segment, kv: KVPair)
    requires SegmentOk(s)
    ensures SegmentOk(InsertInto(s, kv))
    ensures forall k :: Lookup(InsertInto(s, kv), k) == (if k == kv.key then Some(Inserted(Lookup(s, k), kv.value)) else Lookup(s, k))
  {
    if kv.key in s.index {
      var i := s.index[kv.key];
      UpdateKeeps(s, i, Merged(s.pairs[i].value, kv.value));
    } else {
      PushKeeps(s, kv);
    }
  }

  lemma DeleteFromKeeps(s: Segment, key: string, toDel: string)
    requires SegmentOk(s)
    ensures SegmentOk(DeleteFrom(s, key, toDel).segment)
    ensures forall k :: Lookup(DeleteFrom(s, key, toDel).segment, k) == (if k == key then AfterDelete(Lookup(s, k), toDel) else Lookup(s, k))
    ensures DeleteFrom(s, key, toDel).changed <==> AfterDelete(Lookup(s, key), toDel) != Lookup(s, key)
  {
    if key in s.index {
      var i := s.index[key];
      match Deleted(s.pairs[i].value, toDel)
      case Unchanged =>
      case Emptied => RemoveKeeps(s, i);
      case Shortened(value) => UpdateKeeps(s, i, value);
    }
  }

  // ----- buckets as values

  datatype BucketState = BucketState(bucketKey: seq<nat>, ld: nat, segments: map<string, Segment>)

  /** The segments from their three parts, which the bucket keeps in one map each. */
  function Zip(pairs: map<string, seq<KVPair>>, index: map<string, map<string, nat>>, leaves: map<string, seq<string>>): map<string, Segment>
    requires index.Keys == pairs.Keys && leaves.Keys == pairs.Keys
  {
    map s | s in pairs :: Segment(pairs[s], index[s], leaves[s])
  }

  lemma ZipUpdate(pairs: map<string, seq<KVPair>>, index: map<string, map<string, nat>>, leaves: map<string, seq<string>>, key: string, s: Segment)
    requires index.Keys == pairs.Keys && leaves.Keys == pairs.Keys
    ensures index[key := s.index].Keys == pairs[key := s.pairs].Keys && leaves[key := s.leaves].Keys == pairs[key := s.pairs].Keys
    ensures Zip(pairs[key := s.pairs], index[key := s.index], leaves[key := s.leaves]) == Zip(pairs, index, leaves)[key := s]
  {}

  const EMPTY_SEGMENT := Segment([], map[], [])

  ghost predicate StateOk(b: BucketState, segNum: nat) {
    forall s :: s in b.segments ==>
      SegmentOk(b.segments[s]) && forall k :: k in b.segments[s].index ==> SegmentKey(k, segNum) == s
  }

  function SegmentOf(b: BucketState, segNum: nat, key: string): Segment {
    var s := SegmentKey(key, segNum);
    if s in b.segments then b.segments[s] else EMPTY_SEGMENT
  }

  /** `get_value`: the map the bucket stands for. */
  function Get(b: BucketState, segNum: nat, key: string): Option<string> {
    Lookup(SegmentOf(b, segNum, key), key)
  }

  function WithSegment(b: BucketState, segNum: nat, key: string, s: Segment): BucketState {
    b.(segments := b.segments[SegmentKey(key, segNum) := s])
  }

  /** An edit of one segment that only touches one key is an edit of that key. */
  lemma EditOneSegment(b: BucketState, segNum: nat, key: string, s: Segment)
    requires StateOk(b, segNum) && SegmentOk(s)
    requires forall k :: k != key ==> Lookup(s, k) == Lookup(SegmentOf(b, segNum, key), k)
    ensures StateOk(WithSegment(b, segNum, key, s), segNum)
    ensures forall k :: k != key ==> Get(WithSegment(b, segNum, key, s), segNum, k) == Get(b, segNum, k)
    ensures Get(WithSegment(b, segNum, key, s), segNum, key) == Lookup(s, key)
  {
    var old_ := SegmentOf(b, segNum, key);
    forall k | k in s.index ensures SegmentKey(k, segNum) == SegmentKey(key, segNum) {
      if k != key {
        assert Lookup(s, k).Some?;
        assert Lookup(old_, k).Some?;
      }
    }
  }

  // ----- all pairs of a bucket

  function Find(pairs: seq<KVPair>, key: string): Option<string> {
    if pairs == [] then None
    else if pairs[|pairs| - 1].key == key then Some(pairs[|pairs| - 1].value)
    else Find(pairs[..|pairs| - 1], key)
  }

  lemma FindSnoc(pairs: seq<KVPair>, kv: KVPair, key: string)
    ensures Find(pairs + [kv], key) == if key == kv.key then Some(kv.value) else Find(pairs, key)
  {
    assert (pairs + [kv])[..|pairs|] == pairs;
  }

  predicate DistinctKeys(pairs: seq<KVPair>) {
    forall i, j :: 0 <= i < j < |pairs| ==> pairs[i].key != pairs[j].key
  }

  lemma {:induction false} FindNone(pairs: seq<KVPair>, key: string)
    ensures Find(pairs, key).None? <==> forall i :: 0 <= i < |pairs| ==> pairs[i].key != key
    decreases |pairs|
  {
    if pairs != [] {
      FindNone(pairs[..|pairs| - 1], key);
      assert forall i :: 0 <= i < |pairs| - 1 ==> pairs[i] == pairs[..|pairs| - 1][i];
    }
  }

  lemma {:induction false} FindAt(pairs: seq<KVPair>, i: nat)
    requires DistinctKeys(pairs) && i < |pairs|
    ensures Find(pairs, pairs[i].key) == Some(pairs[i].value)
    decreases |pairs|
  {
    if i < |pairs| - 1 {
      FindAt(pairs[..|pairs| - 1], i);
    }
  }

  lemma {:induction false} FindAppend(a: seq<KVPair>, b: seq<KVPair>, key: string)
    ensures Find(a + b, key) == if Find(b, key).Some? then Find(b, key) else Find(a, key)
    decreases |b|
  {
    if b == [] {
      assert a + b == a;
    } else {
      var n := |b| - 1;
      assert (a + b)[..|a| + n] == a + b[..n];
      FindAppend(a, b[..n], key);
    }
  }

  /** A segment's pairs have distinct keys and are found as the segment's lookup finds them. */
  lemma SegmentPairs(s: Segment, key: string)
    requires SegmentOk(s)
    ensures DistinctKeys(s.pairs) && Find(s.pairs, key) == Lookup(s, key)
  {
    forall i, j | 0 <= i < j < |s.pairs| ensures s.pairs[i].key != s.pairs[j].key {
      assert s.index[s.pairs[i].key] == i;
    }
    if key in s.index {
      FindAt(s.pairs, s.index[key]);
    } else {
      FindNone(s.pairs, key);
    }
  }

  /** The pairs of the segments gathered so far. */
  ghost predicate Gathered(b: BucketState, segNum: nat, done: set<string>, pairs: seq<KVPair>) {
    && DistinctKeys(pairs)
    && (forall i :: 0 <= i < |pairs| ==> SegmentKey(pairs[i].key, segNum) in done)
    && forall key :: Find(pairs, key) == if SegmentKey(key, segNum) in done then Get(b, segNum, key) else None
  }

  lemma GatherSegment(b: BucketState, segNum: nat, done: set<string>, pairs: seq<KVPair>, segKey: string)
    requires StateOk(b, segNum) && Gathered(b, segNum, done, pairs) && segKey in b.segments && segKey !in done
    ensures Gathered(b, segNum, done + {segKey}, pairs + b.segments[segKey].pairs)
  {
    var s := b.segments[segKey];
    var all := pairs + s.pairs;
    SegmentPairs(s, "");
    forall i | 0 <= i < |s.pairs| ensures SegmentKey(s.pairs[i].key, segNum) == segKey {
      assert s.pairs[i].key in s.index;
    }
    forall key ensures Find(all, key) == if SegmentKey(key, segNum) in done + {segKey} then Get(b, segNum, key) else None {
      FindAppend(pairs, s.pairs, key);
      SegmentPairs(s, key);
      if key in s.index {
        assert SegmentKey(key, segNum) == segKey;
      }
    }
  }

  lemma AllGathered(b: BucketState, segNum: nat, pairs: seq<KVPair>, key: string)
    requires Gathered(b, segNum, b.segments.Keys, pairs)
    ensures Find(pairs, key) == Get(b, segNum, key)
  {}

  // ----- splitting

  /** Digit `d` of a split: the radix, the depth and the digit function are the parent's. */
  datatype Split = Split(digitAt: (string, nat, nat) -> nat, rdx: nat, ld: nat, segNum: nat) {
    function Digit(key: string): nat {
      digitAt(key, rdx, ld)
    }
  }

  /** The child for digit `i` holds exactly the pairs of that digit. */
  ghost predicate Share(b: BucketState, split: Split, i: nat, pairs: seq<KVPair>) {
    forall key :: Get(b, split.segNum, key) == if split.Digit(key) == i then Find(pairs, key) else None
  }

  lemma ShareOfNothing(b: BucketState, split: Split, i: nat)
    requires b.segments == map[]
    ensures Share(b, split, i, [])
  {}

  lemma ShareOfOthers(b: BucketState, split: Split, i: nat, pairs: seq<KVPair>, kv: KVPair)
    requires Share(b, split, i, pairs) && split.Digit(kv.key) != i
    ensures Share(b, split, i, pairs + [kv])
  {
    forall key ensures Get(b, split.segNum, key) == if split.Digit(key) == i then Find(pairs + [kv], key) else None {
      FindSnoc(pairs, kv, key);
    }
  }

  lemma ShareGrows(b: BucketState, b': BucketState, split: Split, i: nat, pairs: seq<KVPair>, kv: KVPair)
    requires Share(b, split, i, pairs) && split.Digit(kv.key) == i && Find(pairs, kv.key).None?
    requires forall k :: k != kv.key ==> Get(b', split.segNum, k) == Get(b, split.segNum, k)
    requires Get(b', split.segNum, kv.key) == Some(Inserted(Get(b, split.segNum, kv.key), kv.value))
    ensures Share(b', split, i, pairs + [kv])
  {
    forall key ensures Get(b', split.segNum, key) == if split.Digit(key) == i then Find(pairs + [kv], key) else None {
      FindSnoc(pairs, kv, key);
    }
  }

  /** The child's view of a parent whose pairs have all been dealt out. */
  ghost predicate IsChildOf(child: BucketState, parent: BucketState, split: Split, i: nat) {
    forall key :: Get(child, split.segNum, key) == if split.Digit(key) == i then Get(parent, split.segNum, key) else None
  }

  lemma ShareOfAll(child: BucketState, parent: BucketState, split: Split, i: nat, pairs: seq<KVPair>)
    requires Share(child, split, i, pairs) && Gathered(parent, split.segNum, parent.segments.Keys, pairs)
    ensures IsChildOf(child, parent, split, i)
  {
    forall key ensures Get(child, split.segNum, key) == if split.Digit(key) == i then Get(parent, split.segNum, key) else None {
      AllGathered(parent, split.segNum, pairs, key);
    }
  }
}
