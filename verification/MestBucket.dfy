/** The bucket object, whose maps change in place, and the split into children. */
module MestBucket {
  import opened Wrappers
  import opened ValueList
  import opened Bucket
  import opened BucketRuns

  class MestBucket {
    const ld: nat
    const rdx: nat
    const capacity: nat
    const segNum: nat
    var bucketKey: seq<nat>
    var segments: map<string, seq<KVPair>>
    var segIdxMaps: map<string, map<string, nat>>
    var merkleLeaves: map<string, seq<string>>

    function State(): BucketState
      requires segIdxMaps.Keys == segments.Keys && merkleLeaves.Keys == segments.Keys
      reads this
    {
      BucketState(bucketKey, ld, Zip(segments, segIdxMaps, merkleLeaves))
    }

    ghost predicate Valid()
      reads this
    {
      segIdxMaps.Keys == segments.Keys && merkleLeaves.Keys == segments.Keys && StateOk(State(), segNum)
    }

    constructor (ld: nat, rdx: nat, capacity: nat, segNum: nat, bucketKey: seq<nat>)
      ensures Valid() && State() == BucketState(bucketKey, ld, map[])
      ensures this.rdx == rdx && this.capacity == capacity && this.segNum == segNum && this.ld == ld
    {
      this.ld, this.rdx, this.capacity, this.segNum, this.bucketKey := ld, rdx, capacity, segNum, bucketKey;
      segments, segIdxMaps, merkleLeaves := map[], map[], map[];
    }

    method IsInBucket(key: string) returns (found: bool)
      requires Valid()
      ensures found == Get(State(), segNum, key).Some?
    {
      var segKey := SegmentKey(key, segNum);
      found := segKey in segments && key in segIdxMaps[segKey];
    }

    method GetValue(key: string) returns (value: Option<string>)
      requires Valid()
      ensures value == Get(State(), segNum, key)
    {
      var segKey := SegmentKey(key, segNum);
      if segKey !in segments || key !in segIdxMaps[segKey] {
        return None;
      }
      assert SegmentOk(State().segments[segKey]);
      value := Some(segments[segKey][segIdxMaps[segKey][key]].value);
    }

    /** Writes the segment of a key: its pairs, its index and its tree. */
    method SetSegment(key: string, s: Segment)
      requires Valid() && SegmentOk(s)
      requires forall k :: k != key ==> Lookup(s, k) == Lookup(SegmentOf(State(), segNum, key), k)
      modifies this`segments, this`segIdxMaps, this`merkleLeaves
      ensures Valid() && bucketKey == old(bucketKey) && State() == WithSegment(old(State()), segNum, key, s)
      ensures forall k :: k != key ==> Get(State(), segNum, k) == Get(old(State()), segNum, k)
      ensures Get(State(), segNum, key) == Lookup(s, key)
    {
      ghost var before := State();
      var segKey := SegmentKey(key, segNum);
      ZipUpdate(segments, segIdxMaps, merkleLeaves, segKey, s);
      segments := segments[segKey := s.pairs];
      segIdxMaps := segIdxMaps[segKey := s.index];
      merkleLeaves := merkleLeaves[segKey := s.leaves];
      assert State() == WithSegment(before, segNum, key, s);
      EditOneSegment(before, segNum, key, s);
    }

    method GetSegment(key: string) returns (s: Segment)
      requires Valid()
      ensures s == SegmentOf(State(), segNum, key) && SegmentOk(s)
    {
      var segKey := SegmentKey(key, segNum);
      s := if segKey in segments then Segment(segments[segKey], segIdxMaps[segKey], merkleLeaves[segKey]) else EMPTY_SEGMENT;
    }

    method Insert(kv: KVPair)
      requires Valid()
      modifies this`segments, this`segIdxMaps, this`merkleLeaves
      ensures Valid() && bucketKey == old(bucketKey)
      ensures Step(old(State()), State(), segNum, Op.Insert(kv.key, kv.value))
    {
      var s := GetSegment(kv.key);
      InsertIntoKeeps(s, kv);
      if kv.key in s.index {
        var idx := s.index[kv.key];
        var merged := Merged(s.pairs[idx].value, kv.value);
        if merged != s.pairs[idx].value {
          SetSegment(kv.key, Update(s, idx, merged));
        }
      } else {
        SetSegment(kv.key, Push(s, kv));
      }
    }

    method DeleteValue(key: string, toDel: string) returns (changed: bool)
      requires Valid()
      modifies this`segments, this`segIdxMaps, this`merkleLeaves
      ensures Valid() && bucketKey == old(bucketKey)
      ensures Step(old(State()), State(), segNum, Op.Delete(key, toDel))
      ensures changed <==> Get(State(), segNum, key) != Get(old(State()), segNum, key)
    {
      var s := GetSegment(key);
      DeleteFromKeeps(s, key, toDel);
      if toDel == "" || key !in s.index {
        return false;
      }
      var idx := s.index[key];
      match Deleted(s.pairs[idx].value, toDel) {
        case Unchanged =>
          changed := false;
        case Emptied =>
          SetSegment(key, Remove(s, idx));
          changed := true;
        case Shortened(value) =>
          SetSegment(key, Update(s, idx, value));
          changed := true;
      }
    }

    method GatherPairs() returns (pairs: seq<KVPair>)
      requires Valid()
      ensures Gathered(State(), segNum, segments.Keys, pairs)
    {
      pairs := [];
      var remaining := segments.Keys;
      while remaining != {}
        invariant remaining <= segments.Keys && Gathered(State(), segNum, segments.Keys - remaining, pairs)
        decreases |remaining|
      {
        var segKey :| segKey in remaining;
        GatherSegment(State(), segNum, segments.Keys - remaining, pairs, segKey);
        assert segments.Keys - (remaining - {segKey}) == segments.Keys - remaining + {segKey};
        pairs := pairs + segments[segKey];
        remaining := remaining - {segKey};
      }
      assert segments.Keys - remaining == segments.Keys;
    }

    /** The child of a split that has been dealt its share of `pairs`. */
    ghost predicate HoldsShare(split: Split, i: nat, pairs: seq<KVPair>, parentKey: seq<nat>)
      reads this
    {
      Valid() && segNum == split.segNum && ld == split.ld + 1 && bucketKey == [i] + parentKey && Share(State(), split, i, pairs)
    }

    method NewChildren(ghost split: Split) returns (children: seq<MestBucket>)
      requires split.segNum == segNum && split.ld == ld
      ensures |children| == rdx
      ensures forall i, j :: 0 <= i < j < |children| ==> children[i] != children[j]
      ensures forall i :: 0 <= i < |children| ==> fresh(children[i]) && children[i].HoldsShare(split, i, [], bucketKey)
    {
      children := [];
      for d := 0 to rdx
        invariant |children| == d
        invariant forall i, j :: 0 <= i < j < |children| ==> children[i] != children[j]
        invariant forall i :: 0 <= i < |children| ==> fresh(children[i]) && children[i].HoldsShare(split, i, [], bucketKey)
      {
        var child := new MestBucket(ld + 1, rdx, capacity, segNum, [d] + bucketKey);
        ShareOfNothing(child.State(), split, d);
        children := children + [child];
      }
    }

    /** Deals one pair to the child its digit names. */
    method InsertIntoChild(ghost split: Split, i: nat, ghost pairs: seq<KVPair>, kv: KVPair, ghost parentKey: seq<nat>)
      requires HoldsShare(split, i, pairs, parentKey) && split.Digit(kv.key) == i && Find(pairs, kv.key).None?
      modifies this
      ensures HoldsShare(split, i, pairs + [kv], parentKey)
    {
      ghost var before := State();
      Insert(kv);
      ShareGrows(before, State(), split, i, pairs, kv);
    }

    /** The children are distinct objects, each holding its share. */
    static ghost predicate Dealt(children: seq<MestBucket>, split: Split, pairs: seq<KVPair>, parentKey: seq<nat>)
      reads children
    {
      && (forall i, j :: 0 <= i < j < |children| ==> children[i] != children[j])
      && forall i :: 0 <= i < |children| ==> children[i].HoldsShare(split, i, pairs, parentKey)
    }

    static lemma OthersKeepShare(children: seq<MestBucket>, split: Split, pairs: seq<KVPair>, kv: KVPair, parentKey: seq<nat>, i: nat)
      requires Dealt(children, split, pairs, parentKey) && i < |children| && split.Digit(kv.key) != i
      ensures children[i].HoldsShare(split, i, pairs + [kv], parentKey)
    {
      ShareOfOthers(children[i].State(), split, i, pairs, kv);
    }

    static method DealPair(children: seq<MestBucket>, ghost split: Split, ghost pairs: seq<KVPair>, kv: KVPair, d: nat, ghost parentKey: seq<nat>)
      requires Dealt(children, split, pairs, parentKey)
      requires split.Digit(kv.key) == d < |children| && Find(pairs, kv.key).None?
      modifies children
      ensures Dealt(children, split, pairs + [kv], parentKey)
    {
      forall i: nat | i < |children| && i != d ensures children[i].HoldsShare(split, i, pairs + [kv], parentKey) {
        OthersKeepShare(children, split, pairs, kv, parentKey, i);
      }
      children[d].InsertIntoChild(split, d, pairs, kv, parentKey);
    }

    static method DealPairs(children: seq<MestBucket>, split: Split, pairs: seq<KVPair>, ghost parentKey: seq<nat>)
      requires Dealt(children, split, [], parentKey) && DistinctKeys(pairs)
      requires forall key :: split.Digit(key) < |children|
      modifies children
      ensures Dealt(children, split, pairs, parentKey)
    {
      for n := 0 to |pairs|
        invariant Dealt(children, split, pairs[..n], parentKey)
      {
        FindNone(pairs[..n], pairs[n].key);
        assert pairs[..n + 1] == pairs[..n] + [pairs[n]];
        DealPair(children, split, pairs[..n], pairs[n], split.Digit(pairs[n].key), parentKey);
      }
      assert pairs[..|pairs|] == pairs;
    }

    /** Splits into one child per digit. Every key is looked up in the child its digit names exactly as it
        was in the parent, and no other child has it. */
    method SplitBucket(digitAt: (string, nat, nat) -> nat) returns (children: seq<MestBucket>)
      requires Valid() && forall key :: digitAt(key, rdx, ld) < rdx
      ensures Valid() && |children| == rdx
      ensures forall i :: 0 <= i < |children| ==>
        && fresh(children[i]) && children[i].Valid() && children[i].ld == ld + 1 && children[i].bucketKey == [i] + bucketKey
        && IsChildOf(children[i].State(), State(), Split.Split(digitAt, rdx, ld, segNum), i)
    {
      var pairs := GatherPairs();
      var split := Split.Split(digitAt, rdx, ld, segNum);
      children := NewChildren(split);
      DealPairs(children, split, pairs, bucketKey);
      forall i: nat | i < |children| ensures IsChildOf(children[i].State(), State(), split, i) {
        ShareOfAll(children[i].State(), State(), split, i, pairs);
      }
    }
  }
}
