/** Runs of inserts and deletes on a bucket: it stands for a map from keys to lists of distinct values. */
module BucketRuns {
  import opened Wrappers
  import opened ValueList
  import opened Bucket

  datatype Op = Insert(key: string, value: string) | Delete(key: string, value: string)

  /** What an operation makes of the list of its key. */
  function ListAfterOp(before: Option<seq<string>>, op: Op): Option<seq<string>> {
    match op
    case Insert(_, v) =>
      var parts := before.GetOr([]);
      Some(if v == "" || v in parts then parts else parts + [v])
    case Delete(_, v) =>
      if before.None? || v == "" || v !in before.value then before
      else if Without(before.value, v) == [] then None
      else Some(Without(before.value, v))
  }

  /** The list of a key after a run. */
  function ListAfter(ops: seq<Op>, key: string): Option<seq<string>> {
    if ops == [] then None
    else
      var before := ListAfter(ops[..|ops| - 1], key);
      if ops[|ops| - 1].key == key then ListAfterOp(before, ops[|ops| - 1]) else before
  }

  function AsText(parts: Option<seq<string>>): Option<string> {
    if parts.None? then None else Some(Join(parts.value))
  }

  predicate Distinct(parts: seq<string>) {
    forall i, j :: 0 <= i < j < |parts| ==> parts[i] != parts[j]
  }

  predicate IsSet(parts: Option<seq<string>>) {
    parts.Some? ==> IsList(parts.value) && Distinct(parts.value)
  }

  /** What the bucket's `insert` and `delete_value` promise. */
  ghost predicate Step(before: BucketState, after: BucketState, segNum: nat, op: Op) {
    && (forall k :: k != op.key ==> Get(after, segNum, k) == Get(before, segNum, k))
    && Get(after, segNum, op.key) ==
       match op
       case Insert(key, v) => Some(Inserted(Get(before, segNum, key), v))
       case Delete(key, v) => AfterDelete(Get(before, segNum, key), v)
  }

  ghost predicate IsRun(states: seq<BucketState>, segNum: nat, ops: seq<Op>) {
    && |states| == |ops| + 1 && states[0].segments == map[]
    && forall i :: 0 <= i < |ops| ==> Step(states[i], states[i + 1], segNum, ops[i])
  }

  predicate CommaFreeInserts(ops: seq<Op>) {
    forall i :: 0 <= i < |ops| && ops[i].Insert? ==> CommaFree(ops[i].value)
  }

  lemma {:induction false} WithoutIsSelection(parts: seq<string>, v: string)
    requires Distinct(parts)
    ensures Distinct(Without(parts, v)) && forall x :: x in Without(parts, v) <==> x in parts && x != v
    decreases |parts|
  {
    if parts != [] {
      var rest := parts[1..];
      WithoutIsSelection(rest, v);
      assert parts == [parts[0]] + rest;
      assert parts[0] !in rest by {
        assert forall j :: 0 <= j < |rest| ==> rest[j] == parts[j + 1];
      }
    }
  }

  lemma InsertStep(before: Option<seq<string>>, op: Op)
    requires op.Insert? && CommaFree(op.value) && IsSet(before)
    ensures IsSet(ListAfterOp(before, op)) && AsText(ListAfterOp(before, op)) == Some(Inserted(AsText(before), op.value))
  {
    MergedIsAppend(before.GetOr([]), op.value);
    assert [] + [op.value] == [op.value];
  }

  lemma DeleteStep(before: Option<seq<string>>, op: Op)
    requires op.Delete? && IsSet(before)
    ensures IsSet(ListAfterOp(before, op)) && AsText(ListAfterOp(before, op)) == AfterDelete(AsText(before), op.value)
  {
    if before.Some? {
      DeletedIsWithout(before.value, op.value);
      WithoutIsSelection(before.value, op.value);
    }
  }

  /** After any run of inserts of comma-free values and of deletes, every key reads the joined list of distinct
      values that the run left it, or nothing. */
  lemma {:induction false} BucketHoldsLists(states: seq<BucketState>, segNum: nat, ops: seq<Op>, key: string)
    requires IsRun(states, segNum, ops) && CommaFreeInserts(ops)
    ensures Get(states[|ops|], segNum, key) == AsText(ListAfter(ops, key)) && IsSet(ListAfter(ops, key))
    decreases |ops|
  {
    if ops != [] {
      var n := |ops| - 1;
      assert forall i :: 0 <= i < n ==> ops[..n][i] == ops[i];
      BucketHoldsLists(states[..n + 1], segNum, ops[..n], key);
      assert Step(states[n], states[n + 1], segNum, ops[n]);
      if ops[n].key == key {
        if ops[n].Insert? {
          InsertStep(ListAfter(ops[..n], key), ops[n]);
        } else {
          DeleteStep(ListAfter(ops[..n], key), ops[n]);
        }
      }
    }
  }
}
