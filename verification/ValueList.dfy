/** Value lists of a bucket: strings joined by commas. */
module ValueList {
  import opened Wrappers

  /** `split(',')`. */
  function Split(s: string): (parts: seq<string>)
    ensures parts != []
  {
    if s == "" then [""]
    else
      var rest := Split(s[1..]);
      if s[0] == ',' then [""] + rest else [[s[0]] + rest[0]] + rest[1..]
  }

  /** `join(",")`. */
  function Join(parts: seq<string>): string {
    if parts == [] then ""
    else if |parts| == 1 then parts[0]
    else parts[0] + "," + Join(parts[1..])
  }

  predicate CommaFree(s: string) {
    forall i :: 0 <= i < |s| ==> s[i] != ','
  }

  /** A list as the bucket keeps them: parts without commas, none of them empty. */
  predicate IsList(parts: seq<string>) {
    forall i :: 0 <= i < |parts| ==> parts[i] != "" && CommaFree(parts[i])
  }

  lemma {:induction false} SplitWithoutComma(s: string)
    requires CommaFree(s)
    ensures Split(s) == [s]
  {
    if s != "" {
      SplitWithoutComma(s[1..]);
      assert [s[0]] + s[1..] == s;
    }
  }

  lemma {:induction false} SplitAtComma(head: string, tail: string)
    requires CommaFree(head)
    ensures Split(head + "," + tail) == [head] + Split(tail)
  {
    var s := head + "," + tail;
    if head == "" {
      assert s[1..] == tail;
    } else {
      assert s[1..] == head[1..] + "," + tail;
      SplitAtComma(head[1..], tail);
      assert [s[0]] + head[1..] == head;
    }
  }

  lemma {:induction false} SplitJoin(parts: seq<string>)
    requires parts != [] && IsList(parts)
    ensures Split(Join(parts)) == parts
    decreases |parts|
  {
    if |parts| == 1 {
      SplitWithoutComma(parts[0]);
    } else {
      SplitAtComma(parts[0], Join(parts[1..]));
      SplitJoin(parts[1..]);
    }
  }

  lemma {:induction false} JoinIsEmpty(parts: seq<string>)
    requires IsList(parts)
    ensures Join(parts) == "" <==> parts == []
    decreases |parts|
  {}

  lemma {:induction false} JoinSnoc(parts: seq<string>, last: string)
    requires parts != []
    ensures Join(parts + [last]) == Join(parts) + "," + last
    decreases |parts|
  {
    var all := parts + [last];
    if |parts| == 1 {
      assert all[1..] == [last];
    } else {
      assert all[1..] == parts[1..] + [last];
      JoinSnoc(parts[1..], last);
    }
  }

  function Values(value: string): seq<string> {
    if value == "" then [] else Split(value)
  }

  /** What inserting a value makes of the one already there. */
  function Merged(old_: string, newv: string): string {
    if old_ == "" then newv
    else if newv == "" then old_
    else if newv in Values(old_) then old_
    else old_ + "," + newv
  }

  function Without(parts: seq<string>, part: string): (r: seq<string>)
    ensures |r| <= |parts|
  {
    if parts == [] then []
    else (if parts[0] == part then [] else [parts[0]]) + Without(parts[1..], part)
  }

  /** Every occurrence of the part is gone, and the other parts are there as often as before. */
  lemma {:induction false} WithoutRemovesAll(parts: seq<string>, part: string)
    ensures multiset(Without(parts, part)) == multiset(parts)[part := 0]
    decreases |parts|
  {
    if parts != [] {
      WithoutRemovesAll(parts[1..], part);
      assert parts == [parts[0]] + parts[1..];
      var kept := if parts[0] == part then [] else [parts[0]];
      assert multiset(Without(parts, part)) == multiset(kept) + multiset(Without(parts[1..], part));
    }
  }

  /** What is kept stays in order. */
  lemma {:induction false} WithoutKeepsOrder(a: seq<string>, b: seq<string>, part: string)
    ensures Without(a + b, part) == Without(a, part) + Without(b, part)
    decreases |a|
  {
    if a == [] {
      assert a + b == b;
    } else {
      assert (a + b)[1..] == a[1..] + b;
      WithoutKeepsOrder(a[1..], b, part);
    }
  }

  datatype Deletion = Unchanged | Emptied | Shortened(value: string)

  /** What deleting a value does to the list. */
  function Deleted(value: string, toDel: string): Deletion {
    if toDel == "" then Unchanged
    else
      var parts := Values(value);
      var kept := Without(parts, toDel);
      if |kept| == |parts| then Unchanged
      else if kept == [] then Emptied
      else if Join(kept) == value then Unchanged
      else Shortened(Join(kept))
  }

  lemma {:induction false} WithoutLength(parts: seq<string>, part: string)
    ensures |Without(parts, part)| == |parts| <==> part !in parts
    ensures part !in parts ==> Without(parts, part) == parts
    decreases |parts|
  {
    if parts != [] {
      WithoutLength(parts[1..], part);
      assert parts == [parts[0]] + parts[1..];
    }
  }

  lemma {:induction false} WithoutKeepsList(parts: seq<string>, part: string)
    requires IsList(parts)
    ensures IsList(Without(parts, part))
    decreases |parts|
  {
    if parts != [] {
      WithoutKeepsList(parts[1..], part);
    }
  }

  /** Inserting a value without commas appends it to the list unless it is empty or already there. */
  lemma MergedIsAppend(parts: seq<string>, v: string)
    requires IsList(parts) && CommaFree(v)
    ensures
      var merged := if v == "" || v in parts then parts else parts + [v];
      IsList(merged) && Merged(Join(parts), v) == Join(merged) && Values(Join(merged)) == merged
  {
    JoinIsEmpty(parts);
    ValuesOfJoin(parts);
    var merged := if v == "" || v in parts then parts else parts + [v];
    ValuesOfJoin(merged);
    if parts != [] {
      JoinSnoc(parts, v);
    } else {
      assert [] + [v] == [v];
    }
  }

  lemma ValuesOfJoin(parts: seq<string>)
    requires IsList(parts)
    ensures Values(Join(parts)) == parts
  {
    JoinIsEmpty(parts);
    if parts != [] {
      SplitJoin(parts);
    }
  }

  /** Deleting a value removes every occurrence, and the entry with the last of them. */
  lemma DeletedIsWithout(parts: seq<string>, v: string)
    requires IsList(parts)
    ensures
      var kept := Without(parts, v);
      && multiset(kept) == multiset(parts)[v := 0]
      && IsList(kept) && Deleted(Join(parts), v) ==
        if v == "" || v !in parts then Unchanged else if kept == [] then Emptied else Shortened(Join(kept))
  {
    ValuesOfJoin(parts);
    WithoutLength(parts, v);
    WithoutKeepsList(parts, v);
    WithoutRemovesAll(parts, v);
    ValuesOfJoin(Without(parts, v));
  }
}
