/** The byte layer of AccTrie proofs: what the storager writes and what the client reads back. A curve point
    and a scalar are their uncompressed encodings. */
module ProofBytes {
  import opened Wrappers

  type Byte = x: int | 0 <= x < 256
  type Bytes = seq<Byte>

  const U32_RANGE := 0x1_0000_0000

  /** A value read at an offset, and the offset behind it. */
  datatype At<T> = At(value: T, next: nat)

  datatype Membership = Membership(opening: Bytes, element: Bytes)

  /** The foreign parts: which bytes decode as a point or a scalar, the pairing check, and the hash. */
  datatype Crypto = Crypto(isPoint: Bytes -> bool, isScalar: Bytes -> bool, pairs: (Membership, Bytes) -> bool, digest: Bytes -> Bytes)

  // ----- writing

  /** `(n as u32).to_le_bytes()`. */
  function U32Bytes(n: nat): (b: Bytes)
    ensures |b| == 4
  {
    var m := n % U32_RANGE;
    [m % 256, m / 256 % 256, m / 256 / 256 % 256, m / 256 / 256 / 256]
  }

  function U64Bytes(n: nat): (b: Bytes)
    ensures |b| == 8
  {
    U32Bytes(n) + U32Bytes(n / U32_RANGE)
  }

  function Prefixed(x: Bytes): Bytes {
    U32Bytes(|x|) + x
  }

  function Optional(x: Option<Bytes>): Bytes {
    if x.None? then [0] else [1] + Prefixed(x.value)
  }

  function MembershipBytes(m: Option<Membership>): Bytes {
    if m.None? then [0] else [1] + Prefixed(m.value.opening) + Prefixed(m.value.element)
  }

  /** The first `n` pieces, one behind the other. */
  function Joined(pieces: seq<Bytes>, n: nat): Bytes
    requires n <= |pieces|
  {
    if n == 0 then [] else Joined(pieces, n - 1) + pieces[n - 1]
  }

  function EntriesBytes(snapshot: seq<Bytes>): Bytes {
    if snapshot == [] then [] else Prefixed(snapshot[0]) + EntriesBytes(snapshot[1..])
  }

  function SnapshotBytes(snapshot: seq<Bytes>): Bytes {
    U32Bytes(|snapshot|) + EntriesBytes(snapshot)
  }

  // ----- reading

  function Weighted(b0: int, b1: int, b2: int, b3: int): int {
    b0 + 0x100 * b1 + 0x1_0000 * b2 + 0x100_0000 * b3
  }

  function U32At(b: Bytes, o: nat): nat
    requires o + 4 <= |b|
  {
    Weighted(b[o], b[o + 1], b[o + 2], b[o + 3])
  }

  /** A length and that many bytes, both within the proof. */
  function PrefixedAt(b: Bytes, o: nat): (r: Option<At<Bytes>>)
    ensures r.Some? ==> r.value.next <= |b|
  {
    if o + 4 > |b| || o + 4 + U32At(b, o) > |b| then None
    else Some(At(b[o + 4..o + 4 + U32At(b, o)], o + 4 + U32At(b, o)))
  }

  function KeyAt(b: Bytes, o: nat): Option<At<Bytes>> {
    var key :- PrefixedAt(b, o);
    if |key.value| > 1024 then None else Some(key)
  }

  /** An optional key that is stepped over without checking that it lies within the proof. */
  function SkipKey(b: Bytes, o: nat): Option<nat> {
    if o >= |b| then None
    else if b[o] != 1 then Some(o + 1)
    else if o + 5 > |b| then None
    else Some(o + 5 + U32At(b, o + 1))
  }

  /** An optional field that is stepped over and has to lie within the proof. */
  function SkipOptional(b: Bytes, o: nat): Option<nat> {
    if o >= |b| then None
    else if b[o] != 1 then Some(o + 1)
    else
      var field :- PrefixedAt(b, o + 1);
      Some(field.next)
  }

  function PointAt(c: Crypto, b: Bytes, o: nat): Option<At<Bytes>> {
    var point :- PrefixedAt(b, o);
    if c.isPoint(point.value) then Some(point) else None
  }

  /** As `PointAt`, but no bytes at all read as no point. */
  function PointOrEmptyAt(c: Crypto, b: Bytes, o: nat): Option<At<Option<Bytes>>> {
    var point :- PrefixedAt(b, o);
    if |point.value| == 0 then Some(At(None, point.next))
    else if c.isPoint(point.value) then Some(At(Some(point.value), point.next))
    else None
  }

  function OptionalPointAt(c: Crypto, b: Bytes, o: nat): Option<At<Option<Bytes>>> {
    if o >= |b| then None
    else if b[o] != 1 then Some(At(None, o + 1))
    else
      var point :- PointAt(c, b, o + 1);
      Some(At(Some(point.value), point.next))
  }

  /** As `OptionalPointAt`, but bytes that decode to no point read as an absent one. */
  function LenientPointAt(c: Crypto, b: Bytes, o: nat): Option<At<Option<Bytes>>> {
    if o >= |b| then None
    else if b[o] != 1 then Some(At(None, o + 1))
    else
      var point :- PrefixedAt(b, o + 1);
      Some(At(if c.isPoint(point.value) then Some(point.value) else None, point.next))
  }

  /** Never fails: whatever cannot be read is absent, and reading goes on where it stopped. */
  function AccumulatorAt(c: Crypto, b: Bytes, o: nat): At<Option<Bytes>> {
    if o >= |b| then At(None, o)
    else if b[o] == 0 then At(None, o + 1)
    else if o + 5 > |b| then At(None, o + 1)
    else
      var point := PointAt(c, b, o + 1);
      if point.None? then At(None, o + 5) else At(Some(point.value.value), point.value.next)
  }

  /** A length-prefixed value that decodes, or where reading stopped. */
  function DecodedAt(decodes: Bytes -> bool, b: Bytes, o: nat): At<Option<Bytes>> {
    if o + 4 > |b| then At(None, o)
    else
      var x := PrefixedAt(b, o);
      if x.None? || !decodes(x.value.value) then At(None, o + 4) else At(Some(x.value.value), x.value.next)
  }

  /** A membership proof; one that cannot be read is absent, and reading goes on where it stopped. */
  function MembershipAt(c: Crypto, b: Bytes, o: nat): At<Option<Membership>> {
    if o >= |b| then At(None, o)
    else if b[o] == 0 then At(None, o + 1)
    else
      var opening := DecodedAt(c.isPoint, b, o + 1);
      if opening.value.None? then At(None, opening.next)
      else
        var element := DecodedAt(c.isScalar, b, opening.next);
        if element.value.None? then At(None, element.next)
        else At(Some(Membership(opening.value.value, element.value.value)), element.next)
  }

  /** Whether a membership proof stands against the accumulator it belongs to. */
  predicate Approves(c: Crypto, m: Option<Membership>, acc: Option<Bytes>) {
    m.Some? && acc.Some? ==> c.pairs(m.value, acc.value)
  }

  /** Reads a membership proof and checks it, and fails when the check does. */
  function CheckedAt(c: Crypto, b: Bytes, o: nat, acc: Option<Bytes>): Option<nat> {
    var m := MembershipAt(c, b, o);
    if Approves(c, m.value, acc) then Some(m.next) else None
  }

  function CheckThree(c: Crypto, b: Bytes, o: nat, acc1: Option<Bytes>, acc2: Option<Bytes>, acc3: Option<Bytes>): Option<nat> {
    var m1 :- CheckedAt(c, b, o, acc1);
    var m2 :- CheckedAt(c, b, m1, acc2);
    CheckedAt(c, b, m2, acc3)
  }

  /** Reads a membership proof that has to be there, and checks it. */
  function RequiredAt(c: Crypto, b: Bytes, o: nat, acc: Bytes): Option<nat> {
    var m := MembershipAt(c, b, o);
    if m.value.Some? && c.pairs(m.value.value, acc) then Some(m.next) else None
  }

  function EntriesAt(b: Bytes, o: nat, count: nat): Option<At<seq<Bytes>>>
    decreases count
  {
    if count == 0 then Some(At([], o))
    else
      var entry :- PrefixedAt(b, o);
      var rest :- EntriesAt(b, entry.next, count - 1);
      Some(At([entry.value] + rest.value, rest.next))
  }

  function SnapshotAt(b: Bytes, o: nat): Option<At<seq<Bytes>>> {
    if o + 4 > |b| then None else EntriesAt(b, o + 4, U32At(b, o))
  }

  const EMPTY_TRIE: Bytes := [101, 109, 112, 116, 121, 95, 97, 99, 99, 116, 114, 105, 101]

  /** `verify_acc_root`: no root to compare with, or the digest of the snapshot is the root. */
  predicate RootStands(c: Crypto, snapshot: seq<Bytes>, root: Bytes) {
    root == [] || (|root| == 32 && c.digest(if snapshot == [] then EMPTY_TRIE else Joined(snapshot, |snapshot|)) == root)
  }

  predicate SnapshotStands(c: Crypto, b: Bytes, o: nat, root: Bytes) {
    var snapshot := SnapshotAt(b, o);
    snapshot.Some? && RootStands(c, snapshot.value.value, root)
  }

  // ----- what was written is what is read

  ghost predicate Holds(b: Bytes, o: nat, x: Bytes) {
    o + |x| <= |b| && b[o..o + |x|] == x
  }

  predicate Short(x: Bytes) {
    |x| < U32_RANGE
  }

  predicate ShortIfAny(x: Option<Bytes>) {
    x.Some? ==> Short(x.value)
  }

  /** Lengths of an uncompressed point and of a scalar of BLS12-381. */
  const POINT_LENGTH := 96
  const SCALAR_LENGTH := 32

  ghost predicate IsPoint(c: Crypto, x: Bytes) {
    |x| == POINT_LENGTH && c.isPoint(x)
  }

  ghost predicate IsPointIfAny(c: Crypto, x: Option<Bytes>) {
    x.Some? ==> IsPoint(c, x.value)
  }

  ghost predicate IsMembership(c: Crypto, m: Option<Membership>) {
    m.Some? ==> IsPoint(c, m.value.opening) && |m.value.element| == SCALAR_LENGTH && c.isScalar(m.value.element)
  }

  lemma HoldsSplit(b: Bytes, o: nat, x: Bytes, y: Bytes)
    requires Holds(b, o, x + y)
    ensures Holds(b, o, x) && Holds(b, o + |x|, y)
  {
    var all := b[o..o + |x + y|];
    assert all[..|x|] == x && all[|x|..] == y;
  }

  lemma DigitsWeighted(n: nat)
    requires n < U32_RANGE
    ensures var x := U32Bytes(n); Weighted(x[0], x[1], x[2], x[3]) == n
  {
    var q := n / 256;
    assert n == 256 * q + n % 256 && q == 256 * (q / 256) + q % 256;
  }

  lemma U32RoundTrip(b: Bytes, o: nat, n: nat)
    requires n < U32_RANGE && Holds(b, o, U32Bytes(n))
    ensures U32At(b, o) == n
  {
    var x := b[o..o + 4];
    assert b[o] == x[0] && b[o + 1] == x[1] && b[o + 2] == x[2] && b[o + 3] == x[3];
    DigitsWeighted(n);
  }

  lemma PrefixedRoundTrip(b: Bytes, o: nat, x: Bytes)
    requires Short(x) && Holds(b, o, Prefixed(x))
    ensures PrefixedAt(b, o) == Some(At(x, o + |Prefixed(x)|)) && U32At(b, o) == |x|
  {
    HoldsSplit(b, o, U32Bytes(|x|), x);
    U32RoundTrip(b, o, |x|);
  }

  lemma SkipRoundTrip(b: Bytes, o: nat, x: Option<Bytes>)
    requires ShortIfAny(x) && Holds(b, o, Optional(x))
    ensures SkipKey(b, o) == SkipOptional(b, o) == Some(o + |Optional(x)|)
  {
    assert b[o] == b[o..o + |Optional(x)|][0];
    if x.Some? {
      HoldsSplit(b, o, [1], Prefixed(x.value));
      PrefixedRoundTrip(b, o + 1, x.value);
    }
  }

  /** Bytes that decode to no point count as none. */
  function PointOnly(c: Crypto, x: Option<Bytes>): Option<Bytes> {
    if x.Some? && c.isPoint(x.value) then x else None
  }

  /** The field is absent or decodes. */
  predicate Decodes(c: Crypto, x: Option<Bytes>) {
    x.Some? ==> c.isPoint(x.value)
  }

  lemma OptionalRoundTrip(c: Crypto, b: Bytes, o: nat, x: Option<Bytes>)
    requires ShortIfAny(x) && Holds(b, o, Optional(x))
    ensures OptionalPointAt(c, b, o) == if Decodes(c, x) then Some(At(x, o + |Optional(x)|)) else None
    ensures LenientPointAt(c, b, o) == Some(At(PointOnly(c, x), o + |Optional(x)|))
    ensures AccumulatorAt(c, b, o) == if Decodes(c, x) then At(x, o + |Optional(x)|) else At(None, o + 5)
  {
    assert b[o] == b[o..o + |Optional(x)|][0];
    if x.Some? {
      HoldsSplit(b, o, [1], Prefixed(x.value));
      PrefixedRoundTrip(b, o + 1, x.value);
    }
  }

  lemma MembershipRoundTrip(c: Crypto, b: Bytes, o: nat, m: Option<Membership>)
    requires IsMembership(c, m) && Holds(b, o, MembershipBytes(m))
    ensures MembershipAt(c, b, o) == At(m, o + |MembershipBytes(m)|) && b[o] == if m.None? then 0 else 1
  {
    assert b[o] == b[o..o + |MembershipBytes(m)|][0];
    if m.Some? {
      var w, e := Prefixed(m.value.opening), Prefixed(m.value.element);
      HoldsSplit(b, o, [1] + w, e);
      HoldsSplit(b, o, [1], w);
      PrefixedRoundTrip(b, o + 1, m.value.opening);
      PrefixedRoundTrip(b, o + 1 + |w|, m.value.element);
    }
  }

  /** A membership proof that does not decode is absent, and reading goes on behind the length of the part that does not. */
  lemma UnreadableMembership(c: Crypto, b: Bytes, o: nat, m: Membership)
    requires Short(m.opening) && Short(m.element) && Holds(b, o, MembershipBytes(Some(m)))
    ensures !c.isPoint(m.opening) ==> MembershipAt(c, b, o) == At(None, o + 5)
    ensures c.isPoint(m.opening) && !c.isScalar(m.element) ==> MembershipAt(c, b, o) == At(None, o + 9 + |m.opening|)
  {
    assert b[o] == b[o..o + |MembershipBytes(Some(m))|][0];
    var w, e := Prefixed(m.opening), Prefixed(m.element);
    HoldsSplit(b, o, [1] + w, e);
    HoldsSplit(b, o, [1], w);
    PrefixedRoundTrip(b, o + 1, m.opening);
    PrefixedRoundTrip(b, o + 1 + |w|, m.element);
  }

  predicate AllShort(snapshot: seq<Bytes>) {
    forall i :: 0 <= i < |snapshot| ==> Short(snapshot[i])
  }

  /** An entry that is read, and the entries behind it. */
  lemma EntriesStep(b: Bytes, o: nat, head: Bytes, next: nat, rest: seq<Bytes>, end: nat)
    requires PrefixedAt(b, o) == Some(At(head, next)) && EntriesAt(b, next, |rest|) == Some(At(rest, end))
    ensures EntriesAt(b, o, |rest| + 1) == Some(At([head] + rest, end))
  {}

  lemma EntryRoundTrip(b: Bytes, o: nat, head: Bytes, tail: Bytes)
    requires Short(head) && Holds(b, o, Prefixed(head) + tail)
    ensures PrefixedAt(b, o) == Some(At(head, o + |Prefixed(head)|)) && Holds(b, o + |Prefixed(head)|, tail)
  {
    HoldsSplit(b, o, Prefixed(head), tail);
    PrefixedRoundTrip(b, o, head);
  }

  lemma {:induction false} EntriesRoundTrip(b: Bytes, o: nat, snapshot: seq<Bytes>)
    requires AllShort(snapshot) && Holds(b, o, EntriesBytes(snapshot))
    ensures EntriesAt(b, o, |snapshot|) == Some(At(snapshot, o + |EntriesBytes(snapshot)|))
    decreases |snapshot|
  {
    if snapshot != [] {
      var head, rest := snapshot[0], snapshot[1..];
      var next := o + |Prefixed(head)|;
      assert PrefixedAt(b, o) == Some(At(head, next)) && Holds(b, next, EntriesBytes(rest)) by {
        EntryRoundTrip(b, o, head, EntriesBytes(rest));
      }
      assert EntriesAt(b, o, |rest| + 1) == Some(At([head] + rest, next + |EntriesBytes(rest)|)) by {
        EntriesRoundTrip(b, next, rest);
        EntriesStep(b, o, head, next, rest, next + |EntriesBytes(rest)|);
      }
      assert snapshot == [head] + rest;
    }
  }

  ghost predicate SnapshotFits(snapshot: seq<Bytes>) {
    |snapshot| < U32_RANGE && AllShort(snapshot)
  }

  /** The snapshot is read back unchanged, up to the last byte written. */
  lemma SnapshotRoundTrip(b: Bytes, o: nat, snapshot: seq<Bytes>)
    requires SnapshotFits(snapshot) && Holds(b, o, SnapshotBytes(snapshot))
    ensures SnapshotAt(b, o) == Some(At(snapshot, o + |SnapshotBytes(snapshot)|))
  {
    HoldsSplit(b, o, U32Bytes(|snapshot|), EntriesBytes(snapshot));
    U32RoundTrip(b, o, |snapshot|);
    EntriesRoundTrip(b, o + 4, snapshot);
  }

  /** Piece `i` of what was written lies behind the pieces before it. */
  lemma {:induction false} PieceAt(pieces: seq<Bytes>, i: nat, n: nat)
    requires i < n <= |pieces|
    ensures Holds(Joined(pieces, n), |Joined(pieces, i)|, pieces[i])
    ensures |Joined(pieces, i + 1)| == |Joined(pieces, i)| + |pieces[i]|
    decreases n
  {
    if i < n - 1 {
      PieceAt(pieces, i, n - 1);
      var init := Joined(pieces, n - 1);
      assert Joined(pieces, n)[..|init|] == init;
      var o := |Joined(pieces, i)|;
      assert Joined(pieces, n)[o..o + |pieces[i]|] == init[o..o + |pieces[i]|];
    }
  }

  lemma {:induction false} JoinedGrows(pieces: seq<Bytes>, i: nat, n: nat)
    requires i <= n <= |pieces|
    ensures |Joined(pieces, i)| <= |Joined(pieces, n)|
    decreases n
  {
    if i < n {
      JoinedGrows(pieces, i, n - 1);
    }
  }

  // ----- reading piece by piece

  function All(pieces: seq<Bytes>): Bytes {
    Joined(pieces, |pieces|)
  }

  function Start(pieces: seq<Bytes>, i: nat): nat
    requires i <= |pieces|
  {
    |Joined(pieces, i)|
  }

  lemma PrefixedPiece(ps: seq<Bytes>, i: nat, x: Bytes)
    requires i < |ps| && ps[i] == Prefixed(x) && Short(x)
    ensures PrefixedAt(All(ps), Start(ps, i)) == Some(At(x, Start(ps, i + 1)))
  {
    PieceAt(ps, i, |ps|);
    PrefixedRoundTrip(All(ps), Start(ps, i), x);
  }

  lemma SkippedPiece(ps: seq<Bytes>, i: nat, x: Option<Bytes>)
    requires i < |ps| && ps[i] == Optional(x) && ShortIfAny(x)
    ensures SkipKey(All(ps), Start(ps, i)) == SkipOptional(All(ps), Start(ps, i)) == Some(Start(ps, i + 1))
  {
    PieceAt(ps, i, |ps|);
    SkipRoundTrip(All(ps), Start(ps, i), x);
  }

  /** No bytes stand for no value. */
  function Present(x: Bytes): Option<Bytes> {
    if x == [] then None else Some(x)
  }

  lemma PointPiece(c: Crypto, ps: seq<Bytes>, i: nat, x: Bytes)
    requires i < |ps| && ps[i] == Prefixed(x) && Short(x)
    ensures PointAt(c, All(ps), Start(ps, i)) == if c.isPoint(x) then Some(At(x, Start(ps, i + 1))) else None
    ensures PointOrEmptyAt(c, All(ps), Start(ps, i))
      == if Decodes(c, Present(x)) then Some(At(Present(x), Start(ps, i + 1))) else None
  {
    PrefixedPiece(ps, i, x);
  }

  lemma OptionalPiece(c: Crypto, ps: seq<Bytes>, i: nat, x: Option<Bytes>)
    requires i < |ps| && ps[i] == Optional(x) && ShortIfAny(x)
    ensures OptionalPointAt(c, All(ps), Start(ps, i)) == if Decodes(c, x) then Some(At(x, Start(ps, i + 1))) else None
    ensures LenientPointAt(c, All(ps), Start(ps, i)) == Some(At(PointOnly(c, x), Start(ps, i + 1)))
    ensures Decodes(c, x) ==> AccumulatorAt(c, All(ps), Start(ps, i)) == At(x, Start(ps, i + 1))
  {
    PieceAt(ps, i, |ps|);
    OptionalRoundTrip(c, All(ps), Start(ps, i), x);
  }

  lemma CheckedPiece(c: Crypto, ps: seq<Bytes>, i: nat, m: Option<Membership>, acc: Option<Bytes>)
    requires i < |ps| && ps[i] == MembershipBytes(m) && IsMembership(c, m)
    ensures CheckedAt(c, All(ps), Start(ps, i), acc) == if Approves(c, m, acc) then Some(Start(ps, i + 1)) else None
  {
    PieceAt(ps, i, |ps|);
    MembershipRoundTrip(c, All(ps), Start(ps, i), m);
  }

  lemma CheckedPieces(c: Crypto, ps: seq<Bytes>, i: nat, m1: Option<Membership>, m2: Option<Membership>, m3: Option<Membership>,
                      acc1: Option<Bytes>, acc2: Option<Bytes>, acc3: Option<Bytes>)
    requires i + 2 < |ps| && IsMembership(c, m1) && IsMembership(c, m2) && IsMembership(c, m3)
    requires ps[i] == MembershipBytes(m1) && ps[i + 1] == MembershipBytes(m2) && ps[i + 2] == MembershipBytes(m3)
    ensures CheckThree(c, All(ps), Start(ps, i), acc1, acc2, acc3) ==
            if Approves(c, m1, acc1) && Approves(c, m2, acc2) && Approves(c, m3, acc3) then Some(Start(ps, i + 3)) else None
  {
    CheckedPiece(c, ps, i, m1, acc1);
    CheckedPiece(c, ps, i + 1, m2, acc2);
    CheckedPiece(c, ps, i + 2, m3, acc3);
  }

  lemma RequiredPiece(c: Crypto, ps: seq<Bytes>, i: nat, m: Option<Membership>, acc: Bytes)
    requires i < |ps| && ps[i] == MembershipBytes(m) && IsMembership(c, m)
    ensures RequiredAt(c, All(ps), Start(ps, i), acc) == if m.Some? && c.pairs(m.value, acc) then Some(Start(ps, i + 1)) else None
  {
    PieceAt(ps, i, |ps|);
    MembershipRoundTrip(c, All(ps), Start(ps, i), m);
  }

  /** A last piece that holds the snapshot. */
  lemma SnapshotPiece(c: Crypto, ps: seq<Bytes>, snapshot: seq<Bytes>, root: Bytes)
    requires ps != [] && ps[|ps| - 1] == SnapshotBytes(snapshot) && SnapshotFits(snapshot)
    ensures SnapshotStands(c, All(ps), Start(ps, |ps| - 1), root) <==> RootStands(c, snapshot, root)
    ensures Start(ps, |ps| - 1) + 4 <= |All(ps)|
  {
    PieceAt(ps, |ps| - 1, |ps|);
    SnapshotRoundTrip(All(ps), Start(ps, |ps| - 1), snapshot);
  }
}
