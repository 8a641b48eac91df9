/** The layout of AccTrie insertion, deletion and query proofs, what the client's verifier makes of any bytes,
    and that its verdict on what the storager wrote is the verdict on the proof itself. */
module ProofCodec {
  import opened Wrappers
  import opened ProofBytes

  // ----- insertion

  datatype InsertionProof = InsertionProof(
    key: Bytes, value: Bytes, keyPrev: Option<Bytes>, keyNext: Option<Bytes>,
    accOld: Bytes, accNew: Bytes, prevAcc: Option<Bytes>, nextOld: Option<Bytes>, nextNew: Option<Bytes>,
    keypInNextOld: Option<Membership>, keypInLn: Option<Membership>, noPrevInLn: Option<Membership>,
    keyInNextNew: Option<Membership>, keypInNextNew: Option<Membership>, valueInLn: Option<Membership>)

  function InsertionPieces(p: InsertionProof, snapshot: Option<seq<Bytes>>): (r: seq<Bytes>)
    ensures |r| == 17
  {
    [[1], Prefixed(p.key), Prefixed(p.value), Optional(p.keyPrev), Optional(p.keyNext)]
    + [Prefixed(p.accOld), Prefixed(p.accNew), Optional(p.prevAcc), Optional(p.nextOld), Optional(p.nextNew)]
    + [MembershipBytes(p.keypInNextOld), MembershipBytes(p.keypInLn), MembershipBytes(p.noPrevInLn)]
    + [MembershipBytes(p.keyInNextNew), MembershipBytes(p.keypInNextNew), MembershipBytes(p.valueInLn)]
    + [if snapshot.Some? then SnapshotBytes(snapshot.value) else []]
  }

  function InsertionBytes(p: InsertionProof, snapshot: Option<seq<Bytes>>): Bytes {
    All(InsertionPieces(p, snapshot))
  }

  ghost predicate InsertionFits(c: Crypto, p: InsertionProof) {
    && Short(p.key) && Short(p.value) && ShortIfAny(p.keyPrev) && ShortIfAny(p.keyNext)
    && Short(p.accOld) && Short(p.accNew) && ShortIfAny(p.prevAcc) && ShortIfAny(p.nextOld) && ShortIfAny(p.nextNew)
    && IsMembership(c, p.keypInNextOld) && IsMembership(c, p.keypInLn) && IsMembership(c, p.noPrevInLn)
    && IsMembership(c, p.keyInNextNew) && IsMembership(c, p.keypInNextNew) && IsMembership(c, p.valueInLn)
  }

  /** Every membership proof that is there stands against its accumulator, if that is not empty. */
  predicate InsertionStands(c: Crypto, p: InsertionProof) {
    var accNew := Present(p.accNew);
    && Approves(c, p.keypInNextOld, p.nextOld) && Approves(c, p.keypInLn, accNew) && Approves(c, p.noPrevInLn, accNew)
    && Approves(c, p.keyInNextNew, p.nextNew) && Approves(c, p.keypInNextNew, p.nextNew) && Approves(c, p.valueInLn, accNew)
  }

  /** The accumulators are points; those of the leaf may be empty. */
  predicate InsertionDecodes(c: Crypto, p: InsertionProof) {
    && Decodes(c, Present(p.accOld)) && Decodes(c, Present(p.accNew))
    && Decodes(c, p.prevAcc) && Decodes(c, p.nextOld) && Decodes(c, p.nextNew)
  }

  /** The accumulators an insertion proof is checked against. */
  datatype InsertionAccs = InsertionAccs(accNew: Option<Bytes>, nextOld: Option<Bytes>, nextNew: Option<Bytes>)

  function InsertionHeadEnd(b: Bytes): Option<nat> {
    var key :- KeyAt(b, 1);
    var value :- PrefixedAt(b, key.next);
    var prev :- SkipKey(b, value.next);
    SkipKey(b, prev)
  }

  function InsertionAccsAt(c: Crypto, b: Bytes, o: nat): Option<At<InsertionAccs>> {
    var accOld :- PointOrEmptyAt(c, b, o);
    var accNew :- PointOrEmptyAt(c, b, accOld.next);
    var prevAcc :- OptionalPointAt(c, b, accNew.next);
    var nextOld :- OptionalPointAt(c, b, prevAcc.next);
    var nextNew :- OptionalPointAt(c, b, nextOld.next);
    Some(At(InsertionAccs(accNew.value, nextOld.value, nextNew.value), nextNew.next))
  }

  function InsertionChecksEnd(c: Crypto, b: Bytes, o: nat, accs: InsertionAccs): Option<nat> {
    var half :- CheckThree(c, b, o, accs.nextOld, accs.accNew, accs.accNew);
    CheckThree(c, b, half, accs.nextNew, accs.nextNew, accs.accNew)
  }

  function InsertionEnd(c: Crypto, b: Bytes): Option<nat> {
    var head :- if |b| < 100 then None else InsertionHeadEnd(b);
    var accs :- InsertionAccsAt(c, b, head);
    InsertionChecksEnd(c, b, accs.next, accs.value)
  }

  /** `verify_acctrie_insertion_proof`. */
  predicate InsertionVerdict(c: Crypto, b: Bytes, root: Bytes) {
    var end := InsertionEnd(c, b);
    end.Some? && if end.value == |b| then root == [] else SnapshotStands(c, b, end.value, root)
  }

  /** The pieces of an insertion proof, in groups that are read together. */
  ghost predicate InsertionHeadPieces(ps: seq<Bytes>, p: InsertionProof) {
    && |ps| == 17 && |ps[0]| == 1 && ps[1] == Prefixed(p.key) && ps[2] == Prefixed(p.value)
    && ps[3] == Optional(p.keyPrev) && ps[4] == Optional(p.keyNext)
  }

  ghost predicate InsertionAccPieces(ps: seq<Bytes>, p: InsertionProof) {
    && |ps| == 17 && ps[5] == Prefixed(p.accOld) && ps[6] == Prefixed(p.accNew)
    && ps[7] == Optional(p.prevAcc) && ps[8] == Optional(p.nextOld) && ps[9] == Optional(p.nextNew)
  }

  ghost predicate InsertionCheckPieces(ps: seq<Bytes>, p: InsertionProof) {
    && |ps| == 17
    && ps[10] == MembershipBytes(p.keypInNextOld) && ps[11] == MembershipBytes(p.keypInLn) && ps[12] == MembershipBytes(p.noPrevInLn)
    && ps[13] == MembershipBytes(p.keyInNextNew) && ps[14] == MembershipBytes(p.keypInNextNew) && ps[15] == MembershipBytes(p.valueInLn)
  }

  lemma InsertionPiecesInGroups(p: InsertionProof, snapshot: Option<seq<Bytes>>)
    ensures var ps := InsertionPieces(p, snapshot);
            InsertionHeadPieces(ps, p) && InsertionAccPieces(ps, p) && InsertionCheckPieces(ps, p)
  {}

  lemma InsertionHeadRead(c: Crypto, ps: seq<Bytes>, p: InsertionProof)
    requires InsertionHeadPieces(ps, p) && InsertionFits(c, p)
    ensures InsertionHeadEnd(All(ps)) == if |p.key| <= 1024 then Some(Start(ps, 5)) else None
  {
    assert Start(ps, 1) == 1 by { PieceAt(ps, 0, 17); }
    PrefixedPiece(ps, 1, p.key);
    PrefixedPiece(ps, 2, p.value);
    SkippedPiece(ps, 3, p.keyPrev);
    SkippedPiece(ps, 4, p.keyNext);
  }

  lemma InsertionAccsRead(c: Crypto, ps: seq<Bytes>, p: InsertionProof)
    requires InsertionAccPieces(ps, p) && InsertionFits(c, p)
    ensures InsertionAccsAt(c, All(ps), Start(ps, 5)) ==
      if InsertionDecodes(c, p) then Some(At(InsertionAccs(Present(p.accNew), p.nextOld, p.nextNew), Start(ps, 10))) else None
  {
    PointPiece(c, ps, 5, p.accOld);
    PointPiece(c, ps, 6, p.accNew);
    OptionalPiece(c, ps, 7, p.prevAcc);
    OptionalPiece(c, ps, 8, p.nextOld);
    OptionalPiece(c, ps, 9, p.nextNew);
  }

  lemma InsertionChecksRead(c: Crypto, ps: seq<Bytes>, p: InsertionProof)
    requires InsertionCheckPieces(ps, p) && InsertionFits(c, p)
    ensures InsertionChecksEnd(c, All(ps), Start(ps, 10), InsertionAccs(Present(p.accNew), p.nextOld, p.nextNew))
         == if InsertionStands(c, p) then Some(Start(ps, 16)) else None
  {
    CheckedPieces(c, ps, 10, p.keypInNextOld, p.keypInLn, p.noPrevInLn, p.nextOld, Present(p.accNew), Present(p.accNew));
    CheckedPieces(c, ps, 13, p.keyInNextNew, p.keypInNextNew, p.valueInLn, p.nextNew, p.nextNew, Present(p.accNew));
  }

  lemma InsertionEndRead(c: Crypto, ps: seq<Bytes>, p: InsertionProof, snapshot: Option<seq<Bytes>>)
    requires InsertionFits(c, p) && ps == InsertionPieces(p, snapshot)
    ensures InsertionEnd(c, All(ps)) ==
      if |All(ps)| >= 100 && |p.key| <= 1024 && InsertionDecodes(c, p) && InsertionStands(c, p) then Some(Start(ps, 16)) else None
  {
    InsertionPiecesInGroups(p, snapshot);
    InsertionHeadRead(c, ps, p);
    InsertionAccsRead(c, ps, p);
    InsertionChecksRead(c, ps, p);
  }

  /** A written insertion proof is accepted exactly when it is not too short, its key is within the limit, its accumulators
      are points, its membership proofs stand, and the root is the snapshot's, or not asked for. */
  lemma WrittenInsertionVerdict(c: Crypto, p: InsertionProof, snapshot: Option<seq<Bytes>>, root: Bytes)
    requires InsertionFits(c, p) && (snapshot.Some? ==> SnapshotFits(snapshot.value))
    ensures InsertionVerdict(c, InsertionBytes(p, snapshot), root) <==>
      && |InsertionBytes(p, snapshot)| >= 100 && |p.key| <= 1024 && InsertionDecodes(c, p) && InsertionStands(c, p)
      && if snapshot.Some? then RootStands(c, snapshot.value, root) else root == []
  {
    var ps := InsertionPieces(p, snapshot);
    InsertionEndRead(c, ps, p, snapshot);
    if snapshot.Some? {
      SnapshotPiece(c, ps, snapshot.value, root);
    } else {
      assert Start(ps, 16) == |All(ps)| by { PieceAt(ps, 16, 17); }
    }
  }

  // ----- deletion

  datatype DeletionProof = DeletionProof(
    key: Bytes, entireLeaf: bool, value: Option<Bytes>, keyPrev: Option<Bytes>, keyNext: Option<Bytes>,
    accOld: Bytes, accNew: Option<Bytes>, nextOld: Option<Bytes>, nextNew: Option<Bytes>,
    valueInLnOld: Option<Membership>, keypInLn: Option<Membership>, keyInNextOld: Option<Membership>, keypInNextNew: Option<Membership>)

  function DeletionPieces(p: DeletionProof, snapshot: seq<Bytes>): (r: seq<Bytes>)
    ensures |r| == 15
  {
    [[2], Prefixed(p.key), [if p.entireLeaf then 1 else 0], Optional(p.value), Optional(p.keyPrev), Optional(p.keyNext)]
    + [Prefixed(p.accOld), Optional(p.accNew), Optional(p.nextOld), Optional(p.nextNew)]
    + [MembershipBytes(p.valueInLnOld), MembershipBytes(p.keypInLn), MembershipBytes(p.keyInNextOld), MembershipBytes(p.keypInNextNew)]
    + [SnapshotBytes(snapshot)]
  }

  function DeletionBytes(p: DeletionProof, snapshot: seq<Bytes>): Bytes {
    All(DeletionPieces(p, snapshot))
  }

  ghost predicate DeletionFits(c: Crypto, p: DeletionProof) {
    && Short(p.key) && ShortIfAny(p.value) && ShortIfAny(p.keyPrev) && ShortIfAny(p.keyNext)
    && Short(p.accOld) && ShortIfAny(p.accNew) && ShortIfAny(p.nextOld) && ShortIfAny(p.nextNew)
    && IsMembership(c, p.valueInLnOld) && IsMembership(c, p.keypInLn) && IsMembership(c, p.keyInNextOld) && IsMembership(c, p.keypInNextNew)
  }

  predicate DeletionStands(c: Crypto, p: DeletionProof) {
    && Approves(c, p.valueInLnOld, Some(p.accOld)) && Approves(c, p.keypInLn, Some(p.accOld))
    && Approves(c, p.keyInNextOld, PointOnly(c, p.nextOld)) && Approves(c, p.keypInNextNew, PointOnly(c, p.nextNew))
  }

  /** The leaf's accumulators are points; those of the next leaf need not be. */
  predicate DeletionDecodes(c: Crypto, p: DeletionProof) {
    c.isPoint(p.accOld) && Decodes(c, p.accNew)
  }

  datatype DeletionAccs = DeletionAccs(accOld: Bytes, nextOld: Option<Bytes>, nextNew: Option<Bytes>)

  function DeletionHeadEnd(b: Bytes): Option<nat> {
    var key :- KeyAt(b, 1);
    var value :- if key.next >= |b| then None else SkipOptional(b, key.next + 1);
    var prev :- SkipKey(b, value);
    SkipKey(b, prev)
  }

  function DeletionAccsAt(c: Crypto, b: Bytes, o: nat): Option<At<DeletionAccs>> {
    var accOld :- PointAt(c, b, o);
    var accNew :- OptionalPointAt(c, b, accOld.next);
    var nextOld :- LenientPointAt(c, b, accNew.next);
    var nextNew :- LenientPointAt(c, b, nextOld.next);
    Some(At(DeletionAccs(accOld.value, nextOld.value, nextNew.value), nextNew.next))
  }

  function DeletionChecksEnd(c: Crypto, b: Bytes, o: nat, accs: DeletionAccs): Option<nat> {
    var three :- CheckThree(c, b, o, Some(accs.accOld), Some(accs.accOld), accs.nextOld);
    CheckedAt(c, b, three, accs.nextNew)
  }

  function DeletionEnd(c: Crypto, b: Bytes): Option<nat> {
    var head :- if |b| < 50 then None else DeletionHeadEnd(b);
    var accs :- DeletionAccsAt(c, b, head);
    DeletionChecksEnd(c, b, accs.next, accs.value)
  }

  /** `verify_acctrie_deletion_proof`. */
  predicate DeletionVerdict(c: Crypto, b: Bytes, root: Bytes) {
    var end := DeletionEnd(c, b);
    end.Some? && SnapshotStands(c, b, end.value, root)
  }

  ghost predicate DeletionHeadPieces(ps: seq<Bytes>, p: DeletionProof) {
    && |ps| == 15 && |ps[0]| == 1 && ps[1] == Prefixed(p.key) && |ps[2]| == 1 && ps[3] == Optional(p.value)
    && ps[4] == Optional(p.keyPrev) && ps[5] == Optional(p.keyNext)
  }

  ghost predicate DeletionAccPieces(ps: seq<Bytes>, p: DeletionProof) {
    && |ps| == 15 && ps[6] == Prefixed(p.accOld) && ps[7] == Optional(p.accNew) && ps[8] == Optional(p.nextOld) && ps[9] == Optional(p.nextNew)
  }

  ghost predicate DeletionCheckPieces(ps: seq<Bytes>, p: DeletionProof) {
    && |ps| == 15 && ps[10] == MembershipBytes(p.valueInLnOld) && ps[11] == MembershipBytes(p.keypInLn)
    && ps[12] == MembershipBytes(p.keyInNextOld) && ps[13] == MembershipBytes(p.keypInNextNew)
  }

  lemma DeletionPiecesInGroups(p: DeletionProof, snapshot: seq<Bytes>)
    ensures var ps := DeletionPieces(p, snapshot);
            DeletionHeadPieces(ps, p) && DeletionAccPieces(ps, p) && DeletionCheckPieces(ps, p)
  {}

  lemma DeletionHeadRead(c: Crypto, ps: seq<Bytes>, p: DeletionProof)
    requires DeletionHeadPieces(ps, p) && DeletionFits(c, p)
    ensures DeletionHeadEnd(All(ps)) == if |p.key| <= 1024 then Some(Start(ps, 6)) else None
  {
    assert Start(ps, 1) == 1 by { PieceAt(ps, 0, 15); }
    PrefixedPiece(ps, 1, p.key);
    assert Start(ps, 3) == Start(ps, 2) + 1 <= |All(ps)| by { PieceAt(ps, 2, 15); }
    SkippedPiece(ps, 3, p.value);
    SkippedPiece(ps, 4, p.keyPrev);
    SkippedPiece(ps, 5, p.keyNext);
  }

  lemma DeletionAccsRead(c: Crypto, ps: seq<Bytes>, p: DeletionProof)
    requires DeletionAccPieces(ps, p) && DeletionFits(c, p)
    ensures DeletionAccsAt(c, All(ps), Start(ps, 6)) ==
      if DeletionDecodes(c, p) then Some(At(DeletionAccs(p.accOld, PointOnly(c, p.nextOld), PointOnly(c, p.nextNew)), Start(ps, 10)))
      else None
  {
    PointPiece(c, ps, 6, p.accOld);
    OptionalPiece(c, ps, 7, p.accNew);
    OptionalPiece(c, ps, 8, p.nextOld);
    OptionalPiece(c, ps, 9, p.nextNew);
  }

  lemma DeletionChecksRead(c: Crypto, ps: seq<Bytes>, p: DeletionProof)
    requires DeletionCheckPieces(ps, p) && DeletionFits(c, p)
    ensures DeletionChecksEnd(c, All(ps), Start(ps, 10), DeletionAccs(p.accOld, PointOnly(c, p.nextOld), PointOnly(c, p.nextNew)))
         == if DeletionStands(c, p) then Some(Start(ps, 14)) else None
  {
    CheckedPieces(c, ps, 10, p.valueInLnOld, p.keypInLn, p.keyInNextOld, Some(p.accOld), Some(p.accOld), PointOnly(c, p.nextOld));
    CheckedPiece(c, ps, 13, p.keypInNextNew, PointOnly(c, p.nextNew));
  }

  lemma DeletionEndRead(c: Crypto, ps: seq<Bytes>, p: DeletionProof, snapshot: seq<Bytes>)
    requires DeletionFits(c, p) && ps == DeletionPieces(p, snapshot)
    ensures DeletionEnd(c, All(ps)) ==
      if |All(ps)| >= 50 && |p.key| <= 1024 && DeletionDecodes(c, p) && DeletionStands(c, p) then Some(Start(ps, 14)) else None
  {
    DeletionPiecesInGroups(p, snapshot);
    DeletionHeadRead(c, ps, p);
    DeletionAccsRead(c, ps, p);
    DeletionChecksRead(c, ps, p);
  }

  /** A written deletion proof is accepted exactly when it is not too short, its key is within the limit, the leaf's
      accumulators are points, its membership proofs stand, and the root is the snapshot's, or not given. */
  lemma WrittenDeletionVerdict(c: Crypto, p: DeletionProof, snapshot: seq<Bytes>, root: Bytes)
    requires DeletionFits(c, p) && SnapshotFits(snapshot)
    ensures DeletionVerdict(c, DeletionBytes(p, snapshot), root) <==>
      && |DeletionBytes(p, snapshot)| >= 50 && |p.key| <= 1024 && DeletionDecodes(c, p) && DeletionStands(c, p)
      && RootStands(c, snapshot, root)
  {
    var ps := DeletionPieces(p, snapshot);
    DeletionEndRead(c, ps, p, snapshot);
    SnapshotPiece(c, ps, snapshot, root);
  }

  // ----- queries

  datatype QueryProof =
    | Exists(key: Bytes, value: Bytes, valueCount: nat, lnAcc: Bytes, membership: Option<Membership>, count: Option<Membership>,
             rootAcc: Option<Bytes>, lnInRoot: Option<Membership>)
    | NotExists(key: Bytes, keyPrev: Option<Bytes>, keyNext: Option<Bytes>, nextAcc: Option<Bytes>,
                prevInNext: Option<Membership>, nextInNext: Option<Membership>, rootAcc: Option<Bytes>, lnInRoot: Option<Membership>)

  function QueryPieces(p: QueryProof, snapshot: seq<Bytes>): (r: seq<Bytes>)
    ensures |r| == 11
  {
    if p.Exists? then
      [[3], [1], Prefixed(p.key)] + [Prefixed(p.value), U64Bytes(p.valueCount), Prefixed(p.lnAcc)]
      + [MembershipBytes(p.membership), MembershipBytes(p.count), Optional(p.rootAcc), MembershipBytes(p.lnInRoot)]
      + [SnapshotBytes(snapshot)]
    else
      [[3], [0], Prefixed(p.key)] + [Optional(p.keyPrev), Optional(p.keyNext), Optional(p.nextAcc)]
      + [MembershipBytes(p.prevInNext), MembershipBytes(p.nextInNext), Optional(p.rootAcc), MembershipBytes(p.lnInRoot)]
      + [SnapshotBytes(snapshot)]
  }

  function QueryBytes(p: QueryProof, snapshot: seq<Bytes>): Bytes {
    All(QueryPieces(p, snapshot))
  }

  ghost predicate QueryFits(c: Crypto, p: QueryProof) {
    && Short(p.key) && IsPointIfAny(c, p.rootAcc) && IsMembership(c, p.lnInRoot)
    && if p.Exists? then
         Short(p.value) && Short(p.lnAcc) && IsMembership(c, p.membership) && IsMembership(c, p.count)
       else
         && ShortIfAny(p.keyPrev) && ShortIfAny(p.keyNext) && ShortIfAny(p.nextAcc)
         && IsMembership(c, p.prevInNext) && IsMembership(c, p.nextInNext)
  }

  predicate Proves(c: Crypto, m: Option<Membership>, acc: Bytes) {
    m.Some? && c.pairs(m.value, acc)
  }

  /** An answer that the value exists has to be proved in full; one that it does not is checked as far as it goes. */
  predicate QueryStands(c: Crypto, p: QueryProof) {
    if p.Exists? then
      && c.isPoint(p.lnAcc) && Proves(c, p.membership, p.lnAcc) && Proves(c, p.count, p.lnAcc)
      && p.rootAcc.Some? && Proves(c, p.lnInRoot, p.rootAcc.value)
    else
      && Decodes(c, p.nextAcc) && Approves(c, p.prevInNext, p.nextAcc) && Approves(c, p.nextInNext, p.nextAcc)
      && Approves(c, p.lnInRoot, p.rootAcc)
  }

  function LeafAccAt(c: Crypto, b: Bytes, o: nat): Option<At<Bytes>> {
    var value :- PrefixedAt(b, o);
    if value.next + 8 > |b| then None else PointAt(c, b, value.next + 8)
  }

  /** The value and its count are in the leaf's accumulator. */
  function LeafEnd(c: Crypto, b: Bytes, o: nat): Option<nat> {
    var lnAcc :- LeafAccAt(c, b, o);
    var membership :- RequiredAt(c, b, lnAcc.next, lnAcc.value);
    RequiredAt(c, b, membership, lnAcc.value)
  }

  /** The leaf's accumulator is in the root's. */
  function RootEnd(c: Crypto, b: Bytes, o: nat): Option<nat> {
    var rootAcc := AccumulatorAt(c, b, o);
    if rootAcc.value.None? then None else RequiredAt(c, b, rootAcc.next, rootAcc.value.value)
  }

  function ExistsEnd(c: Crypto, b: Bytes, o: nat): Option<nat> {
    var leaf :- LeafEnd(c, b, o);
    RootEnd(c, b, leaf)
  }

  function NotExistsEnd(c: Crypto, b: Bytes, o: nat): Option<nat> {
    var prev :- SkipOptional(b, o);
    var next :- SkipOptional(b, prev);
    var nextAcc :- OptionalPointAt(c, b, next);
    var prevInNext :- CheckedAt(c, b, nextAcc.next, nextAcc.value);
    var nextInNext :- CheckedAt(c, b, prevInNext, nextAcc.value);
    var rootAcc := AccumulatorAt(c, b, nextInNext);
    CheckedAt(c, b, rootAcc.next, rootAcc.value)
  }

  function QueryEnd(c: Crypto, b: Bytes): Option<nat> {
    if |b| < 10 then None
    else
      var key :- KeyAt(b, 2);
      if b[1] == 1 then ExistsEnd(c, b, key.next) else NotExistsEnd(c, b, key.next)
  }

  /** `verify_acctrie_query_proof`. */
  predicate QueryVerdict(c: Crypto, b: Bytes, root: Bytes) {
    var end := QueryEnd(c, b);
    end.Some? && SnapshotStands(c, b, end.value, root)
  }

  ghost predicate QueryHeadPieces(ps: seq<Bytes>, p: QueryProof) {
    |ps| == 11 && |ps[0]| == 1 && ps[1] == [if p.Exists? then 1 else 0] && ps[2] == Prefixed(p.key) && |ps[10]| >= 4
  }

  ghost predicate QueryBodyPieces(ps: seq<Bytes>, p: QueryProof) {
    && |ps| == 11 && ps[8] == Optional(p.rootAcc) && ps[9] == MembershipBytes(p.lnInRoot)
    && if p.Exists? then
         && ps[3] == Prefixed(p.value) && |ps[4]| == 8 && ps[5] == Prefixed(p.lnAcc)
         && ps[6] == MembershipBytes(p.membership) && ps[7] == MembershipBytes(p.count)
       else
         && ps[3] == Optional(p.keyPrev) && ps[4] == Optional(p.keyNext) && ps[5] == Optional(p.nextAcc)
         && ps[6] == MembershipBytes(p.prevInNext) && ps[7] == MembershipBytes(p.nextInNext)
  }

  lemma QueryPiecesInGroups(p: QueryProof, snapshot: seq<Bytes>)
    ensures QueryHeadPieces(QueryPieces(p, snapshot), p) && QueryBodyPieces(QueryPieces(p, snapshot), p)
  {}

  lemma QueryHeadRead(ps: seq<Bytes>, p: QueryProof)
    requires QueryHeadPieces(ps, p) && Short(p.key)
    ensures PrefixedAt(All(ps), 2) == Some(At(p.key, Start(ps, 3))) && |All(ps)| >= 10
    ensures All(ps)[1] == if p.Exists? then 1 else 0
  {
    PieceAt(ps, 0, 11);
    PieceAt(ps, 1, 11);
    PieceAt(ps, 2, 11);
    PieceAt(ps, 10, 11);
    JoinedGrows(ps, 3, 10);
    PrefixedPiece(ps, 2, p.key);
    assert All(ps)[1] == All(ps)[1..2][0];
  }

  lemma LeafAccRead(c: Crypto, ps: seq<Bytes>, value: Bytes, lnAcc: Bytes)
    requires |ps| == 11 && ps[3] == Prefixed(value) && |ps[4]| == 8 && ps[5] == Prefixed(lnAcc) && Short(value) && Short(lnAcc)
    ensures LeafAccAt(c, All(ps), Start(ps, 3)) == if c.isPoint(lnAcc) then Some(At(lnAcc, Start(ps, 6))) else None
  {
    PrefixedPiece(ps, 3, value);
    assert Start(ps, 5) == Start(ps, 4) + 8 <= |All(ps)| by { PieceAt(ps, 4, 11); }
    PointPiece(c, ps, 5, lnAcc);
  }

  lemma LeafRead(c: Crypto, ps: seq<Bytes>, p: QueryProof)
    requires p.Exists? && QueryBodyPieces(ps, p) && QueryFits(c, p)
    ensures LeafEnd(c, All(ps), Start(ps, 3)) ==
            if c.isPoint(p.lnAcc) && Proves(c, p.membership, p.lnAcc) && Proves(c, p.count, p.lnAcc) then Some(Start(ps, 8)) else None
  {
    LeafAccRead(c, ps, p.value, p.lnAcc);
    RequiredPiece(c, ps, 6, p.membership, p.lnAcc);
    RequiredPiece(c, ps, 7, p.count, p.lnAcc);
  }

  lemma RootRead(c: Crypto, ps: seq<Bytes>, p: QueryProof)
    requires p.Exists? && QueryBodyPieces(ps, p) && QueryFits(c, p)
    ensures RootEnd(c, All(ps), Start(ps, 8)) ==
            if p.rootAcc.Some? && Proves(c, p.lnInRoot, p.rootAcc.value) then Some(Start(ps, 10)) else None
  {
    OptionalPiece(c, ps, 8, p.rootAcc);
    if p.rootAcc.Some? {
      RequiredPiece(c, ps, 9, p.lnInRoot, p.rootAcc.value);
    }
  }

  lemma NotExistsRead(c: Crypto, ps: seq<Bytes>, p: QueryProof)
    requires p.NotExists? && QueryBodyPieces(ps, p) && QueryFits(c, p)
    ensures NotExistsEnd(c, All(ps), Start(ps, 3)) == if QueryStands(c, p) then Some(Start(ps, 10)) else None
  {
    SkippedPiece(ps, 3, p.keyPrev);
    SkippedPiece(ps, 4, p.keyNext);
    OptionalPiece(c, ps, 5, p.nextAcc);
    CheckedPiece(c, ps, 6, p.prevInNext, p.nextAcc);
    CheckedPiece(c, ps, 7, p.nextInNext, p.nextAcc);
    OptionalPiece(c, ps, 8, p.rootAcc);
    CheckedPiece(c, ps, 9, p.lnInRoot, p.rootAcc);
  }

  lemma QueryEndRead(c: Crypto, ps: seq<Bytes>, p: QueryProof, snapshot: seq<Bytes>)
    requires QueryFits(c, p) && ps == QueryPieces(p, snapshot)
    ensures QueryEnd(c, All(ps)) == if |p.key| <= 1024 && QueryStands(c, p) then Some(Start(ps, 10)) else None
  {
    QueryPiecesInGroups(p, snapshot);
    QueryHeadRead(ps, p);
    if p.Exists? {
      LeafRead(c, ps, p);
      RootRead(c, ps, p);
    } else {
      NotExistsRead(c, ps, p);
    }
  }

  /** A written query answer is accepted exactly when its key is within the limit, it stands, and the root is
      the snapshot's, or not given. */
  lemma WrittenQueryVerdict(c: Crypto, p: QueryProof, snapshot: seq<Bytes>, root: Bytes)
    requires QueryFits(c, p) && SnapshotFits(snapshot)
    ensures QueryVerdict(c, QueryBytes(p, snapshot), root) <==>
      |p.key| <= 1024 && QueryStands(c, p) && RootStands(c, snapshot, root)
  {
    var ps := QueryPieces(p, snapshot);
    QueryEndRead(c, ps, p, snapshot);
    SnapshotPiece(c, ps, snapshot, root);
  }
}
