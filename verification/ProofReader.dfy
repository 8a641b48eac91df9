/** The client's verifiers of AccTrie proofs, which move an offset over the bytes. They take any bytes. */
module ProofReader {
  import opened Wrappers
  import opened ProofBytes
  import opened ProofCodec

  method DeserializeMembershipProof(c: Crypto, proof: Bytes, start: nat) returns (m: Option<Membership>, offset: nat)
    ensures At(m, offset) == MembershipAt(c, proof, start)
  {
    offset := start;
    if offset >= |proof| {
      return None, offset;
    }
    offset := offset + 1;
    if proof[offset - 1] == 0 || offset + 4 > |proof| {
      return None, offset;
    }
    var openingLen := U32At(proof, offset);
    offset := offset + 4;
    if offset + openingLen > |proof| {
      return None, offset;
    }
    var opening := proof[offset..offset + openingLen];
    if !c.isPoint(opening) {
      return None, offset;
    }
    offset := offset + openingLen;
    if offset + 4 > |proof| {
      return None, offset;
    }
    var elementLen := U32At(proof, offset);
    offset := offset + 4;
    if offset + elementLen > |proof| {
      return None, offset;
    }
    var element := proof[offset..offset + elementLen];
    if !c.isScalar(element) {
      return None, offset;
    }
    offset := offset + elementLen;
    m := Some(Membership(opening, element));
  }

  /** The entries read so far in front of those still to be read. */
  ghost function Onto(entries: seq<Bytes>, rest: Option<At<seq<Bytes>>>): Option<At<seq<Bytes>>> {
    if rest.None? then None else Some(At(entries + rest.value.value, rest.value.next))
  }

  lemma OntoNothing(rest: Option<At<seq<Bytes>>>)
    ensures Onto([], rest) == rest
  {
    assert rest.Some? ==> [] + rest.value.value == rest.value.value;
  }

  lemma OntoEntry(entries: seq<Bytes>, entry: Bytes, rest: Option<At<seq<Bytes>>>)
    ensures Onto(entries, Onto([entry], rest)) == Onto(entries + [entry], rest)
  {
    if rest.Some? {
      assert entries + ([entry] + rest.value.value) == entries + [entry] + rest.value.value;
    }
  }

  method DeserializeAccSnapshot(proof: Bytes, start: nat) returns (snapshot: Option<seq<Bytes>>)
    ensures snapshot == if SnapshotAt(proof, start).None? then None else Some(SnapshotAt(proof, start).value.value)
  {
    if start + 4 > |proof| {
      return None;
    }
    var count := U32At(proof, start);
    var offset: nat := start + 4;
    var entries: seq<Bytes> := [];
    OntoNothing(EntriesAt(proof, offset, count));
    for i := 0 to count
      invariant EntriesAt(proof, start + 4, count) == Onto(entries, EntriesAt(proof, offset, count - i))
    {
      var entry := PrefixedAt(proof, offset);
      if entry.None? {
        return None;
      }
      OntoEntry(entries, entry.value.value, EntriesAt(proof, entry.value.next, count - i - 1));
      entries, offset := entries + [entry.value.value], entry.value.next;
    }
    assert entries + [] == entries;
    snapshot := Some(entries);
  }

  /** Reads a membership proof and checks it against the accumulator it belongs to, if there is one. */
  method CheckMembership(c: Crypto, proof: Bytes, start: nat, acc: Option<Bytes>) returns (ok: bool, offset: nat)
    ensures CheckedAt(c, proof, start, acc) == if ok then Some(offset) else None
  {
    var m;
    m, offset := DeserializeMembershipProof(c, proof, start);
    ok := m.None? || acc.None? || c.pairs(m.value, acc.value);
  }

  method RequireMembership(c: Crypto, proof: Bytes, start: nat, acc: Bytes) returns (ok: bool, offset: nat)
    ensures RequiredAt(c, proof, start, acc) == if ok then Some(offset) else None
  {
    if start >= |proof| || proof[start] == 0 {
      return false, start;
    }
    var m;
    m, offset := DeserializeMembershipProof(c, proof, start);
    ok := m.Some? && c.pairs(m.value, acc);
  }

  method CheckThreeMemberships(c: Crypto, proof: Bytes, start: nat, acc1: Option<Bytes>, acc2: Option<Bytes>, acc3: Option<Bytes>)
    returns (ok: bool, offset: nat)
    ensures CheckThree(c, proof, start, acc1, acc2, acc3) == if ok then Some(offset) else None
  {
    ok, offset := CheckMembership(c, proof, start, acc1);
    if !ok {
      return;
    }
    ok, offset := CheckMembership(c, proof, offset, acc2);
    if !ok {
      return;
    }
    ok, offset := CheckMembership(c, proof, offset, acc3);
  }

  method VerifySnapshot(c: Crypto, proof: Bytes, start: nat, root: Bytes) returns (ok: bool)
    ensures ok == SnapshotStands(c, proof, start, root)
  {
    var snapshot := DeserializeAccSnapshot(proof, start);
    if snapshot.None? {
      return false;
    }
    if root == [] {
      return true;
    }
    if |root| != 32 {
      return false;
    }
    var hashed: Bytes := if snapshot.value == [] then EMPTY_TRIE else [];
    for i := 0 to |snapshot.value|
      invariant hashed == if snapshot.value == [] then EMPTY_TRIE else Joined(snapshot.value, i)
    {
      hashed := hashed + snapshot.value[i];
    }
    ok := c.digest(hashed) == root;
  }

  // ----- the three verifiers

  method VerifyInsertionProof(c: Crypto, proof: Bytes, root: Bytes) returns (ok: bool)
    ensures ok == InsertionVerdict(c, proof, root)
  {
    if |proof| < 100 {
      return false;
    }
    var offset: nat;
    ok, offset := ReadInsertionHead(proof);
    if !ok {
      return;
    }
    var accs;
    ok, offset, accs := ReadInsertionAccs(c, proof, offset);
    if !ok {
      return;
    }
    ok, offset := CheckThreeMemberships(c, proof, offset, accs.nextOld, accs.accNew, accs.accNew);
    if !ok {
      return;
    }
    ok, offset := CheckThreeMemberships(c, proof, offset, accs.nextNew, accs.nextNew, accs.accNew);
    if !ok {
      return;
    }
    if offset == |proof| {
      return root == [];
    }
    ok := VerifySnapshot(c, proof, offset, root);
  }

  method ReadInsertionHead(proof: Bytes) returns (ok: bool, offset: nat)
    ensures InsertionHeadEnd(proof) == if ok then Some(offset) else None
  {
    ok, offset := false, 1;
    var key := KeyAt(proof, offset);
    if key.None? {
      return;
    }
    offset := key.value.next;
    var value := PrefixedAt(proof, offset);
    if value.None? {
      return;
    }
    offset := value.value.next;
    var prev := SkipKey(proof, offset);
    if prev.None? {
      return;
    }
    offset := prev.value;
    var next := SkipKey(proof, offset);
    if next.None? {
      return;
    }
    ok, offset := true, next.value;
  }

  method ReadInsertionAccs(c: Crypto, proof: Bytes, start: nat) returns (ok: bool, offset: nat, accs: InsertionAccs)
    ensures InsertionAccsAt(c, proof, start) == if ok then Some(At(accs, offset)) else None
  {
    ok, offset, accs := false, start, InsertionAccs(None, None, None);
    var accOld := PointOrEmptyAt(c, proof, offset);
    if accOld.None? {
      return;
    }
    offset := accOld.value.next;
    var accNew := PointOrEmptyAt(c, proof, offset);
    if accNew.None? {
      return;
    }
    offset := accNew.value.next;
    var prevAcc := OptionalPointAt(c, proof, offset);
    if prevAcc.None? {
      return;
    }
    offset := prevAcc.value.next;
    var nextOld := OptionalPointAt(c, proof, offset);
    if nextOld.None? {
      return;
    }
    offset := nextOld.value.next;
    var nextNew := OptionalPointAt(c, proof, offset);
    if nextNew.None? {
      return;
    }
    ok, offset, accs := true, nextNew.value.next, InsertionAccs(accNew.value.value, nextOld.value.value, nextNew.value.value);
  }

  method VerifyDeletionProof(c: Crypto, proof: Bytes, root: Bytes) returns (ok: bool)
    ensures ok == DeletionVerdict(c, proof, root)
  {
    if |proof| < 50 {
      return false;
    }
    var offset: nat;
    ok, offset := ReadDeletionHead(proof);
    if !ok {
      return;
    }
    var accs;
    ok, offset, accs := ReadDeletionAccs(c, proof, offset);
    if !ok {
      return;
    }
    ok, offset := CheckThreeMemberships(c, proof, offset, Some(accs.accOld), Some(accs.accOld), accs.nextOld);
    if !ok {
      return;
    }
    ok, offset := CheckMembership(c, proof, offset, accs.nextNew);
    if !ok {
      return;
    }
    ok := VerifySnapshot(c, proof, offset, root);
  }

  method ReadDeletionHead(proof: Bytes) returns (ok: bool, offset: nat)
    ensures DeletionHeadEnd(proof) == if ok then Some(offset) else None
  {
    ok, offset := false, 1;
    var key := KeyAt(proof, offset);
    if key.None? || key.value.next >= |proof| {
      return;
    }
    offset := key.value.next + 1;
    var value := SkipOptional(proof, offset);
    if value.None? {
      return;
    }
    offset := value.value;
    var prev := SkipKey(proof, offset);
    if prev.None? {
      return;
    }
    offset := prev.value;
    var next := SkipKey(proof, offset);
    if next.None? {
      return;
    }
    ok, offset := true, next.value;
  }

  method ReadDeletionAccs(c: Crypto, proof: Bytes, start: nat) returns (ok: bool, offset: nat, accs: DeletionAccs)
    ensures DeletionAccsAt(c, proof, start) == if ok then Some(At(accs, offset)) else None
  {
    ok, offset, accs := false, start, DeletionAccs([], None, None);
    var accOld := PointAt(c, proof, offset);
    if accOld.None? {
      return;
    }
    offset := accOld.value.next;
    var accNew := OptionalPointAt(c, proof, offset);
    if accNew.None? {
      return;
    }
    offset := accNew.value.next;
    var nextOld := LenientPointAt(c, proof, offset);
    if nextOld.None? {
      return;
    }
    offset := nextOld.value.next;
    var nextNew := LenientPointAt(c, proof, offset);
    if nextNew.None? {
      return;
    }
    ok, offset, accs := true, nextNew.value.next, DeletionAccs(accOld.value.value, nextOld.value.value, nextNew.value.value);
  }

  method VerifyQueryProof(c: Crypto, proof: Bytes, root: Bytes) returns (ok: bool)
    ensures ok == QueryVerdict(c, proof, root)
  {
    if |proof| < 10 {
      return false;
    }
    var key := KeyAt(proof, 2);
    if key.None? {
      return false;
    }
    var offset: nat := key.value.next;
    if proof[1] == 1 {
      ok, offset := VerifyExists(c, proof, offset);
    } else {
      ok, offset := VerifyNotExists(c, proof, offset);
    }
    if ok {
      ok := VerifySnapshot(c, proof, offset, root);
    }
  }

  method VerifyExists(c: Crypto, proof: Bytes, start: nat) returns (ok: bool, offset: nat)
    ensures ExistsEnd(c, proof, start) == if ok then Some(offset) else None
  {
    ok, offset := false, start;
    var value := PrefixedAt(proof, offset);
    if value.None? || value.value.next + 8 > |proof| {
      return;
    }
    var lnAcc := PointAt(c, proof, value.value.next + 8);
    if lnAcc.None? {
      return;
    }
    ok, offset := RequireMembership(c, proof, lnAcc.value.next, lnAcc.value.value);
    if !ok {
      return;
    }
    ok, offset := RequireMembership(c, proof, offset, lnAcc.value.value);
    if !ok {
      return;
    }
    var rootAcc := AccumulatorAt(c, proof, offset);
    if rootAcc.value.None? {
      return false, offset;
    }
    ok, offset := RequireMembership(c, proof, rootAcc.next, rootAcc.value.value);
  }

  method VerifyNotExists(c: Crypto, proof: Bytes, start: nat) returns (ok: bool, offset: nat)
    ensures NotExistsEnd(c, proof, start) == if ok then Some(offset) else None
  {
    ok, offset := false, start;
    var prev := SkipOptional(proof, offset);
    if prev.None? {
      return;
    }
    var next := SkipOptional(proof, prev.value);
    if next.None? {
      return;
    }
    var nextAcc := OptionalPointAt(c, proof, next.value);
    if nextAcc.None? {
      return;
    }
    ok, offset := CheckMembership(c, proof, nextAcc.value.next, nextAcc.value.value);
    if !ok {
      return;
    }
    ok, offset := CheckMembership(c, proof, offset, nextAcc.value.value);
    if !ok {
      return;
    }
    var rootAcc := AccumulatorAt(c, proof, offset);
    ok, offset := CheckMembership(c, proof, rootAcc.next, rootAcc.value);
  }
}
