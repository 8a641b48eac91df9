/** The storager's serializers of AccTrie proofs, which append field by field to a byte buffer. */
module ProofWriter {
  import opened Wrappers
  import opened ProofBytes
  import opened ProofCodec

  method AppendAccumulatorSnapshot(snapshot: seq<Bytes>, buffer: Bytes) returns (bytes: Bytes)
    ensures bytes == buffer + SnapshotBytes(snapshot)
  {
    bytes := buffer + U32Bytes(|snapshot|);
    for i := 0 to |snapshot|
      invariant bytes + EntriesBytes(snapshot[i..]) == buffer + SnapshotBytes(snapshot)
    {
      var before := bytes;
      bytes := bytes + U32Bytes(|snapshot[i]|);
      bytes := bytes + snapshot[i];
      assert snapshot[i..][0] == snapshot[i] && snapshot[i..][1..] == snapshot[i + 1..];
      assert bytes == before + Prefixed(snapshot[i]);
      assert bytes + EntriesBytes(snapshot[i + 1..]) == before + EntriesBytes(snapshot[i..]);
    }
    assert bytes + EntriesBytes([]) == bytes;
  }

  method SerializeMembershipProof(proof: Option<Membership>, buffer: Bytes) returns (bytes: Bytes)
    ensures bytes == buffer + MembershipBytes(proof)
  {
    if proof.None? {
      return buffer + [0];
    }
    var m := proof.value;
    bytes := buffer + [1];
    bytes := bytes + U32Bytes(|m.opening|);
    bytes := bytes + m.opening;
    bytes := bytes + U32Bytes(|m.element|);
    bytes := bytes + m.element;
    assert bytes == buffer + ([1] + Prefixed(m.opening) + Prefixed(m.element));
  }

  /** An optional field: a flag, and the field with its length behind it. */
  method SerializeOptional(field: Option<Bytes>, buffer: Bytes) returns (bytes: Bytes)
    ensures bytes == buffer + Optional(field)
  {
    if field.None? {
      return buffer + [0];
    }
    bytes := buffer + [1];
    bytes := SerializePrefixed(field.value, bytes);
    assert bytes == buffer + ([1] + Prefixed(field.value));
  }

  method SerializePrefixed(field: Bytes, buffer: Bytes) returns (bytes: Bytes)
    ensures bytes == buffer + Prefixed(field)
  {
    bytes := buffer + U32Bytes(|field|);
    bytes := bytes + field;
    assert bytes == buffer + (U32Bytes(|field|) + field);
  }

  method SerializeInsertionProof(p: InsertionProof, snapshot: seq<Bytes>, includeSnapshot: bool) returns (bytes: Bytes)
    ensures bytes == InsertionBytes(p, if includeSnapshot then Some(snapshot) else None)
  {
    ghost var s := if includeSnapshot then Some(snapshot) else None;
    ghost var ps := InsertionPieces(p, s);
    InsertionPiecesInGroups(p, s);
    bytes := [1];
    assert bytes == Joined(ps, 1);
    bytes := SerializePrefixed(p.key, bytes);
    assert bytes == Joined(ps, 2);
    bytes := SerializePrefixed(p.value, bytes);
    assert bytes == Joined(ps, 3);
    bytes := SerializeOptional(p.keyPrev, bytes);
    assert bytes == Joined(ps, 4);
    bytes := SerializeOptional(p.keyNext, bytes);
    assert bytes == Joined(ps, 5);
    bytes := SerializePrefixed(p.accOld, bytes);
    assert bytes == Joined(ps, 6);
    bytes := SerializePrefixed(p.accNew, bytes);
    assert bytes == Joined(ps, 7);
    bytes := SerializeOptional(p.prevAcc, bytes);
    assert bytes == Joined(ps, 8);
    bytes := SerializeOptional(p.nextOld, bytes);
    assert bytes == Joined(ps, 9);
    bytes := SerializeOptional(p.nextNew, bytes);
    assert bytes == Joined(ps, 10);
    bytes := SerializeMembershipProof(p.keypInNextOld, bytes);
    assert bytes == Joined(ps, 11);
    bytes := SerializeMembershipProof(p.keypInLn, bytes);
    assert bytes == Joined(ps, 12);
    bytes := SerializeMembershipProof(p.noPrevInLn, bytes);
    assert bytes == Joined(ps, 13);
    bytes := SerializeMembershipProof(p.keyInNextNew, bytes);
    assert bytes == Joined(ps, 14);
    bytes := SerializeMembershipProof(p.keypInNextNew, bytes);
    assert bytes == Joined(ps, 15);
    bytes := SerializeMembershipProof(p.valueInLn, bytes);
    assert bytes == Joined(ps, 16);
    if includeSnapshot {
      bytes := AppendAccumulatorSnapshot(snapshot, bytes);
    }
    assert bytes == Joined(ps, 17);
  }

  method SerializeDeletionProof(p: DeletionProof, snapshot: seq<Bytes>) returns (bytes: Bytes)
    ensures bytes == DeletionBytes(p, snapshot)
  {
    ghost var ps := DeletionPieces(p, snapshot);
    DeletionPiecesInGroups(p, snapshot);
    bytes := [2];
    assert bytes == Joined(ps, 1);
    bytes := SerializePrefixed(p.key, bytes);
    assert bytes == Joined(ps, 2);
    bytes := bytes + [if p.entireLeaf then 1 else 0];
    assert bytes == Joined(ps, 3);
    bytes := SerializeOptional(p.value, bytes);
    assert bytes == Joined(ps, 4);
    bytes := SerializeOptional(p.keyPrev, bytes);
    assert bytes == Joined(ps, 5);
    bytes := SerializeOptional(p.keyNext, bytes);
    assert bytes == Joined(ps, 6);
    bytes := SerializePrefixed(p.accOld, bytes);
    assert bytes == Joined(ps, 7);
    bytes := SerializeOptional(p.accNew, bytes);
    assert bytes == Joined(ps, 8);
    bytes := SerializeOptional(p.nextOld, bytes);
    assert bytes == Joined(ps, 9);
    bytes := SerializeOptional(p.nextNew, bytes);
    assert bytes == Joined(ps, 10);
    bytes := SerializeMembershipProof(p.valueInLnOld, bytes);
    assert bytes == Joined(ps, 11);
    bytes := SerializeMembershipProof(p.keypInLn, bytes);
    assert bytes == Joined(ps, 12);
    bytes := SerializeMembershipProof(p.keyInNextOld, bytes);
    assert bytes == Joined(ps, 13);
    bytes := SerializeMembershipProof(p.keypInNextNew, bytes);
    assert bytes == Joined(ps, 14);
    bytes := AppendAccumulatorSnapshot(snapshot, bytes);
    assert bytes == Joined(ps, 15);
  }

  method SerializeQueryResult(p: QueryProof, snapshot: seq<Bytes>) returns (bytes: Bytes)
    ensures bytes == QueryBytes(p, snapshot)
  {
    ghost var ps := QueryPieces(p, snapshot);
    QueryPiecesInGroups(p, snapshot);
    bytes := [3];
    assert bytes == Joined(ps, 1);
    bytes := bytes + [if p.Exists? then 1 else 0];
    assert bytes == Joined(ps, 2);
    bytes := SerializePrefixed(p.key, bytes);
    assert bytes == Joined(ps, 3);
    if p.Exists? {
      bytes := SerializePrefixed(p.value, bytes);
      assert bytes == Joined(ps, 4);
      bytes := bytes + U64Bytes(p.valueCount);
      assert bytes == Joined(ps, 5);
      bytes := SerializePrefixed(p.lnAcc, bytes);
      assert bytes == Joined(ps, 6);
      bytes := SerializeMembershipProof(p.membership, bytes);
      assert bytes == Joined(ps, 7);
      bytes := SerializeMembershipProof(p.count, bytes);
      assert bytes == Joined(ps, 8);
    } else {
      bytes := SerializeOptional(p.keyPrev, bytes);
      assert bytes == Joined(ps, 4);
      bytes := SerializeOptional(p.keyNext, bytes);
      assert bytes == Joined(ps, 5);
      bytes := SerializeOptional(p.nextAcc, bytes);
      assert bytes == Joined(ps, 6);
      bytes := SerializeMembershipProof(p.prevInNext, bytes);
      assert bytes == Joined(ps, 7);
      bytes := SerializeMembershipProof(p.nextInNext, bytes);
      assert bytes == Joined(ps, 8);
    }
    bytes := SerializeOptional(p.rootAcc, bytes);
    assert bytes == Joined(ps, 9);
    bytes := SerializeMembershipProof(p.lnInRoot, bytes);
    assert bytes == Joined(ps, 10);
    bytes := AppendAccumulatorSnapshot(snapshot, bytes);
    assert bytes == Joined(ps, 11);
  }
}
