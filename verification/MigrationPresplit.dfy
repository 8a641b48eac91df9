/** A presplit of a prefix under which nothing is stored that would change its storager. */
module MigrationPresplit {
  import opened Wrappers
  import opened Hex
  import opened Ring
  import opened Routing
  import opened AccTree
  import opened Presplit
  import opened Migration
  import opened MigrationInvariant
  import opened MigrationClient

  function Presplitted(c: Cluster, leaf: nat): Cluster
    requires c.ring.CanSplit(leaf)
  {
    c.(ring := c.ring.SplitAt(leaf))
  }

  /** A presplit step leaves the cluster alone or splits one leaf. */
  lemma PresplitSplitsLeaf(c: Cluster, prefix: string, incoming: nat, c': Cluster) returns (leaf: nat)
    requires c.ring.Forest() && PresplitStep(c, prefix, incoming, c')
    ensures c' == c || (c.ring.CanSplit(leaf) && c.ring.entries[leaf].counter == 0
      && SafeToPresplit(c, c.ring.entries[leaf].prefix) && c' == Presplitted(c, leaf))
  {
    PresplitIff(c.ring, prefix, incoming);
    var event := c.ring.Apply(Presplit(prefix, incoming)).2;
    leaf := if event.Some? then event.value.parentEntryIndex else 0;
  }

  /** No child of a pending migration is the leaf that is split. */
  lemma PresplitKeepsEntry(c: Cluster, leaf: nat, p: string)
    requires MigrationsOk(c.ring, |c.nodes|, c.migrations) && c.ring.CanSplit(leaf) && p in c.migrations
    requires forall k: Keyword :: c.ring.entries[leaf].prefix <= k.Key() ==> Idle(c.migrations, k)
    ensures EntryOk(c.ring.SplitAt(leaf), c.migrations[p].plan, c.migrations[p].entry, c.migrations[p].confirmed)
  {
    assert c.ring.EntryOk(leaf);
    var digits := c.ring.entries[leaf].prefix;
    var k := Keyword("", DigestOf(digits));
    KeyOfDigest("", digits);
    c.ring.RouteIsUnique(k.Key(), leaf);
    OldEntryOk(c, leaf, k, p);
  }

  lemma PresplitKeepsInv(c: Cluster, leaf: nat)
    requires Inv(c) && c.ring.CanSplit(leaf) && SafeToPresplit(c, c.ring.entries[leaf].prefix)
    ensures Inv(Presplitted(c, leaf))
  {
    var split := c.ring.SplitAt(leaf);
    c.ring.SplitKeepsForest(leaf);
    forall p | p in c.migrations ensures MigrationOk(split, |c.nodes|, c.migrations[p], p) {
      assert MigrationOk(c.ring, |c.nodes|, c.migrations[p], p);
      PresplitKeepsEntry(c, leaf, p);
    }
    forall k | k in c.overrides && Idle(c.migrations, k) ensures RingLookup(split, k) == Some(c.overrides[k]) {
      SplitLookup(c.ring, leaf, k);
    }
  }

  /** The home of a keyword stays, or nothing of it is stored anywhere. */
  lemma PresplitKeepsHome(c: Cluster, leaf: nat, k: Keyword)
    requires Inv(c) && c.ring.CanSplit(leaf) && SafeToPresplit(c, c.ring.entries[leaf].prefix)
    ensures c.ring.SplitAt(leaf).Forest()
    ensures Home(c.ring.SplitAt(leaf), c.migrations, k) == Home(c.ring, c.migrations, k) || StoredNowhere(c, k)
  {
    c.ring.SplitKeepsForest(leaf);
    c.ring.SplitIsLocal(leaf, k.Key());
    if c.ring.entries[leaf].prefix <= k.Key() {
      assert Idle(c.migrations, k);
      c.ring.RouteIsUnique(k.Key(), leaf);
      ModShift(c.ring.OwnerOf(k.Key()), DigitAt(k.Key(), |c.ring.entries[leaf].prefix|), |c.nodes|);
    }
  }

  lemma PresplitKeepsContents(c: Cluster, leaf: nat, k: Keyword)
    requires Inv(c) && c.ring.CanSplit(leaf) && SafeToPresplit(c, c.ring.entries[leaf].prefix) && Inv(Presplitted(c, leaf))
    ensures Contents(Presplitted(c, leaf), k) == Contents(c, k)
  {
    var c' := Presplitted(c, leaf);
    PresplitKeepsHome(c, leaf, k);
    HomeInRange(c.ring, |c.nodes|, c.migrations, k);
    HomeInRange(c'.ring, |c'.nodes|, c'.migrations, k);
    ContentsByParts(c, c', k);
  }

  lemma PresplitKeeps(c: Cluster, prefix: string, incoming: nat, c': Cluster, k: Keyword)
    requires Inv(c) && PresplitStep(c, prefix, incoming, c')
    ensures Inv(c') && Contents(c', k) == Contents(c, k)
  {
    var leaf := PresplitSplitsLeaf(c, prefix, incoming, c');
    if c' != c {
      PresplitKeepsInv(c, leaf);
      PresplitKeepsContents(c, leaf, k);
    }
  }
}
