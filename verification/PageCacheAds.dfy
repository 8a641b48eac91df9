/** The page cache object: its maps change in place under storing, reading, eviction and flushing. The disk
    is part of the object. */
module PageCacheAds {
  import opened Wrappers
  import opened PageCache

  lemma {:induction false} OldestExists(pages: map<PageKey, CachedPage>, keys: set<PageKey>)
    requires keys != {} && keys <= pages.Keys
    ensures exists key :: key in keys && forall other :: other in keys ==> pages[key].accessTick <= pages[other].accessTick
    decreases |keys|
  {
    var k :| k in keys;
    var rest := keys - {k};
    if rest == {} {
      assert keys == {k};
    } else {
      OldestExists(pages, rest);
      var r :| r in rest && forall other :: other in rest ==> pages[r].accessTick <= pages[other].accessTick;
      var least := if pages[k].accessTick <= pages[r].accessTick then k else r;
      assert least in keys && forall other :: other in keys ==> pages[least].accessTick <= pages[other].accessTick by {
        assert keys == rest + {k};
      }
    }
  }

  lemma OneMoreCached(pages: map<PageKey, CachedPage>, prefix: string, n: nat)
    requires FirstCached(pages, prefix, n) && (prefix, n) in pages
    ensures FirstCached(pages, prefix, n + 1)
  {}

  lemma FewerKeys(before: map<PageKey, CachedPage>, after: map<PageKey, CachedPage>, gone: PageKey)
    requires gone in before && after.Keys == before.Keys - {gone}
    ensures |after| == |before| - 1
  {
    assert |after.Keys| == |before.Keys| - 1;
  }

  /** Pages have left the cache, none used later than any that is still there. */
  ghost predicate OldestGone(before: map<PageKey, CachedPage>, after: map<PageKey, CachedPage>) {
    && after.Keys <= before.Keys
    && forall gone, kept :: gone in before && gone !in after && kept in after ==> before[gone].accessTick <= before[kept].accessTick
  }

  class PageCacheAds {
    const pageRecordLimit: nat
    const maxCachedPages: nat
    var pages: map<PageKey, CachedPage>
    var manifest: map<string, nat>
    var dirtyPageManifests: set<string>
    var accessTick: nat
    var diskPages: map<PageKey, Records>
    var diskManifest: map<string, nat>
    ghost var stored: map<string, Records>

    function Limit(): (n: nat)
      ensures n > 0
    {
      if pageRecordLimit > 0 then pageRecordLimit else 1
    }

    function MaxPages(): (n: nat)
      ensures n > 0
    {
      if maxCachedPages > 0 then maxCachedPages else 1
    }

    ghost function State(): Store
      reads this
    {
      Store(pages, manifest, dirtyPageManifests, diskPages, diskManifest)
    }

    ghost predicate Valid()
      reads this
    {
      StoreOk(State(), Limit(), stored) && TicksAreOld(pages, accessTick)
    }

    constructor (pageRecordLimit: nat, maxCachedPages: nat)
      ensures Valid() && stored == map[]
      ensures this.pageRecordLimit == pageRecordLimit && this.maxCachedPages == maxCachedPages
    {
      this.pageRecordLimit, this.maxCachedPages := pageRecordLimit, maxCachedPages;
      pages, manifest, dirtyPageManifests, accessTick := map[], map[], {}, 0;
      diskPages, diskManifest, stored := map[], map[], map[];
    }

    /** Puts the pages of new records into the cache, first page first. */
    method InsertPages(prefix: string, records: Records, markDirty: bool)
      modifies this`pages, this`accessTick
      ensures Inserted(old(State()), State(), prefix, Pages(records, Limit()), markDirty)
      ensures UsedBetween(pages, prefix, |Pages(records, Limit())|, old(accessTick), accessTick)
    {
      ghost var cut := Pages(records, Limit());
      var offset := 0;
      var pageIndex: nat := 0;
      while offset < |records|
        invariant offset <= |records| && pageIndex <= |cut| && Pages(records[offset..], Limit()) == cut[pageIndex..]
        invariant forall key: PageKey :: key.0 != prefix ==> SamePage(old(State()), State(), key)
        invariant forall i: nat :: i < pageIndex ==>
          (prefix, i) in pages && pages[(prefix, i)].records == cut[i] && pages[(prefix, i)].dirty == markDirty
        invariant UsedBetween(pages, prefix, pageIndex, old(accessTick), accessTick)
        decreases |records| - offset
      {
        var end := offset + Smaller(Limit(), |records| - offset);
        assert records[offset..][..end - offset] == records[offset..end];
        assert records[offset..][end - offset..] == records[end..];
        assert cut[pageIndex] == records[offset..end];
        OneMoreUsed(pages, prefix, pageIndex, old(accessTick), accessTick, CachedPage(records[offset..end], markDirty, accessTick + 1));
        accessTick := accessTick + 1;
        pages := pages[(prefix, pageIndex) := CachedPage(records[offset..end], markDirty, accessTick)];
        assert cut[pageIndex..][1..] == cut[pageIndex + 1..];
        offset := end;
        pageIndex := pageIndex + 1;
      }
      assert cut[pageIndex..] == [];
    }

    /** Replaces the records of a prefix in the cache. Marked dirty they wait to be written; otherwise the disk has
        to have them already. */
    method ReplaceRecords(prefix: string, records: Records, markDirty: bool)
      requires Valid()
      modifies this
      ensures stored == old(stored)[prefix := records]
      ensures markDirty || DiskHolds(old(State()), prefix, Pages(records, Limit())) ==> Valid()
      ensures manifest == old(manifest)[prefix := DivCeil(|records|, Limit())]
      ensures diskManifest == old(diskManifest) && UsedLast(pages, prefix, manifest[prefix])
      ensures pages.Keys == Others(old(pages), prefix) + PageKeys(prefix, manifest[prefix])
    {
      ghost var before := State();
      var pageCount := DivCeil(|records|, Limit());
      PageCount(records, Limit());
      InsertPages(prefix, records, markDirty);
      ghost var inserted := State();
      assert inserted == before.(pages := inserted.pages);
      pages := WithoutOlder(pages, prefix, pageCount);
      InsertedKeys(before, inserted, prefix, Pages(records, Limit()), markDirty);
      InsertedLast(before, inserted, prefix, Pages(records, Limit()), markDirty, old(accessTick), accessTick);
      if markDirty && !(prefix in manifest && manifest[prefix] == pageCount) {
        dirtyPageManifests := dirtyPageManifests + {prefix};
      }
      manifest := manifest[prefix := pageCount];
      if markDirty {
        InsertedKeeps(before, inserted, State(), Limit(), stored, prefix, records);
      } else if DiskHolds(before, prefix, Pages(records, Limit())) {
        InsertedCleanKeeps(before, inserted, State(), Limit(), stored, prefix, records);
      }
      stored := stored[prefix := records];
    }

    /** Storing the records of a prefix: pages beyond the limit leave the cache, those of other prefixes first and then the
        earlier ones of this prefix, so that its last pages stay up to the limit. */
    method CacheRootPrefixRecords(prefix: string, records: Records, markDirty: bool)
      requires Valid()
      modifies this
      ensures stored == old(stored)[prefix := records]
      ensures markDirty || DiskHolds(old(State()), prefix, Pages(records, Limit())) ==> Valid()
      ensures manifest == old(manifest)[prefix := DivCeil(|records|, Limit())] && diskManifest == old(diskManifest)
      ensures |pages| == Smaller(|Others(old(pages), prefix)| + manifest[prefix], MaxPages())
      ensures forall i: nat :: i < manifest[prefix] ==> ((prefix, i) in pages <==> manifest[prefix] <= i + MaxPages())
    {
      ReplaceRecords(prefix, records, markDirty);
      ghost var replaced := pages;
      EnforcePageCacheLimit();
      LastPagesStay(old(pages), replaced, pages, prefix, manifest[prefix], MaxPages());
    }

    method FlushCachedPage(key: PageKey)
      modifies this`pages, this`diskPages
      ensures old(Valid()) ==> Valid()
      ensures pages.Keys == old(pages).Keys
      ensures key in pages ==> !pages[key].dirty
      ensures forall k :: k in pages ==>
        pages[k].accessTick == old(pages)[k].accessTick && (pages[k].dirty ==> old(pages)[k].dirty)
    {
      if key !in pages || !pages[key].dirty {
        return;
      }
      if Valid() {
        FlushPageKeeps(State(), Limit(), stored, key);
      }
      var page := pages[key];
      pages := pages[key := page.(dirty := false)];
      diskPages := diskPages[key := page.records];
    }

    /** Takes a page out of the cache, writing it first if it is dirty. */
    method EvictPage(target: PageKey)
      requires target in pages
      modifies this`pages, this`diskPages
      ensures old(Valid()) ==> Valid()
      ensures pages.Keys == old(pages).Keys - {target}
      ensures forall k :: k in pages ==> pages[k].accessTick == old(pages)[k].accessTick
    {
      FlushCachedPage(target);
      if Valid() {
        DropPageKeeps(State(), Limit(), stored, target);
      }
      pages := pages - {target};
    }

    /** Evicts a page that was used least recently. */
    method EvictOldest()
      requires pages != map[]
      modifies this`pages, this`diskPages
      ensures old(Valid()) ==> Valid()
      ensures |pages| == |old(pages)| - 1 && pages.Keys <= old(pages).Keys
      ensures forall k :: k in pages ==> pages[k].accessTick == old(pages)[k].accessTick
      ensures forall gone, kept :: gone in old(pages) && gone !in pages && kept in old(pages) ==>
        old(pages)[gone].accessTick <= old(pages)[kept].accessTick
    {
      OldestExists(pages, pages.Keys);
      var target :| target in pages && forall other :: other in pages ==> pages[target].accessTick <= pages[other].accessTick;
      EvictPage(target);
      FewerKeys(old(pages), pages, target);
    }

    /** Evicts until the cache is within its bound and no further: what has gone was used no later than what is kept. */
    method EnforcePageCacheLimit()
      modifies this`pages, this`diskPages
      ensures old(Valid()) ==> Valid()
      ensures |pages| == Smaller(|old(pages)|, MaxPages()) && OldestGone(old(pages), pages)
      ensures |old(pages)| <= MaxPages() ==> pages == old(pages) && diskPages == old(diskPages)
    {
      while |pages| > MaxPages()
        invariant (old(Valid()) ==> Valid()) && OldestGone(old(pages), pages)
        invariant |pages| == |old(pages)| || MaxPages() <= |pages| < |old(pages)|
        invariant |pages| == |old(pages)| ==> pages == old(pages) && diskPages == old(diskPages)
        invariant forall k :: k in pages ==> pages[k].accessTick == old(pages)[k].accessTick
        decreases |pages|
      {
        EvictOldest();
      }
    }

    /** Writes the manifest of a prefix if it is dirty. */
    method FlushManifest(prefix: string)
      requires Valid()
      modifies this`dirtyPageManifests, this`diskManifest
      ensures Valid() && dirtyPageManifests == old(dirtyPageManifests) - {prefix}
    {
      if prefix in dirtyPageManifests {
        WriteManifestKeeps(State(), Limit(), stored, prefix);
        dirtyPageManifests := dirtyPageManifests - {prefix};
        var count := PageCountOf(manifest, prefix);
        diskManifest := if count == 0 then diskManifest - {prefix} else diskManifest[prefix := count];
      }
    }

    /** Writes the manifest and the dirty pages of a prefix. */
    method FlushRootPrefixPages(prefix: string)
      requires Valid()
      modifies this`pages, this`dirtyPageManifests, this`diskPages, this`diskManifest
      ensures Valid() && Flushed(State(), prefix)
      ensures forall p :: Flushed(old(State()), p) ==> Flushed(State(), p)
    {
      FlushManifest(prefix);
      for i := 0 to PageCountOf(manifest, prefix)
        invariant Valid() && CleanerPages(old(pages), pages) && FirstClean(pages, prefix, i)
        invariant dirtyPageManifests == old(dirtyPageManifests) - {prefix}
      {
        ghost var before := pages;
        FlushCachedPage((prefix, i));
        OneMoreClean(before, pages, prefix, i);
      }
      AllClean(State(), prefix);
    }

    /** After flushing everything the disk alone holds what was stored. */
    method FlushAllDirtyPages()
      requires Valid()
      modifies this`pages, this`dirtyPageManifests, this`diskPages, this`diskManifest
      ensures Valid()
      ensures forall p :: p in stored ==> Flushed(State(), p) && Join(DiskPages(State(), p)) == stored[p]
    {
      var remaining := manifest.Keys;
      while remaining != {}
        invariant Valid() && remaining <= manifest.Keys
        invariant forall p :: p in manifest && p !in remaining ==> Flushed(State(), p)
        decreases |remaining|
      {
        var prefix :| prefix in remaining;
        remaining := remaining - {prefix};
        FlushRootPrefixPages(prefix);
      }
      forall p | p in stored ensures Flushed(State(), p) && Join(DiskPages(State(), p)) == stored[p] {
        DiskStandsForRecords(State(), Limit(), stored, p);
      }
    }

    method TouchPage(key: PageKey) returns (records: Records)
      requires key in pages
      modifies this`pages
      ensures pages == old(pages)[key := old(pages)[key].(accessTick := accessTick)] && records == old(pages)[key].records
    {
      var page := pages[key];
      pages := pages[key := page.(accessTick := accessTick)];
      records := page.records;
    }

    /** Reads a prefix from the cache; nothing unless every page is cached. Pages that were read count as used. */
    method LoadCachedRootPrefixRecords(prefix: string) returns (records: Option<Records>)
      requires Valid()
      modifies this`pages, this`accessTick
      ensures Valid() && SameButTicks(old(State()), State())
      ensures records.Some? <==> prefix in manifest && FirstCached(old(pages), prefix, manifest[prefix])
      ensures records.Some? ==> prefix in stored && records.value == stored[prefix]
      ensures records.Some? ==> Touched(old(pages), pages, prefix, manifest[prefix], old(accessTick))
    {
      if prefix !in manifest {
        return None;
      }
      ghost var before := State();
      CacheStandsForRecords(before, Limit(), stored, prefix);
      ghost var n;
      records, n := ReadPages(prefix);
      ReadKeeps(before, old(accessTick), State(), accessTick, Limit(), stored, prefix, n);
    }

    /** Reads the pages of a prefix one after the other up to the first that is not cached. */
    method ReadPages(prefix: string) returns (records: Option<Records>, ghost n: nat)
      requires prefix in manifest && TicksAreOld(pages, accessTick)
      modifies this`pages, this`accessTick
      ensures n <= manifest[prefix] && ReadSoFar(old(State()), old(accessTick), State(), accessTick, prefix, n)
      ensures if records.Some? then n == manifest[prefix] && records.value == Join(CurrentPages(old(State()), prefix))
        else n < manifest[prefix] && (prefix, n) !in old(pages)
    {
      ghost var before, current := State(), CurrentPages(State(), prefix);
      var found: Records := [];
      n := 0;
      for i := 0 to manifest[prefix]
        invariant n == i && ReadSoFar(before, old(accessTick), State(), accessTick, prefix, i)
        invariant found == Join(current[..i])
      {
        var read := ReadPage(prefix, i, before, old(accessTick));
        if read.None? {
          return None, i;
        }
        JoinRead(current, i);
        found := found + read.value;
        n := i + 1;
      }
      assert current[..n] == current;
      records := Some(found);
    }

    /** Reads the next page of a prefix if it is cached. */
    method ReadPage(prefix: string, i: nat, ghost before: Store, ghost tick: nat) returns (read: Option<Records>)
      requires ReadSoFar(before, tick, State(), accessTick, prefix, i) && prefix in before.manifest && i < before.manifest[prefix]
      modifies this`pages, this`accessTick
      ensures ReadSoFar(before, tick, State(), accessTick, prefix, if read.Some? then i + 1 else i)
      ensures read.Some? <==> (prefix, i) in before.pages
      ensures read.Some? ==> read.value == CurrentPages(before, prefix)[i]
    {
      accessTick := accessTick + 1;
      if (prefix, i) !in pages {
        return None;
      }
      ReadOneMore(before, tick, State(), accessTick, prefix, i);
      var records := TouchPage((prefix, i));
      read := Some(records);
    }

    /** Reads a prefix: from the cache if all its pages are there, else from disk, else from the trie. What was read
        from disk is put into the cache as clean and from then on stands for the prefix. */
    method LoadShardRecords(prefix: string, trie: Records) returns (r: Result<Records>)
      requires Valid()
      modifies this
      ensures r == ReadShard(old(State()), prefix, trie)
      ensures FromDisk(old(State()), prefix) && r.Ok? ==>
        && stored == old(stored)[prefix := r.value] && (WellCut(old(State()), Limit(), prefix) ==> Valid())
      ensures !FromDisk(old(State()), prefix) || r.Err? ==>
        stored == old(stored) && Valid() && SameButTicks(old(State()), State())
    {
      var cached := LoadCachedRootPrefixRecords(prefix);
      TicksReadSame(old(State()), State(), prefix, trie);
      if cached.Some? {
        CacheStandsForRecords(old(State()), Limit(), stored, prefix);
        return Ok(cached.value);
      }
      if prefix !in diskManifest {
        return Ok(trie);
      }
      var records := LoadDiskRecords(prefix);
      if records.Err? {
        return records;
      }
      if WellCut(State(), Limit(), prefix) {
        WellCutHolds(State(), Limit(), prefix);
      }
      CacheRootPrefixRecords(prefix, records.value, false);
      r := records;
    }

    /** Reads the pages below the manifest on disk; fails at the first that is missing. */
    method LoadDiskRecords(prefix: string) returns (r: Result<Records>)
      requires prefix in diskManifest
      ensures r == if DiskComplete(State(), prefix) then Ok(Join(DiskPages(State(), prefix))) else Err(NO_PAGE)
    {
      ghost var onDisk := DiskPages(State(), prefix);
      var found: Records := [];
      for i := 0 to diskManifest[prefix]
        invariant forall j: nat :: j < i ==> (prefix, j) in diskPages
        invariant found == Join(onDisk[..i])
      {
        if (prefix, i) !in diskPages {
          return Err(NO_PAGE);
        }
        JoinRead(onDisk, i);
        found := found + diskPages[(prefix, i)];
      }
      assert onDisk[..diskManifest[prefix]] == onDisk;
      r := Ok(found);
    }

    /** Forgets a prefix, in the cache and on disk, as draining or confirming a segment does. */
    method ClearRootPrefix(prefix: string)
      requires Valid()
      modifies this
      ensures Valid() && stored == old(stored) - {prefix}
      ensures prefix !in diskManifest && forall i: nat :: i < PageCountOf(old(diskManifest), prefix) ==> (prefix, i) !in diskPages
      ensures forall key: PageKey :: key.0 != prefix ==> SamePage(old(State()), State(), key)
    {
      ghost var before := State();
      diskPages := WithoutDisk(diskPages, prefix, PageCountOf(diskManifest, prefix));
      diskManifest := diskManifest - {prefix};
      pages := WithoutOlder(pages, prefix, 0);
      manifest := manifest - {prefix};
      dirtyPageManifests := dirtyPageManifests - {prefix};
      stored := stored - {prefix};
      ClearedKeeps(before, State(), Limit(), old(stored), prefix);
    }
  }

  /** The same pages are cached, and no clean one has become dirty. */
  ghost predicate CleanerPages(before: map<PageKey, CachedPage>, after: map<PageKey, CachedPage>) {
    after.Keys == before.Keys && forall k :: k in after ==> (after[k].dirty ==> before[k].dirty)
  }

  /** Those of the first `n` pages that are cached are clean. */
  ghost predicate FirstClean(pages: map<PageKey, CachedPage>, prefix: string, n: nat) {
    forall j: nat :: j < n && (prefix, j) in pages ==> !pages[(prefix, j)].dirty
  }

  lemma OneMoreClean(before: map<PageKey, CachedPage>, after: map<PageKey, CachedPage>, prefix: string, n: nat)
    requires FirstClean(before, prefix, n) && CleanerPages(before, after)
    requires (prefix, n) in after ==> !after[(prefix, n)].dirty
    ensures FirstClean(after, prefix, n + 1)
  {}

  lemma AllClean(s: Store, prefix: string)
    requires NoStrayPages(s) && FirstClean(s.pages, prefix, PageCountOf(s.manifest, prefix)) && prefix !in s.dirtyManifests
    ensures Flushed(s, prefix)
  {
    forall key | key in s.pages && key.0 == prefix ensures !s.pages[key].dirty {
      assert (prefix, key.1) in s.pages;
    }
  }

  lemma {:induction false} JoinSnoc(pages: seq<Records>, last: Records)
    ensures Join(pages + [last]) == Join(pages) + last
    decreases |pages|
  {
    if pages != [] {
      assert (pages + [last])[1..] == pages[1..] + [last];
      JoinSnoc(pages[1..], last);
    }
  }

  lemma ReadIs(s: Store, s': Store, prefix: string, i: nat)
    requires SameButTicks(s, s') && prefix in s.manifest && i < s.manifest[prefix] && (prefix, i) in s'.pages
    ensures (prefix, i) in s.pages
    ensures s'.pages[(prefix, i)].records == CurrentPages(s, prefix)[i]
  {}

  lemma JoinRead(pages: seq<Records>, i: nat)
    requires i < |pages|
    ensures Join(pages[..i + 1]) == Join(pages[..i]) + pages[i]
  {
    assert pages[..i + 1] == pages[..i] + [pages[i]];
    JoinSnoc(pages[..i], pages[i]);
  }

  /** The pages of a prefix are in the cache, all dirty or all clean; there may be older ones behind them. */
  ghost predicate Inserted(s: Store, s': Store, prefix: string, cut: seq<Records>, dirty: bool) {
    && (forall key: PageKey :: key.0 != prefix ==> SamePage(s, s', key))
    && forall i: nat :: i < |cut| ==>
      (prefix, i) in s'.pages && s'.pages[(prefix, i)].records == cut[i] && s'.pages[(prefix, i)].dirty == dirty
  }

  /** The pages but those of the prefix from a page count on. */
  function WithoutOlder(pages: map<PageKey, CachedPage>, prefix: string, count: nat): map<PageKey, CachedPage> {
    map key | key in pages && !(key.0 == prefix && key.1 >= count) :: pages[key]
  }

  /** The state once the older pages are dropped and the page count is noted. */
  function Trimmed(s: Store, inserted: Store, prefix: string, count: nat): Store {
    s.(
      pages := WithoutOlder(inserted.pages, prefix, count),
      manifest := s.manifest[prefix := count],
      dirtyManifests :=
        if prefix in s.manifest && s.manifest[prefix] == count then s.dirtyManifests else s.dirtyManifests + {prefix})
  }

  lemma InsertedIsReplaced(s: Store, inserted: Store, prefix: string, cut: seq<Records>)
    requires Inserted(s, inserted, prefix, cut, true)
    ensures Replaced(s, Trimmed(s, inserted, prefix, |cut|), prefix, cut)
  {
    forall key: PageKey | key.0 != prefix ensures SamePage(s, Trimmed(s, inserted, prefix, |cut|), key) {
      assert SamePage(s, inserted, key);
    }
  }

  lemma InsertedKeeps(s: Store, inserted: Store, s': Store, limit: nat, stored: map<string, Records>, prefix: string, records: Records)
    requires limit > 0 && StoreOk(s, limit, stored) && Inserted(s, inserted, prefix, Pages(records, limit), true)
    requires s' == Trimmed(s, inserted, prefix, DivCeil(|records|, limit))
    ensures StoreOk(s', limit, stored[prefix := records])
  {
    PageCount(records, limit);
    InsertedIsReplaced(s, inserted, prefix, Pages(records, limit));
    ReplacedKeeps(s, s', limit, stored, prefix, records);
  }

  /** The state once older pages are dropped and the page count is noted, with the manifest left clean. */
  function TrimmedClean(s: Store, inserted: Store, prefix: string, count: nat): Store {
    s.(pages := WithoutOlder(inserted.pages, prefix, count), manifest := s.manifest[prefix := count])
  }

  lemma InsertedIsRefilled(s: Store, inserted: Store, prefix: string, cut: seq<Records>)
    requires Inserted(s, inserted, prefix, cut, false)
    ensures Refilled(s, TrimmedClean(s, inserted, prefix, |cut|), prefix, cut)
  {
    forall key: PageKey | key.0 != prefix ensures SamePage(s, TrimmedClean(s, inserted, prefix, |cut|), key) {
      assert SamePage(s, inserted, key);
    }
  }

  lemma InsertedCleanKeeps(s: Store, inserted: Store, s': Store, limit: nat, stored: map<string, Records>, prefix: string, records: Records)
    requires limit > 0 && StoreOk(s, limit, stored) && Inserted(s, inserted, prefix, Pages(records, limit), false)
    requires s' == TrimmedClean(s, inserted, prefix, DivCeil(|records|, limit)) && DiskHolds(s, prefix, Pages(records, limit))
    ensures StoreOk(s', limit, stored[prefix := records])
  {
    PageCount(records, limit);
    InsertedIsRefilled(s, inserted, prefix, Pages(records, limit));
    RefilledKeeps(s, s', limit, stored, prefix, records);
  }

  // ----- the order in which pages were used

  /** Of the first `n` pages of a prefix the earlier were used before the later. */
  ghost predicate UsedInOrder(pages: map<PageKey, CachedPage>, prefix: string, n: nat) {
    forall i: nat, j: nat :: i < j < n ==>
      (prefix, i) in pages && (prefix, j) in pages && pages[(prefix, i)].accessTick < pages[(prefix, j)].accessTick
  }

  /** The first `n` pages of a prefix were used no later than at a tick. */
  ghost predicate UsedBy(pages: map<PageKey, CachedPage>, prefix: string, n: nat, tick: nat) {
    forall i: nat :: i < n && (prefix, i) in pages ==> pages[(prefix, i)].accessTick <= tick
  }

  /** The first `n` pages of a prefix were used in order after one tick and no later than another. */
  ghost predicate UsedBetween(pages: map<PageKey, CachedPage>, prefix: string, n: nat, from: nat, to: nat) {
    from <= to && UsedInOrder(pages, prefix, n) && UsedSince(pages, prefix, n, from) && UsedBy(pages, prefix, n, to)
  }

  lemma OneMoreUsed(pages: map<PageKey, CachedPage>, prefix: string, n: nat, from: nat, to: nat, page: CachedPage)
    requires UsedBetween(pages, prefix, n, from, to) && page.accessTick == to + 1
    requires forall i: nat :: i < n ==> (prefix, i) in pages
    ensures UsedBetween(pages[(prefix, n) := page], prefix, n + 1, from, to + 1)
  {}

  /** The pages on disk but the first of a prefix. */
  function WithoutDisk(pages: map<PageKey, Records>, prefix: string, count: nat): map<PageKey, Records> {
    map key | key in pages && !(key.0 == prefix && key.1 < count) :: pages[key]
  }

  lemma ClearedKeeps(s: Store, s': Store, limit: nat, stored: map<string, Records>, prefix: string)
    requires limit > 0 && StoreOk(s, limit, stored)
    requires s' == Store(
      WithoutOlder(s.pages, prefix, 0), s.manifest - {prefix}, s.dirtyManifests - {prefix},
      WithoutDisk(s.diskPages, prefix, PageCountOf(s.diskManifest, prefix)), s.diskManifest - {prefix})
    ensures StoreOk(s', limit, stored - {prefix})
    ensures forall i: nat :: i < PageCountOf(s.diskManifest, prefix) ==> (prefix, i) !in s'.diskPages
    ensures forall key: PageKey :: key.0 != prefix ==> SamePage(s, s', key)
  {
    forall p | p in stored && p != prefix ensures PrefixOk(s', limit, p, stored[p]) {
      assert PrefixOk(s, limit, p, stored[p]);
      var pages := Pages(stored[p], limit);
      forall i: nat | i < |pages| ensures PageOk(s', (p, i), pages[i]) {
        assert PageOk(s, (p, i), pages[i]);
        assert (p, i).0 != prefix;
      }
    }
  }

  // ----- which pages stay

  /** No page has been used after the current tick. */
  ghost predicate TicksAreOld(pages: map<PageKey, CachedPage>, tick: nat) {
    forall key :: key in pages ==> pages[key].accessTick <= tick
  }

  /** The first `n` pages of a prefix were used after a tick. */
  ghost predicate UsedSince(pages: map<PageKey, CachedPage>, prefix: string, n: nat, tick: nat) {
    forall i: nat :: i < n && (prefix, i) in pages ==> pages[(prefix, i)].accessTick > tick
  }

  /** The first `n` pages of a prefix have been used after a tick, and no page of another prefix has. */
  ghost predicate Touched(before: map<PageKey, CachedPage>, after: map<PageKey, CachedPage>, prefix: string, n: nat, tick: nat) {
    && after.Keys == before.Keys && UsedSince(after, prefix, n, tick)
    && forall key: PageKey :: key in after && key.0 != prefix ==> after[key] == before[key]
  }

  /** How far a read of a prefix has come: the first `n` pages have been touched. */
  ghost predicate ReadSoFar(s: Store, tick: nat, s': Store, now: nat, prefix: string, n: nat) {
    && SameButTicks(s, s') && FirstCached(s.pages, prefix, n)
    && Touched(s.pages, s'.pages, prefix, n, tick) && tick <= now && TicksAreOld(s'.pages, now)
  }

  lemma OneMoreTouched(before: map<PageKey, CachedPage>, after: map<PageKey, CachedPage>, prefix: string, n: nat, tick: nat, now: nat)
    requires Touched(before, after, prefix, n, tick) && (prefix, n) in after && now > tick
    ensures Touched(before, after[(prefix, n) := after[(prefix, n)].(accessTick := now)], prefix, n + 1, tick)
  {}

  lemma TouchedTicks(pages: map<PageKey, CachedPage>, key: PageKey, now: nat)
    requires key in pages && now > 0 && TicksAreOld(pages, now - 1)
    ensures TicksAreOld(pages[key := pages[key].(accessTick := now)], now)
  {}

  lemma TouchedSame(s: Store, s': Store, key: PageKey, now: nat)
    requires SameButTicks(s, s') && key in s'.pages
    ensures SameButTicks(s, s'.(pages := s'.pages[key := s'.pages[key].(accessTick := now)]))
  {}

  lemma ReadOneMore(s: Store, tick: nat, s': Store, now: nat, prefix: string, n: nat)
    requires now > 0 && ReadSoFar(s, tick, s', now - 1, prefix, n) && (prefix, n) in s'.pages
    requires prefix in s.manifest && n < s.manifest[prefix]
    ensures
      var page := s'.pages[(prefix, n)];
      && ReadSoFar(s, tick, s'.(pages := s'.pages[(prefix, n) := page.(accessTick := now)]), now, prefix, n + 1)
      && page.records == CurrentPages(s, prefix)[n]
  {
    assert FirstCached(s.pages, prefix, n + 1) by { OneMoreCached(s.pages, prefix, n); }
    ReadIs(s, s', prefix, n);
    OneMoreTouched(s.pages, s'.pages, prefix, n, tick, now);
    TouchedTicks(s'.pages, (prefix, n), now);
    TouchedSame(s, s', (prefix, n), now);
  }

  lemma ReadKeeps(s: Store, tick: nat, s': Store, now: nat, limit: nat, stored: map<string, Records>, prefix: string, n: nat)
    requires limit > 0 && StoreOk(s, limit, stored)
    requires ReadSoFar(s, tick, s', now, prefix, n)
    ensures StoreOk(s', limit, stored) && TicksAreOld(s'.pages, now)
  {
    TicksKeep(s, s', limit, stored);
  }

  function Others(pages: map<PageKey, CachedPage>, prefix: string): set<PageKey> {
    set key | key in pages && key.0 != prefix
  }

  function PageKeys(prefix: string, n: nat): set<PageKey> {
    set i: nat | i < n :: (prefix, i)
  }

  lemma {:induction false} PageKeysCount(prefix: string, n: nat)
    ensures |PageKeys(prefix, n)| == n
  {
    if n == 0 {
      assert PageKeys(prefix, 0) == {};
    } else {
      PageKeysCount(prefix, n - 1);
      assert PageKeys(prefix, n) == PageKeys(prefix, n - 1) + {(prefix, n - 1)};
    }
  }

  /** The pages of a prefix were used in order, and after all others. */
  ghost predicate UsedLast(pages: map<PageKey, CachedPage>, prefix: string, n: nat) {
    && UsedInOrder(pages, prefix, n)
    && forall key: PageKey, i: nat :: key in pages && key.0 != prefix && i < n && (prefix, i) in pages ==>
      pages[key].accessTick < pages[(prefix, i)].accessTick
  }

  lemma InsertedKeys(s: Store, inserted: Store, prefix: string, cut: seq<Records>, dirty: bool)
    requires Inserted(s, inserted, prefix, cut, dirty)
    ensures WithoutOlder(inserted.pages, prefix, |cut|).Keys == Others(s.pages, prefix) + PageKeys(prefix, |cut|)
  {
    var pages := WithoutOlder(inserted.pages, prefix, |cut|);
    forall key: PageKey ensures key in pages <==> key in Others(s.pages, prefix) + PageKeys(prefix, |cut|) {
      if key.0 == prefix {
        assert key == (prefix, key.1);
      } else {
        assert SamePage(s, inserted, key);
      }
    }
  }

  lemma InsertedLast(s: Store, inserted: Store, prefix: string, cut: seq<Records>, dirty: bool, before: nat, after: nat)
    requires Inserted(s, inserted, prefix, cut, dirty) && TicksAreOld(s.pages, before)
    requires UsedBetween(inserted.pages, prefix, |cut|, before, after)
    ensures UsedLast(WithoutOlder(inserted.pages, prefix, |cut|), prefix, |cut|)
    ensures TicksAreOld(WithoutOlder(inserted.pages, prefix, |cut|), after)
  {
    var pages := WithoutOlder(inserted.pages, prefix, |cut|);
    forall key: PageKey | key in pages && key.0 != prefix ensures pages[key].accessTick <= before {
      assert SamePage(s, inserted, key);
    }
    forall key | key in pages ensures pages[key].accessTick <= after {
      if key.0 == prefix {
        assert key == (prefix, key.1);
      }
    }
  }

  lemma AllKeys(before: map<PageKey, CachedPage>, pages: map<PageKey, CachedPage>, prefix: string, n: nat)
    requires pages.Keys == Others(before, prefix) + PageKeys(prefix, n)
    ensures |pages| == |Others(before, prefix)| + n
  {
    PageKeysCount(prefix, n);
    assert Others(before, prefix) !! PageKeys(prefix, n);
    assert |pages| == |pages.Keys|;
  }

  /** Pages from `i` on. */
  function LaterKeys(prefix: string, i: nat, n: nat): set<PageKey> {
    set j: nat | i <= j < n :: (prefix, j)
  }

  lemma LaterKeysCount(prefix: string, i: nat, n: nat)
    requires i <= n
    ensures |LaterKeys(prefix, i, n)| == n - i
  {
    PageKeysCount(prefix, i);
    PageKeysCount(prefix, n);
    assert PageKeys(prefix, n) == PageKeys(prefix, i) + LaterKeys(prefix, i, n);
  }

  lemma SmallerSet(a: set<PageKey>, b: set<PageKey>)
    requires a <= b
    ensures |a| <= |b|
  {
    assert b == a + (b - a);
  }

  /** Least recently used pages leave first: of pages used last, in order, the last ones stay up to the limit. */
  lemma LastPagesStay(
      first: map<PageKey, CachedPage>, before: map<PageKey, CachedPage>, after: map<PageKey, CachedPage>, prefix: string, n: nat, limit: nat)
    requires before.Keys == Others(first, prefix) + PageKeys(prefix, n) && UsedLast(before, prefix, n)
    requires OldestGone(before, after) && |after| == Smaller(|before|, limit)
    ensures |after| == Smaller(|Others(first, prefix)| + n, limit)
    ensures forall i: nat :: i < n ==> ((prefix, i) in after <==> n <= i + limit)
  {
    AllKeys(first, before, prefix, n);
    forall i: nat | i < n ensures (prefix, i) in after <==> n <= i + limit {
      assert (prefix, i) in PageKeys(prefix, n);
      if (prefix, i) in after {
        StaysWithLater(before, after, prefix, n, i);
      } else {
        OnlyLaterStay(before, after, prefix, n, i);
        OneGone(before, after, (prefix, i));
      }
    }
  }

  lemma OneGone(before: map<PageKey, CachedPage>, after: map<PageKey, CachedPage>, gone: PageKey)
    requires after.Keys <= before.Keys && gone in before && gone !in after
    ensures |after| < |before|
  {
    SmallerSet(after.Keys + {gone}, before.Keys);
    assert |after| == |after.Keys| && |before| == |before.Keys|;
  }

  lemma StaysWithLater(before: map<PageKey, CachedPage>, after: map<PageKey, CachedPage>, prefix: string, n: nat, i: nat)
    requires UsedLast(before, prefix, n) && OldestGone(before, after) && PageKeys(prefix, n) <= before.Keys
    requires i < n && (prefix, i) in after
    ensures n - i <= |after|
  {
    forall j: nat | i < j < n ensures (prefix, j) in after {
      assert (prefix, j) in PageKeys(prefix, n);
    }
    LaterKeysCount(prefix, i, n);
    SmallerSet(LaterKeys(prefix, i, n), after.Keys);
    assert |after| == |after.Keys|;
  }

  lemma OnlyLaterStay(before: map<PageKey, CachedPage>, after: map<PageKey, CachedPage>, prefix: string, n: nat, i: nat)
    requires UsedLast(before, prefix, n) && OldestGone(before, after) && i < n && (prefix, i) in before && (prefix, i) !in after
    requires forall key: PageKey :: key in before && key.0 == prefix ==> key.1 < n
    ensures |after| <= n - i - 1
  {
    forall key | key in after ensures key in LaterKeys(prefix, i + 1, n) {
      assert before[(prefix, i)].accessTick <= before[key].accessTick;
      assert key == (key.0, key.1);
    }
    LaterKeysCount(prefix, i + 1, n);
    SmallerSet(after.Keys, LaterKeys(prefix, i + 1, n));
    assert |after| == |after.Keys|;
  }

  /** What has just been stored is read back, if its pages fit into the cache. */
  method StoreAndRead(ads: PageCacheAds, prefix: string, records: Records, trie: Records) returns (r: Result<Records>)
    requires ads.Valid() && DivCeil(|records|, ads.Limit()) <= ads.MaxPages()
    modifies ads
    ensures ads.Valid() && r == Ok(records) && ads.stored == old(ads.stored)[prefix := records]
  {
    ads.CacheRootPrefixRecords(prefix, records, true);
    ReadIsStoredIff(ads.State(), ads.Limit(), ads.stored, prefix, trie);
    r := ads.LoadShardRecords(prefix, trie);
  }

  // ----- a stale read

  lemma OnePagePerRecord(a: PersistedRecord, b: PersistedRecord)
    ensures Pages([a], 1) == [[a]] && Pages([a, b], 1) == [[a], [b]] && Join([[a]]) == [a]
  {
    var one, two := [a], [a, b];
    assert one[..1] == [a] && one[1..] == [] && two[..1] == [a] && two[1..] == [b];
    assert [b][..1] == [b] && [b][1..] == [];
    assert Pages([b], 1) == [[b]];
    JoinPages([a], 1);
  }

  lemma OneCachedPage(pages: map<PageKey, CachedPage>, prefix: string)
    requires |pages| <= 1 && ((prefix, 0) in pages ==> (prefix, 1) in pages)
    ensures (prefix, 0) !in pages
  {
    if (prefix, 0) in pages {
      var both: set<PageKey> := {(prefix, 0), (prefix, 1)};
      assert both <= pages.Keys;
      TwoKeys(both, pages.Keys);
    }
  }

  lemma TwoKeys(both: set<PageKey>, keys: set<PageKey>)
    requires both <= keys
    ensures |both| <= |keys|
  {
    assert keys == both + (keys - both);
  }

  /** The first of two pages has left the cache and the disk still counts one. */
  lemma EvictedReadsDisk(s: Store, prefix: string, a: PersistedRecord, b: PersistedRecord, trie: Records)
    requires StoreOk(s, 1, map[prefix := [a, b]]) && (prefix, 0) !in s.pages
    requires prefix in s.diskManifest && s.diskManifest[prefix] == 1
    ensures FromDisk(s, prefix) && WellCut(s, 1, prefix) && ReadShard(s, prefix, trie) == Ok([a])
  {
    OnePagePerRecord(a, b);
    assert PrefixOk(s, 1, prefix, [a, b]);
    assert PageOk(s, (prefix, 0), [a]);
    assert DiskPages(s, prefix) == [[a]];
  }

  lemma FlushedCount(s: Store, prefix: string, a: PersistedRecord)
    requires StoreOk(s, 1, map[prefix := [a]]) && Flushed(s, prefix)
    ensures prefix in s.diskManifest && s.diskManifest[prefix] == 1
  {
    OnePagePerRecord(a, a);
    assert PrefixOk(s, 1, prefix, [a]);
  }

  /** Stored and flushed, a prefix of one record is counted on disk. */
  method StoreAndFlush(prefix: string, a: PersistedRecord) returns (ads: PageCacheAds)
    ensures fresh(ads) && ads.Valid() && ads.stored == map[prefix := [a]] && ads.Limit() == 1 && ads.MaxPages() == 1
    ensures prefix in ads.diskManifest && ads.diskManifest[prefix] == 1
  {
    ads := new PageCacheAds(1, 1);
    ads.CacheRootPrefixRecords(prefix, [a], true);
    ads.FlushAllDirtyPages();
    FlushedCount(ads.State(), prefix, a);
  }

  /** Storing one record more evicts the first page, and the disk still counts one. */
  method StoreMore(ads: PageCacheAds, prefix: string, a: PersistedRecord, b: PersistedRecord)
    requires ads.Valid() && ads.Limit() == 1 && ads.MaxPages() == 1
    requires prefix in ads.diskManifest && ads.diskManifest[prefix] == 1
    modifies ads
    ensures ads.Valid() && ads.stored == old(ads.stored)[prefix := [a, b]]
    ensures (prefix, 0) !in ads.pages && prefix in ads.diskManifest && ads.diskManifest[prefix] == 1
  {
    ads.CacheRootPrefixRecords(prefix, [a, b], true);
    OneCachedPage(ads.pages, prefix);
  }

  lemma OneKey(prefix: string, x: Records, y: Records)
    ensures map[prefix := x][prefix := y] == map[prefix := y]
  {}

  /** The read of the one prefix in that state. */
  method ReadStale(ads: PageCacheAds, prefix: string, a: PersistedRecord, b: PersistedRecord, trie: Records)
    returns (r: Result<Records>)
    requires ads.Valid() && ads.Limit() == 1 && ads.stored == map[prefix := [a, b]] && (prefix, 0) !in ads.pages
    requires prefix in ads.diskManifest && ads.diskManifest[prefix] == 1
    modifies ads
    ensures ads.Valid() && r == Ok([a]) && ads.stored == old(ads.stored)[prefix := [a]]
  {
    EvictedReadsDisk(ads.State(), prefix, a, b, trie);
    r := ads.LoadShardRecords(prefix, trie);
  }

  /** Stored, flushed, stored again with one record more and partly evicted: the older page on disk is read, and
      the page that was still to be written no longer counts. */
  method PartlyEvictedPrefixIsReadStale(prefix: string, a: PersistedRecord, b: PersistedRecord, trie: Records)
    returns (ads: PageCacheAds, ghost wasStored: map<string, Records>, r: Result<Records>)
    ensures fresh(ads) && ads.Valid()
    ensures wasStored == map[prefix := [a, b]] && r == Ok([a]) && ads.stored == map[prefix := [a]]
  {
    ads := StoreAndFlush(prefix, a);
    StoreMore(ads, prefix, a, b);
    OneKey(prefix, [a], [a, b]);
    wasStored := ads.stored;
    r := ReadStale(ads, prefix, a, b, trie);
    OneKey(prefix, [a, b], [a]);
  }
}
