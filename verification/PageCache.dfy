/** The page cache of the AccTrie storager: records of a root prefix are cut into pages, which live in a
    bounded cache and on disk. The pages together always stand for the records last stored. */
module PageCache {
  import opened Wrappers

  datatype PersistedRecord = PersistedRecord(key: string, fids: seq<string>)

  type Records = seq<PersistedRecord>

  type PageKey = (string, nat)

  datatype CachedPage = CachedPage(records: Records, dirty: bool, accessTick: nat)

  // ----- pages

  function Smaller(a: nat, b: nat): nat {
    if a < b then a else b
  }

  /** The records cut into pages of at most `limit`. */
  function Pages(records: Records, limit: nat): (pages: seq<Records>)
    requires limit > 0
    decreases |records|
  {
    if records == [] then []
    else [records[..Smaller(limit, |records|)]] + Pages(records[Smaller(limit, |records|)..], limit)
  }

  function Join(pages: seq<Records>): Records {
    if pages == [] then [] else pages[0] + Join(pages[1..])
  }

  lemma {:induction false} JoinPages(records: Records, limit: nat)
    requires limit > 0
    ensures Join(Pages(records, limit)) == records
    decreases |records|
  {
    if records != [] {
      JoinPages(records[Smaller(limit, |records|)..], limit);
    }
  }

  /** The number of pages is the length divided by the limit, rounded up. */
  lemma {:induction false} PageCount(records: Records, limit: nat)
    requires limit > 0
    ensures |Pages(records, limit)| == DivCeil(|records|, limit)
    decreases |records|
  {
    if records != [] {
      var rest := records[Smaller(limit, |records|)..];
      PageCount(rest, limit);
      if |records| > limit {
        DivCeilStep(|records|, limit);
      } else {
        DivCeilSmall(|records|, limit);
      }
    }
  }

  function DivCeil(n: nat, limit: nat): nat
    requires limit > 0
  {
    (n + limit - 1) / limit
  }

  lemma DivCeilSmall(n: nat, limit: nat)
    requires 0 < n <= limit
    ensures DivCeil(n, limit) == 1 && DivCeil(0, limit) == 0
  {}

  lemma DivCeilStep(n: nat, limit: nat)
    requires n > limit > 0
    ensures DivCeil(n, limit) == 1 + DivCeil(n - limit, limit)
  {
    var m := n - limit + limit - 1;
    var q, r := m / limit, m % limit;
    assert m == limit * q + r;
    assert m + limit == limit * (q + 1) + r;
    QuotientIs(m + limit, limit, q + 1, r);
  }

  lemma QuotientIs(x: nat, d: nat, q: nat, r: nat)
    requires d > 0 && r < d && x == d * q + r
    ensures x / d == q
  {
    var p, s := x / d, x % d;
    assert x == d * p + s;
    assert d * (p - q) == d * p - d * q;
    NoSmallMultiple(d, p - q);
  }

  lemma NoSmallMultiple(n: int, z: int)
    requires n > 0 && -n < n * z < n
    ensures z == 0
  {}

  // ----- the invariant

  datatype Store = Store(
    pages: map<PageKey, CachedPage>, manifest: map<string, nat>, dirtyManifests: set<string>,
    diskPages: map<PageKey, Records>, diskManifest: map<string, nat>)

  ghost predicate OnDisk(s: Store, key: PageKey, records: Records) {
    key in s.diskPages && s.diskPages[key] == records
  }

  /** A page is what it should be in the cache, or else on disk; a clean cached page is also on disk. */
  ghost predicate PageOk(s: Store, key: PageKey, records: Records) {
    if key in s.pages then s.pages[key].records == records && (!s.pages[key].dirty ==> OnDisk(s, key, records))
    else OnDisk(s, key, records)
  }

  ghost predicate DiskCount(s: Store, prefix: string, count: nat) {
    if count == 0 then prefix !in s.diskManifest else prefix in s.diskManifest && s.diskManifest[prefix] == count
  }

  ghost predicate PrefixOk(s: Store, limit: nat, prefix: string, records: Records)
    requires limit > 0
  {
    var pages := Pages(records, limit);
    && prefix in s.manifest && s.manifest[prefix] == |pages|
    && (forall i: nat :: i < |pages| ==> PageOk(s, (prefix, i), pages[i]))
    && (prefix !in s.dirtyManifests ==> DiskCount(s, prefix, |pages|))
  }

  /** No cached page lies beyond the manifest. */
  ghost predicate NoStrayPages(s: Store) {
    forall key :: key in s.pages ==> key.0 in s.manifest && key.1 < s.manifest[key.0]
  }

  ghost predicate StoreOk(s: Store, limit: nat, stored: map<string, Records>)
    requires limit > 0
  {
    && s.manifest.Keys == stored.Keys && NoStrayPages(s)
    && forall p :: p in stored ==> PrefixOk(s, limit, p, stored[p])
  }

  /** The pages of a prefix, cached or else on disk. */
  function CurrentPage(s: Store, key: PageKey): Records {
    if key in s.pages then s.pages[key].records else if key in s.diskPages then s.diskPages[key] else []
  }

  function CurrentPages(s: Store, prefix: string): seq<Records>
    requires prefix in s.manifest
  {
    seq(s.manifest[prefix], i requires 0 <= i < s.manifest[prefix] => CurrentPage(s, (prefix, i)))
  }

  /** What a reader of the disk alone finds. */
  function DiskPages(s: Store, prefix: string): seq<Records> {
    var count := if prefix in s.diskManifest then s.diskManifest[prefix] else 0;
    seq(count, i requires 0 <= i < count => if (prefix, i) in s.diskPages then s.diskPages[(prefix, i)] else [])
  }

  /** Cached pages, with disk pages for those not cached, make up the records last stored. */
  lemma CacheStandsForRecords(s: Store, limit: nat, stored: map<string, Records>, prefix: string)
    requires limit > 0 && StoreOk(s, limit, stored) && prefix in stored
    ensures Join(CurrentPages(s, prefix)) == stored[prefix]
  {
    var pages := Pages(stored[prefix], limit);
    assert PrefixOk(s, limit, prefix, stored[prefix]);
    assert CurrentPages(s, prefix) == pages by {
      forall i: nat | i < |pages| ensures CurrentPages(s, prefix)[i] == pages[i] {
        assert PageOk(s, (prefix, i), pages[i]);
      }
    }
    JoinPages(stored[prefix], limit);
  }

  /** Nothing of the prefix waits to be written. */
  predicate Flushed(s: Store, prefix: string) {
    && prefix !in s.dirtyManifests
    && forall key :: key in s.pages && key.0 == prefix ==> !s.pages[key].dirty
  }

  lemma DiskStandsForRecords(s: Store, limit: nat, stored: map<string, Records>, prefix: string)
    requires limit > 0 && StoreOk(s, limit, stored) && prefix in stored && Flushed(s, prefix)
    ensures Join(DiskPages(s, prefix)) == stored[prefix]
  {
    var pages := Pages(stored[prefix], limit);
    assert PrefixOk(s, limit, prefix, stored[prefix]);
    assert DiskPages(s, prefix) == pages by {
      forall i: nat | i < |pages| ensures DiskPages(s, prefix)[i] == pages[i] {
        assert PageOk(s, (prefix, i), pages[i]);
      }
    }
    JoinPages(stored[prefix], limit);
  }

  // ----- steps on the store

  /** Page `i` of new records, put into the cache. */
  function PutPage(s: Store, key: PageKey, records: Records, tick: nat): Store {
    s.(pages := s.pages[key := CachedPage(records, true, tick)])
  }

  function FlushPage(s: Store, key: PageKey): Store
    requires key in s.pages
  {
    s.(pages := s.pages[key := s.pages[key].(dirty := false)], diskPages := s.diskPages[key := s.pages[key].records])
  }

  function DropPage(s: Store, key: PageKey): Store {
    s.(pages := s.pages - {key})
  }

  /** Writing a page to disk changes no page. */
  lemma FlushPageKeeps(s: Store, limit: nat, stored: map<string, Records>, key: PageKey)
    requires limit > 0 && StoreOk(s, limit, stored) && key in s.pages
    ensures StoreOk(FlushPage(s, key), limit, stored)
  {
    var s' := FlushPage(s, key);
    forall p | p in stored ensures PrefixOk(s', limit, p, stored[p]) {
      assert PrefixOk(s, limit, p, stored[p]);
      var pages := Pages(stored[p], limit);
      forall i: nat | i < |pages| ensures PageOk(s', (p, i), pages[i]) {
        assert PageOk(s, (p, i), pages[i]);
      }
    }
  }

  /** A clean page can leave the cache. */
  lemma DropPageKeeps(s: Store, limit: nat, stored: map<string, Records>, key: PageKey)
    requires limit > 0 && StoreOk(s, limit, stored) && key in s.pages && !s.pages[key].dirty
    ensures StoreOk(DropPage(s, key), limit, stored)
  {
    var s' := DropPage(s, key);
    forall p | p in stored ensures PrefixOk(s', limit, p, stored[p]) {
      assert PrefixOk(s, limit, p, stored[p]);
      var pages := Pages(stored[p], limit);
      forall i: nat | i < |pages| ensures PageOk(s', (p, i), pages[i]) {
        assert PageOk(s, (p, i), pages[i]);
      }
    }
  }

  /** The records of a prefix replaced in the cache: every page dirty, the manifest dirty if the number of
      pages changed, pages beyond the last dropped. */
  ghost predicate Replaced(s: Store, s': Store, prefix: string, pages: seq<Records>) {
    && s'.diskPages == s.diskPages && s'.diskManifest == s.diskManifest
    && s'.manifest == s.manifest[prefix := |pages|]
    && s'.dirtyManifests
         == (if prefix in s.manifest && s.manifest[prefix] == |pages| then s.dirtyManifests else s.dirtyManifests + {prefix})
    && (forall key: PageKey :: key.0 != prefix ==> SamePage(s, s', key))
    && HoldsPages(s', prefix, pages, true)
  }

  /** The cache has these pages of the prefix and no others. */
  ghost predicate HoldsPages(s: Store, prefix: string, pages: seq<Records>, dirty: bool) {
    && (forall i: nat :: (prefix, i) in s.pages <==> i < |pages|)
    && (forall i: nat :: i < |pages| ==> s.pages[(prefix, i)].records == pages[i] && s.pages[(prefix, i)].dirty == dirty)
  }

  ghost predicate SamePage(s: Store, s': Store, key: PageKey) {
    (key in s'.pages <==> key in s.pages) && (key in s.pages ==> s'.pages[key] == s.pages[key])
  }

  lemma OtherPrefixKept(s: Store, s': Store, limit: nat, prefix: string, pages: seq<Records>, p: string, records: Records)
    requires limit > 0 && Replaced(s, s', prefix, pages) && p != prefix && PrefixOk(s, limit, p, records)
    ensures PrefixOk(s', limit, p, records)
  {
    var ps := Pages(records, limit);
    forall i: nat | i < |ps| ensures PageOk(s', (p, i), ps[i]) {
      assert PageOk(s, (p, i), ps[i]);
      assert SamePage(s, s', (p, i));
    }
  }

  /** The pages of the replaced prefix are those in the cache. */
  lemma ReplacedPrefixOk(s: Store, s': Store, limit: nat, prefix: string, records: Records)
    requires limit > 0 && Replaced(s, s', prefix, Pages(records, limit))
    requires prefix in s.manifest && prefix !in s.dirtyManifests ==> DiskCount(s, prefix, s.manifest[prefix])
    ensures PrefixOk(s', limit, prefix, records)
  {
    var pages := Pages(records, limit);
    forall i: nat | i < |pages| ensures PageOk(s', (prefix, i), pages[i]) {}
  }

  lemma NoStraysLeft(s: Store, s': Store, prefix: string, pages: seq<Records>, dirty: bool)
    requires NoStrayPages(s) && s'.manifest == s.manifest[prefix := |pages|] && HoldsPages(s', prefix, pages, dirty)
    requires forall key: PageKey :: key.0 != prefix ==> SamePage(s, s', key)
    ensures NoStrayPages(s')
  {
    forall key | key in s'.pages ensures key.0 in s'.manifest && key.1 < s'.manifest[key.0] {
      if key.0 == prefix {
        assert (prefix, key.1) in s'.pages;
      } else {
        assert SamePage(s, s', key);
      }
    }
  }

  lemma ReplacedKeeps(s: Store, s': Store, limit: nat, stored: map<string, Records>, prefix: string, records: Records)
    requires limit > 0 && StoreOk(s, limit, stored) && Replaced(s, s', prefix, Pages(records, limit))
    ensures StoreOk(s', limit, stored[prefix := records])
  {
    assert prefix in s.manifest ==> PrefixOk(s, limit, prefix, stored[prefix]);
    ReplacedPrefixOk(s, s', limit, prefix, records);
    NoStraysLeft(s, s', prefix, Pages(records, limit), true);
    forall p | p in stored && p != prefix ensures PrefixOk(s', limit, p, stored[p]) {
      OtherPrefixKept(s, s', limit, prefix, Pages(records, limit), p, stored[p]);
    }
  }

  /** How many pages a manifest counts for a prefix; none if it has no entry. */
  function PageCountOf(manifest: map<string, nat>, prefix: string): nat {
    if prefix in manifest then manifest[prefix] else 0
  }

  function WriteManifest(s: Store, prefix: string): Store {
    var count := PageCountOf(s.manifest, prefix);
    s.(dirtyManifests := s.dirtyManifests - {prefix},
       diskManifest := if count == 0 then s.diskManifest - {prefix} else s.diskManifest[prefix := count])
  }

  lemma WriteManifestKeeps(s: Store, limit: nat, stored: map<string, Records>, prefix: string)
    requires limit > 0 && StoreOk(s, limit, stored)
    ensures StoreOk(WriteManifest(s, prefix), limit, stored)
  {
    var s' := WriteManifest(s, prefix);
    forall p | p in stored ensures PrefixOk(s', limit, p, stored[p]) {
      assert PrefixOk(s, limit, p, stored[p]);
      var pages := Pages(stored[p], limit);
      forall i: nat | i < |pages| ensures PageOk(s', (p, i), pages[i]) {
        assert PageOk(s, (p, i), pages[i]);
      }
    }
  }

  /** Only access ticks differ. */
  ghost predicate SameButTicks(s: Store, s': Store) {
    && s'.manifest == s.manifest && s'.dirtyManifests == s.dirtyManifests
    && s'.diskPages == s.diskPages && s'.diskManifest == s.diskManifest && s'.pages.Keys == s.pages.Keys
    && forall key :: key in s.pages ==> s'.pages[key].records == s.pages[key].records && s'.pages[key].dirty == s.pages[key].dirty
  }

  lemma TicksKeep(s: Store, s': Store, limit: nat, stored: map<string, Records>)
    requires limit > 0 && StoreOk(s, limit, stored) && SameButTicks(s, s')
    ensures StoreOk(s', limit, stored)
  {
    forall p | p in stored ensures PrefixOk(s', limit, p, stored[p]) {
      assert PrefixOk(s, limit, p, stored[p]);
      var pages := Pages(stored[p], limit);
      forall i: nat | i < |pages| ensures PageOk(s', (p, i), pages[i]) {
        assert PageOk(s, (p, i), pages[i]);
      }
    }
  }

  /** The records of a prefix put into the cache as clean: the manifest is not marked dirty. */
  ghost predicate Refilled(s: Store, s': Store, prefix: string, pages: seq<Records>) {
    && s'.diskPages == s.diskPages && s'.diskManifest == s.diskManifest
    && s'.manifest == s.manifest[prefix := |pages|] && s'.dirtyManifests == s.dirtyManifests
    && (forall key: PageKey :: key.0 != prefix ==> SamePage(s, s', key))
    && HoldsPages(s', prefix, pages, false)
  }

  /** The disk already has the pages, and their number unless the manifest still waits to be written. */
  ghost predicate DiskHolds(s: Store, prefix: string, pages: seq<Records>) {
    && (forall i: nat :: i < |pages| ==> OnDisk(s, (prefix, i), pages[i]))
    && (prefix in s.dirtyManifests || DiskCount(s, prefix, |pages|))
  }

  lemma RefilledOtherKept(s: Store, s': Store, limit: nat, prefix: string, pages: seq<Records>, p: string, records: Records)
    requires limit > 0 && Refilled(s, s', prefix, pages) && p != prefix && PrefixOk(s, limit, p, records)
    ensures PrefixOk(s', limit, p, records)
  {
    var ps := Pages(records, limit);
    forall i: nat | i < |ps| ensures PageOk(s', (p, i), ps[i]) {
      assert PageOk(s, (p, i), ps[i]);
      assert SamePage(s, s', (p, i));
    }
  }

  /** Clean pages may be put into the cache when the disk has them. */
  lemma RefilledKeeps(s: Store, s': Store, limit: nat, stored: map<string, Records>, prefix: string, records: Records)
    requires limit > 0 && StoreOk(s, limit, stored) && Refilled(s, s', prefix, Pages(records, limit))
    requires DiskHolds(s, prefix, Pages(records, limit))
    ensures StoreOk(s', limit, stored[prefix := records])
  {
    var pages := Pages(records, limit);
    assert PrefixOk(s', limit, prefix, records) by {
      forall i: nat | i < |pages| ensures PageOk(s', (prefix, i), pages[i]) {
        assert OnDisk(s, (prefix, i), pages[i]);
      }
    }
    NoStraysLeft(s, s', prefix, pages, false);
    forall p | p in stored && p != prefix ensures PrefixOk(s', limit, p, stored[p]) {
      RefilledOtherKept(s, s', limit, prefix, pages, p, stored[p]);
    }
  }

  // ----- reading a prefix: the cache if all its pages are there, else the disk, else the trie

  /** The first `n` pages of the prefix are in the cache. */
  predicate FirstCached(pages: map<PageKey, CachedPage>, prefix: string, n: nat) {
    forall i: nat :: i < n ==> (prefix, i) in pages
  }

  ghost predicate AllCached(s: Store, prefix: string) {
    prefix in s.manifest && FirstCached(s.pages, prefix, s.manifest[prefix])
  }

  /** The read goes past the cache to the disk. */
  ghost predicate FromDisk(s: Store, prefix: string) {
    !AllCached(s, prefix) && prefix in s.diskManifest
  }

  ghost predicate DiskComplete(s: Store, prefix: string)
    requires prefix in s.diskManifest
  {
    forall i: nat :: i < s.diskManifest[prefix] ==> (prefix, i) in s.diskPages
  }

  const NO_PAGE := "no such page"

  /** What a read of the prefix returns; `trie` is what the trie in memory has for it. */
  ghost function ReadShard(s: Store, prefix: string, trie: Records): Result<Records> {
    if AllCached(s, prefix) then Ok(Join(CurrentPages(s, prefix)))
    else if prefix in s.diskManifest then
      if DiskComplete(s, prefix) then Ok(Join(DiskPages(s, prefix))) else Err(NO_PAGE)
    else Ok(trie)
  }

  /** Where page `i` begins among the records of all pages. */
  function Start(pages: seq<Records>, i: nat): nat
    requires i <= |pages|
  {
    if i == 0 then 0 else Start(pages, i - 1) + |pages[i - 1]|
  }

  /** Page `i` holds just the records that belong at its place. */
  predicate InPlace(pages: seq<Records>, i: nat, records: Records)
    requires i < |pages|
  {
    Start(pages, i) + |pages[i]| <= |records| && records[Start(pages, i)..Start(pages, i) + |pages[i]|] == pages[i]
  }

  /** Every page is in its place, and no record is missing behind the last. */
  predicate AllInPlace(pages: seq<Records>, records: Records) {
    Start(pages, |pages|) == |records| && forall i: nat :: i < |pages| ==> InPlace(pages, i, records)
  }

  lemma {:induction false} StartOfTail(pages: seq<Records>, i: nat)
    requires pages != [] && 0 < i <= |pages|
    ensures Start(pages, i) == |pages[0]| + Start(pages[1..], i - 1)
  {
    if i > 1 {
      StartOfTail(pages, i - 1);
    }
  }

  lemma InPlaceOfTail(pages: seq<Records>, records: Records)
    requires pages != [] && |pages[0]| <= |records| && records[..|pages[0]|] == pages[0]
    ensures AllInPlace(pages, records) <==> AllInPlace(pages[1..], records[|pages[0]|..])
  {
    var tail, rest := pages[1..], records[|pages[0]|..];
    StartOfTail(pages, |pages|);
    forall i: nat | i < |tail| ensures InPlace(pages, i + 1, records) <==> InPlace(tail, i, rest) {
      StartOfTail(pages, i + 1);
      var from := Start(tail, i);
      if from + |tail[i]| <= |rest| {
        assert rest[from..from + |tail[i]|] == records[|pages[0]| + from..|pages[0]| + from + |tail[i]|];
      }
    }
    if AllInPlace(pages, records) {
      forall i: nat | i < |tail| ensures InPlace(tail, i, rest) {
        assert InPlace(pages, i + 1, records);
      }
    }
    if AllInPlace(tail, rest) {
      forall i: nat | i < |pages| ensures InPlace(pages, i, records) {
        if i > 0 {
          assert InPlace(tail, i - 1, rest);
        }
      }
    }
  }

  /** Pages join to the records exactly if each is in its place, whatever their sizes. */
  lemma {:induction false} JoinIsIff(pages: seq<Records>, records: Records)
    ensures Join(pages) == records <==> AllInPlace(pages, records)
    decreases |pages|
  {
    if pages != [] {
      var first := pages[0];
      if |first| <= |records| && records[..|first|] == first {
        JoinIsIff(pages[1..], records[|first|..]);
        InPlaceOfTail(pages, records);
        assert records == first + records[|first|..];
        if Join(pages) == records {
          assert Join(pages)[|first|..] == Join(pages[1..]);
        }
      } else {
        assert Join(pages)[..|first|] == first;
        assert Start(pages, 0) == 0 && !InPlace(pages, 0, records);
      }
    }
  }

  /** A read returns the records last stored if and only if all pages of the prefix are cached, or the disk has every
      page it counts, each with the records that belong at its place, and none is missing behind the last, or there is
      nothing on disk and the trie has the records. */
  lemma ReadIsStoredIff(s: Store, limit: nat, stored: map<string, Records>, prefix: string, trie: Records)
    requires limit > 0 && StoreOk(s, limit, stored) && prefix in stored
    ensures ReadShard(s, prefix, trie) == Ok(stored[prefix]) <==>
      || AllCached(s, prefix)
      || (if prefix in s.diskManifest then DiskComplete(s, prefix) && AllInPlace(DiskPages(s, prefix), stored[prefix])
          else trie == stored[prefix])
  {
    CacheStandsForRecords(s, limit, stored, prefix);
    JoinIsIff(DiskPages(s, prefix), stored[prefix]);
  }

  /** The disk has the right number of pages and no dirty page differs from its page on disk. */
  ghost predicate DiskIsCurrent(s: Store, prefix: string) {
    && prefix in s.manifest && prefix in s.diskManifest && s.diskManifest[prefix] == s.manifest[prefix]
    && forall i: nat :: i < s.manifest[prefix] && (prefix, i) in s.pages && s.pages[(prefix, i)].dirty ==>
      OnDisk(s, (prefix, i), s.pages[(prefix, i)].records)
  }

  /** With the disk current every read returns the records last stored, whatever has been evicted. */
  lemma CurrentDiskIsRead(s: Store, limit: nat, stored: map<string, Records>, prefix: string, trie: Records)
    requires limit > 0 && StoreOk(s, limit, stored) && DiskIsCurrent(s, prefix)
    ensures ReadShard(s, prefix, trie) == Ok(stored[prefix])
    ensures DiskPages(s, prefix) == Pages(stored[prefix], limit)
  {
    var pages := Pages(stored[prefix], limit);
    assert PrefixOk(s, limit, prefix, stored[prefix]);
    forall i: nat | i < |pages| ensures OnDisk(s, (prefix, i), pages[i]) {
      assert PageOk(s, (prefix, i), pages[i]);
    }
    assert DiskPages(s, prefix) == pages;
    JoinPages(stored[prefix], limit);
    CacheStandsForRecords(s, limit, stored, prefix);
  }

  /** A flushed prefix that has records is current on disk. */
  lemma FlushedIsCurrent(s: Store, limit: nat, stored: map<string, Records>, prefix: string)
    requires limit > 0 && StoreOk(s, limit, stored) && prefix in stored && stored[prefix] != [] && Flushed(s, prefix)
    ensures DiskIsCurrent(s, prefix)
  {
    assert PrefixOk(s, limit, prefix, stored[prefix]);
  }

  /** Ticks play no part in what is read. */
  lemma TicksReadSame(s: Store, s': Store, prefix: string, trie: Records)
    requires SameButTicks(s, s')
    ensures ReadShard(s', prefix, trie) == ReadShard(s, prefix, trie)
    ensures AllCached(s', prefix) == AllCached(s, prefix) && DiskPages(s', prefix) == DiskPages(s, prefix)
  {
    if prefix in s.manifest {
      assert CurrentPages(s', prefix) == CurrentPages(s, prefix);
    }
    assert DiskPages(s', prefix) == DiskPages(s, prefix);
  }

  /** The disk pages are cut as the page limit cuts their records. */
  ghost predicate WellCut(s: Store, limit: nat, prefix: string)
    requires limit > 0
  {
    && prefix in s.diskManifest && s.diskManifest[prefix] > 0 && DiskComplete(s, prefix)
    && DiskPages(s, prefix) == Pages(Join(DiskPages(s, prefix)), limit)
  }

  lemma WellCutHolds(s: Store, limit: nat, prefix: string)
    requires limit > 0 && WellCut(s, limit, prefix)
    ensures DiskHolds(s, prefix, Pages(Join(DiskPages(s, prefix)), limit))
  {
    var pages := Pages(Join(DiskPages(s, prefix)), limit);
    forall i: nat | i < |pages| ensures OnDisk(s, (prefix, i), pages[i]) {
      assert DiskPages(s, prefix)[i] == pages[i];
    }
  }

  /** A read from a well-cut disk returns the records last stored if and only if the disk counts the pages rightly and
      no dirty page differs from its page on disk. */
  lemma WellCutReadIff(s: Store, limit: nat, stored: map<string, Records>, prefix: string, trie: Records)
    requires limit > 0 && StoreOk(s, limit, stored) && prefix in stored && FromDisk(s, prefix) && WellCut(s, limit, prefix)
    ensures ReadShard(s, prefix, trie) == Ok(stored[prefix]) <==> DiskIsCurrent(s, prefix)
  {
    if DiskIsCurrent(s, prefix) {
      CurrentDiskIsRead(s, limit, stored, prefix, trie);
    } else if Join(DiskPages(s, prefix)) == stored[prefix] {
      SamePagesAreCurrent(s, limit, stored, prefix);
    }
  }

  lemma SamePagesAreCurrent(s: Store, limit: nat, stored: map<string, Records>, prefix: string)
    requires limit > 0 && StoreOk(s, limit, stored) && prefix in stored && prefix in s.diskManifest && DiskComplete(s, prefix)
    requires DiskPages(s, prefix) == Pages(stored[prefix], limit)
    ensures DiskIsCurrent(s, prefix)
  {
    var pages := Pages(stored[prefix], limit);
    assert PrefixOk(s, limit, prefix, stored[prefix]);
    forall i: nat | i < s.manifest[prefix] && (prefix, i) in s.pages ensures OnDisk(s, (prefix, i), s.pages[(prefix, i)].records) {
      assert PageOk(s, (prefix, i), pages[i]);
      assert DiskPages(s, prefix)[i] == pages[i];
    }
  }
}
