/** The route cache under concurrency. Readers run `route_keyword` without a lock around the whole
    call; writers bump an epoch when they begin and again when they end. Every atomic action of
    either is one step of the machine below, and threads interleave freely. */
module RouteCache {
  import opened Wrappers
  import opened Hex
  import opened Ring
  import opened Routing

  datatype CachedRoute = CachedRoute(route: RouteTarget, epoch: nat)

  datatype Shared = Shared(
    epoch: nat, cache: map<Keyword, CachedRoute>, overrides: map<Keyword, RouteTarget>, ring: RingState)

  /** Where a call of `route_keyword` stands between two of its atomic actions. */
  datatype Reader =
    | Start(keyword: Keyword)
    | Loaded(keyword: Keyword, epoch: nat)
    | CacheHit(keyword: Keyword, epoch: nat, route: RouteTarget)
    | CacheMiss(keyword: Keyword, epoch: nat)
    | NoOverride(keyword: Keyword, epoch: nat)
    | Computed(keyword: Keyword, epoch: nat, route: RouteTarget)
    | Storing(keyword: Keyword, epoch: nat, route: RouteTarget)
    | Stored(keyword: Keyword, epoch: nat, route: RouteTarget)
    | Returned(keyword: Keyword, result: Option<RouteTarget>)

  /** One atomic action of a writer, each under the lock of the one structure it changes. */
  datatype Action =
    | PutOverride(keyword: Keyword, route: RouteTarget)
    | DropOverride(keyword: Keyword)
    | DropOverridesUnder(prefix: string)
    | DropAllOverrides
    | ChangeRing(op: RingOp)
    | ReplaceRing(ring: RingState)
    | ClearCache
    | ClearCacheUnder(prefix: string)

  /** The guarded calls of the router. */
  datatype Mutation =
    | RecordInsert(keyword: Keyword, route: RouteTarget, summary: seq<Byte>)
    | RecordInsertWithoutSplit(keyword: Keyword, route: RouteTarget, summary: seq<Byte>)
    | RecordDelete(keyword: Keyword, prefix: string, summary: seq<Byte>)
    | PresplitEmptyPrefixes(counts: seq<(string, nat)>)
    | ClearOverridesForPrefix(prefix: string)
    | Reset(initial: RingState)
  {
    ghost predicate WellFormed() {
      Reset? ==> exists len: nat, threshold: nat :: IsFresh(len, threshold)
    }

    predicate IsFresh(len: nat, threshold: nat)
      requires Reset?
    {
      initial.nodeNames != [] && len <= MAX_PREFIX_LEN && initial == RingState.Initial(initial.nodeNames, len, threshold)
    }

    function Program(): seq<Action> {
      match this
      case RecordInsert(keyword, route, summary) =>
        [PutOverride(keyword, route), ChangeRing(Insert(route.prefix, summary)), ClearCache]
      case RecordInsertWithoutSplit(keyword, route, summary) =>
        [PutOverride(keyword, route), ChangeRing(InsertWithoutSplit(route.prefix, summary)), ClearCache]
      case RecordDelete(keyword, prefix, summary) =>
        [DropOverride(keyword), ChangeRing(Delete(prefix, summary)), ClearCache]
      case PresplitEmptyPrefixes(counts) =>
        seq(|counts|, i requires 0 <= i < |counts| => ChangeRing(Presplit(counts[i].0, counts[i].1))) + [ClearCache]
      case ClearOverridesForPrefix(prefix) =>
        [DropOverridesUnder(prefix), ClearCacheUnder(prefix)]
      case Reset(initial) =>
        [ReplaceRing(initial), DropAllOverrides, ClearCache]
    }
  }

  datatype System = System(shared: Shared, readers: map<nat, Reader>, guards: map<nat, seq<Action>>)

  // ----- the uncached lookup

  /** What an uncached `route_keyword` computes when nothing changes under it. */
  ghost function Lookup(s: Shared, keyword: Keyword): Option<RouteTarget>
    requires s.ring.Valid()
  {
    if keyword in s.overrides then Some(s.overrides[keyword]) else RingLookup(s.ring, keyword)
  }

  // ----- steps

  /** One atomic action of a call of `route_keyword` that has not returned. */
  ghost function ReaderAction(s: Shared, r: Reader): (Shared, Reader)
    requires s.ring.Valid() && !r.Returned?
  {
    match r
    case Start(k) => (s, if s.epoch % 2 == 1 then Start(k) else Loaded(k, s.epoch))
    case Loaded(k, e) =>
      (s, if k in s.cache && s.cache[k].epoch == e then CacheHit(k, e, s.cache[k].route) else CacheMiss(k, e))
    case CacheHit(k, e, route) => (s, if s.epoch == e then Returned(k, Some(route)) else Start(k))
    case CacheMiss(k, e) => (s, if k in s.overrides then Computed(k, e, s.overrides[k]) else NoOverride(k, e))
    case NoOverride(k, e) =>
      (s, match RingLookup(s.ring, k) case None => Returned(k, None) case Some(route) => Computed(k, e, route))
    case Computed(k, e, route) => (s, if s.epoch == e then Storing(k, e, route) else Start(k))
    case Storing(k, e, route) => (s.(cache := s.cache[k := CachedRoute(route, e)]), Stored(k, e, route))
    case Stored(k, e, route) => (s, if s.epoch == e then Returned(k, Some(route)) else Start(k))
  }

  ghost predicate ReaderStep(s: Shared, r: Reader, s': Shared, r': Reader)
    requires s.ring.Valid()
  {
    !r.Returned? && (s', r') == ReaderAction(s, r)
  }

  function Perform(s: Shared, action: Action): Shared {
    match action
    case PutOverride(k, route) => s.(overrides := s.overrides[k := route])
    case DropOverride(k) => s.(overrides := s.overrides - {k})
    case DropOverridesUnder(prefix) =>
      s.(overrides := map k | k in s.overrides && !KeywordMatchesPrefix(k, prefix) :: s.overrides[k])
    case DropAllOverrides => s.(overrides := map[])
    case ChangeRing(op) => s.(ring := s.ring.Apply(op).0)
    case ReplaceRing(ring) => s.(ring := ring)
    case ClearCache => s.(cache := map[])
    case ClearCacheUnder(prefix) =>
      s.(cache := map k | k in s.cache && !KeywordMatchesPrefix(k, prefix) :: s.cache[k])
  }

  datatype Step =
    | Call(reader: nat, keyword: Keyword)
    | Read(reader: nat)
    | Begin(guard: nat, mutation: Mutation)
    | Act(guard: nat)
    | End(guard: nat)
    | UpdateSummary(prefix: string, summary: seq<Byte>)  // takes the ring's lock but no guard

  ghost predicate Next(c: System, step: Step, c': System)
    requires c.shared.ring.Valid()
  {
    match step
    case Call(t, keyword) =>
      (t !in c.readers || c.readers[t].Returned?) && c' == c.(readers := c.readers[t := Start(keyword)])
    case Read(t) =>
      && t in c.readers && t in c'.readers
      && ReaderStep(c.shared, c.readers[t], c'.shared, c'.readers[t])
      && c'.readers == c.readers[t := c'.readers[t]] && c'.guards == c.guards
    case Begin(t, mutation) =>
      && t !in c.guards && mutation.WellFormed()
      && c' == c.(shared := c.shared.(epoch := c.shared.epoch + 1), guards := c.guards[t := mutation.Program()])
    case Act(t) =>
      && t in c.guards && c.guards[t] != []
      && c' == c.(shared := Perform(c.shared, c.guards[t][0]), guards := c.guards[t := c.guards[t][1..]])
    case End(t) =>
      && t in c.guards && c.guards[t] == []
      && c' == c.(shared := c.shared.(epoch := c.shared.epoch + 1), guards := c.guards - {t})
    case UpdateSummary(prefix, summary) =>
      c' == c.(shared := c.shared.(ring := c.shared.ring.Apply(SetRootSummary(prefix, summary)).0))
  }

  ghost predicate Init(c: System) {
    && c.shared.ring.Valid()
    && c.shared.epoch == 0 && c.shared.cache == map[] && c.readers == map[] && c.guards == map[]
  }

  /** `trace` is a run: it starts in an initial state and takes one step between neighbours. */
  ghost predicate IsRun(trace: seq<System>, steps: seq<Step>) {
    && |trace| == |steps| + 1 && Init(trace[0])
    && forall i :: 0 <= i < |steps| ==> trace[i].shared.ring.Valid() && Next(trace[i], steps[i], trace[i + 1])
  }

  // ----- the invariant

  /** What a reader holds is right as long as its epoch is still the current one. */
  ghost predicate ReaderFresh(s: Shared, r: Reader)
    requires s.ring.Valid()
  {
    match r
    case NoOverride(k, e) => e == s.epoch ==> k !in s.overrides
    case CacheHit(k, e, route) => e == s.epoch ==> Lookup(s, k) == Some(route)
    case Computed(k, e, route) => e == s.epoch ==> Lookup(s, k) == Some(route)
    case Storing(k, e, route) => e == s.epoch ==> Lookup(s, k) == Some(route)
    case Stored(k, e, route) => e == s.epoch ==> Lookup(s, k) == Some(route)
    case _ => true
  }

  ghost predicate ReaderEpochOk(s: Shared, r: Reader) {
    r.Start? || r.Returned? || (r.epoch <= s.epoch && r.epoch % 2 == 0)
  }

  /** The cache agrees with the uncached lookup on every entry of the current epoch. */
  ghost predicate Coherent(s: Shared)
    requires s.ring.Valid()
  {
    forall k :: k in s.cache && s.cache[k].epoch == s.epoch ==> Lookup(s, k) == Some(s.cache[k].route)
  }

  ghost predicate ActionOk(a: Action) {
    a.ReplaceRing? ==> a.ring.Valid()
  }

  ghost predicate ProgramOk(program: seq<Action>) {
    forall i :: 0 <= i < |program| ==> ActionOk(program[i])
  }

  ghost predicate Inv(c: System) {
    && c.shared.ring.Valid()
    && c.shared.epoch % 2 == |c.guards| % 2
    && (forall k :: k in c.shared.cache ==> c.shared.cache[k].epoch <= c.shared.epoch)
    && (forall t :: t in c.readers ==> ReaderEpochOk(c.shared, c.readers[t]))
    && (forall t :: t in c.guards ==> ProgramOk(c.guards[t]))
    && (c.guards == map[] ==>
          Coherent(c.shared) && forall t :: t in c.readers ==> ReaderFresh(c.shared, c.readers[t]))
  }

  lemma RingStaysValid(ring: RingState, op: RingOp)
    requires ring.Valid()
    ensures ring.Apply(op).0.Valid()
  {
    if ring.Forest() {
      ring.ApplyKeepsForest(op);
    }
  }

  /** A summary update changes no route, which is why it needs no guard. */
  lemma SummaryUpdateKeepsRoutes(s: Shared, prefix: string, summary: seq<Byte>, keyword: Keyword)
    requires s.ring.Valid()
    ensures
      var s' := s.(ring := s.ring.Apply(SetRootSummary(prefix, summary)).0);
      s'.ring.Valid() && Lookup(s', keyword) == Lookup(s, keyword)
  {
    RingStaysValid(s.ring, SetRootSummary(prefix, summary));
    var ring' := s.ring.Apply(SetRootSummary(prefix, summary)).0;
    if s.ring.Forest() {
      s.ring.UpdateSummaryKeepsShape(prefix, summary);
      s.ring.SameShapeKeepsRoutes(ring', keyword.Key());
      s.ring.RouteIsUnique(keyword.Key(), s.ring.LeafOf(keyword.Key()));
    }
  }

  lemma MutationProgramsAreOk(mutation: Mutation)
    requires mutation.WellFormed()
    ensures ProgramOk(mutation.Program())
  {
    if mutation.Reset? {
      var len: nat, threshold: nat :| mutation.IsFresh(len, threshold);
      RingState.InitialIsForest(mutation.initial.nodeNames, len, threshold);
    }
  }

  lemma ReadKeepsInv(c: System, t: nat, c': System)
    requires Inv(c) && Next(c, Read(t), c')
    ensures Inv(c')
  {
    var r, r' := c.readers[t], c'.readers[t];
    assert ReaderEpochOk(c'.shared, r');
    if c'.guards == map[] {
      assert ReaderFresh(c.shared, r);
      assert ReaderFresh(c'.shared, r');
      forall u | u in c'.readers ensures ReaderFresh(c'.shared, c'.readers[u]) {
        assert u != t ==> ReaderFresh(c.shared, c.readers[u]);
      }
    }
  }

  lemma GuardCount(guards: map<nat, seq<Action>>, t: nat, program: seq<Action>)
    requires t !in guards
    ensures |guards[t := program]| == |guards| + 1 && guards[t := program] != map[]
  {
    assert guards[t := program].Keys == guards.Keys + {t};
    assert t in guards[t := program];
  }

  lemma ReadersOutliveEpoch(c: System, s': Shared)
    requires forall t :: t in c.readers ==> ReaderEpochOk(c.shared, c.readers[t])
    requires s'.epoch >= c.shared.epoch
    ensures forall t :: t in c.readers ==> ReaderEpochOk(s', c.readers[t])
  {}

  lemma BeginKeepsInv(c: System, t: nat, mutation: Mutation, c': System)
    requires Inv(c) && Next(c, Begin(t, mutation), c')
    ensures Inv(c')
  {
    var program := c'.guards[t];
    MutationProgramsAreOk(mutation);
    GuardCount(c.guards, t, program);
    ReadersOutliveEpoch(c, c'.shared);
    assert c'.guards == c.guards[t := program];
  }

  lemma ActKeepsInv(c: System, t: nat, c': System)
    requires Inv(c) && Next(c, Act(t), c')
    ensures Inv(c')
  {
    assert c'.guards.Keys == c.guards.Keys;
    assert t in c'.guards;
    assert ActionOk(c.guards[t][0]);
    if c.guards[t][0].ChangeRing? {
      RingStaysValid(c.shared.ring, c.guards[t][0].op);
    }
  }

  lemma GuardCountDown(guards: map<nat, seq<Action>>, t: nat)
    requires t in guards
    ensures |guards - {t}| == |guards| - 1
  {
    assert (guards - {t}).Keys == guards.Keys - {t};
  }

  /** A new epoch leaves nothing to be right about: whatever is cached or held carries an older one. */
  lemma OldEpochIsFresh(s: Shared, s': Shared, r: Reader)
    requires s'.ring.Valid() && s'.epoch > s.epoch && ReaderEpochOk(s, r)
    ensures ReaderFresh(s', r)
  {}

  lemma OldEpochIsCoherent(s: Shared, s': Shared)
    requires s'.ring.Valid() && s'.epoch > s.epoch && s'.cache == s.cache
    requires forall k :: k in s.cache ==> s.cache[k].epoch <= s.epoch
    ensures Coherent(s')
  {}

  lemma EndKeepsInv(c: System, t: nat, c': System)
    requires Inv(c) && Next(c, End(t), c')
    ensures Inv(c')
  {
    GuardCountDown(c.guards, t);
    ReadersOutliveEpoch(c, c'.shared);
    OldEpochIsCoherent(c.shared, c'.shared);
    forall u | u in c'.readers ensures ReaderFresh(c'.shared, c'.readers[u]) {
      OldEpochIsFresh(c.shared, c'.shared, c.readers[u]);
    }
  }

  lemma UpdateSummaryKeepsInv(c: System, prefix: string, summary: seq<Byte>, c': System)
    requires Inv(c) && Next(c, UpdateSummary(prefix, summary), c')
    ensures Inv(c')
  {
    RingStaysValid(c.shared.ring, SetRootSummary(prefix, summary));
    forall k: Keyword ensures Lookup(c'.shared, k) == Lookup(c.shared, k) {
      SummaryUpdateKeepsRoutes(c.shared, prefix, summary, k);
    }
    if c'.guards == map[] {
      forall u | u in c'.readers ensures ReaderFresh(c'.shared, c'.readers[u]) {
        assert ReaderFresh(c.shared, c.readers[u]);
      }
    }
  }

  lemma NextKeepsInv(c: System, step: Step, c': System)
    requires Inv(c) && Next(c, step, c')
    ensures Inv(c')
  {
    match step
    case Call(_, _) =>
    case Read(t) => ReadKeepsInv(c, t, c');
    case Begin(t, mutation) => BeginKeepsInv(c, t, mutation, c');
    case Act(t) => ActKeepsInv(c, t, c');
    case End(t) => EndKeepsInv(c, t, c');
    case UpdateSummary(prefix, summary) => UpdateSummaryKeepsInv(c, prefix, summary, c');
  }

  lemma {:induction false} RunKeepsInv(trace: seq<System>, steps: seq<Step>, n: nat)
    requires IsRun(trace, steps) && n <= |steps|
    ensures Inv(trace[n])
  {
    if n > 0 {
      RunKeepsInv(trace, steps, n - 1);
      NextKeepsInv(trace[n - 1], steps[n - 1], trace[n]);
    }
  }

  // ----- main results

  /** In every reachable state without a live guard, however the guards before overlapped, each cached
      route tagged with the current epoch is the one an uncached lookup finds. */
  lemma CacheIsCoherent(trace: seq<System>, steps: seq<Step>, n: nat, keyword: Keyword)
    requires IsRun(trace, steps) && n <= |steps|
    requires trace[n].guards == map[]
    requires keyword in trace[n].shared.cache
    requires trace[n].shared.cache[keyword].epoch == trace[n].shared.epoch
    ensures trace[n].shared.ring.Valid()
    ensures Lookup(trace[n].shared, keyword) == Some(trace[n].shared.cache[keyword].route)
  {
    RunKeepsInv(trace, steps, n);
  }

  /** The step at which a call returns. */
  ghost predicate Returns(c: System, step: Step, c': System, keyword: Keyword, result: Option<RouteTarget>) {
    && step.Read? && step.reader in c.readers && step.reader in c'.readers
    && c'.readers[step.reader] == Returned(keyword, result)
  }

  /** If guards never overlap, every route a call returns is the uncached one at its final epoch check. */
  lemma ReturnedRouteIsCurrent(trace: seq<System>, steps: seq<Step>, n: nat, keyword: Keyword, route: RouteTarget)
    requires IsRun(trace, steps) && n < |steps|
    requires |trace[n].guards| <= 1
    requires Returns(trace[n], steps[n], trace[n + 1], keyword, Some(route))
    ensures trace[n].shared.ring.Valid() && Lookup(trace[n].shared, keyword) == Some(route)
  {
    RunKeepsInv(trace, steps, n);
    var c := trace[n];
    var r := c.readers[steps[n].reader];
    assert ReaderEpochOk(c.shared, r);
    assert |c.guards| == 0;
    assert c.guards == map[];
    assert ReaderFresh(c.shared, r);
  }

  /** At step `m` the reader looked for an override and found none, and it has not moved since. */
  ghost predicate FoundNoOverride(trace: seq<System>, steps: seq<Step>, m: nat, n: nat, t: nat, keyword: Keyword) {
    && m < n < |trace| && |steps| >= n && steps[m] == Read(t) && t in trace[m].readers
    && trace[m].readers[t].CacheMiss? && trace[m].readers[t].keyword == keyword && keyword !in trace[m].shared.overrides
    && forall j :: m < j <= n ==> t in trace[j].readers && trace[j].readers[t].NoOverride?
  }

  lemma {:induction false} NoOverrideWasSeen(trace: seq<System>, steps: seq<Step>, n: nat, t: nat) returns (m: nat)
    requires IsRun(trace, steps) && n <= |steps| && t in trace[n].readers && trace[n].readers[t].NoOverride?
    ensures FoundNoOverride(trace, steps, m, n, t, trace[n].readers[t].keyword)
  {
    assert n > 0 && Next(trace[n - 1], steps[n - 1], trace[n]);
    if steps[n - 1] == Read(t) {
      m := n - 1;
    } else {
      assert t in trace[n - 1].readers && trace[n - 1].readers[t] == trace[n].readers[t];
      m := NoOverrideWasSeen(trace, steps, n - 1, t);
    }
  }

  /** A call returns nothing only if it found no override and then no route in the ring; with guards that never overlap
      nothing is what the uncached lookup finds, unless a writer has come in between. */
  lemma NothingIsReturnedOnlyWithoutRoute(trace: seq<System>, steps: seq<Step>, n: nat, keyword: Keyword) returns (m: nat)
    requires IsRun(trace, steps) && n < |steps| && Returns(trace[n], steps[n], trace[n + 1], keyword, None)
    ensures FoundNoOverride(trace, steps, m, n, steps[n].reader, keyword)
    ensures RingLookup(trace[n].shared.ring, keyword) == None
    ensures
      var r := trace[n].readers[steps[n].reader];
      |trace[n].guards| <= 1 && r.epoch == trace[n].shared.epoch ==> Lookup(trace[n].shared, keyword) == None
  {
    RunKeepsInv(trace, steps, n);
    var c := trace[n];
    var r := c.readers[steps[n].reader];
    assert ReaderEpochOk(c.shared, r);
    m := NoOverrideWasSeen(trace, steps, n, steps[n].reader);
    if |c.guards| <= 1 && r.epoch == c.shared.epoch {
      assert |c.guards| == 0;
      assert c.guards == map[];
      assert ReaderFresh(c.shared, r);
    }
  }

  // ----- a call on its own

  /** Only reader `t` takes steps. */
  ghost predicate Alone(trace: seq<System>, t: nat) {
    trace != [] && forall i :: 0 <= i < |trace| - 1 ==> trace[i].shared.ring.Valid() && Next(trace[i], Read(t), trace[i + 1])
  }

  /** How far a call has come after `n` steps with no writer at work. */
  ghost predicate OnItsWay(s: Shared, r: Reader, keyword: Keyword, n: nat)
    requires s.ring.Valid()
  {
    && r.keyword == keyword && (r.Start? || r.Returned? || r.epoch == s.epoch)
    && match r
       case Start(_) => n == 0
       case Loaded(_, _) => n == 1
       case CacheHit(_, _, route) => n == 2 && IsCached(s, keyword, route)
       case CacheMiss(_, _) => n == 2
       case NoOverride(_, _) => n == 3
       case Computed(_, _, _) => 3 <= n <= 4
       case Storing(_, _, _) => 4 <= n <= 5
       case Stored(_, _, route) => 5 <= n <= 6 && IsCached(s, keyword, route)
       case Returned(_, result) =>
         n <= 7 && result == Lookup(s, keyword) && (result.Some? ==> IsCached(s, keyword, result.value))
  }

  /** The cache has this route for the keyword, and it is of the current epoch. */
  predicate IsCached(s: Shared, keyword: Keyword, route: RouteTarget) {
    keyword in s.cache && s.cache[keyword] == CachedRoute(route, s.epoch)
  }

  /** Nobody writes, and the call is on its way to what the lookup found when it began. */
  ghost predicate Undisturbed(c: System, t: nat, keyword: Keyword, n: nat, goal: Option<RouteTarget>) {
    && Inv(c) && c.guards == map[] && t in c.readers
    && OnItsWay(c.shared, c.readers[t], keyword, n) && Lookup(c.shared, keyword) == goal
  }

  lemma AloneStep(c: System, t: nat, c': System, keyword: Keyword, n: nat, goal: Option<RouteTarget>)
    requires Undisturbed(c, t, keyword, n, goal) && Next(c, Read(t), c')
    ensures Undisturbed(c', t, keyword, n + 1, goal)
  {
    ReadKeepsInv(c, t, c');
    assert ReaderFresh(c.shared, c.readers[t]);
  }

  lemma {:induction false} AloneIsOnItsWay(trace: seq<System>, t: nat, keyword: Keyword, n: nat, goal: Option<RouteTarget>)
    requires Alone(trace, t) && n < |trace| && Undisturbed(trace[0], t, keyword, 0, goal)
    ensures Undisturbed(trace[n], t, keyword, n, goal)
  {
    if n > 0 {
      AloneIsOnItsWay(trace, t, keyword, n - 1, goal);
      AloneStep(trace[n - 1], t, trace[n], keyword, n - 1, goal);
    }
  }

  lemma OneMoreAlone(trace: seq<System>, t: nat) returns (longer: seq<System>)
    requires Alone(trace, t) && trace[|trace| - 1].shared.ring.Valid()
    requires t in trace[|trace| - 1].readers && !trace[|trace| - 1].readers[t].Returned?
    ensures Alone(longer, t) && |longer| == |trace| + 1 && longer[0] == trace[0]
  {
    var c := trace[|trace| - 1];
    var (s', r') := ReaderAction(c.shared, c.readers[t]);
    var c' := c.(shared := s', readers := c.readers[t := r']);
    assert Next(c, Read(t), c');
    longer := trace + [c'];
  }

  lemma {:induction false} AloneGoesOn(trace: seq<System>, t: nat, keyword: Keyword, goal: Option<RouteTarget>)
    returns (whole: seq<System>)
    requires Alone(trace, t) && |trace| <= 8 && Undisturbed(trace[0], t, keyword, 0, goal)
    ensures Alone(whole, t) && |whole| <= 8 && whole[0] == trace[0] && t in whole[|whole| - 1].readers
    ensures whole[|whole| - 1].readers[t] == Returned(keyword, goal)
    ensures goal.Some? ==> IsCached(whole[|whole| - 1].shared, keyword, goal.value)
    decreases 8 - |trace|
  {
    AloneIsOnItsWay(trace, t, keyword, |trace| - 1, goal);
    if trace[|trace| - 1].readers[t].Returned? {
      whole := trace;
    } else {
      var longer := OneMoreAlone(trace, t);
      whole := AloneGoesOn(longer, t, keyword, goal);
    }
  }

  /** With no writer at work a call that is left alone returns within seven steps, returns what the uncached lookup
      finds, and leaves it in the cache. */
  lemma CallAloneReturnsLookup(c: System, t: nat, keyword: Keyword) returns (trace: seq<System>)
    requires Inv(c) && c.guards == map[] && t in c.readers && c.readers[t] == Start(keyword)
    ensures Alone(trace, t) && |trace| <= 8 && trace[0] == c && t in trace[|trace| - 1].readers
    ensures trace[|trace| - 1].readers[t] == Returned(keyword, Lookup(c.shared, keyword))
    ensures Lookup(c.shared, keyword).Some? ==> IsCached(trace[|trace| - 1].shared, keyword, Lookup(c.shared, keyword).value)
  {
    trace := AloneGoesOn([c], t, keyword, Lookup(c.shared, keyword));
  }

  /** A call for a keyword whose route is cached returns it after three steps if it is left alone. */
  lemma CachedCallIsShort(trace: seq<System>, t: nat, keyword: Keyword, route: RouteTarget)
    requires Alone(trace, t) && |trace| == 4 && Inv(trace[0]) && trace[0].guards == map[]
    requires t in trace[0].readers && trace[0].readers[t] == Start(keyword) && IsCached(trace[0].shared, keyword, route)
    ensures t in trace[3].readers && trace[3].readers[t] == Returned(keyword, Some(route))
    ensures Lookup(trace[0].shared, keyword) == Some(route)
  {
    assert Next(trace[0], Read(t), trace[1]) && Next(trace[1], Read(t), trace[2]) && Next(trace[2], Read(t), trace[3]);
  }

  // ----- what the guarded calls do

  function PerformAll(s: Shared, program: seq<Action>): Shared
    decreases |program|
  {
    if program == [] then s else PerformAll(Perform(s, program[0]), program[1..])
  }

  function ApplyAll(ring: RingState, ops: seq<RingOp>): RingState
    decreases |ops|
  {
    if ops == [] then ring else ApplyAll(ring.Apply(ops[0]).0, ops[1..])
  }

  function Presplits(counts: seq<(string, nat)>): seq<RingOp> {
    seq(|counts|, i requires 0 <= i < |counts| => Presplit(counts[i].0, counts[i].1))
  }

  /** The routes a whole call leaves, and the ring. */
  ghost predicate Leaves(s: Shared, s': Shared, mutation: Mutation, k: Keyword)
    requires s.ring.Valid() && s'.ring.Valid()
  {
    match mutation
    case RecordInsert(keyword, route, summary) =>
      s'.ring == s.ring.Apply(Insert(route.prefix, summary)).0 && (k == keyword ==> Lookup(s', k) == Some(route))
    case RecordInsertWithoutSplit(keyword, route, summary) =>
      s'.ring == s.ring.Apply(InsertWithoutSplit(route.prefix, summary)).0 && (k == keyword ==> Lookup(s', k) == Some(route))
    case RecordDelete(keyword, prefix, summary) =>
      s'.ring == s.ring.Apply(Delete(prefix, summary)).0 && (k == keyword ==> Lookup(s', k) == RingLookup(s'.ring, k))
    case PresplitEmptyPrefixes(counts) => s'.ring == ApplyAll(s.ring, Presplits(counts))
    case ClearOverridesForPrefix(prefix) =>
      s'.ring == s.ring && (KeywordMatchesPrefix(k, prefix) ==> Lookup(s', k) == RingLookup(s.ring, k))
    case Reset(initial) => s'.ring == initial && Lookup(s', k) == RingLookup(initial, k)
  }

  /** A keyword the call is not about keeps its override. */
  ghost predicate KeepsOverride(s: Shared, s': Shared, mutation: Mutation, k: Keyword) {
    match mutation
    case RecordInsert(keyword, _, _) => k != keyword ==> SameOverride(s, s', k)
    case RecordInsertWithoutSplit(keyword, _, _) => k != keyword ==> SameOverride(s, s', k)
    case RecordDelete(keyword, _, _) => k != keyword ==> SameOverride(s, s', k)
    case PresplitEmptyPrefixes(_) => SameOverride(s, s', k)
    case ClearOverridesForPrefix(prefix) => !KeywordMatchesPrefix(k, prefix) ==> SameOverride(s, s', k)
    case Reset(_) => true
  }

  predicate SameOverride(s: Shared, s': Shared, k: Keyword) {
    (k in s'.overrides <==> k in s.overrides) && (k in s.overrides ==> s'.overrides[k] == s.overrides[k])
  }

  lemma {:induction false} PresplitProgram(s: Shared, counts: seq<(string, nat)>)
    requires s.ring.Valid()
    ensures ApplyAll(s.ring, Presplits(counts)).Valid()
    ensures PerformAll(s, PresplitEmptyPrefixes(counts).Program())
      == s.(ring := ApplyAll(s.ring, Presplits(counts)), cache := map[])
    decreases |counts|
  {
    var program := PresplitEmptyPrefixes(counts).Program();
    if counts == [] {
      assert program == [ClearCache];
      assert PerformAll(s, [ClearCache]) == PerformAll(Perform(s, ClearCache), []);
    } else {
      var op := Presplit(counts[0].0, counts[0].1);
      RingStaysValid(s.ring, op);
      assert program[0] == ChangeRing(op) && program[1..] == PresplitEmptyPrefixes(counts[1..]).Program();
      assert Presplits(counts)[1..] == Presplits(counts[1..]);
      PresplitProgram(s.(ring := s.ring.Apply(op).0), counts[1..]);
    }
  }

  lemma TwoActions(s: Shared, a: Action, b: Action)
    ensures PerformAll(s, [a, b]) == Perform(Perform(s, a), b)
  {
    assert [a, b][1..] == [b];
    assert PerformAll(Perform(s, a), [b]) == PerformAll(Perform(Perform(s, a), b), []);
  }

  lemma ThreeActions(s: Shared, a: Action, b: Action, c: Action)
    ensures PerformAll(s, [a, b, c]) == Perform(Perform(Perform(s, a), b), c)
  {
    assert [a, b, c][1..] == [b, c];
    TwoActions(Perform(s, a), b, c);
  }

  lemma ProgramIs(s: Shared, mutation: Mutation)
    requires s.ring.Valid()
    ensures
      var s', program := PerformAll(s, mutation.Program()), mutation.Program();
      match mutation
      case PresplitEmptyPrefixes(counts) => s' == s.(ring := ApplyAll(s.ring, Presplits(counts)), cache := map[])
      case ClearOverridesForPrefix(_) => s' == Perform(Perform(s, program[0]), program[1])
      case _ => s' == Perform(Perform(Perform(s, program[0]), program[1]), program[2])
  {
    var program := mutation.Program();
    match mutation
    case PresplitEmptyPrefixes(counts) => PresplitProgram(s, counts);
    case ClearOverridesForPrefix(_) => TwoActions(s, program[0], program[1]);
    case _ => ThreeActions(s, program[0], program[1], program[2]);
  }

  lemma ProgramKeepsRingValid(s: Shared, mutation: Mutation)
    requires s.ring.Valid() && mutation.WellFormed()
    ensures PerformAll(s, mutation.Program()).ring.Valid()
  {
    ProgramIs(s, mutation);
    match mutation
    case PresplitEmptyPrefixes(counts) => PresplitProgram(s, counts);
    case ClearOverridesForPrefix(_) =>
    case Reset(_) => assert ProgramOk(mutation.Program()) && ActionOk(mutation.Program()[0]) by { MutationProgramsAreOk(mutation); }
    case _ => RingStaysValid(s.ring, mutation.Program()[1].op);
  }

  /** What a guarded call does from beginning to end: which routes and which ring it leaves, which overrides it keeps, and
      that a route it leaves in the cache is one it has not changed. */
  lemma MutationEffect(s: Shared, mutation: Mutation, k: Keyword)
    requires s.ring.Valid() && mutation.WellFormed()
    ensures
      var s' := PerformAll(s, mutation.Program());
      && s'.epoch == s.epoch && s'.ring.Valid() && Leaves(s, s', mutation, k) && KeepsOverride(s, s', mutation, k)
      && (k in s'.cache ==> k in s.cache && s'.cache[k] == s.cache[k] && Lookup(s', k) == Lookup(s, k))
  {
    ProgramIs(s, mutation);
    ProgramKeepsRingValid(s, mutation);
  }

  // ----- what overlapping guards allow

  /** The run of `OverlappingGuardsCanReturnStaleRoute`, state by state. */
  ghost function StaleTrace(ring: RingState, keyword: Keyword, route: RouteTarget): seq<System> {
    var s0 := Shared(0, map[], map[], ring);
    var s2 := s0.(epoch := 2);
    var s3 := s2.(cache := map[keyword := CachedRoute(route, 2)]);
    var s4 := s3.(overrides := map[keyword := route.(node := route.node + 1)]);
    var insert, delete := StaleInsert(keyword, route).Program(), StaleDelete(keyword, route).Program();
    var g1, g2, g3 := map[0 := insert], map[0 := insert, 1 := delete], map[0 := insert[1..], 1 := delete];
    [ System(s0, map[], map[]),
      System(s0, map[0 := Start(keyword)], map[]),
      System(s0.(epoch := 1), map[0 := Start(keyword)], g1),
      System(s2, map[0 := Start(keyword)], g2),
      System(s2, map[0 := Loaded(keyword, 2)], g2),
      System(s2, map[0 := CacheMiss(keyword, 2)], g2),
      System(s2, map[0 := NoOverride(keyword, 2)], g2),
      System(s2, map[0 := Computed(keyword, 2, route)], g2),
      System(s2, map[0 := Storing(keyword, 2, route)], g2),
      System(s3, map[0 := Stored(keyword, 2, route)], g2),
      System(s4, map[0 := Stored(keyword, 2, route)], g3),
      System(s4, map[0 := Returned(keyword, Some(route))], g3) ]
  }

  ghost function StaleInsert(keyword: Keyword, route: RouteTarget): Mutation {
    RecordInsert(keyword, route.(node := route.node + 1), [])
  }

  ghost function StaleDelete(keyword: Keyword, route: RouteTarget): Mutation {
    RecordDelete(keyword, route.prefix, [])
  }

  ghost function StaleSteps(keyword: Keyword, route: RouteTarget): seq<Step> {
    [ Call(0, keyword), Begin(0, StaleInsert(keyword, route)), Begin(1, StaleDelete(keyword, route)),
      Read(0), Read(0), Read(0), Read(0), Read(0), Read(0), Act(0), Read(0) ]
  }

  lemma StaleWriterStep(ring: RingState, keyword: Keyword, route: RouteTarget, i: nat)
    requires ring.Valid() && i in {0, 1, 2, 9}
    ensures
      var trace := StaleTrace(ring, keyword, route);
      trace[i].shared.ring.Valid() && Next(trace[i], StaleSteps(keyword, route)[i], trace[i + 1])
  {}

  lemma StaleReaderStep(ring: RingState, keyword: Keyword, route: RouteTarget, i: nat)
    requires ring.Valid() && RingLookup(ring, keyword) == Some(route)
    requires 3 <= i <= 6
    ensures
      var trace := StaleTrace(ring, keyword, route);
      trace[i].shared.ring.Valid() && Next(trace[i], StaleSteps(keyword, route)[i], trace[i + 1])
  {}

  lemma StaleReaderLaterStep(ring: RingState, keyword: Keyword, route: RouteTarget, i: nat)
    requires ring.Valid() && RingLookup(ring, keyword) == Some(route)
    requires i in {7, 8, 10}
    ensures
      var trace := StaleTrace(ring, keyword, route);
      trace[i].shared.ring.Valid() && Next(trace[i], StaleSteps(keyword, route)[i], trace[i + 1])
  {}

  lemma StaleTraceIsRun(ring: RingState, keyword: Keyword, route: RouteTarget)
    requires ring.Valid() && RingLookup(ring, keyword) == Some(route)
    ensures IsRun(StaleTrace(ring, keyword, route), StaleSteps(keyword, route))
  {
    var trace, steps := StaleTrace(ring, keyword, route), StaleSteps(keyword, route);
    forall i | 0 <= i < |steps| ensures trace[i].shared.ring.Valid() && Next(trace[i], steps[i], trace[i + 1]) {
      if i in {0, 1, 2, 9} {
        StaleWriterStep(ring, keyword, route, i);
      } else if i <= 6 {
        StaleReaderStep(ring, keyword, route, i);
      } else {
        StaleReaderLaterStep(ring, keyword, route, i);
      }
    }
  }

  lemma StaleTraceEnding(ring: RingState, keyword: Keyword, route: RouteTarget)
    requires ring.Valid() && RingLookup(ring, keyword) == Some(route)
    ensures
      var trace, steps := StaleTrace(ring, keyword, route), StaleSteps(keyword, route);
      && trace[0].shared.ring == ring && trace[10].shared.ring == ring && |trace[10].guards| == 2
      && Returns(trace[10], steps[10], trace[11], keyword, Some(route))
      && Lookup(trace[10].shared, keyword) != Some(route)
  {
    assert StaleTrace(ring, keyword, route)[10].guards.Keys == {0, 1};
  }

  /** A call returned a route that was not the uncached one at its final epoch check. */
  ghost predicate ReturnsStaleRoute(trace: seq<System>, steps: seq<Step>, n: nat, keyword: Keyword, route: RouteTarget) {
    && n < |steps| < |trace| && trace[n].shared.ring.Valid()
    && Returns(trace[n], steps[n], trace[n + 1], keyword, Some(route))
    && Lookup(trace[n].shared, keyword) != Some(route)
  }

  /** With two guards live the returned route may already be stale: between the two increments of the
      epoch a reader sees an even number and cannot tell that a writer is at work. */
  lemma OverlappingGuardsCanReturnStaleRoute(ring: RingState, keyword: Keyword)
    requires ring.Forest()
    ensures exists trace: seq<System>, steps: seq<Step>, n: nat, route: RouteTarget ::
      && IsRun(trace, steps) && trace[0].shared.ring == ring
      && ReturnsStaleRoute(trace, steps, n, keyword, route) && |trace[n].guards| == 2
  {
    assert ring.EntryOk(0);
    var route := RingLookup(ring, keyword).value;
    StaleTraceIsRun(ring, keyword, route);
    StaleTraceEnding(ring, keyword, route);
    assert ReturnsStaleRoute(StaleTrace(ring, keyword, route), StaleSteps(keyword, route), 10, keyword, route);
  }
}
