/** What the cache of the data loader does over whole runs: batches fill it while it is on,
    later calls are answered from it, and the switches, feeds and clears act on it. */
module CacheRuns {
  import opened Wrappers
  import opened CacheStorage
  import opened BatchProtocol
  import opened BatchTheorems

  // ----- While the cache is on, every task fills it -----

  /** The cache is on, for the key type and for the loader, and every task was spawned while
      the loader was on. */
  ghost predicate AllOn<K, V, E>(s: State<K, V, E>) {
    && !s.disabled && !s.disabledAll
    && (forall i :: 0 <= i < |s.timers| ==> !s.timers[i])
    && (forall i :: 0 <= i < |s.inFlight| ==> !s.inFlight[i].uncached)
  }

  predicate SwitchesOff<K, V, E>(step: Step<K, V, E>) {
    step == EnableCache(false) || step == EnableAllCache(false)
  }

  lemma EnqueueStaysOn<K, V, E>(s: State<K, V, E>, w: Waiter<K, V>)
    requires AllOn(s)
    ensures AllOn(Enqueue(s, w))
  {
    var bs := s.inFlight + [Batch(s.keys + w.keys, s.pending + [w], s.disabledAll)];
    assert forall i :: 0 <= i < |bs| ==> !bs[i].uncached;
  }

  lemma NextStaysOn<K, V, E>(s: State<K, V, E>, step: Step<K, V, E>)
    requires AllOn(s) && Enabled(s, step) && !SwitchesOff(step)
    ensures AllOn(Next(s, step))
  {
    match step
    case Load(ks) =>
      var scan := Look(s, ks);
      var s1 := s.(registered := true, cache := scan.cache, asked := s.asked + [ks]);
      EnqueueStaysOn(s1, Waiter(|s.asked|, scan.missing, scan.hits));
    case TimerFires(i) =>
      var bs := s.inFlight + [Batch(s.keys, s.pending, s.timers[i])];
      assert forall i :: 0 <= i < |bs| ==> !bs[i].uncached;
    case _ =>
  }

  /** In every run during which nothing is switched off, no task is uncached. */
  lemma {:induction false} RunStaysOn<K, V, E>(s: State<K, V, E>, steps: seq<Step<K, V, E>>)
    requires AllOn(s) && IsRun(s, steps) && forall i :: 0 <= i < |steps| ==> !SwitchesOff(steps[i])
    ensures AllOn(Run(s, steps))
    decreases steps
  {
    if steps != [] {
      NextStaysOn(s, steps[0]);
      RunStaysOn(Next(s, steps[0]), steps[1..]);
    }
  }

  // ----- What is cached stays cached -----

  /** The step can change what the cache says about a key. */
  ghost predicate Touches<K, V, E>(step: Step<K, V, E>, k: K) {
    match step
    case BatchLoaded(_, entries) => k in ToMap(entries)
    case Feed(fed) => k in ToMap(fed)
    case ClearCache => true
    case _ => false
  }

  ghost predicate Holds<K, V>(c: Storage<K, V>, k: K, v: V) {
    c.HashMapCache? && k in c.Contents() && c.Contents()[k] == v
  }

  lemma {:induction false} ScanKeepsHashMap<K, V>(from: Scan<K, V>, ks: seq<K>)
    requires from.cache.HashMapCache?
    ensures ScanKeys(from, ks).cache == from.cache
    decreases ks
  {
    if ks != [] {
      var hit := from.cache.Lookup(ks[0]);
      ScanKeepsHashMap(if hit.Some? then Scan(from.cache, from.missing, from.hits[ks[0] := hit.value])
                       else Scan(from.cache, from.missing + {ks[0]}, from.hits), ks[1..]);
    }
  }

  lemma {:induction false} InsertAllKeeps<K, V>(c: Storage<K, V>, entries: seq<(K, V)>, k: K, v: V)
    requires Holds(c, k, v) && k !in ToMap(entries)
    ensures Holds(InsertAll(c, entries), k, v)
    decreases entries
  {
    if entries != [] { InsertAllKeeps(c.Insert(entries[0].0, entries[0].1), entries[1..], k, v); }
  }

  lemma NextKeepsPair<K, V, E>(s: State<K, V, E>, step: Step<K, V, E>, k: K, v: V)
    requires Enabled(s, step) && Holds(s.cache, k, v) && !Touches(step, k)
    ensures Holds(Next(s, step).cache, k, v)
  {
    match step
    case Load(ks) => ScanKeepsHashMap(Scan(s.cache, {}, map[]), ks);
    case BatchLoaded(i, entries) => InsertAllKeeps(s.cache, entries, k, v);
    case Feed(fed) => InsertAllKeeps(s.cache, fed, k, v);
    case _ =>
  }

  lemma {:induction false} RunKeepsPair<K, V, E>(s: State<K, V, E>, steps: seq<Step<K, V, E>>, k: K, v: V)
    requires IsRun(s, steps) && Holds(s.cache, k, v) && forall i :: 0 <= i < |steps| ==> !Touches(steps[i], k)
    ensures Holds(Run(s, steps).cache, k, v)
    decreases steps
  {
    if steps != [] {
      NextKeepsPair(s, steps[0], k, v);
      RunKeepsPair(Next(s, steps[0]), steps[1..], k, v);
    }
  }

  /** A pair that a batch returns while the cache is on can be read from it after any later
      steps that do not clear the cache or replace the pair. */
  lemma LoadedIsRemembered<K, V, E>(s: State<K, V, E>, i: nat, entries: seq<(K, V)>, later: seq<Step<K, V, E>>, k: K)
    requires AllOn(s) && s.cache.HashMapCache? && Enabled(s, BatchLoaded(i, entries)) && k in ToMap(entries)
    requires IsRun(Next(s, BatchLoaded(i, entries)), later)
    requires forall j :: 0 <= j < |later| ==> !Touches(later[j], k)
    ensures Holds(Run(Next(s, BatchLoaded(i, entries)), later).cache, k, ToMap(entries)[k])
  {
    BatchFillsCache(s, i, entries);
    InsertAllHashMap(s.cache, entries);
    RunKeepsPair(Next(s, BatchLoaded(i, entries)), later, k, ToMap(entries)[k]);
  }

  /** A call for keys that are all cached is answered at once, and adds no work. */
  ghost predicate AnsweredAtOnce<K, V, E>(s: State<K, V, E>, ks: seq<K>, values: map<K, V>) {
    var s' := LoadStep(s, ks);
    && s'.replies == s.replies + [(|s.asked|, Loaded(values))]
    && Work(s') == Work(s) && s'.pending == s.pending
  }

  lemma HeldIsAnswered<K, V, E>(s: State<K, V, E>, ks: seq<K>, values: map<K, V>)
    requires !s.disabled && !s.disabledAll && values.Keys == SetOf(ks)
    requires s.cache.HashMapCache? && forall k :: k in ks ==> Holds(s.cache, k, values[k])
    ensures AnsweredAtOnce(s, ks, values)
  {
    CachedCallAnsweredAtOnce(s, ks);
    assert (map k | k in ks :: s.cache.Contents()[k]) == values;
  }

  lemma {:induction false} InsertAllKind<K, V>(c: Storage<K, V>, entries: seq<(K, V)>)
    requires c.HashMapCache?
    ensures InsertAll(c, entries).HashMapCache?
    decreases entries
  {
    if entries != [] { InsertAllKind(c.Insert(entries[0].0, entries[0].1), entries[1..]); }
  }

  lemma {:induction false} KeepsKind<K, V, E>(s: State<K, V, E>, steps: seq<Step<K, V, E>>)
    requires IsRun(s, steps) && s.cache.HashMapCache?
    ensures Run(s, steps).cache.HashMapCache?
    decreases steps
  {
    if steps != [] {
      match steps[0] {
        case Load(ks) => ScanKeepsHashMap(Scan(s.cache, {}, map[]), ks);
        case BatchLoaded(i, entries) => InsertAllKind(s.cache, entries);
        case Feed(fed) => InsertAllKind(s.cache, fed);
        case _ =>
      }
      KeepsKind(Next(s, steps[0]), steps[1..]);
    }
  }

  /** Nothing later switches the cache off, clears it or replaces one of the keys. */
  ghost predicate Harmless<K, V, E>(later: seq<Step<K, V, E>>, ks: seq<K>) {
    && (forall j :: 0 <= j < |later| ==> !SwitchesOff(later[j]))
    && (forall k, j :: k in ks && 0 <= j < |later| ==> !Touches(later[j], k))
  }

  lemma LoadedAnswers<K, V, E>(s: State<K, V, E>, i: nat, entries: seq<(K, V)>, later: seq<Step<K, V, E>>, ks: seq<K>)
    requires AllOn(s) && s.cache.HashMapCache? && Enabled(s, BatchLoaded(i, entries))
    requires IsRun(Next(s, BatchLoaded(i, entries)), later) && Harmless(later, ks)
    requires forall k :: k in ks ==> k in ToMap(entries)
    ensures AnsweredAtOnce(Run(Next(s, BatchLoaded(i, entries)), later), ks, map k | k in ks :: ToMap(entries)[k])
  {
    var s1 := Next(s, BatchLoaded(i, entries));
    var s2 := Run(s1, later);
    NextStaysOn(s, BatchLoaded(i, entries));
    RunStaysOn(s1, later);
    InsertAllKind(s.cache, entries);
    KeepsKind(s1, later);
    var values := map k | k in ks :: ToMap(entries)[k];
    forall k | k in ks ensures Holds(s2.cache, k, values[k]) {
      LoadedIsRemembered(s, i, entries, later, k);
    }
    assert values.Keys == SetOf(ks);
    HeldIsAnswered(s2, ks, values);
  }

  /** The cache works: in every run of a loader with a hash-map cache in which nothing is
      switched off, what a batch returned answers later calls at once, without any loading,
      until the cache is cleared or the pairs are replaced. */
  lemma LaterCallsAreCached<K, V, E>(initial: Storage<K, V>, max: nat, steps: seq<Step<K, V, E>>, i: nat,
                                     entries: seq<(K, V)>, later: seq<Step<K, V, E>>, ks: seq<K>)
    requires initial.HashMapCache? && IsRun(Init<K, V, E>(initial, max), steps)
    requires forall j :: 0 <= j < |steps| ==> !SwitchesOff(steps[j])
    requires Enabled(Run(Init<K, V, E>(initial, max), steps), BatchLoaded(i, entries))
    requires IsRun(Next(Run(Init<K, V, E>(initial, max), steps), BatchLoaded(i, entries)), later) && Harmless(later, ks)
    requires forall k :: k in ks ==> k in ToMap(entries)
    ensures
      var loaded := Next(Run(Init<K, V, E>(initial, max), steps), BatchLoaded(i, entries));
      AnsweredAtOnce(Run(loaded, later), ks, map k | k in ks :: ToMap(entries)[k])
  {
    var start := Init<K, V, E>(initial, max);
    KeepsKind(start, steps);
    RunStaysOn(start, steps);
    LoadedAnswers(Run(start, steps), i, entries, later, ks);
  }

  // ----- Switches, feeds and clears -----

  /** Two steps in a row. */
  function Then<K, V, E>(s: State<K, V, E>, a: Step<K, V, E>, b: Step<K, V, E>): State<K, V, E>
    requires Enabled(s, a) && Enabled(Next(s, a), b)
  {
    Next(Next(s, a), b)
  }

  /** Switching both switches on makes cached pairs count; switching one off makes a call ask
      for all its keys; neither touches what is cached. */
  lemma SwitchesWork<K, V, E>(s: State<K, V, E>, ks: seq<K>)
    requires s.cache.Valid() && s.registered
    ensures
      var on := Then(s, EnableCache(true), EnableAllCache(true));
      && on.cache == s.cache
      && forall k :: k in ks && k in s.cache.Contents() ==>
           k in Look(on, ks).hits && k !in Look(on, ks).missing && Look(on, ks).hits[k] == s.cache.Contents()[k]
    ensures forall off :: off == Next(s, EnableCache(false)) || off == Next(s, EnableAllCache(false)) ==>
      off.cache == s.cache && Look(off, ks).hits == map[] && Look(off, ks).missing == SetOf(ks)
  {
    var on := Then(s, EnableCache(true), EnableAllCache(true));
    LookFacts(on, ks);
    ScanFacts(Scan(s.cache, {}, map[]), ks);
    SplitFacts(s.cache.Contents(), ks);
    OffIgnoresCache(Next(s, EnableCache(false)), ks);
    OffIgnoresCache(Next(s, EnableAllCache(false)), ks);
    forall k | k in ks && k in s.cache.Contents()
      ensures k in Look(on, ks).hits && k !in Look(on, ks).missing && Look(on, ks).hits[k] == s.cache.Contents()[k]
    {
      assert k in SetOf(ks);
      assert Look(on, ks).missing == Missing(s.cache.Contents(), ks);
    }
  }

  /** Of several pairs with the same key, the last one that is inserted counts. */
  lemma {:induction false} LastInsertedCounts<K, V>(c: Storage<K, V>, entries: seq<(K, V)>, i: nat)
    requires c.HashMapCache? && i < |entries|
    requires forall j :: i < j < |entries| ==> entries[j].0 != entries[i].0
    ensures Holds(InsertAll(c, entries), entries[i].0, entries[i].1)
    decreases entries
  {
    var first := c.Insert(entries[0].0, entries[0].1);
    if i == 0 {
      KeysOf(entries[1..], entries[0].0);
      InsertAllKeeps(first, entries[1..], entries[0].0, entries[0].1);
    } else {
      LastInsertedCounts(first, entries[1..], i - 1);
    }
  }

  /** A key type is registered by its first call, feed or clear; nothing unregisters it. */
  lemma UseRegisters<K, V, E>(s: State<K, V, E>, step: Step<K, V, E>)
    requires Enabled(s, step)
    ensures Next(s, step).registered <==> s.registered || step.Load? || step.Feed? || step.ClearCache?
  {
  }

  /** Pairs that were fed answer later calls at once. */
  lemma FedIsAnswered<K, V, E>(s: State<K, V, E>, fed: seq<(K, V)>, ks: seq<K>)
    requires !s.disabled && !s.disabledAll && s.cache.HashMapCache? && UniqueKeys(fed)
    requires forall k :: k in ks ==> k in ToMap(fed)
    ensures AnsweredAtOnce(Next(s, Feed(fed)), ks, map k | k in ks :: ToMap(fed)[k])
  {
    InsertAllHashMap(s.cache, fed);
    HeldIsAnswered(Next(s, Feed(fed)), ks, map k | k in ks :: ToMap(fed)[k]);
  }

  /** After a clear every call asks for all its keys, whatever the cache kind. */
  lemma ClearForgets<K, V, E>(s: State<K, V, E>, ks: seq<K>)
    requires s.cache.Valid()
    ensures Look(Next(s, ClearCache), ks).hits == map[] && Look(Next(s, ClearCache), ks).missing == SetOf(ks)
  {
    var cleared := Next(s, ClearCache);
    assert cleared.cache.Valid() && cleared.cache.Contents() == map[];
    LookFacts(cleared, ks);
  }
}
