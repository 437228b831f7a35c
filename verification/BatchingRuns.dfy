/** When the data loader loads: calls below the limit share one batch, started by one timer;
    the call that reaches the limit starts the batch at once. */
module BatchingRuns {
  import opened Wrappers
  import opened CacheStorage
  import opened BatchProtocol
  import opened BatchTheorems
  import opened Collections

  /** The keys of a call that the cache does not answer. */
  ghost function Needed<K, V, E>(s: State<K, V, E>, ks: seq<K>): set<K> {
    if s.disabled || s.disabledAll then SetOf(ks) else SetOf(ks) - s.cache.Contents().Keys
  }

  lemma NeededIsMissing<K, V, E>(s: State<K, V, E>, ks: seq<K>)
    requires s.cache.Valid()
    ensures Look(s, ks).missing == Needed(s, ks)
  {
    if !(s.disabled || s.disabledAll) {
      ScanFacts(Scan(s.cache, {}, map[]), ks);
      SplitFacts(s.cache.Contents(), ks);
    }
  }

  /** What a call does: nothing to load, it is answered at once; below the limit, it waits, and
      only the first waiting call starts a timer; at the limit, everything that waits goes out
      as one batch and the queue is empty. */
  lemma LoadExact<K, V, E>(s: State<K, V, E>, ks: seq<K>)
    requires s.cache.Valid()
    ensures
      var s', needed := LoadStep(s, ks), Needed(s, ks);
      var keys, answered := s.keys + needed, |s'.replies| == |s.replies| + 1;
      && (answered <==> needed == {})
      && (needed == {} ==> s'.keys == s.keys && s'.pending == s.pending && s'.inFlight == s.inFlight && s'.timers == s.timers)
      && (needed != {} && |keys| < s.maxBatchSize ==>
            && s'.keys == keys && s'.inFlight == s.inFlight && |s'.pending| == |s.pending| + 1
            && s.pending <= s'.pending && s'.pending[|s.pending|].keys == needed
            && s'.timers == s.timers + (if s.keys == {} then [s.disabledAll] else []))
      && (needed != {} && |keys| >= s.maxBatchSize ==>
            && s'.keys == {} && s'.pending == [] && s'.timers == s.timers && |s'.inFlight| == |s.inFlight| + 1
            && s.inFlight <= s'.inFlight && s'.inFlight[|s.inFlight|].keys == keys
            && s'.inFlight[|s.inFlight|].uncached == s.disabledAll
            && s.pending <= s'.inFlight[|s.inFlight|].waiters
            && |s'.inFlight[|s.inFlight|].waiters| == |s.pending| + 1)
  {
    NeededIsMissing(s, ks);
  }

  /** What a waking timer does: it hands over everything that waits, as one batch that carries
      the switch of the moment when the timer was started; a late timer finds nothing and does
      nothing. */
  lemma TimerExact<K, V, E>(s: State<K, V, E>, i: nat)
    requires Inv(s) && i < |s.timers|
    ensures
      var s' := TimerStep(s, i);
      && s'.keys == {} && s'.pending == [] && |s'.timers| == |s.timers| - 1
      && s'.cache == s.cache && s'.replies == s.replies && s'.dropped == s.dropped
      && (s.pending == [] ==> s'.inFlight == s.inFlight)
      && (s.pending != [] ==>
            && |s'.inFlight| == |s.inFlight| + 1 && s.inFlight <= s'.inFlight
            && s'.inFlight[|s.inFlight|].keys == s.keys && s'.inFlight[|s.inFlight|].waiters == s.pending
            && s'.inFlight[|s.inFlight|].uncached == s.timers[i])
  {
    EmptyQueue(s.keys, s.pending, s.asked);
    if s.pending != [] {
      assert s.pending[|s.pending| - 1].keys != {};
    }
  }

  // ----- Many calls, one batch -----

  function AllKeys<K, V, E>(loads: seq<Step<K, V, E>>): set<K>
    requires forall i :: 0 <= i < |loads| ==> loads[i].Load?
  {
    if loads == [] then {} else SetOf(loads[0].ks) + AllKeys(loads[1..])
  }

  /** Only calls, each for at least one key. */
  ghost predicate Calls<K, V, E>(loads: seq<Step<K, V, E>>) {
    forall i :: 0 <= i < |loads| ==> loads[i].Load? && loads[i].ks != []
  }

  /** What waits after some calls, and what has not changed. */
  ghost predicate Waits<K, V, E>(s: State<K, V, E>, s': State<K, V, E>, keys: set<K>, n: nat) {
    && s'.keys == s.keys + keys && |s'.pending| == |s.pending| + n
    && s'.inFlight == s.inFlight && s'.replies == s.replies && s'.disabledAll == s.disabledAll
    && s'.timers == s.timers + (if s.keys == {} && n > 0 then [s.disabledAll] else [])
    && s'.cache == s.cache && s'.maxBatchSize == s.maxBatchSize
  }

  lemma OneCallWaits<K, V, E>(s: State<K, V, E>, ks: seq<K>)
    requires s.cache.NoCache? && ks != [] && |s.keys + SetOf(ks)| < s.maxBatchSize
    ensures Waits(s, LoadStep(s, ks), SetOf(ks), 1)
  {
    assert ks[0] in SetOf(ks);
    NoCacheNeedsAll(s, ks);
    LoadExact(s, ks);
  }

  lemma WaitsOn<K, V, E>(s: State<K, V, E>, s1: State<K, V, E>, s2: State<K, V, E>, a: set<K>, b: set<K>, n: nat)
    requires Waits(s, s1, a, 1) && a != {} && Waits(s1, s2, b, n)
    ensures Waits(s, s2, a + b, n + 1)
  {
    assert s1.keys != {};
  }

  lemma FirstCallWaits<K, V, E>(s: State<K, V, E>, loads: seq<Step<K, V, E>>)
    requires s.cache.NoCache? && loads != [] && Calls(loads) && |s.keys + AllKeys(loads)| < s.maxBatchSize
    ensures
      var s1 := LoadStep(s, loads[0].ks);
      && Waits(s, s1, SetOf(loads[0].ks), 1) && SetOf(loads[0].ks) != {}
      && s1.keys + AllKeys(loads[1..]) == s.keys + AllKeys(loads)
  {
    var ks := loads[0].ks;
    SubsetSize(s.keys + SetOf(ks), s.keys + AllKeys(loads));
    OneCallWaits(s, ks);
    assert ks[0] in SetOf(ks);
  }

  /** Without a cache, any number of calls that together stay below the limit start no batch
      and at most one timer; all of them wait. */
  lemma {:induction false} CallsWait<K, V, E>(s: State<K, V, E>, loads: seq<Step<K, V, E>>)
    requires s.cache.NoCache? && Calls(loads) && IsRun(s, loads)
    requires |s.keys + AllKeys(loads)| < s.maxBatchSize
    ensures Waits(s, Run(s, loads), AllKeys(loads), |loads|)
    decreases loads
  {
    if loads != [] {
      var ks, rest := loads[0].ks, loads[1..];
      var s1 := LoadStep(s, ks);
      FirstCallWaits(s, loads);
      CallsWait(s1, rest);
      WaitsOn(s, s1, Run(s1, rest), SetOf(ks), AllKeys(rest), |rest|);
    }
  }

  lemma NoCacheNeedsAll<K, V, E>(s: State<K, V, E>, ks: seq<K>)
    requires s.cache.NoCache?
    ensures Needed(s, ks) == SetOf(ks) && LoadStep(s, ks).cache == s.cache && LoadStep(s, ks).disabledAll == s.disabledAll
    ensures SetOf(ks) != {} ==> LoadStep(s, ks).replies == s.replies
    ensures LoadStep(s, ks).maxBatchSize == s.maxBatchSize
  {
    NeededIsMissing(s, ks);
    NoCacheScan(Scan(s.cache, {}, map[]), ks);
  }

  lemma {:induction false} NoCacheScan<K, V>(from: Scan<K, V>, ks: seq<K>)
    requires from.cache.NoCache?
    ensures ScanKeys(from, ks).cache == from.cache
    decreases ks
  {
    if ks != [] { NoCacheScan(Scan(from.cache, from.missing + {ks[0]}, from.hits), ks[1..]); }
  }

  /** Batching: from a state in which nothing waits, any number of calls that together stay
      below the limit end in one single batch with all their keys, when the one timer fires. */
  lemma CallsShareOneBatch<K, V, E>(s: State<K, V, E>, loads: seq<Step<K, V, E>>)
    requires s.cache.NoCache? && s.keys == {} && s.pending == [] && s.timers == []
    requires loads != [] && Calls(loads) && IsRun(s, loads) && |AllKeys(loads)| < s.maxBatchSize
    ensures
      var waiting := Run(s, loads);
      && |waiting.timers| == 1 && waiting.inFlight == s.inFlight && waiting.cache.Valid()
      && var fired := TimerStep(waiting, 0);
      && fired.timers == [] && fired.pending == [] && |fired.inFlight| == |s.inFlight| + 1
      && fired.inFlight[|s.inFlight|].keys == AllKeys(loads)
      && |fired.inFlight[|s.inFlight|].waiters| == |loads|
      && fired.inFlight[|s.inFlight|].uncached == s.disabledAll
  {
    assert s.keys + AllKeys(loads) == AllKeys(loads);
    CallsWait(s, loads);
    assert loads[0].ks[0] in SetOf(loads[0].ks);
    assert loads[0].ks[0] in AllKeys(loads);
  }
}
