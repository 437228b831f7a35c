/** What holds in every run of the batching protocol. */
module BatchTheorems {
  import opened Wrappers
  import opened CacheStorage
  import opened BatchProtocol
  import opened Collections

  // ----- The cache pass -----

  /** The requested keys that a cache does not have, and the values it has for the others. */
  function Missing<K, V>(seen: map<K, V>, ks: seq<K>): set<K> {
    if ks == [] then {} else (if ks[0] in seen then {} else {ks[0]}) + Missing(seen, ks[1..])
  }

  function Hits<K, V>(seen: map<K, V>, ks: seq<K>): map<K, V> {
    if ks == [] then map[]
    else (if ks[0] in seen then map[ks[0] := seen[ks[0]]] else map[]) + Hits(seen, ks[1..])
  }

  lemma {:induction false} ScanFacts<K, V>(from: Scan<K, V>, ks: seq<K>)
    requires from.cache.Valid()
    ensures
      var r, seen := ScanKeys(from, ks), from.cache.Contents();
      && r.cache.Valid() && r.cache.Contents() == seen
      && r.missing == from.missing + Missing(seen, ks)
      && r.hits == from.hits + Hits(seen, ks)
    decreases ks
  {
    if ks != [] {
      GetContract(from.cache, ks[0]);
      var hit, touched := from.cache.Lookup(ks[0]), from.cache.Touch(ks[0]);
      if hit.Some? {
        ScanFacts(Scan(touched, from.missing, from.hits[ks[0] := hit.value]), ks[1..]);
      } else {
        ScanFacts(Scan(touched, from.missing + {ks[0]}, from.hits), ks[1..]);
      }
    }
  }

  lemma {:induction false} SplitFacts<K, V>(seen: map<K, V>, ks: seq<K>)
    ensures Missing(seen, ks) !! seen.Keys && Hits(seen, ks).Keys <= seen.Keys
    ensures Missing(seen, ks) + Hits(seen, ks).Keys == SetOf(ks)
    ensures forall k :: k in Hits(seen, ks) ==> Hits(seen, ks)[k] == seen[k]
  {
    if ks != [] {
      SplitFacts(seen, ks[1..]);
      assert SetOf(ks) == {ks[0]} + SetOf(ks[1..]);
    }
  }

  /** With or without the cache, the pass splits the request into known values and keys
      to load, and it leaves the observable cache as it was. */
  lemma LookFacts<K, V, E>(s: State<K, V, E>, ks: seq<K>)
    requires s.cache.Valid()
    ensures
      var r := Look(s, ks);
      && r.cache.Valid() && r.cache.Contents() == s.cache.Contents()
      && r.missing !! r.hits.Keys && r.missing + r.hits.Keys == SetOf(ks)
      && forall k :: k in r.hits ==> k in s.cache.Contents() && r.hits[k] == s.cache.Contents()[k]
  {
    ScanFacts(Scan(s.cache, {}, map[]), ks);
    SplitFacts(s.cache.Contents(), ks);
  }

  // ----- Preservation of the invariant -----

  lemma QueueGrowsHistory<K, V>(keys: set<K>, ws: seq<Waiter<K, V>>, asked: seq<seq<K>>, ks: seq<K>)
    requires Queue(keys, ws, asked)
    ensures Queue(keys, ws, asked + [ks])
  {
    var asked' := asked + [ks];
    forall i | 0 <= i < |ws| ensures Splits(ws[i], asked') {
      assert Splits(ws[i], asked);
      assert asked'[ws[i].id] == asked[ws[i].id];
    }
  }

  lemma QueueJoin<K, V>(keys: set<K>, ws: seq<Waiter<K, V>>, w: Waiter<K, V>, asked: seq<seq<K>>)
    requires Queue(keys, ws, asked) && Splits(w, asked) && w.keys != {}
    ensures Queue(keys + w.keys, ws + [w], asked)
  {
    var all := ws + [w];
    assert all[..|ws|] == ws;
  }

  lemma BatchesGrowHistory<K, V>(bs: seq<Batch<K, V>>, asked: seq<seq<K>>, ks: seq<K>)
    requires Batches(bs, asked)
    ensures Batches(bs, asked + [ks])
  {
    forall i | 0 <= i < |bs| ensures Queue(bs[i].keys, bs[i].waiters, asked + [ks]) {
      QueueGrowsHistory(bs[i].keys, bs[i].waiters, asked, ks);
    }
  }

  lemma BatchesJoin<K, V>(bs: seq<Batch<K, V>>, b: Batch<K, V>, asked: seq<seq<K>>)
    requires Batches(bs, asked) && b.waiters != [] && Queue(b.keys, b.waiters, asked)
    ensures Batches(bs + [b], asked)
  {
  }

  lemma EnqueueKeepsInv<K, V, E>(s: State<K, V, E>, w: Waiter<K, V>)
    requires Inv(s) && s.registered
    requires w.keys != {} && Splits(w, s.asked)
    ensures Inv(Enqueue(s, w))
  {
    var keys, pending := s.keys + w.keys, s.pending + [w];
    QueueJoin(s.keys, s.pending, w, s.asked);
    BatchesJoin(s.inFlight, Batch(keys, pending, s.disabledAll), s.asked);
  }

  lemma LoadKeepsInv<K, V, E>(s: State<K, V, E>, ks: seq<K>)
    requires Inv(s)
    ensures Inv(LoadStep(s, ks))
  {
    LookFacts(s, ks);
    var scan := Look(s, ks);
    var s1 := s.(registered := true, cache := scan.cache, asked := s.asked + [ks]);
    QueueGrowsHistory(s.keys, s.pending, s.asked, ks);
    BatchesGrowHistory(s.inFlight, s.asked, ks);
    assert Inv(s1);
    if scan.missing != {} {
      EnqueueKeepsInv(s1, Waiter(|s.asked|, scan.missing, scan.hits));
    }
  }

  /** An empty `keys` means an empty queue, so a stale timer has no sender to drop. */
  lemma EmptyQueue<K, V>(keys: set<K>, ws: seq<Waiter<K, V>>, asked: seq<seq<K>>)
    requires Queue(keys, ws, asked)
    ensures keys == {} <==> ws == []
  {
    if ws != [] {
      var k :| k in ws[|ws| - 1].keys;
      assert k in keys;
    }
  }

  lemma TimerKeepsInv<K, V, E>(s: State<K, V, E>, i: nat)
    requires Inv(s) && i < |s.timers|
    ensures Inv(TimerStep(s, i))
  {
    EmptyQueue(s.keys, s.pending, s.asked);
    if s.keys != {} {
      BatchesJoin(s.inFlight, Batch(s.keys, s.pending, s.timers[i]), s.asked);
    }
  }

  lemma BatchesRemove<K, V>(bs: seq<Batch<K, V>>, i: nat, asked: seq<seq<K>>)
    requires Batches(bs, asked) && i < |bs|
    ensures Batches(RemoveAt(bs, i), asked)
  {
  }

  lemma NextKeepsInv<K, V, E>(s: State<K, V, E>, step: Step<K, V, E>)
    requires Inv(s) && Enabled(s, step)
    ensures Inv(Next(s, step))
  {
    match step
    case Load(ks) => LoadKeepsInv(s, ks);
    case TimerFires(i) => TimerKeepsInv(s, i);
    case BatchLoaded(i, entries) => BatchesRemove(s.inFlight, i, s.asked);
    case BatchFailed(i, error) => BatchesRemove(s.inFlight, i, s.asked);
    case ClearCache => ClearedIsEmpty(s.cache);
    case _ =>
  }

  lemma ClearedIsEmpty<K, V>(c: Storage<K, V>)
    requires c.Valid()
    ensures c.Clear().Valid() && c.Clear().Contents() == map[]
  {
  }

  // ----- Conservation of senders -----

  lemma EnqueueHolds<K, V, E>(s: State<K, V, E>, w: Waiter<K, V>, id: nat)
    ensures Waiting(Enqueue(s, w), id) == Waiting(s, id) + if w.id == id then 1 else 0
  {
    var pending := s.pending + [w];
    assert Count(Ids(pending), id) == Count(Ids(s.pending), id) + if w.id == id then 1 else 0 by {
      assert Ids(pending) == Ids(s.pending) + [w.id];
      CountConcat(Ids(s.pending), [w.id], id);
    }
    if |s.keys + w.keys| < s.maxBatchSize {
      assert Enqueue(s, w).pending == pending && Enqueue(s, w).inFlight == s.inFlight;
    } else {
      CountInBatchesAppend(s.inFlight, Batch(s.keys + w.keys, pending, s.disabledAll), id);
      var none: seq<Waiter<K, V>> := [];
      assert Ids(none) == [];
    }
  }

  lemma LoadHolds<K, V, E>(s: State<K, V, E>, ks: seq<K>, id: nat)
    ensures Waiting(LoadStep(s, ks), id) + Spent(LoadStep(s, ks), id)
         == Waiting(s, id) + Spent(s, id) + if id == |s.asked| then 1 else 0
  {
    var scan := Look(s, ks);
    var s1 := s.(registered := true, cache := scan.cache, asked := s.asked + [ks]);
    if scan.missing == {} {
      var reply: (nat, Reply<K, V, E>) := (|s.asked|, Loaded(scan.hits));
      assert ReplyIds(s.replies + [reply]) == ReplyIds(s.replies) + [|s.asked|];
      CountConcat(ReplyIds(s.replies), [|s.asked|], id);
    } else {
      EnqueueHolds(s1, Waiter(|s.asked|, scan.missing, scan.hits), id);
    }
  }

  lemma TimerHolds<K, V, E>(s: State<K, V, E>, i: nat, id: nat)
    requires Queue(s.keys, s.pending, s.asked) && i < |s.timers|
    ensures Waiting(TimerStep(s, i), id) == Waiting(s, id)
    ensures TimerStep(s, i).dropped == s.dropped
  {
    EmptyQueue(s.keys, s.pending, s.asked);
    var none: seq<Waiter<K, V>> := [];
    assert Ids(none) == [];
    CountInBatchesAppend(s.inFlight, Batch(s.keys, s.pending, s.timers[i]), id);
  }

  lemma FinishHolds<K, V, E>(s: State<K, V, E>, i: nat, sent: seq<(nat, Reply<K, V, E>)>, id: nat)
    requires i < |s.inFlight| && ReplyIds(sent) == Ids(s.inFlight[i].waiters)
    ensures CountInBatches(RemoveAt(s.inFlight, i), id) + Count(ReplyIds(s.replies + sent), id)
         == CountInBatches(s.inFlight, id) + Count(ReplyIds(s.replies), id)
  {
    CountInBatchesRemove(s.inFlight, i, id);
    assert ReplyIds(s.replies + sent) == ReplyIds(s.replies) + ReplyIds(sent);
    CountConcat(ReplyIds(s.replies), ReplyIds(sent), id);
  }

  lemma LoadedHolds<K, V, E>(s: State<K, V, E>, i: nat, entries: seq<(K, V)>, id: nat)
    requires i < |s.inFlight| && s.cache.Valid()
    ensures Waiting(LoadedStep(s, i, entries), id) + Spent(LoadedStep(s, i, entries), id)
         == Waiting(s, id) + Spent(s, id)
  {
    var sent: seq<(nat, Reply<K, V, E>)> := LoadedReplies(s.inFlight[i].waiters, ToMap(entries));
    assert ReplyIds(sent) == Ids(s.inFlight[i].waiters);
    FinishHolds(s, i, sent, id);
  }

  lemma FailedHolds<K, V, E>(s: State<K, V, E>, i: nat, error: E, id: nat)
    requires i < |s.inFlight|
    ensures Waiting(FailedStep(s, i, error), id) + Spent(FailedStep(s, i, error), id)
         == Waiting(s, id) + Spent(s, id)
  {
    var sent: seq<(nat, Reply<K, V, E>)> := FailedReplies(s.inFlight[i].waiters, error);
    assert ReplyIds(sent) == Ids(s.inFlight[i].waiters);
    FinishHolds(s, i, sent, id);
  }

  lemma QuietHolds<K, V, E>(s: State<K, V, E>, s': State<K, V, E>, id: nat)
    requires s'.pending == s.pending && s'.inFlight == s.inFlight
    requires s'.replies == s.replies && s'.dropped == s.dropped
    ensures Waiting(s', id) + Spent(s', id) == Waiting(s, id) + Spent(s, id)
  {
  }

  function Held<K, V, E>(s: State<K, V, E>, id: nat): nat {
    Waiting(s, id) + Spent(s, id)
  }

  /** A step neither duplicates nor loses a sender; only a call creates one. */
  lemma NextHolds<K, V, E>(s: State<K, V, E>, step: Step<K, V, E>, id: nat)
    requires Queue(s.keys, s.pending, s.asked) && Enabled(s, step)
    ensures Held(Next(s, step), id) == Held(s, id) + if step.Load? && id == |s.asked| then 1 else 0
  {
    match step
    case Load(ks) => LoadHolds(s, ks, id);
    case TimerFires(i) => TimerHolds(s, i, id);
    case BatchLoaded(i, entries) => LoadedHolds(s, i, entries, id);
    case BatchFailed(i, error) => FailedHolds(s, i, error, id);
    case _ => QuietHolds(s, Next(s, step), id);
  }

  lemma LoadHistory<K, V, E>(s: State<K, V, E>, ks: seq<K>)
    ensures LoadStep(s, ks).asked == s.asked + [ks] && LoadStep(s, ks).dropped == s.dropped
  {
  }

  lemma NextDropsNothing<K, V, E>(s: State<K, V, E>, step: Step<K, V, E>)
    requires Queue(s.keys, s.pending, s.asked) && Enabled(s, step)
    ensures Next(s, step).dropped == s.dropped
    ensures |Next(s, step).asked| == |s.asked| + if step.Load? then 1 else 0
  {
    match step
    case Load(ks) => LoadHistory(s, ks);
    case TimerFires(i) => TimerHolds(s, i, 0);
    case _ =>
  }

  lemma NextConserves<K, V, E>(s: State<K, V, E>, step: Step<K, V, E>)
    requires Queue(s.keys, s.pending, s.asked) && Conserved(s) && Enabled(s, step)
    ensures Conserved(Next(s, step))
  {
    var s' := Next(s, step);
    NextDropsNothing(s, step);
    forall id: nat ensures Waiting(s', id) + Spent(s', id) == if id < |s'.asked| then 1 else 0 {
      NextHolds(s, step, id);
      assert Waiting(s, id) + Spent(s, id) == if id < |s.asked| then 1 else 0;
    }
  }

  // ----- Theorems over whole runs -----

  lemma {:induction false} RunKeeps<K, V, E>(s: State<K, V, E>, steps: seq<Step<K, V, E>>)
    requires Inv(s) && Conserved(s) && IsRun(s, steps)
    ensures Inv(Run(s, steps)) && Conserved(Run(s, steps))
    decreases steps
  {
    if steps != [] {
      NextKeepsInv(s, steps[0]);
      NextConserves(s, steps[0]);
      RunKeeps(Next(s, steps[0]), steps[1..]);
    }
  }

  lemma InitHolds<K, V, E>(cache: Storage<K, V>, maxBatchSize: nat)
    requires cache.Valid()
    ensures Inv(Init<K, V, E>(cache, maxBatchSize)) && Conserved(Init<K, V, E>(cache, maxBatchSize))
  {
    var s := Init<K, V, E>(cache, maxBatchSize);
    assert Ids(s.pending) == [] && ReplyIds(s.replies) == [];
  }

  /** Exactly-once answering, in every run: no sender is ever dropped unsent, and each
      call has its sender in the queue, in a batch, or used once, and in only one of them. */
  lemma ExactlyOnce<K, V, E>(cache: Storage<K, V>, max: nat, steps: seq<Step<K, V, E>>, id: nat)
    requires cache.Valid() && IsRun(Init(cache, max), steps)
    ensures
      var s := Run(Init(cache, max), steps);
      && s.dropped == []
      && (id < |s.asked| ==>
            Count(Ids(s.pending), id) + CountInBatches(s.inFlight, id) + Count(ReplyIds(s.replies), id) == 1)
      && (id in ReplyIds(s.replies) ==> id < |s.asked|)
  {
    InitHolds<K, V, E>(cache, max);
    RunKeeps(Init(cache, max), steps);
    var s := Run(Init(cache, max), steps);
    assert Waiting(s, id) + Spent(s, id) == if id < |s.asked| then 1 else 0;
    CountMember(ReplyIds(s.replies), id);
  }

  predicate IsTask<K, V, E>(step: Step<K, V, E>) {
    step.TimerFires? || step.BatchLoaded? || step.BatchFailed?
  }

  /** Work left in spawned tasks: a timer can still turn into a batch. */
  function Work<K, V, E>(s: State<K, V, E>): nat {
    2 * |s.timers| + |s.inFlight|
  }

  /** No lost wakeup: a waiting call always has a task that can still run, and a loader
      without tasks has answered every call. */
  lemma NoLostWakeup<K, V, E>(s: State<K, V, E>, id: nat)
    requires Inv(s) && Conserved(s) && id < |s.asked|
    ensures Waiting(s, id) > 0 ==> Work(s) > 0
    ensures Work(s) == 0 ==> s.pending == [] && Count(ReplyIds(s.replies), id) == 1
  {
    assert Waiting(s, id) + Spent(s, id) == 1;
    if Work(s) == 0 {
      EmptyQueue(s.keys, s.pending, s.asked);
      assert Ids(s.pending) == [];
    }
  }

  /** While work is left a task step is enabled, and every task step reduces the work. */
  lemma TaskProgress<K, V, E>(s: State<K, V, E>, step: Step<K, V, E>, error: E)
    requires Inv(s)
    ensures Work(s) > 0 ==> Enabled(s, TimerFires(0)) || Enabled(s, BatchFailed(0, error))
    ensures Enabled(s, step) && IsTask(step) ==> Work(Next(s, step)) < Work(s)
  {
  }

  /** Draining: a run of task steps alone is no longer than the work at its start, and
      when it cannot be extended every call made so far has been answered exactly once. */
  lemma {:induction false} Draining<K, V, E>(s: State<K, V, E>, steps: seq<Step<K, V, E>>, id: nat)
    requires Inv(s) && Conserved(s) && IsRun(s, steps) && id < |s.asked|
    requires forall i :: 0 <= i < |steps| ==> IsTask(steps[i])
    ensures |steps| + Work(Run(s, steps)) <= Work(s)
    ensures Run(s, steps).asked == s.asked
    ensures Work(Run(s, steps)) == 0 ==> Count(ReplyIds(Run(s, steps).replies), id) == 1
    decreases steps
  {
    if steps == [] {
      NoLostWakeup(s, id);
    } else {
      assert IsTask(steps[0]);
      NextKeepsInv(s, steps[0]);
      NextConserves(s, steps[0]);
      Draining(Next(s, steps[0]), steps[1..], id);
    }
  }

  /** From any run: once its tasks are run until none is left, every call has been answered
      exactly once, and this takes no more task steps than there was work. */
  lemma EveryoneAnswered<K, V, E>(cache: Storage<K, V>, max: nat, steps: seq<Step<K, V, E>>,
                                  drain: seq<Step<K, V, E>>, id: nat)
    requires cache.Valid() && IsRun(Init(cache, max), steps)
    requires
      var s := Run(Init(cache, max), steps);
      && IsRun(s, drain) && (forall i :: 0 <= i < |drain| ==> IsTask(drain[i])) && id < |s.asked|
    ensures
      var s := Run(Init(cache, max), steps);
      && |drain| <= Work(s)
      && (Work(s) > 0 ==> s.registered)
      && (Work(Run(s, drain)) == 0 ==> Count(ReplyIds(Run(s, drain).replies), id) == 1)
  {
    InitHolds<K, V, E>(cache, max);
    RunKeeps(Init(cache, max), steps);
    Draining(Run(Init(cache, max), steps), drain, id);
  }

  // ----- Batch sizes -----

  predicate LoadsAtMost<K, V, E>(steps: seq<Step<K, V, E>>, m: nat) {
    forall i :: 0 <= i < |steps| ==> (steps[i].Load? ==> |SetOf(steps[i].ks)| <= m)
  }

  ghost predicate SmallBatches<K, V>(bs: seq<Batch<K, V>>, bound: nat) {
    forall i :: 0 <= i < |bs| ==> |bs[i].keys| <= bound
  }

  lemma UnionSize<T>(a: set<T>, b: set<T>)
    ensures |a + b| <= |a| + |b|
  {
    assert a + b == a + (b - a);
    assert |b - a| <= |b| by { SubsetSize(b - a, b); }
  }

  lemma SmallBatchesJoin<K, V>(bs: seq<Batch<K, V>>, b: Batch<K, V>, bound: nat)
    requires SmallBatches(bs, bound) && |b.keys| <= bound
    ensures SmallBatches(bs + [b], bound)
  {
  }

  lemma SmallBatchesRemove<K, V>(bs: seq<Batch<K, V>>, i: nat, bound: nat)
    requires SmallBatches(bs, bound) && i < |bs|
    ensures SmallBatches(RemoveAt(bs, i), bound)
  {
  }

  /** A call still needs at most the distinct keys that it asks for. */
  lemma MissingSize<K, V, E>(s: State<K, V, E>, ks: seq<K>, m: nat)
    requires s.cache.Valid() && |SetOf(ks)| <= m
    ensures |Look(s, ks).missing| <= m
  {
    LookFacts(s, ks);
    SubsetSize(Look(s, ks).missing, SetOf(ks));
  }

  lemma EnqueueBatchSize<K, V, E>(s: State<K, V, E>, w: Waiter<K, V>, bound: nat)
    requires SmallBatches(s.inFlight, bound) && |s.keys| + |w.keys| <= bound
    ensures SmallBatches(Enqueue(s, w).inFlight, bound)
  {
    UnionSize(s.keys, w.keys);
    SmallBatchesJoin(s.inFlight, Batch(s.keys + w.keys, s.pending + [w], s.disabledAll), bound);
  }

  /** An immediate batch exceeds `maxBatchSize - 1` by at most the caller's own keys. */
  lemma LoadBatchSize<K, V, E>(s: State<K, V, E>, ks: seq<K>, m: nat)
    requires Inv(s) && s.maxBatchSize >= 1 && |SetOf(ks)| <= m
    requires SmallBatches(s.inFlight, s.maxBatchSize - 1 + m)
    ensures SmallBatches(LoadStep(s, ks).inFlight, s.maxBatchSize - 1 + m)
  {
    MissingSize(s, ks, m);
    var scan := Look(s, ks);
    var s1 := s.(registered := true, cache := scan.cache, asked := s.asked + [ks]);
    if scan.missing != {} {
      EnqueueBatchSize(s1, Waiter(|s.asked|, scan.missing, scan.hits), s.maxBatchSize - 1 + m);
    }
  }

  /** A batch started by a timer stays below the limit. */
  lemma TimerBatchSize<K, V, E>(s: State<K, V, E>, i: nat, m: nat)
    requires Inv(s) && s.maxBatchSize >= 1 && i < |s.timers|
    requires SmallBatches(s.inFlight, s.maxBatchSize - 1 + m)
    ensures SmallBatches(TimerStep(s, i).inFlight, s.maxBatchSize - 1 + m)
    ensures s.keys != {} ==>
              && |TimerStep(s, i).inFlight| == |s.inFlight| + 1
              && |TimerStep(s, i).inFlight[|s.inFlight|].keys| < s.maxBatchSize
  {
    if s.keys != {} {
      SmallBatchesJoin(s.inFlight, Batch(s.keys, s.pending, s.timers[i]), s.maxBatchSize - 1 + m);
    }
  }

  /** One step keeps batches within `maxBatchSize - 1` plus the caller's own keys. */
  lemma NextBatchSize<K, V, E>(s: State<K, V, E>, step: Step<K, V, E>, m: nat)
    requires Inv(s) && Enabled(s, step) && s.maxBatchSize >= 1
    requires step.Load? ==> |SetOf(step.ks)| <= m
    requires SmallBatches(s.inFlight, s.maxBatchSize - 1 + m)
    ensures SmallBatches(Next(s, step).inFlight, s.maxBatchSize - 1 + m)
  {
    match step
    case Load(ks) => LoadBatchSize(s, ks, m);
    case TimerFires(i) => TimerBatchSize(s, i, m);
    case BatchLoaded(i, _) => SmallBatchesRemove(s.inFlight, i, s.maxBatchSize - 1 + m);
    case BatchFailed(i, _) => SmallBatchesRemove(s.inFlight, i, s.maxBatchSize - 1 + m);
    case _ =>
  }

  lemma {:induction false} RunBatchSizes<K, V, E>(s: State<K, V, E>, steps: seq<Step<K, V, E>>, m: nat)
    requires Inv(s) && IsRun(s, steps) && s.maxBatchSize >= 1
    requires LoadsAtMost(steps, m) && SmallBatches(s.inFlight, s.maxBatchSize - 1 + m)
    ensures
      var s' := Run(s, steps);
      s'.maxBatchSize == s.maxBatchSize && Inv(s') && SmallBatches(s'.inFlight, s.maxBatchSize - 1 + m)
    decreases steps
  {
    if steps != [] {
      assert steps[0].Load? ==> |SetOf(steps[0].ks)| <= m;
      NextBatchSize(s, steps[0], m);
      NextKeepsInv(s, steps[0]);
      RunBatchSizes(Next(s, steps[0]), steps[1..], m);
    }
  }

  /** In every run whose calls ask for at most `m` distinct keys, every batch has at most
      `maxBatchSize - 1 + m` keys; runs of single-key loads never exceed the limit. */
  lemma BatchSizes<K, V, E>(s: State<K, V, E>, steps: seq<Step<K, V, E>>, m: nat)
    requires Inv(s) && IsRun(s, steps) && s.maxBatchSize >= 1
    requires LoadsAtMost(steps, m) && SmallBatches(s.inFlight, s.maxBatchSize - 1 + m)
    ensures
      var s' := Run(s, steps);
      && s'.maxBatchSize == s.maxBatchSize
      && |s'.keys| < s.maxBatchSize
      && s'.keys == UnionKeys(s'.pending)
      && SmallBatches(s'.inFlight, s.maxBatchSize - 1 + m)
  {
    RunBatchSizes(s, steps, m);
  }

  // ----- Transparency of caching and batching -----

  /** The data source: what a key maps to, if anything. */
  function Restrict<K, V>(source: K -> Option<V>, ks: set<K>): map<K, V> {
    map k | k in ks && source(k).Some? :: source(k).value
  }

  ghost predicate Agrees<K, V>(source: K -> Option<V>, values: map<K, V>) {
    forall k :: k in values ==> source(k) == Some(values[k])
  }

  ghost predicate PairsAgree<K, V>(source: K -> Option<V>, entries: seq<(K, V)>) {
    forall i :: 0 <= i < |entries| ==> source(entries[i].0) == Some(entries[i].1)
  }

  /** The loader returns at least what the source has for the requested keys (it may add
      more keys), and everything returned or fed is what the source has. */
  ghost predicate Honest<K, V, E>(source: K -> Option<V>, s: State<K, V, E>, step: Step<K, V, E>) {
    match step
    case BatchLoaded(i, entries) =>
      && PairsAgree(source, entries)
      && (i < |s.inFlight| ==>
            forall k :: k in s.inFlight[i].keys && source(k).Some? ==> k in ToMap(entries))
    case Feed(fed) => PairsAgree(source, fed)
    case _ => true
  }

  ghost predicate HonestRun<K, V, E>(source: K -> Option<V>, s: State<K, V, E>, steps: seq<Step<K, V, E>>)
    requires IsRun(s, steps)
    decreases steps
  {
    steps == [] || (Honest(source, s, steps[0]) && HonestRun(source, Next(s, steps[0]), steps[1..]))
  }

  ghost predicate WaitersAgree<K, V>(source: K -> Option<V>, ws: seq<Waiter<K, V>>) {
    forall i :: 0 <= i < |ws| ==> Agrees(source, ws[i].cached)
  }

  ghost predicate BatchesAgree<K, V>(source: K -> Option<V>, bs: seq<Batch<K, V>>) {
    forall i :: 0 <= i < |bs| ==> WaitersAgree(source, bs[i].waiters)
  }

  /** A successful reply carries exactly the source restricted to the requested keys. */
  ghost predicate RepliesExact<K, V, E>(source: K -> Option<V>, s: State<K, V, E>) {
    forall i :: 0 <= i < |s.replies| && s.replies[i].1.Loaded? ==>
      s.replies[i].0 < |s.asked| && s.replies[i].1.values == Restrict(source, SetOf(s.asked[s.replies[i].0]))
  }

  ghost predicate Faithful<K, V, E>(source: K -> Option<V>, s: State<K, V, E>) {
    && Agrees(source, s.cache.Contents())
    && WaitersAgree(source, s.pending)
    && BatchesAgree(source, s.inFlight)
    && RepliesExact(source, s)
  }

  lemma {:induction false} PairsToMap<K, V>(source: K -> Option<V>, entries: seq<(K, V)>)
    requires PairsAgree(source, entries)
    ensures Agrees(source, ToMap(entries))
  {
    if entries != [] {
      PairsToMap(source, entries[1..]);
    }
  }

  lemma InsertAllAgrees<K, V>(source: K -> Option<V>, c: Storage<K, V>, entries: seq<(K, V)>)
    requires c.Valid() && Agrees(source, c.Contents()) && PairsAgree(source, entries)
    ensures Agrees(source, InsertAll(c, entries).Contents())
  {
    var after := InsertAll(c, entries).Contents();
    forall k | k in after ensures source(k) == Some(after[k]) {
      InsertAllContents(c, entries, k);
      if (k, after[k]) in entries {
        var i :| 0 <= i < |entries| && entries[i] == (k, after[k]);
      }
    }
  }

  /** What a queued caller is sent: its cached values and the loaded ones together are
      the source on all the keys it asked for, and nothing else. */
  lemma AnswerExact<K, V>(source: K -> Option<V>, w: Waiter<K, V>, asked: seq<seq<K>>, values: map<K, V>)
    requires Splits(w, asked) && Agrees(source, w.cached) && Agrees(source, values)
    requires forall k :: k in w.keys && source(k).Some? ==> k in values
    ensures Answer(w, values) == Restrict(source, SetOf(asked[w.id]))
  {
  }

  lemma EnqueueFaithful<K, V, E>(source: K -> Option<V>, s: State<K, V, E>, w: Waiter<K, V>)
    requires Faithful(source, s) && Agrees(source, w.cached)
    ensures Faithful(source, Enqueue(s, w))
  {
    var pending := s.pending + [w];
    assert WaitersAgree(source, pending);
    var bs := s.inFlight + [Batch(s.keys + w.keys, pending, s.disabledAll)];
    assert BatchesAgree(source, bs);
  }

  lemma HistoryFaithful<K, V, E>(source: K -> Option<V>, s: State<K, V, E>, ks: seq<K>)
    requires RepliesExact(source, s)
    ensures RepliesExact(source, s.(asked := s.asked + [ks]))
  {
    var asked' := s.asked + [ks];
    assert forall j :: 0 <= j < |s.asked| ==> asked'[j] == s.asked[j];
  }

  lemma LoadFaithful<K, V, E>(source: K -> Option<V>, s: State<K, V, E>, ks: seq<K>)
    requires s.cache.Valid() && Faithful(source, s)
    ensures Faithful(source, LoadStep(s, ks))
  {
    LookFacts(s, ks);
    var scan := Look(s, ks);
    assert Agrees(source, scan.hits);
    HistoryFaithful(source, s, ks);
    var s1 := s.(registered := true, cache := scan.cache, asked := s.asked + [ks]);
    assert RepliesExact(source, s1) by {
      assert s1.asked == s.(asked := s.asked + [ks]).asked;
    }
    if scan.missing == {} {
      assert scan.hits == Restrict(source, SetOf(ks));
    } else {
      EnqueueFaithful(source, s1, Waiter(|s.asked|, scan.missing, scan.hits));
    }
  }

  lemma {:induction false} UnionKeysContains<K, V>(ws: seq<Waiter<K, V>>, j: nat)
    requires j < |ws|
    ensures ws[j].keys <= UnionKeys(ws)
  {
    if j < |ws| - 1 { UnionKeysContains(ws[..|ws| - 1], j); }
  }

  lemma LoadedFaithful<K, V, E>(source: K -> Option<V>, s: State<K, V, E>, i: nat, entries: seq<(K, V)>)
    requires Inv(s) && Faithful(source, s) && i < |s.inFlight|
    requires Honest(source, s, BatchLoaded(i, entries))
    ensures Faithful(source, LoadedStep(s, i, entries))
  {
    InsertAllAgrees(source, s.cache, entries);
    PairsToMap(source, entries);
    var b, values := s.inFlight[i], ToMap(entries);
    var sent: seq<(nat, Reply<K, V, E>)> := LoadedReplies(b.waiters, values);
    forall j | 0 <= j < |b.waiters|
      ensures Splits(b.waiters[j], s.asked)
      ensures Answer(b.waiters[j], values) == Restrict(source, SetOf(s.asked[b.waiters[j].id]))
    {
      UnionKeysContains(b.waiters, j);
      AnswerExact(source, b.waiters[j], s.asked, values);
    }
    assert forall j :: 0 <= j < |sent| ==>
      sent[j] == (b.waiters[j].id, Loaded(Restrict(source, SetOf(s.asked[b.waiters[j].id]))));
  }

  lemma TimerFaithful<K, V, E>(source: K -> Option<V>, s: State<K, V, E>, i: nat)
    requires Faithful(source, s) && i < |s.timers|
    ensures Faithful(source, TimerStep(s, i))
  {
    var bs := s.inFlight + [Batch(s.keys, s.pending, s.timers[i])];
    assert BatchesAgree(source, bs);
  }

  lemma FailedFaithful<K, V, E>(source: K -> Option<V>, s: State<K, V, E>, i: nat, error: E)
    requires Faithful(source, s) && i < |s.inFlight|
    ensures Faithful(source, FailedStep(s, i, error))
  {
    assert BatchesAgree(source, RemoveAt(s.inFlight, i));
  }

  lemma NextFaithful<K, V, E>(source: K -> Option<V>, s: State<K, V, E>, step: Step<K, V, E>)
    requires Inv(s) && Faithful(source, s) && Enabled(s, step) && Honest(source, s, step)
    ensures Faithful(source, Next(s, step))
  {
    match step
    case Load(ks) => LoadFaithful(source, s, ks);
    case TimerFires(i) => TimerFaithful(source, s, i);
    case BatchLoaded(i, entries) => LoadedFaithful(source, s, i, entries);
    case BatchFailed(i, error) => FailedFaithful(source, s, i, error);
    case Feed(fed) => InsertAllAgrees(source, s.cache, fed);
    case ClearCache => ClearedIsEmpty(s.cache);
    case _ =>
  }

  /** Caching and batching are transparent: in every run with an honest loader and honest
      feeds, whatever the cache kind and however calls, clears and switches interleave,
      each successful call returns exactly the source restricted to the keys it asked. */
  lemma {:induction false} RunFaithful<K, V, E>(source: K -> Option<V>, s: State<K, V, E>, steps: seq<Step<K, V, E>>)
    requires Inv(s) && Faithful(source, s)
    requires IsRun(s, steps) && HonestRun(source, s, steps)
    ensures Faithful(source, Run(s, steps))
    decreases steps
  {
    if steps != [] {
      NextKeepsInv(s, steps[0]);
      NextFaithful(source, s, steps[0]);
      RunFaithful(source, Next(s, steps[0]), steps[1..]);
    }
  }

  lemma Transparent<K, V, E>(source: K -> Option<V>, cache: Storage<K, V>, max: nat,
                             steps: seq<Step<K, V, E>>, i: nat)
    requires cache.Valid() && cache.Contents() == map[]
    requires IsRun(Init(cache, max), steps) && HonestRun(source, Init(cache, max), steps)
    ensures
      var s := Run(Init(cache, max), steps);
      i < |s.replies| && s.replies[i].1.Loaded? ==>
        && s.replies[i].0 < |s.asked|
        && s.replies[i].1.values == Restrict(source, SetOf(s.asked[s.replies[i].0]))
  {
    InitHolds<K, V, E>(cache, max);
    RunFaithful(source, Init(cache, max), steps);
  }

  // ----- What the cache and its switches promise -----

  /** With the cache on, a call for keys that a hash-map cache holds is answered at once from
      the cache and leaves no work behind. */
  lemma CachedCallAnsweredAtOnce<K, V, E>(s: State<K, V, E>, ks: seq<K>)
    requires s.cache.Valid() && !s.disabled && !s.disabledAll
    requires forall k :: k in ks ==> k in s.cache.Contents()
    ensures
      var s' := LoadStep(s, ks);
      && Work(s') == Work(s) && s'.pending == s.pending
      && s'.replies == s.replies + [(|s.asked|, Loaded(map k | k in ks :: s.cache.Contents()[k]))]
  {
    LookFacts(s, ks);
    var r := Look(s, ks);
    ScanFacts(Scan(s.cache, {}, map[]), ks);
    SplitFacts(s.cache.Contents(), ks);
    assert r.missing <= s.cache.Contents().Keys;
    assert r.hits == map k | k in ks :: s.cache.Contents()[k];
  }

  /** A call made while the cache is off is given no cached value. */
  lemma OffIgnoresCache<K, V, E>(s: State<K, V, E>, ks: seq<K>)
    requires s.disabled || s.disabledAll
    ensures Look(s, ks).hits == map[] && Look(s, ks).missing == SetOf(ks) && LoadStep(s, ks).cache == s.cache
  {
  }

  /** A returned batch fills a hash-map cache with everything the loader returned, unless the
      cache is off for the key type or was off for the loader when the task was spawned. */
  lemma BatchFillsCache<K, V, E>(s: State<K, V, E>, i: nat, entries: seq<(K, V)>)
    requires s.cache.HashMapCache? && i < |s.inFlight| && UniqueKeys(entries)
    ensures LoadedStep(s, i, entries).cache.Contents() ==
      if s.disabled || s.inFlight[i].uncached then s.cache.Contents() else s.cache.Contents() + ToMap(entries)
  {
    InsertAllHashMap(s.cache, entries);
  }

  lemma {:induction false} InsertAllHashMap<K, V>(c: Storage<K, V>, entries: seq<(K, V)>)
    requires c.HashMapCache? && UniqueKeys(entries)
    ensures InsertAll(c, entries).HashMapCache?
    ensures InsertAll(c, entries).Contents() == c.Contents() + ToMap(entries)
    decreases entries
  {
    if entries != [] {
      var (k, v) := entries[0];
      InsertAllHashMap(c.Insert(k, v), entries[1..]);
      assert k !in ToMap(entries[1..]) by { KeysOf(entries[1..], k); }
    }
  }

  lemma {:induction false} KeysOf<K, V>(entries: seq<(K, V)>, k: K)
    requires forall i :: 0 <= i < |entries| ==> entries[i].0 != k
    ensures k !in ToMap(entries)
  {
    if entries != [] { KeysOf(entries[1..], k); }
  }

  /** The whole loader is off: the switch, and the switch captured by every spawned task. */
  ghost predicate AllOff<K, V, E>(s: State<K, V, E>) {
    && s.disabledAll
    && (forall i :: 0 <= i < |s.timers| ==> s.timers[i])
    && (forall i :: 0 <= i < |s.inFlight| ==> s.inFlight[i].uncached)
  }

  lemma EnqueueStaysOff<K, V, E>(s: State<K, V, E>, w: Waiter<K, V>)
    requires AllOff(s)
    ensures AllOff(Enqueue(s, w)) && Enqueue(s, w).cache == s.cache
  {
    var b := Batch(s.keys + w.keys, s.pending + [w], s.disabledAll);
    var bs := s.inFlight + [b];
    assert forall i :: 0 <= i < |bs| ==> bs[i].uncached;
  }

  lemma LoadStaysOff<K, V, E>(s: State<K, V, E>, ks: seq<K>)
    requires AllOff(s)
    ensures AllOff(LoadStep(s, ks)) && LoadStep(s, ks).cache == s.cache
  {
    OffIgnoresCache(s, ks);
    var scan := Look(s, ks);
    var s1 := s.(registered := true, cache := scan.cache, asked := s.asked + [ks]);
    EnqueueStaysOff(s1, Waiter(|s.asked|, scan.missing, scan.hits));
  }

  lemma TimerStaysOff<K, V, E>(s: State<K, V, E>, i: nat)
    requires AllOff(s) && i < |s.timers|
    ensures AllOff(TimerStep(s, i)) && TimerStep(s, i).cache == s.cache
  {
    var bs := s.inFlight + [Batch(s.keys, s.pending, s.timers[i])];
    assert forall i :: 0 <= i < |bs| ==> bs[i].uncached;
  }

  lemma NextStaysOff<K, V, E>(s: State<K, V, E>, step: Step<K, V, E>)
    requires AllOff(s) && Enabled(s, step) && !step.Feed? && step != EnableAllCache(true)
    ensures AllOff(Next(s, step))
    ensures step.ClearCache? || Next(s, step).cache == s.cache
  {
    match step
    case Load(ks) => LoadStaysOff(s, ks);
    case TimerFires(i) => TimerStaysOff(s, i);
    case _ =>
  }

  /** In every run during which the loader stays switched off and nothing is fed, no batch
      puts anything into the cache, whenever its task was spawned or finishes. */
  lemma {:induction false} OffKeepsCache<K, V, E>(s: State<K, V, E>, steps: seq<Step<K, V, E>>)
    requires AllOff(s) && IsRun(s, steps)
    requires forall i :: 0 <= i < |steps| ==> !steps[i].Feed? && !steps[i].ClearCache? && steps[i] != EnableAllCache(true)
    ensures Run(s, steps).cache == s.cache
    decreases steps
  {
    if steps != [] {
      assert !steps[0].Feed? && !steps[0].ClearCache? && steps[0] != EnableAllCache(true);
      NextStaysOff(s, steps[0]);
      OffKeepsCache(Next(s, steps[0]), steps[1..]);
    }
  }
}
