/** The batching protocol of the data loader as a state machine.

    One state holds the shared `Requests` entry of a key type, the two cache switches,
    the spawned tasks that have not finished (sleeping fetch timers and batches whose
    loader call is in flight) and the history needed to state what callers observe.
    Every step is one critical section of the source. */
module BatchProtocol {
  import opened Wrappers
  import opened CacheStorage

  /** A caller in `pending`: the keys it still needs, the cached values it already has,
      and the sending half of its channel, identified by the number of the call. */
  datatype Waiter<K(==), V> = Waiter(id: nat, keys: set<K>, cached: map<K, V>)

  /** A batch handed to the loader; `uncached` is the switch captured at spawn time. */
  datatype Batch<K(==), V> = Batch(keys: set<K>, waiters: seq<Waiter<K, V>>, uncached: bool)

  datatype Reply<K(==), V, E> = Loaded(values: map<K, V>) | Failed(error: E)

  datatype State<K(==), V, E> = State(
    registered: bool,                     // the entry for this key type exists
    keys: set<K>,
    pending: seq<Waiter<K, V>>,
    cache: Storage<K, V>,
    disabled: bool,                       // switch of this key type
    disabledAll: bool,                    // switch of the whole loader
    maxBatchSize: nat,
    timers: seq<bool>,                    // sleeping fetch tasks, with their captured switch
    inFlight: seq<Batch<K, V>>,
    asked: seq<seq<K>>,                   // the keys of every call so far
    replies: seq<(nat, Reply<K, V, E>)>,  // values sent, in order
    dropped: seq<nat>,                    // senders destroyed without sending
    cancelled: set<nat>)                  // receivers dropped by their caller

  datatype Step<K(==), V, E> =
    | Load(ks: seq<K>)
    | TimerFires(timer: nat)
    | BatchLoaded(batch: nat, entries: seq<(K, V)>)  // the returned map, in iteration order
    | BatchFailed(failed: nat, error: E)
    | Feed(fed: seq<(K, V)>)
    | ClearCache
    | EnableCache(enable: bool)
    | EnableAllCache(enableAll: bool)
    | Cancel(caller: nat)

  function SetOf<T>(s: seq<T>): set<T> {
    set x | x in s
  }

  function RemoveAt<T>(s: seq<T>, i: nat): seq<T>
    requires i < |s|
  {
    s[..i] + s[i + 1..]
  }

  function Init<K, V, E>(cache: Storage<K, V>, maxBatchSize: nat): State<K, V, E> {
    State(false, {}, [], cache, false, false, maxBatchSize, [], [], [], [], [], {})
  }

  // ----- Steps -----

  datatype Scan<K(==), V> = Scan(cache: Storage<K, V>, missing: set<K>, hits: map<K, V>)

  /** The cache pass over the requested keys, in request order. */
  function ScanKeys<K, V>(from: Scan<K, V>, ks: seq<K>): Scan<K, V>
    decreases ks
  {
    if ks == [] then from
    else
      var hit := from.cache.Lookup(ks[0]);
      var touched := from.cache.Touch(ks[0]);
      ScanKeys(if hit.Some? then Scan(touched, from.missing, from.hits[ks[0] := hit.value])
               else Scan(touched, from.missing + {ks[0]}, from.hits), ks[1..])
  }

  function Look<K, V, E>(s: State<K, V, E>, ks: seq<K>): Scan<K, V> {
    if s.disabled || s.disabledAll then Scan(s.cache, SetOf(ks), map[])
    else ScanKeys(Scan(s.cache, {}, map[]), ks)
  }

  /** A call that still needs keys: join the queue, then either hand the whole queue to
      the loader or make sure that a fetch task is asleep. */
  function Enqueue<K, V, E>(s: State<K, V, E>, w: Waiter<K, V>): State<K, V, E> {
    var keys := s.keys + w.keys;
    var pending := s.pending + [w];
    if |keys| >= s.maxBatchSize then
      s.(keys := {}, pending := [], inFlight := s.inFlight + [Batch(keys, pending, s.disabledAll)])
    else if keys != {} && |s.keys| == 0 then
      s.(keys := keys, pending := pending, timers := s.timers + [s.disabledAll])
    else
      s.(keys := keys, pending := pending)
  }

  function LoadStep<K, V, E>(s: State<K, V, E>, ks: seq<K>): State<K, V, E> {
    var scan := Look(s, ks);
    var id := |s.asked|;
    var s1 := s.(registered := true, cache := scan.cache, asked := s.asked + [ks]);
    if scan.missing == {} then s1.(replies := s1.replies + [(id, Loaded(scan.hits))])
    else Enqueue(s1, Waiter(id, scan.missing, scan.hits))
  }

  function Ids<K, V>(ws: seq<Waiter<K, V>>): seq<nat> {
    seq(|ws|, i requires 0 <= i < |ws| => ws[i].id)
  }

  function TimerStep<K, V, E>(s: State<K, V, E>, i: nat): State<K, V, E>
    requires i < |s.timers|
  {
    var s1 := s.(keys := {}, pending := [], timers := RemoveAt(s.timers, i));
    if s.keys != {} then s1.(inFlight := s.inFlight + [Batch(s.keys, s.pending, s.timers[i])])
    else s1.(dropped := s.dropped + Ids(s.pending))
  }

  function Answer<K, V>(w: Waiter<K, V>, values: map<K, V>): map<K, V> {
    w.cached + map k | k in w.keys && k in values :: values[k]
  }

  function LoadedReplies<K, V, E>(ws: seq<Waiter<K, V>>, values: map<K, V>): seq<(nat, Reply<K, V, E>)> {
    seq(|ws|, i requires 0 <= i < |ws| => (ws[i].id, Loaded(Answer(ws[i], values))))
  }

  function FailedReplies<K, V, E>(ws: seq<Waiter<K, V>>, error: E): seq<(nat, Reply<K, V, E>)> {
    seq(|ws|, i requires 0 <= i < |ws| => (ws[i].id, Failed(error)))
  }

  function LoadedStep<K, V, E>(s: State<K, V, E>, i: nat, entries: seq<(K, V)>): State<K, V, E>
    requires i < |s.inFlight| && s.cache.Valid()
  {
    var b := s.inFlight[i];
    s.(cache := if s.disabled || b.uncached then s.cache else InsertAll(s.cache, entries),
       inFlight := RemoveAt(s.inFlight, i),
       replies := s.replies + LoadedReplies(b.waiters, ToMap(entries)))
  }

  function FailedStep<K, V, E>(s: State<K, V, E>, i: nat, error: E): State<K, V, E>
    requires i < |s.inFlight|
  {
    s.(inFlight := RemoveAt(s.inFlight, i),
       replies := s.replies + FailedReplies(s.inFlight[i].waiters, error))
  }

  /** A step can be taken when the task it runs exists; `EnableCache` panics before the
      key type was used for the first time. A returned map lists each key once. */
  predicate Enabled<K, V, E>(s: State<K, V, E>, step: Step<K, V, E>) {
    s.cache.Valid() &&
    match step
    case TimerFires(i) => i < |s.timers|
    case BatchLoaded(i, entries) => i < |s.inFlight| && UniqueKeys(entries)
    case BatchFailed(i, _) => i < |s.inFlight|
    case EnableCache(_) => s.registered
    case Cancel(id) => id < |s.asked|
    case _ => true
  }

  function Next<K, V, E>(s: State<K, V, E>, step: Step<K, V, E>): State<K, V, E>
    requires Enabled(s, step)
  {
    match step
    case Load(ks) => LoadStep(s, ks)
    case TimerFires(i) => TimerStep(s, i)
    case BatchLoaded(i, entries) => LoadedStep(s, i, entries)
    case BatchFailed(i, error) => FailedStep(s, i, error)
    case Feed(fed) => s.(registered := true, cache := InsertAll(s.cache, fed))
    case ClearCache => s.(registered := true, cache := s.cache.Clear())
    case EnableCache(enable) => s.(disabled := !enable)
    case EnableAllCache(enable) => s.(disabledAll := !enable)
    case Cancel(id) => s.(cancelled := s.cancelled + {id})
  }

  /** Runs: every sequence of enabled steps. */
  predicate IsRun<K, V, E>(s: State<K, V, E>, steps: seq<Step<K, V, E>>)
    decreases steps
  {
    steps == [] || (Enabled(s, steps[0]) && IsRun(Next(s, steps[0]), steps[1..]))
  }

  function Run<K, V, E>(s: State<K, V, E>, steps: seq<Step<K, V, E>>): State<K, V, E>
    requires IsRun(s, steps)
    decreases steps
  {
    if steps == [] then s else Run(Next(s, steps[0]), steps[1..])
  }

  // ----- Who holds which sender -----

  function Count(ids: seq<nat>, id: nat): nat {
    if ids == [] then 0 else (if ids[0] == id then 1 else 0) + Count(ids[1..], id)
  }

  function CountInBatches<K, V>(bs: seq<Batch<K, V>>, id: nat): nat {
    if bs == [] then 0 else Count(Ids(bs[0].waiters), id) + CountInBatches(bs[1..], id)
  }

  function ReplyIds<K, V, E>(rs: seq<(nat, Reply<K, V, E>)>): seq<nat> {
    seq(|rs|, i requires 0 <= i < |rs| => rs[i].0)
  }

  /** How often the sender of call `id` is still waiting to be used. */
  function Waiting<K, V, E>(s: State<K, V, E>, id: nat): nat {
    Count(Ids(s.pending), id) + CountInBatches(s.inFlight, id)
  }

  /** How often the sender of call `id` was used up, by sending or by being dropped. */
  function Spent<K, V, E>(s: State<K, V, E>, id: nat): nat {
    Count(ReplyIds(s.replies), id) + Count(s.dropped, id)
  }

  lemma {:induction false} CountConcat(a: seq<nat>, b: seq<nat>, id: nat)
    ensures Count(a + b, id) == Count(a, id) + Count(b, id)
  {
    if a == [] {
      assert a + b == b;
    } else {
      CountConcat(a[1..], b, id);
      assert (a + b)[1..] == a[1..] + b;
    }
  }

  lemma {:induction false} CountMember(ids: seq<nat>, id: nat)
    ensures Count(ids, id) > 0 <==> id in ids
  {
    if ids != [] { CountMember(ids[1..], id); }
  }

  lemma {:induction false} CountInBatchesAppend<K, V>(bs: seq<Batch<K, V>>, b: Batch<K, V>, id: nat)
    ensures CountInBatches(bs + [b], id) == CountInBatches(bs, id) + Count(Ids(b.waiters), id)
  {
    var all := bs + [b];
    if bs == [] {
      assert all[1..] == [];
    } else {
      CountInBatchesAppend(bs[1..], b, id);
      assert all[0] == bs[0] && all[1..] == bs[1..] + [b];
    }
  }

  lemma {:induction false} CountInBatchesRemove<K, V>(bs: seq<Batch<K, V>>, i: nat, id: nat)
    requires i < |bs|
    ensures CountInBatches(bs, id) == CountInBatches(RemoveAt(bs, i), id) + Count(Ids(bs[i].waiters), id)
  {
    var rest := RemoveAt(bs, i);
    if i == 0 {
      assert rest == bs[1..];
    } else {
      CountInBatchesRemove(bs[1..], i - 1, id);
      assert rest[0] == bs[0] && rest[1..] == RemoveAt(bs[1..], i - 1);
    }
  }

  // ----- Invariant -----

  function UnionKeys<K, V>(ws: seq<Waiter<K, V>>): set<K> {
    if ws == [] then {} else UnionKeys(ws[..|ws| - 1]) + ws[|ws| - 1].keys
  }

  /** What a queued caller holds and what it waits for make up exactly what it asked. */
  ghost predicate Splits<K, V>(w: Waiter<K, V>, asked: seq<seq<K>>) {
    && w.id < |asked|
    && w.keys !! w.cached.Keys
    && w.keys + w.cached.Keys == SetOf(asked[w.id])
  }

  /** `keys` is the union of the key sets in the queue, and none of them is empty. */
  ghost predicate Queue<K, V>(keys: set<K>, ws: seq<Waiter<K, V>>, asked: seq<seq<K>>) {
    && keys == UnionKeys(ws)
    && forall i :: 0 <= i < |ws| ==> ws[i].keys != {} && Splits(ws[i], asked)
  }

  ghost predicate Batches<K, V>(bs: seq<Batch<K, V>>, asked: seq<seq<K>>) {
    forall i :: 0 <= i < |bs| ==> bs[i].waiters != [] && Queue(bs[i].keys, bs[i].waiters, asked)
  }

  /** The shape of the queue and of the outstanding tasks. */
  ghost predicate Inv<K, V, E>(s: State<K, V, E>) {
    && s.cache.Valid()
    && Queue(s.keys, s.pending, s.asked)
    && Batches(s.inFlight, s.asked)
    && (s.keys != {} ==> s.timers != [])                                    // no lost wakeup
    && (s.keys == {} || |s.keys| < s.maxBatchSize)
    && (s.timers != [] || s.inFlight != [] ==> s.registered)                // tasks find their entry
  }

  /** Exactly one sender per call: waiting in one place, or used exactly once to send. */
  ghost predicate Conserved<K, V, E>(s: State<K, V, E>) {
    && s.dropped == []
    && forall id: nat :: Waiting(s, id) + Spent(s, id) == if id < |s.asked| then 1 else 0
  }
}
