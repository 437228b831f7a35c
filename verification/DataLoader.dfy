/** The data loader object: its critical sections, written with the loops and updates of
    the source and proved to be the steps of the batching protocol. */
module DataLoader {
  import opened Wrappers
  import opened CacheStorage
  import opened BatchProtocol
  import opened BatchTheorems

  datatype Action<K(==), V> =
    | ImmediateLoad(keys: set<K>, waiters: seq<Waiter<K, V>>)
    | StartFetch
    | Delay

  class DataLoader<K(==), V, E> {
    const maxBatchSize: nat
    const cache: Cache<K, V>
    var disabledAll: bool

    // The `Requests` entry of the key type.
    var registered: bool
    var keys: set<K>
    var pending: seq<Waiter<K, V>>
    var disabled: bool

    // Tasks handed to the spawner that have not finished.
    var timers: seq<bool>
    var inFlight: seq<Batch<K, V>>

    // What was sent over the channels, and the history of calls.
    var replies: seq<(nat, Reply<K, V, E>)>
    var calls: nat
    ghost var asked: seq<seq<K>>
    ghost var dropped: seq<nat>
    ghost var cancelled: set<nat>

    ghost function View(): State<K, V, E>
      reads this, cache
    {
      State(registered, keys, pending, cache.store, disabled, disabledAll, maxBatchSize,
            timers, inFlight, asked, replies, dropped, cancelled)
    }

    /** Every state of the object is one that the protocol theorems speak about. */
    ghost predicate Valid()
      reads this, cache
    {
      calls == |asked| && Inv(View()) && Conserved(View())
    }

    constructor (initial: Storage<K, V>, maxBatchSize: nat)
      requires initial.Valid()
      ensures Valid() && fresh(cache) && View() == Init(initial, maxBatchSize)
    {
      this.maxBatchSize := maxBatchSize;
      cache := new Cache(initial);
      disabledAll, registered, disabled := false, false, false;
      keys, pending, timers, inFlight, replies, calls := {}, [], [], [], [], 0;
      asked, dropped, cancelled := [], [], {};
      new;
      InitHolds<K, V, E>(initial, maxBatchSize);
    }

    method Take() returns (ks: set<K>, ws: seq<Waiter<K, V>>)
      modifies this`keys, this`pending
      ensures ks == old(keys) && ws == old(pending)
      ensures keys == {} && pending == []
    {
      ks, ws := keys, pending;
      keys, pending := {}, [];
    }

    /** The cache pass of a call. */
    method LookUp(ks: seq<K>) returns (missing: set<K>, hits: map<K, V>)
      requires cache.store.Valid()
      modifies cache
      ensures Scan(cache.store, missing, hits) == Look(old(View()), ks)
    {
      missing, hits := {}, map[];
      if disabled || disabledAll {
        missing := SetOf(ks);
      } else {
        for i := 0 to |ks|
          invariant cache.store.Valid()
          invariant ScanKeys(Scan(cache.store, missing, hits), ks[i..])
                 == ScanKeys(Scan(old(cache.store), {}, map[]), ks)
        {
          assert ks[i..][0] == ks[i] && ks[i..][1..] == ks[i + 1..];
          ghost var before := cache.store;
          GetContract(before, ks[i]);
          var hit := cache.Get(ks[i]);
          assert hit == before.Lookup(ks[i]);
          if hit.Some? {
            hits := hits[ks[i] := hit.value];
          } else {
            missing := missing + {ks[i]};
          }
        }
      }
    }

    /** The second half of a call that still needs keys: join the queue, decide under the
        lock what to do, and spawn the task that the decision asks for. */
    method Submit(id: nat, missing: set<K>, hits: map<K, V>)
      modifies this`keys, this`pending, this`inFlight, this`timers
      ensures View() == Enqueue(old(View()), Waiter(id, missing, hits))
    {
      var prevCount := |keys|;
      keys := keys + missing;
      pending := pending + [Waiter(id, missing, hits)];
      var action;
      if |keys| >= maxBatchSize {
        var ks, ws := Take();
        action := ImmediateLoad(ks, ws);
      } else if keys != {} && prevCount == 0 {
        action := StartFetch;
      } else {
        action := Delay;
      }

      match action
      case ImmediateLoad(ks, ws) => inFlight := inFlight + [Batch(ks, ws, disabledAll)];
      case StartFetch => timers := timers + [disabledAll];
      case Delay =>
    }

    method Register(ks: seq<K>)
      requires cache.store.Valid() && calls == |asked|
      modifies this, cache
      ensures View() == LoadStep(old(View()), ks) && calls == |asked|
    {
      ghost var s := View();
      registered := true;
      var id := calls;
      calls, asked := calls + 1, asked + [ks];
      var missing, hits := LookUp(ks);
      assert Scan(cache.store, missing, hits) == Look(s, ks);
      if missing == {} {
        // Everything was cached, or nothing was asked for.
        var known := if |hits| != 0 then hits else map[];
        assert known == hits;
        replies := replies + [(id, Loaded(known))];
      } else {
        Submit(id, missing, hits);
      }
    }

    /** A call: returns its number; its reply, if already known, is the last one sent. */
    method LoadMany(ks: seq<K>) returns (id: nat)
      requires Valid()
      modifies this, cache
      ensures Valid() && View() == Next(old(View()), Load(ks)) && id == old(calls)
    {
      NextKeepsInv(View(), Load(ks));
      NextConserves(View(), Load(ks));
      id := calls;
      Register(ks);
    }

    method WakeUp(i: nat)
      requires i < |timers|
      modifies this
      ensures View() == TimerStep(old(View()), i) && calls == old(calls)
    {
      var uncached := timers[i];
      timers := RemoveAt(timers, i);
      var ks, ws := Take();
      if ks != {} {
        inFlight := inFlight + [Batch(ks, ws, uncached)];
      } else {
        dropped := dropped + Ids(ws);
      }
    }

    /** A sleeping fetch task wakes up. */
    method FireTimer(i: nat)
      requires Valid() && i < |timers|
      modifies this
      ensures Valid() && View() == Next(old(View()), TimerFires(i))
    {
      NextKeepsInv(View(), TimerFires(i));
      NextConserves(View(), TimerFires(i));
      WakeUp(i);
    }

    /** The answer for one caller, assembled key by key. */
    static method Assemble(w: Waiter<K, V>, values: map<K, V>) returns (res: map<K, V>)
      ensures res == Answer(w, values)
    {
      res := w.cached;
      var todo := w.keys;
      while todo != {}
        invariant todo <= w.keys
        invariant res == w.cached + map k | k in w.keys - todo && k in values :: values[k]
        decreases todo
      {
        var key :| key in todo;
        if key in values {
          res := res[key := values[key]];
        }
        todo := todo - {key};
      }
      assert w.keys - todo == w.keys;
    }

    /** Send every caller of a batch its answer. */
    method SendAll(batch: Batch<K, V>, values: map<K, V>)
      modifies this`replies
      ensures replies == old(replies) + LoadedReplies(batch.waiters, values)
    {
      ghost var all: seq<(nat, Reply<K, V, E>)> := LoadedReplies(batch.waiters, values);
      for j := 0 to |batch.waiters|
        invariant replies == old(replies) + all[..j]
      {
        var res := Assemble(batch.waiters[j], values);
        replies := replies + [(batch.waiters[j].id, Loaded(res))];
        assert all[..j + 1] == all[..j] + [all[j]];
      }
      assert all[..|batch.waiters|] == all;
    }

    /** `do_load` once the loader has returned: fill the cache unless it is switched off, then
        answer every caller. `entries` is the returned map in its iteration order. */
    method Deliver(i: nat, entries: seq<(K, V)>)
      requires cache.store.Valid() && i < |inFlight|
      modifies this, cache
      ensures View() == LoadedStep(old(View()), i, entries) && calls == old(calls)
    {
      var batch := inFlight[i];
      inFlight := RemoveAt(inFlight, i);
      if !(disabled || batch.uncached) {
        StoreAll(entries);
      }
      SendAll(batch, ToMap(entries));
    }

    method Complete(i: nat, entries: seq<(K, V)>)
      requires Valid() && i < |inFlight| && UniqueKeys(entries)
      modifies this, cache
      ensures Valid() && View() == Next(old(View()), BatchLoaded(i, entries))
    {
      NextKeepsInv(View(), BatchLoaded(i, entries));
      NextConserves(View(), BatchLoaded(i, entries));
      Deliver(i, entries);
    }

    method StoreAll(entries: seq<(K, V)>)
      requires cache.store.Valid()
      modifies cache
      ensures cache.store == InsertAll(old(cache.store), entries) && cache.store.Valid()
    {
      for j := 0 to |entries|
        invariant cache.store.Valid()
        invariant InsertAll(cache.store, entries[j..]) == InsertAll(old(cache.store), entries)
      {
        assert entries[j..][0] == entries[j] && entries[j..][1..] == entries[j + 1..];
        cache.Insert(entries[j].0, entries[j].1);
      }
    }

    method SendError(batch: Batch<K, V>, error: E)
      modifies this`replies
      ensures replies == old(replies) + FailedReplies(batch.waiters, error)
    {
      ghost var all: seq<(nat, Reply<K, V, E>)> := FailedReplies(batch.waiters, error);
      for j := 0 to |batch.waiters|
        invariant replies == old(replies) + all[..j]
      {
        replies := replies + [(batch.waiters[j].id, Failed(error))];
        assert all[..j + 1] == all[..j] + [all[j]];
      }
      assert all[..|batch.waiters|] == all;
    }

    /** `do_load` once the loader has failed: every caller of the batch gets the error. */
    method Fail(i: nat, error: E)
      requires Valid() && i < |inFlight|
      modifies this
      ensures Valid() && View() == Next(old(View()), BatchFailed(i, error))
    {
      ghost var s := View();
      NextKeepsInv(s, BatchFailed(i, error));
      NextConserves(s, BatchFailed(i, error));
      var batch := inFlight[i];
      inFlight := RemoveAt(inFlight, i);
      SendError(batch, error);
      assert View() == FailedStep(s, i, error);
    }

    method FeedMany(fed: seq<(K, V)>)
      requires Valid()
      modifies this, cache
      ensures Valid() && View() == Next(old(View()), Feed(fed))
    {
      NextKeepsInv(View(), Feed(fed));
      NextConserves(View(), Feed(fed));
      registered := true;
      StoreAll(fed);
    }

    method Clear()
      requires Valid()
      modifies this, cache
      ensures Valid() && View() == Next(old(View()), ClearCache)
      ensures cache.store.Contents() == map[]
    {
      NextKeepsInv(View(), ClearCache);
      NextConserves(View(), ClearCache);
      registered := true;
      cache.Clear();
    }

    method EnableCache(enable: bool)
      requires Valid() && registered
      modifies this
      ensures Valid() && View() == Next(old(View()), Step.EnableCache(enable))
    {
      NextConserves(View(), Step.EnableCache(enable));
      disabled := !enable;
    }

    method EnableAllCache(enable: bool)
      requires Valid()
      modifies this
      ensures Valid() && View() == Next(old(View()), Step.EnableAllCache(enable))
    {
      NextConserves(View(), Step.EnableAllCache(enable));
      disabledAll := !enable;
    }

    /** What `load_one` hands back from the reply to its single-key call. */
    static function One(reply: Reply<K, V, E>, key: K): Result<Option<V>, E> {
      match reply
      case Loaded(values) => Ok(if key in values then Some(values[key]) else None)
      case Failed(error) => Err(error)
    }
  }

  /** A successful `load_one(key)` returns what the data source has for the key, in every
      run with an honest loader. */
  lemma LoadOneExact<K, V, E>(source: K -> Option<V>, cache: Storage<K, V>, max: nat,
                              steps: seq<Step<K, V, E>>, i: nat, key: K)
    requires cache.Valid() && cache.Contents() == map[]
    requires IsRun(Init(cache, max), steps) && HonestRun(source, Init(cache, max), steps)
    requires
      var s := Run(Init(cache, max), steps);
      i < |s.replies| && s.replies[i].0 < |s.asked| && s.asked[s.replies[i].0] == [key]
    ensures
      var reply := Run(Init(cache, max), steps).replies[i].1;
      reply.Loaded? ==> DataLoader.One(reply, key) == Ok(source(key))
  {
    Transparent(source, cache, max, steps, i);
    assert key in SetOf([key]);
  }
}
