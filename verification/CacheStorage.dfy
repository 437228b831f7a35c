/** The cache storages of the data loader: no cache, a hash map, and an LRU cache.
    The three kinds share one contract, stated below in terms of the pairs that
    `Get` can still observe. */
module CacheStorage {
  import opened Wrappers

  datatype Storage<K(==), V> =
    | NoCache
    | HashMapCache(entries: map<K, V>)
    | LruCache(cap: nat, recent: seq<(K, V)>)  // most recently used first
  {
    predicate Valid() {
      LruCache? ==> 0 < cap && |recent| <= cap && UniqueKeys(recent)
    }

    /** The key-value pairs that `Iter` enumerates. */
    function Contents(): map<K, V> {
      match this
      case NoCache => map[]
      case HashMapCache(entries) => entries
      case LruCache(_, recent) => ToMap(recent)
    }

    function Lookup(k: K): Option<V> {
      match this
      case NoCache => None
      case HashMapCache(entries) => if k in entries then Some(entries[k]) else None
      case LruCache(_, recent) => Find(recent, k)
    }

    /** The effect of a `get`: an LRU cache moves a hit to the front. */
    function Touch(k: K): Storage<K, V> {
      match this
      case LruCache(cap, recent) =>
        var hit := Find(recent, k);
        if hit.Some? then LruCache(cap, [(k, hit.value)] + Without(recent, k)) else this
      case _ => this
    }

    function Insert(k: K, v: V): Storage<K, V>
      requires Valid()
    {
      match this
      case NoCache => NoCache
      case HashMapCache(entries) => HashMapCache(entries[k := v])
      case LruCache(cap, recent) =>
        var others := Without(recent, k);
        LruCache(cap, [(k, v)] + if |others| < cap then others else others[..cap - 1])
    }

    function Remove(k: K): Storage<K, V> {
      match this
      case NoCache => NoCache
      case HashMapCache(entries) => HashMapCache(entries - {k})
      case LruCache(cap, recent) => LruCache(cap, Without(recent, k))
    }

    function Clear(): Storage<K, V> {
      match this
      case NoCache => NoCache
      case HashMapCache(_) => HashMapCache(map[])
      case LruCache(cap, _) => LruCache(cap, [])
    }
  }

  predicate UniqueKeys<K(==), V>(s: seq<(K, V)>) {
    forall i, j :: 0 <= i < j < |s| ==> s[i].0 != s[j].0
  }

  function ToMap<K(==), V>(s: seq<(K, V)>): map<K, V> {
    if s == [] then map[] else ToMap(s[1..])[s[0].0 := s[0].1]
  }

  function Find<K(==), V>(s: seq<(K, V)>, k: K): Option<V> {
    if s == [] then None
    else if s[0].0 == k then Some(s[0].1)
    else Find(s[1..], k)
  }

  function Without<K(==), V>(s: seq<(K, V)>, k: K): seq<(K, V)> {
    if s == [] then []
    else if s[0].0 == k then Without(s[1..], k)
    else [s[0]] + Without(s[1..], k)
  }

  /** Inserts pairs one after another. */
  function InsertAll<K, V>(s: Storage<K, V>, entries: seq<(K, V)>): (r: Storage<K, V>)
    requires s.Valid()
    ensures r.Valid()
    decreases entries
  {
    if entries == [] then s
    else
      InsertContract(s, entries[0].0, entries[0].1);
      InsertAll(s.Insert(entries[0].0, entries[0].1), entries[1..])
  }

  lemma FindIsLookup<K, V>(s: seq<(K, V)>, k: K)
    ensures Find(s, k) == if k in ToMap(s) then Some(ToMap(s)[k]) else None
  {
  }

  lemma {:induction false} WithoutContents<K, V>(s: seq<(K, V)>, k: K)
    ensures ToMap(Without(s, k)) == ToMap(s) - {k} && |Without(s, k)| <= |s|
  {
    if s != [] {
      WithoutContents(s[1..], k);
      var w := [s[0]] + Without(s[1..], k);
      assert w[0] == s[0] && w[1..] == Without(s[1..], k);
    }
  }

  lemma {:induction false} WithoutMembers<K, V>(s: seq<(K, V)>, k: K)
    ensures forall p :: p in Without(s, k) ==> p in s && p.0 != k
  {
    if s != [] { WithoutMembers(s[1..], k); }
  }

  lemma {:induction false} WithoutUnique<K, V>(s: seq<(K, V)>, k: K)
    requires UniqueKeys(s)
    ensures UniqueKeys(Without(s, k))
  {
    if s != [] {
      var rest := Without(s[1..], k);
      WithoutUnique(s[1..], k);
      WithoutMembers(s[1..], k);
      forall q | q in rest ensures q.0 != s[0].0 {
        var m :| 0 <= m < |s[1..]| && s[1..][m] == q;
        assert s[m + 1] == q;
      }
      TailUnique(s[0], rest);
    }
  }

  lemma WithoutRemoves<K, V>(s: seq<(K, V)>, k: K)
    ensures ToMap(Without(s, k)) == ToMap(s) - {k} && |Without(s, k)| <= |s|
    ensures forall p :: p in Without(s, k) ==> p in s && p.0 != k
    ensures UniqueKeys(s) ==> UniqueKeys(Without(s, k))
  {
    WithoutContents(s, k);
    WithoutMembers(s, k);
    if UniqueKeys(s) { WithoutUnique(s, k); }
  }

  lemma {:induction false} PrefixContents<K, V>(s: seq<(K, V)>, n: nat)
    requires n <= |s| && UniqueKeys(s)
    ensures ToMap(s[..n]).Keys <= ToMap(s).Keys
    ensures forall k :: k in ToMap(s[..n]) ==> ToMap(s[..n])[k] == ToMap(s)[k]
    ensures UniqueKeys(s[..n])
  {
    if n != 0 {
      PrefixContents(s[1..], n - 1);
      assert s[..n][0] == s[0] && s[..n][1..] == s[1..][..n - 1];
    }
  }

  /** Looking a key up is answered from the observable pairs and changes none of them. */
  lemma GetContract<K, V>(s: Storage<K, V>, k: K)
    requires s.Valid()
    ensures s.Lookup(k) == if k in s.Contents() then Some(s.Contents()[k]) else None
    ensures s.Touch(k).Valid() && s.Touch(k).Contents() == s.Contents()
  {
    if s.LruCache? {
      FindIsLookup(s.recent, k);
      if Find(s.recent, k).Some? {
        WithoutRemoves(s.recent, k);
        FoundKeyShrinks(s.recent, k);
        var w := Without(s.recent, k);
        var t := s.Touch(k).recent;
        assert t[0] == (k, Find(s.recent, k).value) && t[1..] == w;
        TailUnique(t[0], w);
      }
    }
  }

  lemma {:induction false} FoundKeyShrinks<K, V>(s: seq<(K, V)>, k: K)
    requires Find(s, k).Some?
    ensures |Without(s, k)| < |s|
  {
    if s[0].0 == k {
      WithoutRemoves(s[1..], k);
    } else {
      FoundKeyShrinks(s[1..], k);
    }
  }

  lemma TailUnique<K, V>(p: (K, V), s: seq<(K, V)>)
    requires UniqueKeys(s) && forall q :: q in s ==> q.0 != p.0
    ensures UniqueKeys([p] + s)
  {
    var t := [p] + s;
    forall i, j | 0 <= i < j < |t| ensures t[i].0 != t[j].0 {
      assert t[j] == s[j - 1] && t[j] in s;
    }
  }

  lemma {:induction false} WithoutAbsent<K, V>(s: seq<(K, V)>, k: K)
    requires k !in ToMap(s)
    ensures Without(s, k) == s
  {
    if s != [] { WithoutAbsent(s[1..], k); }
  }

  /** Dropping the last pair takes exactly its key out of the contents. */
  lemma {:induction false} DropLast<K, V>(s: seq<(K, V)>)
    requires s != [] && UniqueKeys(s)
    ensures ToMap(s[..|s| - 1]) == ToMap(s) - {s[|s| - 1].0}
  {
    var init := s[..|s| - 1];
    if |s| > 1 {
      var rest := s[1..];
      DropLast(rest);
      assert init[0] == s[0] && init[1..] == rest[..|rest| - 1];
      assert rest[|rest| - 1] == s[|s| - 1];
    }
  }

  /** The pair that a full LRU cache gives up for a new key: the one used longest ago. */
  lemma EvictsOldest<K, V>(s: Storage<K, V>, k: K, v: V)
    requires s.Valid() && s.LruCache? && k !in s.Contents() && |s.recent| == s.cap
    ensures s.Insert(k, v).Contents() == (s.Contents() - {s.recent[s.cap - 1].0})[k := v]
  {
    WithoutAbsent(s.recent, k);
    DropLast(s.recent);
    var t := s.Insert(k, v).recent;
    assert t[1..] == s.recent[..s.cap - 1];
  }

  /** An insertion adds at most the given pair and invents nothing; a hash map or an
      LRU cache then holds the pair, a hash map forgets nothing else, and an LRU cache
      forgets only when it is full, and then only the pair used longest ago. */
  lemma InsertContract<K, V>(s: Storage<K, V>, k: K, v: V)
    requires s.Valid()
    ensures s.Insert(k, v).Valid()
    ensures forall x :: x in s.Insert(k, v).Contents() ==>
              if x == k then s.Insert(k, v).Contents()[x] == v
              else x in s.Contents() && s.Insert(k, v).Contents()[x] == s.Contents()[x]
    ensures !s.NoCache? ==> k in s.Insert(k, v).Contents()
    ensures s.HashMapCache? ==> s.Insert(k, v).Contents() == s.Contents()[k := v]
    ensures s.LruCache? && (k in s.Contents() || |s.recent| < s.cap) ==>
              s.Insert(k, v).Contents() == s.Contents()[k := v]
    ensures s.LruCache? && k !in s.Contents() && |s.recent| == s.cap ==>
              s.Insert(k, v).Contents() == (s.Contents() - {s.recent[s.cap - 1].0})[k := v]
  {
    if s.LruCache? {
      if k !in s.Contents() && |s.recent| == s.cap { EvictsOldest(s, k, v); }
      var w := Without(s.recent, k);
      WithoutRemoves(s.recent, k);
      FindIsLookup(s.recent, k);
      if k in s.Contents() { FoundKeyShrinks(s.recent, k); }
      var kept := if |w| < s.cap then w else w[..s.cap - 1];
      PrefixContents(w, |kept|);
      assert w[..|w|] == w;
      assert kept == w[..|kept|];
      var t := s.Insert(k, v).recent;
      assert t[0] == (k, v) && t[1..] == kept;
      forall q | q in kept ensures q.0 != k { assert q in w; }
      TailUnique((k, v), kept);
    }
  }

  /** Removal and clearing act on the observable pairs exactly as on a map. */
  lemma RemoveContract<K, V>(s: Storage<K, V>, k: K)
    requires s.Valid()
    ensures s.Remove(k).Valid() && s.Remove(k).Contents() == s.Contents() - {k}
    ensures s.Clear().Valid() && s.Clear().Contents() == map[]
  {
    if s.LruCache? { WithoutRemoves(s.recent, k); }
  }

  /** What a run of insertions can leave behind: a pair of the old contents or one of
      the inserted pairs. */
  lemma {:induction false} InsertAllContents<K, V>(s: Storage<K, V>, entries: seq<(K, V)>, k: K)
    requires s.Valid() && k in InsertAll(s, entries).Contents()
    ensures
      var v := InsertAll(s, entries).Contents()[k];
      (k, v) in entries || (k in s.Contents() && s.Contents()[k] == v)
    decreases entries
  {
    if entries != [] {
      InsertContract(s, entries[0].0, entries[0].1);
      InsertAllContents(s.Insert(entries[0].0, entries[0].1), entries[1..], k);
      assert entries[0] in entries;
    }
  }

  /** The storage object owned by the loader; every operation is an in-place update. */
  class Cache<K(==), V> {
    var store: Storage<K, V>

    constructor (initial: Storage<K, V>)
      requires initial.Valid()
      ensures store == initial
    {
      store := initial;
    }

    method Get(k: K) returns (hit: Option<V>)
      requires store.Valid()
      modifies this
      ensures store == old(store).Touch(k) && store.Valid()
      ensures store.Contents() == old(store).Contents()
      ensures hit == if k in old(store).Contents() then Some(old(store).Contents()[k]) else None
    {
      GetContract(store, k);
      hit := store.Lookup(k);
      store := store.Touch(k);
    }

    method Insert(k: K, v: V)
      requires store.Valid()
      modifies this
      ensures store == old(store).Insert(k, v) && store.Valid()
      ensures store.Contents() ==
        if store.NoCache? then map[]
        else if store.LruCache? && k !in old(store).Contents() && |old(store).recent| == old(store).cap
        then (old(store).Contents() - {old(store).recent[old(store).cap - 1].0})[k := v]
        else old(store).Contents()[k := v]
    {
      InsertContract(store, k, v);
      store := store.Insert(k, v);
    }

    method Remove(k: K)
      requires store.Valid()
      modifies this
      ensures store.Valid() && store.Contents() == old(store).Contents() - {k}
    {
      RemoveContract(store, k);
      store := store.Remove(k);
    }

    method Clear()
      requires store.Valid()
      modifies this
      ensures store == old(store).Clear() && store.Valid() && store.Contents() == map[]
    {
      store := store.Clear();
    }
  }
}
