/** Which pair an LRU cache gives up, in terms of the history of its uses alone. */
module LruOrder {
  import opened Wrappers
  import opened CacheStorage

  datatype Use<K, V> = Got(key: K) | Put(key: K, value: V) | Dropped(gone: K) | Wiped

  function Apply<K, V>(s: Storage<K, V>, use: Use<K, V>): Storage<K, V>
    requires s.Valid()
  {
    match use
    case Got(k) => s.Touch(k)
    case Put(k, v) => s.Insert(k, v)
    case Dropped(k) => s.Remove(k)
    case Wiped => s.Clear()
  }

  /** The cache after a history of uses, the last of them at the end. */
  function After<K, V>(cap: nat, uses: seq<Use<K, V>>): (s: Storage<K, V>)
    requires cap > 0
    ensures s.LruCache? && s.cap == cap && s.Valid()
  {
    if uses == [] then LruCache(cap, [])
    else
      var before := After(cap, uses[..|uses| - 1]);
      ApplyValid(before, uses[|uses| - 1]);
      Apply(before, uses[|uses| - 1])
  }

  lemma ApplyValid<K, V>(s: Storage<K, V>, use: Use<K, V>)
    requires s.Valid() && s.LruCache?
    ensures Apply(s, use).Valid() && Apply(s, use).LruCache? && Apply(s, use).cap == s.cap
  {
    match use
    case Got(k) => GetContract(s, k);
    case Put(k, v) => InsertContract(s, k, v);
    case Dropped(k) => RemoveContract(s, k);
    case Wiped =>
  }

  predicate Uses<K(==), V>(use: Use<K, V>, k: K) {
    (use.Got? || use.Put?) && use.key == k
  }

  /** When a key was last asked for or inserted; -1 if never. */
  function LastUse<K(==), V>(uses: seq<Use<K, V>>, k: K): int {
    if uses == [] then -1
    else if Uses(uses[|uses| - 1], k) then |uses| - 1
    else LastUse(uses[..|uses| - 1], k)
  }

  lemma {:induction false} LastUseBounded<K, V>(uses: seq<Use<K, V>>, k: K)
    ensures -1 <= LastUse(uses, k) < |uses|
  {
    if uses != [] { LastUseBounded(uses[..|uses| - 1], k); }
  }

  /** The most recently used come first. */
  ghost predicate Ordered<K, V>(s: seq<(K, V)>, uses: seq<Use<K, V>>) {
    forall i, j :: 0 <= i < j < |s| ==> LastUse(uses, s[i].0) > LastUse(uses, s[j].0)
  }

  lemma {:induction false} WithoutOrdered<K, V>(s: seq<(K, V)>, k: K, uses: seq<Use<K, V>>)
    requires Ordered(s, uses)
    ensures Ordered(Without(s, k), uses)
  {
    if s != [] {
      WithoutOrdered(s[1..], k, uses);
      WithoutMembers(s[1..], k);
      var rest := Without(s[1..], k);
      forall j | 0 <= j < |rest| ensures LastUse(uses, s[0].0) > LastUse(uses, rest[j].0) {
        assert rest[j] in rest;
        var m :| 0 <= m < |s[1..]| && s[1..][m] == rest[j];
        assert s[m + 1] == rest[j];
      }
    }
  }

  /** One more use of another key, or a removal, does not disturb the order. */
  lemma OrderedLater<K, V>(s: seq<(K, V)>, uses: seq<Use<K, V>>, use: Use<K, V>)
    requires Ordered(s, uses) && forall i :: 0 <= i < |s| ==> !Uses(use, s[i].0)
    ensures Ordered(s, uses + [use])
  {
    var later := uses + [use];
    assert later[..|later| - 1] == uses && later[|later| - 1] == use;
    forall i | 0 <= i < |s| ensures LastUse(later, s[i].0) == LastUse(uses, s[i].0) {}
  }

  lemma OrderedFront<K, V>(p: (K, V), s: seq<(K, V)>, uses: seq<Use<K, V>>, use: Use<K, V>)
    requires Ordered(s, uses) && Uses(use, p.0) && forall i :: 0 <= i < |s| ==> s[i].0 != p.0
    ensures Ordered([p] + s, uses + [use])
  {
    var later, t := uses + [use], [p] + s;
    OrderedLater(s, uses, use);
    assert later[|later| - 1] == use && later[..|later| - 1] == uses;
    forall i, j | 0 <= i < j < |t| ensures LastUse(later, t[i].0) > LastUse(later, t[j].0) {
      LastUseBounded(uses, t[j].0);
      assert t[j] == s[j - 1];
      if i > 0 { assert t[i] == s[i - 1]; }
    }
  }

  lemma NotIn<K, V>(s: seq<(K, V)>, k: K)
    ensures forall i :: 0 <= i < |Without(s, k)| ==> Without(s, k)[i].0 != k
  {
    WithoutMembers(s, k);
    forall i | 0 <= i < |Without(s, k)| ensures Without(s, k)[i].0 != k {
      assert Without(s, k)[i] in Without(s, k);
    }
  }

  lemma StepOrdered<K, V>(s: Storage<K, V>, uses: seq<Use<K, V>>, use: Use<K, V>)
    requires s.Valid() && s.LruCache? && Ordered(s.recent, uses)
    ensures Apply(s, use).LruCache? && Ordered(Apply(s, use).recent, uses + [use])
  {
    match use
    case Got(k) =>
      NotIn(s.recent, k);
      WithoutOrdered(s.recent, k, uses);
      if Find(s.recent, k).Some? {
        OrderedFront((k, Find(s.recent, k).value), Without(s.recent, k), uses, use);
      } else {
        FindIsLookup(s.recent, k);
        WithoutAbsent(s.recent, k);
        OrderedLater(s.recent, uses, use);
      }
    case Put(k, v) =>
      NotIn(s.recent, k);
      WithoutOrdered(s.recent, k, uses);
      var w := Without(s.recent, k);
      var kept := if |w| < s.cap then w else w[..s.cap - 1];
      OrderedFront((k, v), kept, uses, use);
    case Dropped(k) =>
      WithoutOrdered(s.recent, k, uses);
      OrderedLater(Without(s.recent, k), uses, use);
    case Wiped =>
  }

  lemma {:induction false} AfterOrdered<K, V>(cap: nat, uses: seq<Use<K, V>>)
    requires cap > 0
    ensures Ordered(After(cap, uses).recent, uses)
  {
    if uses != [] {
      var init, last := uses[..|uses| - 1], uses[|uses| - 1];
      AfterOrdered<K, V>(cap, init);
      StepOrdered(After(cap, init), init, last);
      assert init + [last] == uses;
    }
  }

  /** After any history of gets, insertions, removals and clears, a full cache that takes a
      new key loses exactly one pair: the one whose key was asked for or inserted longest
      ago, even if it was looked up in between. */
  lemma EvictsLeastRecentlyUsed<K, V>(cap: nat, uses: seq<Use<K, V>>, k: K, v: V) returns (gone: K)
    requires cap > 0 && |After(cap, uses).recent| == cap && k !in After(cap, uses).Contents()
    ensures
      var s := After(cap, uses);
      && gone in s.Contents() && s.Insert(k, v).Contents() == (s.Contents() - {gone})[k := v]
      && forall x :: x in s.Contents() && x != gone ==> LastUse(uses, gone) < LastUse(uses, x)
  {
    var s := After(cap, uses);
    AfterOrdered<K, V>(cap, uses);
    EvictsOldest(s, k, v);
    gone := s.recent[cap - 1].0;
    InContents(s.recent, cap - 1);
    LastIsOldest(s.recent, uses);
  }

  lemma LastIsOldest<K, V>(s: seq<(K, V)>, uses: seq<Use<K, V>>)
    requires s != [] && Ordered(s, uses)
    ensures forall x :: x in ToMap(s) && x != s[|s| - 1].0 ==> LastUse(uses, s[|s| - 1].0) < LastUse(uses, x)
  {
    forall x | x in ToMap(s) && x != s[|s| - 1].0 ensures LastUse(uses, s[|s| - 1].0) < LastUse(uses, x) {
      var i := PlaceOf(s, x);
      assert LastUse(uses, s[i].0) > LastUse(uses, s[|s| - 1].0);
    }
  }

  lemma {:induction false} InContents<K, V>(s: seq<(K, V)>, i: nat)
    requires i < |s|
    ensures s[i].0 in ToMap(s)
  {
    if i > 0 { InContents(s[1..], i - 1); }
  }

  lemma {:induction false} PlaceOf<K, V>(s: seq<(K, V)>, x: K) returns (i: nat)
    requires x in ToMap(s)
    ensures i < |s| && s[i].0 == x
  {
    if s[0].0 == x {
      i := 0;
    } else {
      var rest := PlaceOf(s[1..], x);
      i := rest + 1;
    }
  }
}
