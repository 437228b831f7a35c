/** Executable documents: selection sets, fragments that may refer to each other in
    cycles, and the descent relation that every traversal of the crate follows. */
module Documents {
  import opened Wrappers

  datatype ConstValue =
    | Null
    | Number(number: real)
    | String(text: string)
    | Boolean(flag: bool)
    | Enum(item: Name)
    | List(elements: seq<ConstValue>)
    | Object(members: map<Name, ConstValue>)

  datatype InputValue =
    | Variable(variable: Name)
    | Literal(value: ConstValue)
    | ListOf(parts: seq<InputValue>)
    | ObjectOf(names: seq<Name>, parts: seq<InputValue>)

  type Variables = map<Name, ConstValue>

  datatype Directive = Directive(name: Name, arguments: seq<(Name, InputValue)>)

  datatype Selection =
    | Field(alias: Option<Name>, name: Name, arguments: seq<(Name, InputValue)>,
            directives: seq<Directive>, items: seq<Selection>)
    | FragmentSpread(fragment: Name, directives: seq<Directive>)
    | InlineFragment(on: Option<Name>, directives: seq<Directive>, items: seq<Selection>)

  type SelectionSet = seq<Selection>

  datatype FragmentDefinition = FragmentDefinition(on: Name, items: SelectionSet)

  type Fragments = map<Name, FragmentDefinition>

  datatype OperationType = Query | Mutation | Subscription

  datatype Operation = Operation(ty: OperationType, items: SelectionSet)

  datatype Operations = Single(operation: Operation) | Multiple(named: map<Name, Operation>)

  datatype Document = Document(operations: Operations, fragments: Fragments)
  {
    function SelectionSets(): set<SelectionSet> {
      match operations
      case Single(operation) => {operation.items}
      case Multiple(named) => set n | n in named :: named[n].items
    }
  }

  // ----- Descent -----

  /** The selection set that a traversal enters from a selection: sub-selections of a
      field if there are any, a known fragment, the body of an inline fragment. */
  function Sub(fragments: Fragments, selection: Selection): Option<SelectionSet> {
    match selection
    case Field(_, _, _, _, items) => if items != [] then Some(items) else None
    case FragmentSpread(name, _) => if name in fragments then Some(fragments[name].items) else None
    case InlineFragment(_, _, items) => Some(items)
  }

  ghost predicate Child(fragments: Fragments, parent: SelectionSet, child: SelectionSet) {
    exists i :: 0 <= i < |parent| && Sub(fragments, parent[i]) == Some(child)
  }

  /** A descent chain: each selection set is entered from the one before. */
  ghost predicate IsChain(fragments: Fragments, chain: seq<SelectionSet>) {
    && chain != []
    && forall i :: 0 <= i < |chain| - 1 ==> Child(fragments, chain[i], chain[i + 1])
  }

  ghost predicate ChainFromTo(fragments: Fragments, chain: seq<SelectionSet>, from: SelectionSet, to: SelectionSet) {
    IsChain(fragments, chain) && chain[0] == from && chain[|chain| - 1] == to
  }

  ghost predicate Reaches(fragments: Fragments, from: SelectionSet, to: SelectionSet) {
    exists chain :: ChainFromTo(fragments, chain, from, to)
  }

  /** At most `n` descents are possible from `items`. */
  predicate Within(fragments: Fragments, items: SelectionSet, n: nat)
    decreases n
  {
    forall i :: 0 <= i < |items| ==>
      var sub := Sub(fragments, items[i]);
      sub.Some? ==> n > 0 && Within(fragments, sub.value, n - 1)
  }

  /** Traversals from `items` end. */
  ghost predicate Finite(fragments: Fragments, items: SelectionSet) {
    exists n: nat :: Within(fragments, items, n)
  }

  /** What a selection enters can be traversed. */
  ghost predicate FiniteSub(fragments: Fragments, s: Selection) {
    Sub(fragments, s).Some? ==> Finite(fragments, Sub(fragments, s).value)
  }

  lemma {:induction false} WithinMonotone(fragments: Fragments, items: SelectionSet, m: nat, n: nat)
    requires Within(fragments, items, m) && m <= n
    ensures Within(fragments, items, n)
    decreases n
  {
    forall i | 0 <= i < |items| && Sub(fragments, items[i]).Some?
      ensures n > 0 && Within(fragments, Sub(fragments, items[i]).value, n - 1)
    {
      WithinMonotone(fragments, Sub(fragments, items[i]).value, m - 1, n - 1);
    }
  }

  ghost function Least(fragments: Fragments, items: SelectionSet, n: nat): (h: nat)
    requires Within(fragments, items, n)
    ensures Within(fragments, items, h)
    ensures forall m: nat :: Within(fragments, items, m) ==> h <= m
  {
    if n > 0 && Within(fragments, items, n - 1) then Least(fragments, items, n - 1)
    else
      assert forall m: nat :: Within(fragments, items, m) ==> n <= m by {
        forall m: nat | Within(fragments, items, m) ensures n <= m {
          if m < n { WithinMonotone(fragments, items, m, n - 1); }
        }
      }
      n
  }

  /** The length of the longest descent: the measure by which traversals terminate. */
  ghost function Height(fragments: Fragments, items: SelectionSet): (h: nat)
    requires Finite(fragments, items)
    ensures Within(fragments, items, h)
    ensures forall m: nat :: Within(fragments, items, m) ==> h <= m
  {
    var n: nat :| Within(fragments, items, n);
    Least(fragments, items, n)
  }

  lemma HeightOfSub(fragments: Fragments, items: SelectionSet, i: nat)
    requires Finite(fragments, items) && i < |items| && Sub(fragments, items[i]).Some?
    ensures Finite(fragments, Sub(fragments, items[i]).value)
    ensures Height(fragments, Sub(fragments, items[i]).value) < Height(fragments, items)
  {
    var h := Height(fragments, items);
    assert Within(fragments, Sub(fragments, items[i]).value, h - 1);
  }

  lemma HeightOfTail(fragments: Fragments, items: SelectionSet)
    requires Finite(fragments, items) && items != []
    ensures Finite(fragments, items[1..])
    ensures Height(fragments, items[1..]) <= Height(fragments, items)
  {
    assert Within(fragments, items[1..], Height(fragments, items));
  }

  lemma EmptyIsFinite(fragments: Fragments)
    ensures Finite(fragments, []) && Height(fragments, []) == 0
  {
    assert Within(fragments, [], 0);
  }

  // ----- Chains and bounds -----

  lemma {:induction false} ChainLeavesLess(fragments: Fragments, chain: seq<SelectionSet>, n: nat)
    requires IsChain(fragments, chain) && Within(fragments, chain[0], n)
    ensures |chain| - 1 <= n
    ensures Within(fragments, chain[|chain| - 1], n - (|chain| - 1))
    decreases n
  {
    if |chain| > 1 {
      assert Child(fragments, chain[0], chain[1]);
      assert IsChain(fragments, chain[1..]) by {
        forall i | 0 <= i < |chain[1..]| - 1 ensures Child(fragments, chain[1..][i], chain[1..][i + 1]) {
          assert Child(fragments, chain[i + 1], chain[i + 2]);
        }
      }
      ChainLeavesLess(fragments, chain[1..], n - 1);
    }
  }

  lemma Prepend(fragments: Fragments, items: SelectionSet, chain: seq<SelectionSet>)
    requires IsChain(fragments, chain) && Child(fragments, items, chain[0])
    ensures IsChain(fragments, [items] + chain)
  {
    var longer := [items] + chain;
    forall i | 0 <= i < |longer| - 1 ensures Child(fragments, longer[i], longer[i + 1]) {
      if i > 0 { assert Child(fragments, chain[i - 1], chain[i]); }
    }
  }

  lemma Extend(fragments: Fragments, chain: seq<SelectionSet>, items: SelectionSet)
    requires IsChain(fragments, chain) && Child(fragments, chain[|chain| - 1], items)
    ensures IsChain(fragments, chain + [items])
  {
    var longer := chain + [items];
    forall i | 0 <= i < |longer| - 1 ensures Child(fragments, longer[i], longer[i + 1]) {
      if i < |chain| - 1 { assert Child(fragments, chain[i], chain[i + 1]); }
    }
  }

  lemma {:induction false} LongChain(fragments: Fragments, items: SelectionSet, n: nat)
      returns (chain: seq<SelectionSet>)
    requires !Within(fragments, items, n)
    ensures IsChain(fragments, chain) && chain[0] == items && |chain| == n + 2
    decreases n
  {
    var i :| 0 <= i < |items| && Sub(fragments, items[i]).Some?
      && !(n > 0 && Within(fragments, Sub(fragments, items[i]).value, n - 1));
    var sub := Sub(fragments, items[i]).value;
    assert Child(fragments, items, sub);
    if n == 0 {
      chain := [items, sub];
    } else {
      var rest := LongChain(fragments, sub, n - 1);
      Prepend(fragments, items, rest);
      chain := [items] + rest;
    }
  }

  /** `Within` says exactly that no descent chain has more than `n` descents. */
  lemma WithinIffChains(fragments: Fragments, items: SelectionSet, n: nat)
    ensures Within(fragments, items, n) <==>
      forall chain :: IsChain(fragments, chain) && chain[0] == items ==> |chain| - 1 <= n
  {
    if Within(fragments, items, n) {
      forall chain | IsChain(fragments, chain) && chain[0] == items ensures |chain| - 1 <= n {
        ChainLeavesLess(fragments, chain, n);
      }
    } else {
      var chain := LongChain(fragments, items, n);
    }
  }

  // ----- Fragment cycles -----

  /** A fragment from whose body a non-empty descent leads back to its body. */
  ghost predicate OnCycle(fragments: Fragments, f: Name) {
    && f in fragments
    && exists chain :: |chain| > 1 && ChainFromTo(fragments, chain, fragments[f].items, fragments[f].items)
  }

  lemma {:induction false} CycleNotWithin(fragments: Fragments, chain: seq<SelectionSet>, n: nat)
    requires |chain| > 1 && IsChain(fragments, chain) && chain[0] == chain[|chain| - 1]
    ensures !Within(fragments, chain[0], n)
  {
    if Within(fragments, chain[0], n) {
      ChainLeavesLess(fragments, chain, n);
      CycleNotWithin(fragments, chain, n - (|chain| - 1));
      assert false;
    }
  }

  /** A reachable fragment cycle defeats every finite limit. */
  lemma ReachableCycleNotFinite(fragments: Fragments, items: SelectionSet, f: Name)
    requires OnCycle(fragments, f) && Reaches(fragments, items, fragments[f].items)
    ensures !Finite(fragments, items)
  {
    var cycle :| |cycle| > 1 && ChainFromTo(fragments, cycle, fragments[f].items, fragments[f].items);
    var there :| ChainFromTo(fragments, there, items, fragments[f].items);
    forall n: nat ensures !Within(fragments, items, n) {
      if Within(fragments, items, n) {
        ChainLeavesLess(fragments, there, n);
        CycleNotWithin(fragments, cycle, n - (|there| - 1));
        assert false;
      }
    }
  }

  function Max(a: nat, b: nat): nat {
    if a < b then b else a
  }

  /** A bound on descents that do not enter a fragment twice. */
  function Bound(fragments: Fragments, items: SelectionSet, entered: set<Name>): nat
    requires entered <= fragments.Keys
    decreases |fragments.Keys - entered|, items
  {
    if items == [] then 0
    else
      var head := match items[0]
        case FragmentSpread(f, _) =>
          if f in fragments && f !in entered then
            assert fragments.Keys - entered == (fragments.Keys - (entered + {f})) + {f};
            1 + Bound(fragments, fragments[f].items, entered + {f})
          else 0
        case Field(_, _, _, _, sub) => 1 + Bound(fragments, sub, entered)
        case InlineFragment(_, _, sub) => 1 + Bound(fragments, sub, entered);
      Max(head, Bound(fragments, items[1..], entered))
  }

  ghost predicate NoReachableCycle(fragments: Fragments, items: SelectionSet) {
    forall f :: f in fragments && Reaches(fragments, items, fragments[f].items) ==> !OnCycle(fragments, f)
  }

  /** All the sets in `entered` have led here. */
  ghost predicate LedHere(fragments: Fragments, root: SelectionSet, entered: set<Name>, set0: SelectionSet) {
    && entered <= fragments.Keys
    && Reaches(fragments, root, set0)
    && forall f :: f in entered ==>
         Reaches(fragments, root, fragments[f].items) && Reaches(fragments, fragments[f].items, set0)
  }

  lemma ReachesStep(fragments: Fragments, from: SelectionSet, mid: SelectionSet, to: SelectionSet)
    requires Reaches(fragments, from, mid) && Child(fragments, mid, to)
    ensures exists chain :: |chain| > 1 && ChainFromTo(fragments, chain, from, to)
    ensures Reaches(fragments, from, to)
  {
    var chain :| ChainFromTo(fragments, chain, from, mid);
    Extend(fragments, chain, to);
    assert ChainFromTo(fragments, chain + [to], from, to);
  }

  lemma ReachesSelf(fragments: Fragments, items: SelectionSet)
    ensures Reaches(fragments, items, items)
  {
    assert ChainFromTo(fragments, [items], items, items);
  }

  lemma StepLedHere(fragments: Fragments, root: SelectionSet, entered: set<Name>, here: SelectionSet, sub: SelectionSet)
    requires LedHere(fragments, root, entered, here) && Child(fragments, here, sub)
    ensures LedHere(fragments, root, entered, sub)
  {
    ReachesStep(fragments, root, here, sub);
    forall f | f in entered ensures Reaches(fragments, fragments[f].items, sub) {
      ReachesStep(fragments, fragments[f].items, here, sub);
    }
  }

  lemma ClosesCycle(fragments: Fragments, here: SelectionSet, k: nat, f: Name)
    requires k < |here| && here[k].FragmentSpread? && here[k].fragment == f && f in fragments
    requires Reaches(fragments, fragments[f].items, here)
    ensures OnCycle(fragments, f)
  {
    assert Sub(fragments, here[k]) == Some(fragments[f].items);
    assert Child(fragments, here, fragments[f].items);
    ReachesStep(fragments, fragments[f].items, here, fragments[f].items);
  }

  /** Entering a fragment again would close a cycle. */
  lemma NotEnteredTwice(fragments: Fragments, root: SelectionSet, here: SelectionSet, k: nat, entered: set<Name>)
    requires NoReachableCycle(fragments, root) && LedHere(fragments, root, entered, here)
    requires k < |here| && here[k].FragmentSpread? && here[k].fragment in fragments
    ensures here[k].fragment !in entered
  {
    if here[k].fragment in entered {
      ClosesCycle(fragments, here, k, here[k].fragment);
    }
  }

  /** The names entered once the first selection is followed. */
  function EnteredBy(s: Selection, entered: set<Name>): set<Name> {
    if s.FragmentSpread? then entered + {s.fragment} else entered
  }

  lemma BoundOfHead(fragments: Fragments, items: SelectionSet, entered: set<Name>)
    requires entered <= fragments.Keys && items != [] && Sub(fragments, items[0]).Some?
    requires items[0].FragmentSpread? ==> items[0].fragment !in entered
    ensures EnteredBy(items[0], entered) <= fragments.Keys
    ensures Bound(fragments, items, entered)
         >= 1 + Bound(fragments, Sub(fragments, items[0]).value, EnteredBy(items[0], entered))
  {
  }

  lemma EnterLedHere(fragments: Fragments, root: SelectionSet, entered: set<Name>, s: Selection)
    requires Sub(fragments, s).Some? && LedHere(fragments, root, entered, Sub(fragments, s).value)
    ensures LedHere(fragments, root, EnteredBy(s, entered), Sub(fragments, s).value)
  {
    ReachesSelf(fragments, Sub(fragments, s).value);
  }

  lemma HeadWithin(fragments: Fragments, items: SelectionSet, entered: set<Name>)
    requires entered <= fragments.Keys && items != [] && Sub(fragments, items[0]).Some?
    requires items[0].FragmentSpread? ==> items[0].fragment !in entered
    requires
      var sub, entered' := Sub(fragments, items[0]).value, EnteredBy(items[0], entered);
      entered' <= fragments.Keys && Within(fragments, sub, Bound(fragments, sub, entered'))
    ensures Bound(fragments, items, entered) > 0
    ensures Within(fragments, Sub(fragments, items[0]).value, Bound(fragments, items, entered) - 1)
  {
    var sub, entered' := Sub(fragments, items[0]).value, EnteredBy(items[0], entered);
    BoundOfHead(fragments, items, entered);
    WithinMonotone(fragments, sub, Bound(fragments, sub, entered'), Bound(fragments, items, entered) - 1);
  }

  lemma WithinCons(fragments: Fragments, items: SelectionSet, n: nat)
    requires items != [] && Within(fragments, items[1..], n)
    requires Sub(fragments, items[0]).Some? ==> n > 0 && Within(fragments, Sub(fragments, items[0]).value, n - 1)
    ensures Within(fragments, items, n)
  {
    forall i | 0 <= i < |items| && Sub(fragments, items[i]).Some?
      ensures n > 0 && Within(fragments, Sub(fragments, items[i]).value, n - 1)
    {
      if i > 0 { assert items[i] == items[1..][i - 1]; }
    }
  }

  /** Without reachable cycles the bound is a limit for every suffix of a reachable set. */
  lemma {:induction false} BoundSuffices(fragments: Fragments, root: SelectionSet, here: SelectionSet,
                                         k: nat, entered: set<Name>)
    requires NoReachableCycle(fragments, root)
    requires LedHere(fragments, root, entered, here) && k <= |here|
    ensures Within(fragments, here[k..], Bound(fragments, here[k..], entered))
    decreases |fragments.Keys - entered|, here[k..]
  {
    var items := here[k..];
    if items != [] {
      var bound := Bound(fragments, items, entered);
      assert items[1..] == here[k + 1..];
      BoundSuffices(fragments, root, here, k + 1, entered);
      WithinMonotone(fragments, items[1..], Bound(fragments, items[1..], entered), bound);
      if Sub(fragments, items[0]).Some? {
        HeadSuffices(fragments, root, here, k, entered);
        HeadWithin(fragments, items, entered);
      }
      WithinCons(fragments, items, bound);
    }
  }

  lemma {:induction false} HeadSuffices(fragments: Fragments, root: SelectionSet, here: SelectionSet,
                                        k: nat, entered: set<Name>)
    requires NoReachableCycle(fragments, root)
    requires LedHere(fragments, root, entered, here) && k < |here| && Sub(fragments, here[k]).Some?
    ensures here[k].FragmentSpread? ==> here[k].fragment !in entered
    ensures
      var sub, entered' := Sub(fragments, here[k]).value, EnteredBy(here[k], entered);
      entered' <= fragments.Keys && Within(fragments, sub, Bound(fragments, sub, entered'))
    decreases |fragments.Keys - entered|, here[k..], 0
  {
    var sub, entered' := Sub(fragments, here[k]).value, EnteredBy(here[k], entered);
    if here[k].FragmentSpread? {
      NotEnteredTwice(fragments, root, here, k, entered);
      assert fragments.Keys - entered == (fragments.Keys - entered') + {here[k].fragment};
    }
    assert LedHere(fragments, root, entered', sub) by {
      assert Child(fragments, here, sub);
      StepLedHere(fragments, root, entered, here, sub);
      EnterLedHere(fragments, root, entered, here[k]);
    }
    assert sub[0..] == sub && here[k..][0] == here[k];
    BoundSuffices(fragments, root, sub, 0, entered');
  }

  /** Some limit admits a selection set exactly when no fragment that it reaches lies on
      a cycle. */
  lemma FiniteIffNoReachableCycle(fragments: Fragments, items: SelectionSet)
    ensures Finite(fragments, items) <==> NoReachableCycle(fragments, items)
  {
    if NoReachableCycle(fragments, items) {
      ReachesSelf(fragments, items);
      BoundSuffices(fragments, items, items, 0, {});
      assert items[0..] == items;
    } else {
      var f :| f in fragments && Reaches(fragments, items, fragments[f].items) && OnCycle(fragments, f);
      ReachableCycleNotFinite(fragments, items, f);
    }
  }
}
