/** The two limits checked on a parsed document before anything else walks it. */
module DepthLimits {
  import opened Wrappers
  import opened Documents

  // ----- check_recursive_depth -----

  /** The recursive walk; it needs no assumption about fragment cycles because the depth
      itself bounds it. */
  method CheckDepth(fragments: Fragments, items: SelectionSet, depth: nat, maxDepth: nat) returns (ok: bool)
    ensures ok <==> depth <= maxDepth && Within(fragments, items, maxDepth - depth)
    decreases if depth > maxDepth then 0 else maxDepth + 1 - depth
  {
    if depth > maxDepth {
      return false;
    }
    for i := 0 to |items|
      invariant forall j :: 0 <= j < i && Sub(fragments, items[j]).Some? ==>
        depth < maxDepth && Within(fragments, Sub(fragments, items[j]).value, maxDepth - depth - 1)
    {
      var below := true;
      match items[i] {
        case Field(_, _, _, _, sub) =>
          if sub != [] {
            below := CheckDepth(fragments, sub, depth + 1, maxDepth);
          }
        case FragmentSpread(name, _) =>
          if name in fragments {
            below := CheckDepth(fragments, fragments[name].items, depth + 1, maxDepth);
          }
        case InlineFragment(_, _, sub) =>
          below := CheckDepth(fragments, sub, depth + 1, maxDepth);
      }
      if !below {
        return false;
      }
    }
    return true;
  }

  ghost predicate DepthOk(doc: Document, maxDepth: nat) {
    forall items :: items in doc.SelectionSets() ==> Within(doc.fragments, items, maxDepth)
  }

  /** The document check fails exactly when some operation starts a descent chain with
      more than `maxDepth` descents. */
  method CheckRecursiveDepth(doc: Document, maxDepth: nat) returns (ok: bool)
    ensures ok <==> DepthOk(doc, maxDepth)
    ensures !ok <==> exists chain ::
      IsChain(doc.fragments, chain) && chain[0] in doc.SelectionSets() && |chain| - 1 > maxDepth
  {
    var todo := doc.SelectionSets();
    ok := true;
    while todo != {} && ok
      invariant todo <= doc.SelectionSets()
      invariant ok ==> forall items :: items in doc.SelectionSets() - todo ==> Within(doc.fragments, items, maxDepth)
      invariant !ok ==> !DepthOk(doc, maxDepth)
      decreases todo, ok
    {
      var items :| items in todo;
      todo := todo - {items};
      ok := CheckDepth(doc.fragments, items, 0, maxDepth);
    }
    DepthOkIffChains(doc, maxDepth);
  }

  lemma DepthOkIffChains(doc: Document, maxDepth: nat)
    ensures DepthOk(doc, maxDepth) <==> !exists chain ::
      IsChain(doc.fragments, chain) && chain[0] in doc.SelectionSets() && |chain| - 1 > maxDepth
  {
    forall items | items in doc.SelectionSets()
      ensures Within(doc.fragments, items, maxDepth) <==>
        forall chain :: IsChain(doc.fragments, chain) && chain[0] == items ==> |chain| - 1 <= maxDepth
    {
      WithinIffChains(doc.fragments, items, maxDepth);
    }
  }

  /** A document passes for some limit exactly when no operation reaches a fragment cycle;
      so a reachable cycle is rejected whatever the limit. */
  lemma PassesForSomeLimit(doc: Document)
    ensures (exists maxDepth: nat :: DepthOk(doc, maxDepth)) <==>
      forall items :: items in doc.SelectionSets() ==> NoReachableCycle(doc.fragments, items)
  {
    var sets := doc.SelectionSets();
    forall items | items in sets
      ensures Finite(doc.fragments, items) <==> NoReachableCycle(doc.fragments, items)
    {
      FiniteIffNoReachableCycle(doc.fragments, items);
    }
    if forall items :: items in sets ==> NoReachableCycle(doc.fragments, items) {
      var n := CommonLimit(doc.fragments, sets);
      assert DepthOk(doc, n);
    }
    if n: nat :| DepthOk(doc, n) {
      assert forall items :: items in sets ==> Within(doc.fragments, items, n);
    }
  }

  lemma {:induction false} CommonLimit(fragments: Fragments, sets: set<SelectionSet>) returns (n: nat)
    requires forall items :: items in sets ==> Finite(fragments, items)
    ensures forall items :: items in sets ==> Within(fragments, items, n)
    decreases sets
  {
    if sets == {} {
      n := 0;
    } else {
      var first :| first in sets;
      var m := CommonLimit(fragments, sets - {first});
      var k: nat :| Within(fragments, first, k);
      n := Max(m, k);
      forall items | items in sets ensures Within(fragments, items, n) {
        if items == first { WithinMonotone(fragments, items, k, n); }
        else { WithinMonotone(fragments, items, m, n); }
      }
    }
  }

  // ----- check_max_directives -----

  /** Every field that a descent from `items` can meet carries at most `limit` directives. */
  ghost predicate FieldsWithin(fragments: Fragments, items: SelectionSet, limit: nat) {
    forall chain :: IsChain(fragments, chain) && chain[0] == items ==> LocalWithin(chain[|chain| - 1], limit)
  }

  predicate LocalWithin(items: SelectionSet, limit: nat) {
    forall i :: 0 <= i < |items| && items[i].Field? ==> |items[i].directives| <= limit
  }

  /** The property splits into the set itself and each set entered from it. */
  lemma FieldsWithinStep(fragments: Fragments, items: SelectionSet, limit: nat)
    ensures FieldsWithin(fragments, items, limit) <==>
      LocalWithin(items, limit) && forall i :: 0 <= i < |items| && Sub(fragments, items[i]).Some? ==>
        FieldsWithin(fragments, Sub(fragments, items[i]).value, limit)
  {
    if FieldsWithin(fragments, items, limit) {
      assert IsChain(fragments, [items]) && [items][|[items]| - 1] == items;
      forall i | 0 <= i < |items| && Sub(fragments, items[i]).Some?
        ensures FieldsWithin(fragments, Sub(fragments, items[i]).value, limit)
      {
        var sub := Sub(fragments, items[i]).value;
        forall chain | IsChain(fragments, chain) && chain[0] == sub
          ensures LocalWithin(chain[|chain| - 1], limit)
        {
          assert Child(fragments, items, sub);
          Prepend(fragments, items, chain);
          assert ([items] + chain)[|chain|] == chain[|chain| - 1];
        }
      }
    } else {
      var chain :| IsChain(fragments, chain) && chain[0] == items && !LocalWithin(chain[|chain| - 1], limit);
      if |chain| > 1 {
        assert Child(fragments, chain[0], chain[1]);
        var i :| 0 <= i < |items| && Sub(fragments, items[i]) == Some(chain[1]);
        assert IsChain(fragments, chain[1..]) by {
          forall k | 0 <= k < |chain[1..]| - 1 ensures Child(fragments, chain[1..][k], chain[1..][k + 1]) {
            assert Child(fragments, chain[k + 1], chain[k + 2]);
          }
        }
        assert chain[1..][|chain[1..]| - 1] == chain[|chain| - 1];
      }
    }
  }

  lemma EmptyFieldsWithin(fragments: Fragments, limit: nat)
    ensures FieldsWithin(fragments, [], limit)
  {
    FieldsWithinStep(fragments, [], limit);
  }

  /** The unbounded walk. It terminates because the depth check has passed: every set it
      enters has a smaller height. */
  method CheckDirectives(fragments: Fragments, items: SelectionSet, limit: nat) returns (ok: bool)
    requires Finite(fragments, items)
    ensures ok <==> FieldsWithin(fragments, items, limit)
    decreases Height(fragments, items), |items|
  {
    FieldsWithinStep(fragments, items, limit);
    for i := 0 to |items|
      invariant forall j :: 0 <= j < i && items[j].Field? ==> |items[j].directives| <= limit
      invariant forall j :: 0 <= j < i && Sub(fragments, items[j]).Some? ==>
        FieldsWithin(fragments, Sub(fragments, items[j]).value, limit)
    {
      var inside: Option<SelectionSet> := None;
      match items[i] {
        case Field(_, _, _, directives, sub) =>
          if |directives| > limit {
            return false;
          }
          inside := Some(sub);
        case FragmentSpread(name, _) =>
          if name in fragments {
            inside := Some(fragments[name].items);
          }
        case InlineFragment(_, _, sub) =>
          inside := Some(sub);
      }
      if inside.Some? {
        EnterFacts(fragments, items, i, inside.value, limit);
        var below := CheckDirectives(fragments, inside.value, limit);
        if !below {
          return false;
        }
      }
    }
    return true;
  }

  /** The walk also enters the empty set of a field without sub-selections. */
  lemma EnterFacts(fragments: Fragments, items: SelectionSet, i: nat, sub: SelectionSet, limit: nat)
    requires Finite(fragments, items) && i < |items|
    requires Sub(fragments, items[i]) == Some(sub) || sub == []
    ensures Finite(fragments, sub)
    ensures Height(fragments, sub) < Height(fragments, items) || (Height(fragments, sub) == 0 && |sub| < |items|)
    ensures sub == [] ==> FieldsWithin(fragments, sub, limit)
  {
    EmptyIsFinite(fragments);
    EmptyFieldsWithin(fragments, limit);
    if Sub(fragments, items[i]) == Some(sub) { HeightOfSub(fragments, items, i); }
  }

  ghost predicate DirectivesOk(doc: Document, limit: nat) {
    forall items :: items in doc.SelectionSets() ==> FieldsWithin(doc.fragments, items, limit)
  }

  method CheckMaxDirectives(doc: Document, limit: nat, ghost maxDepth: nat) returns (ok: bool)
    requires DepthOk(doc, maxDepth)
    ensures ok <==> DirectivesOk(doc, limit)
  {
    var todo := doc.SelectionSets();
    ok := true;
    while todo != {} && ok
      invariant todo <= doc.SelectionSets()
      invariant ok ==> forall items :: items in doc.SelectionSets() - todo ==> FieldsWithin(doc.fragments, items, limit)
      invariant !ok ==> !DirectivesOk(doc, limit)
      decreases todo, ok
    {
      var items :| items in todo;
      todo := todo - {items};
      assert Within(doc.fragments, items, maxDepth);
      ok := CheckDirectives(doc.fragments, items, limit);
    }
  }

  // ----- What counts as depth -----

  /** A leaf costs nothing; a field with sub-selections, a known fragment and an inline
      fragment cost one more than what they contain. */
  lemma DepthOfOne(fragments: Fragments, s: Selection, n: nat)
    ensures Within(fragments, [s], n) <==>
      && (s.Field? && s.items != [] ==> n > 0 && Within(fragments, s.items, n - 1))
      && (s.FragmentSpread? && s.fragment in fragments ==> n > 0 && Within(fragments, fragments[s.fragment].items, n - 1))
      && (s.InlineFragment? ==> n > 0 && Within(fragments, s.items, n - 1))
  {
    var items := [s];
    assert items[0] == s;
  }

  lemma DepthOfConcat(fragments: Fragments, a: SelectionSet, b: SelectionSet, n: nat)
    ensures Within(fragments, a + b, n) <==> Within(fragments, a, n) && Within(fragments, b, n)
  {
    var ab := a + b;
    assert forall i :: 0 <= i < |a| ==> a[i] == ab[i];
    assert forall i :: 0 <= i < |b| ==> b[i] == ab[|a| + i];
  }

  /** `{ a { a { ... } } }` with `k` nested sub-selections. */
  function Ladder(k: nat): SelectionSet {
    [Field(None, "a", [], [], if k == 0 then [] else Ladder(k - 1))]
  }

  /** It passes exactly the limits from `k` on. */
  lemma {:induction false} LadderDepth(fragments: Fragments, k: nat, n: nat)
    ensures Within(fragments, Ladder(k), n) <==> k <= n
    decreases k
  {
    DepthOfOne(fragments, Ladder(k)[0], n);
    if k > 0 && n > 0 { LadderDepth(fragments, k - 1, n - 1); }
  }

  /** The directive limit counts the directives of a field, not of a fragment, and looks
      everywhere that a descent goes. */
  lemma DirectivesOfOne(fragments: Fragments, s: Selection, limit: nat)
    ensures FieldsWithin(fragments, [s], limit) <==>
      && (s.Field? ==> |s.directives| <= limit && (s.items != [] ==> FieldsWithin(fragments, s.items, limit)))
      && (s.FragmentSpread? && s.fragment in fragments ==> FieldsWithin(fragments, fragments[s.fragment].items, limit))
      && (s.InlineFragment? ==> FieldsWithin(fragments, s.items, limit))
  {
    var items := [s];
    FieldsWithinStep(fragments, items, limit);
    assert items[0] == s;
  }
}
