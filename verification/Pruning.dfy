/** Evaluation of `@skip` and `@include` ahead of execution (sections 3.13.1 and 3.13.2 of
    the GraphQL specification, October 2021): skipped selections are removed in place, once,
    so that later passes need not look at the two directives again. */
module Pruning {
  import opened Wrappers
  import opened Documents

  // ----- Conditions -----

  function IntoConst(value: InputValue, variables: Variables): Option<ConstValue> {
    match value
    case Variable(name) => if name in variables then Some(variables[name]) else None
    case Literal(v) => Some(v)
    case ListOf(parts) =>
      var vs := IntoConstAll(parts, variables);
      if vs.Some? then Some(List(vs.value)) else None
    case ObjectOf(names, parts) =>
      var vs := IntoConstAll(parts, variables);
      if vs.Some? then Some(Object(Members(names, vs.value))) else None
  }

  function IntoConstAll(parts: seq<InputValue>, variables: Variables): Option<seq<ConstValue>> {
    if parts == [] then Some([])
    else
      var first := IntoConst(parts[0], variables);
      var rest := IntoConstAll(parts[1..], variables);
      if first.Some? && rest.Some? then Some([first.value] + rest.value) else None
  }

  function Members(names: seq<Name>, values: seq<ConstValue>): map<Name, ConstValue> {
    if names == [] || values == [] then map[]
    else map[names[0] := values[0]] + Members(names[1..], values[1..])
  }

  function Argument(arguments: seq<(Name, InputValue)>, name: Name): Option<InputValue> {
    if arguments == [] then None
    else if arguments[0].0 == name then Some(arguments[0].1)
    else Argument(arguments[1..], name)
  }

  /** The value of a condition: anything that cannot be resolved from the request
      variables, or is not a boolean, counts as false. */
  function Condition(value: InputValue, variables: Variables): bool {
    var resolved := IntoConst(value, variables).GetOr(Null);
    resolved.Boolean? && resolved.flag
  }

  /** A condition holds exactly when it is the literal `true` or a request variable that is
      set to `true`; a default value of the variable plays no part. */
  lemma ConditionHolds(value: InputValue, variables: Variables)
    ensures Condition(value, variables) <==>
      || value == Literal(Boolean(true))
      || (value.Variable? && value.variable in variables && variables[value.variable] == Boolean(true))
  {
    match value
    case ListOf(_) =>
    case _ =>
  }

  /** Whether one directive removes the selection that carries it. */
  predicate Removes(d: Directive, variables: Variables) {
    var cond := Argument(d.arguments, "if");
    && cond.Some?
    && ((d.name == "skip" && Condition(cond.value, variables))
        || (d.name == "include" && !Condition(cond.value, variables)))
  }

  predicate IsSkipped(directives: seq<Directive>, variables: Variables) {
    exists i :: 0 <= i < |directives| && Removes(directives[i], variables)
  }

  predicate IsCondition(d: Directive) {
    d.name == "skip" || d.name == "include"
  }

  function Others(directives: seq<Directive>): seq<Directive> {
    if directives == [] then []
    else (if IsCondition(directives[0]) then [] else [directives[0]]) + Others(directives[1..])
  }

  // ----- The pruned document -----

  function Prune(items: SelectionSet, variables: Variables): SelectionSet
    decreases items, 0
  {
    if items == [] then []
    else
      var rest := Prune(items[1..], variables);
      if IsSkipped(items[0].directives, variables) then rest
      else [PruneOne(items[0], variables)] + rest
  }

  function PruneOne(s: Selection, variables: Variables): Selection
    decreases s, 1
  {
    match s
    case Field(alias, name, arguments, directives, items) =>
      Field(alias, name, arguments, Others(directives), Prune(items, variables))
    case FragmentSpread(fragment, directives) => FragmentSpread(fragment, Others(directives))
    case InlineFragment(on, directives, items) =>
      InlineFragment(on, Others(directives), Prune(items, variables))
  }

  function PruneFragments(fragments: Fragments, variables: Variables): Fragments {
    map f | f in fragments :: FragmentDefinition(fragments[f].on, Prune(fragments[f].items, variables))
  }

  // ----- The in-place algorithm -----

  method SkipTest(directives: seq<Directive>, variables: Variables) returns (skipped: bool)
    ensures skipped == IsSkipped(directives, variables)
  {
    for i := 0 to |directives|
      invariant forall j :: 0 <= j < i ==> !Removes(directives[j], variables)
    {
      var d := directives[i];
      if d.name == "skip" || d.name == "include" {
        var wanted := d.name == "include";
        var cond := Argument(d.arguments, "if");
        if cond.Some? {
          var value := Condition(cond.value, variables);
          if wanted != value {
            return true;
          }
        }
      }
    }
    return false;
  }

  /** The items that survive, not yet rewritten. */
  function Kept(items: SelectionSet, variables: Variables): SelectionSet {
    if items == [] then []
    else (if IsSkipped(items[0].directives, variables) then [] else [items[0]]) + Kept(items[1..], variables)
  }

  lemma {:induction false} KeptSnoc(items: SelectionSet, s: Selection, variables: Variables)
    ensures Kept(items + [s], variables) ==
      Kept(items, variables) + if IsSkipped(s.directives, variables) then [] else [s]
  {
    var all := items + [s];
    if items == [] {
      assert all[1..] == [];
    } else {
      assert all[0] == items[0] && all[1..] == items[1..] + [s];
      KeptSnoc(items[1..], s, variables);
      var head := if IsSkipped(items[0].directives, variables) then [] else [items[0]];
      var last := if IsSkipped(s.directives, variables) then [] else [s];
      assert head + (Kept(items[1..], variables) + last) == (head + Kept(items[1..], variables)) + last;
    }
  }

  lemma {:induction false} KeptMembers(items: SelectionSet, variables: Variables)
    ensures forall s :: s in Kept(items, variables) ==> s in items
  {
    if items != [] {
      KeptMembers(items[1..], variables);
    }
  }

  /** Pruning rewrites the kept items one by one. */
  lemma {:induction false} KeptFacts(items: SelectionSet, variables: Variables)
    ensures |Prune(items, variables)| == |Kept(items, variables)|
    ensures forall i :: 0 <= i < |Kept(items, variables)| ==>
      Prune(items, variables)[i] == PruneOne(Kept(items, variables)[i], variables)
  {
    if items != [] {
      KeptFacts(items[1..], variables);
      var kept, pruned := Kept(items[1..], variables), Prune(items[1..], variables);
      if IsSkipped(items[0].directives, variables) {
        assert Kept(items, variables) == kept;
      } else {
        assert Kept(items, variables) == [items[0]] + kept;
        assert Prune(items, variables) == [PruneOne(items[0], variables)] + pruned;
      }
    }
  }

  function WithDirectives(s: Selection, directives: seq<Directive>): Selection {
    match s
    case Field(alias, name, arguments, _, items) => Field(alias, name, arguments, directives, items)
    case FragmentSpread(fragment, _) => FragmentSpread(fragment, directives)
    case InlineFragment(on, _, items) => InlineFragment(on, directives, items)
  }

  /** `remove_skipped_selection`: drop the skipped items, then strip the two directives
      from the rest, then descend; three passes over one vector. */
  method RemoveSkippedSelection(items: SelectionSet, variables: Variables) returns (out: SelectionSet)
    ensures out == Prune(items, variables)
    decreases items
  {
    out := [];
    for i := 0 to |items|
      invariant out == Kept(items[..i], variables)
    {
      assert items[..i + 1] == items[..i] + [items[i]];
      KeptSnoc(items[..i], items[i], variables);
      var skipped := SkipTest(items[i].directives, variables);
      if !skipped {
        out := out + [items[i]];
      }
    }
    assert items[..|items|] == items;
    ghost var kept := out;
    KeptFacts(items, variables);
    KeptMembers(items, variables);

    for i := 0 to |out|
      invariant |out| == |kept|
      invariant forall j :: 0 <= j < i ==> out[j] == WithDirectives(kept[j], Others(kept[j].directives))
      invariant forall j :: i <= j < |out| ==> out[j] == kept[j]
    {
      out := out[i := WithDirectives(out[i], Others(out[i].directives))];
    }

    for i := 0 to |out|
      invariant |out| == |kept|
      invariant forall j :: 0 <= j < i ==> out[j] == PruneOne(kept[j], variables)
      invariant forall j :: i <= j < |out| ==> out[j] == WithDirectives(kept[j], Others(kept[j].directives))
    {
      assert kept[i] in items;
      match out[i] {
        case Field(alias, name, arguments, directives, sub) =>
          assert sub == kept[i].items;
          var sub' := RemoveSkippedSelection(sub, variables);
          out := out[i := Field(alias, name, arguments, directives, sub')];
        case FragmentSpread(_, _) =>
        case InlineFragment(on, directives, sub) =>
          assert sub == kept[i].items;
          var sub' := RemoveSkippedSelection(sub, variables);
          out := out[i := InlineFragment(on, directives, sub')];
      }
    }
  }

  method RemoveSkippedInFragments(fragments: Fragments, variables: Variables) returns (out: Fragments)
    ensures out == PruneFragments(fragments, variables)
  {
    out := fragments;
    var todo := fragments.Keys;
    while todo != {}
      invariant todo <= fragments.Keys && out.Keys == fragments.Keys
      invariant forall f :: f in todo ==> out[f] == fragments[f]
      invariant forall f :: f in fragments.Keys - todo ==> out[f] == PruneFragments(fragments, variables)[f]
      decreases todo
    {
      var f :| f in todo;
      var items := RemoveSkippedSelection(out[f].items, variables);
      out := out[f := FragmentDefinition(out[f].on, items)];
      todo := todo - {f};
    }
  }

  // ----- What remains -----

  /** No `@skip` or `@include` is left at any depth. */
  predicate Unconditional(items: SelectionSet)
    decreases items, 0
  {
    forall i :: 0 <= i < |items| ==>
      && (forall d :: d in items[i].directives ==> !IsCondition(d))
      && (!items[i].FragmentSpread? ==> Unconditional(items[i].items))
  }

  lemma {:induction false} OthersFacts(directives: seq<Directive>)
    ensures forall d :: d in Others(directives) <==> d in directives && !IsCondition(d)
    ensures (forall d :: d in directives ==> !IsCondition(d)) ==> Others(directives) == directives
  {
    if directives != [] {
      OthersFacts(directives[1..]);
    }
  }

  lemma {:induction false} PruneUnconditional(items: SelectionSet, variables: Variables)
    ensures Unconditional(Prune(items, variables))
    decreases items
  {
    if items != [] {
      PruneUnconditional(items[1..], variables);
      OthersFacts(items[0].directives);
      if !items[0].FragmentSpread? {
        PruneUnconditional(items[0].items, variables);
      }
    }
  }

  /** An unconditional set is left as it is, under any variables. */
  lemma {:induction false} UnconditionalUnchanged(items: SelectionSet, variables: Variables)
    requires Unconditional(items)
    ensures Prune(items, variables) == items
    decreases items
  {
    if items != [] {
      UnconditionalUnchanged(items[1..], variables);
      OthersFacts(items[0].directives);
      assert !IsSkipped(items[0].directives, variables) by {
        forall i | 0 <= i < |items[0].directives| ensures !Removes(items[0].directives[i], variables) {
          assert items[0].directives[i] in items[0].directives;
        }
      }
      if !items[0].FragmentSpread? {
        UnconditionalUnchanged(items[0].items, variables);
      }
    }
  }

  lemma PruneIdempotent(items: SelectionSet, variables: Variables, again: Variables)
    ensures Prune(Prune(items, variables), again) == Prune(items, variables)
  {
    PruneUnconditional(items, variables);
    UnconditionalUnchanged(Prune(items, variables), again);
  }

  // ----- The depth bound survives -----

  /** Pruning never lengthens a descent. */
  lemma {:induction false} PruneWithin(fragments: Fragments, items: SelectionSet, variables: Variables, n: nat)
    requires Within(fragments, items, n)
    ensures Within(PruneFragments(fragments, variables), Prune(items, variables), n)
    decreases n
  {
    var pf, out := PruneFragments(fragments, variables), Prune(items, variables);
    KeptFacts(items, variables);
    KeptMembers(items, variables);
    forall i | 0 <= i < |out| && Sub(pf, out[i]).Some?
      ensures n > 0 && Within(pf, Sub(pf, out[i]).value, n - 1)
    {
      var kept := Kept(items, variables)[i];
      assert kept in items;
      var j :| 0 <= j < |items| && items[j] == kept;
      var sub := Sub(fragments, items[j]);
      assert sub.Some? by {
        assert Prune([], variables) == [];
      }
      PruneWithin(fragments, sub.value, variables, n - 1);
    }
  }

  lemma PruneFinite(fragments: Fragments, items: SelectionSet, variables: Variables)
    requires Finite(fragments, items)
    ensures Finite(PruneFragments(fragments, variables), Prune(items, variables))
  {
    PruneWithin(fragments, items, variables, Height(fragments, items));
  }

  // ----- Meaning -----

  /** The fields that a selection set selects, in order, each with the type conditions
      that guard it and with what its own sub-selections mean. A spread of an unknown
      fragment is kept as an entry of its own. */
  datatype Entry =
    | Selected(guards: seq<Name>, alias: Option<Name>, name: Name, arguments: seq<(Name, InputValue)>,
               directives: seq<Directive>, children: seq<Entry>)
    | Unknown(guards: seq<Name>, fragment: Name)

  function Guard(guards: seq<Name>, on: Option<Name>): seq<Name> {
    if on.Some? then guards + [on.value] else guards
  }

  /** The reference meaning: section 6.3.2 of GraphQL October 2021, with the two directives
      evaluated where they stand. */
  function Meaning(fragments: Fragments, items: SelectionSet, variables: Variables, guards: seq<Name>): seq<Entry>
    requires Finite(fragments, items)
    decreases Height(fragments, items), |items|
  {
    if items == [] then []
    else
      HeightOfTail(fragments, items);
      var rest := Meaning(fragments, items[1..], variables, guards);
      if IsSkipped(items[0].directives, variables) then rest
      else
        assert Sub(fragments, items[0]).Some? ==>
            Finite(fragments, Sub(fragments, items[0]).value)
            && Height(fragments, Sub(fragments, items[0]).value) < Height(fragments, items) by {
          if Sub(fragments, items[0]).Some? { HeightOfSub(fragments, items, 0); }
        }
        (match items[0]
         case Field(alias, name, arguments, directives, sub) =>
           [Selected(guards, alias, name, arguments, Others(directives),
                     if sub == [] then [] else Meaning(fragments, sub, variables, []))]
         case FragmentSpread(f, _) =>
           if f in fragments then Meaning(fragments, fragments[f].items, variables, Guard(guards, Some(fragments[f].on)))
           else [Unknown(guards, f)]
         case InlineFragment(on, _, sub) => Meaning(fragments, sub, variables, Guard(guards, on)))
        + rest
  }

  /** What the later passes see: every selection counts, no directive is evaluated. */
  function PlainMeaning(fragments: Fragments, items: SelectionSet, guards: seq<Name>): seq<Entry>
    requires Finite(fragments, items)
    decreases Height(fragments, items), |items|
  {
    if items == [] then []
    else
      HeightOfTail(fragments, items);
      var rest := PlainMeaning(fragments, items[1..], guards);
      assert Sub(fragments, items[0]).Some? ==>
          Finite(fragments, Sub(fragments, items[0]).value)
          && Height(fragments, Sub(fragments, items[0]).value) < Height(fragments, items) by {
        if Sub(fragments, items[0]).Some? { HeightOfSub(fragments, items, 0); }
      }
      (match items[0]
       case Field(alias, name, arguments, directives, sub) =>
         [Selected(guards, alias, name, arguments, directives,
                   if sub == [] then [] else PlainMeaning(fragments, sub, []))]
       case FragmentSpread(f, _) =>
         if f in fragments then PlainMeaning(fragments, fragments[f].items, Guard(guards, Some(fragments[f].on)))
         else [Unknown(guards, f)]
       case InlineFragment(on, _, sub) => PlainMeaning(fragments, sub, Guard(guards, on)))
      + rest
  }

  /** Pruning preserves meaning: reading the pruned set with the pruned fragments gives,
      at every nesting level, the same fields in the same order under the same type
      conditions as evaluating `@skip` and `@include` on the original. */
  lemma {:induction false} PrunePreservesMeaning(fragments: Fragments, items: SelectionSet,
                                                 variables: Variables, guards: seq<Name>)
    requires Finite(fragments, items)
    ensures Finite(PruneFragments(fragments, variables), Prune(items, variables))
    ensures PlainMeaning(PruneFragments(fragments, variables), Prune(items, variables), guards)
         == Meaning(fragments, items, variables, guards)
    decreases Height(fragments, items), |items|
  {
    var pf := PruneFragments(fragments, variables);
    PruneFinite(fragments, items, variables);
    if items != [] {
      HeightOfTail(fragments, items);
      PrunePreservesMeaning(fragments, items[1..], variables, guards);
      if !IsSkipped(items[0].directives, variables) {
        var sub := Sub(fragments, items[0]);
        if sub.Some? {
          HeightOfSub(fragments, items, 0);
          PruneFinite(fragments, sub.value, variables);
        }
        var out := Prune(items, variables);
        assert out[0] == PruneOne(items[0], variables) && out[1..] == Prune(items[1..], variables);
        match items[0]
        case Field(_, _, _, _, nested) =>
          if nested != [] {
            PrunePreservesMeaning(fragments, nested, variables, []);
            assert out[0].items == Prune(nested, variables);
          } else {
            assert Prune([], variables) == [];
          }
          assert out[0].items == [] ==> Meaning(fragments, items, variables, guards)[0].children == [];
        case FragmentSpread(f, _) =>
          if f in fragments {
            PrunePreservesMeaning(fragments, fragments[f].items, variables, Guard(guards, Some(fragments[f].on)));
          }
        case InlineFragment(on, _, nested) =>
          PrunePreservesMeaning(fragments, nested, variables, Guard(guards, on));
      }
    }
  }

  // ----- What `@skip` and `@include` do, in their own terms -----

  /** The literal `true`, or a request variable that is set to `true`. */
  predicate IsTrue(v: InputValue, variables: Variables) {
    || v == Literal(Boolean(true))
    || (v.Variable? && v.variable in variables && variables[v.variable] == Boolean(true))
  }

  /** Argument `j` is the `if` argument that counts: the first of that name. */
  predicate IfAt(arguments: seq<(Name, InputValue)>, j: nat) {
    j < |arguments| && arguments[j].0 == "if" && forall k :: 0 <= k < j ==> arguments[k].0 != "if"
  }

  /** Directive `i`, with its `if` argument `j`, asks to leave the selection out. */
  predicate LeavesOut(directives: seq<Directive>, i: nat, j: nat, variables: Variables) {
    && i < |directives| && IfAt(directives[i].arguments, j)
    && ((directives[i].name == "skip" && IsTrue(directives[i].arguments[j].1, variables))
        || (directives[i].name == "include" && !IsTrue(directives[i].arguments[j].1, variables)))
  }

  ghost predicate LeftOut(directives: seq<Directive>, variables: Variables) {
    exists i: nat, j: nat :: LeavesOut(directives, i, j, variables)
  }

  lemma {:induction false} ArgumentIsFirst(arguments: seq<(Name, InputValue)>, j: nat)
    requires IfAt(arguments, j)
    ensures Argument(arguments, "if") == Some(arguments[j].1)
  {
    if j > 0 { ArgumentIsFirst(arguments[1..], j - 1); }
  }

  lemma {:induction false} FindIf(arguments: seq<(Name, InputValue)>) returns (j: nat)
    requires Argument(arguments, "if").Some?
    ensures IfAt(arguments, j)
  {
    if arguments[0].0 == "if" {
      j := 0;
    } else {
      var rest := FindIf(arguments[1..]);
      j := rest + 1;
    }
  }

  lemma SkippedIffLeftOut(directives: seq<Directive>, variables: Variables)
    ensures IsSkipped(directives, variables) <==> LeftOut(directives, variables)
  {
    if IsSkipped(directives, variables) {
      var i :| 0 <= i < |directives| && Removes(directives[i], variables);
      var j := FindIf(directives[i].arguments);
      ArgumentIsFirst(directives[i].arguments, j);
      ConditionHolds(directives[i].arguments[j].1, variables);
      assert LeavesOut(directives, i, j, variables);
    }
    if i: nat, j: nat :| LeavesOut(directives, i, j, variables) {
      ArgumentIsFirst(directives[i].arguments, j);
      ConditionHolds(directives[i].arguments[j].1, variables);
      assert Removes(directives[i], variables);
    }
  }

  /** `out` is `s` without the two directives, with its sub-selections pruned. */
  ghost predicate Stripped(s: Selection, out: Selection, variables: Variables) {
    && (forall d :: d in out.directives <==> d in s.directives && d.name !in {"skip", "include"})
    && (s.Field? ==> out == Field(s.alias, s.name, s.arguments, out.directives, Prune(s.items, variables)))
    && (s.FragmentSpread? ==> out == FragmentSpread(s.fragment, out.directives))
    && (s.InlineFragment? ==> out == InlineFragment(s.on, out.directives, Prune(s.items, variables)))
  }

  /** Pruning leaves a selection out exactly when one of its directives is a `@skip` whose
      `if` is true or an `@include` whose `if` is not; a directive without `if`, or with
      another name, plays no part. A selection that stays loses only the two directives. */
  lemma PruneLeavesOut(s: Selection, variables: Variables)
    ensures LeftOut(s.directives, variables) ==> Prune([s], variables) == []
    ensures !LeftOut(s.directives, variables) ==>
      |Prune([s], variables)| == 1 && Stripped(s, Prune([s], variables)[0], variables)
  {
    SkippedIffLeftOut(s.directives, variables);
    OthersFacts(s.directives);
    assert [s][1..] == [];
  }

  /** What a selection that stays means: a field itself, a fragment what it contains. */
  ghost predicate Denotes(fragments: Fragments, s: Selection, variables: Variables, guards: seq<Name>, out: seq<Entry>)
    requires FiniteSub(fragments, s)
  {
    && (s.Field? ==>
          && |out| == 1 && out[0].Selected? && out[0].guards == guards
          && out[0].alias == s.alias && out[0].name == s.name && out[0].arguments == s.arguments
          && out[0].children == if s.items == [] then [] else Meaning(fragments, s.items, variables, []))
    && (s.FragmentSpread? ==>
          out == if s.fragment in fragments
                 then Meaning(fragments, fragments[s.fragment].items, variables, guards + [fragments[s.fragment].on])
                 else [Unknown(guards, s.fragment)])
    && (s.InlineFragment? ==>
          out == Meaning(fragments, s.items, variables, if s.on.Some? then guards + [s.on.value] else guards))
  }

  /** The same for the reference meaning: a selection that is left out means nothing. */
  lemma MeaningLeavesOut(fragments: Fragments, s: Selection, variables: Variables, guards: seq<Name>)
    requires Finite(fragments, [s])
    ensures FiniteSub(fragments, s)
    ensures LeftOut(s.directives, variables) ==> Meaning(fragments, [s], variables, guards) == []
    ensures !LeftOut(s.directives, variables) ==>
      Denotes(fragments, s, variables, guards, Meaning(fragments, [s], variables, guards))
  {
    SkippedIffLeftOut(s.directives, variables);
    assert [s][1..] == [];
    if Sub(fragments, s).Some? { HeightOfSub(fragments, [s], 0); }
  }

  function If(name: Name, v: InputValue): seq<Directive> {
    [Directive(name, [("if", v)])]
  }

  /** `@skip(if: b)` and `@include(if: b)` on any field, with a literal or with a request
      variable of that value. */
  lemma SkipAndInclude(alias: Option<Name>, name: Name, arguments: seq<(Name, InputValue)>, items: SelectionSet,
                       variables: Variables, b: bool, v: InputValue)
    requires v == Literal(Boolean(b)) || (v.Variable? && v.variable in variables && variables[v.variable] == Boolean(b))
    ensures
      var stays := [Field(alias, name, arguments, [], Prune(items, variables))];
      && Prune([Field(alias, name, arguments, If("skip", v), items)], variables) == (if b then [] else stays)
      && Prune([Field(alias, name, arguments, If("include", v), items)], variables) == (if b then stays else [])
  {
    SkipTestOne("skip", v, variables);
    SkipTestOne("include", v, variables);
    var skip := Field(alias, name, arguments, If("skip", v), items);
    var only := Field(alias, name, arguments, If("include", v), items);
    assert [skip][1..] == [] && [only][1..] == [];
    PruneLeavesOut(skip, variables);
    PruneLeavesOut(only, variables);
    assert Others(If("skip", v)) == [] && Others(If("include", v)) == [] by {
      OthersFacts(If("skip", v));
      OthersFacts(If("include", v));
      assert If("skip", v)[1..] == [] && If("include", v)[1..] == [];
    }
  }

  lemma SkipTestOne(name: Name, v: InputValue, variables: Variables)
    ensures LeftOut(If(name, v), variables) <==>
      (name == "skip" && IsTrue(v, variables)) || (name == "include" && !IsTrue(v, variables))
  {
    if (name == "skip" && IsTrue(v, variables)) || (name == "include" && !IsTrue(v, variables)) {
      assert LeavesOut(If(name, v), 0, 0, variables);
    }
  }

  /** A variable that the request does not set counts as false. */
  lemma UnsetVariable(x: Name, variables: Variables)
    requires x !in variables
    ensures !LeftOut(If("skip", Variable(x)), variables) && LeftOut(If("include", Variable(x)), variables)
  {
    SkipTestOne("skip", Variable(x), variables);
    SkipTestOne("include", Variable(x), variables);
  }
}
