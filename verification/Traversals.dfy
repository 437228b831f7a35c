/** The passes that walk a prepared selection set: the explicit-stack iterator over the
    selected fields and the look-ahead filter. Both are proved against one recursive
    flattening. */
module Traversals {
  import opened Wrappers
  import opened Documents
  import opened Pruning
  import opened Collections

  /** The selected fields in depth-first order; spreads of unknown fragments select
      nothing. */
  function Flatten(fragments: Fragments, items: SelectionSet): seq<Selection>
    requires Finite(fragments, items)
    decreases Height(fragments, items), |items|
  {
    if items == [] then []
    else
      HeightOfTail(fragments, items);
      assert Sub(fragments, items[0]).Some? ==>
          Finite(fragments, Sub(fragments, items[0]).value)
          && Height(fragments, Sub(fragments, items[0]).value) < Height(fragments, items) by {
        if Sub(fragments, items[0]).Some? { HeightOfSub(fragments, items, 0); }
      }
      (match items[0]
       case Field(_, _, _, _, _) => [items[0]]
       case FragmentSpread(f, _) => if f in fragments then Flatten(fragments, fragments[f].items) else []
       case InlineFragment(_, _, sub) => Flatten(fragments, sub))
      + Flatten(fragments, items[1..])
  }

  /** The size of the unfolded set, counting a frame for each set entered. */
  ghost function Unfolded(fragments: Fragments, items: SelectionSet): nat
    requires Finite(fragments, items)
    decreases Height(fragments, items), |items|
  {
    if items == [] then 0
    else
      HeightOfTail(fragments, items);
      assert Sub(fragments, items[0]).Some? ==>
          Finite(fragments, Sub(fragments, items[0]).value)
          && Height(fragments, Sub(fragments, items[0]).value) < Height(fragments, items) by {
        if Sub(fragments, items[0]).Some? { HeightOfSub(fragments, items, 0); }
      }
      1 + Unfolded(fragments, items[1..])
        + (if items[0].Field? || Sub(fragments, items[0]).None? then 0
           else 1 + Unfolded(fragments, Sub(fragments, items[0]).value))
  }

  /** What one selection contributes to the flattening. */
  function FieldsOf(fragments: Fragments, s: Selection): seq<Selection>
    requires FiniteSub(fragments, s)
  {
    if s.Field? then [s]
    else if Sub(fragments, s).Some? then Flatten(fragments, Sub(fragments, s).value)
    else []
  }

  ghost function UnfoldedOf(fragments: Fragments, s: Selection): nat
    requires FiniteSub(fragments, s)
  {
    if s.Field? || Sub(fragments, s).None? then 1 else 2 + Unfolded(fragments, Sub(fragments, s).value)
  }

  lemma FlattenStep(fragments: Fragments, items: SelectionSet)
    requires Finite(fragments, items) && items != []
    ensures Finite(fragments, items[1..]) && FiniteSub(fragments, items[0])
    ensures Flatten(fragments, items) == FieldsOf(fragments, items[0]) + Flatten(fragments, items[1..])
    ensures Unfolded(fragments, items) == UnfoldedOf(fragments, items[0]) + Unfolded(fragments, items[1..])
  {
    HeightOfTail(fragments, items);
    if Sub(fragments, items[0]).Some? { HeightOfSub(fragments, items, 0); }
  }

  // ----- The stack iterator -----

  ghost predicate AllFinite(fragments: Fragments, stack: seq<SelectionSet>) {
    forall i :: 0 <= i < |stack| ==> Finite(fragments, stack[i])
  }

  /** What a stack of partly consumed sets will still yield, top first. */
  ghost function Pending(fragments: Fragments, stack: seq<SelectionSet>): seq<Selection>
    requires AllFinite(fragments, stack)
  {
    if stack == [] then []
    else Flatten(fragments, stack[|stack| - 1]) + Pending(fragments, stack[..|stack| - 1])
  }

  ghost function StackSize(fragments: Fragments, stack: seq<SelectionSet>): nat
    requires AllFinite(fragments, stack)
  {
    if stack == [] then 0
    else 1 + Unfolded(fragments, stack[|stack| - 1]) + StackSize(fragments, stack[..|stack| - 1])
  }

  lemma PushFacts(fragments: Fragments, stack: seq<SelectionSet>, top: SelectionSet)
    requires AllFinite(fragments, stack) && Finite(fragments, top)
    ensures AllFinite(fragments, stack + [top])
    ensures Pending(fragments, stack + [top]) == Flatten(fragments, top) + Pending(fragments, stack)
    ensures StackSize(fragments, stack + [top]) == 1 + Unfolded(fragments, top) + StackSize(fragments, stack)
  {
    var s := stack + [top];
    assert s[|s| - 1] == top && s[..|s| - 1] == stack;
  }

  /** Consuming one item of the top set. */
  lemma AdvanceFacts(fragments: Fragments, below: seq<SelectionSet>, top: SelectionSet)
    requires AllFinite(fragments, below) && Finite(fragments, top) && top != []
    ensures FiniteSub(fragments, top[0]) && AllFinite(fragments, below + [top])
    ensures AllFinite(fragments, below + [top[1..]])
    ensures Pending(fragments, below + [top])
         == FieldsOf(fragments, top[0]) + Pending(fragments, below + [top[1..]])
    ensures StackSize(fragments, below + [top])
         == UnfoldedOf(fragments, top[0]) + StackSize(fragments, below + [top[1..]])
  {
    FlattenStep(fragments, top);
    PushFacts(fragments, below, top);
    PushFacts(fragments, below, top[1..]);
  }

  class SelectionFieldsIter {
    const fragments: Fragments
    var stack: seq<SelectionSet>

    ghost predicate Valid()
      reads this
    {
      AllFinite(fragments, stack)
    }

    /** Everything the iterator has yet to yield. */
    ghost function Remaining(): seq<Selection>
      requires Valid()
      reads this
    {
      Pending(fragments, stack)
    }

    constructor (fragments: Fragments, items: SelectionSet)
      requires Finite(fragments, items)
      ensures Valid() && Remaining() == Flatten(fragments, items) && this.fragments == fragments
    {
      this.fragments := fragments;
      stack := [items];
      new;
      PushFacts(fragments, [], items);
      assert [] + [items] == [items];
    }

    method Next() returns (r: Option<Selection>)
      requires Valid()
      modifies this
      ensures Valid()
      ensures r.None? ==> old(Remaining()) == [] && Remaining() == []
      ensures r.Some? ==> r.value.Field? && old(Remaining()) == [r.value] + Remaining()
    {
      while true
        invariant Valid() && Remaining() == old(Remaining())
        decreases StackSize(fragments, stack)
      {
        if |stack| == 0 {
          return None;
        }
        var below, top := stack[..|stack| - 1], stack[|stack| - 1];
        assert stack == below + [top];
        if top == [] {
          stack := below;
        } else {
          AdvanceFacts(fragments, below, top);
          stack := below + [top[1..]];
          match top[0] {
            case Field(_, _, _, _, _) =>
              return Some(top[0]);
            case FragmentSpread(f, _) =>
              if f in fragments {
                PushFacts(fragments, stack, fragments[f].items);
                stack := stack + [fragments[f].items];
              }
            case InlineFragment(_, _, sub) =>
              PushFacts(fragments, stack, sub);
              stack := stack + [sub];
          }
        }
      }
    }
  }

  /** Running the iterator to its end yields exactly the recursive flattening, in order. */
  method CollectSelectionSet(fragments: Fragments, items: SelectionSet) returns (fields: seq<Selection>)
    requires Finite(fragments, items)
    ensures fields == Flatten(fragments, items)
  {
    var iter := new SelectionFieldsIter(fragments, items);
    fields := [];
    while true
      invariant iter.Valid() && fields + iter.Remaining() == Flatten(fragments, items)
      invariant fresh(iter)
      decreases |iter.Remaining()|
    {
      var next := iter.Next();
      if next.None? {
        return;
      }
      fields := fields + [next.value];
    }
  }

  // ----- Look-ahead -----

  function ByName(fields: seq<Selection>, name: Name): seq<Selection> {
    if fields == [] then []
    else (if fields[0].Field? && fields[0].name == name then [fields[0]] else []) + ByName(fields[1..], name)
  }

  lemma {:induction false} ByNameConcat(a: seq<Selection>, b: seq<Selection>, name: Name)
    ensures ByName(a + b, name) == ByName(a, name) + ByName(b, name)
  {
    if a == [] {
      assert a + b == b;
    } else {
      var ab := a + b;
      assert ab[0] == a[0] && ab[1..] == a[1..] + b;
      ByNameConcat(a[1..], b, name);
      Regroup(if a[0].Field? && a[0].name == name then [a[0]] else [], ByName(a[1..], name), ByName(b, name));
    }
  }

  /** `filter`: push the matching fields of one selection set onto a vector. */
  method Filter(fields: seq<Selection>, fragments: Fragments, items: SelectionSet, name: Name)
      returns (out: seq<Selection>)
    requires Finite(fragments, items)
    ensures out == fields + ByName(Flatten(fragments, items), name)
    decreases Height(fragments, items), 1
  {
    out := fields;
    ghost var goal := fields + ByName(Flatten(fragments, items), name);
    assert items[0..] == items;
    for i := 0 to |items|
      invariant Finite(fragments, items[i..])
      invariant out + ByName(Flatten(fragments, items[i..]), name) == goal
    {
      FilterStep(fragments, items, i, name, out);
      if Sub(fragments, items[i]).Some? { HeightOfSub(fragments, items, i); }
      out := FilterOne(out, fragments, items[i], name);
    }
    FilterEnd(fragments, items, name, out);
  }

  /** The body of the loop, for one selection. */
  method FilterOne(fields: seq<Selection>, fragments: Fragments, s: Selection, name: Name)
      returns (out: seq<Selection>)
    requires FiniteSub(fragments, s)
    ensures out == fields + ByName(FieldsOf(fragments, s), name)
    decreases if Sub(fragments, s).Some? then Height(fragments, Sub(fragments, s).value) + 1 else 0, 0
  {
    out := fields;
    match s {
      case Field(_, n, _, _, _) =>
        assert [s][1..] == [];
        if n == name {
          out := out + [s];
        }
      case InlineFragment(_, _, sub) =>
        out := Filter(out, fragments, sub, name);
      case FragmentSpread(f, _) =>
        if f in fragments {
          out := Filter(out, fragments, fragments[f].items, name);
        }
    }
  }

  lemma FilterEnd(fragments: Fragments, items: SelectionSet, name: Name, out: seq<Selection>)
    requires Finite(fragments, items[|items|..])
    ensures out + ByName(Flatten(fragments, items[|items|..]), name) == out
  {
    assert items[|items|..] == [];
  }

  /** Moving one selection from what is left to what is done. */
  lemma FilterStep(fragments: Fragments, items: SelectionSet, i: nat, name: Name, out: seq<Selection>)
    requires i < |items| && Finite(fragments, items[i..])
    ensures Finite(fragments, items[i + 1..]) && FiniteSub(fragments, items[i])
    ensures out + ByName(Flatten(fragments, items[i..]), name)
         == (out + ByName(FieldsOf(fragments, items[i]), name)) + ByName(Flatten(fragments, items[i + 1..]), name)
  {
    assert items[i..][0] == items[i] && items[i..][1..] == items[i + 1..];
    FlattenStep(fragments, items[i..]);
    var own, rest := FieldsOf(fragments, items[i]), Flatten(fragments, items[i + 1..]);
    ByNameConcat(own, rest, name);
    Regroup(out, ByName(own, name), ByName(rest, name));
  }

  ghost predicate Walkable(fragments: Fragments, fields: seq<Selection>) {
    forall i :: 0 <= i < |fields| ==> fields[i].Field? && Finite(fragments, fields[i].items)
  }

  /** The sub-fields called `name` of all the fields, in order. */
  function Below(fragments: Fragments, fields: seq<Selection>, name: Name): seq<Selection>
    requires Walkable(fragments, fields)
  {
    if fields == [] then []
    else ByName(Flatten(fragments, fields[0].items), name) + Below(fragments, fields[1..], name)
  }

  /** `Lookahead::field` */
  method LookaheadField(fragments: Fragments, fields: seq<Selection>, name: Name) returns (out: seq<Selection>)
    requires Walkable(fragments, fields)
    ensures out == Below(fragments, fields, name)
  {
    out := [];
    assert fields[0..] == fields;
    for i := 0 to |fields|
      invariant out + Below(fragments, fields[i..], name) == Below(fragments, fields, name)
    {
      assert fields[i..][0] == fields[i] && fields[i..][1..] == fields[i + 1..];
      Regroup(out, ByName(Flatten(fragments, fields[i].items), name), Below(fragments, fields[i + 1..], name));
      out := Filter(out, fragments, fields[i].items, name);
    }
    assert fields[|fields|..] == [];
  }

  // ----- The flattening and the meaning of a selection set -----

  function SelectedOnly(entries: seq<Entry>): seq<Entry> {
    if entries == [] then []
    else (if entries[0].Selected? then [entries[0]] else []) + SelectedOnly(entries[1..])
  }

  lemma {:induction false} SelectedOnlyConcat(a: seq<Entry>, b: seq<Entry>)
    ensures SelectedOnly(a + b) == SelectedOnly(a) + SelectedOnly(b)
  {
    if a == [] {
      assert a + b == b;
    } else {
      var ab := a + b;
      assert ab[0] == a[0] && ab[1..] == a[1..] + b;
      SelectedOnlyConcat(a[1..], b);
      Regroup(if a[0].Selected? then [a[0]] else [], SelectedOnly(a[1..]), SelectedOnly(b));
    }
  }

  ghost predicate Describes(fragments: Fragments, e: Entry, f: Selection) {
    && e.Selected? && f.Field?
    && e.alias == f.alias && e.name == f.name && e.arguments == f.arguments && e.directives == f.directives
    && Finite(fragments, f.items) && e.children == PlainMeaning(fragments, f.items, [])
  }

  ghost predicate AllDescribe(fragments: Fragments, es: seq<Entry>, fs: seq<Selection>) {
    |es| == |fs| && forall i :: 0 <= i < |es| ==> Describes(fragments, es[i], fs[i])
  }

  /** What one selection contributes to the meaning. */
  function EntriesOf(fragments: Fragments, s: Selection, guards: seq<Name>): seq<Entry>
    requires FiniteSub(fragments, s)
  {
    match s
    case Field(alias, name, arguments, directives, sub) =>
      [Selected(guards, alias, name, arguments, directives, if sub == [] then [] else PlainMeaning(fragments, sub, []))]
    case FragmentSpread(f, _) =>
      if f in fragments then PlainMeaning(fragments, fragments[f].items, Guard(guards, Some(fragments[f].on)))
      else [Unknown(guards, f)]
    case InlineFragment(on, _, sub) => PlainMeaning(fragments, sub, Guard(guards, on))
  }

  lemma MeaningStep(fragments: Fragments, items: SelectionSet, guards: seq<Name>)
    requires Finite(fragments, items) && items != []
    ensures Finite(fragments, items[1..]) && FiniteSub(fragments, items[0])
    ensures PlainMeaning(fragments, items, guards)
         == EntriesOf(fragments, items[0], guards) + PlainMeaning(fragments, items[1..], guards)
  {
    HeightOfTail(fragments, items);
    if Sub(fragments, items[0]).Some? { HeightOfSub(fragments, items, 0); }
  }

  lemma DescribeConcat(fragments: Fragments, es: seq<Entry>, fs: seq<Selection>, es': seq<Entry>, fs': seq<Selection>)
    requires AllDescribe(fragments, es, fs) && AllDescribe(fragments, es', fs')
    ensures AllDescribe(fragments, es + es', fs + fs')
  {
  }

  lemma FieldDescribed(fragments: Fragments, s: Selection, guards: seq<Name>)
    requires s.Field? && FiniteSub(fragments, s)
    ensures AllDescribe(fragments, SelectedOnly(EntriesOf(fragments, s, guards)), FieldsOf(fragments, s))
  {
    EmptyIsFinite(fragments);
    var e := EntriesOf(fragments, s, guards);
    assert e[1..] == [];
    assert SelectedOnly(e) == e;
    assert Describes(fragments, e[0], s);
  }

  /** The flattening lists exactly the entries of the meaning, in order, with their
      nested meanings. */
  lemma {:induction false} FlattenIsMeaning(fragments: Fragments, items: SelectionSet, guards: seq<Name>)
    requires Finite(fragments, items)
    ensures AllDescribe(fragments, SelectedOnly(PlainMeaning(fragments, items, guards)), Flatten(fragments, items))
    decreases Height(fragments, items), |items|
  {
    if items != [] {
      FlattenStep(fragments, items);
      MeaningStep(fragments, items, guards);
      HeightOfTail(fragments, items);
      FlattenIsMeaning(fragments, items[1..], guards);
      var own, rest := EntriesOf(fragments, items[0], guards), PlainMeaning(fragments, items[1..], guards);
      assert AllDescribe(fragments, SelectedOnly(own), FieldsOf(fragments, items[0])) by {
        if Sub(fragments, items[0]).Some? { HeightOfSub(fragments, items, 0); }
        match items[0]
        case Field(_, _, _, _, _) => FieldDescribed(fragments, items[0], guards);
        case FragmentSpread(f, _) =>
          if f in fragments {
            FlattenIsMeaning(fragments, fragments[f].items, Guard(guards, Some(fragments[f].on)));
          } else {
            assert own[1..] == [];
          }
        case InlineFragment(on, _, nested) => FlattenIsMeaning(fragments, nested, Guard(guards, on));
      }
      SelectedOnlyConcat(own, rest);
      DescribeConcat(fragments, SelectedOnly(own), FieldsOf(fragments, items[0]),
                     SelectedOnly(rest), Flatten(fragments, items[1..]));
    }
  }

  // ----- What a chain of look-aheads answers -----

  /** `field(path[0]).field(path[1])...` starting from some fields. */
  ghost function LookPath(fragments: Fragments, fields: seq<Selection>, path: seq<Name>): seq<Selection>
    requires Walkable(fragments, fields)
    decreases path
  {
    if path == [] then fields
    else
      BelowMembers(fragments, fields, path[0]);
      LookPath(fragments, Below(fragments, fields, path[0]), path[1..])
  }

  /** A chain of nested selected fields with these names. */
  ghost predicate HasPath(entries: seq<Entry>, path: seq<Name>)
    decreases path
  {
    path == [] ||
    exists i :: 0 <= i < |entries| && entries[i].Selected? && entries[i].name == path[0]
      && HasPath(entries[i].children, path[1..])
  }

  lemma {:induction false} ByNameMembers(fields: seq<Selection>, name: Name)
    ensures forall g :: g in ByName(fields, name) <==> g in fields && g.Field? && g.name == name
  {
    if fields != [] { ByNameMembers(fields[1..], name); }
  }

  lemma {:induction false} SelectedMembers(entries: seq<Entry>)
    ensures forall e :: e in SelectedOnly(entries) <==> e in entries && e.Selected?
  {
    if entries != [] { SelectedMembers(entries[1..]); }
  }

  lemma {:induction false} BelowMembers(fragments: Fragments, fields: seq<Selection>, name: Name)
    requires Walkable(fragments, fields)
    ensures Walkable(fragments, Below(fragments, fields, name))
    ensures forall g :: g in Below(fragments, fields, name) <==>
      exists i :: 0 <= i < |fields| && g in ByName(Flatten(fragments, fields[i].items), name)
  {
    if fields != [] {
      BelowMembers(fragments, fields[1..], name);
      var own, rest := ByName(Flatten(fragments, fields[0].items), name), Below(fragments, fields[1..], name);
      assert Walkable(fragments, own) by { OwnWalkable(fragments, fields[0].items, name); }
      forall g ensures g in own + rest <==>
        exists i :: 0 <= i < |fields| && g in ByName(Flatten(fragments, fields[i].items), name)
      {
        if g in rest {
          var i :| 0 <= i < |fields[1..]| && g in ByName(Flatten(fragments, fields[1..][i].items), name);
          assert fields[i + 1] == fields[1..][i];
        }
        if i :| 0 <= i < |fields| && g in ByName(Flatten(fragments, fields[i].items), name) {
          if i > 0 { assert fields[i] == fields[1..][i - 1]; }
        }
      }
    }
  }

  lemma OwnWalkable(fragments: Fragments, items: SelectionSet, name: Name)
    requires Finite(fragments, items)
    ensures Walkable(fragments, ByName(Flatten(fragments, items), name))
  {
    var flat := Flatten(fragments, items);
    FlattenIsMeaning(fragments, items, []);
    ByNameMembers(flat, name);
    var own := ByName(flat, name);
    forall i | 0 <= i < |own| ensures own[i].Field? && Finite(fragments, own[i].items) {
      assert own[i] in flat;
      var j :| 0 <= j < |flat| && flat[j] == own[i];
      assert Describes(fragments, SelectedOnly(PlainMeaning(fragments, items, []))[j], flat[j]);
    }
  }

  /** One level: the meaning has a path through `name` exactly when one of the flattened
      fields of that name has the rest of the path. */
  ghost predicate StepsTo(fragments: Fragments, own: seq<Selection>, path: seq<Name>)
    requires Walkable(fragments, own)
  {
    exists j :: 0 <= j < |own| && HasPath(PlainMeaning(fragments, own[j].items, []), path)
  }

  lemma PathIntoField(fragments: Fragments, entries: seq<Entry>, flat: seq<Selection>, path: seq<Name>)
    requires path != [] && AllDescribe(fragments, SelectedOnly(entries), flat)
    requires Walkable(fragments, ByName(flat, path[0]))
    requires HasPath(entries, path)
    ensures StepsTo(fragments, ByName(flat, path[0]), path[1..])
  {
    var i :| 0 <= i < |entries| && entries[i].Selected? && entries[i].name == path[0]
      && HasPath(entries[i].children, path[1..]);
    SelectedMembers(entries);
    var chosen := SelectedOnly(entries);
    assert entries[i] in chosen;
    var k :| 0 <= k < |chosen| && chosen[k] == entries[i];
    assert Describes(fragments, chosen[k], flat[k]);
    ByNameMembers(flat, path[0]);
    var own := ByName(flat, path[0]);
    assert flat[k] in own;
    var j :| 0 <= j < |own| && own[j] == flat[k];
  }

  lemma FieldIntoPath(fragments: Fragments, entries: seq<Entry>, flat: seq<Selection>, path: seq<Name>)
    requires path != [] && AllDescribe(fragments, SelectedOnly(entries), flat)
    requires Walkable(fragments, ByName(flat, path[0]))
    requires StepsTo(fragments, ByName(flat, path[0]), path[1..])
    ensures HasPath(entries, path)
  {
    var own := ByName(flat, path[0]);
    var j :| 0 <= j < |own| && HasPath(PlainMeaning(fragments, own[j].items, []), path[1..]);
    ByNameMembers(flat, path[0]);
    assert own[j] in own;
    var k :| 0 <= k < |flat| && flat[k] == own[j];
    var chosen := SelectedOnly(entries);
    assert Describes(fragments, chosen[k], flat[k]);
    SelectedMembers(entries);
    assert chosen[k] in entries;
    var i :| 0 <= i < |entries| && entries[i] == chosen[k];
  }

  lemma OneLevel(fragments: Fragments, items: SelectionSet, path: seq<Name>)
    requires Finite(fragments, items) && path != []
    ensures Walkable(fragments, ByName(Flatten(fragments, items), path[0]))
    ensures HasPath(PlainMeaning(fragments, items, []), path) <==>
      StepsTo(fragments, ByName(Flatten(fragments, items), path[0]), path[1..])
  {
    OwnWalkable(fragments, items, path[0]);
    FlattenIsMeaning(fragments, items, []);
    var entries, flat := PlainMeaning(fragments, items, []), Flatten(fragments, items);
    if HasPath(entries, path) { PathIntoField(fragments, entries, flat, path); }
    if StepsTo(fragments, ByName(flat, path[0]), path[1..]) { FieldIntoPath(fragments, entries, flat, path); }
  }

  /** A chain of look-aheads finds something exactly when the selection set means a chain
      of nested fields with those names. */
  lemma {:induction false} LookaheadFindsMeaning(fragments: Fragments, fields: seq<Selection>, path: seq<Name>)
    requires Walkable(fragments, fields)
    ensures LookPath(fragments, fields, path) != [] <==>
      exists i :: 0 <= i < |fields| && HasPath(PlainMeaning(fragments, fields[i].items, []), path)
    decreases path
  {
    if path == [] {
      if fields != [] { assert HasPath(PlainMeaning(fragments, fields[0].items, []), path); }
    } else {
      var below := Below(fragments, fields, path[0]);
      BelowMembers(fragments, fields, path[0]);
      LookaheadFindsMeaning(fragments, below, path[1..]);
      if j :| 0 <= j < |below| && HasPath(PlainMeaning(fragments, below[j].items, []), path[1..]) {
        assert below[j] in below;
        var i :| 0 <= i < |fields| && below[j] in ByName(Flatten(fragments, fields[i].items), path[0]);
        OneLevel(fragments, fields[i].items, path);
        var own := ByName(Flatten(fragments, fields[i].items), path[0]);
        var k :| 0 <= k < |own| && own[k] == below[j];
        assert StepsTo(fragments, own, path[1..]);
      }
      if i :| 0 <= i < |fields| && HasPath(PlainMeaning(fragments, fields[i].items, []), path) {
        OneLevel(fragments, fields[i].items, path);
        var own := ByName(Flatten(fragments, fields[i].items), path[0]);
        var j :| 0 <= j < |own| && HasPath(PlainMeaning(fragments, own[j].items, []), path[1..]);
        assert own[j] in below;
      }
    }
  }
}
