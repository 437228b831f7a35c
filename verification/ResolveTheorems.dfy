/** What resolution guarantees: collected fields are those of the document, fields declared
    by an interface are never dropped, lists keep their shape, and errors say where they are. */
module ResolveTheorems {
  import opened Wrappers
  import opened Paths
  import opened DynamicSchema
  import opened SchemaCheck
  import opened DynamicResolve
  import opened Collections
  import T = TypeRefs
  import D = Documents
  import P = Pruning
  import W = Traversals
  import X = InterfaceExample

  // ----- Collected fields are the meaning of the selection set -----

  /** All type conditions on the way to an entry hold for the object. */
  predicate Guarded(o: Type, guards: seq<Name>)
    requires o.Object?
  {
    forall i :: 0 <= i < |guards| ==> Matches(o, Some(guards[i]))
  }

  /** The entries that apply to an object. */
  function For(o: Type, entries: seq<P.Entry>): seq<P.Entry>
    requires o.Object?
  {
    if entries == [] then []
    else (if Guarded(o, entries[0].guards) then [entries[0]] else []) + For(o, entries[1..])
  }

  lemma {:induction false} ForConcat(o: Type, a: seq<P.Entry>, b: seq<P.Entry>)
    requires o.Object?
    ensures For(o, a + b) == For(o, a) + For(o, b)
  {
    if a == [] {
      assert a + b == b;
    } else {
      var ab := a + b;
      assert ab[0] == a[0] && ab[1..] == a[1..] + b;
      ForConcat(o, a[1..], b);
      Regroup(if Guarded(o, a[0].guards) then [a[0]] else [], For(o, a[1..]), For(o, b));
    }
  }

  ghost predicate Carry(entries: seq<P.Entry>, guards: seq<Name>) {
    forall i :: 0 <= i < |entries| ==> guards <= entries[i].guards
  }

  /** Every entry carries the guards under which its set was read. */
  lemma {:induction false} GuardsCarried(fragments: D.Fragments, items: D.SelectionSet, guards: seq<Name>)
    requires D.Finite(fragments, items)
    ensures Carry(P.PlainMeaning(fragments, items, guards), guards)
    decreases D.Height(fragments, items), |items|
  {
    if items != [] {
      W.MeaningStep(fragments, items, guards);
      D.HeightOfTail(fragments, items);
      GuardsCarried(fragments, items[1..], guards);
      assert Carry(W.EntriesOf(fragments, items[0], guards), guards) by {
        if D.Sub(fragments, items[0]).Some? { D.HeightOfSub(fragments, items, 0); }
        match items[0]
        case Field(_, _, _, _, _) =>
        case FragmentSpread(f, _) =>
          if f in fragments {
            GuardsCarried(fragments, fragments[f].items, P.Guard(guards, Some(fragments[f].on)));
          }
        case InlineFragment(on, _, nested) => GuardsCarried(fragments, nested, P.Guard(guards, on));
      }
    }
  }

  lemma {:induction false} NoneFor(o: Type, entries: seq<P.Entry>, guards: seq<Name>)
    requires o.Object? && Carry(entries, guards) && !Guarded(o, guards)
    ensures For(o, entries) == []
  {
    if entries != [] {
      assert guards <= entries[0].guards;
      NoneFor(o, entries[1..], guards);
    }
  }

  ghost predicate FirstUnknownAt(entries: seq<P.Entry>, i: nat, f: Name) {
    && i < |entries| && entries[i].Unknown? && entries[i].fragment == f
    && forall j :: 0 <= j < i ==> entries[j].Selected?
  }

  /** What collecting found, compared with the entries that apply. */
  ghost predicate Collected(env: Env, entries: seq<P.Entry>, found: Result<seq<D.Selection>, Name>) {
    match found
    case Ok(fields) =>
      && (forall i :: 0 <= i < |entries| ==> entries[i].Selected?)
      && W.AllDescribe(env.fragments, entries, fields)
    case Err(f) => exists i: nat :: FirstUnknownAt(entries, i, f)
  }

  lemma CollectedConcat(env: Env, a: seq<P.Entry>, x: Result<seq<D.Selection>, Name>,
                        b: seq<P.Entry>, y: Result<seq<D.Selection>, Name>)
    requires Collected(env, a, x) && Collected(env, b, y)
    ensures Collected(env, a + b, Both(x, y))
  {
    var ab := a + b;
    if x.Err? {
      var i: nat :| FirstUnknownAt(a, i, x.error);
      assert FirstUnknownAt(ab, i, x.error);
    } else if y.Err? {
      var i: nat :| FirstUnknownAt(b, i, y.error);
      assert ab[|a| + i] == b[i];
      assert FirstUnknownAt(ab, |a| + i, y.error);
    } else {
      W.DescribeConcat(env.fragments, a, x.value, b, y.value);
    }
  }

  lemma OwnCollected(env: Env, o: Type, s: D.Selection, guards: seq<Name>)
    requires o.Object? && Guarded(o, guards) && D.FiniteSub(env.fragments, s)
    requires s.Field? || D.Sub(env.fragments, s).None?
    ensures Collected(env, For(o, W.EntriesOf(env.fragments, s, guards)), Contribution(env, o, s))
  {
    var e := W.EntriesOf(env.fragments, s, guards);
    assert e[1..] == [] && For(o, e) == e;
    if s.Field? {
      D.EmptyIsFinite(env.fragments);
      assert W.Describes(env.fragments, e[0], s);
    } else {
      assert FirstUnknownAt(e, 0, s.fragment);
    }
  }

  /** `collect_fields` yields, in order, exactly the fields that the selection set means for
      the object, and fails exactly when an unknown fragment is among them, with the first. */
  lemma {:induction false} CollectsMeaning(env: Env, o: Type, items: D.SelectionSet, guards: seq<Name>)
    requires o.Object? && Guarded(o, guards) && D.Finite(env.fragments, items)
    ensures Collected(env, For(o, P.PlainMeaning(env.fragments, items, guards)), Applicable(env, o, items))
    decreases D.Height(env.fragments, items), |items|
  {
    if items != [] {
      var fragments := env.fragments;
      W.MeaningStep(fragments, items, guards);
      ApplicableStep(env, o, items);
      D.HeightOfTail(fragments, items);
      CollectsMeaning(env, o, items[1..], guards);
      var own, rest := W.EntriesOf(fragments, items[0], guards), P.PlainMeaning(fragments, items[1..], guards);
      ForConcat(o, own, rest);
      assert Collected(env, For(o, own), Contribution(env, o, items[0])) by {
        if items[0].Field? || D.Sub(fragments, items[0]).None? {
          OwnCollected(env, o, items[0], guards);
        } else {
          D.HeightOfSub(fragments, items, 0);
          var sub, inner := D.Sub(fragments, items[0]).value, P.Guard(guards, Condition(env, items[0]));
          assert own == P.PlainMeaning(fragments, sub, inner);
          if Matches(o, Condition(env, items[0])) {
            CollectsMeaning(env, o, sub, inner);
          } else {
            assert inner[|guards|] == Condition(env, items[0]).value;
            GuardsCarried(fragments, sub, inner);
            NoneFor(o, own, inner);
          }
        }
      }
      CollectedConcat(env, For(o, own), Contribution(env, o, items[0]), For(o, rest), Applicable(env, o, items[1..]));
    }
  }

  /** On a prepared request the resolver runs the fields of the original document: those
      that survive `@skip` and `@include` and whose type conditions hold for the object. */
  lemma ResolverRunsOriginal(env: Env, o: Type, fragments: D.Fragments, items: D.SelectionSet, variables: D.Variables)
    requires o.Object? && D.Finite(fragments, items) && env.fragments == P.PruneFragments(fragments, variables)
    ensures D.Finite(env.fragments, P.Prune(items, variables))
    ensures Collected(env, For(o, P.Meaning(fragments, items, variables, [])),
                      Applicable(env, o, P.Prune(items, variables)))
  {
    P.PrunePreservesMeaning(fragments, items, variables, []);
    CollectsMeaning(env, o, P.Prune(items, variables), []);
  }

  // ----- Fields declared by an interface are never dropped -----

  /** Field `k` becomes exactly one task, between those of the fields before and after it. */
  ghost predicate OneTask(env: Env, o: Type, fields: seq<D.Selection>, k: nat)
    requires o.Object? && k < |fields| && forall i :: 0 <= i < |fields| ==> fields[i].Field?
  {
    var task := TaskFor(env, o, fields[k]);
    && task.Some?
    && Tasks(env, o, fields) == Tasks(env, o, fields[..k]) + [task.value] + Tasks(env, o, fields[k + 1..])
  }

  /** A field that the object defines is not dropped, whatever stands beside it. */
  lemma DefinedIsKept(env: Env, o: Type, fields: seq<D.Selection>, k: nat)
    requires o.Object? && k < |fields| && forall i :: 0 <= i < |fields| ==> fields[i].Field?
    requires fields[k].name in o.fields
    ensures OneTask(env, o, fields, k)
  {
    var before, here, after := fields[..k], [fields[k]], fields[k + 1..];
    assert fields == (before + here) + after;
    TasksConcat(env, o, before + here, after);
    TasksConcat(env, o, before, here);
    assert here[1..] == [];
  }

  /** What a value enters through an interface: an object that declares to implement it and
      defines all its fields. */
  ghost predicate Provides(o: Type, i: Name, fields: set<Name>) {
    o.Object? && i in o.implements && fields <= o.fields.Keys
  }

  lemma EntersImplementor(env: Env, b: Builder, i: Name, value: FieldValue)
    requires BuiltFrom(env.schema, b) && Accepted(env.schema)
    requires i in env.schema.types && env.schema.types[i].Interface?
    ensures
      var d := Dispatch(env, env.schema.types[i], value);
      d.Enter? ==> Provides(d.obj, i, env.schema.types[i].fields.Keys)
  {
    if Dispatch(env, env.schema.types[i], value).Enter? {
      InterfaceNameIsKey(env.schema, b, i);
      PossibleTypeDefinesFields(env.schema, b, i, value.ty);
    }
  }

  lemma InterfaceNameIsKey(s: Schema, b: Builder, i: Name)
    requires BuiltFrom(s, b) && i in s.types && s.types[i].Interface?
    ensures s.types[i].name == i
  {
    WithScalarsFacts(b.types, SYSTEM_SCALARS);
  }

  ghost predicate EachKept(env: Env, o: Type, fields: seq<D.Selection>, names: set<Name>)
    requires o.Object?
  {
    && (forall k :: 0 <= k < |fields| ==> fields[k].Field?)
    && forall k :: 0 <= k < |fields| && fields[k].name in names ==> OneTask(env, o, fields, k)
  }

  lemma DefinedAreKept(env: Env, o: Type, items: D.SelectionSet, names: set<Name>)
    requires o.Object? && names <= o.fields.Keys && D.Finite(env.fragments, items)
    ensures
      var fields := Applicable(env, o, items);
      fields.Ok? ==> EachKept(env, o, fields.value, names)
  {
    if Applicable(env, o, items).Ok? {
      ApplicableNested(env, o, items);
      var fields := Applicable(env, o, items).value;
      forall k | 0 <= k < |fields| ensures fields[k].Field? { assert Nested(env, fields[k], Span(env, items)); }
      forall k | 0 <= k < |fields| && fields[k].name in names ensures OneTask(env, o, fields, k) {
        DefinedIsKept(env, o, fields, k);
      }
    }
  }

  /** A value resolved through an interface enters an object that defines every field of the
      interface: each applicable occurrence of such a field becomes exactly one task, in its
      place, whatever other fields are selected beside it. */
  lemma InterfaceFieldsKept(env: Env, b: Builder, i: Name, value: FieldValue, items: D.SelectionSet)
    requires BuiltFrom(env.schema, b) && Accepted(env.schema)
    requires i in env.schema.types && env.schema.types[i].Interface?
    requires D.Finite(env.fragments, items)
    ensures
      var d := Dispatch(env, env.schema.types[i], value);
      d.Enter? ==>
        var fields := Applicable(env, d.obj, items);
        && Provides(d.obj, i, env.schema.types[i].fields.Keys)
        && (fields.Ok? ==> EachKept(env, d.obj, fields.value, env.schema.types[i].fields.Keys))
  {
    var d := Dispatch(env, env.schema.types[i], value);
    if d.Enter? {
      EntersImplementor(env, b, i, value);
      DefinedAreKept(env, d.obj, items, env.schema.types[i].fields.Keys);
    }
  }

  /** Every type condition on the way to an occurrence is the interface itself, the object
      or something the object declares to implement. */
  predicate Admits(o: Type, i: Name, guards: seq<Name>)
    requires o.Object?
  {
    forall k :: 0 <= k < |guards| ==> guards[k] == i || guards[k] == o.name || guards[k] in o.implements
  }

  lemma ForAt(o: Type, entries: seq<P.Entry>, j: nat)
    requires o.Object? && j < |entries|
    ensures For(o, entries) ==
      For(o, entries[..j]) + (if Guarded(o, entries[j].guards) then [entries[j]] else []) + For(o, entries[j + 1..])
  {
    var before, rest := entries[..j], entries[j..];
    assert entries == before + rest && rest[0] == entries[j] && rest[1..] == entries[j + 1..];
    ForConcat(o, before, rest);
    Regroup(For(o, before), if Guarded(o, rest[0].guards) then [rest[0]] else [], For(o, rest[1..]));
  }

  /** What becomes of one occurrence in the meaning of a selection set: exactly one task if
      its type conditions admit the object; otherwise nothing, and the collected fields are
      those of the meaning without it. */
  ghost predicate Followed(env: Env, o: Type, i: Name, entries: seq<P.Entry>, fields: seq<D.Selection>, j: nat)
    requires o.Object? && j < |entries|
  {
    && (forall k :: 0 <= k < |fields| ==> fields[k].Field?)
    && W.AllDescribe(env.fragments, For(o, entries), fields)
    && if Admits(o, i, entries[j].guards)
       then
         var k := |For(o, entries[..j])|;
         k < |fields| && W.Describes(env.fragments, entries[j], fields[k]) && OneTask(env, o, fields, k)
       else For(o, entries) == For(o, entries[..j]) + For(o, entries[j + 1..])
  }

  lemma AdmitsIsGuarded(o: Type, i: Name, guards: seq<Name>)
    requires o.Object? && i in o.implements
    ensures Admits(o, i, guards) <==> Guarded(o, guards)
  {
    forall k | 0 <= k < |guards|
      ensures Matches(o, Some(guards[k])) <==> guards[k] == i || guards[k] == o.name || guards[k] in o.implements
    {
    }
  }

  lemma GuardedFollowed(env: Env, o: Type, names: set<Name>, entries: seq<P.Entry>, fields: seq<D.Selection>, j: nat)
    requires o.Object? && EachKept(env, o, fields, names) && W.AllDescribe(env.fragments, For(o, entries), fields)
    requires j < |entries| && entries[j].Selected? && entries[j].name in names && Guarded(o, entries[j].guards)
    ensures
      var k := |For(o, entries[..j])|;
      k < |fields| && W.Describes(env.fragments, entries[j], fields[k]) && OneTask(env, o, fields, k)
  {
    var k := |For(o, entries[..j])|;
    ForAt(o, entries, j);
    assert For(o, entries)[k] == entries[j];
    assert W.Describes(env.fragments, entries[j], fields[k]);
  }

  lemma UnguardedSkipped(o: Type, entries: seq<P.Entry>, j: nat)
    requires o.Object? && j < |entries| && !Guarded(o, entries[j].guards)
    ensures For(o, entries) == For(o, entries[..j]) + For(o, entries[j + 1..])
  {
    ForAt(o, entries, j);
  }

  lemma EntryFollowed(env: Env, o: Type, i: Name, names: set<Name>, entries: seq<P.Entry>, fields: seq<D.Selection>, j: nat)
    requires o.Object? && i in o.implements && EachKept(env, o, fields, names)
    requires W.AllDescribe(env.fragments, For(o, entries), fields)
    requires j < |entries| && entries[j].Selected? && entries[j].name in names
    ensures Followed(env, o, i, entries, fields, j)
  {
    AdmitsIsGuarded(o, i, entries[j].guards);
    if Guarded(o, entries[j].guards) {
      GuardedFollowed(env, o, names, entries, fields, j);
    } else {
      UnguardedSkipped(o, entries, j);
    }
  }

  lemma OccurrenceFollowed(env: Env, o: Type, i: Name, names: set<Name>, items: D.SelectionSet, j: nat)
    requires Provides(o, i, names) && D.Finite(env.fragments, items) && Applicable(env, o, items).Ok?
    requires j < |P.PlainMeaning(env.fragments, items, [])|
    requires P.PlainMeaning(env.fragments, items, [])[j].Selected?
    requires P.PlainMeaning(env.fragments, items, [])[j].name in names
    ensures Followed(env, o, i, P.PlainMeaning(env.fragments, items, []), Applicable(env, o, items).value, j)
  {
    var entries, fields := P.PlainMeaning(env.fragments, items, []), Applicable(env, o, items).value;
    DefinedAreKept(env, o, items, names);
    CollectsMeaning(env, o, items, []);
    assert Collected(env, For(o, entries), Ok(fields));
    EntryFollowed(env, o, i, names, entries, fields, j);
  }

  /** The same on the document: an occurrence of an interface field becomes exactly one task
      if and only if its type conditions admit the object. */
  lemma InterfaceOccurrences(env: Env, b: Builder, i: Name, value: FieldValue, items: D.SelectionSet, j: nat)
    requires BuiltFrom(env.schema, b) && Accepted(env.schema)
    requires i in env.schema.types && env.schema.types[i].Interface?
    requires D.Finite(env.fragments, items) && j < |P.PlainMeaning(env.fragments, items, [])|
    requires P.PlainMeaning(env.fragments, items, [])[j].Selected?
    requires P.PlainMeaning(env.fragments, items, [])[j].name in env.schema.types[i].fields
    ensures
      var d := Dispatch(env, env.schema.types[i], value);
      d.Enter? && Applicable(env, d.obj, items).Ok? ==>
        Followed(env, d.obj, i, P.PlainMeaning(env.fragments, items, []), Applicable(env, d.obj, items).value, j)
  {
    var d := Dispatch(env, env.schema.types[i], value);
    if d.Enter? && Applicable(env, d.obj, items).Ok? {
      EntersImplementor(env, b, i, value);
      OccurrenceFollowed(env, d.obj, i, env.schema.types[i].fields.Keys, items, j);
    }
  }

  /** Interface `i` implements `j`, both declare `f`, and object `o`, a possible type of `i`,
      does not declare `j`. */
  ghost predicate Undeclared(s: Schema, j: Name, i: Name, o: Name, f: Name) {
    && j in s.types && s.types[j].Interface? && f in s.types[j].fields
    && i in s.types && s.types[i].Interface? && f in s.types[i].fields && j in s.types[i].implements
    && s.types[i].name in s.possible && o in s.possible[s.types[i].name]
    && o in s.types && s.types[o].Object? && s.types[o].name != j && j !in s.types[o].implements
  }

  function OnParent(j: Name, f: Name): D.SelectionSet {
    [D.InlineFragment(Some(j), [], [D.Field(None, f, [], [], [])])]
  }

  /** An occurrence that is dropped: a fragment on the parent `j`, in which the field is
      declared too, yields nothing for a value resolved through `i`. */
  lemma ParentConditionDrops(env: Env, j: Name, i: Name, o: Name, f: Name, v: FieldValue)
    requires Undeclared(env.schema, j, i, o, f)
    ensures Dispatch(env, env.schema.types[i], WithType(v, o)) == Enter(env.schema.types[o], v)
    ensures D.Finite(env.fragments, OnParent(j, f)) && Applicable(env, env.schema.types[o], OnParent(j, f)) == Ok([])
  {
    var items, obj := OnParent(j, f), env.schema.types[o];
    assert D.Within(env.fragments, items, 1);
    ApplicableStep(env, obj, items);
    assert items[1..] == [] && Contribution(env, obj, items[0]) == Ok([]);
    assert Applicable(env, obj, []) == Ok([]);
    var none: seq<D.Selection> := [];
    assert none + none == none;
  }

  lemma HoldsUndeclared(s: Schema, j: Name, i: Name, o: Name, q: Name, fields: map<Name, OutputField>,
                        root: map<Name, OutputField>, f: Name)
    requires X.HoldsParent(s.types, j, i, o, q, fields, root) && f in fields && j != o && j != i
    requires i in s.possible && o in s.possible[i]
    ensures Undeclared(s, j, i, o, f)
  {
  }

  /** `finish` accepts schemas in which this happens. */
  lemma UndeclaredParentAccepted(j: Name, i: Name, o: Name, q: Name, f: Name)
    requires X.UsableParent(j, i, o, q, f)
    ensures
      var b := X.ParentSchema(j, i, o, q, f);
      BuiltFrom(SchemaOf(b), b) && Accepted(SchemaOf(b)) && Undeclared(SchemaOf(b), j, i, o, f)
  {
    X.ParentSchemaAccepted(j, i, o, q, f);
    HoldsUndeclared(SchemaOf(X.ParentSchema(j, i, o, q, f)), j, i, o, q, map[f := X.INT_FIELD],
                    map[f := OutputField(T.NonNull(T.Named(i)), map[])], f);
  }

  // ----- Lists keep their shape -----

  /** The output has the nesting, the lengths and the order of the value: a leaf is what its
      element is finished as, and an entered element is what its own object resolves to. */
  ghost predicate SameShape(env: Env, f: D.Selection, ty: T.TypeRef, value: FieldValue, node: PathNode, out: Output)
    requires f.Field? && D.Finite(env.fragments, f.items)
    decreases ty
  {
    match ty
    case Named(n) =>
      && n in env.schema.types
      && (match Dispatch(env, env.schema.types[n], value)
          case Bad(_) => false
          case Done(output) => out == output
          case Enter(o, v) => Container(env, o, f.items, v, Some(node)).result == Ok(Some(out)))
    case NonNull(inner) => SameShape(env, f, inner, value, node, out)
    case List(inner) =>
      && ElementsOf(value).Some? && out.Elements?
      && var vs := ElementsOf(value).value;
      && |out.elements| == |vs|
      && forall i :: 0 <= i < |vs| ==> SameShape(env, f, inner, vs[i], WithIndex(Some(node), i), out.elements[i])
  }

  lemma {:induction false} PresentStaysPresent(env: Env, f: D.Selection, ty: T.TypeRef, value: FieldValue, node: PathNode)
    requires f.Field? && D.Finite(env.fragments, f.items)
    ensures
      var r := Resolution(env, f, ty, Some(value), node).result;
      r.Ok? ==> r.value.Some?
    decreases ty
  {
    if ty.NonNull? { PresentStaysPresent(env, f, ty.inner, value, node); }
  }

  /** A successful resolve keeps list lengths and order at every nesting of list types. */
  lemma {:induction false} ListsKeepShape(env: Env, f: D.Selection, ty: T.TypeRef, value: FieldValue, node: PathNode)
    requires f.Field? && D.Finite(env.fragments, f.items)
    ensures
      var r := Resolution(env, f, ty, Some(value), node).result;
      r.Ok? ==> r.value.Some? && SameShape(env, f, ty, value, node, r.value.value)
    decreases ty
  {
    PresentStaysPresent(env, f, ty, value, node);
    var r := Resolution(env, f, ty, Some(value), node).result;
    if r.Ok? {
      match ty
      case Named(_) =>
      case NonNull(inner) => ListsKeepShape(env, f, inner, value, node);
      case List(inner) =>
        var vs := ElementsOf(value).value;
        var outs := seq(|vs|, i requires 0 <= i < |vs| =>
          Resolution(env, f, inner, Some(vs[i]), WithIndex(Some(node), i)));
        assert Resolution(env, f, ty, Some(value), node) == Join(env, outs, Segments(node));
        FailingFacts(outs);
        forall i | 0 <= i < |vs|
          ensures SameShape(env, f, inner, vs[i], WithIndex(Some(node), i), r.value.value.elements[i])
        {
          ListsKeepShape(env, f, inner, vs[i], WithIndex(Some(node), i));
          assert outs[i].result.Ok?;
        }
    }
  }

  /** The constants that a resolver handed over, in the nesting of a type. */
  function Given(ty: T.TypeRef, value: FieldValue): Option<Output>
    decreases ty, 0
  {
    match ty
    case Named(_) => if value.Const? then Some(Leaf(value.value)) else None
    case NonNull(inner) => Given(inner, value)
    case List(inner) =>
      if value.ListValue? then AllGiven(inner, value.items)
      else if value.Const? && value.value.List? then AllGiven(inner, Consts(value.value.elements))
      else None
  }

  function AllGiven(inner: T.TypeRef, values: seq<FieldValue>): Option<Output>
    decreases inner, 1
  {
    if forall i :: 0 <= i < |values| ==> Given(inner, values[i]).Some? then
      Some(Elements(seq(|values|, i requires 0 <= i < |values| => Given(inner, values[i]).GetOr(Null))))
    else None
  }

  function Consts(elements: seq<D.ConstValue>): seq<FieldValue> {
    if elements == [] then [] else [Const(elements[0])] + Consts(elements[1..])
  }

  lemma {:induction false} ConstsAt(elements: seq<D.ConstValue>)
    ensures |Consts(elements)| == |elements|
    ensures forall i :: 0 <= i < |elements| ==> Consts(elements)[i] == Const(elements[i])
  {
    if elements != [] { ConstsAt(elements[1..]); }
  }

  /** A successful resolve at nested lists of a scalar gives exactly the constants that the
      resolver handed over, each in its place. */
  lemma {:induction false} ConstantsKept(env: Env, f: D.Selection, ty: T.TypeRef, value: FieldValue, node: PathNode)
    requires f.Field? && D.Finite(env.fragments, f.items)
    requires ty.TypeName() in env.schema.types && env.schema.types[ty.TypeName()].Scalar?
    ensures
      var r := Resolution(env, f, ty, Some(value), node).result;
      r.Ok? ==> r.value == Given(ty, value) && r.value.Some?
    decreases ty
  {
    var r := Resolution(env, f, ty, Some(value), node).result;
    ListsKeepShape(env, f, ty, value, node);
    if r.Ok? {
      match ty
      case Named(_) =>
      case NonNull(inner) => ConstantsKept(env, f, inner, value, node);
      case List(inner) =>
        var vs := ElementsOf(value).value;
        var outs := seq(|vs|, i requires 0 <= i < |vs| =>
          Resolution(env, f, inner, Some(vs[i]), WithIndex(Some(node), i)));
        assert Resolution(env, f, ty, Some(value), node) == Join(env, outs, Segments(node));
        FailingFacts(outs);
        if value.Const? {
          ConstsAt(value.value.elements);
          assert vs == Consts(value.value.elements);
        }
        forall i | 0 <= i < |vs| ensures Given(inner, vs[i]) == Some(r.value.value.elements[i]) {
          ConstantsKept(env, f, inner, vs[i], WithIndex(Some(node), i));
          assert outs[i].result.Ok?;
        }
        assert AllGiven(inner, vs).value.elements == r.value.value.elements;
    }
  }

  // ----- Errors say where they are -----

  /** The type and value reached by following indices through nested lists. */
  ghost function At(ty: T.TypeRef, value: FieldValue, indices: seq<nat>): Option<(T.TypeRef, FieldValue)>
    decreases ty
  {
    match ty
    case NonNull(inner) => At(inner, value, indices)
    case Named(_) => if indices == [] then Some((ty, value)) else None
    case List(inner) =>
      if indices == [] then Some((ty, value))
      else if ElementsOf(value).Some? && indices[0] < |ElementsOf(value).value|
      then At(inner, ElementsOf(value).value[indices[0]], indices[1..])
      else None
  }

  /** What is wrong with a value at a type, looking at this place only. */
  ghost function Offence(env: Env, f: D.Selection, ty: T.TypeRef, value: FieldValue): Option<ErrorKind>
    requires f.Field? && D.Finite(env.fragments, f.items)
  {
    match ty
    case NonNull(_) => None
    case List(_) => if ElementsOf(value).None? then Some(ExpectsArray) else None
    case Named(n) =>
      if n !in env.schema.types then Some(MissingType(n))
      else
        match Dispatch(env, env.schema.types[n], value)
        case Bad(kind) => Some(kind)
        case Done(_) => None
        case Enter(o, _) =>
          if Applicable(env, o, f.items).Err? then Some(UnknownFragment(Applicable(env, o, f.items).error)) else None
  }

  ghost predicate Offends(env: Env, f: D.Selection, ty: T.TypeRef, value: FieldValue, indices: seq<nat>, kind: ErrorKind)
    requires f.Field? && D.Finite(env.fragments, f.items)
  {
    var place := At(ty, value, indices);
    place.Some? && Offence(env, f, place.value.0, place.value.1) == Some(kind)
  }

  ghost function Indices(indices: seq<nat>): seq<Segment> {
    seq(|indices|, i requires 0 <= i < |indices| => Index(indices[i]))
  }

  /** A failing list reports the error of one of its elements. */
  lemma FailingElement(env: Env, f: D.Selection, inner: T.TypeRef, value: FieldValue, node: PathNode) returns (i: nat)
    requires f.Field? && D.Finite(env.fragments, f.items) && ElementsOf(value).Some?
    requires Resolution(env, f, T.List(inner), Some(value), node).result.Err?
    ensures i < |ElementsOf(value).value|
    ensures Resolution(env, f, inner, Some(ElementsOf(value).value[i]), WithIndex(Some(node), i)).result
         == Resolution(env, f, T.List(inner), Some(value), node).result
  {
    var vs := ElementsOf(value).value;
    var outs := seq(|vs|, i requires 0 <= i < |vs| =>
      Resolution(env, f, inner, Some(vs[i]), WithIndex(Some(node), i)));
    var r := Resolution(env, f, T.List(inner), Some(value), node);
    assert r == Join(env, outs, Segments(node));
    FailingFacts(outs);
    assert r.result.error in Failing(outs);
    i :| 0 <= i < |outs| && outs[i].result == Err(r.result.error);
  }

  lemma PathThrough(node: PathNode, i: nat, rest: seq<nat>)
    ensures Segments(WithIndex(Some(node), i)) + Indices(rest) == Segments(node) + Indices([i] + rest)
  {
    assert Indices([i] + rest) == [Index(i)] + Indices(rest);
  }

  /** An error of a resolve names a place in the nested lists where the value really does
      not fit, and carries the path of the field followed by exactly the indices that lead
      there, root first. (An unknown fragment is reported without a path.) */
  lemma {:induction false} ErrorsArePlaced(env: Env, f: D.Selection, ty: T.TypeRef, value: FieldValue, node: PathNode)
      returns (indices: seq<nat>)
    requires f.Field? && D.Finite(env.fragments, f.items)
    requires Resolution(env, f, ty, Some(value), node).result.Err?
    ensures
      var e := Resolution(env, f, ty, Some(value), node).result.error;
      && Offends(env, f, ty, value, indices, e.kind)
      && e.path == if e.kind.UnknownFragment? then [] else Segments(node) + Indices(indices)
    decreases ty
  {
    indices := [];
    assert Segments(node) + Indices([]) == Segments(node);
    match ty
    case Named(_) =>
    case NonNull(inner) => indices := ErrorsArePlaced(env, f, inner, value, node);
    case List(inner) =>
      if ElementsOf(value).Some? {
        var i := FailingElement(env, f, inner, value, node);
        var rest := ErrorsArePlaced(env, f, inner, ElementsOf(value).value[i], WithIndex(Some(node), i));
        indices := [i] + rest;
        assert indices[1..] == rest;
        PathThrough(node, i, rest);
      }
  }

  /** Conversely, a resolve with a misfit anywhere in the nested lists does not succeed. */
  lemma {:induction false} MisfitsFail(env: Env, f: D.Selection, ty: T.TypeRef, value: FieldValue, node: PathNode,
                                       indices: seq<nat>, kind: ErrorKind)
    requires f.Field? && D.Finite(env.fragments, f.items)
    requires Offends(env, f, ty, value, indices, kind)
    ensures Resolution(env, f, ty, Some(value), node).result.Err?
    decreases ty
  {
    match ty
    case Named(_) =>
    case NonNull(inner) => MisfitsFail(env, f, inner, value, node, indices, kind);
    case List(inner) =>
      if indices != [] {
        var vs := ElementsOf(value).value;
        var i := indices[0];
        MisfitsFail(env, f, inner, vs[i], WithIndex(Some(node), i), indices[1..], kind);
        var outs := seq(|vs|, i requires 0 <= i < |vs| =>
          Resolution(env, f, inner, Some(vs[i]), WithIndex(Some(node), i)));
        assert Resolution(env, f, ty, Some(value), node) == Join(env, outs, Segments(node));
        FailingFacts(outs);
        assert outs[i].result.Err?;
      }
  }

  /** A resolve succeeds if and only if nothing offends anywhere in the nested lists, and it
      then keeps their shape. */
  lemma SucceedsIffNothingOffends(env: Env, f: D.Selection, ty: T.TypeRef, value: FieldValue, node: PathNode)
    requires f.Field? && D.Finite(env.fragments, f.items)
    ensures Resolution(env, f, ty, Some(value), node).result.Ok? <==>
      forall indices, kind :: !Offends(env, f, ty, value, indices, kind)
  {
    if Resolution(env, f, ty, Some(value), node).result.Ok? {
      forall indices, kind ensures !Offends(env, f, ty, value, indices, kind) {
        if Offends(env, f, ty, value, indices, kind) { MisfitsFail(env, f, ty, value, node, indices, kind); }
      }
    } else {
      var indices := ErrorsArePlaced(env, f, ty, value, node);
      assert Offends(env, f, ty, value, indices, Resolution(env, f, ty, Some(value), node).result.error.kind);
    }
  }

  /** The shape determines the output: no other output has it, so exchanging two different
      elements is noticed. */
  lemma {:induction false} ShapeDetermines(env: Env, f: D.Selection, ty: T.TypeRef, value: FieldValue, node: PathNode,
                                           a: Output, b: Output)
    requires f.Field? && D.Finite(env.fragments, f.items)
    requires SameShape(env, f, ty, value, node, a) && SameShape(env, f, ty, value, node, b)
    ensures a == b
    decreases ty
  {
    match ty
    case Named(_) =>
    case NonNull(inner) => ShapeDetermines(env, f, inner, value, node, a, b);
    case List(inner) =>
      var vs := ElementsOf(value).value;
      forall i | 0 <= i < |vs| ensures a.elements[i] == b.elements[i] {
        ShapeDetermines(env, f, inner, vs[i], WithIndex(Some(node), i), a.elements[i], b.elements[i]);
      }
  }

  // ----- How the elements of a list come together -----

  lemma {:induction false} ListsConcat(a: seq<Outcome>, b: seq<Outcome>)
    ensures Logs(a + b) == Logs(a) + Logs(b) && Failing(a + b) == Failing(a) + Failing(b)
  {
    if a == [] {
      assert a + b == b;
    } else {
      var ab := a + b;
      assert ab[0] == a[0] && ab[1..] == a[1..] + b;
      ListsConcat(a[1..], b);
      Regroup(a[0].logged, Logs(a[1..]), Logs(b));
      Regroup(if a[0].result.Err? then [a[0].result.error] else [], Failing(a[1..]), Failing(b));
    }
  }

  lemma ListsAt(outs: seq<Outcome>, i: nat)
    requires i < |outs|
    ensures Logs(outs) == Logs(outs[..i]) + outs[i].logged + Logs(outs[i + 1..])
    ensures outs[i].result.Err? ==> Failing(outs) == Failing(outs[..i]) + [outs[i].result.error] + Failing(outs[i + 1..])
  {
    var before, rest := outs[..i], outs[i..];
    assert outs == before + rest && rest[0] == outs[i] && rest[1..] == outs[i + 1..];
    ListsConcat(before, rest);
    Regroup(Logs(before), outs[i].logged, Logs(rest[1..]));
    if outs[i].result.Err? { Regroup(Failing(before), [outs[i].result.error], Failing(rest[1..])); }
  }

  /** All errors that the elements logged are logged, each in the place of its element; and
      any element that fails can be the one whose error the list reports. */
  lemma ListOutcome(env: Env, outs: seq<Outcome>, path: seq<Segment>, i: nat)
    requires i < |outs|
    ensures Join(env, outs, path).logged == Logs(outs[..i]) + outs[i].logged + Logs(outs[i + 1..])
    ensures outs[i].result.Err? ==>
      Join(env.(schedule := (p: seq<Segment>) => |Failing(outs[..i])|), outs, path).result == Err(outs[i].result.error)
  {
    ListsAt(outs, i);
    if outs[i].result.Err? {
      var k, failing := |Failing(outs[..i])|, Failing(outs);
      assert failing[k] == outs[i].result.error && k % |failing| == k;
    }
  }
}
