/** The other half: whenever an interface that values can reach has the overwritten
    `_Entity` among its possible types, some execution does go wrong. The witness is built
    along the walk that reaches the interface. */
module ClashWitness {
  import opened Wrappers
  import opened Paths
  import opened DynamicSchema
  import opened SchemaCheck
  import opened DynamicResolve
  import opened CheckedSchemas
  import T = TypeRefs
  import D = Documents
  import X = InterfaceExample

  // ----- An environment whose parent values say what their fields return -----

  function Next(parent: FieldValue): Resolved {
    if parent.ListValue? && parent.items != [] then Resolved(Some(parent.items[0])) else Rejected
  }

  /** The mode is the one that a request asks for. */
  function Probe(s: Schema, mode: Mode): Env {
    Env(s, map[], mode,
        (o: Name, f: D.Selection, parent: FieldValue, path: seq<Segment>, n: nat) => Next(parent),
        (n: Name, v: D.ConstValue) => true, (path: seq<Segment>) => 0)
  }

  /** A value at a type reference: one element per list type around the name. */
  function Wrap(ty: T.TypeRef, v: FieldValue): FieldValue {
    match ty
    case Named(_) => v
    case NonNull(inner) => Wrap(inner, v)
    case List(inner) => ListValue([Wrap(inner, v)])
  }

  function Select(name: Name, items: D.SelectionSet): D.Selection {
    D.Field(None, name, [], [], items)
  }

  // ----- Executions that go wrong -----

  predicate IsClash(e: ServerError) {
    e.kind == NotObject("_Entity")
  }

  predicate Logged(log: seq<ServerError>) {
    exists i :: 0 <= i < |log| && IsClash(log[i])
  }

  predicate Shows(o: Outcome) {
    (o.result.Err? && IsClash(o.result.error)) || Logged(o.logged)
  }

  /** Resolving `v` at the named type with these sub-selections goes wrong, wherever. */
  ghost predicate Exposes(env: Env, n: Name, items: D.SelectionSet, v: FieldValue) {
    && D.Finite(env.fragments, items)
    && (forall f: D.Selection, node :: f.Field? && f.items == items ==> Shows(Resolution(env, f, T.Named(n), Some(v), node)))
    && (IsObject(env.schema, n) ==> forall ctx :: Shows(Container(env, env.schema.types[n], items, v, ctx)))
  }

  lemma JoinShows(env: Env, out: Outcome, path: seq<Segment>)
    requires Shows(out)
    ensures Shows(Join(env, [out], path))
  {
    var outs := [out];
    assert outs[1..] == [];
    assert Logs(outs) == out.logged;
    assert Failing(outs) == if out.result.Err? then [out.result.error] else [];
  }

  lemma {:induction false} WrapShows(env: Env, f: D.Selection, ty: T.TypeRef, v: FieldValue, node: PathNode)
    requires f.Field? && Exposes(env, ty.TypeName(), f.items, v)
    ensures Shows(Resolution(env, f, ty, Some(Wrap(ty, v)), node))
    decreases ty
  {
    match ty
    case Named(_) =>
    case NonNull(inner) => WrapShows(env, f, inner, v, node);
    case List(inner) =>
      var vs := [Wrap(inner, v)];
      var outs := seq(|vs|, i requires 0 <= i < |vs| =>
        Resolution(env, f, inner, Some(vs[i]), WithIndex(Some(node), i)));
      WrapShows(env, f, inner, v, WithIndex(Some(node), 0));
      assert outs == [outs[0]];
      JoinShows(env, outs[0], Segments(node));
  }

  /** The type at which a task resolves its value. */
  ghost predicate ResolvesAt(env: Env, t: Task, ty: T.TypeRef) {
    || (t.Resolve? && t.definition.ty == ty)
    || (t.Entities? && env.schema.entityResolver && ty == T.NonNull(T.List(T.Named("_Entity"))))
  }

  lemma SelectFinite(fragments: D.Fragments, name: Name, items: D.SelectionSet)
    requires D.Finite(fragments, items)
    ensures D.Finite(fragments, [Select(name, items)])
  {
    assert D.Within(fragments, [Select(name, items)], D.Height(fragments, items) + 1);
  }

  /** Selecting one field whose value goes wrong. */
  lemma FieldShows(env: Env, o: Type, name: Name, items: D.SelectionSet, ty: T.TypeRef, v: FieldValue, ctx: Option<PathNode>)
    requires o.Object? && Exposes(env, ty.TypeName(), items, v)
    requires TaskFor(env, o, Select(name, items)).Some?
    requires ResolvesAt(env, TaskFor(env, o, Select(name, items)).value, ty)
    requires forall n: Name, f, path, k :: env.resolver(n, f, ListValue([Wrap(ty, v)]), path, k) == Resolved(Some(Wrap(ty, v)))
    ensures D.Finite(env.fragments, [Select(name, items)])
    ensures Shows(Container(env, o, [Select(name, items)], ListValue([Wrap(ty, v)]), ctx))
  {
    SelectFinite(env.fragments, name, items);
    var f, parent := Select(name, items), ListValue([Wrap(ty, v)]);
    var t := TaskFor(env, o, f).value;
    ApplicableStep(env, o, [f]);
    assert [f][1..] == [] && [f] + [] == [f];
    assert Applicable(env, o, [f]) == Ok([f]);
    assert Tasks(env, o, [f]) == [t];
    var node := WithField(ctx, ResponseKey(f));
    WrapShows(env, f, ty, v, node);
    var bound := Span(env, [f]);
    ApplicableNested(env, o, [f]);
    TasksNested(env, o, [f], bound);
    OneTaskShows(env, o, t, ty, Wrap(ty, v), parent, ctx, bound);
  }

  lemma OneTaskShows(env: Env, o: Type, t: Task, ty: T.TypeRef, v: FieldValue, parent: FieldValue,
                     ctx: Option<PathNode>, bound: nat)
    requires o.Object? && TasksOk(env, [t], bound) && ResolvesAt(env, t, ty)
    requires t.field.Field? && D.Finite(env.fragments, t.field.items)
    requires forall n: Name, f, path, k :: env.resolver(n, f, parent, path, k) == Resolved(Some(v))
    requires Shows(Resolution(env, t.field, ty, Some(v), WithField(ctx, ResponseKey(t.field))))
    ensures Logged(RunTasks(env, o, [t], parent, ctx, 0, bound).1)
  {
    var ts := [t];
    assert TaskOk(env, ts[0], bound) && ts[1..] == [];
    var (result, logged) := RunTask(env, o, t, parent, ctx, 0, bound);
    assert RunTasks(env, o, ts[1..], parent, ctx, 1, bound) == ([], []);
    var log := RunTasks(env, o, ts, parent, ctx, 0, bound).1;
    var node := WithField(ctx, ResponseKey(t.field));
    assert env.resolver(o.name, t.field, parent, Segments(node), 0) == Resolved(Some(v));
    assert (result, logged) == RunField(env, t.field, ty, Resolved(Some(v)), node);
    assert log == logged + if result.Err? then [result.error] else [];
    if result.Err? && IsClash(result.error) {
      assert IsClash(log[|logged|]);
    } else {
      var i :| 0 <= i < |logged| && IsClash(logged[i]);
      assert IsClash(log[i]);
    }
  }

  // ----- Along a walk -----

  /** The modes in which the fields of the schema are not hidden by the built-in ones. */
  ghost predicate Plain(s: Schema, mode: Mode, p: seq<Name>) {
    mode.Disabled? || (mode.Enabled? && s.query !in p)
  }

  lemma AtClash(s: Schema, mode: Mode, i: Name)
    requires Sane(s) && ClashAt(s, i)
    ensures Exposes(Probe(s, mode), i, [Select("__typename", [])], WithType(Opaque(0), "_Entity"))
  {
    D.EmptyIsFinite(map[]);
    SelectFinite(map[], "__typename", []);
  }

  /** Through a field of an object. */
  lemma ThroughField(s: Schema, mode: Mode, a: Name, f: Name, items: D.SelectionSet, v: FieldValue)
    requires Sane(s) && IsObject(s, a) && f in s.types[a].fields && Plain(s, mode, [a])
    requires !s.introspection.IntrospectionOnly?
    requires Exposes(Probe(s, mode), s.types[a].fields[f].ty.TypeName(), items, v)
    ensures Exposes(Probe(s, mode), a, [Select(f, items)], ListValue([Wrap(s.types[a].fields[f].ty, v)]))
  {
    var env, o, ty := Probe(s, mode), s.types[a], s.types[a].fields[f].ty;
    var parent := ListValue([Wrap(ty, v)]);
    SelectFinite(env.fragments, f, items);
    assert "__" <= "__typename" && "__" <= "__schema" && "__" <= "__type";
    assert o.name != s.query || mode.Disabled? by { assert a in [a]; }
    assert TaskFor(env, o, Select(f, items)) == Some(Resolve(Select(f, items), o.fields[f]));
    forall g: D.Selection, node | g.Field? && g.items == [Select(f, items)]
      ensures Shows(Resolution(env, g, T.Named(a), Some(parent), node))
    {
      FieldShows(env, o, f, items, ty, v, Some(node));
    }
    forall ctx ensures Shows(Container(env, o, [Select(f, items)], parent, ctx)) {
      FieldShows(env, o, f, items, ty, v, ctx);
    }
  }

  /** The bound only serves termination. */
  lemma {:induction false} BoundIrrelevant(env: Env, o: Type, tasks: seq<Task>, parent: FieldValue,
                                           ctx: Option<PathNode>, n: nat, x: nat, y: nat)
    requires o.Object? && TasksOk(env, tasks, x) && TasksOk(env, tasks, y)
    ensures RunTasks(env, o, tasks, parent, ctx, n, x) == RunTasks(env, o, tasks, parent, ctx, n, y)
    decreases tasks
  {
    if tasks != [] {
      assert TaskOk(env, tasks[0], x) && TaskOk(env, tasks[0], y);
      BoundIrrelevant(env, o, tasks[1..], parent, ctx, n + 1, x, y);
    }
  }

  function On(o: Name, items: D.SelectionSet): D.SelectionSet {
    [D.InlineFragment(Some(o), [], items)]
  }

  /** An inline fragment on the object's own name changes nothing. */
  lemma OnIsTransparent(env: Env, o: Type, items: D.SelectionSet, v: FieldValue, ctx: Option<PathNode>)
    requires o.Object? && D.Finite(env.fragments, items)
    ensures D.Finite(env.fragments, On(o.name, items))
    ensures Container(env, o, On(o.name, items), v, ctx) == Container(env, o, items, v, ctx)
  {
    var outer := On(o.name, items);
    assert D.Within(env.fragments, outer, D.Height(env.fragments, items) + 1);
    ApplicableStep(env, o, outer);
    var fields := Applicable(env, o, items);
    assert outer[1..] == [];
    assert fields.Ok? ==> fields.value + [] == fields.value;
    assert Applicable(env, o, outer) == fields;
    if fields.Ok? {
      ApplicableNested(env, o, items);
      ApplicableNested(env, o, outer);
      TasksNested(env, o, fields.value, Span(env, items));
      TasksNested(env, o, fields.value, Span(env, outer));
      BoundIrrelevant(env, o, Tasks(env, o, fields.value), v, ctx, 0, Span(env, items), Span(env, outer));
    }
  }

  /** From an interface or a union into one of its objects. */
  lemma IntoObject(s: Schema, mode: Mode, a: Name, o: Name, items: D.SelectionSet, v: FieldValue)
    requires Sane(s) && Edge(s, a, o) && !s.types[a].Object? && IsObject(s, o)
    requires Exposes(Probe(s, mode), o, items, v)
    ensures Exposes(Probe(s, mode), a, On(o, items), WithType(v, o))
  {
    var env := Probe(s, mode);
    OnIsTransparent(env, s.types[o], items, v, None);
    forall g: D.Selection, node | g.Field? && g.items == On(o, items)
      ensures Shows(Resolution(env, g, T.Named(a), Some(WithType(v, o)), node))
    {
      assert Dispatch(env, s.types[a], WithType(v, o)) == Enter(s.types[o], v);
      OnIsTransparent(env, s.types[o], items, v, Some(node));
      assert Shows(Container(env, s.types[o], items, v, Some(node)));
    }
  }

  lemma TailIsWalk(s: Schema, p: seq<Name>, k: nat)
    requires IsWalk(s, p) && k < |p|
    ensures IsWalk(s, p[k..])
  {
    var q := p[k..];
    forall j | 0 <= j < |q| - 1 ensures Edge(s, q[j], q[j + 1]) {
      assert Edge(s, p[k + j], p[k + j + 1]);
    }
  }

  /** Sub-selections and a value that go wrong at the start of a walk to a clash. */
  lemma {:induction false} WalkExposes(s: Schema, mode: Mode, p: seq<Name>) returns (items: D.SelectionSet, v: FieldValue)
    requires Sane(s) && IsWalk(s, p) && ClashAt(s, p[|p| - 1]) && Plain(s, mode, p)
    ensures Exposes(Probe(s, mode), p[0], items, v)
    decreases |p|
  {
    if ClashAt(s, p[0]) {
      AtClash(s, mode, p[0]);
      items, v := [Select("__typename", [])], WithType(Opaque(0), "_Entity");
    } else {
      assert Edge(s, p[0], p[1]);
      TailIsWalk(s, p, 1);
      items, v := WalkExposes(s, mode, p[1..]);
      if s.types[p[0]].Object? {
        var f :| f in s.types[p[0]].fields && s.types[p[0]].fields[f].ty.TypeName() == p[1];
        ThroughField(s, mode, p[0], f, items, v);
        items, v := [Select(f, items)], ListValue([Wrap(s.types[p[0]].fields[f].ty, v)]);
      } else {
        IntoObject(s, mode, p[0], p[1], items, v);
        items, v := On(p[1], items), WithType(v, p[1]);
      }
    }
  }

  /** A run of a root that goes wrong. */
  ghost predicate GoesWrong(s: Schema, env: Env, operation: D.Operation, root: FieldValue) {
    && env.schema == s && D.Finite(env.fragments, operation.items)
    && Logged(Execute(env, operation, root).logged)
  }

  lemma ContainerLogs(env: Env, o: Type, items: D.SelectionSet, v: FieldValue)
    requires o.Object? && D.Finite(env.fragments, items) && Shows(Container(env, o, items, v, None))
    ensures Logged(Container(env, o, items, v, None).logged)
  {
  }

  /** From one of the roots, by a request without introspection. */
  lemma FromRoot(s: Schema, p: seq<Name>) returns (env: Env, operation: D.Operation, root: FieldValue)
    requires Sane(s) && IsWalk(s, p) && ClashAt(s, p[|p| - 1]) && (p[0] == s.query || s.mutation == Some(p[0]))
    ensures GoesWrong(s, env, operation, root)
  {
    env := Probe(s, Disabled);
    var items, v := WalkExposes(s, Disabled, p);
    assert IsObject(s, p[0]);
    operation, root := D.Operation(if p[0] == s.query then D.Query else D.Mutation, items), v;
    ContainerLogs(env, s.types[p[0]], items, v);
  }

  /** From `_entities`, if the walk does not come back to the query type. */
  lemma FromEntities(s: Schema, p: seq<Name>) returns (env: Env, operation: D.Operation, root: FieldValue)
    requires Sane(s) && IsWalk(s, p) && ClashAt(s, p[|p| - 1]) && p[0] == "_Entity" && s.query !in p
    requires HasEntitiesField(s)
    ensures GoesWrong(s, env, operation, root)
  {
    env := Probe(s, Enabled);
    var items, v := WalkExposes(s, Enabled, p);
    var q, ty := s.types[s.query], T.NonNull(T.List(T.Named("_Entity")));
    operation, root := D.Operation(D.Query, [Select("_entities", items)]), ListValue([Wrap(ty, v)]);
    assert TaskFor(env, q, Select("_entities", items)) == Some(Entities(Select("_entities", items)));
    FieldShows(env, q, "_entities", items, ty, v, None);
    ContainerLogs(env, q, operation.items, root);
  }

  /** Every reachable clash can be run into. */
  lemma ClashGoesWrong(s: Schema) returns (env: Env, operation: D.Operation, root: FieldValue)
    requires Sane(s) && ReachableClash(s)
    ensures GoesWrong(s, env, operation, root)
  {
    var i :| ClashAt(s, i) && Reached(s, i);
    var p :| WalkTo(s, p, i);
    if k :| 0 <= k < |p| && p[k] == s.query {
      TailIsWalk(s, p, k);
      env, operation, root := FromRoot(s, p[k..]);
    } else if s.mutation == Some(p[0]) {
      env, operation, root := FromRoot(s, p);
    } else {
      env, operation, root := FromEntities(s, p);
    }
  }

  /** The condition is exact: the executions of an accepted schema, over all requests,
      resolvers and root values, never take a forbidden branch if and only if no interface
      that is reachable from a root has the overwritten `_Entity` among its possible types. */
  lemma NeverWrongIffNoReachableClash(s: Schema, b: Builder)
    requires BuiltFrom(s, b) && Accepted(s)
    ensures !ReachableClash(s) <==>
      forall env: Env, operation: D.Operation, root :: env.schema == s && D.Finite(env.fragments, operation.items) ==>
        Clean(Execute(env, operation, root))
  {
    if ReachableClash(s) {
      AcceptedIsSane(s, b);
      var env, operation, root := ClashGoesWrong(s);
      assert !Clean(Execute(env, operation, root));
    } else {
      forall env: Env, operation: D.Operation, root | env.schema == s && D.Finite(env.fragments, operation.items)
        ensures Clean(Execute(env, operation, root))
      {
        NeverGoesWrong(env, b, operation, root);
      }
    }
  }

  /** A simple sufficient condition on the registered types. */
  lemma NoClashNoReachableClash(s: Schema, b: Builder)
    requires BuiltFrom(s, b) && !EntityClash(b)
    ensures !ReachableClash(s)
  {
  }

  // ----- A schema with a clash -----

  /** A query `q` with a field `f` that returns interface `i`, where `_Entity` clashes. */
  ghost predicate ClashShape(s: Schema, i: Name, q: Name, f: Name) {
    && s.query == q && IsObject(s, q) && f in s.types[q].fields && !s.introspection.IntrospectionOnly?
    && s.types[q].fields[f].ty == T.NonNull(T.Named(i)) && ClashAt(s, i)
  }

  lemma ShapeClashes(s: Schema, i: Name, q: Name, f: Name)
    requires ClashShape(s, i, q, f)
    ensures ReachableClash(s)
  {
    assert s.types[q].fields[f].ty.TypeName() == i;
    assert Edge(s, q, i);
    assert WalkTo(s, [q, i], i);
  }

  function ClashBuilder(i: Name, q: Name, f: Name): Builder {
    X.InterfaceSchema(i, "_Entity", q, f, X.INT_FIELD, X.INT_FIELD, true)
  }

  lemma ClashBuilderShape(i: Name, q: Name, f: Name)
    requires X.UsableNames(i, "_Entity", q, f)
    ensures ClashShape(SchemaOf(ClashBuilder(i, q, f)), i, q, f)
  {
    var b := ClashBuilder(i, q, f);
    X.InterfaceSchemaBuilt(i, "_Entity", q, f, X.INT_FIELD, X.INT_FIELD, true);
    assert i in b.types && q in b.types;
  }

  /** `finish` accepts a schema with a reachable clash: an object `_Entity` that implements
      an interface, a query that returns the interface, federation on. */
  lemma ClashSchemaAccepted(i: Name, q: Name, f: Name)
    requires X.UsableNames(i, "_Entity", q, f)
    ensures
      var s := SchemaOf(ClashBuilder(i, q, f));
      BuiltFrom(s, ClashBuilder(i, q, f)) && Accepted(s) && ReachableClash(s)
  {
    X.InterfaceSchemaAccepted(i, "_Entity", q, f, X.INT_FIELD, X.INT_FIELD, true);
    ClashBuilderShape(i, q, f);
    ShapeClashes(SchemaOf(ClashBuilder(i, q, f)), i, q, f);
  }

  function Typename(): D.SelectionSet {
    [Select("__typename", [])]
  }

  lemma ShapeGoesWrong(s: Schema, i: Name, q: Name, f: Name)
    requires Sane(s) && ClashShape(s, i, q, f)
    ensures GoesWrong(s, Probe(s, Disabled), D.Operation(D.Query, [Select(f, Typename())]),
                      ListValue([WithType(Opaque(0), "_Entity")]))
  {
    var ty, v := T.NonNull(T.Named(i)), WithType(Opaque(0), "_Entity");
    AtClash(s, Disabled, i);
    assert Wrap(ty, v) == Wrap(ty.inner, v) == v && ty.TypeName() == i;
    ThroughField(s, Disabled, q, f, Typename(), v);
    ContainerLogs(Probe(s, Disabled), s.types[q], [Select(f, Typename())], ListValue([WithType(Opaque(0), "_Entity")]));
  }

  /** On it the query `{ f { __typename } }` logs that `_Entity` is not an object, as soon as
      the resolver of `f` returns a value typed `_Entity`. */
  lemma ClashSchemaGoesWrong(i: Name, q: Name, f: Name)
    requires X.UsableNames(i, "_Entity", q, f)
    ensures
      var s := SchemaOf(ClashBuilder(i, q, f));
      GoesWrong(s, Probe(s, Disabled), D.Operation(D.Query, [Select(f, Typename())]),
                ListValue([WithType(Opaque(0), "_Entity")]))
  {
    var s := SchemaOf(ClashBuilder(i, q, f));
    ClashSchemaAccepted(i, q, f);
    ClashBuilderShape(i, q, f);
    AcceptedIsSane(s, ClashBuilder(i, q, f));
    ShapeGoesWrong(s, i, q, f);
  }
}
