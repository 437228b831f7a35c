/** Checked schemas do not go wrong, and exactly when: a schema that `finish` accepts never
    runs into a branch that the checks are meant to rule out, unless an interface that
    values can reach has the overwritten `_Entity` among its possible types. */
module CheckedSchemas {
  import opened Wrappers
  import opened Paths
  import opened DynamicSchema
  import opened SchemaCheck
  import opened DynamicResolve
  import T = TypeRefs
  import D = Documents

  /** The branches that the schema checks are there to rule out. */
  predicate Forbidden(kind: ErrorKind) {
    kind.NoQueryRoot? || kind.MissingType? || kind.InputObjectAsOutput? || kind.SubscriptionAsOutput?
    || kind.UploadAsOutput? || kind.NotRegistered? || kind.NotObject?
  }

  predicate CleanLog(log: seq<ServerError>) {
    forall i :: 0 <= i < |log| ==> !Forbidden(log[i].kind)
  }

  predicate Clean(o: Outcome) {
    (o.result.Err? ==> !Forbidden(o.result.error.kind)) && CleanLog(o.logged)
  }

  // ----- The types at which values are resolved -----

  /** A value of type `a` can lead to one of type `n`: by a field, a possible type or a
      union member. A schema that only answers introspection runs no fields. */
  ghost predicate Edge(s: Schema, a: Name, n: Name) {
    && a in s.types
    && match s.types[a]
       case Object(_, fields, _, _, _) =>
         !s.introspection.IntrospectionOnly? && exists f :: f in fields && fields[f].ty.TypeName() == n
       case Interface(_, _, _, _) => a in s.possible && n in s.possible[a]
       case Union(_, members) => n in members
       case _ => false
  }

  ghost predicate IsWalk(s: Schema, p: seq<Name>) {
    p != [] && forall k :: 0 <= k < |p| - 1 ==> Edge(s, p[k], p[k + 1])
  }

  /** The built-in field `_entities` is answered by a resolver. */
  predicate HasEntitiesField(s: Schema) {
    s.federation && !s.introspection.Disabled? && s.entityResolver
  }

  /** Where resolution starts: the roots, and what `_entities` returns. */
  predicate IsStart(s: Schema, n: Name) {
    n == s.query || s.mutation == Some(n) || (HasEntitiesField(s) && n == "_Entity")
  }

  ghost predicate WalkTo(s: Schema, p: seq<Name>, n: Name) {
    IsWalk(s, p) && IsStart(s, p[0]) && p[|p| - 1] == n
  }

  ghost predicate Reached(s: Schema, n: Name) {
    exists p :: WalkTo(s, p, n)
  }

  /** An interface of which the entity union is a possible type. */
  predicate ClashAt(s: Schema, i: Name) {
    s.federation && i in s.types && s.types[i].Interface? && i in s.possible && "_Entity" in s.possible[i]
  }

  ghost predicate ReachableClash(s: Schema) {
    exists i :: ClashAt(s, i) && Reached(s, i)
  }

  lemma StartReached(s: Schema, n: Name)
    requires IsStart(s, n)
    ensures Reached(s, n)
  {
    assert WalkTo(s, [n], n);
  }

  lemma EdgeReached(s: Schema, a: Name, n: Name)
    requires Reached(s, a) && Edge(s, a, n)
    ensures Reached(s, n)
  {
    var p :| WalkTo(s, p, a);
    var q := p + [n];
    forall k | 0 <= k < |q| - 1 ensures Edge(s, q[k], q[k + 1]) {
      if k < |p| - 1 { assert Edge(s, p[k], p[k + 1]); }
    }
    assert WalkTo(s, q, n);
  }

  // ----- What acceptance gives -----

  predicate OutputName(s: Schema, n: Name) {
    n in s.types && s.types[n].IsOutputType()
  }

  predicate IsObject(s: Schema, n: Name) {
    n in s.types && s.types[n].Object?
  }

  /** What holds of every accepted schema. */
  ghost predicate Sane(s: Schema) {
    && Keyed(s.types)
    && (forall n, f :: IsObject(s, n) && f in s.types[n].fields ==>
          !("__" <= f) && OutputName(s, s.types[n].fields[f].ty.TypeName()))
    && (forall i, o :: i in s.possible && o in s.possible[i] && !(s.federation && o == "_Entity") ==> IsObject(s, o))
    && (forall u, o :: u in s.types && s.types[u].Union? && o in s.types[u].members ==> IsObject(s, o))
    && (s.federation ==> OutputName(s, "_Entity") && s.types["_Entity"].Union?)
    && IsObject(s, s.query)
    && (s.mutation.Some? ==> IsObject(s, s.mutation.value))
  }

  /** What resolution relies on. */
  ghost predicate Safe(s: Schema) {
    Sane(s) && !ReachableClash(s)
  }

  lemma BuiltIsKeyed(s: Schema, b: Builder)
    requires BuiltFrom(s, b)
    ensures Keyed(s.types) && (s.federation ==> "_Entity" in s.types && s.types["_Entity"].Union?)
  {
    WithScalarsFacts(b.types, SYSTEM_SCALARS);
  }

  lemma PossibleAreObjects(s: Schema, b: Builder)
    requires BuiltFrom(s, b)
    ensures forall i, o :: i in s.possible && o in s.possible[i] && !(s.federation && o == "_Entity") ==> IsObject(s, o)
  {
    forall i, o | i in s.possible && o in s.possible[i] && !(s.federation && o == "_Entity") ensures IsObject(s, o) {
      PossibleTypesAreObjects(b, i, o);
    }
  }

  lemma MembersAreObjects(s: Schema)
    requires Accepted(s)
    ensures forall u, o :: u in s.types && s.types[u].Union? && o in s.types[u].members ==> IsObject(s, o)
  {
    forall u, o | u in s.types && s.types[u].Union? && o in s.types[u].members ensures IsObject(s, o) {
      UnionMembersAreObjects(s, u, o);
    }
  }

  lemma FieldsAreKnown(s: Schema)
    requires Accepted(s)
    ensures forall n, f :: IsObject(s, n) && f in s.types[n].fields ==>
      !("__" <= f) && OutputName(s, s.types[n].fields[f].ty.TypeName())
    ensures IsObject(s, s.query) && (s.mutation.Some? ==> IsObject(s, s.mutation.value))
  {
    forall n, f | IsObject(s, n) && f in s.types[n].fields
      ensures !("__" <= f) && OutputName(s, s.types[n].fields[f].ty.TypeName())
    {
      FieldTypeKnown(s, n, f);
    }
  }

  lemma AcceptedIsSane(s: Schema, b: Builder)
    requires BuiltFrom(s, b) && Accepted(s)
    ensures Sane(s)
  {
    BuiltIsKeyed(s, b);
    PossibleAreObjects(s, b);
    MembersAreObjects(s);
    FieldsAreKnown(s);
  }

  // ----- No forbidden branch is taken -----

  ghost predicate ReachedObject(s: Schema, o: Type) {
    o.Object? && o.name in s.types && s.types[o.name] == o && Reached(s, o.name)
  }

  lemma EnteredIsReached(s: Schema, a: Name, n: Name)
    requires Safe(s) && Reached(s, a) && Edge(s, a, n) && a in s.types && !s.types[a].Object?
    ensures IsObject(s, n) && ReachedObject(s, s.types[n])
  {
    EdgeReached(s, a, n);
  }

  lemma DispatchClean(env: Env, n: Name, value: FieldValue)
    requires Safe(env.schema) && OutputName(env.schema, n) && Reached(env.schema, n)
    ensures
      var d := Dispatch(env, env.schema.types[n], value);
      (d.Bad? ==> !Forbidden(d.kind)) && (d.Enter? ==> ReachedObject(env.schema, d.obj))
  {
    if value.WithType? && Edge(env.schema, n, value.ty) && !env.schema.types[n].Object? {
      EnteredIsReached(env.schema, n, value.ty);
    }
  }

  ghost predicate ResolvedAt(s: Schema, n: Name) {
    OutputName(s, n) && Reached(s, n)
  }

  ghost predicate TaskGood(env: Env, t: Task) {
    && (t.Resolve? ==> ResolvedAt(env.schema, t.definition.ty.TypeName()))
    && (t.Entities? && env.schema.entityResolver ==> ResolvedAt(env.schema, "_Entity"))
  }

  lemma TaskForGood(env: Env, o: Type, f: D.Selection)
    requires Safe(env.schema) && ReachedObject(env.schema, o) && f.Field?
    ensures TaskFor(env, o, f).Some? ==> TaskGood(env, TaskFor(env, o, f).value)
  {
    var t := TaskFor(env, o, f);
    if t.Some? && t.value.Resolve? {
      var n := o.fields[f.name].ty.TypeName();
      assert IsObject(env.schema, o.name);
      assert Edge(env.schema, o.name, n);
      EdgeReached(env.schema, o.name, n);
    } else if t.Some? && t.value.Entities? && env.schema.entityResolver {
      StartReached(env.schema, "_Entity");
    }
  }

  lemma {:induction false} TasksGood(env: Env, o: Type, fields: seq<D.Selection>)
    requires Safe(env.schema) && ReachedObject(env.schema, o)
    requires forall i :: 0 <= i < |fields| ==> fields[i].Field?
    ensures forall i :: 0 <= i < |Tasks(env, o, fields)| ==> TaskGood(env, Tasks(env, o, fields)[i])
  {
    if fields != [] {
      TasksGood(env, o, fields[1..]);
      TaskForGood(env, o, fields[0]);
    }
  }

  lemma {:induction false} LogsClean(outs: seq<Outcome>)
    requires forall i :: 0 <= i < |outs| ==> Clean(outs[i])
    ensures CleanLog(Logs(outs))
  {
    if outs != [] { LogsClean(outs[1..]); }
  }

  lemma JoinClean(env: Env, outs: seq<Outcome>, path: seq<Segment>)
    requires forall i :: 0 <= i < |outs| ==> Clean(outs[i])
    ensures Clean(Join(env, outs, path))
  {
    LogsClean(outs);
    FailingFacts(outs);
    var failing := Failing(outs);
    if failing != [] {
      var e := failing[env.schedule(path) % |failing|];
      assert e in failing;
      var i :| 0 <= i < |outs| && outs[i].result == Err(e);
      assert Clean(outs[i]);
    }
  }

  lemma {:induction false} ResolutionClean(env: Env, f: D.Selection, ty: T.TypeRef,
                                           value: Option<FieldValue>, node: PathNode)
    requires Safe(env.schema) && f.Field? && D.Finite(env.fragments, f.items)
    requires ResolvedAt(env.schema, ty.TypeName())
    ensures Clean(Resolution(env, f, ty, value, node))
    decreases Span(env, f.items), 2, ty
  {
    if value.Some? {
      match ty
      case Named(n) =>
        DispatchClean(env, n, value.value);
        var d := Dispatch(env, env.schema.types[n], value.value);
        if d.Enter? { ContainerClean(env, d.obj, f.items, d.value, Some(node)); }
      case NonNull(inner) => ResolutionClean(env, f, inner, value, node);
      case List(inner) =>
        var elements := ElementsOf(value.value);
        if elements.Some? {
          var vs := elements.value;
          var outs := seq(|vs|, i requires 0 <= i < |vs| =>
            Resolution(env, f, inner, Some(vs[i]), WithIndex(Some(node), i)));
          forall i | 0 <= i < |outs| ensures Clean(outs[i]) {
            ResolutionClean(env, f, inner, Some(vs[i]), WithIndex(Some(node), i));
          }
          JoinClean(env, outs, Segments(node));
        }
    }
  }

  lemma {:induction false} ContainerClean(env: Env, o: Type, items: D.SelectionSet,
                                          parent: FieldValue, ctx: Option<PathNode>)
    requires Safe(env.schema) && ReachedObject(env.schema, o) && D.Finite(env.fragments, items)
    ensures Clean(Container(env, o, items, parent, ctx))
    decreases Span(env, items), 1, T.Named(""), 0
  {
    var fields := Applicable(env, o, items);
    if fields.Ok? {
      ApplicableNested(env, o, items);
      TasksNested(env, o, fields.value, Span(env, items));
      TasksGood(env, o, fields.value);
      RunTasksClean(env, o, Tasks(env, o, fields.value), parent, ctx, 0, Span(env, items));
    }
  }

  lemma {:induction false} RunTasksClean(env: Env, o: Type, tasks: seq<Task>, parent: FieldValue,
                                         ctx: Option<PathNode>, n: nat, bound: nat)
    requires Safe(env.schema) && ReachedObject(env.schema, o) && TasksOk(env, tasks, bound)
    requires forall i :: 0 <= i < |tasks| ==> TaskGood(env, tasks[i])
    ensures CleanLog(RunTasks(env, o, tasks, parent, ctx, n, bound).1)
    decreases bound, 0, T.Named(""), |tasks|
  {
    if tasks != [] {
      assert TaskOk(env, tasks[0], bound) && TaskGood(env, tasks[0]);
      RunTaskClean(env, o, tasks[0], parent, ctx, n, bound);
      var (result, logged) := RunTask(env, o, tasks[0], parent, ctx, n, bound);
      var (entries, more) := RunTasks(env, o, tasks[1..], parent, ctx, n + 1, bound);
      RunTasksClean(env, o, tasks[1..], parent, ctx, n + 1, bound);
    }
  }

  lemma {:induction false} RunTaskClean(env: Env, o: Type, t: Task, parent: FieldValue,
                                        ctx: Option<PathNode>, n: nat, bound: nat)
    requires Safe(env.schema) && ReachedObject(env.schema, o) && TaskOk(env, t, bound) && TaskGood(env, t)
    ensures
      var r := RunTask(env, o, t, parent, ctx, n, bound);
      (r.0.Err? ==> !Forbidden(r.0.error.kind)) && CleanLog(r.1)
    decreases bound, 0, T.Named(""), 0
  {
    if t.Resolve? || (t.Entities? && env.schema.entityResolver) {
      var node := WithField(ctx, ResponseKey(t.field));
      var resolved := env.resolver(o.name, t.field, parent, Segments(node), n);
      var ty := if t.Resolve? then t.definition.ty else T.NonNull(T.List(T.Named("_Entity")));
      if resolved.Resolved? {
        ResolutionClean(env, t.field, ty, resolved.value, node);
      }
    }
  }

  lemma ExecuteClean(env: Env, operation: D.Operation, root: FieldValue)
    requires Safe(env.schema) && D.Finite(env.fragments, operation.items)
    ensures Clean(Execute(env, operation, root))
  {
    var s := env.schema;
    match operation.ty
    case Query =>
      StartReached(s, s.query);
      ContainerClean(env, QueryRoot(s).value, operation.items, root, None);
    case Mutation =>
      if MutationRoot(s).Some? {
        StartReached(s, s.mutation.value);
        ContainerClean(env, MutationRoot(s).value, operation.items, root, None);
      }
    case Subscription =>
  }

  /** Checked schemas do not go wrong: whatever the query or mutation selects and whatever
      the resolvers return, no type lookup misses, and no input object, subscription or
      upload is met as an output, nor a possible type that is not a registered object. */
  lemma NeverGoesWrong(env: Env, b: Builder, operation: D.Operation, root: FieldValue)
    requires BuiltFrom(env.schema, b) && Accepted(env.schema) && !ReachableClash(env.schema)
    requires D.Finite(env.fragments, operation.items)
    ensures Clean(Execute(env, operation, root))
    ensures env.schema.query in env.schema.types && QueryRoot(env.schema) == Some(env.schema.types[env.schema.query])
    ensures
      var m := env.schema.mutation;
      m.Some? ==> m.value in env.schema.types && MutationRoot(env.schema) == Some(env.schema.types[m.value])
    ensures env.schema.mutation.None? ==> MutationRoot(env.schema) == None
  {
    AcceptedIsSane(env.schema, b);
    ExecuteClean(env, operation, root);
  }

}
