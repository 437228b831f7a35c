/** Every error of a whole execution says where it is: its path is the chain of response
    keys and list indices that leads from the root to a place that really is at fault. */
module ErrorPlaces {
  import opened Wrappers
  import opened Paths
  import opened DynamicSchema
  import opened DynamicResolve
  import opened ResolveTheorems
  import T = TypeRefs
  import D = Documents

  // ----- Faults -----

  /** An error of the object that is resolved at `path`: some task of it is at fault. */
  ghost predicate Explained(env: Env, o: Type, items: D.SelectionSet, parent: FieldValue, path: seq<Segment>, e: ServerError)
    requires o.Object? && D.Finite(env.fragments, items)
    decreases Span(env, items), 2
  {
    var fields := Applicable(env, o, items);
    fields.Ok? && AllNested(env, fields.value, Span(env, items)) &&
    var tasks := Tasks(env, o, fields.value);
    exists k :: 0 <= k < |tasks| && TaskOk(env, tasks[k], Span(env, items))
      && TaskFault(env, o, tasks[k], parent, path, k, e, Span(env, items))
  }

  /** The `n`-th task is at fault: its resolver failed or returned nothing for a non-null
      type, or the returned value has a fault. */
  ghost predicate TaskFault(env: Env, o: Type, t: Task, parent: FieldValue, path: seq<Segment>, n: nat,
                            e: ServerError, bound: nat)
    requires o.Object? && TaskOk(env, t, bound)
    decreases bound, 1
  {
    (t.Resolve? || t.Entities?) &&
    var here := path + [Key(ResponseKey(t.field))];
    var ty := if t.Resolve? then t.definition.ty else T.NonNull(T.List(T.Named("_Entity")));
    if t.Entities? && !env.schema.entityResolver then e == ServerError(MissingEntityResolver, here)
    else
      match env.resolver(o.name, t.field, parent, here, n)
      case Rejected => e == ServerError(ResolverFailed, [])
      case Resolved(None) => ty.NonNull? && e == ServerError(NonNullMissing, here)
      case Resolved(Some(v)) => exists indices :: ValueFault(env, t.field, ty, v, indices, here, e)
  }

  /** Following the indices through the value leads to a misfit, or to an object that has an
      error of its own. An unknown fragment is reported without a path. */
  ghost predicate ValueFault(env: Env, f: D.Selection, ty: T.TypeRef, value: FieldValue, indices: seq<nat>,
                             here: seq<Segment>, e: ServerError)
    requires f.Field? && D.Finite(env.fragments, f.items)
    decreases Span(env, f.items), 3
  {
    || (Offends(env, f, ty, value, indices, e.kind)
        && e.path == if e.kind.UnknownFragment? then [] else here + Indices(indices))
    || (var d := EnteredAt(env, ty, value, indices);
        d.Some? && Explained(env, d.value.0, f.items, d.value.1, here + Indices(indices), e))
  }

  /** The object that is entered at the end of the indices. */
  ghost function EnteredAt(env: Env, ty: T.TypeRef, value: FieldValue, indices: seq<nat>): (r: Option<(Type, FieldValue)>)
    ensures r.Some? ==> r.value.0.Object?
  {
    var place := At(ty, value, indices);
    if place.Some? && place.value.0.Named? && place.value.0.name in env.schema.types then
      var d := Dispatch(env, env.schema.types[place.value.0.name], place.value.1);
      if d.Enter? then Some((d.obj, d.value)) else None
    else None
  }

  // ----- Every logged error is explained -----

  lemma {:induction false} LogsMember(outs: seq<Outcome>, e: ServerError) returns (i: nat)
    requires e in Logs(outs)
    ensures i < |outs| && e in outs[i].logged
  {
    if e in outs[0].logged {
      i := 0;
    } else {
      var j := LogsMember(outs[1..], e);
      i := j + 1;
    }
  }

  lemma Deeper(env: Env, f: D.Selection, inner: T.TypeRef, value: FieldValue, i: nat, rest: seq<nat>,
               node: PathNode, e: ServerError)
    requires f.Field? && D.Finite(env.fragments, f.items)
    requires ElementsOf(value).Some? && i < |ElementsOf(value).value|
    requires ValueFault(env, f, inner, ElementsOf(value).value[i], rest, Segments(WithIndex(Some(node), i)), e)
    ensures ValueFault(env, f, T.List(inner), value, [i] + rest, Segments(node), e)
  {
    PathThrough(node, i, rest);
    assert ([i] + rest)[1..] == rest;
    assert At(T.List(inner), value, [i] + rest) == At(inner, ElementsOf(value).value[i], rest);
  }

  /** An error that a value logs belongs to an object inside it. */
  lemma {:induction false} ValueLogs(env: Env, f: D.Selection, ty: T.TypeRef, value: FieldValue, node: PathNode, e: ServerError)
      returns (indices: seq<nat>)
    requires f.Field? && D.Finite(env.fragments, f.items)
    requires e in Resolution(env, f, ty, Some(value), node).logged
    ensures ValueFault(env, f, ty, value, indices, Segments(node), e)
    decreases Span(env, f.items), 2, ty
  {
    match ty
    case Named(n) =>
      indices := [];
      var d := Dispatch(env, env.schema.types[n], value);
      assert Segments(node) + Indices([]) == Segments(node);
      assert EnteredAt(env, ty, value, []) == Some((d.obj, d.value));
      ContainerLogs(env, d.obj, f.items, d.value, Some(node), e);
    case NonNull(inner) =>
      indices := ValueLogs(env, f, inner, value, node, e);
      assert At(ty, value, indices) == At(inner, value, indices);
    case List(inner) =>
      var vs := ElementsOf(value).value;
      var outs := seq(|vs|, i requires 0 <= i < |vs| =>
        Resolution(env, f, inner, Some(vs[i]), WithIndex(Some(node), i)));
      assert Resolution(env, f, ty, Some(value), node) == Join(env, outs, Segments(node));
      var i := LogsMember(outs, e);
      var rest := ValueLogs(env, f, inner, vs[i], WithIndex(Some(node), i), e);
      Deeper(env, f, inner, value, i, rest, node, e);
      indices := [i] + rest;
  }

  lemma {:induction false} ContainerLogs(env: Env, o: Type, items: D.SelectionSet, parent: FieldValue,
                                         ctx: Option<PathNode>, e: ServerError)
    requires o.Object? && D.Finite(env.fragments, items) && e in Container(env, o, items, parent, ctx).logged
    ensures Explained(env, o, items, parent, PathOf(ctx), e)
    decreases Span(env, items), 1, T.Named(""), 0
  {
    ApplicableNested(env, o, items);
    var fields, bound := Applicable(env, o, items).value, Span(env, items);
    TasksNested(env, o, fields, bound);
    var tasks := Tasks(env, o, fields);
    var k := TasksLog(env, o, tasks, parent, ctx, 0, bound, e);
    assert TaskOk(env, tasks[k], bound);
  }

  lemma {:induction false} TasksLog(env: Env, o: Type, tasks: seq<Task>, parent: FieldValue, ctx: Option<PathNode>,
                                    n: nat, bound: nat, e: ServerError) returns (k: nat)
    requires o.Object? && TasksOk(env, tasks, bound) && e in RunTasks(env, o, tasks, parent, ctx, n, bound).1
    ensures k < |tasks| && TaskOk(env, tasks[k], bound)
    ensures TaskFault(env, o, tasks[k], parent, PathOf(ctx), n + k, e, bound)
    decreases bound, 0, T.Named(""), |tasks|
  {
    assert TaskOk(env, tasks[0], bound);
    var (result, logged) := RunTask(env, o, tasks[0], parent, ctx, n, bound);
    if e in logged || result == Err(e) {
      k := 0;
      TaskLogs(env, o, tasks[0], parent, ctx, n, bound, e);
    } else {
      var rest := TasksLog(env, o, tasks[1..], parent, ctx, n + 1, bound, e);
      k := rest + 1;
    }
  }

  lemma {:induction false} TaskLogs(env: Env, o: Type, t: Task, parent: FieldValue, ctx: Option<PathNode>,
                                    n: nat, bound: nat, e: ServerError)
    requires o.Object? && TaskOk(env, t, bound)
    requires
      var r := RunTask(env, o, t, parent, ctx, n, bound);
      e in r.1 || r.0 == Err(e)
    ensures TaskFault(env, o, t, parent, PathOf(ctx), n, e, bound)
    decreases bound, 0, T.Named(""), 0
  {
    if t.Resolve? || (t.Entities? && env.schema.entityResolver) {
      var node := WithField(ctx, ResponseKey(t.field));
      var ty := if t.Resolve? then t.definition.ty else T.NonNull(T.List(T.Named("_Entity")));
      var resolved := env.resolver(o.name, t.field, parent, Segments(node), n);
      if resolved.Resolved? && resolved.value.Some? {
        var indices := FieldLogs(env, t.field, ty, resolved.value.value, node, e);
      } else if resolved.Resolved? {
        assert RunTask(env, o, t, parent, ctx, n, bound) == RunField(env, t.field, ty, resolved, node);
        assert Resolution(env, t.field, ty, None, node) ==
          if ty.NonNull? then Fail(NonNullMissing, Segments(node)) else Outcome(Ok(None), []);
      }
    }
  }

  /** The error of a value, returned or logged, has a fault behind it. */
  lemma {:induction false} FieldLogs(env: Env, f: D.Selection, ty: T.TypeRef, value: FieldValue, node: PathNode, e: ServerError)
      returns (indices: seq<nat>)
    requires f.Field? && D.Finite(env.fragments, f.items)
    requires
      var out := Resolution(env, f, ty, Some(value), node);
      e in out.logged || out.result == Err(e)
    ensures ValueFault(env, f, ty, value, indices, Segments(node), e)
    decreases Span(env, f.items), 3
  {
    if e in Resolution(env, f, ty, Some(value), node).logged {
      indices := ValueLogs(env, f, ty, value, node, e);
    } else {
      indices := ErrorsArePlaced(env, f, ty, value, node);
    }
  }

  function RootOf(s: Schema, ty: D.OperationType): Option<Type> {
    match ty
    case Query => QueryRoot(s)
    case Mutation => MutationRoot(s)
    case Subscription => None
  }

  /** What can fail an operation as a whole, always without a path: a missing root, a
      subscription, or an unknown fragment among the fields of the root. */
  ghost predicate RootFault(env: Env, operation: D.Operation, e: ServerError)
    requires D.Finite(env.fragments, operation.items)
  {
    var o := RootOf(env.schema, operation.ty);
    && e.path == []
    && (o.None? ==> e.kind == if operation.ty.Query? then NoQueryRoot
                              else if operation.ty.Mutation? then NoMutationRoot else SubscriptionsUnsupported)
    && (o.Some? ==> e.kind.UnknownFragment? && Applicable(env, o.value, operation.items) == Err(e.kind.fragment))
  }

  /** Every error of an execution, returned or added to the response, is explained: a
      returned one by a fault of the root; any other from the root, with the path of response
      keys and indices that leads to its place. */
  lemma ExecutionErrorsArePlaced(env: Env, operation: D.Operation, root: FieldValue, e: ServerError)
    requires D.Finite(env.fragments, operation.items)
    ensures Execute(env, operation, root).result == Err(e) ==> RootFault(env, operation, e)
    ensures e in Execute(env, operation, root).logged ==>
      var o := RootOf(env.schema, operation.ty);
      o.Some? && Explained(env, o.value, operation.items, root, [], e)
  {
    var o := RootOf(env.schema, operation.ty);
    if e in Execute(env, operation, root).logged {
      ContainerLogs(env, o.value, operation.items, root, None, e);
    }
  }
}
