/** What the introspection modes of schema and request do to an execution. */
module IntrospectionMode {
  import opened Wrappers
  import opened Paths
  import opened DynamicSchema
  import opened DynamicResolve
  import D = Documents

  predicate OnlyIntrospection(env: Env) {
    env.schema.introspection == IntrospectionOnly || env.requestMode == IntrospectionOnly
  }

  /** The same environment with other resolvers. */
  function With(env: Env, resolver: (Name, D.Selection, FieldValue, seq<Segment>, nat) -> Resolved): Env {
    env.(resolver := resolver)
  }

  lemma {:induction false} SameFields(a: Env, b: Env, o: Type, items: D.SelectionSet)
    requires o.Object? && a == b.(resolver := a.resolver) && D.Finite(a.fragments, items)
    ensures Applicable(a, o, items) == Applicable(b, o, items)
    decreases D.Height(a.fragments, items), |items|
  {
    if items != [] {
      ApplicableStep(a, o, items);
      ApplicableStep(b, o, items);
      D.HeightOfTail(a.fragments, items);
      SameFields(a, b, o, items[1..]);
      if D.Sub(a.fragments, items[0]).Some? {
        D.HeightOfSub(a.fragments, items, 0);
        SameFields(a, b, o, D.Sub(a.fragments, items[0]).value);
      }
    }
  }

  predicate Unanswered(t: Task, env: Env) {
    !t.Resolve? && (t.Entities? ==> !env.schema.entityResolver)
  }

  /** No field of the schema is run; only `_entities` could still ask a resolver. */
  lemma {:induction false} NothingToAnswer(a: Env, b: Env, o: Type, fields: seq<D.Selection>)
    requires o.Object? && a == b.(resolver := a.resolver) && OnlyIntrospection(a)
    requires !(a.schema.federation && a.schema.entityResolver) && forall i :: 0 <= i < |fields| ==> fields[i].Field?
    ensures Tasks(a, o, fields) == Tasks(b, o, fields)
    ensures forall i :: 0 <= i < |Tasks(a, o, fields)| ==> Unanswered(Tasks(a, o, fields)[i], a)
  {
    if fields != [] { NothingToAnswer(a, b, o, fields[1..]); }
  }

  lemma {:induction false} SameRun(a: Env, b: Env, o: Type, tasks: seq<Task>, parent: FieldValue, ctx: Option<PathNode>,
                                   n: nat, x: nat)
    requires o.Object? && a == b.(resolver := a.resolver) && TasksOk(a, tasks, x) && TasksOk(b, tasks, x)
    requires forall i :: 0 <= i < |tasks| ==> Unanswered(tasks[i], a)
    ensures RunTasks(a, o, tasks, parent, ctx, n, x) == RunTasks(b, o, tasks, parent, ctx, n, x)
    decreases tasks
  {
    if tasks != [] {
      assert TaskOk(a, tasks[0], x) && TaskOk(b, tasks[0], x) && Unanswered(tasks[0], a);
      SameRun(a, b, o, tasks[1..], parent, ctx, n + 1, x);
    }
  }

  lemma SameTasks(a: Env, b: Env, o: Type, fields: seq<D.Selection>, parent: FieldValue, ctx: Option<PathNode>, x: nat)
    requires o.Object? && a == b.(resolver := a.resolver) && OnlyIntrospection(a)
    requires !(a.schema.federation && a.schema.entityResolver) && AllNested(a, fields, x) && AllNested(b, fields, x)
    ensures Tasks(a, o, fields) == Tasks(b, o, fields)
    ensures TasksOk(a, Tasks(a, o, fields), x) && TasksOk(b, Tasks(b, o, fields), x)
    ensures RunTasks(a, o, Tasks(a, o, fields), parent, ctx, 0, x) == RunTasks(b, o, Tasks(b, o, fields), parent, ctx, 0, x)
  {
    forall i | 0 <= i < |fields| ensures fields[i].Field? { assert Nested(a, fields[i], x); }
    TasksNested(a, o, fields, x);
    TasksNested(b, o, fields, x);
    NothingToAnswer(a, b, o, fields);
    SameRun(a, b, o, Tasks(a, o, fields), parent, ctx, 0, x);
  }

  lemma SameContainer(a: Env, b: Env, o: Type, items: D.SelectionSet, parent: FieldValue, ctx: Option<PathNode>)
    requires o.Object? && a == b.(resolver := a.resolver) && OnlyIntrospection(a) && D.Finite(a.fragments, items)
    requires !(a.schema.federation && a.schema.entityResolver)
    ensures Container(a, o, items, parent, ctx) == Container(b, o, items, parent, ctx)
  {
    SameFields(a, b, o, items);
    var fields, x := Applicable(a, o, items), Span(a, items);
    if fields.Ok? {
      ApplicableNested(a, o, items);
      ApplicableNested(b, o, items);
      SameTasks(a, b, o, fields.value, parent, ctx, x);
    }
  }

  /** A schema or a request that is for introspection only runs no resolver: the outcome is
      the same whatever the resolvers do. */
  lemma IntrospectionRunsNoResolver(env: Env, resolver: (Name, D.Selection, FieldValue, seq<Segment>, nat) -> Resolved,
                                    operation: D.Operation, root: FieldValue)
    requires OnlyIntrospection(env) && !(env.schema.federation && env.schema.entityResolver)
    requires D.Finite(env.fragments, operation.items)
    ensures Execute(env, operation, root) == Execute(With(env, resolver), operation, root)
  {
    var other := With(env, resolver);
    if operation.ty.Query? && QueryRoot(env.schema).Some? {
      SameContainer(env, other, QueryRoot(env.schema).value, operation.items, root, None);
    } else if operation.ty.Mutation? && MutationRoot(env.schema).Some? {
      SameContainer(env, other, MutationRoot(env.schema).value, operation.items, root, None);
    }
  }
}
