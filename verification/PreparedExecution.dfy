/** From a sent document to its execution: what `Prepare` hands over and what the resolver
    does with it, put together. */
module PreparedExecution {
  import opened Wrappers
  import opened DynamicSchema
  import opened SchemaCheck
  import opened DynamicResolve
  import opened CheckedSchemas
  import D = Documents
  import P = Pruning
  import W = Traversals
  import Q = PrepareRequest
  import R = ResolveTheorems
  import E = ErrorPlaces
  import F = ReferenceExecution

  lemma PreparedFinite(p: Q.Prepared, choice: Q.Choice, fragments: D.Fragments, variables: D.Variables, depth: nat)
    requires Q.Means(p, choice, fragments, variables, depth)
    ensures D.Finite(p.fragments, p.operation.items)
  {
    assert D.Within(p.fragments, p.operation.items, depth);
  }

  /** What the fields collected for an object are, compared with some entries: they are the
      entries that apply to the object, and so on for the objects below each of them. */
  ghost predicate Mirrors(env: Env, entries: seq<P.Entry>, items: D.SelectionSet)
    requires D.Finite(env.fragments, items)
    decreases Span(env, items), 1
  {
    forall o: Type :: o.Object? ==> MirrorsFor(env, o, entries, items)
  }

  ghost predicate MirrorsFor(env: Env, o: Type, entries: seq<P.Entry>, items: D.SelectionSet)
    requires o.Object? && D.Finite(env.fragments, items)
    decreases Span(env, items), 0
  {
    var found, own := Applicable(env, o, items), R.For(o, entries);
    && R.Collected(env, own, found)
    && (found.Ok? ==>
          && AllNested(env, found.value, Span(env, items))
          && forall k :: 0 <= k < |own| && Nested(env, found.value[k], Span(env, items)) ==>
            Mirrors(env, own[k].children, found.value[k].items))
  }

  /** Resolution follows the meaning of a selection set at every nesting level, whatever
      objects the resolvers return. */
  lemma {:induction false} RunsMeaning(env: Env, items: D.SelectionSet)
    requires D.Finite(env.fragments, items)
    ensures Mirrors(env, P.PlainMeaning(env.fragments, items, []), items)
    decreases Span(env, items)
  {
    var entries := P.PlainMeaning(env.fragments, items, []);
    forall o: Type | o.Object? ensures MirrorsFor(env, o, entries, items) {
      R.CollectsMeaning(env, o, items, []);
      var found, own := Applicable(env, o, items), R.For(o, entries);
      if found.Ok? {
        ApplicableNested(env, o, items);
        assert AllNested(env, found.value, Span(env, items));
        forall k | 0 <= k < |own| && Nested(env, found.value[k], Span(env, items))
          ensures Mirrors(env, own[k].children, found.value[k].items)
        {
          assert W.Describes(env.fragments, own[k], found.value[k]);
          RunsMeaning(env, found.value[k].items);
        }
      }
    }
  }

  lemma PreparedMirrors(env: Env, p: Q.Prepared, choice: Q.Choice, fragments: D.Fragments, variables: D.Variables, depth: nat)
    requires Q.Means(p, choice, fragments, variables, depth) && env.fragments == p.fragments
    ensures D.Finite(env.fragments, p.operation.items)
    ensures Mirrors(env, P.Meaning(fragments, choice.operation.items, variables, []), p.operation.items)
  {
    PreparedFinite(p, choice, fragments, variables, depth);
    RunsMeaning(env, p.operation.items);
  }

  /** Executing a prepared request on a checked schema terminates without a forbidden error
      and runs, at every nesting level, exactly the fields of the document as it was sent:
      those that survive `@skip` and `@include` and whose type conditions hold, in order. */
  lemma PreparedExecutes(env: Env, b: Builder, p: Q.Prepared, choice: Q.Choice, fragments: D.Fragments,
                         variables: D.Variables, depth: nat, root: FieldValue)
    requires Q.Means(p, choice, fragments, variables, depth) && env.fragments == p.fragments
    requires BuiltFrom(env.schema, b) && Accepted(env.schema) && !ReachableClash(env.schema)
    ensures D.Finite(env.fragments, p.operation.items) && Clean(Execute(env, p.operation, root))
    ensures Mirrors(env, P.Meaning(fragments, choice.operation.items, variables, []), p.operation.items)
    ensures
      var o := E.RootOf(env.schema, p.operation.ty);
      o.Some? ==> Execute(env, p.operation, root) == Container(env, o.value, p.operation.items, root, None)
  {
    PreparedFinite(p, choice, fragments, variables, depth);
    NeverGoesWrong(env, b, p.operation, root);
    PreparedMirrors(env, p, choice, fragments, variables, depth);
  }

  /** With resolvers that see selected fields through their meaning, executing a prepared
      request is reference execution of the document as it was sent: the same record, entry
      by entry, and the same errors, in order and at the same paths. */
  lemma PreparedIsReference(env: Env, answers: F.Answers, p: Q.Prepared, choice: Q.Choice, fragments: D.Fragments,
                            variables: D.Variables, depth: nat, root: FieldValue)
    requires Q.Means(p, choice, fragments, variables, depth) && env.fragments == p.fragments
    requires F.Agree(env, answers)
    ensures D.Finite(env.fragments, p.operation.items)
    ensures
      var o := E.RootOf(env.schema, p.operation.ty);
      o.Some? ==>
        Execute(env, p.operation, root) ==
        F.Perform(env, answers, o.value, P.Meaning(fragments, choice.operation.items, variables, []), root, [])
  {
    PreparedFinite(p, choice, fragments, variables, depth);
    var o := E.RootOf(env.schema, p.operation.ty);
    if o.Some? { F.ContainerAgrees(env, answers, o.value, p.operation.items, root, None); }
  }
}
