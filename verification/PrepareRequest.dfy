/** The order in which a request is prepared: bound the recursion, bound the directives,
    validate, choose the operation, prune. */
module PrepareRequest {
  import opened Wrappers
  import opened Documents
  import opened DepthLimits
  import opened Pruning
  import opened Traversals

  datatype Prepared = Prepared(operationName: Option<Name>, operation: Operation, fragments: Fragments)

  datatype PrepareError =
    | RecursionTooDeep
    | TooManyDirectives
    | Invalid
    | UnknownOperation(name: Name)
    | OperationNameRequired

  datatype Choice = Choice(name: Option<Name>, operation: Operation)

  /** The operation that a request names, or the only one. */
  function Choose(operations: Operations, name: Option<Name>): Result<Choice, PrepareError> {
    match operations
    case Single(operation) =>
      if name.Some? then Err(UnknownOperation(name.value)) else Ok(Choice(None, operation))
    case Multiple(named) =>
      if name.Some? then
        if name.value in named then Ok(Choice(name, named[name.value])) else Err(UnknownOperation(name.value))
      else if |named| == 1 then
        var n := Only(named); Ok(Choice(Some(n), named[n]))
      else Err(OperationNameRequired)
  }

  function Only(named: map<Name, Operation>): (n: Name)
    requires |named| == 1
    ensures named.Keys == {n}
  {
    assert |named.Keys| == 1;
    assert exists n :: n in named.Keys by { assert named.Keys != {}; }
    OnlyKey(named.Keys);
    var n :| n in named.Keys;
    n
  }

  lemma OnlyKey(names: set<Name>)
    requires |names| == 1
    ensures forall a, b :: a in names && b in names ==> a == b
  {
    forall a, b | a in names && b in names ensures a == b {
      assert |names - {a}| == 0;
      assert names - {a} == {};
    }
  }

  /** An operation is chosen exactly when it is the only one and no name is given, or has the
      name that is given, or is the only one of a list of named ones. */
  lemma ChooseExact(operations: Operations, name: Option<Name>, chosen: Option<Name>, operation: Operation)
    ensures Choose(operations, name) == Ok(Choice(chosen, operation)) <==>
      || (operations == Single(operation) && name == None && chosen == None)
      || (operations.Multiple? && chosen.Some? && chosen.value in operations.named
          && operations.named[chosen.value] == operation
          && (name == chosen || (name == None && operations.named.Keys == {chosen.value})))
    ensures forall n :: Choose(operations, name) == Err(UnknownOperation(n)) <==>
      name == Some(n) && (operations.Multiple? ==> n !in operations.named)
    ensures Choose(operations, name) == Err(OperationNameRequired) <==>
      name == None && operations.Multiple? && |operations.named| != 1
  {
    if operations.Multiple? && chosen.Some? && operations.named.Keys == {chosen.value} {
      assert |operations.named| == |operations.named.Keys| == 1;
    }
  }

  ghost predicate Admitted(doc: Document, recursiveDepth: nat, maxDirectives: Option<nat>) {
    DepthOk(doc, recursiveDepth) && (maxDirectives.Some? ==> DirectivesOk(doc, maxDirectives.value))
  }

  /** A prepared request: the chosen operation and all fragments pruned, so that no condition
      is left; the depth bound holds, and the operation means what the chosen one means with
      its conditions evaluated in place. */
  ghost predicate Means(p: Prepared, choice: Choice, fragments: Fragments, variables: Variables, depth: nat) {
    && p.operationName == choice.name && p.operation.ty == choice.operation.ty
    && p.operation.items == Prune(choice.operation.items, variables)
    && p.fragments == PruneFragments(fragments, variables)
    && Unconditional(p.operation.items)
    && (forall f :: f in p.fragments ==> Unconditional(p.fragments[f].items))
    && Within(p.fragments, p.operation.items, depth)
    && Finite(fragments, choice.operation.items)
    && PlainMeaning(p.fragments, p.operation.items, []) == Meaning(fragments, choice.operation.items, variables, [])
  }

  /** `rulesPass` stands for the validation rules. Errors are reported in the order of the
      passes; a prepared request means what its operation meant before pruning, and every
      later traversal of it ends. */
  method Prepare(doc: Document, name: Option<Name>, variables: Variables, recursiveDepth: nat,
                 maxDirectives: Option<nat>, rulesPass: bool)
      returns (r: Result<Prepared, PrepareError>)
    ensures !DepthOk(doc, recursiveDepth) ==> r == Err(RecursionTooDeep)
    ensures DepthOk(doc, recursiveDepth) && maxDirectives.Some? && !DirectivesOk(doc, maxDirectives.value) ==>
      r == Err(TooManyDirectives)
    ensures Admitted(doc, recursiveDepth, maxDirectives) && !rulesPass ==> r == Err(Invalid)
    ensures Admitted(doc, recursiveDepth, maxDirectives) && rulesPass && Choose(doc.operations, name).Err? ==>
      r == Err(Choose(doc.operations, name).error)
    ensures Admitted(doc, recursiveDepth, maxDirectives) && rulesPass && Choose(doc.operations, name).Ok? ==>
      r.Ok? && Means(r.value, Choose(doc.operations, name).value, doc.fragments, variables, recursiveDepth)
  {
    var depthOk := CheckRecursiveDepth(doc, recursiveDepth);
    if !depthOk {
      return Err(RecursionTooDeep);
    }
    if maxDirectives.Some? {
      var directivesOk := CheckMaxDirectives(doc, maxDirectives.value, recursiveDepth);
      if !directivesOk {
        return Err(TooManyDirectives);
      }
    }
    if !rulesPass {
      return Err(Invalid);
    }
    var choice := Choose(doc.operations, name);
    if choice.Err? {
      return Err(choice.error);
    }
    var Choice(chosen, operation) := choice.value;
    assert operation.items in doc.SelectionSets();
    assert Within(doc.fragments, operation.items, recursiveDepth);
    var fragments := RemoveSkippedInFragments(doc.fragments, variables);
    var items := RemoveSkippedSelection(operation.items, variables);
    PruneUnconditional(operation.items, variables);
    forall f | f in fragments ensures Unconditional(fragments[f].items) {
      PruneUnconditional(doc.fragments[f].items, variables);
    }
    PruneWithin(doc.fragments, operation.items, variables, recursiveDepth);
    PrunePreservesMeaning(doc.fragments, operation.items, variables, []);
    return Ok(Prepared(chosen, Operation(operation.ty, items), fragments));
  }

  /** Walking a prepared selection set yields, in order, exactly the fields that the
      original selects once `@skip` and `@include` are evaluated, with the same nested
      meanings. */
  lemma PreparedWalksOriginal(fragments: Fragments, items: SelectionSet, variables: Variables)
    requires Finite(fragments, items)
    ensures
      var pf, pi := PruneFragments(fragments, variables), Prune(items, variables);
      && Finite(pf, pi)
      && AllDescribe(pf, SelectedOnly(Meaning(fragments, items, variables, [])), Flatten(pf, pi))
  {
    PrunePreservesMeaning(fragments, items, variables, []);
    FlattenIsMeaning(PruneFragments(fragments, variables), Prune(items, variables), []);
  }

  /** A chain of look-aheads on a pruned field finds exactly the nested fields that the
      original field selects. */
  lemma PreparedLookahead(fragments: Fragments, field: Selection, variables: Variables, path: seq<Name>)
    requires field.Field? && Finite(fragments, field.items)
    ensures
      var pf, pfield := PruneFragments(fragments, variables), PruneOne(field, variables);
      && Walkable(pf, [pfield])
      && (LookPath(pf, [pfield], path) != [] <==>
            HasPath(Meaning(fragments, field.items, variables, []), path))
  {
    PrunePreservesMeaning(fragments, field.items, variables, []);
    LookaheadFindsMeaning(PruneFragments(fragments, variables), [PruneOne(field, variables)], path);
  }

  /** On what `Prepare` returns: the walk yields the fields of the chosen operation, and a
      chain of look-aheads on each of them answers about the document as it was sent. */
  lemma PreparedFields(p: Prepared, choice: Choice, fragments: Fragments, variables: Variables, depth: nat,
                       k: nat, path: seq<Name>)
    requires Means(p, choice, fragments, variables, depth) && k < |Flatten(p.fragments, p.operation.items)|
    ensures
      var flat := Flatten(p.fragments, p.operation.items);
      var entries := SelectedOnly(Meaning(fragments, choice.operation.items, variables, []));
      && AllDescribe(p.fragments, entries, flat) && Walkable(p.fragments, [flat[k]])
      && (LookPath(p.fragments, [flat[k]], path) != [] <==> HasPath(entries[k].children, path))
  {
    var flat := Flatten(p.fragments, p.operation.items);
    var entries := SelectedOnly(Meaning(fragments, choice.operation.items, variables, []));
    PreparedWalksOriginal(fragments, choice.operation.items, variables);
    assert Describes(p.fragments, entries[k], flat[k]);
    LookaheadFindsMeaning(p.fragments, [flat[k]], path);
  }
}
