/** Resolution of a prepared operation against a dynamic schema. Resolver functions, scalar
    validators and the order in which list elements fail are parameters of the environment,
    so a statement about all environments is a statement about all of them. */
module DynamicResolve {
  import opened Wrappers
  import opened Paths
  import opened DynamicSchema
  import opened Collections
  import T = TypeRefs
  import D = Documents

  /** What a resolver can hand back. */
  datatype FieldValue =
    | Const(value: D.ConstValue)
    | Opaque(tag: int)
    | ListValue(items: seq<FieldValue>)
    | WithType(inner: FieldValue, ty: Name)

  datatype Output =
    | Null
    | Leaf(leaf: D.ConstValue)
    | Elements(elements: seq<Output>)
    | Record(entries: seq<(Name, Output)>)
    | Introspection

  datatype ErrorKind =
    | NonNullMissing
    | ExpectsArray
    | InvalidScalar(scalar: Name)
    | InvalidEnum(enumeration: Name)
    | NotImplementing(obj: Name)
    | InterfaceNeedsType
    | NotInUnion(obj: Name)
    | UnionNeedsType
    | UnknownFragment(fragment: Name)
    | ResolverFailed
    | MissingEntityResolver
    | NoMutationRoot
    | SubscriptionsUnsupported
    // The branches below are meant to be unreachable in a checked schema.
    | NoQueryRoot
    | MissingType(name: Name)
    | InputObjectAsOutput
    | SubscriptionAsOutput
    | UploadAsOutput
    | NotRegistered(name: Name)
    | NotObject(name: Name)

  datatype ServerError = ServerError(kind: ErrorKind, path: seq<Segment>)

  datatype Resolved = Resolved(value: Option<FieldValue>) | Rejected

  datatype Env = Env(
    schema: Schema,
    fragments: D.Fragments,
    requestMode: Mode,
    // Result of the resolver of (object, field selection) on a parent value, at a path; the
    // last argument tells repeated selections apart. `Rejected` covers failing arguments.
    resolver: (Name, D.Selection, FieldValue, seq<Segment>, nat) -> Resolved,
    validate: (Name, D.ConstValue) -> bool,
    // Which of several failing elements of a list fails first.
    schedule: seq<Segment> -> nat)

  // ----- collect_fields -----

  datatype Task =
    | Typename(key: Name)
    | Internal(key: Name)                                  // __schema, __type, _service
    | Entities(field: D.Selection)
    | Suppressed(key: Name)                                // introspection-only requests
    | Resolve(field: D.Selection, definition: OutputField)

  function ResponseKey(f: D.Selection): Name
    requires f.Field?
  {
    f.alias.GetOr(f.name)
  }

  /** What one selected field adds for an object; an undefined field adds nothing. */
  function TaskFor(env: Env, obj: Type, f: D.Selection): Option<Task>
    requires obj.Object? && f.Field?
  {
    var root := obj.name == env.schema.query && !env.schema.introspection.Disabled? && !env.requestMode.Disabled?;
    if f.name == "__typename" then Some(Typename(ResponseKey(f)))
    else if root && (f.name == "__schema" || f.name == "__type") then Some(Internal(ResponseKey(f)))
    else if root && env.schema.federation && f.name == "_service" then Some(Internal(ResponseKey(f)))
    else if root && env.schema.federation && f.name == "_entities" then Some(Entities(f))
    else if env.schema.introspection.IntrospectionOnly? || env.requestMode.IntrospectionOnly? then Some(Suppressed(ResponseKey(f)))
    else if f.name in obj.fields then Some(Resolve(f, obj.fields[f.name]))
    else None
  }

  /** A type condition matches the object's own name or a name it declares to implement. */
  predicate Matches(obj: Type, on: Option<Name>)
    requires obj.Object?
  {
    on.None? || on.value == obj.name || on.value in obj.implements
  }

  function Condition(env: Env, s: D.Selection): Option<Name>
    requires D.Sub(env.fragments, s).Some? && !s.Field?
  {
    if s.FragmentSpread? then Some(env.fragments[s.fragment].on) else s.on
  }

  function Both<X>(a: Result<seq<X>, Name>, b: Result<seq<X>, Name>): Result<seq<X>, Name> {
    if a.Err? then a else if b.Err? then b else Ok(a.value + b.value)
  }

  /** The fields that apply to an object, in order (section 6.3.2 of GraphQL October 2021,
      without merging); the first unknown fragment aborts. */
  function Applicable(env: Env, obj: Type, items: D.SelectionSet): Result<seq<D.Selection>, Name>
    requires obj.Object? && D.Finite(env.fragments, items)
    decreases D.Height(env.fragments, items), |items|
  {
    if items == [] then Ok([])
    else
      D.HeightOfTail(env.fragments, items);
      assert D.Sub(env.fragments, items[0]).Some? ==>
          D.Finite(env.fragments, D.Sub(env.fragments, items[0]).value)
          && D.Height(env.fragments, D.Sub(env.fragments, items[0]).value) < D.Height(env.fragments, items) by {
        if D.Sub(env.fragments, items[0]).Some? { D.HeightOfSub(env.fragments, items, 0); }
      }
      var head :=
        if items[0].Field? then Ok([items[0]])
        else if items[0].FragmentSpread? && items[0].fragment !in env.fragments then Err(items[0].fragment)
        else if Matches(obj, Condition(env, items[0]))
        then Applicable(env, obj, D.Sub(env.fragments, items[0]).value)
        else Ok([]);
      Both(head, Applicable(env, obj, items[1..]))
  }

  function Tasks(env: Env, obj: Type, fields: seq<D.Selection>): seq<Task>
    requires obj.Object? && forall i :: 0 <= i < |fields| ==> fields[i].Field?
  {
    if fields == [] then []
    else
      var t := TaskFor(env, obj, fields[0]);
      (if t.Some? then [t.value] else []) + Tasks(env, obj, fields[1..])
  }

  ghost function Span(env: Env, items: D.SelectionSet): nat
    requires D.Finite(env.fragments, items)
  {
    if items == [] then 0 else 1 + D.Height(env.fragments, items)
  }

  ghost predicate Nested(env: Env, f: D.Selection, bound: nat) {
    f.Field? && D.Finite(env.fragments, f.items) && Span(env, f.items) < bound
  }

  ghost predicate AllNested(env: Env, fields: seq<D.Selection>, bound: nat) {
    forall i :: 0 <= i < |fields| ==> Nested(env, fields[i], bound)
  }

  /** Sub-selections of collected fields are strictly shallower: the measure of the whole
      resolution. */
  lemma {:induction false} ApplicableNested(env: Env, obj: Type, items: D.SelectionSet)
    requires obj.Object? && D.Finite(env.fragments, items)
    ensures Applicable(env, obj, items).Ok? ==>
      AllNested(env, Applicable(env, obj, items).value, Span(env, items))
    decreases D.Height(env.fragments, items), |items|
  {
    if items != [] {
      D.HeightOfTail(env.fragments, items);
      ApplicableNested(env, obj, items[1..]);
      D.EmptyIsFinite(env.fragments);
      if D.Sub(env.fragments, items[0]).Some? {
        D.HeightOfSub(env.fragments, items, 0);
        ApplicableNested(env, obj, D.Sub(env.fragments, items[0]).value);
      }
    }
  }

  /** What one selection adds to the applicable fields. */
  function Contribution(env: Env, obj: Type, s: D.Selection): Result<seq<D.Selection>, Name>
    requires obj.Object? && D.FiniteSub(env.fragments, s)
  {
    if s.Field? then Ok([s])
    else if s.FragmentSpread? && s.fragment !in env.fragments then Err(s.fragment)
    else if Matches(obj, Condition(env, s)) then Applicable(env, obj, D.Sub(env.fragments, s).value)
    else Ok([])
  }

  lemma ApplicableStep(env: Env, obj: Type, items: D.SelectionSet)
    requires obj.Object? && D.Finite(env.fragments, items) && items != []
    ensures D.Finite(env.fragments, items[1..]) && D.FiniteSub(env.fragments, items[0])
    ensures Applicable(env, obj, items)
         == Both(Contribution(env, obj, items[0]), Applicable(env, obj, items[1..]))
  {
    D.HeightOfTail(env.fragments, items);
    if D.Sub(env.fragments, items[0]).Some? { D.HeightOfSub(env.fragments, items, 0); }
  }

  /** `collect_fields`: one shared vector, filled by a loop and by recursion into matching
      fragments; an unknown fragment stops everything. */
  method CollectFields(env: Env, obj: Type, items: D.SelectionSet, fields: seq<Task>)
      returns (r: Result<(), Name>, out: seq<Task>)
    requires obj.Object? && D.Finite(env.fragments, items)
    ensures r.Err? <==> Applicable(env, obj, items).Err?
    ensures r.Err? ==> r.error == Applicable(env, obj, items).error
    ensures r.Ok? ==>
      && AllNested(env, Applicable(env, obj, items).value, Span(env, items))
      && out == fields + Tasks(env, obj, Applicable(env, obj, items).value)
    decreases D.Height(env.fragments, items), 1 + |items|
  {
    ApplicableNested(env, obj, items);
    out := fields;
    ghost var done: seq<D.Selection> := [];
    ghost var goal := Applicable(env, obj, items);
    NothingDone(goal);
    assert items[0..] == items;
    for i := 0 to |items|
      invariant D.Finite(env.fragments, items[i..])
      invariant forall j :: 0 <= j < |done| ==> done[j].Field?
      invariant goal == Both(Ok(done), Applicable(env, obj, items[i..]))
      invariant out == fields + Tasks(env, obj, done)
    {
      CollectStep(env, obj, items, i, done);
      if D.Sub(env.fragments, items[i]).Some? { D.HeightOfSub(env.fragments, items, i); }
      r, out := CollectOne(env, obj, items[i], out);
      if r.Err? {
        return;
      }
      ghost var own := Contribution(env, obj, items[i]).value;
      TasksJoin(env, obj, fields, done, own);
      done := done + own;
    }
    assert items[|items|..] == [];
    assert done + [] == done;
    return Ok(()), out;
  }

  lemma NothingDone(goal: Result<seq<D.Selection>, Name>)
    ensures goal == Both(Ok([]), goal)
  {
    if goal.Ok? { assert [] + goal.value == goal.value; }
  }

  /** Moving one selection from what is left to what is done. */
  lemma CollectStep(env: Env, obj: Type, items: D.SelectionSet, i: nat, done: seq<D.Selection>)
    requires obj.Object? && i < |items| && D.Finite(env.fragments, items[i..])
    ensures D.Finite(env.fragments, items[i + 1..]) && D.FiniteSub(env.fragments, items[i])
    ensures
      var left, own := Both(Ok(done), Applicable(env, obj, items[i..])), Contribution(env, obj, items[i]);
      if own.Err? then left == own
      else left == Both(Ok(done + own.value), Applicable(env, obj, items[i + 1..]))
  {
    assert items[i..][0] == items[i] && items[i..][1..] == items[i + 1..];
    ApplicableStep(env, obj, items[i..]);
    var own := Contribution(env, obj, items[i]);
    if own.Ok? { BothAssociative(done, own.value, Applicable(env, obj, items[i + 1..])); }
  }

  lemma TasksJoin(env: Env, obj: Type, fields: seq<Task>, done: seq<D.Selection>, own: seq<D.Selection>)
    requires obj.Object?
    requires forall i :: 0 <= i < |done| ==> done[i].Field?
    requires forall i :: 0 <= i < |own| ==> own[i].Field?
    ensures (fields + Tasks(env, obj, done)) + Tasks(env, obj, own) == fields + Tasks(env, obj, done + own)
  {
    TasksConcat(env, obj, done, own);
    Regroup(fields, Tasks(env, obj, done), Tasks(env, obj, own));
  }

  /** The body of the loop, for one selection. */
  method CollectOne(env: Env, obj: Type, s: D.Selection, fields: seq<Task>)
      returns (r: Result<(), Name>, out: seq<Task>)
    requires obj.Object? && D.FiniteSub(env.fragments, s)
    ensures r.Err? <==> Contribution(env, obj, s).Err?
    ensures r.Err? ==> r.error == Contribution(env, obj, s).error
    ensures r.Ok? ==>
      var own := Contribution(env, obj, s).value;
      && (forall j :: 0 <= j < |own| ==> own[j].Field?)
      && out == fields + Tasks(env, obj, own)
    decreases if D.Sub(env.fragments, s).Some? then D.Height(env.fragments, D.Sub(env.fragments, s).value) + 1 else 0, 0
  {
    r, out := Ok(()), fields;
    if s.Field? {
      var task := TaskFor(env, obj, s);
      if task.Some? {
        out := out + [task.value];
      }
      assert Tasks(env, obj, [s]) == if task.Some? then [task.value] else [];
    } else if s.FragmentSpread? && s.fragment !in env.fragments {
      r := Err(s.fragment);
    } else if Matches(obj, Condition(env, s)) {
      var sub := D.Sub(env.fragments, s).value;
      r, out := CollectFields(env, obj, sub, out);
    }
  }

  lemma BothAssociative(a: seq<D.Selection>, b: seq<D.Selection>, c: Result<seq<D.Selection>, Name>)
    ensures Both(Ok(a), Both(Ok(b), c)) == Both(Ok(a + b), c)
  {
    if c.Ok? { Regroup(a, b, c.value); }
  }

  lemma {:induction false} TasksConcat(env: Env, obj: Type, a: seq<D.Selection>, b: seq<D.Selection>)
    requires obj.Object?
    requires forall i :: 0 <= i < |a| ==> a[i].Field?
    requires forall i :: 0 <= i < |b| ==> b[i].Field?
    ensures Tasks(env, obj, a + b) == Tasks(env, obj, a) + Tasks(env, obj, b)
  {
    if a == [] {
      assert a + b == b;
    } else {
      TasksConcat(env, obj, a[1..], b);
      assert (a + b)[0] == a[0] && (a + b)[1..] == a[1..] + b;
    }
  }

  // ----- resolve_value -----

  datatype Dispatched = Done(output: Output) | Enter(obj: Type, value: FieldValue) | Bad(kind: ErrorKind)

  /** The object behind a typed value, after the membership test has passed. */
  function Concrete(schema: Schema, name: Name, value: FieldValue): Dispatched {
    if name !in schema.types then Bad(NotRegistered(name))
    else if !schema.types[name].Object? then Bad(NotObject(name))
    else Enter(schema.types[name], value)
  }

  /** What a value means at a named type: a finished output, an object to descend into, or
      an error. */
  function Dispatch(env: Env, ty: Type, value: FieldValue): (r: Dispatched)
    ensures r.Enter? ==> r.obj.Object?
  {
    match ty
    case Scalar(name) =>
      if value.Const? && env.validate(name, value.value) then Done(Leaf(value.value)) else Bad(InvalidScalar(name))
    case Object(_, _, _, _, _) => Enter(ty, value)
    case InputObject(_, _, _) => Bad(InputObjectAsOutput)
    case Enum(name, values) =>
      if value.Const? && value.value.Enum? && value.value.item in values then Done(Leaf(value.value))
      else if value.Const? && value.value.String? && value.value.text in values then Done(Leaf(D.Enum(value.value.text)))
      else Bad(InvalidEnum(name))
    case Interface(name, _, _, _) =>
      if !value.WithType? then Bad(InterfaceNeedsType)
      else if name in env.schema.possible && value.ty in env.schema.possible[name]
      then Concrete(env.schema, value.ty, value.inner)
      else Bad(NotImplementing(value.ty))
    case Union(_, members) =>
      if !value.WithType? then Bad(UnionNeedsType)
      else if value.ty in members then Concrete(env.schema, value.ty, value.inner)
      else Bad(NotInUnion(value.ty))
    case Subscription(_, _) => Bad(SubscriptionAsOutput)
    case Upload => Bad(UploadAsOutput)
  }

  /** The names that a typed value may carry at a type. */
  function Admitted(env: Env, ty: Type): set<Name> {
    match ty
    case Interface(name, _, _, _) => if name in env.schema.possible then env.schema.possible[name] else {}
    case Union(_, members) => members
    case _ => {}
  }

  /** A value is finished as a constant that the scalar accepts, unchanged, or as a listed
      enum item, given as an enum value or as a string. */
  ghost predicate Finishes(env: Env, ty: Type, value: FieldValue, out: Output) {
    || (ty.Scalar? && value.Const? && env.validate(ty.name, value.value) && out == Leaf(value.value))
    || (ty.Enum? && exists n :: n in ty.values && (value == Const(D.Enum(n)) || value == Const(D.String(n)))
                               && out == Leaf(D.Enum(n)))
  }

  /** A value is entered at an object type, or when it is typed with an admitted name of a
      registered object. */
  predicate Enters(env: Env, ty: Type, value: FieldValue, o: Type, inner: FieldValue) {
    || (ty.Object? && o == ty && inner == value)
    || (value.WithType? && value.inner == inner && value.ty in Admitted(env, ty)
        && value.ty in env.schema.types && env.schema.types[value.ty] == o && o.Object?)
  }

  /** What is wrong otherwise. */
  ghost predicate Refuses(env: Env, ty: Type, value: FieldValue, kind: ErrorKind) {
    || (ty.Scalar? && kind == InvalidScalar(ty.name) && !(value.Const? && env.validate(ty.name, value.value)))
    || (ty.Enum? && kind == InvalidEnum(ty.name)
        && forall n :: n in ty.values ==> value != Const(D.Enum(n)) && value != Const(D.String(n)))
    || (ty.InputObject? && kind == InputObjectAsOutput)
    || (ty.Subscription? && kind == SubscriptionAsOutput)
    || (ty.Upload? && kind == UploadAsOutput)
    || (ty.Interface? && !value.WithType? && kind == InterfaceNeedsType)
    || (ty.Union? && !value.WithType? && kind == UnionNeedsType)
    || (ty.Interface? && value.WithType? && value.ty !in Admitted(env, ty) && kind == NotImplementing(value.ty))
    || (ty.Union? && value.WithType? && value.ty !in Admitted(env, ty) && kind == NotInUnion(value.ty))
    || (value.WithType? && value.ty in Admitted(env, ty) && value.ty !in env.schema.types && kind == NotRegistered(value.ty))
    || (value.WithType? && value.ty in Admitted(env, ty) && value.ty in env.schema.types
        && !env.schema.types[value.ty].Object? && kind == NotObject(value.ty))
  }

  lemma EnterExact(env: Env, ty: Type, value: FieldValue, o: Type, inner: FieldValue)
    ensures Dispatch(env, ty, value) == Enter(o, inner) <==> Enters(env, ty, value, o, inner)
  {
  }

  lemma DoneExact(env: Env, ty: Type, value: FieldValue, out: Output)
    ensures Dispatch(env, ty, value) == Done(out) <==> Finishes(env, ty, value, out)
  {
    if ty.Enum? && value.Const? && value.value.Enum? { assert value == Const(D.Enum(value.value.item)); }
    if ty.Enum? && value.Const? && value.value.String? { assert value == Const(D.String(value.value.text)); }
  }

  lemma EnumRefuses(env: Env, ty: Type, value: FieldValue)
    requires ty.Enum?
    ensures Dispatch(env, ty, value) == Bad(InvalidEnum(ty.name)) <==>
      forall n :: n in ty.values ==> value != Const(D.Enum(n)) && value != Const(D.String(n))
  {
    if value.Const? && value.value.Enum? { assert value == Const(D.Enum(value.value.item)); }
    if value.Const? && value.value.String? { assert value == Const(D.String(value.value.text)); }
  }

  lemma BadExact(env: Env, ty: Type, value: FieldValue, kind: ErrorKind)
    ensures Dispatch(env, ty, value) == Bad(kind) <==> Refuses(env, ty, value, kind)
  {
    if ty.Enum? { EnumRefuses(env, ty, value); }
  }

  /** Exactly when a value is entered, when and as what it is finished, and when and why it
      is refused. */
  lemma DispatchExact(env: Env, ty: Type, value: FieldValue, o: Type, inner: FieldValue, out: Output, kind: ErrorKind)
    ensures Dispatch(env, ty, value) == Enter(o, inner) <==> Enters(env, ty, value, o, inner)
    ensures Dispatch(env, ty, value) == Done(out) <==> Finishes(env, ty, value, out)
    ensures Dispatch(env, ty, value) == Bad(kind) <==> Refuses(env, ty, value, kind)
  {
    EnterExact(env, ty, value, o, inner);
    DoneExact(env, ty, value, out);
    BadExact(env, ty, value, kind);
  }

  // ----- resolve, resolve_list, resolve_container -----

  /** The result of a future and the errors it added to the response on the way. */
  datatype Outcome = Outcome(result: Result<Option<Output>, ServerError>, logged: seq<ServerError>)

  function Fail(kind: ErrorKind, path: seq<Segment>): Outcome {
    Outcome(Err(ServerError(kind, path)), [])
  }

  /** The elements of a value that can be read as a list. */
  function ElementsOf(value: FieldValue): Option<seq<FieldValue>> {
    match value
    case ListValue(items) => Some(items)
    case Const(List(elements)) => Some(seq(|elements|, i requires 0 <= i < |elements| => Const(elements[i])))
    case _ => None
  }

  function Logs(outs: seq<Outcome>): seq<ServerError> {
    if outs == [] then [] else outs[0].logged + Logs(outs[1..])
  }

  function Failing(outs: seq<Outcome>): seq<ServerError> {
    if outs == [] then []
    else (if outs[0].result.Err? then [outs[0].result.error] else []) + Failing(outs[1..])
  }

  /** `try_join_all`: all values in order, or one of the errors. */
  function Join(env: Env, outs: seq<Outcome>, path: seq<Segment>): Outcome {
    var failing := Failing(outs);
    if failing == [] then
      FailingFacts(outs);
      Outcome(Ok(Some(Elements(seq(|outs|, i requires 0 <= i < |outs| => outs[i].result.value.GetOr(Null))))), Logs(outs))
    else
      Outcome(Err(failing[env.schedule(path) % |failing|]), Logs(outs))
  }

  lemma {:induction false} FailingFacts(outs: seq<Outcome>)
    ensures Failing(outs) == [] <==> forall i :: 0 <= i < |outs| ==> outs[i].result.Ok?
    ensures forall e :: e in Failing(outs) ==> exists i :: 0 <= i < |outs| && outs[i].result == Err(e)
  {
    if outs != [] {
      FailingFacts(outs[1..]);
      assert forall i :: 0 <= i < |outs| ==> outs[i] == if i == 0 then outs[0] else outs[1..][i - 1];
      forall e | e in Failing(outs) ensures exists i :: 0 <= i < |outs| && outs[i].result == Err(e) {
        if e in Failing(outs[1..]) {
          var j :| 0 <= j < |outs[1..]| && outs[1..][j].result == Err(e);
          assert outs[j + 1].result == Err(e);
        }
      }
    }
  }

  function Resolution(env: Env, f: D.Selection, ty: T.TypeRef, value: Option<FieldValue>, node: PathNode): Outcome
    requires f.Field? && D.Finite(env.fragments, f.items)
    decreases Span(env, f.items), 2, ty
  {
    match ty
    case Named(name) =>
      if value.None? then Outcome(Ok(None), [])
      else if name !in env.schema.types then Fail(MissingType(name), Segments(node))
      else
        (match Dispatch(env, env.schema.types[name], value.value)
         case Bad(kind) => Fail(kind, Segments(node))
         case Done(output) => Outcome(Ok(Some(output)), [])
         case Enter(o, v) => Container(env, o, f.items, v, Some(node)))
    case NonNull(inner) =>
      if value.None? then Fail(NonNullMissing, Segments(node)) else Resolution(env, f, inner, value, node)
    case List(inner) =>
      if value.None? then Outcome(Ok(None), [])
      else
        var elements := ElementsOf(value.value);
        if elements.None? then Fail(ExpectsArray, Segments(node))
        else
          var vs := elements.value;
          var outs := seq(|vs|, i requires 0 <= i < |vs| =>
            Resolution(env, f, inner, Some(vs[i]), WithIndex(Some(node), i)));
          Join(env, outs, Segments(node))
  }

  function Container(env: Env, obj: Type, items: D.SelectionSet, parent: FieldValue, ctx: Option<PathNode>): Outcome
    requires obj.Object? && D.Finite(env.fragments, items)
    decreases Span(env, items), 1, T.Named(""), 0
  {
    var fields := Applicable(env, obj, items);
    if fields.Err? then Fail(UnknownFragment(fields.error), [])
    else
      ApplicableNested(env, obj, items);
      var tasks := Tasks(env, obj, fields.value);
      TasksNested(env, obj, fields.value, Span(env, items));
      var (entries, logged) := RunTasks(env, obj, tasks, parent, ctx, 0, Span(env, items));
      Outcome(Ok(Some(if entries == [] then Null else Record(entries))), logged)
  }

  ghost predicate TasksOk(env: Env, tasks: seq<Task>, bound: nat) {
    forall i :: 0 <= i < |tasks| ==> TaskOk(env, tasks[i], bound)
  }

  ghost predicate TaskOk(env: Env, t: Task, bound: nat) {
    t.Entities? || t.Resolve? ==> Nested(env, t.field, bound)
  }

  lemma {:induction false} TasksNested(env: Env, obj: Type, fields: seq<D.Selection>, bound: nat)
    requires obj.Object? && AllNested(env, fields, bound)
    ensures TasksOk(env, Tasks(env, obj, fields), bound)
  {
    if fields != [] {
      TasksNested(env, obj, fields[1..], bound);
      assert Nested(env, fields[0], bound);
    }
  }

  /** `do_resolve_container`: values are kept under their response keys, errors are added to
      the response. */
  function RunTasks(env: Env, obj: Type, tasks: seq<Task>, parent: FieldValue, ctx: Option<PathNode>,
                    n: nat, ghost bound: nat): (seq<(Name, Output)>, seq<ServerError>)
    requires obj.Object? && TasksOk(env, tasks, bound)
    decreases bound, 0, T.Named(""), |tasks|
  {
    if tasks == [] then ([], [])
    else
      assert TaskOk(env, tasks[0], bound);
      var (result, logged) := RunTask(env, obj, tasks[0], parent, ctx, n, bound);
      var (entries, more) := RunTasks(env, obj, tasks[1..], parent, ctx, n + 1, bound);
      match result
      case Ok(entry) => ([entry] + entries, logged + more)
      case Err(e) => (entries, logged + [e] + more)
  }

  function RunTask(env: Env, obj: Type, t: Task, parent: FieldValue, ctx: Option<PathNode>,
                   n: nat, ghost bound: nat): (Result<(Name, Output), ServerError>, seq<ServerError>)
    requires obj.Object? && TaskOk(env, t, bound)
    decreases bound, 0, T.Named(""), 0
  {
    match t
    case Typename(key) => (Ok((key, Leaf(D.String(obj.name)))), [])
    case Internal(key) => (Ok((key, Introspection)), [])
    case Suppressed(key) => (Ok((key, Null)), [])
    case Entities(f) =>
      var node := WithField(ctx, ResponseKey(f));
      if !env.schema.entityResolver then (Err(ServerError(MissingEntityResolver, Segments(node))), [])
      else RunField(env, f, T.NonNull(T.List(T.Named("_Entity"))),
                    env.resolver(obj.name, f, parent, Segments(node), n), node)
    case Resolve(f, definition) =>
      var node := WithField(ctx, ResponseKey(f));
      RunField(env, f, definition.ty, env.resolver(obj.name, f, parent, Segments(node), n), node)
  }

  function RunField(env: Env, f: D.Selection, ty: T.TypeRef, resolved: Resolved, node: PathNode)
      : (Result<(Name, Output), ServerError>, seq<ServerError>)
    requires f.Field? && D.Finite(env.fragments, f.items)
    decreases Span(env, f.items), 3
  {
    match resolved
    case Rejected => (Err(ServerError(ResolverFailed, [])), [])
    case Resolved(value) =>
      var out := Resolution(env, f, ty, value, node);
      match out.result
      case Ok(v) => (Ok((ResponseKey(f), v.GetOr(Null))), out.logged)
      case Err(e) => (Err(e), out.logged)
  }

  // ----- execute_once -----

  function QueryRoot(s: Schema): Option<Type> {
    if s.query in s.types && s.types[s.query].Object? then Some(s.types[s.query]) else None
  }

  function MutationRoot(s: Schema): Option<Type> {
    if s.mutation.Some? && s.mutation.value in s.types && s.types[s.mutation.value].Object?
    then Some(s.types[s.mutation.value]) else None
  }

  function Execute(env: Env, operation: D.Operation, root: FieldValue): Outcome
    requires D.Finite(env.fragments, operation.items)
  {
    match operation.ty
    case Query =>
      var o := QueryRoot(env.schema);
      if o.Some? then Container(env, o.value, operation.items, root, None) else Fail(NoQueryRoot, [])
    case Mutation =>
      var o := MutationRoot(env.schema);
      if o.Some? then Container(env, o.value, operation.items, root, None) else Fail(NoMutationRoot, [])
    case Subscription => Fail(SubscriptionsUnsupported, [])
  }
}
