/** A reference executor that works on the meaning of a selection set instead of the
    document, and the proof that resolution agrees with it: preparing a request and
    executing it is reference execution of the document as it was sent. */
module ReferenceExecution {
  import opened Wrappers
  import opened Paths
  import opened DynamicSchema
  import opened DynamicResolve
  import opened ResolveTheorems
  import T = TypeRefs
  import D = Documents
  import P = Pruning
  import W = Traversals

  // ----- The reference -----

  /** What the resolver of (object, selected field) returns for a parent value, at a path;
      the selected field is given by its meaning. */
  type Answers = (Name, P.Entry, FieldValue, seq<Segment>, nat) -> Resolved

  /** The first unknown fragment among the entries that apply to an object. */
  function FirstUnknown(o: Type, entries: seq<P.Entry>): Option<Name>
    requires o.Object?
  {
    if entries == [] then None
    else if Guarded(o, entries[0].guards) && entries[0].Unknown? then Some(entries[0].fragment)
    else FirstUnknown(o, entries[1..])
  }

  /** An object: one unknown fragment fails it; otherwise every field that applies gives one
      entry of the record or one logged error, in order. */
  function Perform(env: Env, answers: Answers, o: Type, entries: seq<P.Entry>, parent: FieldValue,
                   path: seq<Segment>): Outcome
    requires o.Object?
    decreases entries, 1
  {
    var unknown := FirstUnknown(o, entries);
    if unknown.Some? then Fail(UnknownFragment(unknown.value), [])
    else
      var (record, logged) := PerformFields(env, answers, o, entries, parent, path, 0);
      Outcome(Ok(Some(if record == [] then Null else Record(record))), logged)
  }

  /** The selected field itself, without the conditions on the way to it. */
  function Bare(e: P.Entry): P.Entry
    requires e.Selected?
  {
    P.Selected([], e.alias, e.name, e.arguments, e.directives, e.children)
  }

  function PerformFields(env: Env, answers: Answers, o: Type, entries: seq<P.Entry>, parent: FieldValue,
                         path: seq<Segment>, n: nat): (seq<(Name, Output)>, seq<ServerError>)
    requires o.Object?
    decreases entries, 0
  {
    if entries == [] then ([], [])
    else
      var run := if Guarded(o, entries[0].guards) && entries[0].Selected?
                 then PerformField(env, answers, o, entries[0], parent, path, n) else None;
      if run.None? then PerformFields(env, answers, o, entries[1..], parent, path, n)
      else
        var (result, logged) := run.value;
        var (record, more) := PerformFields(env, answers, o, entries[1..], parent, path, n + 1);
        match result
        case Ok(output) => ([(entries[0].alias.GetOr(entries[0].name), output)] + record, logged + more)
        case Err(e) => (record, logged + [e] + more)
  }

  /** The built-in fields of the query type are there if both the schema and the request
      allow introspection. */
  predicate BuiltIns(env: Env, o: Type)
    requires o.Object?
  {
    o.name == env.schema.query && env.schema.introspection != Disabled && env.requestMode != Disabled
  }

  /** One selected field; a field that the object does not have adds nothing. */
  function PerformField(env: Env, answers: Answers, o: Type, e: P.Entry, parent: FieldValue, path: seq<Segment>, n: nat)
      : Option<(Result<Output, ServerError>, seq<ServerError>)>
    requires o.Object? && e.Selected?
    decreases e, 4
  {
    var here := path + [Key(e.alias.GetOr(e.name))];
    var builtIns, federated := BuiltIns(env, o), BuiltIns(env, o) && env.schema.federation;
    if e.name == "__typename" then Some((Ok(Leaf(D.String(o.name))), []))
    else if (builtIns && e.name in {"__schema", "__type"}) || (federated && e.name == "_service") then
      Some((Ok(Introspection), []))
    else if federated && e.name == "_entities" then
      if env.schema.entityResolver then
        Some(PerformAnswer(env, answers, e, T.NonNull(T.List(T.Named("_Entity"))),
                           answers(o.name, Bare(e), parent, here, n), here))
      else Some((Err(ServerError(MissingEntityResolver, here)), []))
    else if IntrospectionOnly in {env.schema.introspection, env.requestMode} then Some((Ok(Null), []))
    else if e.name in o.fields then
      Some(PerformAnswer(env, answers, e, o.fields[e.name].ty, answers(o.name, Bare(e), parent, here, n), here))
    else None
  }

  function PerformAnswer(env: Env, answers: Answers, e: P.Entry, ty: T.TypeRef, resolved: Resolved,
                         here: seq<Segment>): (Result<Output, ServerError>, seq<ServerError>)
    requires e.Selected?
    decreases e, 3
  {
    match resolved
    case Rejected => (Err(ServerError(ResolverFailed, [])), [])
    case Resolved(value) =>
      var out := PerformValue(env, answers, e, ty, value, here);
      match out.result
      case Ok(v) => (Ok(v.GetOr(Null)), out.logged)
      case Err(error) => (Err(error), out.logged)
  }

  /** The enum item that a value names. */
  function ItemOf(value: FieldValue): Option<Name> {
    match value
    case Const(Enum(item)) => Some(item)
    case Const(String(text)) => Some(text)
    case _ => None
  }

  function Finished(output: Output): Outcome {
    Outcome(Ok(Some(output)), [])
  }

  function PerformValue(env: Env, answers: Answers, e: P.Entry, ty: T.TypeRef, value: Option<FieldValue>,
                        here: seq<Segment>): Outcome
    requires e.Selected?
    decreases e, 2, ty, 1
  {
    if value.None? then (if ty.NonNull? then Fail(NonNullMissing, here) else Outcome(Ok(None), []))
    else
      match ty
      case Named(name) => PerformNamed(env, answers, e, name, value.value, here)
      case NonNull(inner) => PerformValue(env, answers, e, inner, value, here)
      case List(inner) =>
        if value.value.ListValue? then
          var vs := value.value.items;
          Join(env, seq(|vs|, i requires 0 <= i < |vs| =>
            PerformValue(env, answers, e, inner, Some(vs[i]), here + [Index(i)])), here)
        else if value.value.Const? && value.value.value.List? then
          var cs := value.value.value.elements;
          Join(env, seq(|cs|, i requires 0 <= i < |cs| =>
            PerformValue(env, answers, e, inner, Some(Const(cs[i])), here + [Index(i)])), here)
        else Fail(ExpectsArray, here)
  }

  /** A value at a named type: leaves are completed as they are, objects are performed. */
  function PerformNamed(env: Env, answers: Answers, e: P.Entry, name: Name, value: FieldValue, here: seq<Segment>): Outcome
    requires e.Selected?
    decreases e, 2, T.Named(name), 0
  {
    if name !in env.schema.types then Fail(MissingType(name), here)
    else
      match env.schema.types[name]
      case Scalar(scalar) =>
        if value.Const? && env.validate(scalar, value.value) then Finished(Leaf(value.value))
        else Fail(InvalidScalar(scalar), here)
      case Enum(enumeration, values) =>
        if ItemOf(value).Some? && ItemOf(value).value in values then Finished(Leaf(D.Enum(ItemOf(value).value)))
        else Fail(InvalidEnum(enumeration), here)
      case Object(_, _, _, _, _) => Perform(env, answers, env.schema.types[name], e.children, value, here)
      case Interface(interface, _, _, _) =>
        if !value.WithType? then Fail(InterfaceNeedsType, here)
        else if interface in env.schema.possible && value.ty in env.schema.possible[interface]
        then PerformTyped(env, answers, e, value, here)
        else Fail(NotImplementing(value.ty), here)
      case Union(_, members) =>
        if !value.WithType? then Fail(UnionNeedsType, here)
        else if value.ty in members then PerformTyped(env, answers, e, value, here)
        else Fail(NotInUnion(value.ty), here)
      case InputObject(_, _, _) => Fail(InputObjectAsOutput, here)
      case Subscription(_, _) => Fail(SubscriptionAsOutput, here)
      case Upload => Fail(UploadAsOutput, here)
  }

  function PerformTyped(env: Env, answers: Answers, e: P.Entry, value: FieldValue, here: seq<Segment>): Outcome
    requires e.Selected? && value.WithType?
    decreases e, 1
  {
    if value.ty !in env.schema.types then Fail(NotRegistered(value.ty), here)
    else if env.schema.types[value.ty].Object?
    then Perform(env, answers, env.schema.types[value.ty], e.children, value.inner, here)
    else Fail(NotObject(value.ty), here)
  }

  // ----- Unguarded entries play no part -----

  lemma {:induction false} OnlyGuarded(env: Env, answers: Answers, o: Type, entries: seq<P.Entry>, parent: FieldValue,
                                       path: seq<Segment>, n: nat)
    requires o.Object?
    ensures PerformFields(env, answers, o, entries, parent, path, n)
         == PerformFields(env, answers, o, For(o, entries), parent, path, n)
    ensures FirstUnknown(o, entries) == FirstUnknown(o, For(o, entries))
    decreases entries
  {
    if entries != [] {
      var rest := For(o, entries[1..]);
      if Guarded(o, entries[0].guards) {
        var own := [entries[0]] + rest;
        assert own[0] == entries[0] && own[1..] == rest;
        OnlyGuarded(env, answers, o, entries[1..], parent, path, n);
        OnlyGuarded(env, answers, o, entries[1..], parent, path, n + 1);
      } else {
        assert For(o, entries) == rest;
        OnlyGuarded(env, answers, o, entries[1..], parent, path, n);
      }
    }
  }

  // ----- Resolution agrees -----

  function Told(fragments: D.Fragments, f: D.Selection): P.Entry
    requires f.Field? && D.Finite(fragments, f.items)
  {
    P.Selected([], f.alias, f.name, f.arguments, f.directives, P.PlainMeaning(fragments, f.items, []))
  }

  /** The resolvers see a selected field only through its meaning, as look-ahead does. */
  ghost predicate Agree(env: Env, answers: Answers) {
    forall o, f: D.Selection, parent, path, n :: f.Field? && D.Finite(env.fragments, f.items) ==>
      env.resolver(o, f, parent, path, n) == answers(o, Told(env.fragments, f), parent, path, n)
  }

  /** Every choice of answers is made by some resolvers. */
  lemma AnswersAreResolvers(env: Env, answers: Answers) returns (told: Env)
    ensures told == env.(resolver := told.resolver) && Agree(told, answers)
  {
    told := env.(resolver := (o: Name, f: D.Selection, parent: FieldValue, path: seq<Segment>, n: nat) =>
      if f.Field? && D.Finite(env.fragments, f.items) then answers(o, Told(env.fragments, f), parent, path, n) else Rejected);
  }

  lemma ToldIsBare(fragments: D.Fragments, e: P.Entry, f: D.Selection)
    requires W.Describes(fragments, e, f)
    ensures Told(fragments, f) == Bare(e)
  {
  }

  lemma {:induction false} NamedAgrees(env: Env, answers: Answers, e: P.Entry, f: D.Selection, n: Name,
                                       value: FieldValue, node: PathNode)
    requires Agree(env, answers) && W.Describes(env.fragments, e, f)
    ensures Resolution(env, f, T.Named(n), Some(value), node)
         == PerformNamed(env, answers, e, n, value, Segments(node))
    decreases Span(env, f.items), 2, T.Named(n), 0
  {
    if n in env.schema.types {
      var d := Dispatch(env, env.schema.types[n], value);
      if d.Enter? { ContainerAgrees(env, answers, d.obj, f.items, d.value, Some(node)); }
    }
  }

  lemma {:induction false} ValueAgrees(env: Env, answers: Answers, e: P.Entry, f: D.Selection, ty: T.TypeRef,
                                       value: Option<FieldValue>, node: PathNode)
    requires Agree(env, answers) && W.Describes(env.fragments, e, f)
    ensures Resolution(env, f, ty, value, node) == PerformValue(env, answers, e, ty, value, Segments(node))
    decreases Span(env, f.items), 2, ty, 1
  {
    if value.Some? {
      match ty
      case Named(n) => NamedAgrees(env, answers, e, f, n, value.value, node);
      case NonNull(inner) => ValueAgrees(env, answers, e, f, inner, value, node);
      case List(inner) =>
        if ElementsOf(value.value).Some? {
          var vs, here := ElementsOf(value.value).value, Segments(node);
          var outs := seq(|vs|, i requires 0 <= i < |vs| =>
            Resolution(env, f, inner, Some(vs[i]), WithIndex(Some(node), i)));
          var refs := seq(|vs|, i requires 0 <= i < |vs| =>
            PerformValue(env, answers, e, inner, Some(vs[i]), here + [Index(i)]));
          forall i | 0 <= i < |vs| ensures outs[i] == refs[i] {
            ValueAgrees(env, answers, e, f, inner, Some(vs[i]), WithIndex(Some(node), i));
          }
          assert outs == refs;
          if value.value.Const? {
            var cs := value.value.value.elements;
            assert refs == seq(|cs|, i requires 0 <= i < |cs| =>
              PerformValue(env, answers, e, inner, Some(Const(cs[i])), here + [Index(i)]));
          }
        }
    }
  }

  lemma {:induction false} ContainerAgrees(env: Env, answers: Answers, o: Type, items: D.SelectionSet,
                                           parent: FieldValue, ctx: Option<PathNode>)
    requires Agree(env, answers) && o.Object? && D.Finite(env.fragments, items)
    ensures Container(env, o, items, parent, ctx)
         == Perform(env, answers, o, P.PlainMeaning(env.fragments, items, []), parent, PathOf(ctx))
    decreases Span(env, items), 1, T.Named(""), 0
  {
    var entries := P.PlainMeaning(env.fragments, items, []);
    var own, found := For(o, entries), Applicable(env, o, items);
    CollectsMeaning(env, o, items, []);
    AllGuarded(o, entries);
    OnlyGuarded(env, answers, o, entries, parent, PathOf(ctx), 0);
    if found.Err? {
      var i: nat :| FirstUnknownAt(own, i, found.error);
      UnknownFound(o, own, i, found.error);
    } else {
      NoneUnknown(o, own);
      ApplicableNested(env, o, items);
      TasksNested(env, o, found.value, Span(env, items));
      TasksAgree(env, answers, o, own, found.value, parent, ctx, 0, Span(env, items));
    }
  }

  lemma {:induction false} AllGuarded(o: Type, entries: seq<P.Entry>)
    requires o.Object?
    ensures forall i :: 0 <= i < |For(o, entries)| ==> Guarded(o, For(o, entries)[i].guards)
  {
    if entries != [] { AllGuarded(o, entries[1..]); }
  }

  lemma {:induction false} UnknownFound(o: Type, own: seq<P.Entry>, i: nat, f: Name)
    requires o.Object? && FirstUnknownAt(own, i, f) && Guarded(o, own[i].guards)
    ensures FirstUnknown(o, own) == Some(f)
    decreases i
  {
    if i > 0 {
      assert own[0].Selected?;
      UnknownFound(o, own[1..], i - 1, f);
    }
  }

  lemma {:induction false} NoneUnknown(o: Type, own: seq<P.Entry>)
    requires o.Object? && forall i :: 0 <= i < |own| ==> own[i].Selected?
    ensures FirstUnknown(o, own) == None
  {
    if own != [] { NoneUnknown(o, own[1..]); }
  }

  lemma {:induction false} TasksAgree(env: Env, answers: Answers, o: Type, own: seq<P.Entry>, fields: seq<D.Selection>,
                                      parent: FieldValue, ctx: Option<PathNode>, n: nat, bound: nat)
    requires Agree(env, answers) && o.Object? && AllNested(env, fields, bound)
    requires W.AllDescribe(env.fragments, own, fields) && forall i :: 0 <= i < |own| ==> Guarded(o, own[i].guards)
    ensures TasksOk(env, Tasks(env, o, fields), bound)
    ensures RunTasks(env, o, Tasks(env, o, fields), parent, ctx, n, bound)
         == PerformFields(env, answers, o, own, parent, PathOf(ctx), n)
    decreases bound, 0, T.Named(""), |fields|, 1
  {
    TasksNested(env, o, fields, bound);
    if fields != [] {
      assert W.Describes(env.fragments, own[0], fields[0]) && Nested(env, fields[0], bound);
      assert Guarded(o, own[0].guards);
      if TaskFor(env, o, fields[0]).None? {
        NoTask(env, answers, o, own[0], fields[0], parent, PathOf(ctx), n);
        TasksAgree(env, answers, o, own[1..], fields[1..], parent, ctx, n, bound);
        assert Tasks(env, o, fields) == Tasks(env, o, fields[1..]);
      } else {
        TasksAgree(env, answers, o, own[1..], fields[1..], parent, ctx, n + 1, bound);
        TaskAgrees(env, answers, o, own[0], fields[0], parent, ctx, n, bound);
        OneMore(env, answers, o, own, fields, parent, ctx, n, bound);
      }
    }
  }

  lemma OneMore(env: Env, answers: Answers, o: Type, own: seq<P.Entry>, fields: seq<D.Selection>,
                parent: FieldValue, ctx: Option<PathNode>, n: nat, bound: nat)
    requires o.Object? && |own| == |fields| > 0 && own[0].Selected? && Guarded(o, own[0].guards)
    requires AllNested(env, fields, bound) && TasksOk(env, Tasks(env, o, fields), bound)
    requires TasksOk(env, Tasks(env, o, fields[1..]), bound) && TaskFor(env, o, fields[0]).Some?
    requires TaskOk(env, TaskFor(env, o, fields[0]).value, bound)
    requires
      var run := PerformField(env, answers, o, own[0], parent, PathOf(ctx), n);
      run.Some? && SameRun(own[0], RunTask(env, o, TaskFor(env, o, fields[0]).value, parent, ctx, n, bound), run.value)
    requires RunTasks(env, o, Tasks(env, o, fields[1..]), parent, ctx, n + 1, bound)
          == PerformFields(env, answers, o, own[1..], parent, PathOf(ctx), n + 1)
    ensures RunTasks(env, o, Tasks(env, o, fields), parent, ctx, n, bound)
         == PerformFields(env, answers, o, own, parent, PathOf(ctx), n)
  {
    var tasks := Tasks(env, o, fields);
    assert tasks[0] == TaskFor(env, o, fields[0]).value && tasks[1..] == Tasks(env, o, fields[1..]);
  }

  /** A run of a task, with the response key taken off. */
  function Keyless(r: (Result<(Name, Output), ServerError>, seq<ServerError>)): (Result<Output, ServerError>, seq<ServerError>) {
    (match r.0
     case Ok(entry) => Ok(entry.1)
     case Err(e) => Err(e), r.1)
  }

  /** The run of one task is what the reference does for the entry. */
  ghost predicate SameRun(e: P.Entry, r: (Result<(Name, Output), ServerError>, seq<ServerError>),
                          run: (Result<Output, ServerError>, seq<ServerError>))
    requires e.Selected?
  {
    Keyless(r) == run && (r.0.Ok? ==> r.0.value.0 == e.alias.GetOr(e.name))
  }

  /** The type at which a task resolves the answer of its resolver, if it has one. */
  function AnswerType(env: Env, t: Task): Option<T.TypeRef> {
    match t
    case Resolve(_, definition) => Some(definition.ty)
    case Entities(_) => if env.schema.entityResolver then Some(T.NonNull(T.List(T.Named("_Entity")))) else None
    case _ => None
  }

  lemma WithoutAnswer(env: Env, answers: Answers, o: Type, e: P.Entry, f: D.Selection,
                      parent: FieldValue, ctx: Option<PathNode>, n: nat, bound: nat)
    requires o.Object? && W.Describes(env.fragments, e, f) && Nested(env, f, bound)
    requires TaskFor(env, o, f).Some? && AnswerType(env, TaskFor(env, o, f).value).None?
    ensures
      var run := PerformField(env, answers, o, e, parent, PathOf(ctx), n);
      run.Some? && SameRun(e, RunTask(env, o, TaskFor(env, o, f).value, parent, ctx, n, bound), run.value)
  {
  }

  lemma AnsweredField(env: Env, answers: Answers, o: Type, e: P.Entry, f: D.Selection, parent: FieldValue,
                      path: seq<Segment>, n: nat)
    requires o.Object? && W.Describes(env.fragments, e, f)
    requires TaskFor(env, o, f).Some? && AnswerType(env, TaskFor(env, o, f).value).Some?
    ensures
      var here := path + [Key(e.alias.GetOr(e.name))];
      PerformField(env, answers, o, e, parent, path, n) ==
        Some(PerformAnswer(env, answers, e, AnswerType(env, TaskFor(env, o, f).value).value,
                           answers(o.name, Bare(e), parent, here, n), here))
  {
  }

  lemma AnsweredTask(env: Env, o: Type, f: D.Selection, parent: FieldValue, ctx: Option<PathNode>, n: nat, bound: nat)
    requires o.Object? && Nested(env, f, bound)
    requires TaskFor(env, o, f).Some? && AnswerType(env, TaskFor(env, o, f).value).Some?
    ensures
      var t, node := TaskFor(env, o, f).value, WithField(ctx, ResponseKey(f));
      RunTask(env, o, t, parent, ctx, n, bound) ==
        RunField(env, f, AnswerType(env, t).value, env.resolver(o.name, f, parent, Segments(node), n), node)
  {
  }

  lemma NoTask(env: Env, answers: Answers, o: Type, e: P.Entry, f: D.Selection, parent: FieldValue, path: seq<Segment>, n: nat)
    requires o.Object? && W.Describes(env.fragments, e, f) && TaskFor(env, o, f).None?
    ensures PerformField(env, answers, o, e, parent, path, n).None?
  {
  }

  lemma {:induction false} TaskAgrees(env: Env, answers: Answers, o: Type, e: P.Entry, f: D.Selection,
                                      parent: FieldValue, ctx: Option<PathNode>, n: nat, bound: nat)
    requires Agree(env, answers) && o.Object? && W.Describes(env.fragments, e, f) && Nested(env, f, bound)
    requires TaskFor(env, o, f).Some?
    ensures
      var run := PerformField(env, answers, o, e, parent, PathOf(ctx), n);
      run.Some? && SameRun(e, RunTask(env, o, TaskFor(env, o, f).value, parent, ctx, n, bound), run.value)
    decreases bound, 0, T.Named(""), 0
  {
    var task := TaskFor(env, o, f).value;
    var ty := AnswerType(env, task);
    if ty.None? {
      WithoutAnswer(env, answers, o, e, f, parent, ctx, n, bound);
    } else {
      var node := WithField(ctx, ResponseKey(f));
      ToldIsBare(env.fragments, e, f);
      AnsweredTask(env, o, f, parent, ctx, n, bound);
      AnsweredField(env, answers, o, e, f, parent, PathOf(ctx), n);
      AnswerAgrees(env, answers, e, f, ty.value, env.resolver(o.name, f, parent, Segments(node), n), node);
    }
  }

  lemma {:induction false} AnswerAgrees(env: Env, answers: Answers, e: P.Entry, f: D.Selection, ty: T.TypeRef,
                                        resolved: Resolved, node: PathNode)
    requires Agree(env, answers) && W.Describes(env.fragments, e, f)
    ensures SameRun(e, RunField(env, f, ty, resolved, node), PerformAnswer(env, answers, e, ty, resolved, Segments(node)))
    decreases Span(env, f.items), 3
  {
    if resolved.Resolved? { ValueAgrees(env, answers, e, f, ty, resolved.value, node); }
  }
}
