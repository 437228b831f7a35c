/** The rules for dynamic schemas as a flat list of faults (sections 3.6, 3.7, 3.8 and 3.10 of
    the GraphQL specification, October 2021, as far as the program checks them), and the proof
    that a schema is accepted exactly when none of them occurs. */
module SchemaRules {
  import opened Wrappers
  import opened TypeRefs
  import opened DynamicSchema
  import opened InputCycles
  import opened SchemaCheck

  datatype Fault =
    | NoQuery
    | NoMutation
    | QueryNotObject
    | MutationNotObject
    | SubscriptionNotSubscription
    | UnknownResult(ty: Name, field: Name)
    | UnknownArgument(ty: Name, field: Name, argument: Name)
    | UnknownInput(ty: Name, field: Name)
    | UnknownInterface(ty: Name, interface: Name)
    | UnknownMember(ty: Name, member: Name)
    | NoFields(ty: Name)
    | ReservedField(ty: Name, field: Name)
    | ReservedArgument(ty: Name, field: Name, argument: Name)
    | ResultNotOutput(ty: Name, field: Name)
    | ArgumentNotInput(ty: Name, field: Name, argument: Name)
    | InputNotInput(ty: Name, field: Name)
    | OneofRequired(ty: Name, field: Name)
    | OneofDefault(ty: Name, field: Name)
    | NotInterface(ty: Name, interface: Name)
    | ImplementsItself(ty: Name)
    | FieldMissing(ty: Name, interface: Name, field: Name)
    | ArgumentMissing(ty: Name, interface: Name, field: Name, argument: Name)
    | ArgumentType(ty: Name, interface: Name, field: Name, argument: Name)
    | ResultType(ty: Name, interface: Name, field: Name)
    | MemberNotObject(ty: Name, member: Name)
    | Cycle(ty: Name)

  /** A type with output fields. */
  predicate HasFields(s: Schema, n: Name) {
    n in s.types && (s.types[n].Object? || s.types[n].Interface? || s.types[n].Subscription?)
  }

  predicate HasField(s: Schema, n: Name, f: Name) {
    HasFields(s, n) && f in s.types[n].fields
  }

  predicate HasArgument(s: Schema, n: Name, f: Name, a: Name) {
    HasField(s, n, f) && a in s.types[n].fields[f].arguments
  }

  predicate HasInput(s: Schema, n: Name, f: Name) {
    n in s.types && s.types[n].InputObject? && f in s.types[n].inputs
  }

  predicate HasMember(s: Schema, n: Name, m: Name) {
    n in s.types && s.types[n].Union? && m in s.types[n].members
  }

  /** Fields of subscriptions are only checked for names. */
  predicate Checked(s: Schema, n: Name) {
    n in s.types && !s.types[n].Subscription?
  }

  /** The type declares a registered interface, and is checked against it: an interface only if
      it has fields. */
  predicate Declares(s: Schema, n: Name, i: Name) {
    && n in s.types && i in s.types
    && ((s.types[n].Object? && i in s.types[n].implements)
        || (s.types[n].Interface? && i in s.types[n].implements && s.types[n].fields != map[]))
  }

  /** The field of the interface and of the type that declares it. */
  predicate Both(s: Schema, n: Name, i: Name, f: Name) {
    Declares(s, n, i) && s.types[i].Interface? && f in s.types[i].fields && f in s.types[n].fields
  }

  predicate BothArguments(s: Schema, n: Name, i: Name, f: Name, a: Name) {
    Both(s, n, i, f) && a in s.types[i].fields[f].arguments && a in s.types[n].fields[f].arguments
  }

  predicate IsA(s: Schema, ty: TypeRef, input: bool) {
    ty.TypeName() in s.types ==>
      var t := s.types[ty.TypeName()];
      if input then t.Scalar? || t.Enum? || t.InputObject? || t.Upload?
      else t.Scalar? || t.Enum? || t.Object? || t.Interface? || t.Union?
  }

  ghost predicate Occurs(s: Schema, fault: Fault) {
    match fault
    case NoQuery => s.query !in s.types
    case NoMutation => s.mutation.Some? && s.mutation.value !in s.types
    case QueryNotObject => s.query in s.types && !s.types[s.query].Object?
    case MutationNotObject => s.mutation.Some? && s.mutation.value in s.types && !s.types[s.mutation.value].Object?
    case SubscriptionNotSubscription =>
      s.subscription.Some? && s.subscription.value in s.types && !s.types[s.subscription.value].Subscription?
    case UnknownResult(n, f) => HasField(s, n, f) && s.types[n].fields[f].ty.TypeName() !in s.types
    case UnknownArgument(n, f, a) => HasArgument(s, n, f, a) && s.types[n].fields[f].arguments[a].ty.TypeName() !in s.types
    case UnknownInput(n, f) => HasInput(s, n, f) && s.types[n].inputs[f].ty.TypeName() !in s.types
    case UnknownInterface(n, i) => n in s.types && s.types[n].Object? && i in s.types[n].implements && i !in s.types
    case UnknownMember(n, m) => HasMember(s, n, m) && m !in s.types
    case NoFields(n) =>
      && n in s.types && s.types[n].Object? && s.types[n].fields == map[]
      && !(s.types[n].name == s.query && exists e :: e in s.types && s.types[e].Object? && s.types[e].keyed)
    case ReservedField(n, f) => ((HasField(s, n, f) && Checked(s, n)) || HasInput(s, n, f)) && "__" <= f
    case ReservedArgument(n, f, a) => HasArgument(s, n, f, a) && Checked(s, n) && "__" <= a
    case ResultNotOutput(n, f) => HasField(s, n, f) && Checked(s, n) && !IsA(s, s.types[n].fields[f].ty, false)
    case ArgumentNotInput(n, f, a) =>
      HasArgument(s, n, f, a) && Checked(s, n) && !IsA(s, s.types[n].fields[f].arguments[a].ty, true)
    case InputNotInput(n, f) => HasInput(s, n, f) && !IsA(s, s.types[n].inputs[f].ty, true)
    case OneofRequired(n, f) => HasInput(s, n, f) && s.types[n].oneof && s.types[n].inputs[f].ty.NonNull?
    case OneofDefault(n, f) => HasInput(s, n, f) && s.types[n].oneof && s.types[n].inputs[f].hasDefault
    case NotInterface(n, i) => Declares(s, n, i) && !s.types[i].Interface?
    case ImplementsItself(n) =>
      n in s.types && s.types[n].Interface? && s.types[n].fields != map[] && s.types[n].name in s.types[n].implements
    case FieldMissing(n, i, f) =>
      Declares(s, n, i) && s.types[i].Interface? && f in s.types[i].fields && f !in s.types[n].fields
    case ArgumentMissing(n, i, f, a) =>
      && Both(s, n, i, f) && a in s.types[i].fields[f].arguments && a !in s.types[n].fields[f].arguments
      && s.types[i].fields[f].arguments[a].ty.NonNull?
    case ArgumentType(n, i, f, a) =>
      BothArguments(s, n, i, f, a)
      && !ErasedFrom(s.types[i].fields[f].arguments[a].ty, s.types[n].fields[f].arguments[a].ty)
    case ResultType(n, i, f) => Both(s, n, i, f) && !ErasedFrom(s.types[n].fields[f].ty, s.types[i].fields[f].ty)
    case MemberNotObject(n, m) => HasMember(s, n, m) && m in s.types && !s.types[m].Object?
    case Cycle(n) => n in s.types && OnCycle(s.types, n)
  }

  ghost predicate Faultless(s: Schema) {
    forall fault :: !Occurs(s, fault)
  }

  // ----- No fault, accepted -----

  lemma FaultlessNames(s: Schema)
    requires Faultless(s)
    ensures TypesExist(s) && RootsOk(s)
  {
    assert !Occurs(s, NoQuery) && !Occurs(s, NoMutation);
    assert !Occurs(s, QueryNotObject) && !Occurs(s, MutationNotObject) && !Occurs(s, SubscriptionNotSubscription);
    forall n | n in s.types ensures TypeNamesKnown(s.types, s.types[n]) {
      if HasFields(s, n) { FaultlessFieldNames(s, n); }
      match s.types[n]
      case Object(_, _, implements, _, _) =>
        forall i | i in implements ensures i in s.types { assert !Occurs(s, UnknownInterface(n, i)); }
      case InputObject(_, inputs, _) =>
        forall f | f in inputs ensures inputs[f].ty.TypeName() in s.types { assert !Occurs(s, UnknownInput(n, f)); }
      case Union(_, members) =>
        forall m | m in members ensures m in s.types { assert !Occurs(s, UnknownMember(n, m)); }
      case _ =>
    }
  }

  lemma FaultlessFieldNames(s: Schema, n: Name)
    requires Faultless(s) && HasFields(s, n)
    ensures NamesKnown(s.types, s.types[n].fields)
  {
    var fields := s.types[n].fields;
    forall f | f in fields ensures FieldNamesKnown(s.types, fields[f]) {
      assert !Occurs(s, UnknownResult(n, f));
      forall a | a in fields[f].arguments ensures fields[f].arguments[a].ty.TypeName() in s.types {
        assert !Occurs(s, UnknownArgument(n, f, a));
      }
    }
  }

  lemma FaultlessField(s: Schema, n: Name, f: Name)
    requires Faultless(s) && HasField(s, n, f) && Checked(s, n)
    ensures OutputFieldOk(s.types, f, s.types[n].fields[f])
  {
    var field := s.types[n].fields[f];
    assert !Occurs(s, ReservedField(n, f)) && !Occurs(s, ResultNotOutput(n, f));
    forall a | a in field.arguments
      ensures !("__" <= a) && (field.arguments[a].ty.TypeName() in s.types ==> s.types[field.arguments[a].ty.TypeName()].IsInputType())
    {
      assert !Occurs(s, ReservedArgument(n, f, a)) && !Occurs(s, ArgumentNotInput(n, f, a));
    }
  }

  lemma FaultlessImplements(s: Schema, n: Name)
    requires Faultless(s) && n in s.types && (s.types[n].Object? || (s.types[n].Interface? && s.types[n].fields != map[]))
    ensures ImplementsOk(s.types, s.types[n].implements, s.types[n].fields)
  {
    forall i | i in s.types[n].implements && i in s.types
      ensures s.types[i].Interface? && ValidImplementation(s.types[n].fields, s.types[i].fields)
    {
      assert Declares(s, n, i);
      assert !Occurs(s, NotInterface(n, i));
      forall f | f in s.types[i].fields ensures FieldImplemented(s.types[n].fields, f, s.types[i].fields[f]) {
        FaultlessImplementation(s, n, i, f);
      }
    }
  }

  lemma FaultlessArgument(s: Schema, n: Name, i: Name, f: Name, a: Name)
    requires Faultless(s) && Both(s, n, i, f) && a in s.types[i].fields[f].arguments
    ensures
      var own, field := s.types[n].fields[f], s.types[i].fields[f];
      if a in own.arguments then field.arguments[a].ty.IsSubtype(own.arguments[a].ty)
      else field.arguments[a].ty.IsNullable()
  {
    assert !Occurs(s, ArgumentMissing(n, i, f, a)) && !Occurs(s, ArgumentType(n, i, f, a));
    var own, field := s.types[n].fields[f], s.types[i].fields[f];
    if a in own.arguments { SubtypeIsErasure(field.arguments[a].ty, own.arguments[a].ty); }
  }

  lemma FaultlessImplementation(s: Schema, n: Name, i: Name, f: Name)
    requires Faultless(s) && Declares(s, n, i) && s.types[i].Interface? && f in s.types[i].fields
    ensures FieldImplemented(s.types[n].fields, f, s.types[i].fields[f])
  {
    assert !Occurs(s, FieldMissing(n, i, f)) && !Occurs(s, ResultType(n, i, f));
    assert Both(s, n, i, f);
    SubtypeIsErasure(s.types[n].fields[f].ty, s.types[i].fields[f].ty);
    forall a | a in s.types[i].fields[f].arguments
      ensures
        var own, field := s.types[n].fields[f], s.types[i].fields[f];
        if a in own.arguments then field.arguments[a].ty.IsSubtype(own.arguments[a].ty)
        else field.arguments[a].ty.IsNullable()
    {
      FaultlessArgument(s, n, i, f, a);
    }
  }

  lemma FaultlessTypes(s: Schema)
    requires Faultless(s)
    ensures ObjectsOk(s) && InterfacesOk(s.types)
  {
    forall n | n in s.types && s.types[n].Object? ensures ObjectOk(s, s.types[n]) {
      assert !Occurs(s, NoFields(n));
      assert |s.types[n].fields| == 0 ==> s.types[n].fields == map[];
      FaultlessImplements(s, n);
      forall f | f in s.types[n].fields ensures OutputFieldOk(s.types, f, s.types[n].fields[f]) { FaultlessField(s, n, f); }
    }
    forall n | n in s.types && s.types[n].Interface? ensures InterfaceOk(s.types, s.types[n]) {
      assert !Occurs(s, ImplementsItself(n));
      forall f | f in s.types[n].fields ensures OutputFieldOk(s.types, f, s.types[n].fields[f]) { FaultlessField(s, n, f); }
      if s.types[n].fields != map[] { FaultlessImplements(s, n); }
    }
  }

  lemma FaultlessInputs(s: Schema)
    requires Faultless(s)
    ensures InputObjectsOk(s.types) && Acyclic(s.types)
  {
    forall n | n in s.types && s.types[n].InputObject? ensures InputFieldsOk(s.types, s.types[n]) {
      forall f | f in s.types[n].inputs ensures InputFieldOk(s.types, s.types[n].oneof, f, s.types[n].inputs[f]) {
        FaultlessInput(s, n, f);
      }
    }
    forall n | n in s.types ensures !OnCycle(s.types, n) { assert !Occurs(s, Cycle(n)); }
  }

  lemma FaultlessInput(s: Schema, n: Name, f: Name)
    requires Faultless(s) && HasInput(s, n, f)
    ensures InputFieldOk(s.types, s.types[n].oneof, f, s.types[n].inputs[f])
  {
    assert !Occurs(s, ReservedField(n, f)) && !Occurs(s, InputNotInput(n, f));
    assert !Occurs(s, OneofRequired(n, f)) && !Occurs(s, OneofDefault(n, f));
  }

  lemma FaultlessUnions(s: Schema)
    requires Faultless(s)
    ensures UnionsOk(s.types)
  {
    forall n | n in s.types && s.types[n].Union?
      ensures forall m :: m in s.types[n].members && m in s.types ==> s.types[m].Object?
    {
      forall m | m in s.types[n].members && m in s.types ensures s.types[m].Object? {
        assert !Occurs(s, MemberNotObject(n, m));
      }
    }
  }

  // ----- Accepted, no fault -----

  lemma NoRootFault(s: Schema, fault: Fault)
    requires TypesExist(s) && RootsOk(s)
    requires fault.NoQuery? || fault.NoMutation? || fault.QueryNotObject? || fault.MutationNotObject?
      || fault.SubscriptionNotSubscription?
    ensures !Occurs(s, fault)
  {
  }

  lemma NoMemberFault(s: Schema, fault: Fault)
    requires TypesExist(s) && UnionsOk(s.types) && (fault.MemberNotObject? || fault.UnknownMember?)
    ensures !Occurs(s, fault)
  {
    if fault.ty in s.types { assert TypeNamesKnown(s.types, s.types[fault.ty]); }
  }

  lemma NoCycleFault(s: Schema, n: Name)
    requires Acyclic(s.types)
    ensures !Occurs(s, Cycle(n))
  {
  }

  lemma NoNameFault(s: Schema, fault: Fault)
    requires TypesExist(s)
    requires fault.UnknownResult? || fault.UnknownArgument? || fault.UnknownInput? || fault.UnknownInterface?
    ensures !Occurs(s, fault)
  {
    if fault.ty in s.types { assert TypeNamesKnown(s.types, s.types[fault.ty]); }
  }

  lemma NoFieldFault(s: Schema, fault: Fault)
    requires ObjectsOk(s) && InterfacesOk(s.types)
    requires fault.NoFields? || fault.ReservedArgument? || fault.ResultNotOutput? || fault.ArgumentNotInput?
      || (fault.ReservedField? && !HasInput(s, fault.ty, fault.field))
    ensures !Occurs(s, fault)
  {
    if fault.ty in s.types && s.types[fault.ty].Object? { assert ObjectOk(s, s.types[fault.ty]); }
    if fault.ty in s.types && s.types[fault.ty].Interface? { assert InterfaceOk(s.types, s.types[fault.ty]); }
  }

  lemma NoInputFault(s: Schema, fault: Fault)
    requires InputObjectsOk(s.types)
    requires fault.InputNotInput? || fault.OneofRequired? || fault.OneofDefault?
      || (fault.ReservedField? && HasInput(s, fault.ty, fault.field))
    ensures !Occurs(s, fault)
  {
    if HasInput(s, fault.ty, fault.field) {
      assert InputFieldsOk(s.types, s.types[fault.ty]);
      assert InputFieldOk(s.types, s.types[fault.ty].oneof, fault.field, s.types[fault.ty].inputs[fault.field]);
    }
  }

  lemma DeclaredIsOk(s: Schema, n: Name, i: Name)
    requires ObjectsOk(s) && InterfacesOk(s.types) && Declares(s, n, i)
    ensures s.types[i].Interface? && ValidImplementation(s.types[n].fields, s.types[i].fields)
  {
    if s.types[n].Object? {
      assert ObjectOk(s, s.types[n]);
    } else {
      assert InterfaceOk(s.types, s.types[n]);
      var f :| f in s.types[n].fields;
      assert ImplementsOk(s.types, s.types[n].implements, s.types[n].fields);
    }
  }

  lemma NoImplementationFault(s: Schema, fault: Fault)
    requires ObjectsOk(s) && InterfacesOk(s.types)
    requires fault.NotInterface? || fault.FieldMissing? || fault.ArgumentMissing? || fault.ArgumentType? || fault.ResultType?
    ensures !Occurs(s, fault)
  {
    var n, i := fault.ty, fault.interface;
    if Declares(s, n, i) {
      DeclaredIsOk(s, n, i);
      if !fault.NotInterface? && fault.field in s.types[i].fields {
        var f := fault.field;
        assert FieldImplemented(s.types[n].fields, f, s.types[i].fields[f]);
        if fault.ResultType? { SubtypeIsErasure(s.types[n].fields[f].ty, s.types[i].fields[f].ty); }
        if fault.ArgumentType? && BothArguments(s, n, i, f, fault.argument) {
          SubtypeIsErasure(s.types[i].fields[f].arguments[fault.argument].ty, s.types[n].fields[f].arguments[fault.argument].ty);
        }
      }
    }
  }

  lemma NotItself(s: Schema, n: Name)
    requires InterfacesOk(s.types)
    ensures !Occurs(s, ImplementsItself(n))
  {
    if n in s.types && s.types[n].Interface? && s.types[n].fields != map[] {
      var f :| f in s.types[n].fields;
      assert InterfaceOk(s.types, s.types[n]);
    }
  }

  lemma AcceptedHasNo(s: Schema, fault: Fault)
    requires TypesExist(s) && RootsOk(s) && ObjectsOk(s) && InputObjectsOk(s.types) && Acyclic(s.types)
    requires InterfacesOk(s.types) && UnionsOk(s.types)
    ensures !Occurs(s, fault)
  {
    if fault.NoQuery? || fault.NoMutation? || fault.QueryNotObject? || fault.MutationNotObject?
       || fault.SubscriptionNotSubscription? {
      NoRootFault(s, fault);
    } else if fault.MemberNotObject? || fault.UnknownMember? {
      NoMemberFault(s, fault);
    } else if fault.Cycle? {
      NoCycleFault(s, fault.ty);
    } else if fault.UnknownResult? || fault.UnknownArgument? || fault.UnknownInput? || fault.UnknownInterface? {
      NoNameFault(s, fault);
    } else if fault.InputNotInput? || fault.OneofRequired? || fault.OneofDefault?
              || (fault.ReservedField? && HasInput(s, fault.ty, fault.field)) {
      NoInputFault(s, fault);
    } else if fault.NoFields? || fault.ReservedArgument? || fault.ResultNotOutput? || fault.ArgumentNotInput?
              || fault.ReservedField? {
      NoFieldFault(s, fault);
    } else if fault.ImplementsItself? {
      NotItself(s, fault.ty);
    } else {
      NoImplementationFault(s, fault);
    }
  }

  /** A schema is accepted if and only if none of the faults occurs anywhere in it. */
  lemma AcceptedIffFaultless(s: Schema)
    ensures Accepted(s) <==> Faultless(s)
  {
    if Accepted(s) {
      forall fault ensures !Occurs(s, fault) { AcceptedHasNo(s, fault); }
    }
    if Faultless(s) {
      FaultlessNames(s);
      FaultlessTypes(s);
      FaultlessInputs(s);
      FaultlessUnions(s);
    }
  }
}
