/** The checks of a finished dynamic schema, pass by pass and in the order of the source. */
module SchemaCheck {
  import opened Wrappers
  import opened TypeRefs
  import opened DynamicSchema
  import opened InputCycles
  import V = TypeValues

  // ----- check_types_exists -----

  predicate FieldNamesKnown(types: Types, f: OutputField) {
    && f.ty.TypeName() in types
    && forall a :: a in f.arguments ==> f.arguments[a].ty.TypeName() in types
  }

  predicate NamesKnown(types: Types, fields: map<Name, OutputField>) {
    forall f :: f in fields ==> FieldNamesKnown(types, fields[f])
  }

  predicate TypeNamesKnown(types: Types, ty: Type) {
    match ty
    case Object(_, fields, implements, _, _) => NamesKnown(types, fields) && implements <= types.Keys
    case InputObject(_, inputs, _) => forall f :: f in inputs ==> inputs[f].ty.TypeName() in types
    case Interface(_, fields, _, _) => NamesKnown(types, fields)
    case Union(_, members) => members <= types.Keys
    case Subscription(_, fields) => NamesKnown(types, fields)
    case _ => true
  }

  predicate TypesExist(s: Schema) {
    && s.query in s.types
    && (s.mutation.Some? ==> s.mutation.value in s.types)
    && forall n :: n in s.types ==> TypeNamesKnown(s.types, s.types[n])
  }

  // ----- check_root_types -----

  predicate RootsOk(s: Schema) {
    && (s.query in s.types ==> s.types[s.query].Object?)
    && (s.mutation.Some? && s.mutation.value in s.types ==> s.types[s.mutation.value].Object?)
    && (s.subscription.Some? && s.subscription.value in s.types ==> s.types[s.subscription.value].Subscription?)
  }

  // ----- check_objects, check_interfaces, check_unions -----

  predicate OutputFieldOk(types: Types, name: Name, f: OutputField) {
    && !("__" <= name)
    && (f.ty.TypeName() in types ==> types[f.ty.TypeName()].IsOutputType())
    && forall a :: a in f.arguments ==>
         && !("__" <= a)
         && (f.arguments[a].ty.TypeName() in types ==> types[f.arguments[a].ty.TypeName()].IsInputType())
  }

  /** `check_is_valid_implementation`, with the sub-type tests in the direction in which the
      source makes them. */
  predicate ValidImplementation(implementing: map<Name, OutputField>, implemented: map<Name, OutputField>) {
    forall f :: f in implemented ==> FieldImplemented(implementing, f, implemented[f])
  }

  /** One field of an implemented interface. */
  predicate FieldImplemented(implementing: map<Name, OutputField>, f: Name, field: OutputField) {
    && f in implementing
    && (forall a :: a in field.arguments ==>
          if a in implementing[f].arguments
          then field.arguments[a].ty.IsSubtype(implementing[f].arguments[a].ty)
          else field.arguments[a].ty.IsNullable())
    && implementing[f].ty.IsSubtype(field.ty)
  }

  predicate ImplementsOk(types: Types, implements: set<Name>, fields: map<Name, OutputField>) {
    forall i :: i in implements && i in types ==>
      types[i].Interface? && ValidImplementation(fields, types[i].fields)
  }

  predicate HasEntities(types: Types) {
    exists n :: n in types && types[n].Object? && types[n].IsEntity()
  }

  predicate ObjectOk(s: Schema, o: Type)
    requires o.Object?
  {
    && (|o.fields| == 0 ==> o.name == s.query && HasEntities(s.types))
    && (forall f :: f in o.fields ==> OutputFieldOk(s.types, f, o.fields[f]))
    && ImplementsOk(s.types, o.implements, o.fields)
  }

  predicate ObjectsOk(s: Schema) {
    forall n :: n in s.types && s.types[n].Object? ==> ObjectOk(s, s.types[n])
  }

  /** The tests on `implements` sit inside the loop over the fields, so an interface
      without fields skips them. */
  predicate InterfaceOk(types: Types, i: Type)
    requires i.Interface?
  {
    forall f :: f in i.fields ==>
      && OutputFieldOk(types, f, i.fields[f])
      && i.name !in i.implements
      && ImplementsOk(types, i.implements, i.fields)
  }

  predicate InterfacesOk(types: Types) {
    forall n :: n in types && types[n].Interface? ==> InterfaceOk(types, types[n])
  }

  predicate UnionsOk(types: Types) {
    forall n :: n in types && types[n].Union? ==>
      forall m :: m in types[n].members && m in types ==> types[m].Object?
  }

  // ----- check and finish -----

  ghost predicate Accepted(s: Schema) {
    && TypesExist(s) && RootsOk(s) && ObjectsOk(s)
    && InputObjectsOk(s.types) && Acyclic(s.types)
    && InterfacesOk(s.types) && UnionsOk(s.types)
  }

  // The passes are loops over maps that stop at the first violation; a set of keys that are
  // still to be visited stands for the iterator.

  method CheckFieldNames(types: Types, f: OutputField) returns (ok: bool)
    ensures ok <==> FieldNamesKnown(types, f)
  {
    if f.ty.TypeName() !in types {
      return false;
    }
    var todo := f.arguments.Keys;
    while todo != {}
      invariant todo <= f.arguments.Keys
      invariant forall a :: a in f.arguments.Keys - todo ==> f.arguments[a].ty.TypeName() in types
      decreases todo
    {
      var a :| a in todo;
      if f.arguments[a].ty.TypeName() !in types { return false; }
      todo := todo - {a};
    }
    return true;
  }

  method CheckNames(types: Types, fields: map<Name, OutputField>) returns (ok: bool)
    ensures ok <==> NamesKnown(types, fields)
  {
    var todo := fields.Keys;
    while todo != {}
      invariant todo <= fields.Keys
      invariant forall f :: f in fields.Keys - todo ==> FieldNamesKnown(types, fields[f])
      decreases todo
    {
      var f :| f in todo;
      var known := CheckFieldNames(types, fields[f]);
      if !known { return false; }
      todo := todo - {f};
    }
    return true;
  }

  method CheckTypesExist(s: Schema) returns (ok: bool)
    ensures ok <==> TypesExist(s)
  {
    if s.query !in s.types || (s.mutation.Some? && s.mutation.value !in s.types) {
      return false;
    }
    var todo := s.types.Keys;
    while todo != {}
      invariant todo <= s.types.Keys
      invariant forall n :: n in s.types.Keys - todo ==> TypeNamesKnown(s.types, s.types[n])
      decreases todo
    {
      var n :| n in todo;
      match s.types[n] {
        case Object(_, fields, implements, _, _) =>
          var known := CheckNames(s.types, fields);
          if !known || !(implements <= s.types.Keys) { return false; }
        case InputObject(_, inputs, _) =>
          if !(forall f :: f in inputs ==> inputs[f].ty.TypeName() in s.types) { return false; }
        case Interface(_, fields, _, _) =>
          var known := CheckNames(s.types, fields);
          if !known { return false; }
        case Union(_, members) =>
          if !(members <= s.types.Keys) { return false; }
        case Subscription(_, fields) =>
          var known := CheckNames(s.types, fields);
          if !known { return false; }
        case _ =>
      }
      todo := todo - {n};
    }
    return true;
  }

  method CheckOutputField(types: Types, name: Name, f: OutputField) returns (ok: bool)
    ensures ok <==> OutputFieldOk(types, name, f)
  {
    if "__" <= name {
      return false;
    }
    if f.ty.TypeName() in types && !types[f.ty.TypeName()].IsOutputType() {
      return false;
    }
    var todo := f.arguments.Keys;
    while todo != {}
      invariant todo <= f.arguments.Keys
      invariant forall a :: a in f.arguments.Keys - todo ==>
        !("__" <= a) && (f.arguments[a].ty.TypeName() in types ==> types[f.arguments[a].ty.TypeName()].IsInputType())
      decreases todo
    {
      var a :| a in todo;
      var ty := f.arguments[a].ty.TypeName();
      if "__" <= a || (ty in types && !types[ty].IsInputType()) {
        return false;
      }
      todo := todo - {a};
    }
    return true;
  }

  method CheckFieldImplemented(implementing: map<Name, OutputField>, f: Name, field: OutputField) returns (ok: bool)
    ensures ok <==> FieldImplemented(implementing, f, field)
  {
    if f !in implementing {
      return false;
    }
    var own := implementing[f];
    var todo := field.arguments.Keys;
    while todo != {}
      invariant todo <= field.arguments.Keys
      invariant forall a :: a in field.arguments.Keys - todo ==>
        if a in own.arguments then field.arguments[a].ty.IsSubtype(own.arguments[a].ty)
        else field.arguments[a].ty.IsNullable()
      decreases todo
    {
      var a :| a in todo;
      if a in own.arguments {
        if !field.arguments[a].ty.IsSubtype(own.arguments[a].ty) { return false; }
      } else if !field.arguments[a].ty.IsNullable() {
        return false;
      }
      todo := todo - {a};
    }
    return own.ty.IsSubtype(field.ty);
  }

  method CheckValidImplementation(implementing: map<Name, OutputField>, implemented: map<Name, OutputField>)
      returns (ok: bool)
    ensures ok <==> ValidImplementation(implementing, implemented)
  {
    var todo := implemented.Keys;
    while todo != {}
      invariant todo <= implemented.Keys
      invariant forall f :: f in implemented.Keys - todo ==> FieldImplemented(implementing, f, implemented[f])
      decreases todo
    {
      var f :| f in todo;
      var fine := CheckFieldImplemented(implementing, f, implemented[f]);
      if !fine { return false; }
      todo := todo - {f};
    }
    return true;
  }

  method CheckImplements(types: Types, implements: set<Name>, fields: map<Name, OutputField>) returns (ok: bool)
    ensures ok <==> ImplementsOk(types, implements, fields)
  {
    var todo := implements;
    while todo != {}
      invariant todo <= implements && ImplementsOk(types, implements - todo, fields)
      decreases todo
    {
      var i :| i in todo;
      if i in types {
        if !types[i].Interface? { return false; }
        var valid := CheckValidImplementation(fields, types[i].fields);
        if !valid { return false; }
      }
      todo := todo - {i};
    }
    assert implements - {} == implements;
    return true;
  }

  method CheckObject(s: Schema, o: Type) returns (ok: bool)
    requires o.Object?
    ensures ok <==> ObjectOk(s, o)
  {
    if |o.fields| == 0 && !(o.name == s.query && HasEntities(s.types)) {
      return false;
    }
    var todo := o.fields.Keys;
    while todo != {}
      invariant todo <= o.fields.Keys
      invariant forall f :: f in o.fields.Keys - todo ==> OutputFieldOk(s.types, f, o.fields[f])
      decreases todo
    {
      var f :| f in todo;
      var fine := CheckOutputField(s.types, f, o.fields[f]);
      if !fine { return false; }
      todo := todo - {f};
    }
    ok := CheckImplements(s.types, o.implements, o.fields);
  }

  method CheckObjects(s: Schema) returns (ok: bool)
    ensures ok <==> ObjectsOk(s)
  {
    var todo := s.types.Keys;
    while todo != {}
      invariant todo <= s.types.Keys
      invariant forall n :: n in s.types.Keys - todo && s.types[n].Object? ==> ObjectOk(s, s.types[n])
      decreases todo
    {
      var n :| n in todo;
      if s.types[n].Object? {
        var fine := CheckObject(s, s.types[n]);
        if !fine { return false; }
      }
      todo := todo - {n};
    }
    return true;
  }

  method CheckInterface(types: Types, i: Type) returns (ok: bool)
    requires i.Interface?
    ensures ok <==> InterfaceOk(types, i)
  {
    var todo := i.fields.Keys;
    while todo != {}
      invariant todo <= i.fields.Keys
      invariant forall f :: f in i.fields.Keys - todo ==>
        && OutputFieldOk(types, f, i.fields[f])
        && i.name !in i.implements
        && ImplementsOk(types, i.implements, i.fields)
      decreases todo
    {
      var f :| f in todo;
      var fine := CheckOutputField(types, f, i.fields[f]);
      if !fine || i.name in i.implements { return false; }
      var implements := CheckImplements(types, i.implements, i.fields);
      if !implements { return false; }
      todo := todo - {f};
    }
    return true;
  }

  method CheckInterfaces(types: Types) returns (ok: bool)
    ensures ok <==> InterfacesOk(types)
  {
    var todo := types.Keys;
    while todo != {}
      invariant todo <= types.Keys
      invariant forall n :: n in types.Keys - todo && types[n].Interface? ==> InterfaceOk(types, types[n])
      decreases todo
    {
      var n :| n in todo;
      if types[n].Interface? {
        var fine := CheckInterface(types, types[n]);
        if !fine { return false; }
      }
      todo := todo - {n};
    }
    return true;
  }

  method CheckUnions(types: Types) returns (ok: bool)
    ensures ok <==> UnionsOk(types)
  {
    var todo := types.Keys;
    while todo != {}
      invariant todo <= types.Keys
      invariant forall n :: n in types.Keys - todo && types[n].Union? ==>
        forall m :: m in types[n].members && m in types ==> types[m].Object?
      decreases todo
    {
      var n :| n in todo;
      if types[n].Union? {
        var left := types[n].members;
        while left != {}
          invariant left <= types[n].members
          invariant forall m :: m in types[n].members - left && m in types ==> types[m].Object?
          decreases left
        {
          var m :| m in left;
          if m in types && !types[m].Object? { return false; }
          left := left - {m};
        }
      }
      todo := todo - {n};
    }
    return true;
  }

  /** `check`: the six passes in order. */
  method Check(s: Schema) returns (r: Option<SchemaError>)
    requires Keyed(s.types)
    ensures r.None? <==> Accepted(s)
    ensures r.Some? && r.value.SelfReference? ==> OnCycle(s.types, r.value.name)
  {
    var exist := CheckTypesExist(s);
    if !exist { return Some(TypeNotFound); }
    if !RootsOk(s) { return Some(InvalidRoot); }
    var objects := CheckObjects(s);
    if !objects { return Some(InvalidObject); }
    var inputs := CheckInputObjects(s.types);
    if inputs.Some? { return inputs; }
    var interfaces := CheckInterfaces(s.types);
    if !interfaces { return Some(InvalidInterface); }
    var unions := CheckUnions(s.types);
    if !unions { return Some(InvalidUnion); }
    return None;
  }

  /** What the builder hands to the checks. */
  function SchemaOf(b: Builder): Schema {
    Schema(Assembled(b), b.query, b.mutation, b.subscription, PossibleTypes(b.types), Federated(b),
           b.introspection, b.entityResolver)
  }

  ghost predicate BuiltFrom(s: Schema, b: Builder) {
    b.Valid() && !Conflicts(b) && s == SchemaOf(b)
  }

  /** `finish` yields the assembled schema exactly when no registered name is taken and all
      checks pass; a query type that is missing when federation needs it would not pass. */
  method Finish(b: Builder) returns (r: Result<Schema, SchemaError>)
    requires b.Valid()
    ensures r.Ok? <==> !Conflicts(b) && Accepted(SchemaOf(b))
    ensures r.Ok? ==> BuiltFrom(r.value, b)
    ensures r.Err? && r.error.SelfReference? ==> OnCycle(Assembled(b), r.error.name)
  {
    var assembled := Assemble(b);
    if assembled.Err? {
      return Err(assembled.error);
    }
    WithScalarsFacts(b.types, SYSTEM_SCALARS);
    var error := Check(assembled.value);
    if error.Some? {
      return Err(error.value);
    }
    return Ok(assembled.value);
  }

  // ----- What acceptance guarantees -----

  /** Every field of an object has a known output type. */
  lemma FieldTypeKnown(s: Schema, o: Name, f: Name)
    requires Accepted(s) && o in s.types && s.types[o].Object? && f in s.types[o].fields
    ensures
      var n := s.types[o].fields[f].ty.TypeName();
      n in s.types && s.types[n].IsOutputType()
  {
  }

  /** A possible type of an interface that is an object of the finished schema declares to
      implement the interface and defines all its fields, with types of the same name. */
  lemma PossibleTypeDefinesFields(s: Schema, b: Builder, i: Name, o: Name)
    requires BuiltFrom(s, b) && Accepted(s)
    requires i in s.types && s.types[i].Interface? && i in s.possible && o in s.possible[i]
    requires o in s.types && s.types[o].Object?
    ensures s.types[o].name == o && i in s.types[o].implements
    ensures forall f :: f in s.types[i].fields ==>
      && f in s.types[o].fields && !("__" <= f)
      && s.types[o].fields[f].ty.TypeName() == s.types[i].fields[f].ty.TypeName()
  {
    PossibleTypesAreObjects(b, i, o);
    assert ValidImplementation(s.types[o].fields, s.types[i].fields);
    forall f | f in s.types[i].fields
      ensures f in s.types[o].fields && s.types[o].fields[f].ty.TypeName() == s.types[i].fields[f].ty.TypeName()
    {
      SubtypePartialOrder(s.types[o].fields[f].ty, s.types[i].fields[f].ty, s.types[i].fields[f].ty);
    }
  }

  lemma UnionMembersAreObjects(s: Schema, u: Name, o: Name)
    requires Accepted(s) && u in s.types && s.types[u].Union? && o in s.types[u].members
    ensures o in s.types && s.types[o].Object?
  {
  }

  // ----- Direction of the implementation test -----

  /** Covariance of results as the specification asks for it: the object may return a
      tighter type than the interface declares. */
  predicate Covariant(obj: TypeRef, interface: TypeRef) {
    interface.IsSubtype(obj)
  }

  /** An accepted implementation is covariant in a field exactly when the two types are
      equal: the test in the source lets results become looser, never tighter. In terms of
      values, everything the object may return is promised by the interface exactly when the
      types are the same but for doubled `NonNull`. */
  lemma AcceptedIsCovariantIffEqual(implementing: map<Name, OutputField>, implemented: map<Name, OutputField>, f: Name)
    requires ValidImplementation(implementing, implemented) && f in implemented
    ensures
      var own, promised := implementing[f].ty, implemented[f].ty;
      && (Covariant(own, promised) <==> own == promised)
      && (V.Includes(promised, own) <==> V.Plain(own) == V.Plain(promised))
  {
    SubtypePartialOrder(implementing[f].ty, implemented[f].ty, implementing[f].ty);
    V.BackIffSame(implementing[f].ty, implemented[f].ty);
  }

  /** The same for arguments: an accepted implementation takes every value of the argument
      that the interface promises to take exactly when the types are the same but for
      doubled `NonNull`, because the test lets arguments become tighter, never looser. */
  lemma AcceptedArgumentTakesAllIffEqual(implementing: map<Name, OutputField>, implemented: map<Name, OutputField>,
                                         f: Name, a: Name)
    requires ValidImplementation(implementing, implemented) && f in implemented
    requires a in implemented[f].arguments && a in implementing[f].arguments
    ensures
      var own, promised := implementing[f].arguments[a].ty, implemented[f].arguments[a].ty;
      && (own.IsSubtype(promised) <==> own == promised)
      && (V.Includes(own, promised) <==> V.Plain(own) == V.Plain(promised))
  {
    var own, promised := implementing[f].arguments[a].ty, implemented[f].arguments[a].ty;
    SubtypePartialOrder(own, promised, own);
    V.BackIffSame(promised, own);
  }
}
