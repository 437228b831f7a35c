/** Schemas that `finish` accepts: the guarantees about accepted schemas speak of something,
    and what fails of them fails on real schemas. All of them have a query that returns an
    interface with one implementing object. */
module InterfaceExample {
  import opened Wrappers
  import opened TypeRefs
  import opened DynamicSchema
  import opened InputCycles
  import opened SchemaCheck

  // ----- What is enough to be accepted -----

  /** One field of a known output type, with arguments of known input types. */
  ghost predicate FieldsOk(types: Types, fields: map<Name, OutputField>) {
    && |fields| == 1 && NamesKnown(types, fields)
    && forall g :: g in fields ==> OutputFieldOk(types, g, fields[g])
  }

  ghost predicate ImplementsKnown(types: Types, implements: set<Name>, fields: map<Name, OutputField>) {
    forall i :: i in implements ==>
      i in types && types[i].Interface? && ValidImplementation(fields, types[i].fields)
  }

  ghost predicate TypeOk(types: Types, ty: Type) {
    match ty
    case Scalar(_) => true
    case Object(_, fields, implements, _, _) => FieldsOk(types, fields) && ImplementsKnown(types, implements, fields)
    case Interface(name, fields, implements, _) =>
      FieldsOk(types, fields) && ImplementsKnown(types, implements, fields) && name !in implements
    case Union(_, members) => members == {}
    case _ => false
  }

  ghost predicate AllTypesOk(types: Types) {
    forall n :: n in types ==> TypeOk(types, types[n])
  }

  lemma NoInputsNoCycle(types: Types)
    requires forall n :: n in types ==> !types[n].InputObject?
    ensures Acyclic(types)
  {
    forall a | a in types ensures !OnCycle(types, a) {
      if p :| IsPath(types, p) && p[0] == a && p[|p| - 1] == a {
        assert Refers(types, p[0], p[1]);
      }
    }
  }

  lemma PlainExists(s: Schema)
    requires AllTypesOk(s.types) && s.query in s.types && s.mutation.None?
    ensures TypesExist(s)
  {
  }

  lemma PlainObjects(s: Schema)
    requires AllTypesOk(s.types)
    ensures ObjectsOk(s)
  {
    forall n | n in s.types && s.types[n].Object? ensures ObjectOk(s, s.types[n]) {
      assert TypeOk(s.types, s.types[n]);
    }
  }

  lemma PlainInterfaces(types: Types)
    requires AllTypesOk(types)
    ensures InterfacesOk(types) && UnionsOk(types)
  {
    forall n | n in types && types[n].Interface? ensures InterfaceOk(types, types[n]) {
      assert TypeOk(types, types[n]);
    }
  }

  lemma PlainAccepted(s: Schema)
    requires AllTypesOk(s.types) && s.query in s.types && s.types[s.query].Object?
    requires s.mutation.None? && s.subscription.None?
    ensures Accepted(s)
  {
    PlainExists(s);
    PlainObjects(s);
    PlainInterfaces(s.types);
    NoInputsNoCycle(s.types);
  }

  // ----- What assembly adds -----

  /** Adding the scalars adds scalars and nothing else. */
  lemma {:induction false} WithScalarsOnly(types: Types, scalars: seq<Name>)
    ensures forall n :: n in scalars ==> n in WithScalars(types, scalars) && WithScalars(types, scalars)[n].Scalar?
    ensures forall n :: n in WithScalars(types, scalars) ==> n in types || WithScalars(types, scalars)[n].Scalar?
    decreases scalars
  {
    if scalars != [] {
      WithScalarsOnly(types[scalars[0] := Scalar(scalars[0])], scalars[1..]);
      WithScalarsStay(types[scalars[0] := Scalar(scalars[0])], scalars[1..], scalars[0]);
    }
  }

  lemma {:induction false} WithScalarsStay(types: Types, scalars: seq<Name>, n: Name)
    requires n in types && types[n].Scalar?
    ensures n in WithScalars(types, scalars) && WithScalars(types, scalars)[n].Scalar?
    decreases scalars
  {
    if scalars != [] {
      WithScalarsStay(types[scalars[0] := Scalar(scalars[0])], scalars[1..], n);
    }
  }

  predicate Overwrites(b: Builder, n: Name) {
    Federated(b) && n == "_Entity"
  }

  /** The user's types, scalars, and under federation an entity union without members. */
  ghost predicate Extends(types: Types, b: Builder) {
    && (forall n :: n in b.types && !Overwrites(b, n) ==> n in types && types[n] == b.types[n])
    && (forall n :: n in types ==>
          (n in b.types && !Overwrites(b, n)) || types[n].Scalar? || (Overwrites(b, n) && types[n] == Union("_Entity", {})))
    && "Int" in types && types["Int"].Scalar?
  }

  lemma NoEntities(b: Builder)
    requires b.Valid() && !Conflicts(b) && forall n :: n in b.types ==> !b.types[n].IsEntity()
    ensures EntityUnion(WithScalars(b.types, SYSTEM_SCALARS)) == Union("_Entity", {})
  {
    WithScalarsFacts(b.types, SYSTEM_SCALARS);
    WithScalarsOnly(b.types, SYSTEM_SCALARS);
    var types := WithScalars(b.types, SYSTEM_SCALARS);
    forall n | n in types ensures !types[n].IsEntity() {
      if !types[n].Scalar? { assert types[n] == b.types[n]; }
    }
  }

  lemma AssembledExtends(b: Builder)
    requires b.Valid() && !Conflicts(b) && forall n :: n in b.types ==> !b.types[n].IsEntity()
    ensures Extends(Assembled(b), b)
  {
    WithScalarsFacts(b.types, SYSTEM_SCALARS);
    WithScalarsOnly(b.types, SYSTEM_SCALARS);
    var types := WithScalars(b.types, SYSTEM_SCALARS);
    assert SYSTEM_SCALARS[0] == "Int" && "Int" in types;
    NoEntities(b);
  }

  // ----- The schemas -----

  predicate UsableNames(i: Name, o: Name, q: Name, f: Name) {
    && i != o && o != q && q != i && !("__" <= f)
    && i !in SYSTEM_SCALARS && o !in SYSTEM_SCALARS && q !in SYSTEM_SCALARS
    && i != "_Entity" && q != "_Entity"
  }

  /** Interface `i`, object `o` that implements it, query `q` that returns `i!`; the field `f`
      of the interface and of the object are given. */
  function InterfaceSchema(i: Name, o: Name, q: Name, f: Name, x: OutputField, y: OutputField, federation: bool): Builder {
    Builder(map[i := Interface(i, map[f := x], {}, false),
                o := Object(o, map[f := y], {i}, false, true),
                q := Object(q, map[f := OutputField(NonNull(Named(i)), map[])], {}, false, true)],
            q, None, None, federation, Enabled, false)
  }

  lemma InterfaceSchemaBuilt(i: Name, o: Name, q: Name, f: Name, x: OutputField, y: OutputField, federation: bool)
    requires UsableNames(i, o, q, f)
    ensures
      var b := InterfaceSchema(i, o, q, f, x, y, federation);
      && BuiltFrom(SchemaOf(b), b) && (Federated(b) <==> federation) && Extends(Assembled(b), b)
      && i in SchemaOf(b).possible && o in SchemaOf(b).possible[i]
  {
    var b := InterfaceSchema(i, o, q, f, x, y, federation);
    assert b.types[o].name in Implementors(b.types, b.types.Keys, i);
    AssembledExtends(b);
  }

  predicate IntField(x: OutputField) {
    && x.ty.TypeName() == "Int"
    && forall a :: a in x.arguments ==> !("__" <= a) && x.arguments[a].ty.TypeName() == "Int"
  }

  lemma OneFieldOk(types: Types, f: Name, x: OutputField)
    requires !("__" <= f) && "Int" in types && types["Int"].Scalar?
    requires IntField(x) || (x.arguments == map[] && x.ty.TypeName() in types && types[x.ty.TypeName()].IsOutputType())
    ensures FieldsOk(types, map[f := x])
  {
  }

  lemma ImplementorOk(types: Types, i: Name, fields: map<Name, OutputField>, ty: Type)
    requires FieldsOk(types, fields) && i in types && types[i] == Interface(i, fields, {}, false)
    requires ty.Object? && FieldsOk(types, ty.fields)
    requires ty.implements == {} || (ty.implements == {i} && ValidImplementation(ty.fields, fields))
    ensures TypeOk(types, types[i]) && TypeOk(types, ty)
  {
  }

  /** The three types, or two of them and the entity union; everything else is a scalar. */
  ghost predicate Holds(types: Types, i: Name, o: Name, q: Name, f: Name, x: OutputField, y: OutputField, overwritten: bool) {
    && i in types && types[i] == Interface(i, map[f := x], {}, false)
    && q in types && types[q] == Object(q, map[f := OutputField(NonNull(Named(i)), map[])], {}, false, true)
    && (!overwritten ==> o in types && types[o] == Object(o, map[f := y], {i}, false, true))
    && (forall n :: n in types ==> n == i || n == q || (n == o && !overwritten) || types[n].Scalar? || types[n] == Union("_Entity", {}))
    && "Int" in types && types["Int"].Scalar?
  }

  lemma InterfaceSchemaHolds(types: Types, i: Name, o: Name, q: Name, f: Name, x: OutputField, y: OutputField,
                             federation: bool)
    requires UsableNames(i, o, q, f)
    requires
      var b := InterfaceSchema(i, o, q, f, x, y, federation);
      Extends(types, b) && (Federated(b) <==> federation)
    ensures Holds(types, i, o, q, f, x, y, federation && o == "_Entity")
  {
    var b := InterfaceSchema(i, o, q, f, x, y, federation);
    assert b.types.Keys == {i, o, q};
  }

  lemma HoldsTypesOk(types: Types, i: Name, o: Name, q: Name, f: Name, x: OutputField, y: OutputField, overwritten: bool)
    requires !("__" <= f) && IntField(x) && IntField(y) && Holds(types, i, o, q, f, x, y, overwritten)
    requires ValidImplementation(map[f := y], map[f := x]) || overwritten
    ensures AllTypesOk(types)
  {
    OneFieldOk(types, f, x);
    OneFieldOk(types, f, y);
    assert NonNull(Named(i)).TypeName() == i;
    OneFieldOk(types, f, OutputField(NonNull(Named(i)), map[]));
    ImplementorOk(types, i, map[f := x], types[q]);
    if !overwritten { ImplementorOk(types, i, map[f := x], types[o]); }
  }

  /** Such a schema is accepted exactly when the object's field passes the implementation
      test, or when the object is overwritten by the entity union before the test. */
  lemma InterfaceSchemaAccepted(i: Name, o: Name, q: Name, f: Name, x: OutputField, y: OutputField, federation: bool)
    requires UsableNames(i, o, q, f) && IntField(x) && IntField(y)
    ensures
      var b := InterfaceSchema(i, o, q, f, x, y, federation);
      && BuiltFrom(SchemaOf(b), b)
      && (Accepted(SchemaOf(b)) <==>
            ValidImplementation(map[f := y], map[f := x]) || (federation && o == "_Entity"))
  {
    var b := InterfaceSchema(i, o, q, f, x, y, federation);
    var s := SchemaOf(b);
    InterfaceSchemaBuilt(i, o, q, f, x, y, federation);
    if ValidImplementation(map[f := y], map[f := x]) || (federation && o == "_Entity") {
      InterfaceSchemaHolds(s.types, i, o, q, f, x, y, federation);
      HoldsTypesOk(s.types, i, o, q, f, x, y, federation && o == "_Entity");
      PlainAccepted(s);
    } else {
      assert o in b.types && i in b.types && s.types[o] == b.types[o] && s.types[i] == b.types[i];
      assert !ImplementsOk(s.types, s.types[o].implements, s.types[o].fields);
      assert !ObjectsOk(s);
    }
  }

  const INT_FIELD: OutputField := OutputField(Named("Int"), map[])

  // ----- The direction of the implementation test, on whole schemas -----

  function Returning(t: TypeRef): OutputField {
    OutputField(t, map[])
  }

  function Taking(a: Name, t: TypeRef): OutputField {
    OutputField(Named("Int"), map[a := InputField(t, false)])
  }

  /** `finish` accepts a result exactly when it is the interface's with some `NonNull`
      wrappers erased. */
  lemma ResultTest(i: Name, o: Name, q: Name, f: Name, t: TypeRef, u: TypeRef)
    requires UsableNames(i, o, q, f) && t.TypeName() == "Int" && u.TypeName() == "Int"
    ensures Accepted(SchemaOf(InterfaceSchema(i, o, q, f, Returning(t), Returning(u), false))) <==> ErasedFrom(u, t)
  {
    InterfaceSchemaAccepted(i, o, q, f, Returning(t), Returning(u), false);
    SubtypeIsErasure(u, t);
    OneFieldTest(f, Returning(t), Returning(u));
  }

  /** ... and an argument exactly when it is the interface's with some wrappers added. */
  lemma ArgumentTest(i: Name, o: Name, q: Name, f: Name, a: Name, t: TypeRef, u: TypeRef)
    requires UsableNames(i, o, q, f) && t.TypeName() == "Int" && u.TypeName() == "Int" && !("__" <= a)
    ensures Accepted(SchemaOf(InterfaceSchema(i, o, q, f, Taking(a, t), Taking(a, u), false))) <==> ErasedFrom(t, u)
  {
    InterfaceSchemaAccepted(i, o, q, f, Taking(a, t), Taking(a, u), false);
    SubtypeIsErasure(t, u);
    OneFieldTest(f, Taking(a, t), Taking(a, u));
    assert a in Taking(a, t).arguments;
  }

  lemma OneFieldTest(f: Name, x: OutputField, y: OutputField)
    requires x.arguments.Keys == y.arguments.Keys
    ensures ValidImplementation(map[f := y], map[f := x]) <==>
      && y.ty.IsSubtype(x.ty)
      && forall a :: a in x.arguments ==> x.arguments[a].ty.IsSubtype(y.arguments[a].ty)
  {
    var implemented := map[f := x];
    assert f in implemented;
  }

  /** So a nullable result passes for a non-null interface field and a required argument for
      an optional one; the opposite, covariant choices are rejected. */
  lemma BackwardsTest(i: Name, o: Name, q: Name, f: Name, a: Name)
    requires UsableNames(i, o, q, f) && !("__" <= a)
    ensures
      var optional, required := Named("Int"), NonNull(Named("Int"));
      && Accepted(SchemaOf(InterfaceSchema(i, o, q, f, Returning(required), Returning(optional), false)))
      && !Accepted(SchemaOf(InterfaceSchema(i, o, q, f, Returning(optional), Returning(required), false)))
      && Accepted(SchemaOf(InterfaceSchema(i, o, q, f, Taking(a, optional), Taking(a, required), false)))
      && !Accepted(SchemaOf(InterfaceSchema(i, o, q, f, Taking(a, required), Taking(a, optional), false)))
  {
    var optional, required := Named("Int"), NonNull(Named("Int"));
    ResultTest(i, o, q, f, required, optional);
    ResultTest(i, o, q, f, optional, required);
    ArgumentTest(i, o, q, f, a, optional, required);
    ArgumentTest(i, o, q, f, a, required, optional);
  }

  // ----- An interface that implements another -----

  /** Interface `i` implements `j`, but its object `o` declares only `i`. */
  function ParentSchema(j: Name, i: Name, o: Name, q: Name, f: Name): Builder {
    var fields := map[f := INT_FIELD];
    Builder(map[j := Interface(j, fields, {}, false),
                i := Interface(i, fields, {j}, false),
                o := Object(o, fields, {i}, false, true),
                q := Object(q, map[f := OutputField(NonNull(Named(i)), map[])], {}, false, true)],
            q, None, None, false, Enabled, false)
  }

  predicate UsableParent(j: Name, i: Name, o: Name, q: Name, f: Name) {
    UsableNames(i, o, q, f) && j != i && j != o && j != q && j !in SYSTEM_SCALARS
  }

  lemma ParentSchemaBuilt(j: Name, i: Name, o: Name, q: Name, f: Name)
    requires UsableParent(j, i, o, q, f)
    ensures
      var b := ParentSchema(j, i, o, q, f);
      && BuiltFrom(SchemaOf(b), b) && !Federated(b) && Extends(Assembled(b), b)
      && i in SchemaOf(b).possible && o in SchemaOf(b).possible[i]
  {
    var b := ParentSchema(j, i, o, q, f);
    assert b.types[o].name in Implementors(b.types, b.types.Keys, i);
    AssembledExtends(b);
  }

  lemma ParentTypesOk(types: Types, j: Name, i: Name, fields: map<Name, OutputField>, ty: Type)
    requires FieldsOk(types, fields) && ValidImplementation(fields, fields) && i != j
    requires j in types && types[j] == Interface(j, fields, {}, false)
    requires i in types && types[i] == Interface(i, fields, {j}, false)
    requires ty.Object? && ((ty.fields == fields && ty.implements == {i}) || (FieldsOk(types, ty.fields) && ty.implements == {}))
    ensures TypeOk(types, types[j]) && TypeOk(types, types[i]) && TypeOk(types, ty)
  {
  }

  /** The four types; everything else is a scalar. */
  ghost predicate HoldsParent(types: Types, j: Name, i: Name, o: Name, q: Name, fields: map<Name, OutputField>,
                              root: map<Name, OutputField>) {
    && j in types && types[j] == Interface(j, fields, {}, false)
    && i in types && types[i] == Interface(i, fields, {j}, false)
    && o in types && types[o] == Object(o, fields, {i}, false, true)
    && q in types && types[q] == Object(q, root, {}, false, true)
    && (forall n :: n in types ==> n == j || n == i || n == o || n == q || types[n].Scalar?)
  }

  lemma ParentSchemaHolds(types: Types, j: Name, i: Name, o: Name, q: Name, f: Name)
    requires UsableParent(j, i, o, q, f) && Extends(types, ParentSchema(j, i, o, q, f))
    requires !Federated(ParentSchema(j, i, o, q, f))
    ensures HoldsParent(types, j, i, o, q, map[f := INT_FIELD], map[f := OutputField(NonNull(Named(i)), map[])])
  {
    var b := ParentSchema(j, i, o, q, f);
    assert b.types.Keys == {j, i, o, q};
  }

  lemma ParentTypesAllOk(types: Types, j: Name, i: Name, o: Name, q: Name, fields: map<Name, OutputField>,
                         root: map<Name, OutputField>)
    requires HoldsParent(types, j, i, o, q, fields, root) && i != j
    requires FieldsOk(types, fields) && ValidImplementation(fields, fields) && FieldsOk(types, root)
    ensures AllTypesOk(types)
  {
    ParentTypesOk(types, j, i, fields, types[o]);
    ParentTypesOk(types, j, i, fields, types[q]);
  }

  lemma ParentHoldsOk(types: Types, j: Name, i: Name, o: Name, q: Name, f: Name)
    requires HoldsParent(types, j, i, o, q, map[f := INT_FIELD], map[f := OutputField(NonNull(Named(i)), map[])])
    requires i != j && !("__" <= f) && "Int" in types && types["Int"].Scalar?
    ensures AllTypesOk(types)
  {
    OneFieldOk(types, f, INT_FIELD);
    OneFieldOk(types, f, OutputField(NonNull(Named(i)), map[]));
    ParentTypesAllOk(types, j, i, o, q, map[f := INT_FIELD], map[f := OutputField(NonNull(Named(i)), map[])]);
  }

  lemma ParentSchemaAccepted(j: Name, i: Name, o: Name, q: Name, f: Name)
    requires UsableParent(j, i, o, q, f)
    ensures
      var b := ParentSchema(j, i, o, q, f);
      && BuiltFrom(SchemaOf(b), b) && Accepted(SchemaOf(b))
      && HoldsParent(SchemaOf(b).types, j, i, o, q, map[f := INT_FIELD], map[f := OutputField(NonNull(Named(i)), map[])])
      && i in SchemaOf(b).possible && o in SchemaOf(b).possible[i]
  {
    ParentSchemaBuilt(j, i, o, q, f);
    var s := SchemaOf(ParentSchema(j, i, o, q, f));
    ParentSchemaHolds(s.types, j, i, o, q, f);
    ParentHoldsOk(s.types, j, i, o, q, f);
    PlainAccepted(s);
  }
}
