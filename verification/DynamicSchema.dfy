/** The types of a dynamic schema and the steps of `SchemaBuilder::finish` before the
    schema is checked. The source keeps types in an insertion-ordered map; the order only
    decides which of several errors is reported first and is not modelled. */
module DynamicSchema {
  import opened Wrappers
  import opened TypeRefs

  datatype InputField = InputField(ty: TypeRef, hasDefault: bool)

  datatype OutputField = OutputField(ty: TypeRef, arguments: map<Name, InputField>)

  datatype Type =
    | Scalar(name: Name)
    | Object(name: Name, fields: map<Name, OutputField>, implements: set<Name>, keyed: bool, resolvable: bool)
    | InputObject(name: Name, inputs: map<Name, InputField>, oneof: bool)
    | Enum(name: Name, values: set<Name>)
    | Interface(name: Name, fields: map<Name, OutputField>, implements: set<Name>, keyed: bool)
    | Union(name: Name, members: set<Name>)
    | Subscription(name: Name, fields: map<Name, OutputField>)
    | Upload
  {
    function TypeName(): Name {
      if Upload? then "Upload" else name
    }

    predicate IsOutputType() {
      !InputObject? && !Subscription? && !Upload?
    }

    predicate IsInputType() {
      Scalar? || InputObject? || Enum? || Upload?
    }

    predicate IsEntity() {
      (Object? || Interface?) && keyed
    }
  }

  type Types = map<Name, Type>

  const SYSTEM_SCALARS: seq<Name> := ["Int", "Float", "Boolean", "String", "ID"]

  /** Whether introspection is answered, and whether anything else is. */
  datatype Mode = Enabled | IntrospectionOnly | Disabled

  datatype Builder = Builder(types: Types, query: Name, mutation: Option<Name>, subscription: Option<Name>,
                             enableFederation: bool, introspection: Mode, entityResolver: bool)
  {
    /** Types are stored under their own names (`SchemaBuilder::register`). */
    ghost predicate Valid() {
      Keyed(types)
    }
  }

  ghost predicate Keyed(types: Types) {
    forall n :: n in types ==> types[n].TypeName() == n
  }

  /** `SchemaBuilder::register`: a second type of the same name replaces the first. */
  function Register(b: Builder, ty: Type): (r: Builder)
    requires b.Valid()
    ensures r.Valid() && ty.TypeName() in r.types && r.types[ty.TypeName()] == ty
    ensures forall n :: n in b.types && n != ty.TypeName() ==> n in r.types && r.types[n] == b.types[n]
  {
    b.(types := b.types[ty.TypeName() := ty])
  }

  /** A built schema. `possible` is the part of the registry that resolution consults: the
      possible types of each interface. */
  datatype Schema = Schema(types: Types, query: Name, mutation: Option<Name>, subscription: Option<Name>,
                           possible: map<Name, set<Name>>, federation: bool, introspection: Mode, entityResolver: bool)

  datatype SchemaError =
    | AlreadyExists(name: Name)
    | MissingQueryType          // `expect("missing query type")` when federation types are created
    | TypeNotFound
    | InvalidRoot
    | InvalidObject
    | InvalidInputObject
    | SelfReference(name: Name)
    | InvalidInterface
    | InvalidUnion

  // ----- update_interface_possible_types -----

  /** The objects among `names` that implement an interface. */
  function Implementors(types: Types, names: set<Name>, interface: Name): set<Name>
    requires names <= types.Keys
  {
    set n | n in names && types[n].Object? && interface in types[n].implements :: types[n].name
  }

  function PossibleTypes(types: Types): map<Name, set<Name>> {
    map i | i in types && types[i].Interface? :: Implementors(types, types.Keys, i)
  }

  lemma OneMore(types: Types, names: set<Name>, n: Name, interface: Name)
    requires names <= types.Keys && n in types
    ensures Implementors(types, names + {n}, interface) == Implementors(types, names, interface) +
      if types[n].Object? && interface in types[n].implements then {types[n].name} else {}
  {
  }

  /** Insert one object into the set of each known interface that it implements. */
  method Insert(possible: map<Name, set<Name>>, implements: set<Name>, name: Name)
      returns (out: map<Name, set<Name>>)
    ensures out.Keys == possible.Keys
    ensures forall i :: i in possible ==> out[i] == possible[i] + if i in implements then {name} else {}
  {
    out := possible;
    var names := implements;
    while names != {}
      invariant names <= implements && out.Keys == possible.Keys
      invariant forall i :: i in possible ==> out[i] == possible[i] + if i in implements - names then {name} else {}
      decreases names
    {
      var interface :| interface in names;
      names := names - {interface};
      if interface in out {
        out := out[interface := out[interface] + {name}];
      }
    }
  }

  /** Starting from the empty sets of freshly registered interfaces, insert every object
      into the set of each interface it implements. */
  method UpdateInterfacePossibleTypes(types: Types) returns (possible: map<Name, set<Name>>)
    ensures possible == PossibleTypes(types)
  {
    possible := map i | i in types && types[i].Interface? :: {};
    var todo := types.Keys;
    while todo != {}
      invariant todo <= types.Keys
      invariant possible.Keys == PossibleTypes(types).Keys
      invariant forall i :: i in possible ==> possible[i] == Implementors(types, types.Keys - todo, i)
      decreases todo
    {
      var n :| n in todo;
      ghost var seen := types.Keys - todo;
      todo := todo - {n};
      assert types.Keys - todo == seen + {n};
      forall i { OneMore(types, seen, n, i); }
      if types[n].Object? {
        possible := Insert(possible, types[n].implements, types[n].name);
      }
    }
    assert types.Keys - todo == types.Keys;
  }

  // ----- finish -----

  function WithScalars(types: Types, scalars: seq<Name>): Types
    decreases scalars
  {
    if scalars == [] then types
    else WithScalars(types[scalars[0] := Scalar(scalars[0])], scalars[1..])
  }

  /** The `_Entity` union collects the names of all keyed objects and interfaces. */
  function EntityUnion(types: Types): Type {
    Union("_Entity", set n | n in types && types[n].IsEntity() :: types[n].name)
  }

  predicate RegistryHasEntities(types: Types) {
    exists n :: n in types && types[n].IsEntity() && (types[n].Object? ==> types[n].resolvable)
  }

  /** Federation is on if asked for, or as soon as a registered type can be an entity. */
  predicate Federated(b: Builder) {
    b.enableFederation || RegistryHasEntities(b.types)
  }

  /** The type map that `finish` hands to the checks. */
  function Assembled(b: Builder): Types {
    var types := WithScalars(b.types, SYSTEM_SCALARS);
    if Federated(b) then types["_Entity" := EntityUnion(types)] else types
  }

  const INTROSPECTION_TYPES: seq<Name> :=
    ["__Schema", "__Type", "__TypeKind", "__Field", "__InputValue", "__EnumValue", "__Directive", "__DirectiveLocation"]

  /** The names the registry knows when the federation fields are added to the query type. */
  predicate Registered(b: Builder, n: Name) {
    || n in b.types || n in SYSTEM_SCALARS || n == "_Any" || n == "_Service"
    || (!b.introspection.Disabled? && n in INTROSPECTION_TYPES)
  }

  predicate Conflicts(b: Builder) {
    exists n :: n in b.types && n in SYSTEM_SCALARS
  }

  /** Everything before the checks: registration rejects names that the registry already
      has, possible types are filled in, system scalars and the entity union are added. */
  method Assemble(b: Builder) returns (r: Result<Schema, SchemaError>)
    requires b.Valid()
    ensures r.Err? <==> Conflicts(b) || (Federated(b) && !Registered(b, b.query))
    ensures r.Err? ==> if Conflicts(b) then r.error.AlreadyExists? && r.error.name in SYSTEM_SCALARS
                       else r.error == MissingQueryType
    ensures r.Ok? ==> r.value == Schema(Assembled(b), b.query, b.mutation, b.subscription,
                                        PossibleTypes(b.types), Federated(b), b.introspection, b.entityResolver)
  {
    var todo := b.types.Keys;
    while todo != {}
      invariant todo <= b.types.Keys
      invariant forall n :: n in b.types.Keys - todo ==> n !in SYSTEM_SCALARS
      decreases todo
    {
      var n :| n in todo;
      if b.types[n].TypeName() in SYSTEM_SCALARS {
        return Err(AlreadyExists(n));
      }
      todo := todo - {n};
    }
    var possible := UpdateInterfacePossibleTypes(b.types);
    var types := b.types;
    for i := 0 to |SYSTEM_SCALARS|
      invariant WithScalars(types, SYSTEM_SCALARS[i..]) == WithScalars(b.types, SYSTEM_SCALARS)
    {
      types := types[SYSTEM_SCALARS[i] := Scalar(SYSTEM_SCALARS[i])];
      assert SYSTEM_SCALARS[i..][1..] == SYSTEM_SCALARS[i + 1..];
    }
    var federation := Federated(b);
    if federation {
      if !Registered(b, b.query) {
        return Err(MissingQueryType);
      }
      types := types["_Entity" := EntityUnion(types)];
    }
    return Ok(Schema(types, b.query, b.mutation, b.subscription, possible, federation, b.introspection, b.entityResolver));
  }

  lemma {:induction false} WithScalarsFacts(types: Types, scalars: seq<Name>)
    requires Keyed(types)
    ensures Keyed(WithScalars(types, scalars))
    ensures forall n :: n in types && n !in scalars ==> n in WithScalars(types, scalars) && WithScalars(types, scalars)[n] == types[n]
    decreases scalars
  {
    if scalars != [] {
      WithScalarsFacts(types[scalars[0] := Scalar(scalars[0])], scalars[1..]);
    }
  }

  /** What the registry says about an interface is still true of the finished type map: a
      possible type is an object that implements the interface. The one exception is a user
      object called `_Entity`, which the entity union overwrites. */
  lemma PossibleTypesAreObjects(b: Builder, interface: Name, n: Name)
    requires b.Valid() && !Conflicts(b)
    requires interface in PossibleTypes(b.types) && n in PossibleTypes(b.types)[interface]
    ensures n in b.types && b.types[n].Object? && interface in b.types[n].implements
    ensures n in Assembled(b) && Keyed(Assembled(b))
    ensures if Federated(b) && n == "_Entity" then Assembled(b)[n].Union? else Assembled(b)[n] == b.types[n]
    ensures !(Federated(b) && interface == "_Entity") ==>
      interface in Assembled(b) && Assembled(b)[interface] == b.types[interface]
  {
    WithScalarsFacts(b.types, SYSTEM_SCALARS);
  }

  /** The user registered an object `_Entity` that implements a registered interface, and
      federation is on. */
  predicate EntityClash(b: Builder) {
    Federated(b) && exists i :: i in PossibleTypes(b.types) && "_Entity" in PossibleTypes(b.types)[i]
  }

  // ----- What assembly puts in place, in the registered types' own terms -----

  /** The possible types of an interface are exactly the objects that declare it. */
  lemma PossibleExactly(types: Types, i: Name, o: Name)
    requires Keyed(types)
    ensures i in PossibleTypes(types) <==> i in types && types[i].Interface?
    ensures i in PossibleTypes(types) ==>
      (o in PossibleTypes(types)[i] <==> o in types && types[o].Object? && i in types[o].implements)
  {
  }

  lemma {:induction false} ScalarsAdded(types: Types, scalars: seq<Name>, n: Name)
    ensures n in WithScalars(types, scalars) <==> n in types || n in scalars
    ensures n in scalars ==> WithScalars(types, scalars)[n] == Scalar(n)
    ensures n in types && n !in scalars ==> WithScalars(types, scalars)[n] == types[n]
    decreases scalars
  {
    if scalars != [] {
      ScalarsAdded(types[scalars[0] := Scalar(scalars[0])], scalars[1..], n);
      if n == scalars[0] && n !in scalars[1..] {
        assert WithScalars(types, scalars)[n] == Scalar(n);
      }
    }
  }

  /** The five system scalars are there, and a user type with one of their names is a
      conflict. */
  lemma SystemScalars(b: Builder, n: Name)
    requires n == "Int" || n == "Float" || n == "Boolean" || n == "String" || n == "ID"
    ensures n in WithScalars(b.types, SYSTEM_SCALARS) && WithScalars(b.types, SYSTEM_SCALARS)[n] == Scalar(n)
    ensures n in b.types ==> Conflicts(b)
  {
    var s := SYSTEM_SCALARS;
    assert s[0] == "Int" && s[1] == "Float" && s[2] == "Boolean" && s[3] == "String" && s[4] == "ID";
    assert n in s;
    ScalarsAdded(b.types, s, n);
  }

  /** Under federation the entity union has exactly the keyed objects and interfaces; a keyed
      object that can be resolved, or a keyed interface, switches federation on. */
  lemma EntitiesExactly(b: Builder, n: Name)
    requires b.Valid() && !Conflicts(b)
    ensures Federated(b) ==>
      && "_Entity" in Assembled(b) && Assembled(b)["_Entity"].Union?
      && (n in Assembled(b)["_Entity"].members <==> n in b.types && (b.types[n].Object? || b.types[n].Interface?) && b.types[n].keyed)
    ensures b.enableFederation ==> Federated(b)
    ensures n in b.types && b.types[n].Object? && b.types[n].keyed && b.types[n].resolvable ==> Federated(b)
    ensures n in b.types && b.types[n].Interface? && b.types[n].keyed ==> Federated(b)
    ensures Federated(b) && !b.enableFederation ==>
      exists m :: m in b.types && ((b.types[m].Object? && b.types[m].keyed && b.types[m].resolvable)
                                   || (b.types[m].Interface? && b.types[m].keyed))
  {
    var types := WithScalars(b.types, SYSTEM_SCALARS);
    forall m ensures m in types && types[m].IsEntity() <==> m in b.types && b.types[m].IsEntity() {
      ScalarsAdded(b.types, SYSTEM_SCALARS, m);
    }
    WithScalarsFacts(b.types, SYSTEM_SCALARS);
    forall m | m in types && types[m].IsEntity() ensures types[m].name == m {}
  }
}
