/** What the self-reference check is for: an input object can be given a finite value exactly
    when required references lead from it to no cycle. */
module InputValues {
  import opened Wrappers
  import opened TypeRefs
  import opened DynamicSchema
  import opened InputCycles
  import D = Documents
  import V = TypeValues

  /** The values of the types that are not input objects. */
  type Leaves = Name -> iset<D.ConstValue>

  ghost predicate IsInput(types: Types, n: Name) {
    n in types && types[n].InputObject?
  }

  /** `v` is a value of the type: null only outside `NonNull`, lists element by element, and
      an object with a value for every field that does not take null, and for no other name
      than its fields'. */
  ghost predicate Takes(types: Types, leaves: Leaves, ty: TypeRef, v: D.ConstValue)
    decreases v, ty
  {
    match ty
    case NonNull(inner) => !v.Null? && Takes(types, leaves, inner, v)
    case List(inner) => v.Null? || (v.List? && forall i :: 0 <= i < |v.elements| ==> Takes(types, leaves, inner, v.elements[i]))
    case Named(n) =>
      || v.Null?
      || (if IsInput(types, n) then
            && v.Object? && v.members.Keys <= types[n].inputs.Keys
            && forall f :: f in types[n].inputs ==>
                 if f in v.members then Takes(types, leaves, types[n].inputs[f].ty, v.members[f])
                 else !types[n].inputs[f].ty.NonNull?
          else v in leaves(n))
  }

  /** No field type has a doubled `NonNull`. */
  ghost predicate PlainInputs(types: Types) {
    forall n, f :: IsInput(types, n) && f in types[n].inputs ==> V.IsPlain(types[n].inputs[f].ty)
  }

  /** Scalars, enums and uploads have values. */
  ghost predicate Inhabited(types: Types, leaves: Leaves) {
    forall n :: !IsInput(types, n) ==> exists v :: v in leaves(n) && !v.Null?
  }

  ghost predicate HasValue(types: Types, leaves: Leaves, ty: TypeRef) {
    exists v :: Takes(types, leaves, ty, v)
  }

  /** Which references count: exactly the fields of type `b!`. A nullable field, a list of any
      kind and a doubled `NonNull` add nothing. */
  lemma RefersExactly(types: Types, a: Name, b: Name)
    ensures Refers(types, a, b) <==>
      IsInput(types, a) && exists f :: f in types[a].inputs && types[a].inputs[f].ty == NonNull(Named(b))
  {
    if IsInput(types, a) {
      if f :| f in types[a].inputs && types[a].inputs[f].ty == NonNull(Named(b)) {
        assert RequiredName(types[a].inputs[f].ty) == Some(b);
      }
    }
  }

  // ----- On a cycle there is no value -----

  lemma {:induction false} NoValueOnCycle(types: Types, leaves: Leaves, p: seq<Name>, k: nat, v: D.ConstValue)
    requires IsPath(types, p) && p[0] == p[|p| - 1] && k < |p| - 1
    ensures !Takes(types, leaves, NonNull(Named(p[k])), v)
    decreases v
  {
    if Takes(types, leaves, NonNull(Named(p[k])), v) {
      assert Refers(types, p[k], p[k + 1]);
      RefersExactly(types, p[k], p[k + 1]);
      var f :| f in types[p[k]].inputs && types[p[k]].inputs[f].ty == NonNull(Named(p[k + 1]));
      assert Takes(types, leaves, Named(p[k]), v) && f in v.members;
      NoValueOnCycle(types, leaves, p, if k + 1 == |p| - 1 then 0 else k + 1, v.members[f]);
    }
  }

  // ----- Without cycles there is one -----

  ghost function Chosen(types: Types, leaves: Leaves, ty: TypeRef): (v: D.ConstValue)
    requires HasValue(types, leaves, ty)
    ensures Takes(types, leaves, ty, v)
  {
    var v :| Takes(types, leaves, ty, v);
    v
  }

  /** Anything but a required reference to an input object has a value. */
  lemma SimpleHasValue(types: Types, leaves: Leaves, ty: TypeRef)
    requires V.IsPlain(ty) && Inhabited(types, leaves)
    requires forall b :: ty == NonNull(Named(b)) ==> !IsInput(types, b)
    ensures HasValue(types, leaves, ty)
  {
    match ty
    case NonNull(Named(n)) =>
      var v :| v in leaves(n) && !v.Null?;
      assert Takes(types, leaves, Named(n), v);
      assert Takes(types, leaves, ty, v);
    case NonNull(List(inner)) =>
      assert Takes(types, leaves, List(inner), D.List([]));
      assert Takes(types, leaves, ty, D.List([]));
    case NonNull(NonNull(_)) =>
    case _ => assert Takes(types, leaves, ty, D.Null);
  }

  lemma {:induction false} AcyclicHasValue(types: Types, leaves: Leaves, a: Name)
    requires Acyclic(types) && PlainInputs(types) && Inhabited(types, leaves) && IsInput(types, a)
    ensures HasValue(types, leaves, NonNull(Named(a)))
    decreases |Reach(types, a)|
  {
    var inputs := types[a].inputs;
    forall f | f in inputs ensures HasValue(types, leaves, inputs[f].ty) {
      var ty := inputs[f].ty;
      if ty.NonNull? && ty.inner.Named? && IsInput(types, ty.inner.name) {
        RefersExactly(types, a, ty.inner.name);
        RankFalls(types, a, ty.inner.name);
        AcyclicHasValue(types, leaves, ty.inner.name);
      } else {
        SimpleHasValue(types, leaves, ty);
      }
    }
    var v := D.Object(map f | f in inputs && inputs[f].ty.NonNull? :: Chosen(types, leaves, inputs[f].ty));
    assert Takes(types, leaves, Named(a), v);
    assert Takes(types, leaves, NonNull(Named(a)), v);
  }

  /** The check is exact: every input object has a finite value if and only if required
      references form no cycle. */
  lemma ValuesIffAcyclic(types: Types, leaves: Leaves)
    requires PlainInputs(types) && Inhabited(types, leaves)
    ensures Acyclic(types) <==> forall a :: IsInput(types, a) ==> HasValue(types, leaves, NonNull(Named(a)))
  {
    if Acyclic(types) {
      forall a | IsInput(types, a) ensures HasValue(types, leaves, NonNull(Named(a))) {
        AcyclicHasValue(types, leaves, a);
      }
    } else {
      var a :| a in types && OnCycle(types, a);
      var p :| IsPath(types, p) && p[0] == a && p[|p| - 1] == a;
      PathStartsAtInput(types, p);
      forall v ensures !Takes(types, leaves, NonNull(Named(a)), v) {
        NoValueOnCycle(types, leaves, p, 0, v);
      }
      assert IsInput(types, a) && !HasValue(types, leaves, NonNull(Named(a)));
    }
  }

  // ----- Examples -----

  function Recursive(ty: TypeRef, oneof: bool): Types {
    map["A" := InputObject("A", map["next" := InputField(ty, false)], oneof)]
  }

  /** `input A { next: A }` and `input A { next: [A!]! }` are accepted, `input A { next: A! }`
      is not. */
  lemma RecursiveInputs()
    ensures Acyclic(Recursive(Named("A"), false))
    ensures Acyclic(Recursive(NonNull(List(NonNull(Named("A")))), false))
    ensures !Acyclic(Recursive(NonNull(Named("A")), false))
  {
    NoReferences(Named("A"), false);
    NoReferences(NonNull(List(NonNull(Named("A")))), false);
    var types := Recursive(NonNull(Named("A")), false);
    assert "next" in types["A"].inputs && types["A"].inputs["next"].ty == NonNull(Named("A"));
    RefersExactly(types, "A", "A");
    assert IsPath(types, ["A", "A"]);
    assert OnCycle(types, "A");
  }

  lemma NoReferences(ty: TypeRef, oneof: bool)
    requires !(ty.NonNull? && ty.inner.Named?)
    ensures Acyclic(Recursive(ty, oneof))
  {
    var types := Recursive(ty, oneof);
    forall a | a in types ensures !OnCycle(types, a) {
      if p :| IsPath(types, p) && p[0] == a && p[|p| - 1] == a {
        assert Refers(types, p[0], p[1]);
      }
    }
  }

  /** A value of `input A @oneOf { next: A }` names exactly one field and gives it a value that
      is not null. */
  ghost predicate OneofValue(v: D.ConstValue)
    decreases v
  {
    v.Object? && v.members.Keys == {"next"} && OneofValue(v.members["next"])
  }

  /** The check knows nothing of this rule: the type is accepted and has no value. */
  lemma {:induction false} OneofWithoutValue(v: D.ConstValue)
    ensures Acyclic(Recursive(Named("A"), true)) && InputObjectsOk(Recursive(Named("A"), true))
    ensures !OneofValue(v)
    decreases v
  {
    NoReferences(Named("A"), true);
    if v.Object? && v.members.Keys == {"next"} { OneofWithoutValue(v.members["next"]); }
  }
}
