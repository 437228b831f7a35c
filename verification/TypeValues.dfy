/** The values that a type reference admits, and what the sub-type relation says about them. */
module TypeValues {
  import opened Wrappers
  import opened TypeRefs
  import D = Documents

  /** `leaves` are the values of the named type; null fits everywhere but under `NonNull`,
      and a list fits element by element. */
  ghost predicate Admits(ty: TypeRef, leaves: iset<D.ConstValue>, v: D.ConstValue)
    decreases ty
  {
    match ty
    case Named(_) => v.Null? || v in leaves
    case NonNull(inner) => !v.Null? && Admits(inner, leaves, v)
    case List(inner) =>
      v.Null? || (v.List? && forall i :: 0 <= i < |v.elements| ==> Admits(inner, leaves, v.elements[i]))
  }

  /** Whatever the named type is, `a` admits every value that `b` admits. */
  ghost predicate Includes(a: TypeRef, b: TypeRef) {
    forall leaves, v :: Admits(b, leaves, v) ==> Admits(a, leaves, v)
  }

  /** `NonNull` directly under `NonNull` adds nothing. */
  function Plain(ty: TypeRef): TypeRef {
    match ty
    case Named(_) => ty
    case List(inner) => List(Plain(inner))
    case NonNull(inner) => if inner.NonNull? then Plain(inner) else NonNull(Plain(inner))
  }

  predicate IsPlain(ty: TypeRef) {
    match ty
    case Named(_) => true
    case List(inner) => IsPlain(inner)
    case NonNull(inner) => !inner.NonNull? && IsPlain(inner)
  }

  lemma {:induction false} PlainFacts(ty: TypeRef)
    ensures IsPlain(Plain(ty)) && Plain(ty).TypeName() == ty.TypeName()
    ensures Plain(ty).NonNull? <==> ty.NonNull?
    ensures IsPlain(ty) ==> Plain(ty) == ty
  {
    if !ty.Named? { PlainFacts(ty.inner); }
  }

  lemma {:induction false} PlainAdmits(ty: TypeRef, leaves: iset<D.ConstValue>, v: D.ConstValue)
    ensures Admits(Plain(ty), leaves, v) <==> Admits(ty, leaves, v)
    decreases ty
  {
    match ty
    case Named(_) =>
    case NonNull(inner) => PlainAdmits(inner, leaves, v);
    case List(inner) =>
      if v.List? {
        forall i | 0 <= i < |v.elements|
          ensures Admits(Plain(inner), leaves, v.elements[i]) <==> Admits(inner, leaves, v.elements[i])
        {
          PlainAdmits(inner, leaves, v.elements[i]);
        }
      }
  }

  /** Erasing wrappers loses no value. */
  lemma {:induction false} ErasedAdmits(a: TypeRef, b: TypeRef, leaves: iset<D.ConstValue>, v: D.ConstValue)
    requires ErasedFrom(a, b) && Admits(b, leaves, v)
    ensures Admits(a, leaves, v)
    decreases b
  {
    match b
    case Named(_) =>
    case NonNull(inner) =>
      if ErasedFrom(a, inner) { ErasedAdmits(a, inner, leaves, v); } else { ErasedAdmits(a.inner, inner, leaves, v); }
    case List(inner) =>
      if v.List? {
        forall i | 0 <= i < |v.elements| ensures Admits(a.inner, leaves, v.elements[i]) {
          ErasedAdmits(a.inner, inner, leaves, v.elements[i]);
        }
      }
  }

  ghost const ZERO: iset<D.ConstValue> := iset{D.Number(0.0)}

  /** If plain `a` is not `b` with wrappers erased, some value tells them apart. */
  lemma {:induction false} Separates(a: TypeRef, b: TypeRef) returns (v: D.ConstValue)
    requires IsPlain(a) && IsPlain(b) && a.TypeName() == b.TypeName() && !a.IsSubtype(b)
    ensures Admits(b, ZERO, v) && !Admits(a, ZERO, v)
    decreases a, b
  {
    match (a, b)
    case (NonNull(x), NonNull(y)) => v := Separates(x, y);
    case (_, NonNull(y)) => v := Separates(a, y);
    case (NonNull(_), _) => v := D.Null;
    case (List(x), List(y)) =>
      var w := Separates(x, y);
      v := D.List([w]);
      assert v.elements[0] == w;
    case (List(_), Named(_)) => v := D.Number(0.0);
    case (Named(_), List(_)) => v := D.List([]);
    case (Named(_), Named(_)) =>
  }

  /** For references to the same named type, `a` admits every value that `b` admits if and
      only if `a.is_subtype(b)`, both without doubled `NonNull`. */
  lemma IncludesIffSubtype(a: TypeRef, b: TypeRef)
    requires a.TypeName() == b.TypeName()
    ensures Includes(a, b) <==> Plain(a).IsSubtype(Plain(b))
    ensures IsPlain(a) && IsPlain(b) ==> (Includes(a, b) <==> a.IsSubtype(b))
  {
    PlainFacts(a);
    PlainFacts(b);
    SubtypeIsErasure(Plain(a), Plain(b));
    if Plain(a).IsSubtype(Plain(b)) {
      forall leaves, v | Admits(b, leaves, v) ensures Admits(a, leaves, v) {
        PlainAdmits(b, leaves, v);
        ErasedAdmits(Plain(a), Plain(b), leaves, v);
        PlainAdmits(a, leaves, v);
      }
    } else {
      var v := Separates(Plain(a), Plain(b));
      PlainAdmits(a, ZERO, v);
      PlainAdmits(b, ZERO, v);
      assert !Includes(a, b);
    }
  }

  lemma SubtypeIncludes(a: TypeRef, b: TypeRef)
    requires a.IsSubtype(b)
    ensures Includes(a, b)
  {
    SubtypeIsErasure(a, b);
    forall leaves, v | Admits(b, leaves, v) ensures Admits(a, leaves, v) {
      ErasedAdmits(a, b, leaves, v);
    }
  }

  /** The proviso is needed: a doubled `NonNull` admits the same values but is told apart. */
  lemma DoubledNonNull(n: Name)
    ensures
      var once, twice := NonNull(Named(n)), NonNull(NonNull(Named(n)));
      Includes(twice, once) && !twice.IsSubtype(once)
  {
    var once, twice := NonNull(Named(n)), NonNull(NonNull(Named(n)));
    IncludesIffSubtype(twice, once);
    SubtypePartialOrder(once, once, once);
    assert Plain(twice) == once && Plain(once) == once;
    assert !NonNull(Named(n)).IsSubtype(Named(n));
  }

  /** Of two references of which one is a sub-type of the other, the inclusion holds the
      other way round exactly when they are the same but for doubled `NonNull`. */
  lemma BackIffSame(a: TypeRef, b: TypeRef)
    requires a.IsSubtype(b)
    ensures Includes(b, a) <==> Plain(a) == Plain(b)
  {
    SubtypePartialOrder(a, b, b);
    SubtypeIncludes(a, b);
    IncludesIffSubtype(a, b);
    IncludesIffSubtype(b, a);
    SubtypePartialOrder(Plain(a), Plain(b), Plain(a));
    SubtypePartialOrder(Plain(b), Plain(b), Plain(b));
  }

  /** A type is nullable exactly when it admits null. */
  lemma NullableAdmitsNull(ty: TypeRef, leaves: iset<D.ConstValue>)
    ensures ty.IsNullable() <==> Admits(ty, leaves, D.Null)
  {
  }
}
