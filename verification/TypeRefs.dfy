/** Type references of the dynamic schema and their sub-type relation. */
module TypeRefs {
  import opened Wrappers

  datatype TypeRef = Named(name: Name) | NonNull(inner: TypeRef) | List(inner: TypeRef)
  {
    function TypeName(): Name {
      match this
      case Named(name) => name
      case NonNull(inner) => inner.TypeName()
      case List(inner) => inner.TypeName()
    }

    predicate IsNullable() {
      !NonNull?
    }

    /** As in the source, the argument is the tighter of the two types. */
    predicate IsSubtype(sub: TypeRef)
      decreases this, sub
    {
      match (this, sub)
      case (NonNull(a), NonNull(b)) => a.IsSubtype(b)
      case (_, NonNull(b)) => this.IsSubtype(b)
      case (Named(a), Named(b)) => a == b
      case (List(a), List(b)) => a.IsSubtype(b)
      case _ => false
    }
  }

  /** `a` is `b` with some of its `NonNull` wrappers erased: the declarative reading, where
      each wrapper of `b` may be kept or erased. */
  predicate ErasedFrom(a: TypeRef, b: TypeRef)
    decreases b
  {
    match b
    case Named(_) => a == b
    case List(inner) => a.List? && ErasedFrom(a.inner, inner)
    case NonNull(inner) => ErasedFrom(a, inner) || (a.NonNull? && ErasedFrom(a.inner, inner))
  }

  lemma {:induction false} ErasingMore(a: TypeRef, b: TypeRef)
    requires ErasedFrom(NonNull(a), b)
    ensures ErasedFrom(a, b)
    decreases b
  {
    match b
    case NonNull(inner) =>
      if ErasedFrom(NonNull(a), inner) { ErasingMore(a, inner); }
    case _ =>
  }

  /** The code never tries to erase a wrapper when both sides have one; that choice loses
      no solution. */
  lemma {:induction false} SubtypeIsErasure(a: TypeRef, b: TypeRef)
    ensures a.IsSubtype(b) <==> ErasedFrom(a, b)
    decreases a, b
  {
    match (a, b)
    case (NonNull(x), NonNull(y)) =>
      SubtypeIsErasure(x, y);
      if ErasedFrom(a, y) { ErasingMore(x, y); }
    case (_, NonNull(y)) => SubtypeIsErasure(a, y);
    case (List(x), List(y)) => SubtypeIsErasure(x, y);
    case _ =>
  }

  lemma {:induction false} SubtypeReflexive(a: TypeRef)
    ensures a.IsSubtype(a)
  {
    if !a.Named? { SubtypeReflexive(a.inner); }
  }

  lemma {:induction false} ErasureTransitive(a: TypeRef, b: TypeRef, c: TypeRef)
    requires ErasedFrom(a, b) && ErasedFrom(b, c)
    ensures ErasedFrom(a, c)
    decreases c, b
  {
    match c
    case Named(_) =>
    case List(z) => ErasureTransitive(a.inner, b.inner, z);
    case NonNull(z) =>
      if ErasedFrom(b, z) {
        ErasureTransitive(a, b, z);
      } else if ErasedFrom(a, b.inner) {
        ErasureTransitive(a, b.inner, z);
      } else {
        ErasureTransitive(a.inner, b.inner, z);
      }
  }

  function NonNulls(a: TypeRef): nat {
    match a
    case Named(_) => 0
    case NonNull(inner) => 1 + NonNulls(inner)
    case List(inner) => NonNulls(inner)
  }

  /** Erasing keeps the name and removes wrappers; removing none changes nothing. */
  lemma {:induction false} ErasureCounts(a: TypeRef, b: TypeRef)
    requires ErasedFrom(a, b)
    ensures a.TypeName() == b.TypeName() && NonNulls(a) <= NonNulls(b)
    ensures NonNulls(a) == NonNulls(b) ==> a == b
    decreases b
  {
    match b
    case Named(_) =>
    case List(y) => ErasureCounts(a.inner, y);
    case NonNull(y) =>
      if ErasedFrom(a, y) { ErasureCounts(a, y); } else { ErasureCounts(a.inner, y); }
  }

  /** `is_subtype` is a partial order on all type references, and only relates references
      to the same named type. */
  lemma SubtypePartialOrder(a: TypeRef, b: TypeRef, c: TypeRef)
    ensures a.IsSubtype(a)
    ensures a.IsSubtype(b) && b.IsSubtype(a) ==> a == b
    ensures a.IsSubtype(b) && b.IsSubtype(c) ==> a.IsSubtype(c)
    ensures a.IsSubtype(b) ==> a.TypeName() == b.TypeName()
  {
    SubtypeReflexive(a);
    SubtypeIsErasure(a, b);
    SubtypeIsErasure(b, a);
    SubtypeIsErasure(b, c);
    SubtypeIsErasure(a, c);
    if ErasedFrom(a, b) {
      ErasureCounts(a, b);
      if ErasedFrom(b, a) { ErasureCounts(b, a); }
      if ErasedFrom(b, c) { ErasureTransitive(a, b, c); }
    }
  }
}
