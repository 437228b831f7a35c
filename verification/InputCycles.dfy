/** The self-reference check on input objects: a depth-first search that shares one set of
    names, inserting on the way down and removing on the way up. */
module InputCycles {
  import opened Wrappers
  import opened TypeRefs
  import opened DynamicSchema
  import opened Collections

  /** The name behind a type reference of the form `Name!`. */
  function RequiredName(ty: TypeRef): Option<Name> {
    if ty.NonNull? && ty.inner.Named? then Some(ty.inner.name) else None
  }

  /** Input object `a` has a field of type `b!`. */
  ghost predicate Refers(types: Types, a: Name, b: Name) {
    && a in types && types[a].InputObject?
    && exists f :: f in types[a].inputs && RequiredName(types[a].inputs[f].ty) == Some(b)
  }

  ghost predicate IsPath(types: Types, p: seq<Name>) {
    |p| >= 2 && forall i :: 0 <= i < |p| - 1 ==> Refers(types, p[i], p[i + 1])
  }

  /** A path from `a` to `target` whose inner nodes avoid `chain`. */
  ghost predicate Leads(types: Types, p: seq<Name>, a: Name, target: Name, chain: set<Name>) {
    && IsPath(types, p) && p[0] == a && p[|p| - 1] == target
    && forall i :: 0 < i < |p| - 1 ==> p[i] !in chain
  }

  ghost predicate CanLead(types: Types, a: Name, target: Name, chain: set<Name>) {
    exists p :: Leads(types, p, a, target, chain)
  }

  /** The graph of required references has a cycle through `a`. */
  ghost predicate OnCycle(types: Types, a: Name) {
    exists p :: IsPath(types, p) && p[0] == a && p[|p| - 1] == a
  }

  ghost predicate Acyclic(types: Types) {
    forall a :: a in types ==> !OnCycle(types, a)
  }

  // ----- One level of the search -----

  lemma ThroughSuccessor(types: Types, a: Name, b: Name, target: Name, chain: set<Name>)
    requires Refers(types, a, b) && b !in chain && CanLead(types, b, target, chain + {b})
    ensures CanLead(types, a, target, chain)
  {
    var q :| Leads(types, q, b, target, chain + {b});
    var p := [a] + q;
    forall i | 0 <= i < |p| - 1 ensures Refers(types, p[i], p[i + 1]) {
      if i > 0 { assert Refers(types, q[i - 1], q[i]); }
    }
    forall i | 0 < i < |p| - 1 ensures p[i] !in chain {
      if i > 1 { assert q[i - 1] !in chain + {b}; }
    }
    assert Leads(types, p, a, target, chain);
  }

  lemma {:induction false} LastIndex(p: seq<Name>, n: nat, b: Name) returns (k: nat)
    requires 1 <= n < |p| && p[1] == b
    ensures 1 <= k <= n && p[k] == b && forall i :: k < i <= n ==> p[i] != b
  {
    if p[n] == b {
      k := n;
    } else {
      k := LastIndex(p, n - 1, b);
    }
  }

  /** A path that is longer than one reference can be cut so that it never returns to its
      second node. */
  lemma CutPath(types: Types, p: seq<Name>, a: Name, target: Name, chain: set<Name>)
    requires Leads(types, p, a, target, chain) && |p| > 2
    ensures Refers(types, a, p[1]) && p[1] !in chain && p[1] in types && types[p[1]].InputObject?
    ensures CanLead(types, p[1], target, chain + {p[1]})
  {
    var b := p[1];
    assert Refers(types, p[0], p[1]) && Refers(types, p[1], p[2]);
    var k := LastIndex(p, |p| - 2, b);
    var q := p[k..];
    forall i | 0 <= i < |q| - 1 ensures Refers(types, q[i], q[i + 1]) {
      assert Refers(types, p[k + i], p[k + i + 1]);
    }
    forall i | 0 < i < |q| - 1 ensures q[i] !in chain + {b} {
      assert p[k + i] !in chain;
    }
    assert Leads(types, q, b, target, chain + {b});
  }

  lemma DirectReference(types: Types, a: Name, target: Name, chain: set<Name>)
    requires Refers(types, a, target)
    ensures CanLead(types, a, target, chain)
  {
    assert Leads(types, [a, target], a, target, chain);
  }

  // ----- The search -----

  class RefChain {
    var names: set<Name>

    constructor ()
      ensures names == {}
    {
      names := {};
    }
  }

  ghost function InputNames(types: Types): set<Name> {
    set n | n in types && types[n].InputObject?
  }

  /** `check_input_object_reference`: fails exactly when required references lead from the
      object back to `current` without passing a name of the chain; on success the chain
      is as it was. The names not yet in the chain bound the recursion. */
  method CheckReference(types: Types, current: Name, owner: Name, chain: RefChain) returns (ok: bool)
    requires owner in types && types[owner].InputObject?
    modifies chain
    ensures ok <==> !CanLead(types, owner, current, old(chain.names))
    ensures ok ==> chain.names == old(chain.names)
    decreases |InputNames(types) - chain.names|
  {
    ghost var before := chain.names;
    var obj := types[owner];
    var todo := obj.inputs.Keys;
    while todo != {}
      invariant todo <= obj.inputs.Keys && chain.names == before
      invariant forall f :: f in obj.inputs.Keys - todo ==> Harmless(types, obj.inputs[f].ty, current, before)
      decreases todo
    {
      var f :| f in todo;
      todo := todo - {f};
      var required := RequiredName(obj.inputs[f].ty);
      if required.Some? {
        assert Refers(types, owner, required.value);
        if required.value == current {
          DirectReference(types, owner, current, before);
          return false;
        } else if required.value in types && types[required.value].InputObject? {
          if required.value !in chain.names {
            chain.names := chain.names + {required.value};
            assert InputNames(types) - chain.names < InputNames(types) - before by {
              assert required.value in InputNames(types) - before;
            }
            SubsetSize(InputNames(types) - chain.names, InputNames(types) - before);
            var below := CheckReference(types, current, required.value, chain);
            if !below {
              ThroughSuccessor(types, owner, required.value, current, before);
              return false;
            }
            chain.names := chain.names - {required.value};
          }
        }
      }
    }
    NothingFound(types, owner, current, before);
    return true;
  }

  /** A field whose type does not start a way back to `current`. */
  ghost predicate Harmless(types: Types, ty: TypeRef, current: Name, chain: set<Name>) {
    var required := RequiredName(ty);
    required.Some? ==>
      && required.value != current
      && (required.value in types && types[required.value].InputObject? && required.value !in chain ==>
            !CanLead(types, required.value, current, chain + {required.value}))
  }

  lemma WayStarts(types: Types, p: seq<Name>, owner: Name, current: Name, chain: set<Name>)
    requires Leads(types, p, owner, current, chain)
    ensures owner in types && types[owner].InputObject?
    ensures exists f :: f in types[owner].inputs && !Harmless(types, types[owner].inputs[f].ty, current, chain)
  {
    assert Refers(types, p[0], p[1]);
    if |p| > 2 { CutPath(types, p, owner, current, chain); }
    var f :| f in types[owner].inputs && RequiredName(types[owner].inputs[f].ty) == Some(p[1]);
    assert !Harmless(types, types[owner].inputs[f].ty, current, chain);
  }

  lemma NothingFound(types: Types, owner: Name, current: Name, chain: set<Name>)
    requires owner in types && types[owner].InputObject?
    requires forall f :: f in types[owner].inputs ==> Harmless(types, types[owner].inputs[f].ty, current, chain)
    ensures !CanLead(types, owner, current, chain)
  {
    if p :| Leads(types, p, owner, current, chain) {
      WayStarts(types, p, owner, current, chain);
    }
  }

  // ----- check_input_objects -----

  /** The conditions on a single input field. */
  predicate InputFieldOk(types: Types, oneof: bool, name: Name, f: InputField) {
    && !("__" <= name)
    && (f.ty.TypeName() in types ==> types[f.ty.TypeName()].IsInputType())
    && (oneof ==> f.ty.IsNullable() && !f.hasDefault)
  }

  predicate InputFieldsOk(types: Types, obj: Type)
    requires obj.InputObject?
  {
    forall f :: f in obj.inputs ==> InputFieldOk(types, obj.oneof, f, obj.inputs[f])
  }

  ghost predicate InputObjectsOk(types: Types) {
    forall n :: n in types && types[n].InputObject? ==> InputFieldsOk(types, types[n])
  }

  lemma CycleIsWayBack(types: Types, a: Name)
    ensures OnCycle(types, a) <==> CanLead(types, a, a, {})
  {
    if OnCycle(types, a) {
      var p :| IsPath(types, p) && p[0] == a && p[|p| - 1] == a;
      assert Leads(types, p, a, a, {});
    }
  }

  /** The pass accepts exactly the schemas whose input fields are well formed and whose
      required references between input objects form no cycle. */
  method CheckInputObjects(types: Types) returns (r: Option<SchemaError>)
    requires Keyed(types)
    ensures r.None? <==> InputObjectsOk(types) && Acyclic(types)
    ensures r.Some? && r.value.SelfReference? ==> OnCycle(types, r.value.name)
    ensures r.Some? && InputObjectsOk(types) ==> r.value.SelfReference?
  {
    var todo := types.Keys;
    while todo != {}
      invariant todo <= types.Keys
      invariant forall n :: n in types.Keys - todo && types[n].InputObject? ==>
        InputFieldsOk(types, types[n]) && !OnCycle(types, n)
      decreases todo
    {
      var n :| n in todo;
      todo := todo - {n};
      if types[n].InputObject? {
        if !InputFieldsOk(types, types[n]) {
          return Some(InvalidInputObject);
        }
        var chain := new RefChain();
        CycleIsWayBack(types, n);
        var ok := CheckReference(types, types[n].name, n, chain);
        if !ok {
          return Some(SelfReference(n));
        }
      }
    }
    forall a | a in types ensures !OnCycle(types, a) {
      if !types[a].InputObject? { NotInputNoCycle(types, a); }
    }
    return None;
  }

  lemma NotInputNoCycle(types: Types, a: Name)
    requires a in types && !types[a].InputObject?
    ensures !OnCycle(types, a)
  {
    if p :| IsPath(types, p) && p[0] == a && p[|p| - 1] == a {
      PathStartsAtInput(types, p);
    }
  }

  lemma PathStartsAtInput(types: Types, p: seq<Name>)
    requires IsPath(types, p)
    ensures p[0] in types && types[p[0]].InputObject?
  {
    assert Refers(types, p[0], p[1]);
  }

  // ----- Ranks -----

  ghost predicate LeadsTo(types: Types, a: Name, b: Name) {
    exists p :: IsPath(types, p) && p[0] == a && p[|p| - 1] == b
  }

  /** The input objects that required references can reach. */
  ghost function Reach(types: Types, a: Name): set<Name> {
    set b | b in types && LeadsTo(types, a, b)
  }

  lemma PrependReference(types: Types, a: Name, b: Name, c: Name)
    requires Refers(types, a, b) && LeadsTo(types, b, c)
    ensures LeadsTo(types, a, c)
  {
    var q :| IsPath(types, q) && q[0] == b && q[|q| - 1] == c;
    var p := [a] + q;
    forall i | 0 <= i < |p| - 1 ensures Refers(types, p[i], p[i + 1]) {
      if i > 0 { assert Refers(types, q[i - 1], q[i]); }
    }
    assert IsPath(types, p) && p[|p| - 1] == c;
  }

  /** An accepted schema has a rank that falls along every required reference, so a value
      of an input object never has to be infinite because of them. */
  lemma RankFalls(types: Types, a: Name, b: Name)
    requires Acyclic(types) && Refers(types, a, b) && b in types
    ensures |Reach(types, b)| < |Reach(types, a)|
  {
    var ra, rb := Reach(types, a), Reach(types, b);
    assert b in ra by { assert IsPath(types, [a, b]); }
    assert b !in rb by { assert !OnCycle(types, b); }
    forall c | c in rb ensures c in ra { PrependReference(types, a, b, c); }
    SubsetSize(rb, ra);
  }

  /** Conversely, any rank that falls along the references rules out cycles. */
  lemma {:induction false} RankAlongPath(types: Types, rank: Name -> nat, p: seq<Name>)
    requires IsPath(types, p)
    requires forall a, b :: Refers(types, a, b) ==> rank(b) < rank(a)
    ensures rank(p[|p| - 1]) < rank(p[0])
  {
    assert Refers(types, p[0], p[1]);
    if |p| > 2 {
      assert IsPath(types, p[1..]) by {
        forall i | 0 <= i < |p[1..]| - 1 ensures Refers(types, p[1..][i], p[1..][i + 1]) {
          assert Refers(types, p[i + 1], p[i + 2]);
        }
      }
      RankAlongPath(types, rank, p[1..]);
    }
  }
}
