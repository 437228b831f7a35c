/** The path of the value being resolved, kept as a linked list that grows at the leaf. */
module Paths {
  import opened Wrappers

  datatype Segment = Index(index: nat) | Key(name: string)

  datatype PathNode = PathNode(parent: Option<PathNode>, segment: Segment)

  /** The path from the root to the node. */
  function Segments(node: PathNode): seq<Segment> {
    (if node.parent.Some? then Segments(node.parent.value) else []) + [node.segment]
  }

  /** The path of a context; the context of an operation has none. */
  function PathOf(ctx: Option<PathNode>): seq<Segment> {
    if ctx.Some? then Segments(ctx.value) else []
  }

  function WithField(ctx: Option<PathNode>, key: string): (node: PathNode)
    ensures Segments(node) == PathOf(ctx) + [Key(key)]
  {
    PathNode(ctx, Key(key))
  }

  function WithIndex(ctx: Option<PathNode>, i: nat): (node: PathNode)
    ensures Segments(node) == PathOf(ctx) + [Index(i)]
  {
    PathNode(ctx, Index(i))
  }

  /** `for_each` with a closure that pushes: parents first. */
  method PushSegments(node: PathNode, path: seq<Segment>) returns (out: seq<Segment>)
    ensures out == path + Segments(node)
    decreases node
  {
    out := path;
    if node.parent.Some? {
      out := PushSegments(node.parent.value, out);
    }
    out := out + [node.segment];
  }

  /** The path that `set_error_path` stores in an error. */
  method ErrorPath(ctx: Option<PathNode>, existing: seq<Segment>) returns (path: seq<Segment>)
    ensures path == if ctx.Some? then PathOf(ctx) else existing
  {
    path := existing;
    if ctx.Some? {
      path := PushSegments(ctx.value, []);
    }
  }

  // ----- Walking towards the root -----

  function Ancestors(node: PathNode): seq<PathNode> {
    if node.parent.None? then [] else [node.parent.value] + Ancestors(node.parent.value)
  }

  /** The iterator over parents. */
  class Parents {
    var current: PathNode

    constructor (node: PathNode)
      ensures current == node
    {
      current := node;
    }

    method Next() returns (r: Option<PathNode>)
      modifies this
      ensures r.None? ==> Ancestors(old(current)) == [] && current == old(current)
      ensures r.Some? ==> Ancestors(old(current)) == [r.value] + Ancestors(current) && current == r.value
    {
      r := current.parent;
      if r.Some? {
        current := r.value;
      }
    }
  }

  /** The ancestors are the path read backwards from the parent. */
  lemma {:induction false} AncestorsReversePath(node: PathNode)
    ensures |Segments(node)| == |Ancestors(node)| + 1
    ensures forall i :: 0 <= i < |Ancestors(node)| ==>
      Ancestors(node)[i].segment == Segments(node)[|Ancestors(node)| - 1 - i]
    decreases node
  {
    if node.parent.Some? {
      AncestorsReversePath(node.parent.value);
    }
  }

  ghost predicate NearestKey(path: seq<Segment>, k: nat, name: string) {
    && k < |path| && path[k] == Key(name)
    && forall j :: k < j < |path| ==> path[j].Index?
  }

  /** `field_name`: the name nearest to the leaf. The search cannot fail on a path that
      starts with a field, as every path built by `WithField` and `WithIndex` does. */
  method FieldName(node: PathNode) returns (name: string)
    requires Segments(node)[0].Key?
    ensures exists k :: NearestKey(Segments(node), k, name)
  {
    var here := node;
    var parents := new Parents(node);
    ghost var all := Segments(node);
    while !here.segment.Key?
      invariant fresh(parents) && parents.current == here
      invariant Segments(here) <= all && Segments(here)[0].Key?
      invariant forall j :: |Segments(here)| <= j < |all| ==> all[j].Index?
      decreases here
    {
      assert here.parent.Some?;
      assert Segments(here.parent.value) == Segments(here)[..|Segments(here)| - 1];
      assert Ancestors(here)[0] == here.parent.value;
      var next := parents.Next();
      assert Ancestors(here)[0] == next.value;
      here := next.value;
    }
    name := here.segment.name;
    assert NearestKey(all, |Segments(here)| - 1, name);
  }
}
