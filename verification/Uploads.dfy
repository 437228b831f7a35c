/** Placing uploaded files into request variables: the walk along a dotted path, the nested
    in-place write of a marker, and the loop that matches files with the upload map. */
module Uploads {
  import opened Wrappers
  import opened Documents
  import opened Collections

  // ----- Decimal numbers -----

  function Digit(d: nat): char
    requires d < 10
  {
    '0' + d as char
  }

  function Decimal(n: nat): string {
    if n < 10 then [Digit(n)] else Decimal(n / 10) + [Digit(n % 10)]
  }

  predicate IsDigit(c: char) {
    '0' <= c <= '9'
  }

  function Digits(s: string): Option<nat> {
    if s == [] then Some(0)
    else
      var last := s[|s| - 1];
      var front := Digits(s[..|s| - 1]);
      if IsDigit(last) && front.Some? then Some(front.value * 10 + (last - '0') as nat) else None
  }

  /** `str::parse` for an unsigned type with the given largest value. */
  function Parse(s: string, max: nat): Option<nat> {
    var body := if s != [] && s[0] == '+' then s[1..] else s;
    var n := Digits(body);
    if body != [] && n.Some? && n.value <= max then n else None
  }

  const U32_MAX: nat := 0xFFFF_FFFF
  const USIZE_MAX: nat := 0xFFFF_FFFF_FFFF_FFFF

  lemma {:induction false} DigitsOfDecimal(n: nat)
    ensures Digits(Decimal(n)) == Some(n) && Decimal(n) != [] && IsDigit(Decimal(n)[0])
  {
    if n >= 10 {
      DigitsOfDecimal(n / 10);
      var s := Decimal(n);
      assert s[..|s| - 1] == Decimal(n / 10) && s[|s| - 1] == Digit(n % 10);
    } else {
      var s := Decimal(n);
      assert s[..|s| - 1] == [];
    }
  }

  // ----- Markers -----

  const PREFIX := "#__graphql_file__:"

  function Marker(n: nat): string {
    PREFIX + Decimal(n)
  }

  /** How the `Upload` input type reads a value back. */
  function ReadMarker(v: ConstValue): Option<nat> {
    if v.String? && PREFIX <= v.text then Parse(v.text[|PREFIX|..], USIZE_MAX) else None
  }

  lemma MarkerRoundTrip(n: nat)
    requires n <= USIZE_MAX
    ensures ReadMarker(String(Marker(n))) == Some(n)
  {
    DigitsOfDecimal(n);
    assert Marker(n)[|PREFIX|..] == Decimal(n);
  }

  // ----- Paths -----

  function Split(s: string): (parts: seq<string>)
    ensures parts != []
  {
    if s == [] then [[]]
    else
      var rest := Split(s[1..]);
      if s[0] == '.' then [[]] + rest else [[s[0]] + rest[0]] + rest[1..]
  }

  datatype Step = Element(index: nat) | Member(name: Name)

  predicate Fits(v: ConstValue, s: Step) {
    match s
    case Element(i) => v.List? && i < |v.elements|
    case Member(n) => v.Object? && n in v.members
  }

  function Inside(v: ConstValue, s: Step): ConstValue
    requires Fits(v, s)
  {
    match s
    case Element(i) => v.elements[i]
    case Member(n) => v.members[n]
  }

  /** The step that one part of a dotted path takes from a value. */
  function StepOf(v: ConstValue, part: string): Option<Step> {
    match v
    case List(elements) =>
      var i := Parse(part, U32_MAX);
      if i.Some? && i.value < |elements| then Some(Element(i.value)) else None
    case Object(members) => if part in members then Some(Member(part)) else None
    case _ => None
  }

  function Trace(v: ConstValue, parts: seq<string>): Option<seq<Step>> {
    if parts == [] then Some([])
    else
      var s := StepOf(v, parts[0]);
      if s.None? then None
      else
        var rest := Trace(Inside(v, s.value), parts[1..]);
        if rest.None? then None else Some([s.value] + rest.value)
  }

  function Get(v: ConstValue, steps: seq<Step>): Option<ConstValue>
    decreases steps
  {
    if steps == [] then Some(v)
    else if Fits(v, steps[0]) then Get(Inside(v, steps[0]), steps[1..])
    else None
  }

  /** Overwrite the value at the end of a path. */
  function Set(v: ConstValue, steps: seq<Step>, replacement: ConstValue): ConstValue
    requires Get(v, steps).Some?
    decreases steps
  {
    if steps == [] then replacement
    else
      var inner := Set(Inside(v, steps[0]), steps[1..], replacement);
      match steps[0]
      case Element(i) => List(v.elements[i := inner])
      case Member(n) => Object(v.members[n := inner])
  }

  lemma {:induction false} TraceResolves(v: ConstValue, parts: seq<string>)
    requires Trace(v, parts).Some?
    ensures Get(v, Trace(v, parts).value).Some? && |Trace(v, parts).value| == |parts|
    decreases parts
  {
    if parts != [] {
      TraceResolves(Inside(v, StepOf(v, parts[0]).value), parts[1..]);
      assert Trace(v, parts).value[1..] == Trace(Inside(v, StepOf(v, parts[0]).value), parts[1..]).value;
    }
  }

  /** The addressed value is the new one. */
  lemma {:induction false} SetThenGet(v: ConstValue, p: seq<Step>, replacement: ConstValue)
    requires Get(v, p).Some?
    ensures Get(Set(v, p, replacement), p) == Some(replacement)
    decreases p
  {
    if p != [] { SetThenGet(Inside(v, p[0]), p[1..], replacement); }
  }

  predicate Disjoint(p: seq<Step>, q: seq<Step>) {
    !(p <= q) && !(q <= p)
  }

  /** Every disjoint path reads as before. */
  lemma {:induction false} SetKeepsDisjoint(v: ConstValue, p: seq<Step>, q: seq<Step>, replacement: ConstValue)
    requires Get(v, p).Some? && Disjoint(p, q)
    ensures Get(Set(v, p, replacement), q) == Get(v, q)
    decreases p
  {
    if p[0] == q[0] {
      assert p == [p[0]] + p[1..] && q == [q[0]] + q[1..];
      SetKeepsDisjoint(Inside(v, p[0]), p[1..], q[1..], replacement);
    }
  }

  /** No path leads through a string. */
  lemma {:induction false} NoPathThroughString(v: ConstValue, p: seq<Step>, q: seq<Step>)
    requires Get(v, p).Some? && Get(v, p).value.String? && p < q
    ensures Get(v, q).None?
    decreases p
  {
    if p != [] {
      assert p[0] == q[0] && p[1..] < q[1..];
      if Fits(v, p[0]) { NoPathThroughString(Inside(v, p[0]), p[1..], q[1..]); }
    }
  }

  // ----- set_upload -----

  datatype RequestView<U> = RequestView(variables: Variables, uploads: seq<U>)

  /** Where a dotted path leads, if it leads anywhere. */
  function Target(variables: Variables, path: string): Option<seq<Step>> {
    if "variables." <= path then Trace(Object(variables), Split(path[|"variables."|..])) else None
  }

  function Placed<U>(r: RequestView<U>, path: string, upload: U): RequestView<U> {
    var target := Target(r.variables, path);
    if target.None? then r
    else
      TraceResolves(Object(r.variables), Split(path[|"variables."|..]));
      var after := Set(Object(r.variables), target.value, String(Marker(|r.uploads|)));
      RequestView(after.members, r.uploads + [upload])
  }

  class Request<U> {
    var variables: Variables
    var uploads: seq<U>

    ghost function View(): RequestView<U>
      reads this
    {
      RequestView(variables, uploads)
    }

    constructor (variables: Variables, uploads: seq<U>)
      ensures View() == RequestView(variables, uploads)
    {
      this.variables, this.uploads := variables, uploads;
    }

    /** The walk of `variable_path`, part by part. */
    method VariablePath(path: string) returns (target: Option<seq<Step>>)
      ensures target == Target(variables, path)
    {
      if !("variables." <= path) {
        return None;
      }
      var parts := Split(path[|"variables."|..]);
      var current := Object(variables);
      var steps := [];
      for i := 0 to |parts|
        invariant
          var whole, rest := Trace(Object(variables), parts), Trace(current, parts[i..]);
          && (whole.Some? <==> rest.Some?)
          && (whole.Some? ==> whole.value == steps + rest.value)
      {
        assert parts[i..][0] == parts[i] && parts[i..][1..] == parts[i + 1..];
        var s := StepOf(current, parts[i]);
        if s.None? {
          return None;
        }
        steps := steps + [s.value];
        current := Inside(current, s.value);
      }
      assert parts[|parts|..] == [] && steps + [] == steps;
      return Some(steps);
    }

    method SetUpload(path: string, upload: U)
      modifies this
      ensures View() == Placed(old(View()), path, upload)
    {
      var target := VariablePath(path);
      if target.None? {
        return;
      }
      TraceResolves(Object(variables), Split(path[|"variables."|..]));
      uploads := uploads + [upload];
      variables := Set(Object(variables), target.value, String(Marker(|uploads| - 1))).members;
    }
  }

  /** Uploads grow by one exactly when the path resolves; then the addressed value is the
      marker of the new upload and every disjoint path reads as before. */
  lemma PlacedFacts<U>(r: RequestView<U>, path: string, upload: U)
    ensures
      var r', target := Placed(r, path, upload), Target(r.variables, path);
      && (target.None? ==> r' == r)
      && (target.Some? ==>
            && r'.uploads == r.uploads + [upload]
            && Get(Object(r'.variables), target.value) == Some(String(Marker(|r.uploads|)))
            && forall q :: Disjoint(target.value, q) ==> Get(Object(r'.variables), q) == Get(Object(r.variables), q))
  {
    var target := Target(r.variables, path);
    if target.Some? {
      TraceResolves(Object(r.variables), Split(path[|"variables."|..]));
      var replacement := String(Marker(|r.uploads|));
      SetThenGet(Object(r.variables), target.value, replacement);
      assert Set(Object(r.variables), target.value, replacement).Object?;
      forall q | Disjoint(target.value, q)
        ensures Get(Set(Object(r.variables), target.value, replacement), q) == Get(Object(r.variables), q)
      {
        SetKeepsDisjoint(Object(r.variables), target.value, q, replacement);
      }
    }
  }

  // ----- Paths as text -----

  predicate Dotless(s: string) {
    forall i :: 0 <= i < |s| ==> s[i] != '.'
  }

  function StepText(s: Step): string {
    match s
    case Element(i) => Decimal(i)
    case Member(n) => n
  }

  /** The dotted text of a path. */
  function Spell(steps: seq<Step>): string
    requires steps != []
  {
    if |steps| == 1 then StepText(steps[0]) else StepText(steps[0]) + "." + Spell(steps[1..])
  }

  /** Names without a dot, and indices of at most 32 bits. */
  predicate Spellable(steps: seq<Step>) {
    forall k :: 0 <= k < |steps| ==>
      match steps[k]
      case Element(i) => i <= 4294967295
      case Member(n) => Dotless(n)
  }

  lemma {:induction false} DecimalDotless(n: nat)
    ensures Dotless(Decimal(n))
  {
    if n >= 10 { DecimalDotless(n / 10); }
  }

  lemma {:induction false} SplitFirst(part: string, rest: string)
    requires Dotless(part)
    ensures Split(part) == [part] && Split(part + "." + rest) == [part] + Split(rest)
  {
    var s := part + "." + rest;
    if part == [] {
      assert s[0] == '.' && s[1..] == rest;
    } else {
      assert s[0] == part[0] && s[1..] == part[1..] + "." + rest;
      SplitFirst(part[1..], rest);
      assert [part[0]] + part[1..] == part;
    }
  }

  lemma {:induction false} SplitSpell(steps: seq<Step>)
    requires steps != [] && Spellable(steps)
    ensures |Split(Spell(steps))| == |steps|
    ensures forall k :: 0 <= k < |steps| ==> Split(Spell(steps))[k] == StepText(steps[k])
    decreases steps
  {
    assert Dotless(StepText(steps[0])) by {
      match steps[0]
      case Element(i) => DecimalDotless(i);
      case Member(_) =>
    }
    if |steps| == 1 {
      SplitFirst(StepText(steps[0]), "");
    } else {
      SplitSpell(steps[1..]);
      SplitFirst(StepText(steps[0]), Spell(steps[1..]));
    }
  }

  lemma StepOfText(v: ConstValue, s: Step)
    requires Fits(v, s) && (s.Element? ==> s.index <= 4294967295)
    ensures StepOf(v, StepText(s)) == Some(s)
  {
    if s.Element? { DigitsOfDecimal(s.index); }
  }

  lemma {:induction false} TraceText(v: ConstValue, steps: seq<Step>, parts: seq<string>)
    requires |parts| == |steps| && Spellable(steps) && Get(v, steps).Some?
    requires forall k :: 0 <= k < |steps| ==> parts[k] == StepText(steps[k])
    ensures Trace(v, parts) == Some(steps)
    decreases steps
  {
    if steps != [] {
      var rest, more := steps[1..], parts[1..];
      StepOfText(v, steps[0]);
      assert forall k :: 0 <= k < |rest| ==> rest[k] == steps[k + 1] && more[k] == parts[k + 1];
      TraceText(Inside(v, steps[0]), rest, more);
      assert steps == [steps[0]] + rest;
    }
  }

  /** What steps read: the element with that index, the member with that name, one after the
      other. */
  lemma {:induction false} StepsRead(v: ConstValue, s: Step, rest: seq<Step>)
    ensures Get(v, []) == Some(v)
    ensures s.Element? && v.List? && s.index < |v.elements| ==> Get(v, [s] + rest) == Get(v.elements[s.index], rest)
    ensures s.Member? && v.Object? && s.name in v.members ==> Get(v, [s] + rest) == Get(v.members[s.name], rest)
    ensures !(s.Element? && v.List? && s.index < |v.elements|) && !(s.Member? && v.Object? && s.name in v.members) ==>
      Get(v, [s] + rest) == None
  {
    var steps := [s] + rest;
    assert steps[0] == s && steps[1..] == rest;
  }

  /** The text of an existing path leads exactly there. */
  lemma TargetOfText(variables: Variables, steps: seq<Step>)
    requires steps != [] && Spellable(steps) && Get(Object(variables), steps).Some?
    ensures Target(variables, "variables." + Spell(steps)) == Some(steps)
  {
    var path := "variables." + Spell(steps);
    assert path[|"variables."|..] == Spell(steps);
    SplitSpell(steps);
    TraceText(Object(variables), steps, Split(Spell(steps)));
  }

  /** The parts put together again with dots. */
  function Dotted(parts: seq<string>): string
    requires parts != []
  {
    if |parts| == 1 then parts[0] else parts[0] + "." + Dotted(parts[1..])
  }

  lemma {:induction false} SplitExact(s: string)
    ensures Dotted(Split(s)) == s && forall k :: 0 <= k < |Split(s)| ==> Dotless(Split(s)[k])
  {
    if s != [] {
      SplitExact(s[1..]);
      var rest := Split(s[1..]);
      if s[0] == '.' {
        assert ([[]] + rest)[1..] == rest;
        assert s == [] + "." + s[1..];
      } else {
        var parts := [[s[0]] + rest[0]] + rest[1..];
        assert parts[0] == [s[0]] + rest[0] && parts[1..] == rest[1..];
        assert s == [s[0]] + s[1..];
        assert Dotted(parts) == [s[0]] + Dotted(rest);
      }
    }
  }

  /** A step names the member that its part of the path names, or the element whose index
      the part gives. */
  predicate Says(part: string, s: Step) {
    match s
    case Member(n) => part == n
    case Element(i) => Parse(part, 4294967295) == Some(i)
  }

  lemma {:induction false} TraceSays(v: ConstValue, parts: seq<string>)
    requires Trace(v, parts).Some?
    ensures |Trace(v, parts).value| == |parts|
    ensures forall k :: 0 <= k < |parts| ==> Says(parts[k], Trace(v, parts).value[k])
    decreases parts
  {
    if parts != [] {
      var s := StepOf(v, parts[0]).value;
      TraceSays(Inside(v, s), parts[1..]);
      assert Says(parts[0], s);
    }
  }

  /** Conversely, a path leads somewhere only if it starts with `variables.`, and then step by
      step to what its parts say. */
  lemma TextOfTarget(variables: Variables, path: string) returns (parts: seq<string>)
    requires Target(variables, path).Some?
    ensures parts != [] && path == "variables." + Dotted(parts) && forall k :: 0 <= k < |parts| ==> Dotless(parts[k])
    ensures
      var steps := Target(variables, path).value;
      && Get(Object(variables), steps).Some? && |steps| == |parts|
      && forall k :: 0 <= k < |parts| ==> Says(parts[k], steps[k])
  {
    var text := path[|"variables."|..];
    parts := Split(text);
    SplitExact(text);
    TraceResolves(Object(variables), parts);
    TraceSays(Object(variables), parts);
  }

  /** So `set_upload` with the text of an existing path writes the marker there. */
  lemma PlacedAtText<U>(r: RequestView<U>, steps: seq<Step>, upload: U)
    requires steps != [] && Spellable(steps) && Get(Object(r.variables), steps).Some?
    ensures
      var r' := Placed(r, "variables." + Spell(steps), upload);
      && r'.uploads == r.uploads + [upload]
      && Get(Object(r'.variables), steps) == Some(String("#__graphql_file__:" + Decimal(|r.uploads|)))
  {
    TargetOfText(r.variables, steps);
    PlacedFacts(r, "variables." + Spell(steps), upload);
  }

  // ----- Runs of set_upload -----

  function PlaceAll<U>(r: RequestView<U>, calls: seq<(string, U)>): RequestView<U>
    decreases calls
  {
    if calls == [] then r else PlaceAll(Placed(r, calls[0].0, calls[0].1), calls[1..])
  }

  /** Some call of the run writes at `p` or above it. */
  ghost predicate Overwritten<U>(r: RequestView<U>, calls: seq<(string, U)>, p: seq<Step>)
    decreases calls
  {
    calls != [] &&
    var target := Target(r.variables, calls[0].0);
    (target.Some? && target.value <= p) || Overwritten(Placed(r, calls[0].0, calls[0].1), calls[1..], p)
  }

  /** Over any run, a marker that no later call overwrites still names its own upload. */
  lemma {:induction false} MarkersSurvive<U>(r: RequestView<U>, calls: seq<(string, U)>, p: seq<Step>, n: nat)
    requires Get(Object(r.variables), p) == Some(String(Marker(n))) && n < |r.uploads|
    ensures r.uploads <= PlaceAll(r, calls).uploads
    ensures !Overwritten(r, calls, p) ==>
      && Get(Object(PlaceAll(r, calls).variables), p) == Some(String(Marker(n)))
      && PlaceAll(r, calls).uploads[n] == r.uploads[n]
    decreases calls
  {
    if calls != [] {
      PlacedFacts(r, calls[0].0, calls[0].1);
      var r' := Placed(r, calls[0].0, calls[0].1);
      var target := Target(r.variables, calls[0].0);
      if target.Some? {
        TraceResolves(Object(r.variables), Split(calls[0].0[|"variables."|..]));
        if target.value <= p {
          UploadsGrow(r, calls);
        } else {
          if p <= target.value {
            NoPathThroughString(Object(r.variables), p, target.value);
          }
          assert Disjoint(target.value, p);
          MarkersSurvive(r', calls[1..], p, n);
        }
      } else {
        MarkersSurvive(r', calls[1..], p, n);
      }
    }
  }

  lemma {:induction false} UploadsGrow<U>(r: RequestView<U>, calls: seq<(string, U)>)
    ensures r.uploads <= PlaceAll(r, calls).uploads
    decreases calls
  {
    if calls != [] {
      UploadsGrow(Placed(r, calls[0].0, calls[0].1), calls[1..]);
    }
  }

  /** The whole story of one call in a run: if its path resolves and nothing overwrites the
      place afterwards, the value there reads back as the number of the upload it brought. */
  lemma UploadFound<U>(r: RequestView<U>, path: string, upload: U, later: seq<(string, U)>)
    requires Target(r.variables, path).Some? && |r.uploads| <= USIZE_MAX
    ensures
      var p, r1 := Target(r.variables, path).value, Placed(r, path, upload);
      var final := PlaceAll(r1, later);
      !Overwritten(r1, later, p) ==>
        && Get(Object(final.variables), p).Some?
        && ReadMarker(Get(Object(final.variables), p).value) == Some(|r.uploads|)
        && |r.uploads| < |final.uploads| && final.uploads[|r.uploads|] == upload
  {
    PlacedFacts(r, path, upload);
    MarkerRoundTrip(|r.uploads|);
    MarkersSurvive(Placed(r, path, upload), later, Target(r.variables, path).value, |r.uploads|);
  }

  // ----- The file loop of receive_batch_multipart -----

  datatype BatchRequest<U> = Single(request: RequestView<U>) | Batch(requests: seq<RequestView<U>>)

  datatype File<U> = File(name: string, upload: U)

  /** The part before the first dot, and the rest if there is a dot. */
  function SplitOnce(s: string): (string, Option<string>) {
    if s == [] then ([], None)
    else if s[0] == '.' then ([], Some(s[1..]))
    else var (head, tail) := SplitOnce(s[1..]); ([s[0]] + head, tail)
  }

  /** One path of the upload map, applied to a single request or to a numbered one. */
  function PlaceIn<U>(b: BatchRequest<U>, path: string, upload: U): BatchRequest<U> {
    match b
    case Single(r) => BatchRequest.Single(Placed(r, path, upload))
    case Batch(rs) =>
      var (head, tail) := SplitOnce(path);
      var i := Parse(head, USIZE_MAX);
      if i.Some? && tail.Some? && i.value < |rs| then Batch(rs[i.value := Placed(rs[i.value], tail.value, upload)]) else b
  }

  function PlaceEach<U>(b: BatchRequest<U>, calls: seq<(string, U)>): BatchRequest<U>
    decreases calls
  {
    if calls == [] then b else PlaceEach(PlaceIn(b, calls[0].0, calls[0].1), calls[1..])
  }

  function Pair<U>(paths: seq<string>, upload: U): seq<(string, U)> {
    seq(|paths|, i requires 0 <= i < |paths| => (paths[i], upload))
  }

  /** All placements, in order: the first file of each mapped name claims its paths. */
  function Placements<U>(files: seq<File<U>>, paths: map<string, seq<string>>): seq<(string, U)>
    decreases files
  {
    if files == [] then []
    else
      (if files[0].name in paths then Pair(paths[files[0].name], files[0].upload) else [])
      + Placements(files[1..], paths - {files[0].name})
  }

  lemma {:induction false} PlaceEachConcat<U>(b: BatchRequest<U>, x: seq<(string, U)>, y: seq<(string, U)>)
    ensures PlaceEach(b, x + y) == PlaceEach(PlaceEach(b, x), y)
    decreases x
  {
    if x == [] {
      assert x + y == y;
    } else {
      assert (x + y)[0] == x[0] && (x + y)[1..] == x[1..] + y;
      PlaceEachConcat(PlaceIn(b, x[0].0, x[0].1), x[1..], y);
    }
  }

  /** File `j` claims its paths: it is the first of a mapped name. */
  predicate Claims<U>(files: seq<File<U>>, paths: map<string, seq<string>>, j: nat) {
    j < |files| && files[j].name in paths && forall l :: 0 <= l < j ==> files[l].name != files[j].name
  }

  /** The placements of the first `n` files, file by file. */
  function ClaimedBy<U>(files: seq<File<U>>, paths: map<string, seq<string>>, n: nat): seq<(string, U)>
    requires n <= |files|
  {
    if n == 0 then []
    else
      ClaimedBy(files, paths, n - 1)
      + (if Claims(files, paths, n - 1) then Pair(paths[files[n - 1].name], files[n - 1].upload) else [])
  }

  lemma ClaimsIffLeft<U>(files: seq<File<U>>, paths: map<string, seq<string>>, i: nat)
    requires i < |files|
    ensures files[i].name in paths - Names(files[..i]) <==> Claims(files, paths, i)
  {
    NamesAre(files[..i]);
    if files[i].name in Names(files[..i]) {
      var l :| 0 <= l < |files[..i]| && files[..i][l].name == files[i].name;
      assert files[l].name == files[i].name;
    } else {
      forall l | 0 <= l < i ensures files[l].name != files[i].name { assert files[l] == files[..i][l]; }
    }
  }

  lemma {:induction false} PlacementsFrom<U>(files: seq<File<U>>, paths: map<string, seq<string>>, i: nat)
    requires i <= |files|
    ensures ClaimedBy(files, paths, i) + Placements(files[i..], paths - Names(files[..i])) == ClaimedBy(files, paths, |files|)
    decreases |files| - i
  {
    var left := paths - Names(files[..i]);
    if i == |files| {
      assert files[i..] == [];
    } else {
      NamesSnoc(files, i);
      ClaimsIffLeft(files, paths, i);
      PlacementsFrom(files, paths, i + 1);
      var rest := left - {files[i].name};
      assert rest == paths - Names(files[..i + 1]);
      assert files[i..][0] == files[i] && files[i..][1..] == files[i + 1..];
      var own := if files[i].name in left then Pair(left[files[i].name], files[i].upload) else [];
      Regroup(ClaimedBy(files, paths, i), own, Placements(files[i + 1..], rest));
    }
  }

  lemma {:induction false} NamesAre<U>(files: seq<File<U>>)
    ensures forall n :: n in Names(files) <==> exists l :: 0 <= l < |files| && files[l].name == n
  {
    if files != [] {
      var init := files[..|files| - 1];
      NamesAre(init);
      forall n ensures n in Names(files) <==> exists l :: 0 <= l < |files| && files[l].name == n {
        if n in Names(init) {
          var l :| 0 <= l < |init| && init[l].name == n;
          assert files[l].name == n;
        } else if n == files[|files| - 1].name {
          assert files[|files| - 1].name == n;
        }
        if l :| 0 <= l < |files| && files[l].name == n {
          if l < |files| - 1 { assert init[l].name == n; }
        }
      }
    }
  }

  /** The placements are those of the files that claim their paths, in the order of the files
      and of their paths, and nothing else; a second file of a name places nothing. */
  lemma PlacementsExact<U>(files: seq<File<U>>, paths: map<string, seq<string>>)
    ensures Placements(files, paths) == ClaimedBy(files, paths, |files|)
  {
    assert files[..0] == [] && files[0..] == files && paths - {} == paths;
    PlacementsFrom(files, paths, 0);
  }

  // ----- What the file loop leaves in each request -----

  function Parts<U>(b: BatchRequest<U>): seq<RequestView<U>> {
    match b
    case Single(r) => [r]
    case Batch(rs) => rs
  }

  /** The request that a path of the upload map addresses, and the path inside it. */
  function Routed<U>(b: BatchRequest<U>, path: string): Option<(nat, string)> {
    match b
    case Single(_) => Some((0, path))
    case Batch(rs) =>
      var (head, tail) := SplitOnce(path);
      var i := Parse(head, USIZE_MAX);
      if i.Some? && tail.Some? && i.value < |rs| then Some((i.value, tail.value)) else None
  }

  lemma {:induction false} SplitOnceText(head: string, tail: string)
    requires Dotless(head)
    ensures SplitOnce(head + "." + tail) == (head, Some(tail)) && SplitOnce(head) == (head, None)
  {
    var s := head + "." + tail;
    if head == [] {
      assert s[0] == '.' && s[1..] == tail;
    } else {
      assert s[0] == head[0] && s[1..] == head[1..] + "." + tail;
      SplitOnceText(head[1..], tail);
      assert [head[0]] + head[1..] == head;
    }
  }

  lemma {:induction false} SplitOnceExact(s: string)
    ensures
      var parts := SplitOnce(s);
      Dotless(parts.0) && s == if parts.1.Some? then parts.0 + "." + parts.1.value else parts.0
  {
    if s != [] && s[0] != '.' { SplitOnceExact(s[1..]); }
  }

  /** The path of a batch addresses the request whose number it starts with, and in it the
      rest of the path; a single request takes the whole path. */
  lemma RoutedText<U>(b: BatchRequest<U>, i: nat, path: string)
    requires i < |Parts(b)| && i <= USIZE_MAX
    ensures b.Batch? ==> Routed(b, Decimal(i) + "." + path) == Some((i, path))
    ensures b.Single? ==> Routed(b, path) == Some((0, path))
  {
    DecimalDotless(i);
    DigitsOfDecimal(i);
    SplitOnceText(Decimal(i), path);
  }

  lemma TextOfRouted<U>(b: BatchRequest<U>, path: string) returns (head: string)
    requires b.Batch? && Routed(b, path).Some?
    ensures
      var to := Routed(b, path).value;
      path == head + "." + to.1 && Dotless(head) && Parse(head, USIZE_MAX) == Some(to.0) && to.0 < |b.requests|
  {
    SplitOnceExact(path);
    head := SplitOnce(path).0;
  }

  /** What a call means for request `i`. */
  function Own<U>(b: BatchRequest<U>, call: (string, U), i: nat): seq<(string, U)> {
    var to := Routed(b, call.0);
    if to.Some? && to.value.0 == i then [(to.value.1, call.1)] else []
  }

  /** The calls that reach request `i`. */
  function CallsFor<U>(b: BatchRequest<U>, calls: seq<(string, U)>, i: nat): seq<(string, U)>
    decreases calls
  {
    if calls == [] then []
    else Own(b, calls[0], i) + CallsFor(b, calls[1..], i)
  }

  ghost predicate SameForm<U>(a: BatchRequest<U>, b: BatchRequest<U>) {
    (a.Single? <==> b.Single?) && |Parts(a)| == |Parts(b)|
  }

  lemma {:induction false} CallsForSameForm<U>(a: BatchRequest<U>, b: BatchRequest<U>, calls: seq<(string, U)>, i: nat)
    requires SameForm(a, b)
    ensures CallsFor(a, calls, i) == CallsFor(b, calls, i)
    decreases calls
  {
    if calls != [] { CallsForSameForm(a, b, calls[1..], i); }
  }

  /** Placing into a batch is placing into each of its requests the calls that reach it, in
      order; for a single request these are all the calls. */
  lemma {:induction false} PlaceEachParts<U>(b: BatchRequest<U>, calls: seq<(string, U)>, i: nat)
    requires i < |Parts(b)|
    ensures SameForm(b, PlaceEach(b, calls))
    ensures Parts(PlaceEach(b, calls))[i] == PlaceAll(Parts(b)[i], CallsFor(b, calls, i))
    ensures b.Single? ==> CallsFor(b, calls, i) == calls
    decreases calls
  {
    if calls != [] {
      var next := PlaceIn(b, calls[0].0, calls[0].1);
      PlaceEachParts(next, calls[1..], i);
      CallsForSameForm(b, next, calls[1..], i);
      var to := Routed(b, calls[0].0);
      var own, rest := CallsFor(b, calls, i), CallsFor(b, calls[1..], i);
      if to.Some? && to.value.0 == i {
        assert own[0] == (to.value.1, calls[0].1) && own[1..] == rest;
        assert Parts(next)[i] == Placed(Parts(b)[i], own[0].0, own[0].1);
      } else {
        assert own == rest && Parts(next)[i] == Parts(b)[i];
      }
    }
  }

  lemma {:induction false} CallsForConcat<U>(b: BatchRequest<U>, x: seq<(string, U)>, y: seq<(string, U)>, i: nat)
    ensures CallsFor(b, x + y, i) == CallsFor(b, x, i) + CallsFor(b, y, i)
    decreases x
  {
    var xy := x + y;
    if x == [] {
      assert xy == y;
    } else {
      assert xy[0] == x[0] && xy[1..] == x[1..] + y;
      CallsForConcat(b, x[1..], y, i);
      Regroup(Own(b, x[0], i), CallsFor(b, x[1..], i), CallsFor(b, y, i));
    }
  }

  lemma {:induction false} PlaceAllConcat<U>(r: RequestView<U>, x: seq<(string, U)>, y: seq<(string, U)>)
    ensures PlaceAll(r, x + y) == PlaceAll(PlaceAll(r, x), y)
    decreases x
  {
    if x == [] {
      assert x + y == y;
    } else {
      assert (x + y)[0] == x[0] && (x + y)[1..] == x[1..] + y;
      PlaceAllConcat(Placed(r, x[0].0, x[0].1), x[1..], y);
    }
  }

  /** If call `m` of a run finds its place and no later call writes at or above it, the value
      there reads back, at the end, as the number of the upload that the call brought. */
  ghost predicate ReadsBack<U>(r: RequestView<U>, calls: seq<(string, U)>, m: nat)
    requires m < |calls|
  {
    var before, final := PlaceAll(r, calls[..m]), PlaceAll(r, calls);
    var target, n := Target(before.variables, calls[m].0), |before.uploads|;
    target.Some? && n <= USIZE_MAX
    && !Overwritten(Placed(before, calls[m].0, calls[m].1), calls[m + 1..], target.value) ==>
      && Get(Object(final.variables), target.value).Some?
      && ReadMarker(Get(Object(final.variables), target.value).value) == Some(n)
      && n < |final.uploads| && final.uploads[n] == calls[m].1
  }

  lemma CallReadsBack<U>(r: RequestView<U>, calls: seq<(string, U)>, m: nat)
    requires m < |calls|
    ensures ReadsBack(r, calls, m)
  {
    var before := PlaceAll(r, calls[..m]);
    assert calls == calls[..m] + calls[m..];
    PlaceAllConcat(r, calls[..m], calls[m..]);
    assert calls[m..][0] == calls[m] && calls[m..][1..] == calls[m + 1..];
    if Target(before.variables, calls[m].0).Some? && |before.uploads| <= USIZE_MAX {
      UploadFound(before, calls[m].0, calls[m].1, calls[m + 1..]);
    }
  }

  /** Every path that the map lists for a file is placed with that file, if it is the first
      of its name. */
  lemma {:induction false} FileIsPlaced<U>(files: seq<File<U>>, paths: map<string, seq<string>>, j: nat, x: nat)
      returns (k: nat)
    requires j < |files| && files[j].name in paths && x < |paths[files[j].name]|
    requires forall l :: 0 <= l < j ==> files[l].name != files[j].name
    ensures k < |Placements(files, paths)|
    ensures Placements(files, paths)[k] == (paths[files[j].name][x], files[j].upload)
    decreases files
  {
    if j == 0 {
      k := x;
    } else {
      var own := if files[0].name in paths then Pair(paths[files[0].name], files[0].upload) else [];
      var rest := FileIsPlaced(files[1..], paths - {files[0].name}, j - 1, x);
      k := |own| + rest;
    }
  }

  lemma OwnCall<U>(b: BatchRequest<U>, calls: seq<(string, U)>, k: nat, i: nat)
    requires k < |calls| && Routed(b, calls[k].0).Some? && Routed(b, calls[k].0).value.0 == i
    ensures
      var m := |CallsFor(b, calls[..k], i)|;
      m < |CallsFor(b, calls, i)| && CallsFor(b, calls, i)[m] == (Routed(b, calls[k].0).value.1, calls[k].1)
  {
    assert calls == calls[..k] + calls[k..] && calls[k..][0] == calls[k];
    CallsForConcat(b, calls[..k], calls[k..], i);
  }

  /** After the file loop, each mapped path that addresses a request of the batch, resolves
      there and is not written over reads back as the number of its own file. */
  lemma MappedFileReadsBack<U>(b: BatchRequest<U>, files: seq<File<U>>, paths: map<string, seq<string>>,
                                     j: nat, x: nat) returns (m: nat)
    requires j < |files| && files[j].name in paths && x < |paths[files[j].name]|
    requires forall l :: 0 <= l < j ==> files[l].name != files[j].name
    requires Routed(b, paths[files[j].name][x]).Some?
    ensures
      var calls, to := Placements(files, paths), Routed(b, paths[files[j].name][x]).value;
      var own := CallsFor(b, calls, to.0);
      && to.0 < |Parts(b)| && |Parts(PlaceEach(b, calls))| == |Parts(b)|
      && Parts(PlaceEach(b, calls))[to.0] == PlaceAll(Parts(b)[to.0], own)
      && m < |own| && own[m] == (to.1, files[j].upload)
      && ReadsBack(Parts(b)[to.0], own, m)
  {
    var calls, to := Placements(files, paths), Routed(b, paths[files[j].name][x]).value;
    var own := CallsFor(b, calls, to.0);
    var k := FileIsPlaced(files, paths, j, x);
    m := |CallsFor(b, calls[..k], to.0)|;
    PlaceEachParts(b, calls, to.0);
    OwnCall(b, calls, k, to.0);
    CallReadsBack(Parts(b)[to.0], own, m);
  }

  function Names<U>(files: seq<File<U>>): set<string> {
    if files == [] then {} else Names(files[..|files| - 1]) + {files[|files| - 1].name}
  }

  lemma NamesSnoc<U>(files: seq<File<U>>, i: nat)
    requires i < |files|
    ensures Names(files[..i + 1]) == Names(files[..i]) + {files[i].name}
  {
    assert files[..i + 1][..i] == files[..i];
  }

  /** The request after all placements, or `MissingFiles` (here `None`), which is reported
      exactly when some mapped name has no file. */
  method MatchFiles<U>(request: BatchRequest<U>, files: seq<File<U>>, paths: map<string, seq<string>>)
      returns (r: Option<BatchRequest<U>>)
    ensures r.None? <==> !(paths.Keys <= Names(files))
    ensures r.Some? ==> r.value == PlaceEach(request, Placements(files, paths))
  {
    var b, left := ApplyFiles(request, files, paths);
    if |left.Keys| != 0 {
      return None;
    }
    return Some(b);
  }

  /** The loop over the files; `left` are the map entries that no file has claimed. */
  method ApplyFiles<U>(request: BatchRequest<U>, files: seq<File<U>>, paths: map<string, seq<string>>)
      returns (b: BatchRequest<U>, left: map<string, seq<string>>)
    ensures left.Keys == paths.Keys - Names(files)
    ensures b == PlaceEach(request, Placements(files, paths))
  {
    b, left := request, paths;
    ghost var goal := PlaceEach(request, Placements(files, paths));
    assert files[0..] == files && files[..0] == [];
    for i := 0 to |files|
      invariant left.Keys == paths.Keys - Names(files[..i])
      invariant PlaceEach(b, Placements(files[i..], left)) == goal
    {
      NamesSnoc(files, i);
      OneFile(b, files, i, left);
      if files[i].name in left {
        b := PlaceFile(b, left[files[i].name], files[i].upload);
      }
      left := left - {files[i].name};
    }
    assert files[..|files|] == files && files[|files|..] == [];
  }

  lemma OneFile<U>(b: BatchRequest<U>, files: seq<File<U>>, i: nat, left: map<string, seq<string>>)
    requires i < |files|
    ensures PlaceEach(b, Placements(files[i..], left)) ==
      PlaceEach(if files[i].name in left then PlaceEach(b, Pair(left[files[i].name], files[i].upload)) else b,
                Placements(files[i + 1..], left - {files[i].name}))
  {
    assert files[i..][0] == files[i] && files[i..][1..] == files[i + 1..];
    var rest := Placements(files[i + 1..], left - {files[i].name});
    if files[i].name in left {
      PlaceEachConcat(b, Pair(left[files[i].name], files[i].upload), rest);
    } else {
      assert [] + rest == rest;
    }
  }

  method PlaceFile<U>(b: BatchRequest<U>, paths: seq<string>, upload: U) returns (out: BatchRequest<U>)
    ensures out == PlaceEach(b, Pair(paths, upload))
  {
    out := b;
    ghost var all := Pair(paths, upload);
    assert all[0..] == all;
    for i := 0 to |paths|
      invariant PlaceEach(out, all[i..]) == PlaceEach(b, all)
    {
      assert all[i..][0] == (paths[i], upload) && all[i..][1..] == all[i + 1..];
      out := PlaceIn(out, paths[i], upload);
    }
    assert all[|paths|..] == [];
  }
}
