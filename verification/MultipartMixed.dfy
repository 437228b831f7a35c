/** The `multipart/mixed` response stream, and a reader for multipart bodies (section 5.1.1
    of RFC 2046: delimiters are whole lines) that takes it apart again. Bytes are modelled
    as characters. */
module MultipartMixed {
  import opened Wrappers
  import opened Collections

  const CRLF := "\r\n"
  const DELIMITER := "--graphql"
  const TERMINATOR := "--graphql--"
  const CONTENT_TYPE := "Content-Type: application/json"
  const EMPTY_JSON := "{}"

  const PART_HEADER := DELIMITER + CRLF + CONTENT_TYPE + CRLF + CRLF
  const EOF := TERMINATOR + CRLF
  const HEARTBEAT := EMPTY_JSON + CRLF

  /** What the select loop can observe: a response, with its JSON text if it serializes, or
      the heartbeat timer. The input ends after the last event. */
  datatype Event = Response(json: Option<string>) | Heartbeat

  function Flat(chunks: seq<string>): string {
    if chunks == [] then [] else chunks[0] + Flat(chunks[1..])
  }

  /** The chunks that one event yields. */
  function Chunks(e: Event): seq<string> {
    match e
    case Response(Some(json)) => [PART_HEADER, json, CRLF]
    case Response(None) => []
    case Heartbeat => [PART_HEADER, HEARTBEAT]
  }

  function Emitted(events: seq<Event>): string {
    if events == [] then EOF else Flat(Chunks(events[0])) + Emitted(events[1..])
  }

  /** The generator: one pass over the events, yielding chunks. */
  method MixedStream(events: seq<Event>) returns (chunks: seq<string>)
    ensures Flat(chunks) == Emitted(events)
  {
    chunks := [];
    assert events[0..] == events;
    for i := 0 to |events|
      invariant Flat(chunks) + Emitted(events[i..]) == Emitted(events)
    {
      assert events[i..][0] == events[i] && events[i..][1..] == events[i + 1..];
      ghost var before := chunks;
      match events[i] {
        case Response(json) =>
          if json.Some? {
            chunks := chunks + [PART_HEADER, json.value, CRLF];
          }
        case Heartbeat =>
          chunks := chunks + [PART_HEADER, HEARTBEAT];
      }
      assert chunks == before + Chunks(events[i]);
      FlatConcat(before, Chunks(events[i]));
      Regroup(Flat(before), Flat(Chunks(events[i])), Emitted(events[i + 1..]));
    }
    assert events[|events|..] == [];
    FlatConcat(chunks, [EOF]);
    FlatOne(EOF);
    chunks := chunks + [EOF];
  }

  lemma FlatOne(c: string)
    ensures Flat([c]) == c
  {
    assert [c][1..] == [];
    assert c + [] == c;
  }

  lemma {:induction false} FlatConcat(a: seq<string>, b: seq<string>)
    ensures Flat(a + b) == Flat(a) + Flat(b)
  {
    var ab := a + b;
    if a == [] {
      assert ab == b;
    } else {
      assert ab[0] == a[0] && ab[1..] == a[1..] + b;
      FlatConcat(a[1..], b);
      Regroup(a[0], Flat(a[1..]), Flat(b));
    }
  }

  // ----- Reading a multipart body -----

  function Lines(s: string): (lines: seq<string>)
    ensures lines != []
  {
    if s == [] then [[]]
    else if CRLF <= s then [[]] + Lines(s[2..])
    else var rest := Lines(s[1..]); [[s[0]] + rest[0]] + rest[1..]
  }

  predicate IsDelimiter(line: string) {
    line == DELIMITER || line == TERMINATOR
  }

  /** The lines after the header block. */
  function AfterHeaders(lines: seq<string>): (rest: seq<string>)
    ensures |rest| <= |lines|
  {
    if lines == [] then [] else if lines[0] == "" then lines[1..] else AfterHeaders(lines[1..])
  }

  /** The content lines of a part: everything up to the next delimiter. */
  function Content(lines: seq<string>): (c: seq<string>)
    ensures |c| <= |lines|
  {
    if lines == [] || IsDelimiter(lines[0]) then [] else [lines[0]] + Content(lines[1..])
  }

  function Joined(lines: seq<string>): string {
    if lines == [] then [] else if |lines| == 1 then lines[0] else lines[0] + CRLF + Joined(lines[1..])
  }

  /** The parts of a body that ends with one terminator and nothing after it. */
  function Parts(lines: seq<string>): Option<seq<string>>
    decreases |lines|
  {
    if lines == [TERMINATOR, ""] then Some([])
    else if lines != [] && lines[0] == DELIMITER then
      var after := AfterHeaders(lines[1..]);
      var content := Content(after);
      var rest := Parts(after[|content|..]);
      if rest.Some? then Some([Joined(content)] + rest.value) else None
    else None
  }

  function Decode(body: string): Option<seq<string>> {
    Parts(Lines(body))
  }

  // ----- Round trip -----

  /** JSON text of a response: an object with at least one member, without a raw CR. */
  predicate IsJson(json: string) {
    |json| > 2 && json[0] == '{' && NoReturn(json)
  }

  ghost predicate Serializable(events: seq<Event>) {
    forall i :: 0 <= i < |events| ==> (events[i].Response? && events[i].json.Some? ==> IsJson(events[i].json.value))
  }

  function AllParts(events: seq<Event>): seq<string> {
    if events == [] then []
    else
      (match events[0]
       case Response(Some(json)) => [json]
       case Response(None) => []
       case Heartbeat => [EMPTY_JSON])
      + AllParts(events[1..])
  }

  /** The responses that could be serialized, in order. */
  function Responses(events: seq<Event>): seq<string> {
    if events == [] then []
    else (if events[0].Response? && events[0].json.Some? then [events[0].json.value] else []) + Responses(events[1..])
  }

  function WithoutHeartbeats(parts: seq<string>): seq<string> {
    if parts == [] then []
    else (if parts[0] == EMPTY_JSON then [] else [parts[0]]) + WithoutHeartbeats(parts[1..])
  }

  predicate NoReturn(line: string) {
    forall i :: 0 <= i < |line| ==> line[i] != '\r'
  }

  lemma {:induction false} LineOf(line: string, rest: string)
    requires NoReturn(line)
    ensures Lines(line + CRLF + rest) == [line] + Lines(rest)
  {
    var s := line + CRLF + rest;
    if line == [] {
      assert s[..2] == CRLF && s[2..] == rest;
    } else {
      assert s[0] == line[0] && s[1..] == line[1..] + CRLF + rest;
      assert CRLF[0] == '\r';
      LineOf(line[1..], rest);
      var below := Lines(s[1..]);
      assert below[0] == line[1..] && below[1..] == Lines(rest);
      assert [line[0]] + line[1..] == line;
    }
  }

  lemma FixedLines()
    ensures NoReturn(DELIMITER) && NoReturn(TERMINATOR) && NoReturn(CONTENT_TYPE) && NoReturn("")
    ensures NoReturn(EMPTY_JSON) && EMPTY_JSON[0] == '{'
    ensures CONTENT_TYPE != "" && DELIMITER[0] == '-' && TERMINATOR[0] == '-'
  {
  }

  lemma PartLines(body: string, rest: string)
    requires NoReturn(body)
    ensures Lines(PART_HEADER + body + CRLF + rest) == [DELIMITER, CONTENT_TYPE, "", body] + Lines(rest)
  {
    FixedLines();
    PartText(DELIMITER, CONTENT_TYPE, body, CRLF, rest);
    var s3 := body + CRLF + rest;
    var s2 := "" + CRLF + s3;
    var s1 := CONTENT_TYPE + CRLF + s2;
    LineOf(body, rest);
    LineOf("", s3);
    LineOf(CONTENT_TYPE, s2);
    LineOf(DELIMITER, s1);
  }

  lemma PartText(d: string, c: string, body: string, nl: string, rest: string)
    ensures (d + nl + c + nl + nl) + body + nl + rest == d + nl + (c + nl + ("" + nl + (body + nl + rest)))
  {
  }

  /** Reading one emitted part and going on after it. */
  lemma PartDecodes(body: string, rest: string)
    requires body != "" && body[0] == '{' && NoReturn(body)
    requires IsDelimiter(Lines(rest)[0])
    ensures Decode(PART_HEADER + body + CRLF + rest) ==
      if Decode(rest).Some? then Some([body] + Decode(rest).value) else None
  {
    PartLines(body, rest);
    PartOfLines(body, Lines(rest));
  }

  lemma PartOfLines(body: string, more: seq<string>)
    requires body != "" && body[0] == '{'
    requires more != [] && IsDelimiter(more[0])
    ensures Parts([DELIMITER, CONTENT_TYPE, "", body] + more) ==
      if Parts(more).Some? then Some([body] + Parts(more).value) else None
  {
    FixedLines();
    var lines := [DELIMITER, CONTENT_TYPE, "", body] + more;
    var after := [body] + more;
    var l1, l2 := lines[1..], lines[2..];
    assert l1[0] == CONTENT_TYPE && l1[1..] == l2;
    assert l2[0] == "" && l2[1..] == after;
    assert AfterHeaders(l2) == after;
    assert AfterHeaders(l1) == after;
    assert after[0] == body && after[1..] == more;
    assert !IsDelimiter(body);
    assert Content(more) == [];
    assert Content(after) == [body] + Content(more) == [body];
    assert after[|Content(after)|..] == more;
    assert lines != [TERMINATOR, ""] && lines[0] == DELIMITER;
    assert Joined([body]) == body;
  }

  lemma EofDecodes()
    ensures Lines(EOF) == [TERMINATOR, ""] && Decode(EOF) == Some([])
  {
    FixedLines();
    LineOf(TERMINATOR, "");
    assert EOF == TERMINATOR + CRLF + "";
    assert Lines("") == [""];
  }

  /** The text of the first event, in front of the rest. */
  lemma EventText(events: seq<Event>)
    requires events != []
    ensures
      var rest := Emitted(events[1..]);
      Emitted(events) ==
        match events[0]
        case Response(Some(json)) => PART_HEADER + json + CRLF + rest
        case Response(None) => rest
        case Heartbeat => PART_HEADER + EMPTY_JSON + CRLF + rest
  {
    var rest := Emitted(events[1..]);
    match events[0]
    case Response(Some(json)) =>
      FlatThree(PART_HEADER, json, CRLF);
      assert Emitted(events) == Flat(Chunks(events[0])) + rest;
    case Response(None) =>
      assert Flat(Chunks(events[0])) + rest == rest;
    case Heartbeat =>
      FlatThree(PART_HEADER, EMPTY_JSON, CRLF);
      FlatTwo(PART_HEADER, EMPTY_JSON, CRLF);
      assert Emitted(events) == Flat(Chunks(events[0])) + rest;
  }

  lemma FlatTwo(a: string, b: string, c: string)
    ensures Flat([a, b + c]) == a + b + c
  {
    assert [a, b + c][1..] == [b + c];
    FlatOne(b + c);
    Regroup(a, b, c);
  }

  lemma FlatThree(a: string, b: string, c: string)
    ensures Flat([a, b, c]) == a + b + c
  {
    assert [a, b, c][1..] == [b, c] && [b, c][1..] == [c];
    FlatOne(c);
    Regroup(a, b, c);
  }

  lemma {:induction false} StartsWithDelimiter(events: seq<Event>)
    requires Serializable(events)
    ensures IsDelimiter(Lines(Emitted(events))[0])
  {
    if events == [] {
      EofDecodes();
    } else {
      EventText(events);
      FixedLines();
      StartsWithDelimiter(events[1..]);
      match events[0]
      case Response(Some(json)) => PartLines(json, Emitted(events[1..]));
      case Response(None) =>
      case Heartbeat => PartLines(EMPTY_JSON, Emitted(events[1..]));
    }
  }

  /** Framing loses nothing: for every interleaving of responses and heartbeats, reading the
      emitted bytes gives back every part in order. */
  lemma {:induction false} FramingRoundTrip(events: seq<Event>)
    requires Serializable(events)
    ensures Decode(Emitted(events)) == Some(AllParts(events))
  {
    if events == [] {
      EofDecodes();
    } else {
      EventText(events);
      FixedLines();
      FramingRoundTrip(events[1..]);
      StartsWithDelimiter(events[1..]);
      match events[0]
      case Response(Some(json)) => PartDecodes(json, Emitted(events[1..]));
      case Response(None) => assert AllParts(events) == AllParts(events[1..]);
      case Heartbeat => PartDecodes(EMPTY_JSON, Emitted(events[1..]));
    }
  }

  lemma {:induction false} HeartbeatsRemoved(events: seq<Event>)
    requires Serializable(events)
    ensures WithoutHeartbeats(AllParts(events)) == Responses(events)
  {
    if events != [] {
      HeartbeatsRemoved(events[1..]);
      var tail := AllParts(events[1..]);
      match events[0]
      case Response(Some(json)) =>
        assert ([json] + tail)[1..] == tail;
        assert |json| > |EMPTY_JSON|;
      case Response(None) =>
        assert AllParts(events) == tail && Responses(events) == Responses(events[1..]);
      case Heartbeat =>
        assert ([EMPTY_JSON] + tail)[1..] == tail;
        assert Responses(events) == Responses(events[1..]);
    }
  }

  /** A client that drops heartbeats sees exactly the serializable responses, in order. */
  lemma ClientSeesResponses(events: seq<Event>)
    requires Serializable(events)
    ensures Decode(Emitted(events)).Some?
    ensures WithoutHeartbeats(Decode(Emitted(events)).value) == Responses(events)
  {
    FramingRoundTrip(events);
    HeartbeatsRemoved(events);
  }

  /** The format, byte by byte. */
  lemma EmittedText(json: string, rest: seq<Event>)
    ensures Emitted([]) == "--graphql--" + "\r\n"
    ensures
      var header := "--graphql" + "\r\n" + "Content-Type: application/json" + "\r\n" + "\r\n";
      && Emitted([Response(Some(json))] + rest) == header + json + "\r\n" + Emitted(rest)
      && Emitted([Heartbeat] + rest) == header + "{}" + "\r\n" + Emitted(rest)
    ensures Emitted([Response(None)] + rest) == Emitted(rest)
  {
    var a, b, c := [Response(Some(json))] + rest, [Heartbeat] + rest, [Response(None)] + rest;
    assert a[1..] == rest && b[1..] == rest && c[1..] == rest;
    EventText(a);
    EventText(b);
    EventText(c);
  }
}
