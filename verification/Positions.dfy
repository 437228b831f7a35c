/** Line and column of byte offsets, computed incrementally while the parser moves forward. */
module Positions {
  datatype Pos = Pos(line: nat, column: nat)

  /** Number of bytes of a character in UTF-8. */
  function Utf8Len(c: char): nat {
    if c as int < 0x80 then 1 else if c as int < 0x800 then 2 else if c as int < 0x10000 then 3 else 4
  }

  function ByteLen(s: string): nat {
    if s == [] then 0 else Utf8Len(s[0]) + ByteLen(s[1..])
  }

  // ----- Reference: one look at the text before the offset -----

  predicate IsBreak(c: char) {
    c == '\r' || c == '\n'
  }

  function Newlines(s: string): nat {
    if s == [] then 0 else Newlines(s[..|s| - 1]) + if s[|s| - 1] == '\n' then 1 else 0
  }

  /** Number of characters after the last line break. */
  function Trailing(s: string): nat {
    if s == [] || IsBreak(s[|s| - 1]) then 0 else 1 + Trailing(s[..|s| - 1])
  }

  /** The position after a prefix: one line per line feed, one column per character since
      the last carriage return or line feed. */
  function PosAfter(prefix: string): Pos {
    Pos(1 + Newlines(prefix), 1 + Trailing(prefix))
  }

  /** `prefix` is the part of `text` before a byte offset on a character boundary. */
  predicate IsPrefixAt(text: string, prefix: string, offset: nat) {
    prefix <= text && ByteLen(prefix) == offset
  }

  lemma {:induction false} ByteLenConcat(a: string, b: string)
    ensures ByteLen(a + b) == ByteLen(a) + ByteLen(b)
  {
    if a == [] {
      assert a + b == b;
    } else {
      ByteLenConcat(a[1..], b);
      assert (a + b)[0] == a[0] && (a + b)[1..] == a[1..] + b;
    }
  }

  lemma {:induction false} Longer(a: string, b: string)
    requires a <= b && |a| < |b|
    ensures ByteLen(a) < ByteLen(b)
  {
    assert b == a + b[|a|..];
    ByteLenConcat(a, b[|a|..]);
  }

  lemma {:induction false} Advance(prefix: string, c: char)
    ensures PosAfter(prefix + [c]) ==
      if c == '\n' then Pos(PosAfter(prefix).line + 1, 1)
      else if c == '\r' then Pos(PosAfter(prefix).line, 1)
      else Pos(PosAfter(prefix).line, PosAfter(prefix).column + 1)
  {
    assert (prefix + [c])[..|prefix|] == prefix;
  }

  lemma SameLength(a: string, b: string)
    requires a <= b && ByteLen(a) >= ByteLen(b)
    ensures a == b
  {
    if |a| < |b| { Longer(a, b); }
  }

  lemma NotBeyond(a: string, b: string)
    requires a <= b
    ensures ByteLen(a) <= ByteLen(b)
  {
    if |a| < |b| { Longer(a, b); } else { assert a == b; }
  }

  /** One more character towards a prefix that has not been reached. */
  lemma ReadOne(consumed: string, input: string, chars: nat, prefix: string)
    requires chars <= |input| && consumed + input[..chars] <= prefix <= consumed + input
    requires ByteLen(consumed + input[..chars]) < ByteLen(prefix)
    ensures chars < |input|
    ensures
      var before, after := consumed + input[..chars], consumed + input[..chars + 1];
      && after <= prefix
      && ByteLen(after) == ByteLen(before) + Utf8Len(input[chars]) <= ByteLen(prefix)
      && PosAfter(after) ==
           if input[chars] == '\n' then Pos(PosAfter(before).line + 1, 1)
           else if input[chars] == '\r' then Pos(PosAfter(before).line, 1)
           else Pos(PosAfter(before).line, PosAfter(before).column + 1)
  {
    var before := consumed + input[..chars];
    assert before != prefix;
    var ch := input[chars];
    var after := consumed + input[..chars + 1];
    assert after == before + [ch];
    assert prefix[|before|] == (consumed + input)[|before|] == ch;
    Advance(before, ch);
    ByteLenConcat(before, [ch]);
    assert [ch][1..] == [];
    NotBeyond(after, prefix);
  }

  // ----- The calculator -----

  class PositionCalculator {
    var input: string   // what has not been read yet
    var pos: nat
    var line: nat
    var column: nat
    ghost const text: string
    ghost var consumed: string

    ghost predicate Valid()
      reads this
    {
      text == consumed + input && pos == ByteLen(consumed) && Pos(line, column) == PosAfter(consumed)
    }

    constructor (input: string)
      ensures Valid() && text == input && pos == 0
    {
      this.input := input;
      pos, line, column := 0, 1, 1;
      text := input;
      consumed := "";
    }

    /** Read forward to a byte offset; the offset must not lie behind and must be a
        character boundary. The result is the position that one scan from the start of the
        text would give. */
    method Step(offset: nat, ghost prefix: string) returns (r: Pos)
      requires Valid() && pos <= offset && IsPrefixAt(text, prefix, offset)
      modifies this
      ensures Valid() && pos == offset && consumed == prefix
      ensures r == PosAfter(prefix)
    {
      var bytesToRead := offset - pos;
      PrefixOrder(text, consumed, prefix);
      var read := 0;
      var chars := 0;
      ghost var here := consumed;
      assert consumed + input[..0] == consumed;
      while read < bytesToRead
        invariant unchanged(this`input, this`pos, this`consumed)
        invariant chars <= |input| && here == consumed + input[..chars] && here <= prefix
        invariant ByteLen(here) == pos + read && Pos(line, column) == PosAfter(here)
        decreases |input| - chars
      {
        ReadOne(consumed, input, chars, prefix);
        var ch := input[chars];
        match ch {
          case '\r' => column := 1;
          case '\n' => line, column := line + 1, 1;
          case _ => column := column + 1;
        }
        read := read + Utf8Len(ch);
        chars := chars + 1;
        here := consumed + input[..chars];
      }
      SameLength(here, prefix);
      pos := offset;
      consumed := prefix;
      input := input[chars..];
      r := Pos(line, column);
    }
  }

  lemma PrefixOrder(text: string, a: string, b: string)
    requires a <= text && b <= text && ByteLen(a) <= ByteLen(b)
    ensures a <= b
  {
    if |b| < |a| {
      assert b <= a;
      Longer(b, a);
    }
  }

  /** For any non-decreasing sequence of boundary offsets, every step gives the position of
      a scan from the start. */
  method PositionsOf(text: string, offsets: seq<nat>, ghost prefixes: seq<string>) returns (ps: seq<Pos>)
    requires |prefixes| == |offsets|
    requires forall i :: 0 <= i < |offsets| ==> IsPrefixAt(text, prefixes[i], offsets[i])
    requires forall i, j :: 0 <= i < j < |offsets| ==> offsets[i] <= offsets[j]
    ensures |ps| == |offsets|
    ensures forall i :: 0 <= i < |offsets| ==> ps[i] == PosAfter(prefixes[i])
  {
    var calculator := new PositionCalculator(text);
    ps := [];
    for i := 0 to |offsets|
      invariant fresh(calculator) && calculator.Valid() && calculator.text == text
      invariant i < |offsets| ==> calculator.pos <= offsets[i]
      invariant i > 0 ==> calculator.pos == offsets[i - 1]
      invariant |ps| == i
      invariant forall j :: 0 <= j < i ==> ps[j] == PosAfter(prefixes[j])
    {
      var p := calculator.Step(offsets[i], prefixes[i]);
      ps := ps + [p];
    }
  }

  // ----- Lines and columns of a text -----

  predicate NoBreak(s: string) {
    forall i :: 0 <= i < |s| ==> s[i] != '\r' && s[i] != '\n'
  }

  lemma {:induction false} OnOneLine(before: string, s: string)
    requires NoBreak(s)
    ensures PosAfter(before + s) == Pos(PosAfter(before).line, PosAfter(before).column + |s|)
  {
    if s == [] {
      assert before + s == before;
    } else {
      var init, c := s[..|s| - 1], s[|s| - 1];
      OnOneLine(before, init);
      Advance(before + init, c);
      assert before + s == (before + init) + [c];
    }
  }

  /** The first line starts at 1:1; a line feed starts the next line, a carriage return goes
      back to the first column; on a line the column counts characters. */
  lemma LinesAndColumns(before: string, s: string)
    requires NoBreak(s)
    ensures PosAfter(s) == Pos(1, 1 + |s|)
    ensures PosAfter(before + "\n" + s) == Pos(PosAfter(before).line + 1, 1 + |s|)
    ensures PosAfter(before + "\r" + s) == Pos(PosAfter(before).line, 1 + |s|)
  {
    OnOneLine("", s);
    assert "" + s == s;
    Advance(before, '\n');
    OnOneLine(before + "\n", s);
    Advance(before, '\r');
    OnOneLine(before + "\r", s);
  }

  /** Offsets count bytes: one for ASCII, and up to four for other characters. */
  lemma {:induction false} AsciiBytes(s: string)
    requires forall i :: 0 <= i < |s| ==> s[i] as int < 128
    ensures ByteLen(s) == |s|
  {
    if s != [] { AsciiBytes(s[1..]); }
  }

  /** A character takes the least number of bytes whose payload bits it fits in: 7, 11, 16 or
      21 (section 3 of RFC 3629). */
  lemma Utf8Least(c: char)
    ensures
      var payload := [0, 128, 2048, 65536, 2097152];
      1 <= Utf8Len(c) <= 4 && payload[Utf8Len(c)] > c as int && (Utf8Len(c) > 1 ==> payload[Utf8Len(c) - 1] <= c as int)
  {
  }
}
