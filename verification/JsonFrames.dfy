/** Brace framing inverts JSON printing: concrete syntax trees of section 2 of
    RFC 8259, with any white space between tokens, printed and read back. */
module JsonFrames {
  import opened Framing
  import opened FrameReader

  datatype Char =
    | Plain(byte: Byte)
    | Escape(byte: Byte)
    | Unicode(h0: Byte, h1: Byte, h2: Byte, h3: Byte)

  /** White space is part of the tree, so a tree is one way of laying out a value. */
  datatype Json =
    | Literal(text: seq<Byte>)
    | Text(chars: seq<Char>)
    | Array(space: seq<Byte>, elements: seq<Element>)
    | Object(space: seq<Byte>, members: seq<Member>)

  datatype Element = Element(before: seq<Byte>, value: Json, after: seq<Byte>)

  datatype Member = Member(before: seq<Byte>, key: seq<Char>, beforeColon: seq<Byte>,
                           afterColon: seq<Byte>, value: Json, after: seq<Byte>)

  const COMMA: Byte := 44
  const COLON: Byte := 58

  // ------------------------------------------------------------------ the grammar

  predicate Spaces(s: seq<Byte>) {
    forall i :: 0 <= i < |s| ==> s[i] == 32 || s[i] == 9 || s[i] == 10 || s[i] == 13
  }

  predicate HexDigit(b: Byte) {
    48 <= b <= 57 || 65 <= b <= 70 || 97 <= b <= 102
  }

  /** Bytes of numbers and of true, false and null. */
  predicate LiteralByte(b: Byte) {
    48 <= b <= 57 || 65 <= b <= 90 || 97 <= b <= 122 || b == 43 || b == 45 || b == 46
  }

  /** Section 7 of RFC 8259. */
  predicate WellFormedChar(c: Char) {
    match c
    case Plain(b) => b >= 0x20 && b != QUOTE && b != BACKSLASH
    case Escape(b) => b in {34, 92, 47, 98, 102, 110, 114, 116}
    case Unicode(a, b, c, d) => HexDigit(a) && HexDigit(b) && HexDigit(c) && HexDigit(d)
  }

  predicate WellFormedText(chars: seq<Char>) {
    forall i :: 0 <= i < |chars| ==> WellFormedChar(chars[i])
  }

  predicate WellFormed(j: Json) {
    match j
    case Literal(text) => forall i :: 0 <= i < |text| ==> LiteralByte(text[i])
    case Text(chars) => WellFormedText(chars)
    case Array(space, elements) =>
      Spaces(space) &&
      forall i :: 0 <= i < |elements| ==>
        Spaces(elements[i].before) && Spaces(elements[i].after) && WellFormed(elements[i].value)
    case Object(space, members) =>
      Spaces(space) && WellFormedMembers(members)
  }

  predicate WellFormedMembers(members: seq<Member>) {
    forall i :: 0 <= i < |members| ==>
      var m := members[i];
      Spaces(m.before) && WellFormedText(m.key) && Spaces(m.beforeColon) &&
      Spaces(m.afterColon) && WellFormed(m.value) && Spaces(m.after)
  }

  function PrintChar(c: Char): seq<Byte> {
    match c
    case Plain(b) => [b]
    case Escape(b) => [BACKSLASH, b]
    case Unicode(a, b, c, d) => [BACKSLASH, 117, a, b, c, d]
  }

  function PrintChars(chars: seq<Char>): seq<Byte> {
    if chars == [] then [] else PrintChar(chars[0]) + PrintChars(chars[1..])
  }

  function PrintText(chars: seq<Char>): seq<Byte> {
    [QUOTE] + PrintChars(chars) + [QUOTE]
  }

  function Print(j: Json): seq<Byte>
    decreases j, 1
  {
    match j
    case Literal(text) => text
    case Text(chars) => PrintText(chars)
    case Array(space, elements) => [91] + space + PrintElements(elements) + [93]
    case Object(space, members) => [OPEN] + (space + PrintMembers(members)) + [CLOSE]
  }

  function PrintElements(elements: seq<Element>): seq<Byte>
    decreases elements, 0
  {
    if elements == [] then []
    else
      var e := elements[0];
      e.before + Print(e.value) + e.after
        + (if |elements| == 1 then [] else [COMMA] + PrintElements(elements[1..]))
  }

  function PrintMember(m: Member): seq<Byte>
    decreases m, 0
  {
    m.before + PrintText(m.key) + m.beforeColon + [COLON] + m.afterColon + Print(m.value) + m.after
  }

  function PrintMembers(members: seq<Member>): seq<Byte>
    decreases members, 0
  {
    if members == [] then []
    else PrintMember(members[0]) + (if |members| == 1 then [] else [COMMA] + PrintMembers(members[1..]))
  }

  function Max(a: nat, b: nat): nat {
    if a < b then b else a
  }

  /** How many braces are open at once. */
  function Depth(j: Json): nat
    decreases j, 1
  {
    match j
    case Literal(_) => 0
    case Text(_) => 0
    case Array(_, elements) => DepthOfElements(elements)
    case Object(_, members) => 1 + DepthOfMembers(members)
  }

  function DepthOfElements(elements: seq<Element>): nat
    decreases elements, 0
  {
    if elements == [] then 0 else Max(Depth(elements[0].value), DepthOfElements(elements[1..]))
  }

  function DepthOfMembers(members: seq<Member>): nat
    decreases members, 0
  {
    if members == [] then 0 else Max(Depth(members[0].value), DepthOfMembers(members[1..]))
  }

  // -------------------------------------------------- the scanner passes over values

  /** Outside strings, `depth` braces deep. */
  function At(depth: nat): Scan {
    Scan(depth, false, false)
  }

  /** The scanner comes out of `s` where it went in, without closing the frame. */
  predicate Passes(st: Scan, s: seq<Byte>) {
    ScanFrom(st, s) == Open(st)
  }

  lemma PassesBoth(st: Scan, a: seq<Byte>, b: seq<Byte>)
    requires Passes(st, a) && Passes(st, b)
    ensures Passes(st, a + b)
  {
    ScanAcross(st, a, b);
  }

  predicate Neutral(b: Byte) {
    b != QUOTE && b != OPEN && b != CLOSE
  }

  lemma {:induction false} PassesNeutral(depth: nat, s: seq<Byte>)
    requires forall i :: 0 <= i < |s| ==> Neutral(s[i])
    ensures Passes(At(depth), s)
    decreases |s|
  {
    if s != [] {
      PassesNeutral(depth, s[1..]);
    }
  }

  lemma {:induction false} PassesChars(depth: nat, chars: seq<Char>)
    requires WellFormedText(chars)
    ensures Passes(Scan(depth, true, false), PrintChars(chars))
    decreases |chars|
  {
    if chars != [] {
      var st := Scan(depth, true, false);
      PassesChars(depth, chars[1..]);
      PassesChar(depth, chars[0]);
      PassesBoth(st, PrintChar(chars[0]), PrintChars(chars[1..]));
    }
  }

  lemma {:induction false} PassesInside(depth: nat, s: seq<Byte>)
    requires forall i :: 0 <= i < |s| ==> s[i] != QUOTE && s[i] != BACKSLASH
    ensures Passes(Scan(depth, true, false), s)
    decreases |s|
  {
    if s != [] {
      PassesInside(depth, s[1..]);
    }
  }

  lemma PassesChar(depth: nat, c: Char)
    requires WellFormedChar(c)
    ensures Passes(Scan(depth, true, false), PrintChar(c))
  {
    var st := Scan(depth, true, false);
    match c {
      case Plain(b) => PassesInside(depth, [b]);
      case Escape(b) => PassesEscape(depth, b);
      case Unicode(a, b, c, d) =>
        PassesEscape(depth, 117);
        PassesInside(depth, [a, b, c, d]);
        PassesBoth(st, [BACKSLASH, 117], [a, b, c, d]);
        assert [BACKSLASH, 117] + [a, b, c, d] == [BACKSLASH, 117, a, b, c, d];
    }
  }

  lemma PassesEscape(depth: nat, b: Byte)
    ensures Passes(Scan(depth, true, false), [BACKSLASH, b])
  {
    var s: seq<Byte> := [BACKSLASH, b];
    assert s[1..] == [b] && [b][1..] == [];
    assert ScanFrom(Scan(depth, true, true), [b]) == Open(Scan(depth, true, false));
  }

  lemma PassesText(depth: nat, chars: seq<Char>)
    requires WellFormedText(chars)
    ensures Passes(At(depth), PrintText(chars))
  {
    var inside := Scan(depth, true, false);
    var body := PrintChars(chars);
    PassesChars(depth, chars);
    ScanAcross(inside, body, [QUOTE]);
    assert ScanFrom(inside, [QUOTE]) == Open(At(depth)) by {
      assert [QUOTE][1..] == [];
    }
    assert PrintText(chars) == [QUOTE] + (body + [QUOTE]);
    assert ScanFrom(At(depth), [QUOTE]) == Open(inside) by {
      assert [QUOTE][1..] == [];
    }
    ScanAcross(At(depth), [QUOTE], body + [QUOTE]);
  }

  lemma {:induction false} PassesValue(depth: nat, j: Json)
    requires WellFormed(j) && depth >= 1 && depth + Depth(j) < 0x1_0000_0000
    ensures Passes(At(depth), Print(j))
    decreases j, 1
  {
    match j {
      case Literal(text) => PassesNeutral(depth, text);
      case Text(chars) => PassesText(depth, chars);
      case Array(space, elements) =>
        PassesElements(depth, elements);
        PassesNeutral(depth, [91] + space);
        PassesBoth(At(depth), [91] + space, PrintElements(elements));
        PassesNeutral(depth, [93]);
        PassesBoth(At(depth), [91] + space + PrintElements(elements), [93]);
      case Object(space, members) =>
        PassesBody(depth + 1, space, members);
        Nested(depth, space + PrintMembers(members));
    }
  }

  /** A brace pair around something passed over is passed over one level up. */
  lemma Nested(depth: nat, body: seq<Byte>)
    requires 1 <= depth && depth + 1 < 0x1_0000_0000 && Passes(At(depth + 1), body)
    ensures Passes(At(depth), [OPEN] + body + [CLOSE])
  {
    assert [OPEN][1..] == [] && [CLOSE][1..] == [];
    assert ScanFrom(At(depth), [OPEN]) == Open(At(depth + 1));
    assert ScanFrom(At(depth + 1), [CLOSE]) == Open(At(depth));
    ScanAcross(At(depth), [OPEN], body);
    ScanAcross(At(depth), [OPEN] + body, [CLOSE]);
  }

  lemma {:induction false} PassesElements(depth: nat, elements: seq<Element>)
    requires depth >= 1 && depth + DepthOfElements(elements) < 0x1_0000_0000
    requires forall i :: 0 <= i < |elements| ==>
               Spaces(elements[i].before) && Spaces(elements[i].after) && WellFormed(elements[i].value)
    ensures Passes(At(depth), PrintElements(elements))
    decreases elements, 0
  {
    if elements != [] {
      var e, st := elements[0], At(depth);
      PassesNeutral(depth, e.before);
      PassesValue(depth, e.value);
      PassesNeutral(depth, e.after);
      PassesBoth(st, e.before, Print(e.value));
      PassesBoth(st, e.before + Print(e.value), e.after);
      if |elements| == 1 {
        PassesNeutral(depth, []);
        PassesBoth(st, e.before + Print(e.value) + e.after, []);
      } else {
        PassesElements(depth, elements[1..]);
        PassesNeutral(depth, [COMMA]);
        PassesBoth(st, [COMMA], PrintElements(elements[1..]));
        PassesBoth(st, e.before + Print(e.value) + e.after, [COMMA] + PrintElements(elements[1..]));
      }
    }
  }

  lemma {:induction false} PassesBody(depth: nat, space: seq<Byte>, members: seq<Member>)
    requires depth >= 1 && depth + DepthOfMembers(members) < 0x1_0000_0000
    requires Spaces(space) && WellFormedMembers(members)
    ensures Passes(At(depth), space + PrintMembers(members))
    decreases members, 2
  {
    PassesNeutral(depth, space);
    PassesMembers(depth, members);
    PassesBoth(At(depth), space, PrintMembers(members));
  }

  lemma {:induction false} PassesMembers(depth: nat, members: seq<Member>)
    requires depth >= 1 && depth + DepthOfMembers(members) < 0x1_0000_0000
    requires WellFormedMembers(members)
    ensures Passes(At(depth), PrintMembers(members))
    decreases members, 1
  {
    if members != [] {
      var st := At(depth);
      PassesMember(depth, members[0]);
      if |members| == 1 {
        assert PrintMember(members[0]) + [] == PrintMember(members[0]);
      } else {
        PassesMembers(depth, members[1..]);
        PassesNeutral(depth, [COMMA]);
        PassesBoth(st, [COMMA], PrintMembers(members[1..]));
        PassesBoth(st, PrintMember(members[0]), [COMMA] + PrintMembers(members[1..]));
      }
    }
  }

  lemma {:induction false} PassesMember(depth: nat, m: Member)
    requires depth >= 1 && depth + Depth(m.value) < 0x1_0000_0000 && WellFormedMembers([m])
    ensures Passes(At(depth), PrintMember(m))
    decreases m, 0
  {
    var st := At(depth);
    assert [m][0] == m;
    PassesNeutral(depth, m.before);
    PassesText(depth, m.key);
    PassesBoth(st, m.before, PrintText(m.key));
    PassesNeutral(depth, m.beforeColon);
    PassesBoth(st, m.before + PrintText(m.key), m.beforeColon);
    PassesNeutral(depth, [COLON]);
    PassesBoth(st, m.before + PrintText(m.key) + m.beforeColon, [COLON]);
    PassesNeutral(depth, m.afterColon);
    PassesBoth(st, m.before + PrintText(m.key) + m.beforeColon + [COLON], m.afterColon);
    PassesValue(depth, m.value);
    PassesBoth(st, m.before + PrintText(m.key) + m.beforeColon + [COLON] + m.afterColon, Print(m.value));
    PassesNeutral(depth, m.after);
    PassesBoth(st, m.before + PrintText(m.key) + m.beforeColon + [COLON] + m.afterColon + Print(m.value), m.after);
  }

  // ------------------------------------------------------------------ reading back

  /** For every JSON object, however laid out, followed by any bytes at all, the frame
      is exactly that object's bytes and exactly the other bytes are left. */
  lemma FrameIsTheObject(j: Json, rest: seq<Byte>)
    requires j.Object? && WellFormed(j) && Depth(j) < 0x1_0000_0000
    ensures ReadBraces(Print(j) + rest) == Outcome(Message(Print(j)), BraceDepth, rest)
  {
    var body := j.space + PrintMembers(j.members);
    PassesBody(1, j.space, j.members);
    assert [OPEN][1..] == [] && [CLOSE][1..] == [];
    assert ScanFrom(START, [OPEN]) == Open(At(1));
    assert ScanFrom(At(1), [CLOSE]) == Closed(1);
    ScanAcross(START, [OPEN], body);
    ScanAcross(START, [OPEN] + body, [CLOSE]);
    ScanAcross(START, Print(j), rest);
    assert (Print(j) + rest)[..|Print(j)|] == Print(j);
    assert (Print(j) + rest)[|Print(j)|..] == rest;
  }

  /** Objects one after the other, with white space before each. */
  datatype Framed = Framed(space: seq<Byte>, value: Json)

  predicate Sendable(frames: seq<Framed>) {
    forall i :: 0 <= i < |frames| ==>
      Spaces(frames[i].space) && frames[i].value.Object? && WellFormed(frames[i].value) &&
      Depth(frames[i].value) < 0x1_0000_0000
  }

  function Sent(frames: seq<Framed>): seq<Byte> {
    if frames == [] then [] else frames[0].space + Print(frames[0].value) + Sent(frames[1..])
  }

  function Bodies(frames: seq<Framed>): seq<seq<Byte>> {
    if frames == [] then [] else [Print(frames[0].value)] + Bodies(frames[1..])
  }

  lemma {:induction false} SkipsSpaces(space: seq<Byte>, s: seq<Byte>)
    requires Spaces(space) && (s == [] || !IsAsciiSpace(s[0]))
    ensures SkipSpace(space + s) == s
    decreases |space|
  {
    if space == [] {
      assert space + s == s;
    } else {
      assert (space + s)[1..] == space[1..] + s;
      SkipsSpaces(space[1..], s);
    }
  }

  /** A stream of printed objects is read back as exactly those objects, from the
      first byte on, whether or not the framing has been detected yet. */
  lemma {:induction false} StreamOfObjects(mode: Mode, frames: seq<Framed>, trailing: seq<Byte>)
    requires mode.Unknown? || mode.BraceDepth?
    requires Sendable(frames) && Spaces(trailing)
    ensures ReadAll(mode, Sent(frames) + trailing)
         == Transcript(Bodies(frames), Outcome(EndOfInput, if frames == [] then mode else BraceDepth, []))
    decreases |frames|
  {
    var s := Sent(frames) + trailing;
    if frames == [] {
      assert s == trailing + [];
      SkipsSpaces(trailing, []);
    } else {
      var rest := Sent(frames[1..]) + trailing;
      NextObject(mode, frames[0], rest);
      assert s == frames[0].space + (Print(frames[0].value) + rest);
      StreamOfObjects(BraceDepth, frames[1..], trailing);
    }
  }

  lemma NextObject(mode: Mode, f: Framed, rest: seq<Byte>)
    requires mode.Unknown? || mode.BraceDepth?
    requires Sendable([f])
    ensures ReadMessage(mode, f.space + (Print(f.value) + rest)) == Outcome(Message(Print(f.value)), BraceDepth, rest)
  {
    var t := Print(f.value) + rest;
    assert [f][0] == f && t[0] == OPEN;
    SkipsSpaces(f.space, t);
    SkipsSpaces([], t);
    assert [] + t == t;
    FrameIsTheObject(f.value, rest);
  }

  // -------------------------------------------------------- between objects and at the end

  /** Between brace frames, bytes that are neither "{" nor "C" are passed over. */
  lemma {:induction false} NoiseIsSkipped(noise: seq<Byte>, s: seq<Byte>)
    requires forall i :: 0 <= i < |noise| ==> noise[i] != 123 && noise[i] != 67
    ensures ReadMessage(BraceDepth, noise + s) == ReadMessage(BraceDepth, s)
    decreases |noise|
  {
    if noise == [] {
      assert noise + s == s;
    } else {
      var more := noise[1..] + s;
      assert noise + s == [noise[0]] + more;
      NoiseIsSkipped(noise[1..], s);
      OneByteOfNoise(noise[0], more);
    }
  }

  lemma OneByteOfNoise(b: Byte, s: seq<Byte>)
    requires b != 123 && b != 67
    ensures ReadBraceMode([b] + s) == ReadBraceMode(s)
  {
    var t := [b] + s;
    assert t[1..] == s;
    if IsAsciiSpace(b) {
      assert SkipSpace(t) == SkipSpace(s);
    } else {
      assert SkipSpace(t) == t;
    }
  }

  /** An object cut short by the end of input is the last message, as far as it goes. */
  lemma TruncatedObject(j: Json, n: nat)
    requires j.Object? && WellFormed(j) && Depth(j) < 0x1_0000_0000 && 0 < n < |Print(j)|
    ensures ReadMessage(BraceDepth, Print(j)[..n]) == Outcome(Message(Print(j)[..n]), BraceDepth, [])
  {
    var s, more := Print(j)[..n], Print(j)[n..];
    assert s + more == Print(j) && Print(j) + [] == Print(j);
    FrameIsTheObject(j, []);
    ScanAcross(START, s, more);
    assert Print(j)[0] == OPEN && s[0] == OPEN;
    assert SkipSpace(s) == s;
    StillOpen(j, n);
  }

  lemma StillOpen(j: Json, n: nat)
    requires j.Object? && 0 < n < |Print(j)|
    requires ReadBraces(Print(j)) == Outcome(Message(Print(j)), BraceDepth, [])
    ensures ScanFrom(START, Print(j)[..n]).Open?
  {
    var s, more := Print(j)[..n], Print(j)[n..];
    assert s + more == Print(j);
    ScanAcross(START, s, more);
    var whole := ScanFrom(START, Print(j));
    assert whole.Closed? ==> |Print(j)[..whole.consumed]| == whole.consumed;
  }

  // ------------------------------------------------------------------- no underflow

  function Opens(s: seq<Byte>): nat {
    if s == [] then 0 else (if s[0] == OPEN then 1 else 0) + Opens(s[1..])
  }

  lemma {:induction false} DepthBound(st: Scan, s: seq<Byte>)
    requires ScanFrom(st, s).Open? && 1 <= st.depth && st.depth + Opens(s) < 0x1_0000_0000
    ensures 1 <= ScanFrom(st, s).state.depth <= st.depth + Opens(s)
    decreases |s|
  {
    if s != [] {
      DepthBound(Step(st, s[0]), s[1..]);
    }
  }

  /** The depth counter never goes below zero: before every byte after the opening
      brace, in any input at all with fewer than 2^32 opening braces, it is at least 1. */
  lemma NeverUnderflows(s: seq<Byte>)
    requires s != [] && s[0] == OPEN && Opens(s) < 0x1_0000_0000 && ScanFrom(START, s).Open?
    ensures ScanFrom(START, s).state.depth >= 1
  {
    DepthBound(At(1), s[1..]);
  }
}
