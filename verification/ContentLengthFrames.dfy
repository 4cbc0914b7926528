/** Content-Length framing, written and read back. */
module ContentLengthFrames {
  import opened Framing

  /** "Content-Length: " */
  const PREFIX: seq<Byte> := [67, 111, 110, 116, 101, 110, 116, 45, 76, 101, 110, 103, 116, 104, 58, 32]

  const CRLF: seq<Byte> := [13, 10]

  function Decimal(n: nat): (s: seq<Byte>)
    ensures s != [] && AllDigits(s)
  {
    if n < 10 then [48 + n] else Decimal(n / 10) + [48 + n % 10]
  }

  function Encode(body: seq<Byte>): seq<Byte> {
    (PREFIX + Decimal(|body|) + CRLF) + (CRLF + body)
  }

  function EncodeAll(bodies: seq<seq<Byte>>): seq<Byte> {
    if bodies == [] then [] else Encode(bodies[0]) + EncodeAll(bodies[1..])
  }

  lemma {:induction false} DecimalValue(n: nat)
    ensures DigitsValue(Decimal(n)) == n
  {
    if n >= 10 {
      var s := Decimal(n);
      assert s[..|s| - 1] == Decimal(n / 10);
      DecimalValue(n / 10);
    }
  }

  lemma ParseDecimal(n: nat)
    requires n < 0x1_0000_0000_0000_0000
    ensures ParseLength(Decimal(n)) == n
  {
    DecimalValue(n);
  }

  lemma {:induction false} LineEnds(text: seq<Byte>, more: seq<Byte>)
    requires forall i :: 0 <= i < |text| ==> text[i] != LF
    ensures LineLength(text + [LF] + more) == |text| + 1
    decreases |text|
  {
    var s := text + [LF] + more;
    if text != [] {
      assert s[1..] == text[1..] + [LF] + more;
      LineEnds(text[1..], more);
    }
  }

  lemma {:induction false} AsciiIsUtf8(s: seq<Byte>)
    requires forall i :: 0 <= i < |s| ==> s[i] < 0x80
    ensures Utf8(s)
    decreases |s|
  {
    if s != [] {
      AsciiIsUtf8(s[1..]);
    }
  }

  lemma TrimEndOfLine(text: seq<Byte>)
    requires text != [] && 48 <= text[|text| - 1] <= 57
    ensures TrimEnd(text) == text
    ensures TrimEnd(text + CRLF) == text
  {
    var line := text + CRLF;
    assert TrailingSpace(text) == 0;
    assert line[..|line| - 1] == text + [13];
    assert (text + [13])[..|text|] == text;
    assert TrailingSpace(line) == 1 && TrailingSpace(text + [13]) == 1;
  }

  lemma HeaderTrimmed(n: nat)
    ensures var text := PREFIX + Decimal(n);
            Utf8(text + CRLF) && Trim(text + CRLF) == text
  {
    var text := PREFIX + Decimal(n);
    AsciiIsUtf8(text + CRLF);
    TrimEndOfLine(text);
    assert TrimStart(text + CRLF) == text + CRLF;
  }

  lemma HeaderRecognised(digits: seq<Byte>)
    ensures StartsWithHeader(PREFIX + digits)
  {
    forall i | 0 <= i < |HEADER| ensures Lower((PREFIX + digits)[i]) == HEADER[i] {
      assert (PREFIX + digits)[i] == PREFIX[i];
    }
  }

  lemma HeaderValue(n: nat)
    ensures Trim((PREFIX + Decimal(n))[|HEADER|..]) == Decimal(n)
  {
    var digits := Decimal(n);
    var value := (PREFIX + digits)[|HEADER|..];
    assert value == [32] + digits && value[1..] == digits;
    assert TrimStart(digits) == digits;
    TrimEndOfLine(digits);
  }

  lemma BlankLine(body: seq<Byte>)
    ensures FindBlank(CRLF + body) == HeaderScan.Header([], body)
  {
    var s := CRLF + body;
    assert s == [13] + [LF] + body;
    LineEnds([13], body);
    assert s[..2] == CRLF && s[2..] == body;
    assert CRLF[1..] == [10] && [10][1..] == [];
    assert TrimStart([10]) == [];
    AsciiIsUtf8(CRLF);
  }

  /** One encoded message is read back byte for byte, and nothing beyond it is touched. */
  lemma ReadsBack(body: seq<Byte>, rest: seq<Byte>)
    requires |body| < 0x1_0000_0000_0000_0000
    ensures ReadContentLength(Encode(body) + rest) == Outcome(Message(body), ContentLength, rest)
  {
    var text, line := PREFIX + Decimal(|body|), PREFIX + Decimal(|body|) + CRLF;
    var after := CRLF + (body + rest);
    var s := Encode(body) + rest;
    assert s == line + after;
    assert line == (text + [13]) + [LF];
    LineEnds(text + [13], after);
    assert s[..|line|] == line && s[|line|..] == after;
    HeaderTrimmed(|body|);
    HeaderRecognised(Decimal(|body|));
    HeaderValue(|body|);
    assert FindHeader(s) == HeaderScan.Header(Decimal(|body|), after);
    ParseDecimal(|body|);
    BlankLine(body + rest);
    assert (body + rest)[..|body|] == body && (body + rest)[|body|..] == rest;
  }

  lemma FirstFrame(mode: Mode, body: seq<Byte>, rest: seq<Byte>)
    requires |body| < 0x1_0000_0000_0000_0000 && (mode.Unknown? || mode.ContentLength?)
    ensures ReadMessage(mode, Encode(body) + rest) == Outcome(Message(body), ContentLength, rest)
  {
    var s := Encode(body) + rest;
    ReadsBack(body, rest);
    assert s[0] == PREFIX[0];
    assert SkipSpace(s) == s;
  }

  /** Any list of bodies, whatever bytes they hold, is read back exactly, starting from
      undetected framing. */
  lemma {:induction false} RoundTrip(mode: Mode, bodies: seq<seq<Byte>>)
    requires mode.Unknown? || mode.ContentLength?
    requires forall i :: 0 <= i < |bodies| ==> |bodies[i]| < 0x1_0000_0000_0000_0000
    ensures ReadAll(mode, EncodeAll(bodies))
         == Transcript(bodies, Outcome(EndOfInput, if bodies == [] then mode else ContentLength, []))
    decreases |bodies|
  {
    if bodies != [] {
      FirstFrame(mode, bodies[0], EncodeAll(bodies[1..]));
      RoundTrip(ContentLength, bodies[1..]);
      assert bodies == [bodies[0]] + bodies[1..];
    }
  }
}
