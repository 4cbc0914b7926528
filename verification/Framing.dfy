/** Message framing of the MCP relay (relay.rs), as functions of the whole byte
    stream.  The reader that works on buffer fills is in module FrameReader. */
module Framing {
  type Byte = b: int | 0 <= b < 256 witness 0

  const LF := 10
  const QUOTE := 34
  const BACKSLASH := 92
  const OPEN := 123
  const CLOSE := 125
  const CAPITAL_C := 67
  const DEPTH_LIMIT := 0x1_0000_0000
  const USIZE_LIMIT := 0x1_0000_0000_0000_0000

  datatype ReadError = InvalidUtf8 | InvalidLength | UnexpectedEof

  datatype ReadResult = Message(body: seq<Byte>) | EndOfInput | Failed(error: ReadError)

  datatype Mode = Unknown | Newline | BraceDepth | ContentLength

  /** What one call of read_message yields, the mode it leaves, and the unread rest. */
  datatype Outcome = Outcome(result: ReadResult, mode: Mode, rest: seq<Byte>)

  // ------------------------------------------------------------ white space and lines

  predicate IsAsciiSpace(b: Byte) {
    b == 32 || b == 9 || b == LF || b == 12 || b == 13
  }

  function SkipSpace(s: seq<Byte>): (t: seq<Byte>)
    ensures |t| <= |s|
    ensures t != [] ==> !IsAsciiSpace(t[0])
  {
    if s != [] && IsAsciiSpace(s[0]) then SkipSpace(s[1..]) else s
  }

  /** How many bytes of `s` the next line takes, line feed included. */
  function LineLength(s: seq<Byte>): (n: nat)
    ensures n <= |s|
    ensures s != [] ==> n > 0
  {
    if s == [] then 0 else if s[0] == LF then 1 else 1 + LineLength(s[1..])
  }

  /** The length of the white space character `s` starts with (Unicode White_Space,
      in UTF-8), 0 if it starts with none. */
  function LeadingSpace(s: seq<Byte>): (n: nat)
    ensures n <= |s|
  {
    if |s| >= 1 && (9 <= s[0] <= 13 || s[0] == 32) then 1
    else if |s| >= 2 && IsSpace2(s[0], s[1]) then 2
    else if |s| >= 3 && IsSpace3(s[0], s[1], s[2]) then 3
    else 0
  }

  function TrailingSpace(s: seq<Byte>): (n: nat)
    ensures n <= |s|
  {
    var k := |s|;
    if k >= 1 && (9 <= s[k - 1] <= 13 || s[k - 1] == 32) then 1
    else if k >= 2 && IsSpace2(s[k - 2], s[k - 1]) then 2
    else if k >= 3 && IsSpace3(s[k - 3], s[k - 2], s[k - 1]) then 3
    else 0
  }

  predicate IsSpace2(a: Byte, b: Byte) {
    a == 0xC2 && (b == 0x85 || b == 0xA0)
  }

  predicate IsSpace3(a: Byte, b: Byte, c: Byte) {
    (a == 0xE1 && b == 0x9A && c == 0x80) ||
    (a == 0xE2 && b == 0x80 && (0x80 <= c <= 0x8A || c == 0xA8 || c == 0xA9 || c == 0xAF)) ||
    (a == 0xE2 && b == 0x81 && c == 0x9F) ||
    (a == 0xE3 && b == 0x80 && c == 0x80)
  }

  function TrimStart(s: seq<Byte>): seq<Byte>
    decreases |s|
  {
    if LeadingSpace(s) == 0 then s else TrimStart(s[LeadingSpace(s)..])
  }

  function TrimEnd(s: seq<Byte>): seq<Byte>
    decreases |s|
  {
    if TrailingSpace(s) == 0 then s else TrimEnd(s[..|s| - TrailingSpace(s)])
  }

  function Trim(s: seq<Byte>): seq<Byte> {
    TrimEnd(TrimStart(s))
  }

  predicate Continuation(b: Byte) {
    0x80 <= b <= 0xBF
  }

  /** Well-formed UTF-8, which read_line insists on. */
  predicate Utf8(s: seq<Byte>)
    decreases |s|
  {
    if s == [] then true
    else if s[0] < 0x80 then Utf8(s[1..])
    else if |s| >= 2 && 0xC2 <= s[0] <= 0xDF then Continuation(s[1]) && Utf8(s[2..])
    else if |s| >= 3 && 0xE0 <= s[0] <= 0xEF then
      Continuation(s[1]) && Continuation(s[2]) &&
      (s[0] == 0xE0 ==> s[1] >= 0xA0) && (s[0] == 0xED ==> s[1] <= 0x9F) && Utf8(s[3..])
    else if |s| >= 4 && 0xF0 <= s[0] <= 0xF4 then
      Continuation(s[1]) && Continuation(s[2]) && Continuation(s[3]) &&
      (s[0] == 0xF0 ==> s[1] >= 0x90) && (s[0] == 0xF4 ==> s[1] <= 0x8F) && Utf8(s[4..])
    else false
  }

  // ------------------------------------------------------------------- newline frames

  function ReadNewline(s: seq<Byte>): (o: Outcome)
    ensures o.result.Message? ==> |o.rest| < |s|
    decreases |s|
  {
    if s == [] then Outcome(EndOfInput, Newline, [])
    else
      var line, rest := s[..LineLength(s)], s[LineLength(s)..];
      if !Utf8(line) then Outcome(Failed(InvalidUtf8), Newline, rest)
      else if Trim(line) == [] then ReadNewline(rest)
      else Outcome(Message(Trim(line)), Newline, rest)
  }

  // ------------------------------------------------------------ Content-Length frames

  const HEADER: seq<Byte> := [99, 111, 110, 116, 101, 110, 116, 45, 108, 101, 110, 103, 116, 104, 58]

  function Lower(b: Byte): Byte {
    if 65 <= b <= 90 then b + 32 else b
  }

  predicate StartsWithHeader(s: seq<Byte>) {
    |s| >= |HEADER| && forall i :: 0 <= i < |HEADER| ==> Lower(s[i]) == HEADER[i]
  }

  datatype HeaderScan =
    | NoHeader
    | BadHeader(unread: seq<Byte>)
    | Header(length: seq<Byte>, unread: seq<Byte>)

  /** Lines up to and including the first Content-Length header. */
  function FindHeader(s: seq<Byte>): (h: HeaderScan)
    ensures h.Header? ==> |h.unread| < |s|
    decreases |s|
  {
    if s == [] then NoHeader
    else
      var line, rest := s[..LineLength(s)], s[LineLength(s)..];
      if !Utf8(line) then BadHeader(rest)
      else if StartsWithHeader(Trim(line)) then Header(Trim(Trim(line)[|HEADER|..]), rest)
      else FindHeader(rest)
  }

  /** Lines up to and including the first blank one. */
  function FindBlank(s: seq<Byte>): (h: HeaderScan)
    ensures h.Header? ==> |h.unread| < |s|
    decreases |s|
  {
    if s == [] then NoHeader
    else
      var line, rest := s[..LineLength(s)], s[LineLength(s)..];
      if !Utf8(line) then BadHeader(rest)
      else if Trim(line) == [] then Header([], rest)
      else FindBlank(rest)
  }

  predicate AllDigits(s: seq<Byte>) {
    forall i :: 0 <= i < |s| ==> 48 <= s[i] <= 57
  }

  function DigitsValue(s: seq<Byte>): nat
    requires AllDigits(s)
    decreases |s|
  {
    if s == [] then 0 else 10 * DigitsValue(s[..|s| - 1]) + (s[|s| - 1] - 48)
  }

  /** usize::from_str: an optional plus sign, at least one digit, no overflow; -1 is an error. */
  function ParseLength(s: seq<Byte>): (n: int)
    ensures n >= -1
  {
    var digits := if s != [] && s[0] == 43 then s[1..] else s;
    if digits == [] || !AllDigits(digits) || DigitsValue(digits) >= USIZE_LIMIT then -1
    else DigitsValue(digits)
  }

  function ReadBody(length: nat, s: seq<Byte>): Outcome {
    if length <= |s| then Outcome(Message(s[..length]), ContentLength, s[length..])
    else Outcome(Failed(UnexpectedEof), ContentLength, [])
  }

  function ReadContentLength(s: seq<Byte>): (o: Outcome)
    ensures o.result.Message? ==> |o.rest| < |s|
  {
    match FindHeader(s)
    case NoHeader => Outcome(EndOfInput, ContentLength, [])
    case BadHeader(rest) => Outcome(Failed(InvalidUtf8), ContentLength, rest)
    case Header(length, afterHeader) =>
      if ParseLength(length) < 0 then Outcome(Failed(InvalidLength), ContentLength, afterHeader)
      else
        match FindBlank(afterHeader)
        case NoHeader => Outcome(EndOfInput, ContentLength, [])
        case BadHeader(rest) => Outcome(Failed(InvalidUtf8), ContentLength, rest)
        case Header(_, body) => ReadBody(ParseLength(length), body)
  }

  // ------------------------------------------------------------------- brace frames

  /** Where the brace scanner is: depth is a wrapping u32. */
  datatype Scan = Scan(depth: nat, inString: bool, escapeNext: bool)

  const START: Scan := Scan(0, false, false)

  function Step(st: Scan, b: Byte): Scan {
    if st.escapeNext then st.(escapeNext := false)
    else if st.inString then
      if b == BACKSLASH then st.(escapeNext := true)
      else if b == QUOTE then st.(inString := false)
      else st
    else if b == QUOTE then st.(inString := true)
    else if b == OPEN then st.(depth := (st.depth + 1) % DEPTH_LIMIT)
    else if b == CLOSE then st.(depth := (st.depth + DEPTH_LIMIT - 1) % DEPTH_LIMIT)
    else st
  }

  /** This byte closes the outermost brace. */
  predicate Closes(st: Scan, b: Byte) {
    !st.escapeNext && !st.inString && b == CLOSE && Step(st, b).depth == 0
  }

  datatype ScanResult = Closed(consumed: nat) | Open(state: Scan)

  function ScanFrom(st: Scan, s: seq<Byte>): (r: ScanResult)
    ensures r.Closed? ==> 0 < r.consumed <= |s|
    decreases |s|
  {
    if s == [] then Open(st)
    else if Closes(st, s[0]) then Closed(1)
    else
      match ScanFrom(Step(st, s[0]), s[1..])
      case Closed(n) => Closed(n + 1)
      case Open(st') => Open(st')
  }

  /** A closed frame, or everything there is if the input ends first. */
  function ReadBraces(s: seq<Byte>): (o: Outcome)
    ensures o.result.Message? ==> |o.rest| < |s|
  {
    if s == [] then Outcome(EndOfInput, BraceDepth, [])
    else
      match ScanFrom(START, s)
      case Closed(n) => Outcome(Message(s[..n]), BraceDepth, s[n..])
      case Open(_) => Outcome(Message(s), BraceDepth, [])
  }

  function ReadBraceMode(s: seq<Byte>): (o: Outcome)
    ensures o.result.Message? ==> |o.rest| < |s|
    decreases |s|
  {
    var t := SkipSpace(s);
    if t == [] then Outcome(EndOfInput, BraceDepth, [])
    else if t[0] == CAPITAL_C then ReadContentLength(t)
    else if t[0] != OPEN then ReadBraceMode(t[1..])
    else ReadBraces(t)
  }

  // ------------------------------------------------------------------ any mode, any run

  /** The first byte that is not white space picks the framing. */
  function Detect(b: Byte): Mode {
    if b == OPEN then BraceDepth else if b == CAPITAL_C then ContentLength else Newline
  }

  function ReadMessage(mode: Mode, s: seq<Byte>): (o: Outcome)
    ensures o.result.Message? ==> |o.rest| < |s|
    decreases mode.Unknown?
  {
    match mode
    case Unknown =>
      var t := SkipSpace(s);
      if t == [] then Outcome(EndOfInput, Unknown, []) else ReadMessage(Detect(t[0]), t)
    case Newline => ReadNewline(s)
    case BraceDepth => ReadBraceMode(s)
    case ContentLength => ReadContentLength(s)
  }

  /** Everything a relay reads until the stream ends or fails. */
  datatype Transcript = Transcript(messages: seq<seq<Byte>>, last: Outcome)

  function ReadAll(mode: Mode, s: seq<Byte>): Transcript
    decreases |s|
  {
    var o := ReadMessage(mode, s);
    if o.result.Message? then
      var more := ReadAll(o.mode, o.rest);
      Transcript([o.result.body] + more.messages, more.last)
    else Transcript([], o)
  }
}
