/** The relay's reader: a buffer filled from a source that hands over its bytes in
    arbitrary non-empty pieces.  Every method is proved against the whole-stream
    functions of Framing, so no split into pieces can change what is read. */
module FrameReader {
  import opened Framing
  import opened Sequences

  function Flatten(chunks: seq<seq<Byte>>): seq<Byte> {
    if chunks == [] then [] else chunks[0] + Flatten(chunks[1..])
  }

  class Reader {
    var buffer: seq<Byte>
    var chunks: seq<seq<Byte>>

    ghost predicate Valid()
      reads this
    {
      forall i :: 0 <= i < |chunks| ==> chunks[i] != []
    }

    /** All bytes not yet consumed. */
    ghost function Rest(): seq<Byte>
      reads this
    {
      buffer + Flatten(chunks)
    }

    constructor (pieces: seq<seq<Byte>>)
      requires forall i :: 0 <= i < |pieces| ==> pieces[i] != []
      ensures Valid() && Rest() == Flatten(pieces)
    {
      buffer := [];
      chunks := pieces;
    }

    method FillBuf() returns (buf: seq<Byte>)
      requires Valid()
      modifies this
      ensures Valid() && Rest() == old(Rest()) && buf == buffer
      ensures buf == [] <==> Rest() == []
    {
      if buffer == [] && chunks != [] {
        buffer := chunks[0];
        chunks := chunks[1..];
      }
      buf := buffer;
    }

    method Consume(n: nat)
      requires Valid() && n <= |buffer|
      modifies this`buffer
      ensures Valid() && Rest() == old(Rest())[n..] && buffer == old(buffer)[n..]
    {
      buffer := buffer[n..];
    }

    /** Everything up to the next line feed, or to the end of input. */
    method ReadUntilLf() returns (line: seq<Byte>)
      requires Valid()
      modifies this
      ensures Valid()
      ensures line == old(Rest())[..LineLength(old(Rest()))]
      ensures Rest() == old(Rest())[LineLength(old(Rest()))..]
    {
      ghost var s := Rest();
      line := [];
      var buf := FillBuf();
      while buf != []
        invariant Valid() && line + Rest() == s && buf == buffer
        invariant buf == [] <==> Rest() == []
        invariant LineLength(s) == |line| + LineLength(Rest())
        decreases |Rest()|
      {
        var n := LineLength(buf);
        LineStep(s, line, buf, Flatten(chunks));
        line := line + buf[..n];
        Consume(n);
        if buf[n - 1] == LF {
          return;
        }
        buf := FillBuf();
      }
    }

    /** One line, which must be well-formed UTF-8; it is consumed either way. */
    method ReadLine() returns (valid: bool, line: seq<Byte>)
      requires Valid()
      modifies this
      ensures Valid()
      ensures line == old(Rest())[..LineLength(old(Rest()))] && valid == Utf8(line)
      ensures Rest() == old(Rest())[LineLength(old(Rest()))..]
    {
      line := ReadUntilLf();
      valid := Utf8(line);
    }

    method ReadExact(length: nat) returns (ok: bool, body: seq<Byte>)
      requires Valid()
      modifies this
      ensures Valid()
      ensures ok == (length <= |old(Rest())|)
      ensures ok ==> body == old(Rest())[..length] && Rest() == old(Rest())[length..]
      ensures !ok ==> Rest() == []
    {
      ghost var s := Rest();
      body := [];
      while |body| < length
        invariant Valid() && |body| <= length && body + Rest() == s
        decreases length - |body|
      {
        var buf := FillBuf();
        if buf == [] {
          return false, body;
        }
        var n := if |buf| < length - |body| then |buf| else length - |body|;
        MoveOver(body, buf, Flatten(chunks), n);
        body := body + buf[..n];
        Consume(n);
      }
      ok := true;
    }

    method ReadBraceDelimited() returns (result: ReadResult)
      requires Valid()
      modifies this
      ensures Valid() && Outcome(result, BraceDepth, Rest()) == ReadBraces(old(Rest()))
    {
      ghost var s := Rest();
      var message := [];
      var st := START;
      while true
        invariant Valid() && message + Rest() == s
        invariant ScanFrom(START, s) == Shift(ScanFrom(st, Rest()), |message|)
        decreases |Rest()|
      {
        var available := FillBuf();
        if available == [] {
          assert message == s;
          return if message == [] then EndOfInput else Message(message);
        }
        ScanAcross(st, available, Flatten(chunks));
        var closed, consumed, st' := ScanFill(st, available);
        MoveOver(message, available, Flatten(chunks), consumed);
        message := message + available[..consumed];
        st := st';
        Consume(consumed);
        if closed {
          return Message(message);
        }
      }
    }

    /** Reads lines up to the Content-Length header; the second of three results is false at end of input. */
    method ReadHeader() returns (valid: bool, found: bool, length: seq<Byte>)
      requires Valid()
      modifies this
      ensures Valid()
      ensures match FindHeader(old(Rest()))
              case NoHeader => valid && !found && Rest() == []
              case BadHeader(rest) => !valid && Rest() == rest
              case Header(text, rest) => valid && found && length == text && Rest() == rest
    {
      length := [];
      while true
        invariant Valid() && FindHeader(Rest()) == FindHeader(old(Rest()))
        decreases |Rest()|
      {
        ghost var s := Rest();
        var line;
        valid, line := ReadLine();
        if !valid {
          return false, false, [];
        }
        if line == [] {
          return true, false, [];
        }
        if StartsWithHeader(Trim(line)) {
          return true, true, Trim(Trim(line)[|HEADER|..]);
        }
      }
    }

    method SkipToBlank() returns (valid: bool, found: bool)
      requires Valid()
      modifies this
      ensures Valid()
      ensures match FindBlank(old(Rest()))
              case NoHeader => valid && !found && Rest() == []
              case BadHeader(rest) => !valid && Rest() == rest
              case Header(_, rest) => valid && found && Rest() == rest
    {
      while true
        invariant Valid() && FindBlank(Rest()) == FindBlank(old(Rest()))
        decreases |Rest()|
      {
        var line;
        valid, line := ReadLine();
        if !valid {
          return false, false;
        }
        if line == [] {
          return true, false;
        }
        if Trim(line) == [] {
          return true, true;
        }
      }
    }

    method ReadContentLengthFrame() returns (result: ReadResult)
      requires Valid()
      modifies this
      ensures Valid() && Outcome(result, ContentLength, Rest()) == ReadContentLength(old(Rest()))
    {
      var valid, found, text := ReadHeader();
      if !valid {
        return Failed(InvalidUtf8);
      }
      if !found {
        return EndOfInput;
      }
      var length := ParseLength(text);
      if length < 0 {
        return Failed(InvalidLength);
      }
      valid, found := SkipToBlank();
      if !valid {
        return Failed(InvalidUtf8);
      }
      if !found {
        return EndOfInput;
      }
      var ok, body := ReadExact(length);
      result := if ok then Message(body) else Failed(UnexpectedEof);
    }

    method SkipSpaces() returns (buf: seq<Byte>)
      requires Valid()
      modifies this
      ensures Valid() && Rest() == SkipSpace(old(Rest())) && buf == buffer
      ensures buf == [] <==> Rest() == []
    {
      buf := FillBuf();
      while buf != [] && IsAsciiSpace(buf[0])
        invariant Valid() && buf == buffer && (buf == [] <==> Rest() == [])
        invariant SkipSpace(Rest()) == SkipSpace(old(Rest()))
        decreases |Rest()|
      {
        Consume(1);
        buf := FillBuf();
      }
    }

    /** One message.  The mode is detected from the first fill that holds anything but
        white space; the bytes stay in the buffer for the detected mode to read. */
    method NextMessage(mode: Mode) returns (result: ReadResult, mode': Mode)
      requires Valid()
      modifies this
      ensures Valid() && Outcome(result, mode', Rest()) == ReadMessage(mode, old(Rest()))
    {
      mode' := mode;
      while true
        invariant Valid() && ReadMessage(mode', Rest()) == ReadMessage(mode, old(Rest()))
        decreases |Rest()|, if mode'.Unknown? then 2 else if mode'.BraceDepth? then 1 else 0
      {
        match mode' {
          case Unknown =>
            var buf := FillBuf();
            if buf == [] {
              return EndOfInput, mode';
            }
            SpaceAcross(buf, Flatten(chunks));
            var first := SkipSpace(buf);
            if first == [] {
              Consume(|buf|);
              assert buf + Flatten(chunks) == buf + Rest();
            } else {
              mode' := Detect(first[0]);
              LeadingSpaceIrrelevant(mode', Rest());
            }
          case Newline =>
            var valid, line := ReadLine();
            if !valid {
              return Failed(InvalidUtf8), mode';
            }
            if line == [] {
              return EndOfInput, mode';
            }
            if Trim(line) != [] {
              return Message(Trim(line)), mode';
            }
          case BraceDepth =>
            var buf := SkipSpaces();
            if buf == [] {
              return EndOfInput, mode';
            }
            if buf[0] == CAPITAL_C {
              mode' := ContentLength;
            } else if buf[0] != OPEN {
              Consume(1);
            } else {
              result := ReadBraceDelimited();
              return;
            }
          case ContentLength =>
            result := ReadContentLengthFrame();
            return;
        }
      }
    }

    /** The relay's read loop: all messages until the stream ends or fails. */
    method Drain(mode: Mode) returns (messages: seq<seq<Byte>>, result: ReadResult, mode': Mode)
      requires Valid()
      modifies this
      ensures Valid()
      ensures Transcript(messages, Outcome(result, mode', Rest())) == ReadAll(mode, old(Rest()))
    {
      messages, mode' := [], mode;
      ghost var s := Rest();
      while true
        invariant Valid()
        invariant Prepend(messages, ReadAll(mode', Rest())) == ReadAll(mode, s)
        decreases |Rest()|
      {
        ghost var before, all := messages, ReadAll(mode', Rest());
        result, mode' := NextMessage(mode');
        if !result.Message? {
          return;
        }
        messages := messages + [result.body];
        assert before + ([result.body] + ReadAll(mode', Rest()).messages)
            == messages + ReadAll(mode', Rest()).messages;
      }
    }
  }

  /** The scan over one buffer fill: stops after the byte that closes the frame. */
  method ScanFill(start: Scan, available: seq<Byte>) returns (closed: bool, consumed: nat, st: Scan)
    ensures closed ==> ScanFrom(start, available) == Closed(consumed)
    ensures !closed ==> ScanFrom(start, available) == Open(st) && consumed == |available|
    ensures consumed <= |available|
  {
    consumed, st := 0, start;
    while consumed < |available|
      invariant consumed <= |available|
      invariant ScanFrom(start, available) == Shift(ScanFrom(st, available[consumed..]), consumed)
    {
      var byte := available[consumed];
      assert available[consumed..][1..] == available[consumed + 1..];
      consumed := consumed + 1;
      if Closes(st, byte) {
        return true, consumed, st;
      }
      st := Step(st, byte);
    }
    closed := false;
  }

  function Prepend(messages: seq<seq<Byte>>, t: Transcript): Transcript {
    t.(messages := messages + t.messages)
  }

  function Shift(r: ScanResult, n: nat): ScanResult {
    match r
    case Closed(k) => Closed(k + n)
    case Open(_) => r
  }

  lemma {:induction false} LineAcross(buf: seq<Byte>, more: seq<Byte>)
    requires buf != []
    ensures LineLength(buf + more)
         == LineLength(buf) + if buf[LineLength(buf) - 1] == LF then 0 else LineLength(more)
    ensures buf[LineLength(buf) - 1] != LF ==> LineLength(buf) == |buf|
    decreases |buf|
  {
    assert (buf + more)[1..] == buf[1..] + more;
    if buf[0] != LF {
      if |buf| > 1 {
        LineAcross(buf[1..], more);
      } else {
        assert buf[1..] + more == more;
      }
    }
  }

  lemma LineStep(s: seq<Byte>, line: seq<Byte>, buf: seq<Byte>, more: seq<Byte>)
    requires s == line + (buf + more) && buf != []
    requires LineLength(s) == |line| + LineLength(buf + more)
    ensures var n := LineLength(buf);
            s == line + buf[..n] + (buf + more)[n..] &&
            if buf[n - 1] == LF then LineLength(s) == |line| + n
            else LineLength(s) == |line| + n + LineLength((buf + more)[n..])
  {
    LineAcross(buf, more);
    MoveOver(line, buf, more, LineLength(buf));
  }

  lemma {:induction false} ScanAcross(st: Scan, a: seq<Byte>, b: seq<Byte>)
    ensures ScanFrom(st, a + b)
         == match ScanFrom(st, a)
            case Closed(n) => Closed(n)
            case Open(st') => Shift(ScanFrom(st', b), |a|)
    decreases |a|
  {
    if a == [] {
      assert a + b == b;
    } else {
      assert (a + b)[1..] == a[1..] + b;
      if !Closes(st, a[0]) {
        ScanAcross(Step(st, a[0]), a[1..], b);
      }
    }
  }

  lemma {:induction false} SpaceAcross(buf: seq<Byte>, more: seq<Byte>)
    ensures SkipSpace(buf + more) == if SkipSpace(buf) == [] then SkipSpace(more) else SkipSpace(buf) + more
    decreases |buf|
  {
    if buf == [] {
      assert buf + more == more;
    } else {
      assert (buf + more)[1..] == buf[1..] + more;
      SpaceAcross(buf[1..], more);
    }
  }

  // ------------------------------- unread white space makes no difference to any mode

  lemma SpaceBeforeLine(b: Byte, s: seq<Byte>)
    requires IsAsciiSpace(b)
    ensures var line := ([b] + s)[..LineLength([b] + s)];
            if b == LF || s == [] then line == [b] && Trim(line) == [] && Utf8(line)
            else line == [b] + s[..LineLength(s)] && LineLength([b] + s) == 1 + LineLength(s) &&
                 Trim(line) == Trim(s[..LineLength(s)]) && Utf8(line) == Utf8(s[..LineLength(s)])
  {
    var t := [b] + s;
    assert t[1..] == s;
    if b == LF || s == [] {
      assert LineLength(t) == 1;
      var line := t[..1];
      assert line == [b] && line[1..] == [];
      assert TrimStart(line) == [];
    } else {
      var line := t[..LineLength(t)];
      assert line == [b] + s[..LineLength(s)];
      assert line[1..] == s[..LineLength(s)];
      assert LeadingSpace(line) == 1;
    }
  }

  lemma SpaceBeforeNewline(b: Byte, s: seq<Byte>)
    requires IsAsciiSpace(b)
    ensures ReadNewline([b] + s) == ReadNewline(s)
  {
    SpaceBeforeLine(b, s);
    var t := [b] + s;
    if b == LF || s == [] {
      assert LineLength(t) == 1 && t[1..] == s;
    } else {
      assert t[LineLength(t)..] == s[LineLength(s)..];
    }
  }

  lemma SpaceBeforeContentLength(b: Byte, s: seq<Byte>)
    requires IsAsciiSpace(b)
    ensures ReadContentLength([b] + s) == ReadContentLength(s)
  {
    SpaceBeforeLine(b, s);
    var t := [b] + s;
    if b == LF || s == [] {
      assert LineLength(t) == 1 && t[1..] == s;
      assert FindHeader(t) == FindHeader(s);
    } else {
      assert t[LineLength(t)..] == s[LineLength(s)..];
      assert FindHeader(t) == FindHeader(s);
    }
  }

  lemma {:induction false} LeadingSpaceIrrelevant(mode: Mode, s: seq<Byte>)
    requires !mode.Unknown?
    ensures ReadMessage(mode, s) == ReadMessage(mode, SkipSpace(s))
    decreases |s|
  {
    if s != [] && IsAsciiSpace(s[0]) {
      assert s == [s[0]] + s[1..];
      LeadingSpaceIrrelevant(mode, s[1..]);
      if mode.Newline? {
        SpaceBeforeNewline(s[0], s[1..]);
      } else if mode.ContentLength? {
        SpaceBeforeContentLength(s[0], s[1..]);
      } else {
        SkipSpaceTwice(s[1..]);
      }
    }
  }

  lemma SkipSpaceTwice(s: seq<Byte>)
    ensures SkipSpace(SkipSpace(s)) == SkipSpace(s)
  {
  }

  /** Chunk independence: what a fresh reader reads from `pieces` is a function of
      their concatenation alone. */
  method ReadPieces(pieces: seq<seq<Byte>>)
    returns (messages: seq<seq<Byte>>, result: ReadResult, mode: Mode)
    requires forall i :: 0 <= i < |pieces| ==> pieces[i] != []
    ensures var whole := ReadAll(Unknown, Flatten(pieces));
            messages == whole.messages && result == whole.last.result && mode == whole.last.mode
  {
    var reader := new Reader(pieces);
    messages, result, mode := reader.Drain(Unknown);
  }
}
