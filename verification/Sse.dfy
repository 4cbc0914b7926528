/** Server-sent event lines (streaming.rs), split incrementally as chunks arrive. */
module Sse {
  import opened Options
  import opened Sequences

  const LF := '\n'
  const CR := '\r'

  function Concat(chunks: seq<string>): string {
    if chunks == [] then "" else chunks[0] + Concat(chunks[1..])
  }

  /** Where the last line feed ends, 0 if there is none. */
  function CompleteLength(buf: string): (n: nat)
    ensures n <= |buf|
    ensures n > 0 ==> buf[n - 1] == LF
  {
    if buf == "" then 0 else if buf[|buf| - 1] == LF then |buf| else CompleteLength(buf[..|buf| - 1])
  }

  /** Where the first line feed is, the length if there is none. */
  function FirstLine(s: string): (n: nat)
    ensures n <= |s|
  {
    if s == "" || s[0] == LF then 0 else 1 + FirstLine(s[1..])
  }

  /** str::lines: one carriage return before the line feed goes too. */
  function StripCr(line: string): string {
    if line != "" && line[|line| - 1] == CR then line[..|line| - 1] else line
  }

  /** Lines of a text made of whole lines. */
  function Lines(s: string): seq<string>
    decreases |s|
  {
    if FirstLine(s) == |s| then [] else [StripCr(s[..FirstLine(s)])] + Lines(s[FirstLine(s) + 1..])
  }

  datatype Split = Split(lines: seq<string>, remainder: string)

  function SplitSseLines(buf: string): Split {
    Split(Lines(buf[..CompleteLength(buf)]), buf[CompleteLength(buf)..])
  }

  predicate IsLineEnd(c: char) {
    c == CR || c == LF
  }

  function TrimLineEnds(s: string): string {
    if s != "" && IsLineEnd(s[|s| - 1]) then TrimLineEnds(s[..|s| - 1]) else s
  }

  const PREFIX := "data: "

  function ParseSseLine(line: string): Option<string> {
    var trimmed := TrimLineEnds(line);
    if !(PREFIX <= trimmed) then None
    else
      var data := trimmed[|PREFIX|..];
      if data == "[DONE]" || data == "" then None else Some(data)
  }

  function Payloads(lines: seq<string>): seq<string> {
    if lines == [] then []
    else (if ParseSseLine(lines[0]).Some? then [ParseSseLine(lines[0]).value] else []) + Payloads(lines[1..])
  }

  // ----------------------------------------------------------------- splitting a sum

  lemma {:induction false} HasFirstLine(s: string)
    requires s != "" && s[|s| - 1] == LF
    ensures FirstLine(s) < |s|
    decreases |s|
  {
    if s[0] != LF {
      HasFirstLine(s[1..]);
    }
  }

  lemma {:induction false} FirstLineInFront(s: string, more: string)
    requires FirstLine(s) < |s|
    ensures FirstLine(s + more) == FirstLine(s)
    decreases |s|
  {
    assert (s + more)[0] == s[0];
    if s[0] != LF {
      assert (s + more)[1..] == s[1..] + more;
      FirstLineInFront(s[1..], more);
    }
  }

  lemma OneLineInFront(s: string, more: string)
    requires FirstLine(s) < |s|
    ensures var n := FirstLine(s);
            Lines(s + more) == [StripCr(s[..n])] + Lines(s[n + 1..] + more)
  {
    var n := FirstLine(s);
    FirstLineInFront(s, more);
    assert (s + more)[..n] == s[..n] && (s + more)[n + 1..] == s[n + 1..] + more;
  }

  /** Whole lines followed by anything split where the whole lines end. */
  lemma {:induction false} LinesInFront(whole: string, more: string)
    requires whole == "" || whole[|whole| - 1] == LF
    ensures Lines(whole + more) == Lines(whole) + Lines(more)
    decreases |whole|
  {
    if whole == "" {
      assert whole + more == more;
    } else {
      HasFirstLine(whole);
      LinesInFront(whole[FirstLine(whole) + 1..], more);
      FirstLineGoes(whole, more, whole[FirstLine(whole) + 1..]);
    }
  }

  lemma FirstLineGoes(whole: string, more: string, rest: string)
    requires FirstLine(whole) < |whole| && rest == whole[FirstLine(whole) + 1..]
    requires Lines(rest + more) == Lines(rest) + Lines(more)
    ensures Lines(whole + more) == Lines(whole) + Lines(more)
  {
    OneLineInFront(whole, more);
    Regroup([StripCr(whole[..FirstLine(whole)])], Lines(rest), Lines(more));
  }

  lemma {:induction false} CompleteLengthOfSum(a: string, b: string)
    requires a == "" || a[|a| - 1] == LF
    ensures CompleteLength(a + b) == |a| + CompleteLength(b)
    decreases |b|
  {
    var s := a + b;
    if b == "" {
      assert s == a;
    } else if b[|b| - 1] == LF {
      assert s[|s| - 1] == LF;
    } else {
      assert s[..|s| - 1] == a + b[..|b| - 1];
      CompleteLengthOfSum(a, b[..|b| - 1]);
    }
  }

  lemma SplitIs(s: string, n: nat, whole: string, rest: string)
    requires n <= |s| && CompleteLength(s) == n && s[..n] == whole && s[n..] == rest
    ensures SplitSseLines(s) == Split(Lines(whole), rest)
  {
  }

  lemma SplitAfter(whole: string, tail: string, m: nat)
    requires whole == "" || whole[|whole| - 1] == LF
    requires m == CompleteLength(tail)
    ensures SplitSseLines(whole + tail) == Split(Lines(whole) + Lines(tail[..m]), tail[m..])
  {
    CompleteLengthOfSum(whole, tail);
    Cut(whole, tail, m);
    LinesInFront(whole, tail[..m]);
    SplitIs(whole + tail, |whole| + m, whole + tail[..m], tail[m..]);
  }

  lemma Cut(a: string, b: string, m: nat)
    requires m <= |b|
    ensures (a + b)[..|a| + m] == a + b[..m] && (a + b)[|a| + m..] == b[m..]
  {
  }

  /** Splitting a text is splitting a part of it and then the remainder with the rest. */
  lemma SplitInSteps(a: string, b: string)
    ensures var first := SplitSseLines(a);
            var second := SplitSseLines(first.remainder + b);
            SplitSseLines(a + b) == Split(first.lines + second.lines, second.remainder)
  {
    var n := CompleteLength(a);
    assert a + b == a[..n] + (a[n..] + b);
    SplitAfter(a[..n], a[n..] + b, CompleteLength(a[n..] + b));
  }

  /** The chunks that are texts.  One that is not valid UTF-8 by itself, as when a cut
      falls inside a character, is no text and is passed over. */
  function Readable(chunks: seq<Option<string>>): seq<string> {
    if chunks == [] then []
    else (if chunks[0].Some? then [chunks[0].value] else []) + Readable(chunks[1..])
  }

  /** What the stream handlers do: append each chunk to the buffer, take out the lines,
      keep the remainder.  For every way of cutting a text into readable chunks the lines,
      the payloads and the final remainder are those of the uncut text. */
  method ReadStream(chunks: seq<Option<string>>) returns (lines: seq<string>, payloads: seq<string>, buffer: string)
    ensures Split(lines, buffer) == SplitSseLines(Concat(Readable(chunks)))
    ensures payloads == Payloads(lines)
  {
    lines, payloads, buffer := [], [], "";
    ghost var seen := "";
    for i := 0 to |chunks|
      invariant seen + Concat(Readable(chunks[i..])) == Concat(Readable(chunks))
      invariant Split(lines, buffer) == SplitSseLines(seen)
      invariant payloads == Payloads(lines)
    {
      NextChunk(seen, chunks, i);
      if chunks[i].Some? {
        var text := chunks[i].value;
        SplitInSteps(seen, text);
        seen := seen + text;
        var split := SplitSseLines(buffer + text);
        PayloadsOfSum(lines, split.lines);
        lines, payloads, buffer := lines + split.lines, payloads + Payloads(split.lines), split.remainder;
      }
    }
    assert seen + "" == seen;
  }

  lemma NextChunk(seen: string, chunks: seq<Option<string>>, i: nat)
    requires i < |chunks|
    ensures seen + Concat(Readable(chunks[i..]))
         == (if chunks[i].Some? then seen + chunks[i].value else seen) + Concat(Readable(chunks[i + 1..]))
  {
    assert chunks[i..][1..] == chunks[i + 1..];
    var rest := Readable(chunks[i + 1..]);
    if chunks[i].Some? {
      assert ([chunks[i].value] + rest)[1..] == rest;
    } else {
      assert [] + rest == rest;
    }
  }

  lemma {:induction false} PayloadsOfSum(a: seq<string>, b: seq<string>)
    ensures Payloads(a + b) == Payloads(a) + Payloads(b)
    decreases |a|
  {
    if a == [] {
      assert a + b == b;
    } else {
      assert (a + b)[1..] == a[1..] + b;
      PayloadsOfSum(a[1..], b);
    }
  }

  // ----------------------------------------------------------------- writing and reading

  function Ending(crlf: bool): string {
    if crlf then "\r\n" else "\n"
  }

  /** A line in front of either ending; before a lone line feed it must not end with a
      carriage return, which would count as part of the ending. */
  predicate OneLine(text: string, crlf: bool) {
    LF !in text && (crlf || text == "" || text[|text| - 1] != CR)
  }

  function WriteAll(lines: seq<string>, crlf: seq<bool>): string
    requires |lines| == |crlf|
  {
    if lines == [] then "" else lines[0] + Ending(crlf[0]) + WriteAll(lines[1..], crlf[1..])
  }

  /** Lines written, each with either ending, are read back exactly, and a text without a
      line feed after them is the remainder. */
  lemma {:induction false} LinesReadBack(lines: seq<string>, crlf: seq<bool>, more: string)
    requires |lines| == |crlf| && (forall i :: 0 <= i < |lines| ==> OneLine(lines[i], crlf[i])) && LF !in more
    ensures SplitSseLines(WriteAll(lines, crlf) + more) == Split(lines, more)
    decreases |lines|
  {
    var s := WriteAll(lines, crlf);
    WrittenInWholeLines(lines, crlf);
    LinesOfWritten(lines, crlf);
    NoCompleteLine(more);
    SplitAfter(s, more, 0);
    assert more[..0] == "" && more[0..] == more && Lines("") == [];
    NothingAdded(lines, []);
  }

  lemma {:induction false} NoCompleteLine(s: string)
    requires LF !in s
    ensures CompleteLength(s) == 0
    decreases |s|
  {
    if s != "" {
      NoCompleteLine(s[..|s| - 1]);
    }
  }

  lemma {:induction false} WrittenInWholeLines(lines: seq<string>, crlf: seq<bool>)
    requires |lines| == |crlf|
    ensures var s := WriteAll(lines, crlf); s == "" || s[|s| - 1] == LF
    decreases |lines|
  {
    if lines != [] {
      WrittenInWholeLines(lines[1..], crlf[1..]);
    }
  }

  lemma {:induction false} LinesOfWritten(lines: seq<string>, crlf: seq<bool>)
    requires |lines| == |crlf| && forall i :: 0 <= i < |lines| ==> OneLine(lines[i], crlf[i])
    ensures Lines(WriteAll(lines, crlf)) == lines
    decreases |lines|
  {
    if lines != [] {
      var first, more := lines[0] + Ending(crlf[0]), WriteAll(lines[1..], crlf[1..]);
      WrittenLine(lines[0], crlf[0]);
      LinesOfWritten(lines[1..], crlf[1..]);
      LineAndMore(first, lines[0], more, lines[1..]);
      assert lines == [lines[0]] + lines[1..];
    }
  }

  lemma LineAndMore(first: string, text: string, more: string, lines: seq<string>)
    requires first != "" && first[|first| - 1] == LF && Lines(first) == [text] && Lines(more) == lines
    ensures Lines(first + more) == [text] + lines
  {
    LinesInFront(first, more);
  }

  lemma WrittenLine(text: string, crlf: bool)
    requires OneLine(text, crlf)
    ensures Lines(text + Ending(crlf)) == [text]
  {
    var line := text + Ending(crlf);
    var before := text + (if crlf then "\r" else "");
    assert line == before + "\n";
    FirstLineAfter(before, "\n");
    assert line[..|before|] == before && line[|before| + 1..] == "";
    assert StripCr(before) == text by {
      if crlf {
        assert before[..|before| - 1] == text;
      } else {
        assert before == text;
      }
    }
  }

  lemma {:induction false} FirstLineAfter(before: string, more: string)
    requires LF !in before && more != "" && more[0] == LF
    ensures FirstLine(before + more) == |before|
    decreases |before|
  {
    if before == "" {
      assert before + more == more;
    } else {
      assert (before + more)[1..] == before[1..] + more;
      FirstLineAfter(before[1..], more);
    }
  }

  /** A data line carries its payload, whatever line end is still on it; "[DONE]" and
      the empty payload are no payload. */
  lemma PayloadReadBack(data: string, ending: string)
    requires forall i :: 0 <= i < |ending| ==> IsLineEnd(ending[i])
    requires data == "" || !IsLineEnd(data[|data| - 1])
    ensures ParseSseLine("data: " + data + ending) == if data == "" || data == "[DONE]" then None else Some(data)
  {
    TrimOff(PREFIX + data, ending);
    assert (PREFIX + data)[|PREFIX|..] == data;
  }

  /** A line that does not start with "data: " carries no payload. */
  lemma NoPayload(text: string, ending: string)
    requires forall i :: 0 <= i < |ending| ==> IsLineEnd(ending[i])
    requires text != "" && !IsLineEnd(text[|text| - 1]) && !("data: " <= text)
    ensures ParseSseLine(text + ending) == None && ParseSseLine(ending) == None
  {
    TrimOff(text, ending);
    OnlyEnds(ending);
  }

  lemma {:induction false} OnlyEnds(ending: string)
    requires forall i :: 0 <= i < |ending| ==> IsLineEnd(ending[i])
    ensures TrimLineEnds(ending) == ""
    decreases |ending|
  {
    if ending != "" {
      OnlyEnds(ending[..|ending| - 1]);
    }
  }

  lemma {:induction false} TrimOff(s: string, ending: string)
    requires forall i :: 0 <= i < |ending| ==> IsLineEnd(ending[i])
    requires s != "" && !IsLineEnd(s[|s| - 1])
    ensures TrimLineEnds(s + ending) == s
    decreases |ending|
  {
    if ending == "" {
      assert s + ending == s;
    } else {
      assert (s + ending)[..|s + ending| - 1] == s + ending[..|ending| - 1];
      TrimOff(s, ending[..|ending| - 1]);
    }
  }
}
