/** Lines of text as bytes, and newline framing written and read back. */
module TextLines {
  import opened Framing
  import opened FrameReader
  import opened Utf8Text

  /** A line by its parts: white space, what is not, white space. */
  datatype Line = Line(before: seq<Point>, text: seq<Point>, after: seq<Point>)

  function Points(l: Line): seq<Point> {
    l.before + l.text + l.after
  }

  predicate IsLine(l: Line) {
    AllWhite(l.before) && AllWhite(l.after) && (l.text == [] || Tight(l.text)) && 10 !in Points(l)
  }

  /** The bytes of a line; a carriage return before the line feed is white space of it. */
  function PrintLine(l: Line): seq<Byte> {
    EncodeText(Points(l)) + [10]
  }

  function PrintLines(ls: seq<Line>): seq<Byte> {
    if ls == [] then [] else PrintLine(ls[0]) + PrintLines(ls[1..])
  }

  predicate AreLines(ls: seq<Line>) {
    forall i :: 0 <= i < |ls| ==> IsLine(ls[i])
  }

  lemma {:induction false} SkipWhite(text: seq<Point>) returns (n: nat)
    ensures n <= |text| && AllWhite(text[..n]) && (n < |text| ==> !White(text[n]))
    decreases |text|
  {
    n := 0;
    while n < |text| && White(text[n])
      invariant n <= |text| && AllWhite(text[..n])
    {
      n := n + 1;
    }
  }

  lemma {:induction false} SkipWhiteBack(text: seq<Point>) returns (n: nat)
    ensures n <= |text| && AllWhite(text[n..]) && (n > 0 ==> !White(text[n - 1]))
    ensures forall i :: n <= i < |text| ==> White(text[i])
  {
    n := |text|;
    while n > 0 && White(text[n - 1])
      invariant n <= |text| && AllWhite(text[n..]) && forall i :: n <= i < |text| ==> White(text[i])
    {
      n := n - 1;
    }
  }

  /** Every text without a line feed is a line, in this sense. */
  lemma EveryLine(text: seq<Point>) returns (l: Line)
    requires 10 !in text
    ensures IsLine(l) && Points(l) == text
  {
    var m := SkipWhite(text);
    if m == |text| {
      assert text[..m] == text;
      l := Line(text, [], []);
      assert text + [] + [] == text;
    } else {
      var rest := text[m..];
      var n := SkipWhiteBack(rest);
      assert !White(rest[0]);
      l := Line(text[..m], rest[..n], rest[n..]);
      assert text[..m] + rest[..n] + rest[n..] == text;
    }
  }

  lemma {:induction false} FeedEnds(text: seq<Byte>, more: seq<Byte>)
    requires forall i :: 0 <= i < |text| ==> text[i] != 10
    ensures LineLength(text + [10] + more) == |text| + 1
    decreases |text|
  {
    var s := text + [10] + more;
    if text != [] {
      assert s[1..] == text[1..] + [10] + more;
      FeedEnds(text[1..], more);
    }
  }

  /** What the reader makes of a line that is ahead. */
  lemma LineAhead(l: Line, more: seq<Byte>)
    requires IsLine(l)
    ensures var s, n := PrintLine(l) + more, LineLength(PrintLine(l) + more);
            s != [] && s[..n] == PrintLine(l) && s[n..] == more && n == |PrintLine(l)|
    ensures Utf8(PrintLine(l)) && Trim(PrintLine(l)) == EncodeText(l.text)
  {
    var text := EncodeText(Points(l));
    NoLineFeed(Points(l));
    FeedEnds(text, more);
    EncodeAppend(Points(l), [10]);
    EncodeOne(10);
    assert Points(l) + [10] == l.before + l.text + (l.after + [10]);
    EncodedIsUtf8(Points(l) + [10]);
    TrimIs(l.before, l.text, l.after + [10]);
  }

  // ------------------------------------------------------------------------ newline frames

  function Messages(ls: seq<Line>): seq<seq<Byte>> {
    if ls == [] then []
    else (if ls[0].text == [] then [] else [EncodeText(ls[0].text)]) + Messages(ls[1..])
  }

  lemma OneNewlineFrame(l: Line, more: seq<Byte>)
    requires IsLine(l)
    ensures ReadNewline(PrintLine(l) + more)
         == if l.text == [] then ReadNewline(more) else Outcome(Message(EncodeText(l.text)), Newline, more)
  {
    LineAhead(l, more);
    if l.text != [] {
      assert EncodeText(l.text) == EncodePoint(l.text[0]) + EncodeText(l.text[1..]);
    }
  }

  /** Lines of text, with any white space around them and blank lines between, are read as
      the messages they hold, without the white space. */
  lemma {:induction false} LinesReadBack(ls: seq<Line>)
    requires AreLines(ls)
    ensures ReadAll(Newline, PrintLines(ls)) == Transcript(Messages(ls), Outcome(EndOfInput, Newline, []))
    decreases |ls|
  {
    if ls != [] {
      OneNewlineFrame(ls[0], PrintLines(ls[1..]));
      LinesReadBack(ls[1..]);
    }
  }

  lemma {:induction false} NoFeed(text: seq<Byte>)
    requires forall i :: 0 <= i < |text| ==> text[i] != 10
    ensures LineLength(text) == |text|
    decreases |text|
  {
    if text != [] {
      NoFeed(text[1..]);
    }
  }

  /** The last line needs no line feed. */
  lemma LastLine(l: Line)
    requires IsLine(l)
    ensures ReadNewline(EncodeText(Points(l)))
         == if l.text == [] then Outcome(EndOfInput, Newline, []) else Outcome(Message(EncodeText(l.text)), Newline, [])
  {
    var s := EncodeText(Points(l));
    NoLineFeed(Points(l));
    NoFeed(s);
    assert s[..|s|] == s && s[|s|..] == [];
    EncodedIsUtf8(Points(l));
    TrimIs(l.before, l.text, l.after);
    if l.text != [] {
      assert EncodeText(l.text) == EncodePoint(l.text[0]) + EncodeText(l.text[1..]);
    }
  }

  /** A line that is not encoded in UTF-8 ends the stream with an error. */
  lemma NotText(line: seq<Byte>, more: seq<Byte>)
    requires (forall i :: 0 <= i < |line| ==> line[i] != 10) && !Utf8(line + [10])
    ensures ReadNewline(line + [10] + more) == Outcome(Failed(InvalidUtf8), Newline, more)
  {
    FeedEnds(line, more);
    var s := line + [10] + more;
    assert s[..|line| + 1] == line + [10] && s[|line| + 1..] == more;
  }

  // --------------------------------------------------------------- detecting newline frames

  /** What comes first, white space aside, is there and is neither "{" nor "C". */
  predicate Plain(s: seq<Byte>) {
    SkipSpace(s) != [] && SkipSpace(s)[0] != 123 && SkipSpace(s)[0] != 67
  }

  lemma PlainByte(s: seq<Byte>)
    requires s != []
    ensures Plain(s) <==> if IsAsciiSpace(s[0]) then Plain(s[1..]) else s[0] != 123 && s[0] != 67
  {
  }

  lemma FirstByte(c: Point, rest: seq<Byte>)
    ensures var s := EncodePoint(c) + rest;
            if c < 0x80 then s[0] == c && s[1..] == rest else s[0] >= 0xC0
  {
  }

  lemma {:induction false} WhiteThenPlain(white: seq<Point>, rest: seq<Byte>)
    requires AllWhite(white) && Plain(rest)
    ensures Plain(EncodeText(white) + rest)
    decreases |white|
  {
    if white == [] {
      assert EncodeText(white) + rest == rest;
    } else {
      var more := EncodeText(white[1..]) + rest;
      WhiteThenPlain(white[1..], rest);
      assert EncodeText(white) + rest == EncodePoint(white[0]) + more;
      FirstByte(white[0], more);
      PlainByte(EncodePoint(white[0]) + more);
    }
  }

  lemma TextIsPlain(text: seq<Point>, rest: seq<Byte>)
    requires text != [] && !White(text[0]) && text[0] != 123 && text[0] != 67
    ensures Plain(EncodeText(text) + rest)
  {
    var more := EncodeText(text[1..]) + rest;
    assert EncodeText(text) + rest == EncodePoint(text[0]) + more;
    FirstByte(text[0], more);
    PlainByte(EncodePoint(text[0]) + more);
  }

  lemma LineIsPlain(l: Line, more: seq<Byte>)
    requires IsLine(l) && l.text != [] && l.text[0] != 123 && l.text[0] != 67
    ensures Plain(PrintLine(l) + more)
  {
    var tail := l.text + l.after;
    assert l.before + l.text + l.after == l.before + tail;
    EncodeAppend(l.before, tail);
    TextIsPlain(tail, [10] + more);
    WhiteThenPlain(l.before, EncodeText(tail) + ([10] + more));
    assert PrintLine(l) + more == EncodeText(l.before) + (EncodeText(tail) + ([10] + more));
  }

  lemma BlankThenPlain(l: Line, more: seq<Byte>)
    requires IsLine(l) && l.text == [] && Plain(more)
    ensures Plain(PrintLine(l) + more)
  {
    EncodeAppend(Points(l), [10]);
    EncodeOne(10);
    WhiteThenPlain(Points(l) + [10], more);
  }

  lemma {:induction false} LinesArePlain(ls: seq<Line>, k: nat)
    requires AreLines(ls) && k < |ls| && (forall i :: 0 <= i < k ==> ls[i].text == [])
    requires ls[k].text != [] && ls[k].text[0] != 123 && ls[k].text[0] != 67
    ensures Plain(PrintLines(ls))
    decreases k
  {
    if k == 0 {
      LineIsPlain(ls[0], PrintLines(ls[1..]));
    } else {
      LinesArePlain(ls[1..], k - 1);
      BlankThenPlain(ls[0], PrintLines(ls[1..]));
    }
  }

  /** From undetected framing: so they are if the first line that is not blank, line `k`,
      starts with neither "{" nor "C". */
  lemma LinesDetected(ls: seq<Line>, k: nat)
    requires AreLines(ls) && k < |ls| && (forall i :: 0 <= i < k ==> ls[i].text == [])
    requires ls[k].text != [] && ls[k].text[0] != 123 && ls[k].text[0] != 67
    ensures ReadAll(Unknown, PrintLines(ls)) == Transcript(Messages(ls), Outcome(EndOfInput, Newline, []))
  {
    LinesArePlain(ls, k);
    LinesReadBack(ls);
    LeadingSpaceIrrelevant(Newline, PrintLines(ls));
  }
}
