/** Content-Length frames with any other header lines, written and read back. */
module HeaderFrames {
  import opened Framing
  import opened FrameReader
  import opened Utf8Text
  import opened TextLines
  import opened Sequences

  /** "content-length:" */
  const NAME: seq<Point> := [99, 111, 110, 116, 101, 110, 116, 45, 108, 101, 110, 103, 116, 104, 58]

  /** A text that starts with the name, in any case of its letters. */
  predicate Named(text: seq<Point>) {
    |text| >= 15 && forall i :: 0 <= i < 15 ==> text[i] == NAME[i] || (NAME[i] >= 97 && text[i] == NAME[i] - 32)
  }

  predicate Digits(text: seq<Point>) {
    forall i :: 0 <= i < |text| ==> 48 <= text[i] <= 57
  }

  function Value(digits: seq<Point>): int
    decreases |digits|
  {
    if digits == [] then 0 else 10 * Value(digits[..|digits| - 1]) + (digits[|digits| - 1] as int - 48)
  }

  /** `number` writes `n`: digits, any zeros in front, maybe a plus sign before them. */
  predicate Writes(number: seq<Point>, n: nat) {
    var digits := if number != [] && number[0] == 43 then number[1..] else number;
    digits != [] && Digits(digits) && Value(digits) == n
  }

  /** A frame: other lines, the length, further lines, a blank line, the body. */
  datatype Frame = Frame(
    earlier: seq<Line>, lead: seq<Point>, name: seq<Point>, gap: seq<Point>, number: seq<Point>, trail: seq<Point>,
    further: seq<Line>, blank: seq<Point>, body: seq<Byte>)

  predicate WhiteInLine(text: seq<Point>) {
    AllWhite(text) && 10 !in text
  }

  predicate IsFrame(f: Frame) {
    IsOpening(f) && Writes(f.number, |f.body|) && |f.body| < 0x1_0000_0000_0000_0000
  }

  /** The lines of a frame, whatever stands for its length. */
  predicate IsOpening(f: Frame) {
    AreLines(f.earlier) && (forall i :: 0 <= i < |f.earlier| ==> !Named(f.earlier[i].text)) &&
    WhiteInLine(f.lead) && WhiteInLine(f.gap) && WhiteInLine(f.trail) && WhiteInLine(f.blank) &&
    |f.name| == 15 && Named(f.name) && (f.number == [] || Tight(f.number)) && 10 !in f.number &&
    AreLines(f.further) && forall i :: 0 <= i < |f.further| ==> f.further[i].text != []
  }

  function LengthLine(f: Frame): Line {
    if f.number == [] then Line(f.lead, f.name, f.gap + f.trail)
    else Line(f.lead, f.name + f.gap + f.number, f.trail)
  }

  function PrintFrame(f: Frame): seq<Byte> {
    PrintLines(f.earlier) + (PrintLine(LengthLine(f)) +
    (PrintLines(f.further) + (PrintLine(Line(f.blank, [], [])) + f.body)))
  }

  // ----------------------------------------------------------------------- ASCII prefixes

  lemma {:induction false} AsciiHead(text: seq<Point>, n: nat)
    requires n <= |text| && forall i :: 0 <= i < n ==> text[i] < 0x80
    ensures |EncodeText(text)| >= n && EncodeText(text)[n..] == EncodeText(text[n..])
    ensures forall i :: 0 <= i < n ==> EncodeText(text)[i] == text[i]
    decreases n
  {
    if n > 0 {
      AsciiHead(text[1..], n - 1);
      var s, t := EncodeText(text), EncodeText(text[1..]);
      assert s == [text[0]] + t && s[n..] == t[n - 1..] && text[n..] == text[1..][n - 1..];
      assert forall i :: 1 <= i < n ==> s[i] == t[i - 1] && text[i] == text[1..][i - 1];
    } else {
      assert EncodeText(text)[0..] == EncodeText(text) && text[0..] == text;
    }
  }

  lemma {:induction false} AsciiBytes(text: seq<Point>, n: nat)
    requires n <= |EncodeText(text)| && forall i :: 0 <= i < n ==> EncodeText(text)[i] < 0x80
    ensures n <= |text| && forall i :: 0 <= i < n ==> text[i] == EncodeText(text)[i]
    decreases n
  {
    if n > 0 {
      var s, t := EncodeText(text), EncodeText(text[1..]);
      assert s == EncodePoint(text[0]) + t && s[0] == EncodePoint(text[0])[0];
      assert text[0] < 0x80 && s == [text[0]] + t;
      assert forall i :: 0 <= i < n - 1 ==> t[i] == s[i + 1];
      AsciiBytes(text[1..], n - 1);
      assert forall i :: 1 <= i < n ==> text[i] == text[1..][i - 1] && s[i] == t[i - 1];
    }
  }

  /** The reader recognises exactly the lines that start with the name. */
  lemma NameRecognised(text: seq<Point>)
    ensures StartsWithHeader(EncodeText(text)) <==> Named(text)
  {
    var s := EncodeText(text);
    if Named(text) {
      AsciiHead(text, 15);
      forall i | 0 <= i < 15 ensures Lower(s[i]) == HEADER[i] {
      }
    }
    if StartsWithHeader(s) {
      forall i | 0 <= i < 15 ensures s[i] < 0x80 && (s[i] == NAME[i] || (NAME[i] >= 97 && s[i] == NAME[i] - 32)) {
        assert Lower(s[i]) == HEADER[i] == NAME[i];
      }
      AsciiBytes(text, 15);
    }
  }

  // --------------------------------------------------------------------------- the length

  lemma {:induction false} DigitsAreDigits(digits: seq<Point>)
    requires Digits(digits)
    ensures |EncodeText(digits)| == |digits| && AllDigits(EncodeText(digits))
    ensures DigitsValue(EncodeText(digits)) == Value(digits)
    decreases |digits|
  {
    if digits != [] {
      var front, last := digits[..|digits| - 1], digits[|digits| - 1];
      DigitsAreDigits(front);
      assert digits == front + [last];
      EncodeAppend(front, [last]);
      EncodeOne(last);
      var s := EncodeText(digits);
      assert s == EncodeText(front) + [last] && s[..|s| - 1] == EncodeText(front);
    }
  }

  lemma OnlyDigits(text: seq<Point>)
    requires AllDigits(EncodeText(text))
    ensures Digits(text)
  {
    forall i | 0 <= i < |text| ensures 48 <= text[i] <= 57 {
      var j := EncodedAt(text, i);
    }
  }

  /** Every point shows in the encoding. */
  lemma {:induction false} EncodedAt(text: seq<Point>, i: nat) returns (j: nat)
    requires i < |text|
    ensures j < |EncodeText(text)| && EncodeText(text)[j] == EncodePoint(text[i])[0]
    decreases i
  {
    if i == 0 {
      j := 0;
    } else {
      var k := EncodedAt(text[1..], i - 1);
      j := |EncodePoint(text[0])| + k;
    }
  }

  /** A number below 2^64 is read as its value, whatever zeros or plus sign it has. */
  lemma NumberReads(number: seq<Point>, n: nat)
    requires Writes(number, n) && n < 0x1_0000_0000_0000_0000
    ensures ParseLength(EncodeText(number)) == n
  {
    if number[0] == 43 {
      DigitsAreDigits(number[1..]);
      AsciiHead(number, 1);
      assert EncodeText(number)[1..] == EncodeText(number[1..]);
    } else {
      DigitsAreDigits(number);
      AsciiHead(number, 1);
    }
  }

  lemma PlusShows(c: Point)
    ensures EncodePoint(c)[0] == 43 <==> c == 43
  {
  }

  /** Anything else is refused. */
  lemma OtherwiseRefused(number: seq<Point>)
    requires forall n: nat :: n < 0x1_0000_0000_0000_0000 ==> !Writes(number, n)
    ensures ParseLength(EncodeText(number)) < 0
  {
    var s := EncodeText(number);
    if number != [] {
      var plus := number[0] == 43;
      var digits := if plus then number[1..] else number;
      assert s == EncodePoint(number[0]) + EncodeText(number[1..]);
      PlusShows(number[0]);
      if plus {
        AsciiHead(number, 1);
      }
      if AllDigits(EncodeText(digits)) && digits != [] {
        OnlyDigits(digits);
        DigitsAreDigits(digits);
        ValueIsNatural(digits);
        assert !(Value(digits) < 0x1_0000_0000_0000_0000 && !Writes(number, Value(digits)));
      }
    }
  }

  lemma {:induction false} ValueIsNatural(digits: seq<Point>)
    requires Digits(digits)
    ensures Value(digits) >= 0
    decreases |digits|
  {
    if digits != [] {
      ValueIsNatural(digits[..|digits| - 1]);
    }
  }

  // ----------------------------------------------------------------------------- the lines

  lemma {:induction false} EarlierSkipped(ls: seq<Line>, rest: seq<Byte>)
    requires AreLines(ls) && forall i :: 0 <= i < |ls| ==> !Named(ls[i].text)
    ensures FindHeader(PrintLines(ls) + rest) == FindHeader(rest)
    decreases |ls|
  {
    if ls == [] {
      assert PrintLines(ls) + rest == rest;
    } else {
      var more := PrintLines(ls[1..]) + rest;
      assert PrintLines(ls) + rest == PrintLine(ls[0]) + more;
      LineAhead(ls[0], more);
      NameRecognised(ls[0].text);
      EarlierSkipped(ls[1..], rest);
    }
  }

  lemma {:induction false} FurtherSkipped(ls: seq<Line>, rest: seq<Byte>)
    requires AreLines(ls) && forall i :: 0 <= i < |ls| ==> ls[i].text != []
    ensures FindBlank(PrintLines(ls) + rest) == FindBlank(rest)
    decreases |ls|
  {
    if ls == [] {
      assert PrintLines(ls) + rest == rest;
    } else {
      var more := PrintLines(ls[1..]) + rest;
      assert PrintLines(ls) + rest == PrintLine(ls[0]) + more;
      LineAhead(ls[0], more);
      assert EncodeText(ls[0].text) == EncodePoint(ls[0].text[0]) + EncodeText(ls[0].text[1..]);
      FurtherSkipped(ls[1..], rest);
    }
  }

  lemma LengthLineIsLine(f: Frame)
    requires IsOpening(f)
    ensures IsLine(LengthLine(f)) && Named(LengthLine(f).text)
  {
    assert !White(f.name[0]) && f.name[14] == 58;
  }

  lemma LengthFound(f: Frame, rest: seq<Byte>)
    requires IsOpening(f)
    ensures FindHeader(PrintLine(LengthLine(f)) + rest) == HeaderScan.Header(EncodeText(f.number), rest)
  {
    var l := LengthLine(f);
    LengthLineIsLine(f);
    LineAhead(l, rest);
    NameRecognised(l.text);
    NameTakenOff(f);
  }

  lemma NameTakenOff(f: Frame)
    requires IsOpening(f)
    ensures |EncodeText(LengthLine(f).text)| >= 15
    ensures Trim(EncodeText(LengthLine(f).text)[15..]) == EncodeText(f.number)
  {
    var text := LengthLine(f).text;
    LengthLineIsLine(f);
    AsciiHead(text, 15);
    if f.number == [] {
      assert text[15..] == [] + [] + [];
      TrimIs([], [], []);
    } else {
      assert text[15..] == f.gap + f.number + [];
      TrimIs(f.gap, f.number, []);
    }
  }

  lemma BlankFound(f: Frame, rest: seq<Byte>)
    requires IsOpening(f)
    ensures FindBlank(PrintLine(Line(f.blank, [], [])) + rest) == HeaderScan.Header([], rest)
  {
    var l := Line(f.blank, [], []);
    assert Points(l) == f.blank;
    LineAhead(l, rest);
  }

  lemma Layout(f: Frame, rest: seq<Byte>)
    ensures PrintFrame(f) + rest
         == PrintLines(f.earlier) + (PrintLine(LengthLine(f)) +
            (PrintLines(f.further) + (PrintLine(Line(f.blank, [], [])) + (f.body + rest))))
  {
    var a, b := PrintLines(f.earlier), PrintLine(LengthLine(f));
    var c, d := PrintLines(f.further), PrintLine(Line(f.blank, [], []));
    Regroup(d, f.body, rest);
    Regroup(c, d + f.body, rest);
    Regroup(b, c + (d + f.body), rest);
    Regroup(a, b + (c + (d + f.body)), rest);
  }

  /** The reader finds the length and then the body, past all other lines. */
  lemma OpeningRead(f: Frame, rest: seq<Byte>)
    requires IsOpening(f)
    ensures var n := ParseLength(EncodeText(f.number));
            ReadContentLength(PrintFrame(f) + rest).result == (
              if n < 0 then Failed(InvalidLength)
              else if n <= |f.body + rest| then Message((f.body + rest)[..n]) else Failed(UnexpectedEof))
    ensures var n := ParseLength(EncodeText(f.number));
            ReadContentLength(PrintFrame(f) + rest).mode == ContentLength &&
            (n >= 0 ==> ReadContentLength(PrintFrame(f) + rest).rest
                        == if n <= |f.body + rest| then (f.body + rest)[n..] else [])
  {
    var d := PrintLine(Line(f.blank, [], [])) + (f.body + rest);
    Layout(f, rest);
    EarlierSkipped(f.earlier, PrintLine(LengthLine(f)) + (PrintLines(f.further) + d));
    LengthFound(f, PrintLines(f.further) + d);
    FurtherSkipped(f.further, d);
    BlankFound(f, f.body + rest);
  }

  /** A frame with any other lines before and after its length is read back byte for byte. */
  lemma FrameReadsBack(f: Frame, rest: seq<Byte>)
    requires IsFrame(f)
    ensures ReadContentLength(PrintFrame(f) + rest) == Outcome(Message(f.body), ContentLength, rest)
  {
    OpeningRead(f, rest);
    NumberReads(f.number, |f.body|);
    assert (f.body + rest)[..|f.body|] == f.body && (f.body + rest)[|f.body|..] == rest;
  }

  /** A length that is no number below 2^64 is an error. */
  lemma BadLength(f: Frame, rest: seq<Byte>)
    requires IsOpening(f) && forall n: nat :: n < 0x1_0000_0000_0000_0000 ==> !Writes(f.number, n)
    ensures ReadContentLength(PrintFrame(f) + rest).result == Failed(InvalidLength)
  {
    OpeningRead(f, rest);
    OtherwiseRefused(f.number);
  }

  /** A body that is cut short is an error. */
  lemma ShortBody(f: Frame, n: nat)
    requires IsOpening(f) && Writes(f.number, n) && |f.body| < n < 0x1_0000_0000_0000_0000
    ensures ReadContentLength(PrintFrame(f)) == Outcome(Failed(UnexpectedEof), ContentLength, [])
  {
    OpeningRead(f, []);
    NumberReads(f.number, n);
    assert PrintFrame(f) + [] == PrintFrame(f) && f.body + [] == f.body;
  }

  /** Input that ends before a length, or before the blank line after it, is the end. */
  lemma EndsEarly(f: Frame, n: nat)
    requires IsOpening(f) && Writes(f.number, n) && n < 0x1_0000_0000_0000_0000
    ensures ReadContentLength(PrintLines(f.earlier)) == Outcome(EndOfInput, ContentLength, [])
    ensures ReadContentLength(PrintLines(f.earlier) + (PrintLine(LengthLine(f)) + PrintLines(f.further)))
         == Outcome(EndOfInput, ContentLength, [])
  {
    EarlierSkipped(f.earlier, []);
    assert PrintLines(f.earlier) + [] == PrintLines(f.earlier);
    EarlierSkipped(f.earlier, PrintLine(LengthLine(f)) + PrintLines(f.further));
    LengthFound(f, PrintLines(f.further));
    NumberReads(f.number, n);
    FurtherSkipped(f.further, []);
    assert PrintLines(f.further) + [] == PrintLines(f.further);
  }

  // ---------------------------------------------------------------------------- whole streams

  function PrintFrames(fs: seq<Frame>): seq<Byte> {
    if fs == [] then [] else PrintFrame(fs[0]) + PrintFrames(fs[1..])
  }

  function BodiesOf(fs: seq<Frame>): seq<seq<Byte>> {
    if fs == [] then [] else [fs[0].body] + BodiesOf(fs[1..])
  }

  predicate AreFrames(fs: seq<Frame>) {
    forall i :: 0 <= i < |fs| ==> IsFrame(fs[i])
  }

  lemma OneFrame(f: Frame, rest: seq<Byte>)
    requires IsFrame(f)
    ensures ReadMessage(ContentLength, PrintFrame(f) + rest) == Outcome(Message(f.body), ContentLength, rest)
  {
    FrameReadsBack(f, rest);
  }

  lemma OneMore(s: seq<Byte>, body: seq<Byte>, rest: seq<Byte>, bodies: seq<seq<Byte>>, last: Outcome)
    requires ReadMessage(ContentLength, s) == Outcome(Message(body), ContentLength, rest)
    requires ReadAll(ContentLength, rest) == Transcript(bodies, last)
    ensures ReadAll(ContentLength, s) == Transcript([body] + bodies, last)
  {
  }

  /** Any list of such frames is read back exactly. */
  lemma {:induction false} FramesReadBack(fs: seq<Frame>)
    requires AreFrames(fs)
    ensures ReadAll(ContentLength, PrintFrames(fs)) == Transcript(BodiesOf(fs), Outcome(EndOfInput, ContentLength, []))
    decreases |fs|
  {
    if fs != [] {
      OneFrame(fs[0], PrintFrames(fs[1..]));
      FramesReadBack(fs[1..]);
      OneMore(PrintFrames(fs), fs[0].body, PrintFrames(fs[1..]), BodiesOf(fs[1..]),
              Outcome(EndOfInput, ContentLength, []));
    }
  }

  lemma DetectsC(s: seq<Byte>)
    requires SkipSpace(s) != [] && SkipSpace(s)[0] == 67
    ensures ReadAll(Unknown, s) == ReadAll(ContentLength, s) && ReadAll(BraceDepth, s) == ReadAll(ContentLength, s)
  {
    LeadingSpaceIrrelevant(ContentLength, s);
  }

  /** So it is from undetected framing, or after brace frames, if what comes first, white
      space aside, is a "C". */
  lemma FramesDetected(fs: seq<Frame>)
    requires AreFrames(fs) && SkipSpace(PrintFrames(fs)) != [] && SkipSpace(PrintFrames(fs))[0] == 67
    ensures ReadAll(Unknown, PrintFrames(fs)) == Transcript(BodiesOf(fs), Outcome(EndOfInput, ContentLength, []))
    ensures ReadAll(BraceDepth, PrintFrames(fs)) == Transcript(BodiesOf(fs), Outcome(EndOfInput, ContentLength, []))
  {
    FramesReadBack(fs);
    DetectsC(PrintFrames(fs));
  }
}
