/** UTF-8 and white space by code points (RFC 3629, and White_Space of the Unicode
    character database), against the byte tests of the frame reader. */
module Utf8Text {
  import opened Framing

  /** A Unicode scalar value. */
  type Point = c: int | 0 <= c < 0xD800 || 0xE000 <= c < 0x110000 witness 0

  function EncodePoint(c: Point): (s: seq<Byte>)
    ensures s != []
  {
    if c < 0x80 then [c]
    else if c < 0x800 then [0xC0 + c / 64, 0x80 + c % 64]
    else if c < 0x10000 then [0xE0 + c / 4096, 0x80 + c / 64 % 64, 0x80 + c % 64]
    else [0xF0 + c / 262144, 0x80 + c / 4096 % 64, 0x80 + c / 64 % 64, 0x80 + c % 64]
  }

  function EncodeText(text: seq<Point>): seq<Byte> {
    if text == [] then [] else EncodePoint(text[0]) + EncodeText(text[1..])
  }

  // ------------------------------------------------------------------------- encoding

  lemma PointIsUtf8(c: Point, rest: seq<Byte>)
    ensures Utf8(EncodePoint(c) + rest) == Utf8(rest)
  {
    var s := EncodePoint(c) + rest;
    if c < 0x80 {
      assert s[1..] == rest;
    } else if c < 0x800 {
      assert s[2..] == rest;
    } else if c < 0x10000 {
      assert s[3..] == rest;
    } else {
      assert s[4..] == rest;
    }
  }

  lemma {:induction false} EncodedIsUtf8(text: seq<Point>)
    ensures Utf8(EncodeText(text))
    decreases |text|
  {
    if text != [] {
      EncodedIsUtf8(text[1..]);
      PointIsUtf8(text[0], EncodeText(text[1..]));
    }
  }

  lemma FirstPoint(s: seq<Byte>) returns (c: Point, rest: seq<Byte>)
    requires Utf8(s) && s != []
    ensures s == EncodePoint(c) + rest && |rest| < |s| && Utf8(rest)
  {
    if s[0] < 0x80 {
      c, rest := s[0], s[1..];
    } else if s[0] < 0xE0 {
      c, rest := TwoBytes(s[0], s[1]), s[2..];
    } else if s[0] < 0xF0 {
      c, rest := ThreeBytes(s[0], s[1], s[2]), s[3..];
    } else {
      c, rest := FourBytes(s[0], s[1], s[2], s[3]), s[4..];
    }
  }

  function TwoBytes(a: int, b: int): (p: Point)
    requires 0xC2 <= a <= 0xDF && 0x80 <= b <= 0xBF
    ensures EncodePoint(p) == [a, b]
  {
    (a - 0xC0) * 64 + (b - 0x80)
  }

  lemma TwoDigits(q: nat, r: nat)
    requires r < 64
    ensures (64 * q + r) / 64 == q && (64 * q + r) % 64 == r
  {
  }

  lemma UpperDigit(q: nat, r: nat)
    requires r < 4096
    ensures (4096 * q + r) / 4096 == q
  {
  }

  lemma TopDigit(q: nat, r: nat)
    requires r < 262144
    ensures (262144 * q + r) / 262144 == q
  {
  }

  function ThreeBytes(a: int, b: int, c: int): (p: Point)
    requires 0xE0 <= a <= 0xEF && 0x80 <= b <= 0xBF && 0x80 <= c <= 0xBF
    requires (a == 0xE0 ==> b >= 0xA0) && (a == 0xED ==> b <= 0x9F)
    ensures EncodePoint(p) == [a, b, c]
  {
    var q: nat := (a - 0xE0) * 64 + (b - 0x80);
    TwoDigits(q, c - 0x80);
    TwoDigits(a - 0xE0, b - 0x80);
    UpperDigit(a - 0xE0, (b - 0x80) * 64 + (c - 0x80));
    64 * q + (c - 0x80)
  }

  function FourBytes(a: int, b: int, c: int, d: int): (p: Point)
    requires 0xF0 <= a <= 0xF4 && 0x80 <= b <= 0xBF && 0x80 <= c <= 0xBF && 0x80 <= d <= 0xBF
    requires (a == 0xF0 ==> b >= 0x90) && (a == 0xF4 ==> b <= 0x8F)
    ensures EncodePoint(p) == [a, b, c, d]
  {
    var r: nat := (a - 0xF0) * 64 + (b - 0x80);
    var q: nat := 64 * r + (c - 0x80);
    TwoDigits(q, d - 0x80);
    TwoDigits(r, c - 0x80);
    TwoDigits(a - 0xF0, b - 0x80);
    UpperDigit(r, (c - 0x80) * 64 + (d - 0x80));
    TopDigit(a - 0xF0, (b - 0x80) * 4096 + (c - 0x80) * 64 + (d - 0x80));
    64 * q + (d - 0x80)
  }

  lemma {:induction false} Decoded(s: seq<Byte>) returns (text: seq<Point>)
    requires Utf8(s)
    ensures EncodeText(text) == s
    decreases |s|
  {
    if s == [] {
      return [];
    }
    var c, rest := FirstPoint(s);
    var more := Decoded(rest);
    text := [c] + more;
  }

  /** The reader's test accepts exactly the encodings of texts. */
  lemma Utf8Exactly(s: seq<Byte>)
    ensures Utf8(s) <==> exists text :: EncodeText(text) == s
  {
    if Utf8(s) {
      var text := Decoded(s);
    }
    if text :| EncodeText(text) == s {
      EncodedIsUtf8(text);
    }
  }

  lemma {:induction false} EncodeAppend(a: seq<Point>, b: seq<Point>)
    ensures EncodeText(a + b) == EncodeText(a) + EncodeText(b)
    decreases |a|
  {
    if a == [] {
      assert a + b == b;
    } else {
      assert (a + b)[1..] == a[1..] + b;
      EncodeAppend(a[1..], b);
    }
  }

  lemma EncodeOne(c: Point)
    ensures EncodeText([c]) == EncodePoint(c)
  {
    assert [c][1..] == [];
  }

  /** A line feed is encoded only by a line feed. */
  lemma {:induction false} NoLineFeed(text: seq<Point>)
    requires 10 !in text
    ensures forall i :: 0 <= i < |EncodeText(text)| ==> EncodeText(text)[i] != 10
    decreases |text|
  {
    if text != [] {
      NoLineFeed(text[1..]);
    }
  }

  // ---------------------------------------------------------------------- white space

  predicate White(c: Point) {
    9 <= c <= 13 || c == 0x20 || c == 0x85 || c == 0xA0 || c == 0x1680 || 0x2000 <= c <= 0x200A ||
    c == 0x2028 || c == 0x2029 || c == 0x202F || c == 0x205F || c == 0x3000
  }

  predicate AllWhite(text: seq<Point>) {
    forall i :: 0 <= i < |text| ==> White(text[i])
  }

  /** Neither the first nor the last character is white space. */
  predicate Tight(text: seq<Point>) {
    text != [] && !White(text[0]) && !White(text[|text| - 1])
  }

  lemma LeadingIs(c: Point, rest: seq<Byte>)
    ensures LeadingSpace(EncodePoint(c) + rest) == if White(c) then |EncodePoint(c)| else 0
  {
    var s := EncodePoint(c) + rest;
    if c < 0x80 {
      assert s[0] == c;
    } else if c < 0x800 {
      assert s[0] == 0xC0 + c / 64 && s[1] == 0x80 + c % 64;
    } else if c < 0x10000 {
      assert s[0] == 0xE0 + c / 4096 && s[1] == 0x80 + c / 64 % 64 && s[2] == 0x80 + c % 64;
    } else {
      assert s[0] == 0xF0 + c / 262144;
    }
  }

  lemma TrailingIs(front: seq<Byte>, c: Point)
    ensures TrailingSpace(front + EncodePoint(c)) == if White(c) then |EncodePoint(c)| else 0
  {
    var s := front + EncodePoint(c);
    var k := |s|;
    if c < 0x80 {
      assert s[k - 1] == c;
    } else if c < 0x800 {
      assert s[k - 2] == 0xC0 + c / 64 && s[k - 1] == 0x80 + c % 64;
    } else if c < 0x10000 {
      assert s[k - 3] == 0xE0 + c / 4096 && s[k - 2] == 0x80 + c / 64 % 64 && s[k - 1] == 0x80 + c % 64;
    } else {
      assert s[k - 3] == 0x80 + c / 4096 % 64 && s[k - 2] == 0x80 + c / 64 % 64 && s[k - 1] == 0x80 + c % 64;
    }
  }

  lemma {:induction false} TrimStartIs(white: seq<Point>, rest: seq<Byte>)
    requires AllWhite(white)
    ensures TrimStart(EncodeText(white) + rest) == TrimStart(rest)
    decreases |white|
  {
    if white == [] {
      assert EncodeText(white) + rest == rest;
    } else {
      var c, more := white[0], EncodeText(white[1..]) + rest;
      LeadingIs(c, more);
      assert EncodeText(white) + rest == EncodePoint(c) + more;
      assert (EncodePoint(c) + more)[|EncodePoint(c)|..] == more;
      TrimStartIs(white[1..], rest);
    }
  }

  lemma {:induction false} TrimEndIs(front: seq<Byte>, white: seq<Point>)
    requires AllWhite(white)
    ensures TrimEnd(front + EncodeText(white)) == TrimEnd(front)
    decreases |white|
  {
    if white == [] {
      assert front + EncodeText(white) == front;
    } else {
      var less, c := white[..|white| - 1], white[|white| - 1];
      var s := front + EncodeText(white);
      assert white == less + [c];
      EncodeAppend(less, [c]);
      EncodeOne(c);
      assert s == (front + EncodeText(less)) + EncodePoint(c);
      TrailingIs(front + EncodeText(less), c);
      assert s[..|s| - |EncodePoint(c)|] == front + EncodeText(less);
      TrimEndIs(front, less);
    }
  }

  lemma FirstStays(text: seq<Point>, rest: seq<Byte>)
    requires text != [] && !White(text[0])
    ensures TrimStart(EncodeText(text) + rest) == EncodeText(text) + rest
  {
    var c, more := text[0], EncodeText(text[1..]) + rest;
    LeadingIs(c, more);
    assert EncodeText(text) + rest == EncodePoint(c) + more;
  }

  lemma LastStays(text: seq<Point>)
    requires text != [] && !White(text[|text| - 1])
    ensures TrimEnd(EncodeText(text)) == EncodeText(text)
  {
    var less, last := text[..|text| - 1], text[|text| - 1];
    assert text == less + [last];
    EncodeAppend(less, [last]);
    EncodeOne(last);
    TrailingIs(EncodeText(less), last);
  }

  /** Trimming takes off exactly the white space around a text. */
  lemma TrimIs(before: seq<Point>, text: seq<Point>, after: seq<Point>)
    requires AllWhite(before) && AllWhite(after) && (text == [] || Tight(text))
    ensures Trim(EncodeText(before + text + after)) == EncodeText(text)
  {
    EncodeAppend(before + text, after);
    EncodeAppend(before, text);
    if text == [] {
      TrimAllWhite(before, after);
    } else {
      FirstStays(text, EncodeText(after));
      LastStays(text);
      TrimAround(before, EncodeText(text), after);
    }
  }

  lemma TrimAllWhite(before: seq<Point>, after: seq<Point>)
    requires AllWhite(before) && AllWhite(after)
    ensures Trim(EncodeText(before) + [] + EncodeText(after)) == []
  {
    TrimStartIs(before, EncodeText(after));
    TrimStartIs(after, []);
    assert EncodeText(before) + [] == EncodeText(before) && EncodeText(after) + [] == EncodeText(after);
  }

  lemma TrimAround(before: seq<Point>, body: seq<Byte>, after: seq<Point>)
    requires AllWhite(before) && AllWhite(after)
    requires TrimStart(body + EncodeText(after)) == body + EncodeText(after) && TrimEnd(body) == body
    ensures Trim(EncodeText(before) + body + EncodeText(after)) == body
  {
    assert EncodeText(before) + body + EncodeText(after) == EncodeText(before) + (body + EncodeText(after));
    TrimStartIs(before, body + EncodeText(after));
    TrimEndIs(body, after);
  }
}
