/** Reading the timestamp strings back, digit by digit. */
module TimestampText {
  import opened Calendar
  import opened Timestamps

  predicate AllDigits(s: string) {
    forall i :: 0 <= i < |s| ==> '0' <= s[i] <= '9'
  }

  /** The decimal value of a string of digits. */
  function Number(s: string): int
    decreases |s|
  {
    if s == "" then 0 else 10 * Number(s[..|s| - 1]) + (s[|s| - 1] as int - '0' as int)
  }

  lemma {:induction false} FixedReads(n: nat, width: nat)
    requires n < Pow10(width)
    ensures AllDigits(Fixed(n, width)) && Number(Fixed(n, width)) == n
    decreases width
  {
    if width > 0 {
      var s := Fixed(n, width);
      FixedReads(n / 10, width - 1);
      assert s[..|s| - 1] == Fixed(n / 10, width - 1);
    }
  }

  lemma PaddedReads(n: nat, width: nat)
    requires width == 4 || n < Pow10(width)
    ensures AllDigits(Padded(n, width)) && Number(Padded(n, width)) == n
    ensures n < Pow10(width) ==> |Padded(n, width)| == width
  {
    if n < Pow10(width) {
      FixedReads(n, width);
    } else {
      DecimalIsFixed(n);
      FixedReads(n, |Decimal(n)|);
    }
  }

  /** A field in front of a separator. */
  lemma Field(a: string, sep: char, rest: string)
    ensures var s := a + ([sep] + rest);
            |s| == |a| + 1 + |rest| && s[..|a|] == a && s[|a|] == sep && s[|a| + 1..] == rest
  {
  }

  /** Three fields of two digits, each in front of a separator. */
  lemma ThreeFields(a: string, p: char, b: string, q: char, c: string, r: char, rest: string)
    requires |a| == |b| == |c| == 2
    ensures var s := a + ([p] + (b + ([q] + (c + ([r] + rest)))));
            |s| == 9 + |rest| && s[..2] == a && s[2] == p && s[3..5] == b && s[5] == q &&
            s[6..8] == c && s[8] == r && s[9..] == rest
  {
    var s1, s2 := c + ([r] + rest), b + ([q] + (c + ([r] + rest)));
    Field(c, r, rest);
    Field(b, q, s1);
    Field(a, p, s2);
    var s := a + ([p] + s2);
    assert s[3..] == s2 && s[3..][3..] == s[6..] == s1 && s1[3..] == s[9..];
    assert s[3..5] == s2[..2] && s[6..8] == s1[..2];
  }

  /** `s` is a year, and what `at` places after its start are the other fields. */
  predicate Written(s: string, at: nat, d: Date, h: int, m: int, sec: int) {
    |s| == at + 16 && s[at] == '-' && s[at + 3] == '-' && s[at + 6] == 'T' &&
    s[at + 9] == ':' && s[at + 12] == ':' && s[at + 15] == 'Z' &&
    AllDigits(s[..at]) && AllDigits(s[at + 1..at + 3]) && AllDigits(s[at + 4..at + 6]) &&
    AllDigits(s[at + 7..at + 9]) && AllDigits(s[at + 10..at + 12]) && AllDigits(s[at + 13..at + 15]) &&
    Number(s[..at]) == d.year && Number(s[at + 1..at + 3]) == d.month && Number(s[at + 4..at + 6]) == d.day &&
    Number(s[at + 7..at + 9]) == h && Number(s[at + 10..at + 12]) == m && Number(s[at + 13..at + 15]) == sec
  }

  /** The text is a numeral for the number. */
  predicate Numeral(s: string, n: nat) {
    AllDigits(s) && Number(s) == n
  }

  function Clock(h: nat, m: nat, sec: nat): string {
    Padded(h, 2) + (":" + (Padded(m, 2) + (":" + (Padded(sec, 2) + "Z"))))
  }

  lemma ClockReads(h: nat, m: nat, sec: nat)
    requires h < 100 && m < 100 && sec < 100
    ensures var c := Clock(h, m, sec);
            |c| == 9 && c[2] == ':' && c[5] == ':' && c[8] == 'Z' &&
            Numeral(c[0..2], h) && Numeral(c[3..5], m) && Numeral(c[6..8], sec)
  {
    Pow10Values();
    PaddedReads(h, 2);
    PaddedReads(m, 2);
    PaddedReads(sec, 2);
    ThreeFields(Padded(h, 2), ':', Padded(m, 2), ':', Padded(sec, 2), 'Z', "");
    assert "Z" + "" == "Z";
  }

  lemma FormatReads(d: Date, h: nat, m: nat, sec: nat)
    requires Valid(d) && h < 24 && m < 60 && sec < 60
    ensures Written(Format(d, h, m, sec), |Padded(d.year, 4)|, d, h, m, sec)
  {
    Pow10Values();
    PaddedReads(d.year, 4);
    PaddedReads(d.month, 2);
    PaddedReads(d.day, 2);
    ClockReads(h, m, sec);
    Assembled(Format(d, h, m, sec), Padded(d.year, 4), Padded(d.month, 2), Padded(d.day, 2), Clock(h, m, sec),
              d, h, m, sec);
  }

  lemma Assembled(s: string, year: string, month: string, day: string, clock: string,
                  d: Date, h: nat, m: nat, sec: nat)
    requires s == year + ("-" + (month + ("-" + (day + ("T" + clock)))))
    requires |month| == |day| == 2 && |clock| == 9 && clock[2] == ':' && clock[5] == ':' && clock[8] == 'Z'
    requires Numeral(year, d.year) && Numeral(month, d.month) && Numeral(day, d.day)
    requires Numeral(clock[0..2], h) && Numeral(clock[3..5], m) && Numeral(clock[6..8], sec)
    ensures Written(s, |year|, d, h, m, sec)
  {
    var at := |year|;
    FormatSlices(s, year, month + ("-" + (day + ("T" + clock))), clock, month, day);
    assert s[at + 7 + 0..at + 7 + 2] == clock[0..2] && s[at + 7 + 3..at + 7 + 5] == clock[3..5];
    assert s[at + 7 + 6..at + 7 + 8] == clock[6..8];
    assert s[at + 7 + 2] == ':' && s[at + 7 + 5] == ':' && s[at + 7 + 8] == 'Z';
  }

  lemma FormatSlices(s: string, year: string, date: string, clock: string, month: string, day: string)
    requires s == year + ("-" + date) && date == month + ("-" + (day + ("T" + clock)))
    requires |month| == |day| == 2 && |clock| == 9
    ensures var at := |year|;
            |s| == at + 16 && s[..at] == year && s[at] == '-' && s[at + 1..at + 3] == month && s[at + 3] == '-' &&
            s[at + 4..at + 6] == day && s[at + 6] == 'T' && s[at + 7..] == clock &&
            (forall i, j :: 0 <= i <= j <= 9 ==> s[at + 7 + i..at + 7 + j] == clock[i..j]) &&
            forall i :: 0 <= i < 9 ==> s[at + 7 + i] == clock[i]
  {
    Field(day, 'T', clock);
    Field(month, '-', day + ("T" + clock));
    Field(year, '-', date);
    assert date[3..] == day + ("T" + clock) && date[6..] == clock;
    assert s[|year| + 1..] == date && s[|year| + 7..] == clock;
  }

  /** A timestamp is read back to the second: its fields are those of a date of the
      Gregorian calendar and of a time of day, and the days since 0000-03-01 less those
      before 1970, in seconds, with the time of day are the argument. */
  lemma ReadsBack(secs: nat) returns (at: nat, d: Date, h: nat, m: nat, sec: nat)
    ensures Written(EpochToUtc(secs), at, d, h, m, sec) && Valid(d) && h < 24 && m < 60 && sec < 60
    ensures (DaysFromCivil(d) - 719468) * 86400 + h * 3600 + m * 60 + sec == secs
    ensures at >= 4 && (secs < 253402300800 ==> at == 4)
  {
    var z, t := DayOf(secs), secs % SECONDS_PER_DAY;
    at, d := |Padded(DaysToYmd(z).year, 4)|, DaysToYmd(z);
    h, m, sec := t / 3600, t % 3600 / 60, t % 60;
    DateIsValidAndExact(z);
    ClockCompare(t, t);
    ClockParts(t);
    FormatReads(d, h, m, sec);
    Pow10Values();
    if d.year >= 10000 {
      DecimalLength(d.year, 4);
    }
    if secs < YEAR_10000 {
      FourDigitYears(z);
    }
  }

  /** The days before 1970 are 719468. */
  lemma EpochDay(d: Date)
    requires d == Date(1970, 1, 1)
    ensures DaysFromCivil(d) == 719468
  {
    CivilOf(d, 4, 369, 306);
  }
}
