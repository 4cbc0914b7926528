/** The timestamp strings of mcp/src/main.rs, and their order. */
module Timestamps {
  import opened Calendar
  import opened Lexicographic

  const SECONDS_PER_DAY := 86400
  const DAYS_TO_EPOCH := 719468

  /** 10000-01-01T00:00:00Z */
  const YEAR_10000 := 253402300800

  function Digit(n: nat): char
    requires n < 10
  {
    ('0' as int + n) as char
  }

  /** Exactly `width` digits. */
  function Fixed(n: nat, width: nat): (s: string)
    ensures |s| == width
  {
    if width == 0 then "" else Fixed(n / 10, width - 1) + [Digit(n % 10)]
  }

  function Decimal(n: nat): string {
    if n < 10 then [Digit(n)] else Decimal(n / 10) + [Digit(n % 10)]
  }

  function Pow10(width: nat): nat {
    if width == 0 then 1 else 10 * Pow10(width - 1)
  }

  /** Zero-padded to `width`, longer if the number is. */
  function Padded(n: nat, width: nat): string {
    if n < Pow10(width) then Fixed(n, width) else Decimal(n)
  }

  /** Days since 0000-03-01. */
  function DayOf(secs: nat): nat {
    secs / SECONDS_PER_DAY + DAYS_TO_EPOCH
  }

  function EpochToUtc(secs: nat): string {
    TimeOfDay(DayOf(secs), secs % SECONDS_PER_DAY)
  }

  /** How many digits the year of a day is written with: four, or more from 10000 on. */
  function YearDigits(z: nat): nat {
    |Padded(DaysToYmd(z).year, 4)|
  }

  /** Second `s` of day `z`. */
  function TimeOfDay(z: nat, s: nat): string {
    Format(DaysToYmd(z), s / 3600, s % 3600 / 60, s % 60)
  }

  function Format(d: Date, h: nat, m: nat, s: nat): string {
    Padded(d.year, 4) + ("-" + (Padded(d.month, 2) + ("-" + (Padded(d.day, 2) + ("T" +
    (Padded(h, 2) + (":" + (Padded(m, 2) + (":" + (Padded(s, 2) + "Z"))))))))))
  }

  // -------------------------------------------------------------- order of the fields

  lemma {:induction false} LessInFront(a: string, b: string, x: string, y: string)
    requires |a| == |b|
    ensures Less(a + x, b + y) <==> Less(a, b) || (a == b && Less(x, y))
    decreases |a|
  {
    if a == [] {
      assert a + x == x && b + y == y;
    } else {
      assert (a + x)[1..] == a[1..] + x && (b + y)[1..] == b[1..] + y;
      LessInFront(a[1..], b[1..], x, y);
      assert a == [a[0]] + a[1..] && b == [b[0]] + b[1..];
    }
  }

  lemma {:induction false} FixedOrder(m: nat, n: nat, width: nat)
    requires m < Pow10(width) && n < Pow10(width)
    ensures Less(Fixed(m, width), Fixed(n, width)) <==> m < n
    ensures Fixed(m, width) == Fixed(n, width) <==> m == n
    decreases width
  {
    if width > 0 {
      var a, b := Fixed(m / 10, width - 1), Fixed(n / 10, width - 1);
      var x, y := [Digit(m % 10)], [Digit(n % 10)];
      FixedOrder(m / 10, n / 10, width - 1);
      LessInFront(a, b, x, y);
      assert x[1..] == [] && y[1..] == [];
      assert Less(x, y) <==> m % 10 < n % 10;
      assert a + x == b + y <==> a == b && x == y by {
        assert (a + x)[..width - 1] == a && (b + y)[..width - 1] == b;
        assert (a + x)[width - 1] == x[0] && (b + y)[width - 1] == y[0];
      }
    }
  }

  lemma FieldOrder(m: nat, n: nat, width: nat, sep: char, x: string, y: string)
    requires m < Pow10(width) && n < Pow10(width)
    ensures Less(Padded(m, width) + ([sep] + x), Padded(n, width) + ([sep] + y)) <==>
            m < n || (m == n && Less(x, y))
  {
    FixedOrder(m, n, width);
    LessInFront(Fixed(m, width), Fixed(n, width), [sep] + x, [sep] + y);
    LessInFront([sep], [sep], x, y);
    Irreflexive([sep]);
  }

  lemma {:induction false} DecimalIsFixed(n: nat)
    ensures n < Pow10(|Decimal(n)|) && Decimal(n) == Fixed(n, |Decimal(n)|)
  {
    if n >= 10 {
      DecimalIsFixed(n / 10);
    }
  }

  /** Years written with the same number of digits compare as strings do. */
  lemma YearOrder(m: nat, n: nat, x: string, y: string)
    requires |Padded(m, 4)| == |Padded(n, 4)|
    ensures Less(Padded(m, 4) + ("-" + x), Padded(n, 4) + ("-" + y)) <==> m < n || (m == n && Less(x, y))
  {
    var width := |Padded(m, 4)|;
    DecimalIsFixed(m);
    DecimalIsFixed(n);
    FixedOrder(m, n, width);
    LessInFront(Fixed(m, width), Fixed(n, width), "-" + x, "-" + y);
    LessInFront("-", "-", x, y);
    Irreflexive("-");
  }

  predicate DateLess(a: Date, b: Date) {
    a.year < b.year || (a.year == b.year && (a.month < b.month || (a.month == b.month && a.day < b.day)))
  }

  lemma Pow10Values()
    ensures Pow10(2) == 100 && Pow10(4) == 10000
  {
    assert Pow10(1) == 10 * Pow10(0);
    assert Pow10(3) == 10 * Pow10(2);
  }

  lemma ClockOrder(h: nat, m: nat, s: nat, h': nat, m': nat, s': nat)
    requires h < 100 && m < 100 && s < 100 && h' < 100 && m' < 100 && s' < 100
    ensures Less(Padded(h, 2) + (":" + (Padded(m, 2) + (":" + (Padded(s, 2) + "Z")))),
                 Padded(h', 2) + (":" + (Padded(m', 2) + (":" + (Padded(s', 2) + "Z"))))) <==>
            h < h' || (h == h' && (m < m' || (m == m' && s < s')))
  {
    Pow10Values();
    FieldOrder(h, h', 2, ':', Padded(m, 2) + (":" + (Padded(s, 2) + "Z")),
               Padded(m', 2) + (":" + (Padded(s', 2) + "Z")));
    FieldOrder(m, m', 2, ':', Padded(s, 2) + "Z", Padded(s', 2) + "Z");
    FieldOrder(s, s', 2, 'Z', "", "");
    assert "Z" + "" == "Z";
  }

  lemma FormatOrder(a: Date, b: Date, h: nat, m: nat, s: nat, h': nat, m': nat, s': nat)
    requires |Padded(a.year, 4)| == |Padded(b.year, 4)| && Valid(a) && Valid(b)
    requires h < 24 && m < 60 && s < 60 && h' < 24 && m' < 60 && s' < 60
    ensures Less(Format(a, h, m, s), Format(b, h', m', s')) <==>
            DateLess(a, b) || (a == b && (h < h' || (h == h' && (m < m' || (m == m' && s < s')))))
  {
    Pow10Values();
    var x := Padded(h, 2) + (":" + (Padded(m, 2) + (":" + (Padded(s, 2) + "Z"))));
    var y := Padded(h', 2) + (":" + (Padded(m', 2) + (":" + (Padded(s', 2) + "Z"))));
    ClockOrder(h, m, s, h', m', s');
    FieldOrder(a.day, b.day, 2, 'T', x, y);
    var x1, y1 := Padded(a.day, 2) + ("T" + x), Padded(b.day, 2) + ("T" + y);
    FieldOrder(a.month, b.month, 2, '-', x1, y1);
    YearOrder(a.year, b.year, Padded(a.month, 2) + ("-" + x1), Padded(b.month, 2) + ("-" + y1));
  }

  // ------------------------------------------------------------------ order of the days

  lemma NextDayIsLater(d: Date)
    requires Valid(d)
    ensures DateLess(d, NextDay(d))
  {
  }

  lemma {:induction false} WalkGrows(date: nat -> Date, a: nat, b: nat)
    requires a < b
    requires forall n: nat :: Valid(date(n)) && date(n + 1) == NextDay(date(n))
    ensures DateLess(date(a), date(b))
    decreases b
  {
    NextDayIsLater(date(b - 1));
    assert date(b - 1 + 1) == NextDay(date(b - 1));
    if a < b - 1 {
      WalkGrows(date, a, b - 1);
    }
  }

  /** Later days have later dates. */
  lemma DatesGrow(a: nat, b: nat)
    requires a < b
    ensures DateLess(DaysToYmd(a), DaysToYmd(b))
  {
    forall n: nat ensures Valid(DaysToYmd(n)) && DaysToYmd(n + 1) == NextDay(DaysToYmd(n)) {
      DateIsValidAndExact(n);
      EachDayIsTheNext(n);
    }
    WalkGrows(DaysToYmd, a, b);
  }

  lemma FourDigitYears(z: nat)
    requires z < 3652365
    ensures YearDigits(z) == 4
  {
    LastDayOf9999();
    Pow10Values();
    if z != 3652364 {
      DatesGrow(z, 3652364);
    }
  }

  lemma LastDayOf9999()
    ensures DaysToYmd(3652364) == Date(9999, 12, 31)
  {
    assert YearOfEra(146036) == 399 && DaysBeforeYear(399) + 305 == 146036;
    YmdOf(24, 146036, 399, 305);
    assert DateOf(9999, 305) == Date(9999, 12, 31);
  }

  /** While years have the same number of digits the strings sort in time order. */
  lemma StringsSortByTime(a: nat, b: nat)
    requires YearDigits(DayOf(a)) == YearDigits(DayOf(b))
    ensures Less(EpochToUtc(a), EpochToUtc(b)) <==> a < b
  {
    SameOrder(DayOf(a), DayOf(b), a % SECONDS_PER_DAY, b % SECONDS_PER_DAY);
    SecondsCompare(a, b);
  }

  // ------------------------------------------------------- years of different lengths

  /** A number without its last `k` digits. */
  function Cut(n: nat, k: nat): nat {
    if k == 0 then n else Cut(n / 10, k - 1)
  }

  predicate StartsWithDigit(s: string) {
    s != "" && '0' <= s[0] <= '9'
  }

  lemma {:induction false} FixedSplit(n: nat, width: nat, k: nat) returns (rest: string)
    requires k > 0
    ensures Fixed(n, width + k) == Fixed(Cut(n, k), width) + rest && StartsWithDigit(rest)
    decreases k
  {
    var last := [Digit(n % 10)];
    if k == 1 {
      assert Cut(n, 1) == n / 10;
      rest := last;
    } else {
      var front := FixedSplit(n / 10, width, k - 1);
      rest := front + last;
      assert Fixed(Cut(n, k), width) + (front + last) == (Fixed(Cut(n, k), width) + front) + last;
    }
  }

  lemma {:induction false} CutIsShorter(n: nat, width: nat, k: nat)
    requires n < Pow10(width + k)
    ensures Cut(n, k) < Pow10(width)
    decreases k
  {
    if k > 0 {
      assert Pow10(width + k) == 10 * Pow10(width + k - 1);
      CutIsShorter(n / 10, width, k - 1);
    }
  }

  lemma PaddedIsFixed(n: nat)
    ensures n < Pow10(|Padded(n, 4)|) && Padded(n, 4) == Fixed(n, |Padded(n, 4)|)
  {
    DecimalIsFixed(n);
  }

  /** A year and a longer one: the separator sorts before any digit. */
  lemma YearsCompare(m: nat, n: nat, k: nat, x: string, y: string)
    requires |Padded(n, 4)| == |Padded(m, 4)| + k && k > 0
    ensures Less(Padded(m, 4) + ("-" + x), Padded(n, 4) + ("-" + y)) <==> m <= Cut(n, k)
  {
    var width := |Padded(m, 4)|;
    PaddedIsFixed(m);
    PaddedIsFixed(n);
    var rest := FixedSplit(n, width, k);
    CutIsShorter(n, width, k);
    FixedOrder(m, Cut(n, k), width);
    ShorterFirst(Padded(m, 4), Fixed(Cut(n, k), width), "-" + x, rest, "-" + y);
  }

  lemma ShorterFirst(a: string, b: string, x: string, rest: string, y: string)
    requires |a| == |b| && x != "" && x[0] == '-' && StartsWithDigit(rest)
    ensures Less(a + x, (b + rest) + y) <==> Less(a, b) || a == b
  {
    LessInFront(a, b, x, rest + y);
    assert (b + rest) + y == b + (rest + y);
    assert (rest + y)[0] == rest[0];
  }

  lemma {:induction false} LongerDecimal(m: nat, n: nat)
    requires m <= n
    ensures |Decimal(m)| <= |Decimal(n)|
    decreases n
  {
    if m >= 10 {
      LongerDecimal(m / 10, n / 10);
    }
  }

  lemma {:induction false} DecimalLength(n: nat, width: nat)
    requires n >= Pow10(width)
    ensures |Decimal(n)| > width
    decreases width
  {
    if width > 0 {
      assert n / 10 >= Pow10(width - 1);
      DecimalLength(n / 10, width - 1);
    }
  }

  lemma LongerYears(m: nat, n: nat)
    requires m <= n
    ensures |Padded(m, 4)| <= |Padded(n, 4)|
  {
    if m < Pow10(4) <= n {
      DecimalLength(n, 4);
    } else if m >= Pow10(4) {
      LongerDecimal(m, n);
    }
  }

  function YearOf(secs: nat): nat {
    DaysToYmd(DayOf(secs)).year
  }

  lemma YearsGrow(a: nat, b: nat)
    requires a < b
    ensures YearOf(a) <= YearOf(b)
  {
    SecondsCompare(a, b);
    if DayOf(a) < DayOf(b) {
      DatesGrow(DayOf(a), DayOf(b));
    }
  }

  /** A time and a later one, whose year has `k` more digits: the strings sort in time order
      if and only if the earlier year is at most the later one without its last `k`. */
  lemma StringsSortExactly(a: nat, b: nat) returns (k: nat)
    requires a < b
    ensures k == YearDigits(DayOf(b)) - YearDigits(DayOf(a))
    ensures Less(EpochToUtc(a), EpochToUtc(b)) <==> YearOf(a) <= Cut(YearOf(b), k)
  {
    YearsGrow(a, b);
    LongerYears(YearOf(a), YearOf(b));
    k := YearDigits(DayOf(b)) - YearDigits(DayOf(a));
    if k == 0 {
      StringsSortByTime(a, b);
    } else {
      var x := AfterYear(DaysToYmd(DayOf(a)), a % SECONDS_PER_DAY);
      var y := AfterYear(DaysToYmd(DayOf(b)), b % SECONDS_PER_DAY);
      YearsCompare(YearOf(a), YearOf(b), k, x, y);
    }
  }

  /** What follows the year and its separator. */
  lemma AfterYear(d: Date, s: nat) returns (x: string)
    ensures Format(d, s / 3600, s % 3600 / 60, s % 60) == Padded(d.year, 4) + ("-" + x)
  {
    var h, m, t := s / 3600, s % 3600 / 60, s % 60;
    x := Padded(d.month, 2) + ("-" + (Padded(d.day, 2) + ("T" +
         (Padded(h, 2) + (":" + (Padded(m, 2) + (":" + (Padded(t, 2) + "Z"))))))));
  }

  /** So they do through the year 9999 (section 5.1 of RFC 3339). */
  lemma SortThrough9999(a: nat, b: nat)
    requires a < YEAR_10000 && b < YEAR_10000
    ensures Less(EpochToUtc(a), EpochToUtc(b)) <==> a < b
  {
    FourDigitYears(DayOf(a));
    FourDigitYears(DayOf(b));
    StringsSortByTime(a, b);
  }

  lemma SecondsCompare(a: nat, b: nat)
    ensures a < b <==> a / 86400 < b / 86400 || (a / 86400 == b / 86400 && a % 86400 < b % 86400)
  {
  }

  lemma SameOrder(za: nat, zb: nat, sa: nat, sb: nat)
    requires YearDigits(za) == YearDigits(zb) && sa < SECONDS_PER_DAY && sb < SECONDS_PER_DAY
    ensures Less(TimeOfDay(za, sa), TimeOfDay(zb, sb)) <==> za < zb || (za == zb && sa < sb)
  {
    DaysCompare(za, zb);
    ClockCompare(sa, sb);
    FormatOrder(DaysToYmd(za), DaysToYmd(zb), sa / 3600, sa % 3600 / 60, sa % 60,
                sb / 3600, sb % 3600 / 60, sb % 60);
  }

  lemma DaysCompare(za: nat, zb: nat)
    ensures var a, b := DaysToYmd(za), DaysToYmd(zb);
            Valid(a) && Valid(b) && (DateLess(a, b) <==> za < zb) && (a == b <==> za == zb)
  {
    DateIsValidAndExact(za);
    DateIsValidAndExact(zb);
    if za < zb {
      DatesGrow(za, zb);
    } else if zb < za {
      DatesGrow(zb, za);
    }
  }

  lemma ClockCompare(sa: nat, sb: nat)
    requires sa < SECONDS_PER_DAY && sb < SECONDS_PER_DAY
    ensures var h, m, s := sa / 3600, sa % 3600 / 60, sa % 60;
            var h', m', s' := sb / 3600, sb % 3600 / 60, sb % 60;
            h < 24 && m < 60 && s < 60 && h' < 24 && m' < 60 && s' < 60 &&
            (sa < sb <==> h < h' || (h == h' && (m < m' || (m == m' && s < s'))))
  {
    ClockParts(sa);
    ClockParts(sb);
  }

  lemma ClockParts(n: nat)
    ensures n == 3600 * (n / 3600) + 60 * (n % 3600 / 60) + n % 60
    ensures n % 3600 / 60 < 60
  {
    var r := n % 3600;
    assert n == 60 * (60 * (n / 3600) + r / 60) + r % 60;
  }

  /** It takes as many digits: where the year 10000 begins a later time sorts first. */
  lemma Year10000SortsFirst()
    ensures Less(EpochToUtc(YEAR_10000), EpochToUtc(YEAR_10000 - 1))
  {
    LastDayOf9999();
    EachDayIsTheNext(3652364);
    var a, b := Date(10000, 1, 1), Date(9999, 12, 31);
    assert DaysToYmd(3652365) == a;
    assert DayOf(YEAR_10000) == 3652365 && DayOf(YEAR_10000 - 1) == 3652364;
    FirstChars();
  }

  lemma FirstChars()
    ensures Padded(10000, 4) != [] && Padded(10000, 4)[0] == '1'
    ensures Padded(9999, 4) != [] && Padded(9999, 4)[0] == '9'
  {
    Pow10Values();
    assert Decimal(1) == "1" && Decimal(10) == "10" && Decimal(100) == "100" && Decimal(1000) == "1000";
    assert Fixed(9, 1) == "9" && Fixed(99, 2) == "99" && Fixed(999, 3) == "999";
  }
}
