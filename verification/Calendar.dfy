/** Timestamps of the MCP crash log (mcp/src/main.rs): days to a Gregorian date, and
    seconds to an RFC 3339 string. */
module Calendar {
  datatype Date = Date(year: nat, month: nat, day: nat)

  // ------------------------------------------------------------- the calendar itself

  predicate IsLeap(year: nat) {
    year % 4 == 0 && (year % 100 != 0 || year % 400 == 0)
  }

  function DaysInMonth(year: nat, month: nat): nat {
    if month == 2 then if IsLeap(year) then 29 else 28
    else if month == 4 || month == 6 || month == 9 || month == 11 then 30
    else 31
  }

  predicate Valid(d: Date) {
    1 <= d.month <= 12 && 1 <= d.day <= DaysInMonth(d.year, d.month)
  }

  function NextDay(d: Date): Date {
    if d.day < DaysInMonth(d.year, d.month) then Date(d.year, d.month, d.day + 1)
    else if d.month < 12 then Date(d.year, d.month + 1, 1)
    else Date(d.year + 1, 1, 1)
  }

  // ------------------------------------------------------------------ the program's

  /** Days since 0000-03-01 to a date.  Every intermediate value is a nat: none of the
      unsigned subtractions underflows. */
  function DaysToYmd(z: nat): Date {
    var era: nat := z / 146097;
    var doe: nat := z - era * 146097;
    DecomposeDoe(doe);
    var yoe: nat := YearOfEra(doe);
    var doy: nat := doe - (365 * yoe + yoe / 4 - yoe / 100);
    DateOf(yoe + era * 400, doy)
  }

  /** The date of the `doy`-th day of the year that begins in March of `year`. */
  function DateOf(year: nat, doy: nat): Date
    requires doy <= 365
  {
    var mp: nat := (5 * doy + 2) / 153;
    MonthStart(doy);
    var day: nat := doy - (153 * mp + 2) / 5 + 1;
    var month: nat := if mp < 10 then mp + 3 else mp - 9;
    Date(if month <= 2 then year + 1 else year, month, day)
  }

  function YearOfEra(doe: nat): nat {
    var n: nat := doe - doe / 1460 + doe / 36524 - doe / 146096;
    n / 365
  }

  // ------------------------------------------------- four-hundred-year arithmetic

  /** Century, four-year cycle, year of the cycle and day of the year, all from March.
      Only a year that ends with a leap day has a 366th day. */
  predicate EraParts(c: nat, q: nat, s: nat, t: nat) {
    c <= 3 && q <= 24 && s <= 3 && t <= 365 && (t == 365 ==> s == 3 && (q < 24 || c == 3))
  }

  function DayOfEra(c: nat, q: nat, s: nat, t: nat): nat {
    36524 * c + 1461 * q + 365 * s + t
  }

  lemma YearOfEraIsExact(c: nat, q: nat, s: nat, t: nat)
    requires EraParts(c, q, s, t)
    ensures YearOfEra(DayOfEra(c, q, s, t)) == 100 * c + 4 * q + s
  {
    var doe := DayOfEra(c, q, s, t);
    var carry := 24 * c + q + 365 * s + t;
    var d: nat := if carry >= 1460 then 1 else 0;
    assert doe == 1460 * (25 * c + q) + carry;
    assert doe / 1460 == 25 * c + q + d;
    assert doe / 36524 == if doe == 146096 then 4 else c;
    assert doe / 146096 == if doe == 146096 then 1 else 0;
    assert doe - doe / 1460 + doe / 36524 - doe / 146096 == 365 * (100 * c + 4 * q + s) + (t - d);
    assert 0 <= t - d < 365;
  }

  lemma StartOfYear(c: nat, q: nat, s: nat)
    requires c <= 3 && q <= 24 && s <= 3
    ensures var y := 100 * c + 4 * q + s;
            y / 4 == 25 * c + q && y / 100 == c && 365 * y + y / 4 - y / 100 == 36524 * c + 1461 * q + 365 * s
  {
  }

  function Century(doe: nat): nat {
    if doe / 36524 < 3 then doe / 36524 else 3
  }

  function Cycle(doe: nat): int {
    (doe - 36524 * Century(doe)) / 1461
  }

  function YearOfCycle(doe: nat): int {
    var days := doe - 36524 * Century(doe) - 1461 * Cycle(doe);
    if days / 365 < 3 then days / 365 else 3
  }

  function DayOfYear(doe: nat): int {
    doe - 36524 * Century(doe) - 1461 * Cycle(doe) - 365 * YearOfCycle(doe)
  }

  lemma Parts(doe: nat)
    requires doe < 146097
    ensures Cycle(doe) >= 0 && YearOfCycle(doe) >= 0 && DayOfYear(doe) >= 0
    ensures EraParts(Century(doe), Cycle(doe), YearOfCycle(doe), DayOfYear(doe))
  {
    var r := doe - 36524 * Century(doe);
    assert 0 <= r <= 36524 && (r == 36524 ==> Century(doe) == 3);
  }

  lemma DecomposeDoe(doe: nat)
    requires doe < 146097
    ensures var y := YearOfEra(doe);
            y < 400 && doe - (365 * y + y / 4 - y / 100) == DayOfYear(doe) && 0 <= DayOfYear(doe) <= 365 &&
            (DayOfYear(doe) == 365 ==> IsLeap(y + 1))
  {
    Parts(doe);
    Assemble(doe, Century(doe), Cycle(doe), YearOfCycle(doe), DayOfYear(doe));
  }

  lemma Assemble(doe: nat, c: nat, q: nat, s: nat, t: nat)
    requires EraParts(c, q, s, t) && doe == DayOfEra(c, q, s, t)
    ensures var y := YearOfEra(doe);
            y < 400 && doe - (365 * y + y / 4 - y / 100) == t && (t == 365 ==> IsLeap(y + 1))
  {
    YearOfEraIsExact(c, q, s, t);
    StartOfYear(c, q, s);
    LeapYear(c, q, s);
  }

  /** The year after March year 100c + 4q + s has a leap day exactly in these cases. */
  lemma LeapYear(c: nat, q: nat, s: nat)
    requires c <= 3 && q <= 24 && s <= 3
    ensures IsLeap(100 * c + 4 * q + s + 1) <==> s == 3 && (q < 24 || c == 3)
  {
    var y := 100 * c + 4 * q + s + 1;
    assert y % 4 == (s + 1) % 4;
    if s == 3 {
      assert y == 100 * c + 4 * (q + 1);
      if q == 24 {
        assert y == 100 * (c + 1);
      } else {
        assert y % 100 == 4 * (q + 1);
      }
    }
  }

  // ------------------------------------------------------------------ months from March

  /** Days before the `mp`-th month, counted from March. */
  function DaysBefore(mp: nat): nat {
    (153 * mp + 2) / 5
  }

  function MonthLength(mp: nat): nat {
    if mp == 11 then 29 else DaysBefore(mp + 1) - DaysBefore(mp)
  }

  lemma MonthTable(mp: nat)
    requires mp <= 11
    ensures DaysBefore(mp) == [0, 31, 61, 92, 122, 153, 184, 214, 245, 275, 306, 337][mp]
    ensures MonthLength(mp) == [31, 30, 31, 30, 31, 31, 30, 31, 30, 31, 31, 29][mp]
  {
  }

  lemma MonthStart(doy: nat)
    requires doy <= 365
    ensures var mp := (5 * doy + 2) / 153;
            mp <= 11 && DaysBefore(mp) <= doy < DaysBefore(mp) + MonthLength(mp)
  {
    var mp := (5 * doy + 2) / 153;
    MonthTable(mp);
  }

  lemma MonthOfDay(mp: nat, day: nat)
    requires mp <= 11 && day < MonthLength(mp)
    ensures (5 * (DaysBefore(mp) + day) + 2) / 153 == mp
  {
    MonthTable(mp);
  }

  // ----------------------------------------------------------------- back to days

  /** The year a date belongs to when years begin in March. */
  function MarchYear(d: Date): int {
    if d.month <= 2 then d.year - 1 else d.year
  }

  function MarchMonth(d: Date): int {
    if d.month > 2 then d.month - 3 else d.month + 9
  }

  /** Days of the era before a year of it. */
  function DaysBeforeYear(yoe: int): int {
    yoe * 365 + yoe / 4 - yoe / 100
  }

  /** The usual count of days from 0000-03-01. */
  function DaysFromCivil(d: Date): int {
    var y := MarchYear(d);
    y / 400 * 146097 + DaysBeforeYear(y % 400) + (153 * MarchMonth(d) + 2) / 5 + d.day - 1
  }

  /** The first day the program's count can express. */
  predicate FromMarchOfYear0(d: Date) {
    d.year > 0 || d.month > 2
  }

  lemma InEra(era: nat, y: nat)
    requires y < 400
    ensures (400 * era + y) / 400 == era && (400 * era + y) % 400 == y
  {
  }

  lemma InDayCount(era: nat, doe: nat)
    requires doe < 146097
    ensures (146097 * era + doe) / 146097 == era && (146097 * era + doe) % 146097 == doe
  {
  }

  lemma LeapByEra(era: nat, y: nat)
    ensures IsLeap(400 * era + y) <==> IsLeap(y)
  {
    SameMod4(100 * era, y);
    SameMod100(4 * era, y);
    SameMod400(era, y);
  }

  lemma SameMod4(k: nat, y: nat)
    ensures (4 * k + y) % 4 == y % 4
  {
    assert 4 * k + y == 4 * (k + y / 4) + y % 4;
  }

  lemma SameMod100(k: nat, y: nat)
    ensures (100 * k + y) % 100 == y % 100
  {
    assert 100 * k + y == 100 * (k + y / 100) + y % 100;
  }

  lemma SameMod400(k: nat, y: nat)
    ensures (400 * k + y) % 400 == y % 400
  {
    assert 400 * k + y == 400 * (k + y / 400) + y % 400;
  }

  lemma LengthOfMonth(year: nat, mp: nat)
    requires mp <= 11
    ensures var month := if mp < 10 then mp + 3 else mp - 9;
            1 <= month <= 12 &&
            DaysInMonth(year, month) == if mp == 11 && !IsLeap(year) then 28 else MonthLength(mp)
  {
    MonthTable(mp);
  }

  lemma DateOfIsValid(year: nat, doy: nat)
    requires doy <= 365 && (doy == 365 ==> IsLeap(year + 1))
    ensures var d := DateOf(year, doy);
            Valid(d) && FromMarchOfYear0(d) && MarchYear(d) == year &&
            DaysBefore(MarchMonth(d)) + d.day - 1 == doy
  {
    MonthStart(doy);
    var mp := (5 * doy + 2) / 153;
    LengthOfMonth(DateOf(year, doy).year, mp);
    if mp == 11 {
      MonthTable(11);
    }
  }

  lemma DateOfInverts(d: Date)
    requires Valid(d) && FromMarchOfYear0(d)
    ensures var doy := DaysBefore(MarchMonth(d)) + d.day - 1;
            0 <= doy <= 365 && (doy == 365 ==> IsLeap(MarchYear(d) + 1)) && DateOf(MarchYear(d), doy) == d
  {
    var mp := MarchMonth(d);
    LengthOfMonth(d.year, mp);
    MonthTable(mp);
    MonthOfDay(mp, d.day - 1);
  }

  lemma CivilOf(d: Date, era: nat, yoe: nat, doy: nat)
    requires yoe < 400 && MarchYear(d) == 400 * era + yoe && DaysBefore(MarchMonth(d)) + d.day - 1 == doy
    ensures DaysFromCivil(d) == 146097 * era + DaysBeforeYear(yoe) + doy
  {
    InEra(era, yoe);
  }

  lemma YmdOf(era: nat, doe: nat, yoe: nat, doy: nat)
    requires doe < 146097 && doy <= 365 && YearOfEra(doe) == yoe && doe == DaysBeforeYear(yoe) + doy
    ensures DaysToYmd(146097 * era + doe) == DateOf(400 * era + yoe, doy)
  {
    InDayCount(era, doe);
  }

  lemma ExactInEra(era: nat, doe: nat) returns (d: Date)
    requires doe < 146097
    ensures d == DaysToYmd(146097 * era + doe) && Valid(d) && FromMarchOfYear0(d)
    ensures DaysFromCivil(d) == 146097 * era + doe
  {
    DecomposeDoe(doe);
    var yoe, doy := YearOfEra(doe), DayOfYear(doe);
    YmdOf(era, doe, yoe, doy);
    d := DateInEra(era, yoe, doy);
  }

  lemma DateInEra(era: nat, yoe: nat, doy: nat) returns (d: Date)
    requires yoe < 400 && doy <= 365 && (doy == 365 ==> IsLeap(yoe + 1))
    ensures d == DateOf(400 * era + yoe, doy) && Valid(d) && FromMarchOfYear0(d)
    ensures DaysFromCivil(d) == 146097 * era + DaysBeforeYear(yoe) + doy
  {
    LeapByEra(era, yoe + 1);
    DateOfIsValid(400 * era + yoe, doy);
    d := DateOf(400 * era + yoe, doy);
    CivilOf(d, era, yoe, doy);
  }

  /** The result is a date of the Gregorian calendar, and counting its days gives the
      argument back. */
  lemma DateIsValidAndExact(z: nat)
    ensures Valid(DaysToYmd(z)) && FromMarchOfYear0(DaysToYmd(z))
    ensures DaysFromCivil(DaysToYmd(z)) == z
  {
    var d := ExactInEra(z / 146097, z % 146097);
  }

  lemma YearParts(yoe: nat) returns (c: nat, q: nat, s: nat)
    requires yoe < 400
    ensures c <= 3 && q <= 24 && s <= 3 && yoe == 100 * c + 4 * q + s
  {
    c, q, s := yoe / 100, (yoe % 100) / 4, yoe % 4;
  }

  lemma DoeOf(yoe: nat, doy: nat)
    requires yoe < 400 && doy <= 365 && (doy == 365 ==> IsLeap(yoe + 1))
    ensures var doe := DaysBeforeYear(yoe) + doy;
            0 <= doe < 146097 && YearOfEra(doe) == yoe
  {
    var c, q, s := YearParts(yoe);
    LeapYear(c, q, s);
    StartOfYear(c, q, s);
    YearOfEraIsExact(c, q, s, doy);
  }

  lemma InvertsInEra(d: Date, era: nat, yoe: nat, doy: nat) returns (z: nat)
    requires yoe < 400 && MarchYear(d) == 400 * era + yoe
    requires doy <= 365 && DaysBefore(MarchMonth(d)) + d.day - 1 == doy && DateOf(400 * era + yoe, doy) == d
    requires doy == 365 ==> IsLeap(yoe + 1)
    ensures z == DaysFromCivil(d) && DaysToYmd(z) == d
  {
    DoeOf(yoe, doy);
    CivilOf(d, era, yoe, doy);
    YmdOf(era, DaysBeforeYear(yoe) + doy, yoe, doy);
    z := 146097 * era + (DaysBeforeYear(yoe) + doy);
  }

  lemma DateInverts(d: Date) returns (z: nat)
    requires Valid(d) && FromMarchOfYear0(d)
    ensures z == DaysFromCivil(d) && DaysToYmd(z) == d
  {
    var y: nat := MarchYear(d);
    DateOfInverts(d);
    LeapByEra(y / 400, y % 400 + 1);
    z := InvertsInEra(d, y / 400, y % 400, DaysBefore(MarchMonth(d)) + d.day - 1);
  }

  /** Every valid date is the date of its own day count. */
  lemma DaysOfDateGiveDate(d: Date)
    requires Valid(d) && FromMarchOfYear0(d)
    ensures DaysFromCivil(d) >= 0 && DaysToYmd(DaysFromCivil(d)) == d
  {
    var z := DateInverts(d);
  }

  lemma NextDayIsOneMore(d: Date)
    requires Valid(d) && FromMarchOfYear0(d)
    ensures Valid(NextDay(d)) && FromMarchOfYear0(NextDay(d))
    ensures DaysFromCivil(NextDay(d)) == DaysFromCivil(d) + 1
  {
    var mp := MarchMonth(d);
    LengthOfMonth(d.year, mp);
    if d.day == DaysInMonth(d.year, d.month) {
      if mp == 11 {
        NewMarchYear(d);
      } else {
        NewMonth(d);
      }
    }
  }

  lemma NewMonth(d: Date)
    requires Valid(d) && d.month != 2 && d.day == DaysInMonth(d.year, d.month)
    ensures DaysFromCivil(NextDay(d)) == DaysFromCivil(d) + 1
  {
    var mp := MarchMonth(d);
    LengthOfMonth(d.year, mp);
    MonthTable(mp);
    MonthTable(mp + 1);
  }

  lemma LengthOfYear(yoe: nat)
    requires yoe < 400
    ensures (if yoe == 399 then 146097 else DaysBeforeYear(yoe + 1))
         == DaysBeforeYear(yoe) + if IsLeap(yoe + 1) then 366 else 365
  {
    var c, q, s := YearParts(yoe);
    StartOfYear(c, q, s);
    LeapYear(c, q, s);
    if s < 3 {
      StartOfYear(c, q, s + 1);
    } else if q < 24 {
      StartOfYear(c, q + 1, 0);
    } else if c < 3 {
      StartOfYear(c + 1, 0, 0);
    }
  }

  lemma NewMarchYear(d: Date)
    requires Valid(d) && d.month == 2 && d.day == DaysInMonth(d.year, 2) && d.year > 0
    ensures DaysFromCivil(Date(d.year, 3, 1)) == DaysFromCivil(d) + 1
  {
    var y: nat := d.year - 1;
    var era, yoe := y / 400, y % 400;
    LengthOfYear(yoe);
    LeapByEra(era, yoe + 1);
    assert d.year == 400 * era + (yoe + 1);
    if yoe == 399 {
      InEra(era + 1, 0);
    } else {
      InEra(era, yoe + 1);
    }
    MonthTable(11);
  }

  /** Each day's date is the calendar successor of the day before's. */
  lemma EachDayIsTheNext(z: nat)
    ensures DaysToYmd(z + 1) == NextDay(DaysToYmd(z))
  {
    DateIsValidAndExact(z);
    NextDayIsOneMore(DaysToYmd(z));
    DaysOfDateGiveDate(NextDay(DaysToYmd(z)));
  }

  /** `n` days after 0000-03-01, counted one calendar day at a time. */
  function DayByDay(n: nat): Date {
    if n == 0 then Date(0, 3, 1) else NextDay(DayByDay(n - 1))
  }

  lemma {:induction false} WalkAgrees(date: nat -> Date, z: nat)
    requires date(0) == Date(0, 3, 1) && forall n: nat :: date(n + 1) == NextDay(date(n))
    ensures date(z) == DayByDay(z)
  {
    if z > 0 {
      WalkAgrees(date, z - 1);
      assert date(z - 1 + 1) == NextDay(date(z - 1));
    }
  }

  lemma FirstDay(d: Date)
    requires d == Date(0, 3, 1)
    ensures Valid(d) && FromMarchOfYear0(d) && DaysFromCivil(d) == 0
  {
    CivilOf(d, 0, 0, 0);
  }

  lemma DayZero(d: Date)
    requires d == Date(0, 3, 1)
    ensures DaysToYmd(0) == d
  {
    FirstDay(d);
    DaysOfDateGiveDate(d);
  }

  /** The arithmetic agrees with walking the calendar day by day, for every count. */
  lemma AgreesWithCalendar(z: nat)
    ensures DaysToYmd(z) == DayByDay(z)
  {
    DayZero(Date(0, 3, 1));
    forall n: nat ensures DaysToYmd(n + 1) == NextDay(DaysToYmd(n)) {
      EachDayIsTheNext(n);
    }
    WalkAgrees(DaysToYmd, z);
  }
}
