/** Day numbers and civil dates: the closed-form conversion against a plain count of days
    in the proleptic Gregorian calendar. */
module Calendar {
  import opened Arithmetic
  import opened Wrappers

  datatype Date = Date(year: int, month: int, day: int)

  // ----- the calendar, plainly

  predicate IsLeap(y: int) {
    y % 4 == 0 && (y % 100 != 0 || y % 400 == 0)
  }

  function YearLength(y: int): int {
    if IsLeap(y) then 366 else 365
  }

  function MonthLength(y: int, m: int): int
    requires 1 <= m <= 12
  {
    if m == 2 then (if IsLeap(y) then 29 else 28)
    else if m == 4 || m == 6 || m == 9 || m == 11 then 30
    else 31
  }

  predicate Valid(date: Date) {
    1 <= date.month <= 12 && 1 <= date.day <= MonthLength(date.year, date.month)
  }

  /** Days from 1970-01-01 to the first of January of `y`, one year at a time. */
  function DaysBeforeYear(y: int): int
    decreases if y >= 1970 then y - 1970 else 1970 - y
  {
    if y == 1970 then 0
    else if y > 1970 then DaysBeforeYear(y - 1) + YearLength(y - 1)
    else DaysBeforeYear(y + 1) - YearLength(y)
  }

  function DaysBeforeMonth(y: int, m: int): int
    requires 1 <= m <= 12
    decreases m
  {
    if m == 1 then 0 else DaysBeforeMonth(y, m - 1) + MonthLength(y, m - 1)
  }

  /** The number of the day, 1970-01-01 being day 0. */
  function DayNumber(date: Date): int
    requires Valid(date)
  {
    DaysBeforeYear(date.year) + DaysBeforeMonth(date.year, date.month) + date.day - 1
  }

  /** The same for anything written as a date; none when there is no such day. */
  function Count(date: Date): Option<int> {
    if Valid(date) then Some(DayNumber(date)) else None
  }

  function Successor(date: Date): Date
    requires Valid(date)
  {
    if date.day < MonthLength(date.year, date.month) then Date(date.year, date.month, date.day + 1)
    else if date.month < 12 then Date(date.year, date.month + 1, 1)
    else Date(date.year + 1, 1, 1)
  }

  // ----- the conversion, straight-line

  function WrapI64(x: int): int {
    (x + 0x8000_0000_0000_0000) % 0x1_0000_0000_0000_0000 - 0x8000_0000_0000_0000
  }

  function WrapI32(x: int): int {
    (x + 0x8000_0000) % 0x1_0000_0000 - 0x8000_0000
  }

  /** Year of the 400-year era, counted from March. */
  function YearOfEra(doe: int): int {
    (doe - doe / 1460 + doe / 36524 - doe / 146096) / 365
  }

  function DayOfYear(doe: int, yoe: int): int {
    doe - (365 * yoe + yoe / 4 - yoe / 100)
  }

  /** From a March-based year and the day within it. */
  function FromMarch(y: int, doy: int): Date {
    var mp := (5 * doy + 2) / 153;
    var d := doy - (153 * mp + 2) / 5 + 1;
    var m := if mp < 10 then mp + 3 else mp - 9;
    Date(y + if m <= 2 then 1 else 0, m, d)
  }

  /** The conversion before the year is cut to 32 bits. */
  function Civil(z: int): Date {
    CivilIn(z / 146097, z % 146097, YearOfEra(z % 146097))
  }

  function CivilIn(era: int, doe: int, yoe: int): Date {
    FromMarch(yoe + era * 400, DayOfYear(doe, yoe))
  }

  function CutYear(date: Date): Date {
    Date(WrapI32(date.year), date.month, date.day)
  }

  function CivilFromDays(days: int): Date {
    CutYear(Civil(WrapI64(days + 719468)))
  }

  // ----- within an era

  /** The first day of March-based year `yoe` of an era. */
  function EraStart(yoe: int): int {
    365 * yoe + yoe / 4 - yoe / 100
  }

  lemma FloorStep(y: int, b: int)
    requires b > 1
    ensures y / b == (y - 1) / b + if y % b == 0 then 1 else 0
  {
    var q, r := y / b, y % b;
    assert y == b * q + r;
    if r == 0 {
      assert b * (q - 1) == b * q - b;
      DivisionIs(y - 1, b, q - 1, b - 1);
    } else {
      DivisionIs(y - 1, b, q, r - 1);
    }
  }

  lemma CenturyOf(c: int, r: int)
    requires 0 <= c <= 3 && 0 <= r && (r < 36524 || (c == 3 && r == 36524))
    ensures var doe := 36524 * c + r; doe / 36524 - doe / 146096 == c
  {
    var doe := 36524 * c + r;
    if r < 36524 {
      DivisionIs(doe, 36524, c, r);
      DivisionIs(doe, 146096, 0, doe);
    } else {
      DivisionIs(doe, 36524, 4, 0);
      DivisionIs(doe, 146096, 1, 0);
    }
  }

  lemma BlockBy1460(c: int, k: int, s: int)
    ensures (36524 * c + 1461 * k + s) / 1460 == 25 * c + k + (24 * c + k + s) / 1460
  {
    var e, r := (24 * c + k + s) / 1460, (24 * c + k + s) % 1460;
    DivisionIs(36524 * c + 1461 * k + s, 1460, 25 * c + k + e, r);
  }

  lemma BlockBy365(c: int, k: int, d: int, j: int)
    requires 0 <= d - 365 * j < 365
    ensures (36500 * c + 1460 * k + d) / 365 == 100 * c + 4 * k + j
  {
    DivisionIs(36500 * c + 1460 * k + d, 365, 100 * c + 4 * k + j, d - 365 * j);
  }

  lemma CarryIs(n: int)
    requires 0 <= n < 2920
    ensures n / 1460 == if n < 1460 then 0 else 1
  {
  }

  /** Day `s` of four-year block `k` of century `c`: the divisions find the year. */
  lemma YearOfBlock(c: int, k: int, s: int, j: int)
    requires 0 <= c <= 3 && 0 <= k <= 24 && 0 <= s <= 1460
    requires 1461 * k + s < 36524 || (c == 3 && 1461 * k + s == 36524)
    requires 0 <= j <= 3 && 365 * j <= s && (j < 3 ==> s < 365 * (j + 1))
    ensures YearOfEra(36524 * c + 1461 * k + s) == 100 * c + 4 * k + j
  {
    var e := if 24 * c + k + s < 1460 then 0 else 1;
    CarryIs(24 * c + k + s);
    BlockBy1460(c, k, s);
    CenturyOf(c, 1461 * k + s);
    BlockBy365(c, k, s - e, j);
  }

  lemma StartOfBlock(c: int, k: int, j: int)
    requires 0 <= c <= 3 && 0 <= k <= 24 && 0 <= j <= 3
    ensures EraStart(100 * c + 4 * k + j) == 36524 * c + 1461 * k + 365 * j
  {
    var n := 100 * c + 4 * k + j;
    DivisionIs(n, 4, 25 * c + k, j);
    DivisionIs(n, 100, c, 4 * k + j);
  }

  lemma BlockEndIsLeap(c: int, k: int)
    requires 0 <= c <= 3 && 0 <= k <= 24 && (k == 24 ==> c == 3)
    ensures IsLeap(100 * c + 4 * k + 4)
  {
    var n := 100 * c + 4 * k + 4;
    DivisionIs(n, 4, 25 * c + k + 1, 0);
    if k < 24 {
      DivisionIs(n, 100, c, 4 * k + 4);
    }
  }

  lemma BlockOf(doe: int) returns (c: int, k: int, s: int)
    requires 0 <= doe < 146097
    ensures doe == 36524 * c + 1461 * k + s
    ensures 0 <= c <= 3 && 0 <= k <= 24 && 0 <= s <= 1460
    ensures 1461 * k + s < 36524 || (c == 3 && 1461 * k + s == 36524)
  {
    c := if doe == 146096 then 3 else doe / 36524;
    var r := doe - 36524 * c;
    k, s := r / 1461, r % 1461;
  }

  /** The day is in that March-based year, its 366th only if the year is that long. */
  predicate FallsIn(doe: int, yoe: int) {
    && 0 <= yoe < 400 && 0 <= DayOfYear(doe, yoe) <= 365
    && (DayOfYear(doe, yoe) == 365 ==> IsLeap(yoe + 1))
  }

  /** Where a day of the era falls: its March-based year, and its day in that year, the
      366th only in a leap year. */
  lemma YearOfEraIs(doe: int)
    requires 0 <= doe < 146097
    ensures FallsIn(doe, YearOfEra(doe))
  {
    var c, k, s := BlockOf(doe);
    DayOfBlock(c, k, s, if s >= 1095 then 3 else s / 365);
  }

  lemma DayOfBlock(c: int, k: int, s: int, j: int)
    requires 0 <= c <= 3 && 0 <= k <= 24 && 0 <= s <= 1460
    requires 1461 * k + s < 36524 || (c == 3 && 1461 * k + s == 36524)
    requires 0 <= j <= 3 && 365 * j <= s && (j < 3 ==> s < 365 * (j + 1))
    ensures FallsIn(36524 * c + 1461 * k + s, YearOfEra(36524 * c + 1461 * k + s))
  {
    YearOfBlock(c, k, s, j);
    StartOfBlock(c, k, j);
    assert DayOfYear(36524 * c + 1461 * k + s, 100 * c + 4 * k + j) == s - 365 * j;
    if s - 365 * j == 365 {
      BlockEndIsLeap(c, k);
    }
  }

  // ----- months

  lemma MonthTable(y: int)
    ensures DaysBeforeMonth(y, 1) == 0 && DaysBeforeMonth(y, 2) == 31
    ensures var leap := if IsLeap(y) then 1 else 0;
            && DaysBeforeMonth(y, 3) == 59 + leap && DaysBeforeMonth(y, 4) == 90 + leap
            && DaysBeforeMonth(y, 5) == 120 + leap && DaysBeforeMonth(y, 6) == 151 + leap
            && DaysBeforeMonth(y, 7) == 181 + leap && DaysBeforeMonth(y, 8) == 212 + leap
            && DaysBeforeMonth(y, 9) == 243 + leap && DaysBeforeMonth(y, 10) == 273 + leap
            && DaysBeforeMonth(y, 11) == 304 + leap && DaysBeforeMonth(y, 12) == 334 + leap
  {
    assert DaysBeforeMonth(y, 3) == DaysBeforeMonth(y, 2) + MonthLength(y, 2);
    assert DaysBeforeMonth(y, 5) == DaysBeforeMonth(y, 4) + 30;
    assert DaysBeforeMonth(y, 7) == DaysBeforeMonth(y, 6) + 30;
    assert DaysBeforeMonth(y, 9) == DaysBeforeMonth(y, 8) + 31;
    assert DaysBeforeMonth(y, 11) == DaysBeforeMonth(y, 10) + 31;
  }

  /** Leap years before `y`, counted with floors. */
  function LeapsBefore(y: int): int {
    (y - 1) / 4 - (y - 1) / 100 + (y - 1) / 400
  }

  lemma LeapsStep(y: int)
    ensures LeapsBefore(y + 1) == LeapsBefore(y) + if IsLeap(y) then 1 else 0
  {
    FloorStep(y, 4);
    FloorStep(y, 100);
    FloorStep(y, 400);
    if y % 400 == 0 {
      DivisionIs(y, 100, 4 * (y / 400), 0);
    }
    if y % 100 == 0 {
      DivisionIs(y, 4, 25 * (y / 100), 0);
    }
  }

  lemma {:induction false} YearClosedForm(y: int)
    ensures DaysBeforeYear(y) == 365 * (y - 1970) + LeapsBefore(y) - 477
    decreases if y >= 1970 then y - 1970 else 1970 - y
  {
    if y > 1970 {
      YearClosedForm(y - 1);
      LeapsStep(y - 1);
    } else if y < 1970 {
      YearClosedForm(y + 1);
      LeapsStep(y);
    }
  }

  /** The day number of the first of March. */
  function MarchStart(y: int): int {
    365 * y + y / 4 - y / 100 + y / 400 - 719468
  }

  lemma MarchStartIs(y: int)
    ensures DaysBeforeYear(y) + 59 + (if IsLeap(y) then 1 else 0) == MarchStart(y)
    ensures DaysBeforeYear(y + 1) == MarchStart(y) + 306
  {
    YearClosedForm(y);
    YearClosedForm(y + 1);
    LeapsStep(y);
  }

  /** The month arithmetic: five months of 153 days from March on. */
  lemma MonthOfDay(y: int, doy: int)
    requires 0 <= doy <= 365 && (doy == 365 ==> IsLeap(y + 1))
    ensures var date := FromMarch(y, doy);
            && Valid(date)
            && (date.month > 2 ==> date.year == y && DaysBeforeMonth(y, date.month) + date.day - 1 ==
                                                      59 + (if IsLeap(y) then 1 else 0) + doy)
            && (date.month <= 2 ==> date.year == y + 1 && DaysBeforeMonth(y + 1, date.month) + date.day - 1 ==
                                                          doy - 306)
  {
    MonthTable(y);
    MonthTable(y + 1);
  }

  /** A day of a March-based year is a valid date with the day number it should have. */
  lemma FromMarchIs(y: int, doy: int)
    requires 0 <= doy <= 365 && (doy == 365 ==> IsLeap(y + 1))
    ensures Valid(FromMarch(y, doy)) && DayNumber(FromMarch(y, doy)) == MarchStart(y) + doy
  {
    MarchStartIs(y);
    MonthOfDay(y, doy);
  }

  // ----- the conversion is right

  lemma EraSplits(era: int, yoe: int)
    requires 0 <= yoe < 400
    ensures MarchStart(yoe + era * 400) == 146097 * era + EraStart(yoe) - 719468
    ensures IsLeap(yoe + era * 400 + 1) <==> IsLeap(yoe + 1)
  {
    var y := yoe + era * 400;
    DivisionIs(y, 400, era, yoe);
    DivisionIs(y, 100, 4 * era + yoe / 100, yoe % 100);
    DivisionIs(y, 4, 100 * era + yoe / 4, yoe % 4);
    var n := yoe + 1;
    DivisionIs(y + 1, 400, era + n / 400, n % 400);
    DivisionIs(y + 1, 100, 4 * era + n / 100, n % 100);
    DivisionIs(y + 1, 4, 100 * era + n / 4, n % 4);
  }

  /** Every day number, negative ones included, converts to a valid date that counts back
      to it. */
  lemma CivilCounts(n: int)
    ensures Count(Civil(n + 719468)) == Some(n)
  {
    var z := n + 719468;
    EraCounts(z / 146097, z % 146097);
  }

  lemma EraCounts(era: int, doe: int)
    ensures 0 <= doe < 146097 ==> Count(CivilIn(era, doe, YearOfEra(doe))) == Some(146097 * era + doe - 719468)
  {
    if 0 <= doe < 146097 {
      YearOfEraIs(doe);
      CivilInCounts(era, doe, YearOfEra(doe));
    }
  }

  lemma CivilInCounts(era: int, doe: int, yoe: int)
    ensures FallsIn(doe, yoe) ==> Count(CivilIn(era, doe, yoe)) == Some(146097 * era + doe - 719468)
  {
    if FallsIn(doe, yoe) {
      DayInEra(era, yoe, DayOfYear(doe, yoe));
    }
  }

  lemma DayInEra(era: int, yoe: int, doy: int)
    requires 0 <= yoe < 400 && 0 <= doy <= 365 && (doy == 365 ==> IsLeap(yoe + 1))
    ensures var date := FromMarch(yoe + era * 400, doy);
            Count(date) == Some(146097 * era + EraStart(yoe) + doy - 719468)
  {
    EraSplits(era, yoe);
    FromMarchIs(yoe + era * 400, doy);
  }

  lemma YearSpan(y: int)
    ensures DaysBeforeYear(y + 1) == DaysBeforeYear(y) + YearLength(y)
  {
  }

  lemma {:induction false} YearsAscend(y: int, w: int)
    requires y <= w
    ensures DaysBeforeYear(y) <= DaysBeforeYear(w)
    decreases w - y
  {
    if y < w {
      YearsAscend(y, w - 1);
      YearSpan(w - 1);
    }
  }

  lemma MonthsFit(date: Date)
    requires Valid(date)
    ensures DaysBeforeYear(date.year) <= DayNumber(date) < DaysBeforeYear(date.year + 1)
  {
    MonthTable(date.year);
    YearSpan(date.year);
  }

  /** A day number belongs to one date. */
  lemma DayNumberInjective(a: Date, b: Date)
    requires Valid(a) && Valid(b) && DayNumber(a) == DayNumber(b)
    ensures a == b
  {
    MonthsFit(a);
    MonthsFit(b);
    if a.year < b.year {
      YearsAscend(a.year + 1, b.year);
    } else if b.year < a.year {
      YearsAscend(b.year + 1, a.year);
    }
    MonthTable(a.year);
  }

  /** The conversion undoes the count on every date. */
  lemma CivilInverts(date: Date)
    requires Valid(date)
    ensures Civil(DayNumber(date) + 719468) == date
  {
    CivilCounts(DayNumber(date));
    DayNumberInjective(Civil(DayNumber(date) + 719468), date);
  }

  lemma SuccessorCounts(date: Date)
    requires Valid(date)
    ensures Valid(Successor(date)) && DayNumber(Successor(date)) == DayNumber(date) + 1
  {
    MonthTable(date.year);
    YearSpan(date.year);
  }

  /** The next day number is the next date. */
  lemma CivilSuccessor(n: int)
    ensures Valid(Civil(n + 719468))
    ensures Civil(n + 1 + 719468) == Successor(Civil(n + 719468))
  {
    CivilCounts(n);
    CivilCounts(n + 1);
    SuccessorCounts(Civil(n + 719468));
    DayNumberInjective(Civil(n + 1 + 719468), Successor(Civil(n + 719468)));
  }

  // ----- the casts

  /** The first and last day whose year fits 32 bits. */
  const FIRST_DAY := -784_353_015_833
  const LAST_DAY := 784_351_576_776

  lemma FirstDay(year: int)
    requires year == -0x8000_0000
    ensures DaysBeforeYear(year) == FIRST_DAY
  {
    YearClosedForm(year);
  }

  lemma LastDay(year: int)
    requires year == 0x8000_0000
    ensures DaysBeforeYear(year) == LAST_DAY + 1
  {
    YearClosedForm(year);
  }

  lemma YearFits(date: Date)
    requires Valid(date)
    ensures -0x8000_0000 <= date.year < 0x8000_0000 <==> FIRST_DAY <= DayNumber(date) <= LAST_DAY
  {
    FirstDay(-0x8000_0000);
    LastDay(0x8000_0000);
    MonthsFit(date);
    if date.year < -0x8000_0000 {
      YearsAscend(date.year + 1, -0x8000_0000);
    } else if date.year < 0x8000_0000 {
      YearsAscend(-0x8000_0000, date.year);
      YearsAscend(date.year + 1, 0x8000_0000);
    } else {
      YearsAscend(0x8000_0000, date.year);
    }
  }

  lemma WrapI64Is(x: int)
    requires -0x8000_0000_0000_0000 <= x < 0x8000_0000_0000_0000
    ensures WrapI64(x) == x
  {
  }

  lemma WrapI32Is(x: int)
    ensures -0x8000_0000 <= WrapI32(x) < 0x8000_0000
    ensures -0x8000_0000 <= x < 0x8000_0000 ==> WrapI32(x) == x
  {
  }

  lemma CutExact(date: Date, n: int)
    ensures Count(date) == Some(n) ==> (CutYear(date) == date <==> FIRST_DAY <= n <= LAST_DAY)
  {
    WrapI32Is(date.year);
    if Valid(date) {
      YearFits(date);
    }
  }

  lemma CutDiffers(a: Date, b: Date, n: int)
    ensures Count(b) == Some(n) && n > LAST_DAY ==> CutYear(a) != b
  {
    WrapI32Is(a.year);
    if Valid(b) {
      YearFits(b);
    }
  }

  /** With its casts, the conversion is right exactly on the days whose year fits 32
      bits, and wrong on every other one. */
  lemma CastsExact(days: int)
    requires -0x8000_0000_0000_0000 <= days < 0x8000_0000_0000_0000
    ensures CivilFromDays(days) == Civil(days + 719468) <==> FIRST_DAY <= days <= LAST_DAY
  {
    CivilCounts(days);
    if days + 719468 < 0x8000_0000_0000_0000 {
      WrapI64Is(days + 719468);
      CutExact(Civil(days + 719468), days);
    } else {
      CutDiffers(Civil(WrapI64(days + 719468)), Civil(days + 719468), days);
    }
  }

  // ----- the time of day

  datatype Time = Time(hour: nat, minute: nat, second: nat)

  /** Seconds since the epoch, split into a day and a time in it. */
  function SplitSeconds(total: nat): (r: (nat, Time))
    ensures r.1.hour < 24 && r.1.minute < 60 && r.1.second < 60
    ensures total == 86400 * r.0 + 3600 * r.1.hour + 60 * r.1.minute + r.1.second
  {
    var s := total % 86400;
    (total / 86400, Time(s / 3600, s % 3600 / 60, s % 60))
  }
}
