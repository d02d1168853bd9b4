/** The run's timestamp, and when the results region can take its date from it. */
module Timestamps {
  import opened Arithmetic
  import opened Calendar
  import opened ResultsRegion
  import Text

  function Zeros(n: nat): (s: string)
    ensures |s| == n && forall i :: 0 <= i < n ==> s[i] == '0'
  {
    seq(n, i => '0')
  }

  /** At least `width` digits. */
  function Pad(n: nat, width: nat): string {
    var s := Text.Decimal(n);
    if |s| < width then Zeros(width - |s|) + s else s
  }

  /** The sign counts towards the width. */
  function PrintYear(y: int): string {
    if y < 0 then "-" + Pad(-y, 3) else Pad(y, 4)
  }

  function PrintDate(date: Date): string
    requires date.month >= 0 && date.day >= 0
  {
    PrintYear(date.year) + ("-" + Pad(date.month, 2) + "-" + Pad(date.day, 2))
  }

  function PrintTime(t: Time, millis: nat): string {
    "T" + Pad(t.hour, 2) + ":" + Pad(t.minute, 2) + ":" + Pad(t.second, 2) + "." + Pad(millis, 3) + "Z"
  }

  function Timestamp(total: nat, millis: nat): string {
    CivilInYear(SplitSeconds(total).0);
    PrintDate(CivilFromDays(SplitSeconds(total).0)) + PrintTime(SplitSeconds(total).1, millis)
  }

  // ----- widths

  function Power10(k: nat): nat {
    if k == 0 then 1 else 10 * Power10(k - 1)
  }

  lemma {:induction false} DecimalWidth(n: nat, k: nat)
    requires k >= 1
    ensures |Text.Decimal(n)| <= k <==> n < Power10(k)
    decreases k
  {
    Text.DecimalDigits(n / 10);
    if k == 1 {
      assert Power10(1) == 10 * Power10(0);
    } else {
      DecimalWidth(n / 10, k - 1);
      assert 1 <= Power10(k - 1) by { PowerPositive(k - 1); }
    }
  }

  lemma {:induction false} PowerPositive(k: nat)
    ensures Power10(k) >= 1
  {
    if k > 0 { PowerPositive(k - 1); }
  }

  lemma PadWidth(n: nat, k: nat)
    requires k >= 1
    ensures Text.AllDigits(Pad(n, k)) && |Pad(n, k)| >= k
    ensures |Pad(n, k)| == k <==> n < Power10(k)
  {
    Text.DecimalDigits(n);
    DecimalWidth(n, k);
  }

  // ----- the date in front

  lemma CivilInYear(days: int)
    ensures 1 <= CivilFromDays(days).month <= 12 && 1 <= CivilFromDays(days).day <= 31
  {
    CivilCounts(WrapI64(days + 719468) - 719468);
  }

  lemma ShapedFour(year: string, month: string, day: string, rest: string)
    requires Text.AllDigits(year) && |year| == 4
    requires Text.AllDigits(month) && |month| == 2 && Text.AllDigits(day) && |day| == 2
    ensures DatePrefixed(year + ("-" + month + "-" + day) + rest)
  {
    var s := year + ("-" + month + "-" + day) + rest;
    var date := year + ("-" + month + "-" + day);
    assert s[..10] == date;
  }

  lemma NotShaped(year: string, rest: string)
    requires year != "" && (year[0] == '-' || (|year| > 4 && Text.IsDigit(year[4])))
    ensures !DatePrefixed(year + rest)
  {
    var s := year + rest;
    if |s| >= 10 {
      assert s[..10][0] == year[0];
      assert |year| > 4 ==> s[..10][4] == year[4];
    }
  }

  /** The results region accepts the timestamp exactly in the years 0 to 9999. */
  lemma TimestampDated(total: nat, millis: nat)
    ensures DatePrefixed(Timestamp(total, millis)) <==> 0 <= CivilFromDays(SplitSeconds(total).0).year <= 9999
  {
    CivilInYear(SplitSeconds(total).0);
    DatedIff(CivilFromDays(SplitSeconds(total).0), PrintTime(SplitSeconds(total).1, millis));
  }

  /** A year's first day, from the day count. */
  lemma YearAtMost(date: Date, year: int)
    requires Valid(date)
    ensures date.year < year <==> DayNumber(date) < DaysBeforeYear(year)
  {
    MonthsFit(date);
    if date.year < year {
      YearsAscend(date.year + 1, year);
    } else {
      YearsAscend(year, date.year);
    }
  }

  lemma BeforeYear10000(year: int)
    requires year == 10000
    ensures DaysBeforeYear(year) == 2_932_897
  {
    YearClosedForm(year);
  }

  lemma CutYearIs(year: int, k: int)
    ensures k * YEARS <= year < k * YEARS + 10000 ==> 0 <= WrapI32(year) <= 9999
    ensures 0 <= WrapI32(year) <= 9999 ==> year / YEARS * YEARS <= year < year / YEARS * YEARS + 10000
  {
    if k * YEARS <= year < k * YEARS + 10000 {
      DivisionIs(year + 0x8000_0000, YEARS, k, year - k * YEARS + 0x8000_0000);
    }
    var q, r := year / YEARS, year % YEARS;
    if r < 0x8000_0000 {
      DivisionIs(year + 0x8000_0000, YEARS, q, r + 0x8000_0000);
    } else {
      DivisionIs(year + 0x8000_0000, YEARS, q + 1, r - 0x8000_0000);
    }
  }

  /** How many years 32 bits can tell apart. */
  const YEARS := 0x1_0000_0000

  /** Whether the day is in one of the first ten thousand years after year `k * YEARS`. */
  ghost predicate InBand(days: nat, k: int) {
    DaysBeforeYear(k * YEARS) <= days < DaysBeforeYear(k * YEARS + 10000)
  }

  lemma BandIff(date: Date, days: nat)
    requires Valid(date) && DayNumber(date) == days
    ensures 0 <= WrapI32(date.year) <= 9999 <==> exists k :: InBand(days, k)
  {
    forall k
      ensures InBand(days, k) <==> k * YEARS <= date.year < k * YEARS + 10000
    {
      YearAtMost(date, k * YEARS);
      YearAtMost(date, k * YEARS + 10000);
    }
    CutYearIs(date.year, 0);
    if k :| InBand(days, k) {
      CutYearIs(date.year, k);
    } else if 0 <= WrapI32(date.year) <= 9999 {
      assert InBand(days, date.year / YEARS);
    }
  }

  lemma DaysDated(days: nat)
    requires days < 0x4000_0000_0000_0000
    ensures 0 <= CivilFromDays(days).year <= 9999 <==> exists k :: InBand(days, k)
  {
    CivilCounts(days);
    WrapI64Is(days + 719468);
    BandIff(Civil(days + 719468), days);
  }

  /** On any 64-bit number of seconds: accepted exactly in the years 0 to 9999 and in their
      images, 2^32 years apart, that the 32-bit year cannot tell from them. */
  lemma TimestampDatedIff(total: nat, millis: nat)
    requires total < 0x1_0000_0000_0000_0000
    ensures DatePrefixed(Timestamp(total, millis)) <==> exists k :: InBand(total / 86400, k)
  {
    DaysDated(total / 86400);
    TimestampDated(total, millis);
  }

  /** Seen from the caller: up to the last day whose year fits 32 bits, the timestamp is
      accepted exactly before the year 10000. */
  lemma TimestampDatedBefore(total: nat, millis: nat)
    requires total < 86400 * (LAST_DAY + 1)
    ensures DatePrefixed(Timestamp(total, millis)) <==> total < 253_402_300_800
  {
    var days := SplitSeconds(total).0;
    var date := Civil(days + 719468);
    CivilCounts(days);
    CastsExact(days);
    BeforeYear10000(10000);
    YearAtMost(date, 1970);
    YearAtMost(date, 10000);
    TimestampDated(total, millis);
  }

  lemma DatedIff(date: Date, rest: string)
    requires 1 <= date.month <= 12 && 1 <= date.day <= 31
    ensures DatePrefixed(PrintDate(date) + rest) <==> 0 <= date.year <= 9999
  {
    var year, month, day := PrintYear(date.year), Pad(date.month, 2), Pad(date.day, 2);
    var tail := "-" + month + "-" + day;
    TwoDigits(date.month);
    TwoDigits(date.day);
    if date.year < 0 {
      assert year[0] == '-';
    } else {
      PadWidth(date.year, 4);
      assert Power10(4) == 10000;
    }
    if 0 <= date.year <= 9999 {
      ShapedFour(year, month, day, rest);
    } else {
      assert year + tail + rest == year + (tail + rest);
      NotShaped(year, tail + rest);
    }
  }

  lemma TwoDigits(n: nat)
    requires n < 100
    ensures Text.AllDigits(Pad(n, 2)) && |Pad(n, 2)| == 2
  {
    PadWidth(n, 2);
    assert Power10(2) == 10 * Power10(1) && Power10(1) == 10 * Power10(0);
  }

  // ----- reading a timestamp back

  /** Printing with leading zeros and reading a number. */
  lemma PadReads(n: nat, width: nat)
    ensures Text.AllDigits(Pad(n, width)) && Text.Value(Pad(n, width)) == n
  {
    var s := Text.Decimal(n);
    Text.DecimalReads(n);
    if |s| < width {
      Text.ZerosRead(width - |s|, s);
      assert Zeros(width - |s|) == seq(width - |s|, _ => '0');
    }
  }

  /** A field of digits that stands for `n`. */
  ghost predicate Field(s: string, n: nat) {
    Text.AllDigits(s) && Text.Value(s) == n
  }

  ghost predicate YearField(s: string, year: int) {
    if year >= 0 then Field(s, year) else s != "" && s[0] == '-' && Field(s[1..], -year)
  }

  lemma SignedField(digits: string, year: int)
    requires year < 0 && Field(digits, -year)
    ensures YearField("-" + digits, year)
  {
    var s := "-" + digits;
    assert s[1..] == digits;
  }

  lemma YearReads(year: int)
    ensures YearField(PrintYear(year), year)
  {
    if year < 0 {
      var n: nat := -year;
      var digits := Pad(n, 3);
      assert Field(digits, n) by { PadReads(n, 3); }
      SignedField(digits, year);
    } else {
      PadReads(year, 4);
    }
  }

  /** Six characters: a dash and the month, a dash and the day. */
  ghost predicate DayField(s: string, month: nat, day: nat) {
    |s| == 6 && s[0] == '-' && Field(s[1..3], month) && s[3] == '-' && Field(s[4..], day)
  }

  lemma DayReads(month: nat, day: nat)
    requires month < 100 && day < 100
    ensures DayField("-" + Pad(month, 2) + "-" + Pad(day, 2), month, day)
  {
    TwoDigits(month);
    TwoDigits(day);
    PadReads(month, 2);
    PadReads(day, 2);
    var s := "-" + Pad(month, 2) + "-" + Pad(day, 2);
    assert s[1..3] == Pad(month, 2) && s[4..] == Pad(day, 2);
  }

  /** Fourteen characters: the hour, the minute and the second, the milliseconds, and the zone. */
  ghost predicate TimeField(s: string, t: Time, millis: nat) {
    && |s| == 14 && s[0] == 'T' && s[3] == ':' && s[6] == ':' && s[9] == '.' && s[13] == 'Z'
    && Field(s[1..3], t.hour) && Field(s[4..6], t.minute) && Field(s[7..9], t.second) && Field(s[10..13], millis)
  }

  lemma TimeSlices(h: string, m: string, s: string, ms: string)
    requires |h| == |m| == |s| == 2 && |ms| == 3
    ensures var t := "T" + h + ":" + m + ":" + s + "." + ms + "Z";
            && |t| == 14 && t[0] == 'T' && t[3] == ':' && t[6] == ':' && t[9] == '.' && t[13] == 'Z'
            && t[1..3] == h && t[4..6] == m && t[7..9] == s && t[10..13] == ms
  {
  }

  lemma TimeReads(t: Time, millis: nat)
    requires t.hour < 24 && t.minute < 60 && t.second < 60 && millis < 1000
    ensures TimeField(PrintTime(t, millis), t, millis)
  {
    TwoDigits(t.hour);
    TwoDigits(t.minute);
    TwoDigits(t.second);
    PadWidth(millis, 3);
    assert Power10(3) == 10 * Power10(2) && Power10(2) == 10 * Power10(1) && Power10(1) == 10 * Power10(0);
    PadReads(t.hour, 2);
    PadReads(t.minute, 2);
    PadReads(t.second, 2);
    PadReads(millis, 3);
    TimeSlices(Pad(t.hour, 2), Pad(t.minute, 2), Pad(t.second, 2), Pad(millis, 3));
  }

  lemma Cut(a: string, b: string, c: string)
    requires |b| == 6 && |c| == 14
    ensures var s := a + b + c;
            |s| >= 20 && s[..|s| - 20] == a && s[|s| - 20..|s| - 14] == b && s[|s| - 14..] == c
  {
  }

  /** A timestamp that reads as this date and time. */
  ghost predicate StampReads(s: string, date: Date, time: Time, millis: nat) {
    && |s| >= 20 && YearField(s[..|s| - 20], date.year)
    && date.month >= 0 && date.day >= 0 && DayField(s[|s| - 20..|s| - 14], date.month, date.day)
    && TimeField(s[|s| - 14..], time, millis)
  }

  lemma PrintedReads(date: Date, time: Time, millis: nat)
    requires 1 <= date.month <= 12 && 1 <= date.day <= 31
    requires time.hour < 24 && time.minute < 60 && time.second < 60 && millis < 1000
    ensures StampReads(PrintDate(date) + PrintTime(time, millis), date, time, millis)
  {
    YearReads(date.year);
    DayReads(date.month, date.day);
    TimeReads(time, millis);
    Cut(PrintYear(date.year), "-" + Pad(date.month, 2) + "-" + Pad(date.day, 2), PrintTime(time, millis));
  }

  /** Reading the fields of a timestamp gives the date of the day and the time in it. */
  lemma TimestampReads(total: nat, millis: nat)
    requires millis < 1000
    ensures StampReads(Timestamp(total, millis), CivilFromDays(SplitSeconds(total).0), SplitSeconds(total).1, millis)
  {
    CivilInYear(SplitSeconds(total).0);
    PrintedReads(CivilFromDays(SplitSeconds(total).0), SplitSeconds(total).1, millis);
  }
}
