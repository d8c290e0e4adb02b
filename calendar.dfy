/** Python's datetime.date, reduced to what the engine uses: the proleptic Gregorian
    ordinal (date.toordinal), the weekday (Monday is 0), subtraction of a number of days
    and date.isoformat(). */
module Calendar {
  import opened Text

  datatype YearMonthDay = YearMonthDay(year: int, month: int, day: int)

  predicate IsLeap(y: int) { y % 4 == 0 && (y % 100 != 0 || y % 400 == 0) }

  function DaysInYear(y: int): int { if IsLeap(y) then 366 else 365 }

  function DaysInMonth(y: int, m: int): int {
    if m == 2 then (if IsLeap(y) then 29 else 28)
    else if m == 4 || m == 6 || m == 9 || m == 11 then 30
    else 31
  }

  /** The range of Python's date type: years 1 to 9999 (date.min to date.max). */
  predicate ValidDate(d: YearMonthDay) {
    1 <= d.year <= 9999 && 1 <= d.month <= 12 && 1 <= d.day <= DaysInMonth(d.year, d.month)
  }

  /** A date object can only ever hold a valid calendar date. */
  type Date = d: YearMonthDay | ValidDate(d) witness YearMonthDay(1, 1, 1)

  const MaxOrdinal: int := 3652059

  function DaysBeforeYear(y: int): int {
    var p := y - 1;
    p * 365 + p / 4 - p / 100 + p / 400
  }

  function DaysBeforeMonth(y: int, m: int): int
    requires 1 <= m <= 12
  {
    [0, 31, 59, 90, 120, 151, 181, 212, 243, 273, 304, 334][m - 1]
      + (if m > 2 && IsLeap(y) then 1 else 0)
  }

  /** date.toordinal(): day 1 is 0001-01-01. */
  function Ordinal(d: Date): int {
    DaysBeforeYear(d.year) + DaysBeforeMonth(d.year, d.month) + d.day
  }

  /** date.weekday(): Monday is 0 and Sunday is 6. */
  function Weekday(d: Date): (w: int)
    ensures 0 <= w < 7
  {
    (Ordinal(d) + 6) % 7
  }

  /** Lexicographic order on (year, month, day), which is how Python compares dates. */
  predicate Before(a: Date, b: Date) {
    a.year < b.year || (a.year == b.year && (a.month < b.month || (a.month == b.month && a.day < b.day)))
  }

  lemma YearStep(y: int)
    requires y >= 1
    ensures DaysBeforeYear(y + 1) == DaysBeforeYear(y) + DaysInYear(y)
  {
    var p := y - 1;
    assert (p + 1) / 4 == p / 4 + (if (p + 1) % 4 == 0 then 1 else 0);
    assert (p + 1) / 100 == p / 100 + (if (p + 1) % 100 == 0 then 1 else 0);
    assert (p + 1) / 400 == p / 400 + (if (p + 1) % 400 == 0 then 1 else 0);
  }

  lemma {:induction false} YearsMonotone(y1: int, y2: int)
    requires 1 <= y1 <= y2
    ensures DaysBeforeYear(y1) <= DaysBeforeYear(y2)
    decreases y2 - y1
  {
    if y1 < y2 {
      YearStep(y1);
      YearsMonotone(y1 + 1, y2);
    }
  }

  /** The ordinal of a date lies within the ordinals of its year. */
  lemma OrdinalWithinYear(d: Date)
    ensures DaysBeforeYear(d.year) < Ordinal(d) <= DaysBeforeYear(d.year) + DaysInYear(d.year)
  {
  }

  /** Comparing ordinals is comparing dates: the model's `>=` on ordinals is Python's
      `>=` on date objects, and equal ordinals mean equal dates. */
  lemma OrdinalOrder(a: Date, b: Date)
    ensures Before(a, b) <==> Ordinal(a) < Ordinal(b)
    ensures a == b <==> Ordinal(a) == Ordinal(b)
  {
    OrdinalWithinYear(a);
    OrdinalWithinYear(b);
    if a.year < b.year {
      YearStep(a.year);
      YearsMonotone(a.year + 1, b.year);
    } else if b.year < a.year {
      YearStep(b.year);
      YearsMonotone(b.year + 1, a.year);
    }
  }

  /** The day after d, within the range of Python dates. */
  function NextDay(d: Date): Date
    requires d != YearMonthDay(9999, 12, 31)
  {
    if d.day < DaysInMonth(d.year, d.month) then YearMonthDay(d.year, d.month, d.day + 1)
    else if d.month < 12 then YearMonthDay(d.year, d.month + 1, 1)
    else YearMonthDay(d.year + 1, 1, 1)
  }

  /** Consecutive calendar days have consecutive ordinals, so Ordinal numbers the days of
      the calendar without gaps. */
  lemma NextDayOrdinal(d: Date)
    requires d != YearMonthDay(9999, 12, 31)
    ensures Ordinal(NextDay(d)) == Ordinal(d) + 1
  {
    if d.day == DaysInMonth(d.year, d.month) && d.month == 12 {
      YearStep(d.year);
    }
  }

  lemma OrdinalRange(d: Date)
    ensures 1 <= Ordinal(d) <= MaxOrdinal
  {
    OrdinalWithinYear(d);
    YearsMonotone(1, d.year);
    YearsMonotone(d.year, 9999);
    YearStep(9999);
    assert DaysBeforeYear(10000) == MaxOrdinal;
  }

  /** The ordinal of the first Monday on or before today: today - timedelta(days=today.weekday()). */
  function WeekStart(today: Date): (w: int)
    ensures (w + 6) % 7 == 0
    ensures Ordinal(today) - 6 <= w <= Ordinal(today)
  {
    var o := Ordinal(today);
    MondayAligned(o);
    o - Weekday(today)
  }

  /** Stepping back by the weekday lands on a Monday. */
  lemma MondayAligned(o: int)
    ensures (o - (o + 6) % 7 + 6) % 7 == 0
  {
    var q := (o + 6) / 7;
    assert o + 6 == 7 * q + (o + 6) % 7;
    assert o - (o + 6) % 7 + 6 == 7 * q;
  }

  /** The most recent Monday is always a real date: subtracting the weekday never leaves
      the range of Python dates. */
  lemma WeekStartInRange(today: Date)
    ensures 1 <= WeekStart(today) <= Ordinal(today)
  {
    OrdinalRange(today);
  }

  /** date.isoformat(): "%04d-%02d-%02d". */
  function IsoFormat(d: Date): string {
    ZeroPad(NatToString(d.year), 4) + "-" + ZeroPad(NatToString(d.month), 2) + "-" + ZeroPad(NatToString(d.day), 2)
  }

  lemma {:induction false} NatToStringLength(n: nat, k: nat)
    requires 1 <= k && n < Pow10(k)
    ensures |NatToString(n)| <= k
  {
    if n >= 10 {
      assert Pow10(1) == 10;
      assert k >= 2;
      assert n / 10 < Pow10(k - 1);
      NatToStringLength(n / 10, k - 1);
    }
  }

  /** A field printed with %0<width>d reads back as the field's value. */
  lemma PaddedValue(n: nat, width: nat)
    requires 1 <= width && n < Pow10(width)
    ensures |ZeroPad(NatToString(n), width)| == width
    ensures AllDigits(ZeroPad(NatToString(n), width))
    ensures DigitsValue(ZeroPad(NatToString(n), width)) == n
  {
    NatToStringLength(n, width);
    var s := NatToString(n);
    var z: string := if |s| >= width then [] else seq(width - |s|, _ => '0');
    assert ZeroPad(s, width) == z + s;
    LeadingZerosValue(z, s);
  }

  lemma IsoSlices(y: string, m: string, dd: string)
    requires |y| == 4 && |m| == 2 && |dd| == 2
    ensures var s := y + "-" + m + "-" + dd;
      |s| == 10 && s[..4] == y && s[4] == '-' && s[5..7] == m && s[7] == '-' && s[8..] == dd
  {
  }

  /** s is ten characters long, has hyphens at positions 4 and 7, and its year, month
      and day fields read as y, m and d. */
  predicate IsoShaped(s: string, y: nat, m: nat, d: nat) {
    && |s| == 10
    && s[4] == '-' && s[7] == '-'
    && AllDigits(s[..4]) && DigitsValue(s[..4]) == y
    && AllDigits(s[5..7]) && DigitsValue(s[5..7]) == m
    && AllDigits(s[8..]) && DigitsValue(s[8..]) == d
  }

  /** Three digit fields of widths 4, 2 and 2 joined with dashes read back field by field. */
  lemma IsoRead(y: string, m: string, dd: string, yv: nat, mv: nat, dv: nat)
    requires |y| == 4 && AllDigits(y) && DigitsValue(y) == yv
    requires |m| == 2 && AllDigits(m) && DigitsValue(m) == mv
    requires |dd| == 2 && AllDigits(dd) && DigitsValue(dd) == dv
    ensures IsoShaped(y + "-" + m + "-" + dd, yv, mv, dv)
  {
    IsoSlices(y, m, dd);
  }

  /** The three fields of an isoformat string sit at fixed positions and read back as the
      date's year, month and day. */
  lemma IsoFields(d: Date)
    ensures IsoShaped(IsoFormat(d), d.year, d.month, d.day)
  {
    assert Pow10(4) == 10000 && Pow10(2) == 100;
    var y := ZeroPad(NatToString(d.year), 4);
    var m := ZeroPad(NatToString(d.month), 2);
    var dd := ZeroPad(NatToString(d.day), 2);
    PaddedValue(d.year, 4);
    PaddedValue(d.month, 2);
    PaddedValue(d.day, 2);
    IsoRead(y, m, dd, d.year, d.month, d.day);
  }

  /** isoformat is injective: the date string a caller passes to the by-date endpoints
      selects exactly one calendar day. */
  lemma IsoFormatInjective(a: Date, b: Date)
    requires IsoFormat(a) == IsoFormat(b)
    ensures a == b
  {
    IsoFields(a);
    IsoFields(b);
  }

  /** Python anchors: date.min, 0001-01-01, is ordinal 1 and a Monday. */
  lemma FirstDateOrdinal()
    ensures Ordinal(YearMonthDay(1, 1, 1)) == 1
  {
  }

  lemma FirstDateIsMonday()
    ensures Weekday(YearMonthDay(1, 1, 1)) == 0
  {
  }

  /** 1970-01-01 is ordinal 719163 and a Thursday. */
  lemma EpochOrdinal()
    ensures Ordinal(YearMonthDay(1970, 1, 1)) == 719163 && Weekday(YearMonthDay(1970, 1, 1)) == 3
  {
    assert DaysBeforeYear(1970) == 719162;
  }

  /** date.max, 9999-12-31, is ordinal 3652059. */
  lemma LastDateOrdinal()
    ensures Ordinal(YearMonthDay(9999, 12, 31)) == MaxOrdinal
  {
    assert DaysBeforeYear(9999) == 3651694;
  }
}
