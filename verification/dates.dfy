/** Calendar helpers of lib/dates.ts. A JavaScript `Date` is modelled by its local
    calendar fields; `getMonth()` is 0-based, as in JavaScript. */
module Dates {
  import opened Strings
  import opened Wrappers

  datatype Date = Date(year: int, month: int, day: int, hour: int, minute: int, second: int)
  {
    /** The fields of a JavaScript date are always normalised. */
    predicate Valid() {
      && 0 <= month < 12
      && 1 <= day <= DaysInMonth(year, month)
      && 0 <= hour < 24
      && 0 <= minute < 60
      && 0 <= second < 60
    }
  }

  type CalDate = d: Date | d.Valid() witness Date(1970, 0, 1, 0, 0, 0)

  /** Proleptic Gregorian leap years, as JavaScript dates use. */
  predicate IsLeapYear(y: int) {
    y % 4 == 0 && (y % 100 != 0 || y % 400 == 0)
  }

  function DaysInMonth(y: int, m: int): (n: int)
    requires 0 <= m < 12
    ensures 28 <= n <= 31
    ensures n == 31 <==> m in {0, 2, 4, 6, 7, 9, 11}
    ensures n == 30 <==> m in {3, 5, 8, 10}
    ensures m == 1 ==> (n == 29 <==> IsLeapYear(y))
    ensures m == 1 && !IsLeapYear(y) ==> n == 28
  {
    if m == 1 then (if IsLeapYear(y) then 29 else 28)
    else if m == 3 || m == 5 || m == 8 || m == 10 then 30
    else 31
  }

  /** The (year, month) that follows (y, m); December rolls over to January. */
  function NextMonth(y: int, m: int): (ym: (int, int))
    requires 0 <= m < 12
    ensures 0 <= ym.1 < 12
    ensures ym.0 * 12 + ym.1 == y * 12 + m + 1
  {
    if m == 11 then (y + 1, 0) else (y, m + 1)
  }

  /** `date1 <= date2` on JavaScript dates, which compares their instants. */
  predicate NotAfter(a: Date, b: Date) {
    if a.year != b.year then a.year < b.year
    else if a.month != b.month then a.month < b.month
    else if a.day != b.day then a.day < b.day
    else if a.hour != b.hour then a.hour < b.hour
    else if a.minute != b.minute then a.minute < b.minute
    else a.second <= b.second
  }

  lemma NotAfterTotal(a: Date, b: Date)
    ensures NotAfter(a, b) || NotAfter(b, a)
    ensures NotAfter(a, b) && NotAfter(b, a) ==> a == b
  {
  }

  lemma NotAfterTransitive(a: Date, b: Date, c: Date)
    requires NotAfter(a, b) && NotAfter(b, c)
    ensures NotAfter(a, c)
  {
  }

  /** `addOneMonth`: a copy of the date whose month is set one further with `setMonth`;
      a day that the next month lacks overflows into the month after. */
  function AddOneMonth(d: CalDate): (r: CalDate)
    ensures var (y, m) := NextMonth(d.year, d.month);
      if d.day <= DaysInMonth(y, m) then
        r.year == y && r.month == m && r.day == d.day
      else
        var (y2, m2) := NextMonth(y, m);
        r.year == y2 && r.month == m2 && r.day == d.day - DaysInMonth(y, m) && r.day <= 3
    ensures r.hour == d.hour && r.minute == d.minute && r.second == d.second
  {
    var (y, m) := NextMonth(d.year, d.month);
    var length := DaysInMonth(y, m);
    if d.day <= length then d.(year := y, month := m)
    else d.(year := y, month := m + 1, day := d.day - length)
  }

  /** `isSameMonth`: same month index and same full year. */
  predicate IsSameMonth(a: Date, b: Date) {
    a.month == b.month && a.year == b.year
  }

  lemma IsSameMonthEquivalence(a: Date, b: Date, c: Date)
    ensures IsSameMonth(a, a)
    ensures IsSameMonth(a, b) ==> IsSameMonth(b, a)
    ensures IsSameMonth(a, b) && IsSameMonth(b, c) ==> IsSameMonth(a, c)
  {
  }

  /** Days up to the 28th exist in every month, so they are kept. */
  lemma AddOneMonthKeepsEarlyDays(d: CalDate)
    requires d.day <= 28
    ensures AddOneMonth(d).day == d.day
    ensures (AddOneMonth(d).year, AddOneMonth(d).month) == NextMonth(d.year, d.month)
  {
  }

  /** 31 January of a common year becomes 3 March. */
  lemma AddOneMonthOverflowExample(y: int)
    requires !IsLeapYear(y)
    ensures AddOneMonth(Date(y, 0, 31, 0, 0, 0)) == Date(y, 2, 3, 0, 0, 0)
  {
  }

  /** One month later is never in the same calendar month. */
  lemma AddOneMonthLeavesMonth(d: CalDate)
    ensures !IsSameMonth(d, AddOneMonth(d))
  {
  }

  /** A date between two dates of the same month lies in that month. */
  lemma NotAfterWithinMonth(a: Date, b: Date, c: Date)
    requires NotAfter(a, b) && NotAfter(b, c) && IsSameMonth(a, c)
    ensures IsSameMonth(b, a)
  {
  }

  function CharValue(c: char): int {
    (c as int) - ('0' as int)
  }

  /** A field below 100 printed with two digits. */
  function TwoDigits(n: nat): (s: string)
    requires n < 100
    ensures |s| == 2 && IsDigit(s[0]) && IsDigit(s[1])
    ensures 10 * CharValue(s[0]) + CharValue(s[1]) == n
  {
    [DigitChar(n / 10), DigitChar(n % 10)]
  }

  /** `n.toString().padStart(2, '0')` is exactly `TwoDigits(n)` for every field below 100. */
  lemma TwoDigitsIsPadStart(n: nat)
    requires n < 100
    ensures PadStart(NatToString(n), 2, '0') == TwoDigits(n)
  {
    NatToStringLength(n);
    if n >= 10 {
      assert NatToString(n) == NatToString(n / 10) + [DigitChar(n % 10)];
    }
  }

  /** The digits of a four-digit number, as `getFullYear().toString()` prints them. */
  lemma FourDigitYear(y: nat)
    requires 1000 <= y <= 9999
    ensures var t := NatToString(y);
      |t| == 4 && IsDigit(t[0]) && IsDigit(t[1]) && IsDigit(t[2]) && IsDigit(t[3])
      && 1000 * CharValue(t[0]) + 100 * CharValue(t[1]) + 10 * CharValue(t[2]) + CharValue(t[3]) == y
  {
    var t := NatToString(y);
    NatToStringLength(y);
    NatToStringRoundTrip(y);
    var t3, t2, t1 := t[..3], t[..2], t[..1];
    assert t3[..2] == t2 && t2[..1] == t1 && t1[..0] == [];
    assert DigitsValue(t) == 10 * DigitsValue(t3) + CharValue(t[3]);
    assert DigitsValue(t3) == 10 * DigitsValue(t2) + CharValue(t[2]);
    assert DigitsValue(t2) == 10 * DigitsValue(t1) + CharValue(t[1]);
    assert DigitsValue(t1) == CharValue(t[0]);
  }

  /** `formatDateForCSV`: `Y-MM-DD HH:mm:ss`, with a 1-based month. */
  function FormatDateForCSV(d: CalDate): (s: string)
    ensures 1000 <= d.year <= 9999 ==> |s| == 19
  {
    NatToStringLength(if d.year < 0 then -d.year else d.year);
    IntToString(d.year) + "-" + TwoDigits(d.month + 1) + "-" + TwoDigits(d.day)
      + " " + TwoDigits(d.hour) + ":" + TwoDigits(d.minute) + ":" + TwoDigits(d.second)
  }

  function Value2(s: string, at: nat): int
    requires at + 2 <= |s|
  {
    10 * CharValue(s[at]) + CharValue(s[at + 1])
  }

  predicate Digits2(s: string, at: nat)
    requires at + 2 <= |s|
  {
    IsDigit(s[at]) && IsDigit(s[at + 1])
  }

  /** Reads a `Y-MM-DD HH:mm:ss` string with a four-digit year back into a date. */
  function ParseDateFromCSV(s: string): (r: Option<Date>)
  {
    if |s| == 19 && s[4] == '-' && s[7] == '-' && s[10] == ' ' && s[13] == ':' && s[16] == ':'
       && Digits2(s, 0) && Digits2(s, 2) && Digits2(s, 5) && Digits2(s, 8)
       && Digits2(s, 11) && Digits2(s, 14) && Digits2(s, 17)
    then Some(Date(100 * Value2(s, 0) + Value2(s, 2), Value2(s, 5) - 1, Value2(s, 8),
                   Value2(s, 11), Value2(s, 14), Value2(s, 17)))
    else None
  }

  /** Where each piece of a `Y-MM-DD HH:mm:ss` concatenation lands. */
  lemma CsvLayout(y: string, mo: string, dd: string, hh: string, mi: string, ss: string)
    requires |y| == 4 && |mo| == 2 && |dd| == 2 && |hh| == 2 && |mi| == 2 && |ss| == 2
    ensures var s := y + "-" + mo + "-" + dd + " " + hh + ":" + mi + ":" + ss;
      && |s| == 19
      && s[4] == '-' && s[7] == '-' && s[10] == ' ' && s[13] == ':' && s[16] == ':'
      && s[0] == y[0] && s[1] == y[1] && s[2] == y[2] && s[3] == y[3]
      && s[5] == mo[0] && s[6] == mo[1] && s[8] == dd[0] && s[9] == dd[1]
      && s[11] == hh[0] && s[12] == hh[1] && s[14] == mi[0] && s[15] == mi[1]
      && s[17] == ss[0] && s[18] == ss[1]
  {
  }

  function Value4(y: string): int
    requires |y| == 4
  {
    1000 * CharValue(y[0]) + 100 * CharValue(y[1]) + 10 * CharValue(y[2]) + CharValue(y[3])
  }

  /** What `ParseDateFromCSV` reads from a `Y-MM-DD HH:mm:ss` concatenation of digit pieces. */
  lemma ParseCsvLayout(y: string, mo: string, dd: string, hh: string, mi: string, ss: string)
    requires |y| == 4 && |mo| == 2 && |dd| == 2 && |hh| == 2 && |mi| == 2 && |ss| == 2
    requires IsDigit(y[0]) && IsDigit(y[1]) && IsDigit(y[2]) && IsDigit(y[3])
    requires Digits2(mo, 0) && Digits2(dd, 0) && Digits2(hh, 0) && Digits2(mi, 0) && Digits2(ss, 0)
    ensures ParseDateFromCSV(y + "-" + mo + "-" + dd + " " + hh + ":" + mi + ":" + ss)
         == Some(Date(Value4(y), Value2(mo, 0) - 1, Value2(dd, 0), Value2(hh, 0), Value2(mi, 0), Value2(ss, 0)))
  {
    CsvLayout(y, mo, dd, hh, mi, ss);
  }

  /** The CSV text of a date with a four-digit year has its separators in fixed places
      and reads back as the same date. */
  lemma {:induction false} FormatDateForCSVRoundTrip(d: CalDate)
    requires 1000 <= d.year <= 9999
    ensures ParseDateFromCSV(FormatDateForCSV(d)) == Some(d)
  {
    FieldsRoundTrip(d.year, d.month, d.day, d.hour, d.minute, d.second);
  }

  lemma FieldsRoundTrip(year: nat, month: nat, day: nat, hour: nat, minute: nat, second: nat)
    requires 1000 <= year <= 9999 && month < 12 && day <= 31 && hour < 24 && minute < 60 && second < 60
    ensures ParseDateFromCSV(IntToString(year) + "-" + TwoDigits(month + 1) + "-" + TwoDigits(day)
      + " " + TwoDigits(hour) + ":" + TwoDigits(minute) + ":" + TwoDigits(second))
      == Some(Date(year, month, day, hour, minute, second))
  {
    var y := NatToString(year);
    FourDigitYear(year);
    var mo, dd, hh, mi, ss := TwoDigits(month + 1), TwoDigits(day), TwoDigits(hour),
      TwoDigits(minute), TwoDigits(second);
    assert Value4(y) == year;
    assert Value2(mo, 0) - 1 == month;
    ParseCsvLayout(y, mo, dd, hh, mi, ss);
    assert IntToString(year) == y;
  }

  /** For a four-digit year the CSV text is 19 characters long, with its separators in
      fixed places and every other field zero-padded to two digits. */
  lemma FormatDateForCSVShape(d: CalDate)
    requires 1000 <= d.year <= 9999
    ensures var s := FormatDateForCSV(d);
      && |s| == 19
      && s[4] == '-' && s[7] == '-' && s[10] == ' ' && s[13] == ':' && s[16] == ':'
      && Digits2(s, 5) && Value2(s, 5) == d.month + 1
      && Digits2(s, 8) && Value2(s, 8) == d.day
      && Digits2(s, 11) && Value2(s, 11) == d.hour
      && Digits2(s, 14) && Value2(s, 14) == d.minute
      && Digits2(s, 17) && Value2(s, 17) == d.second
  {
    FormatDateForCSVRoundTrip(d);
  }
}
