/**
 The date range read chronologically. The `Date` column of a Mint export
 holds strings such as "9/30/2023" (month/day/year, no leading zeros), and
 the string order of such strings is not the calendar order: "10/01/2023"
 sorts before "9/30/2023". `ChronoDateRange` parses each date and takes the
 earliest and the latest day instead.
 */
module Dates {
  import opened Text
  import opened Records
  import opened Queries

  /** A calendar day. */
  datatype Day = Day(year: nat, month: nat, day: nat)

  /** Calendar order: year first, then month, then day. */
  predicate DayLe(a: Day, b: Day)
  {
    || a.year < b.year
    || (a.year == b.year && a.month < b.month)
    || (a.year == b.year && a.month == b.month && a.day <= b.day)
  }

  /** Leap years of the Gregorian calendar. */
  predicate LeapYear(year: nat)
  {
    year % 4 == 0 && (year % 100 != 0 || year % 400 == 0)
  }

  /** The number of days of a month. */
  function DaysInMonth(year: nat, month: nat): (n: nat)
    requires 1 <= month <= 12
    ensures 28 <= n <= 31
  {
    if month == 2 then (if LeapYear(year) then 29 else 28)
    else if month == 4 || month == 6 || month == 9 || month == 11 then 30
    else 31
  }

  /** A day that exists in the calendar, with a year of at most four digits. */
  predicate ValidDay(d: Day)
  {
    && d.year < 10000
    && 1 <= d.month <= 12
    && 1 <= d.day <= DaysInMonth(d.year, d.month)
  }

  predicate IsDigit(c: char)
  {
    '0' <= c <= '9'
  }

  function DigitValue(c: char): nat
    requires IsDigit(c)
  {
    c as int - '0' as int
  }

  /** The digit character of a value below ten. */
  function DigitChar(n: nat): (c: char)
    requires n < 10
    ensures IsDigit(c) && DigitValue(c) == n
  {
    ('0' as int + n) as char
  }

  /** The value of a run of one or two digits; `None` for anything else. */
  function SmallNumber(s: string): (r: Option<nat>)
    ensures r.Some? ==> r.value < 100
  {
    if |s| == 1 && IsDigit(s[0]) then Some(DigitValue(s[0]))
    else if |s| == 2 && IsDigit(s[0]) && IsDigit(s[1]) then Some(10 * DigitValue(s[0]) + DigitValue(s[1]))
    else None
  }

  /** The value of a run of exactly four digits; `None` for anything else. */
  function Year(s: string): (r: Option<nat>)
    ensures r.Some? ==> r.value < 10000
  {
    if |s| == 4 && IsDigit(s[0]) && IsDigit(s[1]) && IsDigit(s[2]) && IsDigit(s[3]) then
      Some(1000 * DigitValue(s[0]) + 100 * DigitValue(s[1]) + 10 * DigitValue(s[2]) + DigitValue(s[3]))
    else None
  }

  /** The position of the '/' that ends a one- or two-character field
      starting at `from`, or `None`. */
  function FieldEnd(s: string, from: nat): (r: Option<nat>)
    ensures r.Some? ==> from < r.value < |s| && s[r.value] == '/' && r.value <= from + 2
  {
    if from + 1 < |s| && s[from + 1] == '/' then Some(from + 1)
    else if from + 2 < |s| && s[from + 2] == '/' then Some(from + 2)
    else None
  }

  /** Reads "M/D/YYYY" (month and day of one or two digits, a four-digit
      year) as a calendar day; `None` for any other string, and for a day
      that does not exist, such as "2/31/2023". */
  function ParseDay(s: string): (r: Option<Day>)
    ensures r.Some? ==> ValidDay(r.value)
  {
    match FieldEnd(s, 0)
    case None => None
    case Some(i) =>
      match FieldEnd(s, i + 1)
      case None => None
      case Some(j) =>
        match (SmallNumber(s[..i]), SmallNumber(s[i + 1..j]), Year(s[j + 1..]))
        case (Some(m), Some(d), Some(y)) =>
          if 1 <= m <= 12 && 1 <= d <= DaysInMonth(y, m) then Some(Day(y, m, d)) else None
        case _ => None
  }

  /** The month as Mint writes it: no leading zero. */
  function MonthText(month: nat): string
    requires 1 <= month <= 12
  {
    if month < 10 then [DigitChar(month)] else [DigitChar(1), DigitChar(month - 10)]
  }

  /** A value below 100 as two digits. */
  function TwoDigits(n: nat): string
    requires n < 100
  {
    [DigitChar(n / 10), DigitChar(n % 10)]
  }

  /** A value below 10000 as four digits. */
  function FourDigits(n: nat): string
    requires n < 10000
  {
    [DigitChar(n / 1000), DigitChar(n / 100 % 10), DigitChar(n / 10 % 10), DigitChar(n % 10)]
  }

  /** A day written as in a Mint export: "9/30/2023", "10/01/2023". */
  function FormatDay(d: Day): string
    requires ValidDay(d)
  {
    MonthText(d.month) + "/" + TwoDigits(d.day) + "/" + FourDigits(d.year)
  }

  lemma SmallNumberTwoDigits(n: nat)
    requires n < 100
    ensures SmallNumber(TwoDigits(n)) == Some(n)
  {
  }

  lemma YearFourDigits(n: nat)
    requires n < 10000
    ensures Year(FourDigits(n)) == Some(n)
  {
    var a, b, c, e := n / 1000, n / 100 % 10, n / 10 % 10, n % 10;
    assert n / 10 == 10 * (n / 100) + c;
    assert n / 100 == 10 * (n / 1000) + b;
    assert n == 1000 * a + 100 * b + 10 * c + e;
  }

  /** Reading a day written as Mint writes it gives that day back. */
  lemma {:induction false} ParseFormatDay(d: Day)
    requires ValidDay(d)
    ensures ParseDay(FormatDay(d)) == Some(d)
  {
    var ms := MonthText(d.month);
    var s := FormatDay(d);
    var i := |ms|;
    assert s == ms + "/" + TwoDigits(d.day) + "/" + FourDigits(d.year);
    assert s[i] == '/' && s[i + 3] == '/';
    assert IsDigit(s[0]) && IsDigit(s[i + 2]);
    assert FieldEnd(s, 0) == Some(i) by {
      if i == 2 {
        assert IsDigit(s[1]);
      }
    }
    assert FieldEnd(s, i + 1) == Some(i + 3);
    assert s[..i] == ms;
    assert s[i + 1..i + 3] == TwoDigits(d.day);
    assert s[i + 4..] == FourDigits(d.year);
    assert SmallNumber(ms) == Some(d.month);
    SmallNumberTwoDigits(d.day);
    YearFourDigits(d.year);
  }

  /** February has 29 days in a leap year and 28 otherwise. */
  lemma FebruaryEnds()
    ensures ParseDay("2/29/2024") == Some(Day(2024, 2, 29))
    ensures ParseDay("2/29/2023") == None
  {
    var s, t := "2/29/2024", "2/29/2023";
    assert FieldEnd(s, 0) == Some(1) && FieldEnd(s, 2) == Some(4);
    assert s[..1] == "2" && s[2..4] == "29" && s[5..] == "2024";
    assert FieldEnd(t, 0) == Some(1) && FieldEnd(t, 2) == Some(4);
    assert t[..1] == "2" && t[2..4] == "29" && t[5..] == "2023";
  }

  predicate AllDatesParse(rows: seq<Transaction>)
  {
    forall k :: 0 <= k < |rows| ==> ParseDay(rows[k].date).Some?
  }

  /** The position of the earliest day; the first such position on a tie. */
  function EarliestIndex(days: seq<Day>): (k: nat)
    requires |days| > 0
    ensures k < |days|
    ensures forall j :: 0 <= j < |days| ==> DayLe(days[k], days[j])
  {
    if |days| == 1 then 0
    else
      var m := EarliestIndex(days[1..]) + 1;
      if DayLe(days[0], days[m]) then 0 else m
  }

  /** The position of the latest day; the first such position on a tie. */
  function LatestIndex(days: seq<Day>): (k: nat)
    requires |days| > 0
    ensures k < |days|
    ensures forall j :: 0 <= j < |days| ==> DayLe(days[j], days[k])
  {
    if |days| == 1 then 0
    else
      var m := LatestIndex(days[1..]) + 1;
      if DayLe(days[m], days[0]) then 0 else m
  }

  /** The days of rows whose dates all parse. */
  function DaysOf(rows: seq<Transaction>): (days: seq<Day>)
    requires AllDatesParse(rows)
    ensures |days| == |rows|
    ensures forall k :: 0 <= k < |rows| ==> ParseDay(rows[k].date) == Some(days[k])
  {
    seq(|rows|, k requires 0 <= k < |rows| => ParseDay(rows[k].date).value)
  }

  /** The first row whose date does not parse, if any. */
  function FirstBadDate(rows: seq<Transaction>): (r: Option<nat>)
    ensures r.None? <==> AllDatesParse(rows)
    ensures r.Some? ==> r.value < |rows| && ParseDay(rows[r.value].date).None?
    ensures r.Some? ==> forall k :: 0 <= k < r.value ==> ParseDay(rows[k].date).Some?
  {
    if rows == [] then None
    else if ParseDay(rows[0].date).None? then Some(0)
    else
      match FirstBadDate(rows[1..])
      case None => None
      case Some(k) => Some(k + 1)
  }

  datatype ChronoRange = Span(first: string, last: string) | NoRows | BadDate(row: nat)

  /** The date range in calendar order, `NoRows` for an empty ledger, and
      `BadDate` naming the first row whose date cannot be read. For a ledger
      whose dates all parse, the ends are dates of its rows and every row's
      day lies between them in calendar order. */
  function ChronoDateRange(rows: seq<Transaction>): (r: ChronoRange)
    ensures r.NoRows? <==> rows == []
    ensures r.Span? <==> rows != [] && AllDatesParse(rows)
    ensures r.BadDate? ==> r.row < |rows| && ParseDay(rows[r.row].date).None?
    ensures r.Span? ==>
      && ParseDay(r.first).Some? && ParseDay(r.last).Some?
      && DayLe(ParseDay(r.first).value, ParseDay(r.last).value)
      && (exists k :: 0 <= k < |rows| && rows[k].date == r.first)
      && (exists k :: 0 <= k < |rows| && rows[k].date == r.last)
      && (forall k :: 0 <= k < |rows| ==>
            && DayLe(ParseDay(r.first).value, ParseDay(rows[k].date).value)
            && DayLe(ParseDay(rows[k].date).value, ParseDay(r.last).value))
  {
    if rows == [] then NoRows
    else
      match FirstBadDate(rows)
      case Some(k) => BadDate(k)
      case None =>
        var days := DaysOf(rows);
        Span(rows[EarliestIndex(days)].date, rows[LatestIndex(days)].date)
  }

  lemma ParseNineThirty()
    ensures ParseDay("9/30/2023") == Some(Day(2023, 9, 30))
  {
    var s := "9/30/2023";
    assert FieldEnd(s, 0) == Some(1);
    assert FieldEnd(s, 2) == Some(4);
    assert s[..1] == "9" && s[2..4] == "30" && s[5..] == "2023";
  }

  lemma ParseTenFirst()
    ensures ParseDay("10/01/2023") == Some(Day(2023, 10, 1))
  {
    var s := "10/01/2023";
    assert FieldEnd(s, 0) == Some(2);
    assert FieldEnd(s, 3) == Some(5);
    assert s[..2] == "10" && s[3..5] == "01" && s[6..] == "2023";
  }

  /** Two rows dated 9/30/2023 and 10/01/2023. */
  function AcrossMonthEnd(): seq<Transaction>
  {
    [Transaction("9/30/2023", "", 0, "debit", ""), Transaction("10/01/2023", "", 0, "debit", "")]
  }

  /** Comparing the two dates as strings puts October first. */
  lemma StringRangeOfAcrossMonthEnd()
    ensures DateRange(AcrossMonthEnd()) == Some(DateSpan("10/01/2023", "9/30/2023"))
  {
    var rows := AcrossMonthEnd();
    assert LexLe("10/01/2023", "9/30/2023");
    assert !LexLe("9/30/2023", "10/01/2023");
    assert MinDate(rows[1..]) == "10/01/2023";
    assert MaxDate(rows[1..]) == "10/01/2023";
  }

  /** Reading the two dates as days puts September first. */
  lemma ChronoRangeOfAcrossMonthEnd()
    ensures ChronoDateRange(AcrossMonthEnd()) == Span("9/30/2023", "10/01/2023")
  {
    ParseNineThirty();
    ParseTenFirst();
    var rows := AcrossMonthEnd();
    assert AllDatesParse(rows);
    var r := ChronoDateRange(rows);
    // Each end is one of the two dates; only one order fits the calendar.
    var f :| 0 <= f < 2 && rows[f].date == r.first;
    var l :| 0 <= l < 2 && rows[l].date == r.last;
    assert DayLe(ParseDay(r.first).value, ParseDay(rows[0].date).value);
    assert DayLe(ParseDay(rows[1].date).value, ParseDay(r.last).value);
    assert f == 0 && l == 1;
  }

  /** The string range of the two rows starts on the later day and ends on
      the earlier one; the calendar range has them the right way round. */
  lemma StringRangeMisorders()
    ensures DateRange(AcrossMonthEnd()).value.first == "10/01/2023"
    ensures DateRange(AcrossMonthEnd()).value.last == "9/30/2023"
    ensures !DayLe(ParseDay("10/01/2023").value, ParseDay("9/30/2023").value)
    ensures ChronoDateRange(AcrossMonthEnd()) == Span("9/30/2023", "10/01/2023")
  {
    StringRangeOfAcrossMonthEnd();
    ChronoRangeOfAcrossMonthEnd();
    ParseNineThirty();
    ParseTenFirst();
  }
}
