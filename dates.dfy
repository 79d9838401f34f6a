/** Calendar dates as `datetime.strptime(date, "%d-%m-%Y")` reads them, and
    the comparison of a booking day (at midnight) with the current moment. */
module Dates {
  import opened Lists

  /** A calendar day; `ValidDate` says which triples exist. */
  datatype Date = Date(day: int, month: int, year: int)

  /** A moment: a day and the microseconds elapsed since its midnight
      (Python's hour, minute, second and microsecond fields, which compare
      in the same order). */
  datatype DateTime = DateTime(date: Date, micros: int)

  predicate IsLeapYear(year: int) {
    year % 4 == 0 && (year % 100 != 0 || year % 400 == 0)
  }

  function DaysInMonth(month: int, year: int): (n: int)
    requires 1 <= month <= 12
    ensures 28 <= n <= 31
    ensures n == 29 <==> month == 2 && IsLeapYear(year)
  {
    if month == 2 then (if IsLeapYear(year) then 29 else 28)
    else if month == 4 || month == 6 || month == 9 || month == 11 then 30
    else 31
  }

  /** The days Python's `datetime` can represent (years 1 to 9999). */
  predicate ValidDate(d: Date) {
    1 <= d.year <= 9999 && 1 <= d.month <= 12 && 1 <= d.day <= DaysInMonth(d.month, d.year)
  }

  predicate ValidDateTime(t: DateTime) {
    ValidDate(t.date) && 0 <= t.micros < 86_400_000_000
  }

  /** Chronological order of days: by year, then month, then day. */
  predicate DateBefore(a: Date, b: Date) {
    a.year < b.year
    || (a.year == b.year && a.month < b.month)
    || (a.year == b.year && a.month == b.month && a.day < b.day)
  }

  predicate DateTimeBefore(a: DateTime, b: DateTime) {
    DateBefore(a.date, b.date) || (a.date == b.date && a.micros < b.micros)
  }

  /** The moment `strptime` yields for a day: its midnight. */
  function Midnight(d: Date): DateTime {
    DateTime(d, 0)
  }

  /** `booking_date < datetime.now()`. */
  predicate IsPast(d: Date, now: DateTime) {
    DateTimeBefore(Midnight(d), now)
  }

  /** A day is in the past exactly when it is an earlier day, or it is today
      and midnight has already gone by. */
  lemma PastMeansEarlierOrToday(d: Date, now: DateTime)
    requires ValidDateTime(now)
    ensures IsPast(d, now) <==> DateBefore(d, now.date) || (d == now.date && now.micros > 0)
  {
  }

  // ----- the fields of "%d-%m-%Y" -----

  predicate IsDigit(c: char) {
    '0' <= c <= '9'
  }

  function DigitValue(c: char): (n: int)
    requires IsDigit(c)
    ensures 0 <= n <= 9
  {
    c as int - '0' as int
  }

  function TwoDigits(t: string): (n: int)
    requires |t| == 2 && IsDigit(t[0]) && IsDigit(t[1])
    ensures 0 <= n <= 99
  {
    10 * DigitValue(t[0]) + DigitValue(t[1])
  }

  /** `%d`: two digits from 01 to 31, one digit from 1 to 9, or a space and
      one digit from 1 to 9. */
  function DayField(t: string): (r: Option<int>)
    ensures r.Some? ==> 1 <= r.value <= 31
  {
    if |t| == 2 && IsDigit(t[0]) && IsDigit(t[1]) && 1 <= TwoDigits(t) <= 31 then Some(TwoDigits(t))
    else if |t| == 1 && '1' <= t[0] <= '9' then Some(DigitValue(t[0]))
    else if |t| == 2 && t[0] == ' ' && '1' <= t[1] <= '9' then Some(DigitValue(t[1]))
    else None
  }

  /** `%m`: two digits from 01 to 12, or one digit from 1 to 9. */
  function MonthField(t: string): (r: Option<int>)
    ensures r.Some? ==> 1 <= r.value <= 12
  {
    if |t| == 2 && IsDigit(t[0]) && IsDigit(t[1]) && 1 <= TwoDigits(t) <= 12 then Some(TwoDigits(t))
    else if |t| == 1 && '1' <= t[0] <= '9' then Some(DigitValue(t[0]))
    else None
  }

  /** `%Y`: exactly four digits. */
  function YearField(t: string): (r: Option<int>)
    ensures r.Some? ==> 0 <= r.value <= 9999
  {
    if |t| == 4 && IsDigit(t[0]) && IsDigit(t[1]) && IsDigit(t[2]) && IsDigit(t[3])
    then Some(100 * TwoDigits(t[..2]) + TwoDigits(t[2..]))
    else None
  }

  /** `datetime.strptime(s, "%d-%m-%Y")`: the day, month and year fields
      separated by hyphens with nothing after the year, naming a day that
      exists; None stands for the ValueError it raises otherwise. Neither the
      day nor the month field holds a hyphen, so the first hyphen ends the day
      and the second ends the month. */
  function ParseDate(s: string): (r: Option<Date>)
    ensures r.Some? ==> ValidDate(r.value)
    ensures r.Some? ==> 8 <= |s| <= 10
  {
    var dl := if |s| > 1 && s[1] == '-' then 1 else 2;
    if |s| <= dl || s[dl] != '-' then None
    else
      var rest := s[dl + 1..];
      var ml := if |rest| > 1 && rest[1] == '-' then 1 else 2;
      if |rest| <= ml || rest[ml] != '-' then None
      else
        match (DayField(s[..dl]), MonthField(rest[..ml]), YearField(rest[ml + 1..]))
        case (Some(d), Some(m), Some(y)) =>
          if ValidDate(Date(d, m, y)) then Some(Date(d, m, y)) else None
        case _ => None
  }

  // ----- the documented spelling DD-MM-YYYY -----

  function Digit(n: int): (c: char)
    requires 0 <= n <= 9
    ensures IsDigit(c) && DigitValue(c) == n
  {
    ('0' as int + n) as char
  }

  function Pad2(n: int): (t: string)
    requires 0 <= n <= 99
    ensures |t| == 2 && IsDigit(t[0]) && IsDigit(t[1]) && TwoDigits(t) == n
  {
    [Digit(n / 10), Digit(n % 10)]
  }

  /** The two-digit spelling of a number is the only one. */
  lemma Pad2Unique(t: string)
    requires |t| == 2 && IsDigit(t[0]) && IsDigit(t[1])
    ensures Pad2(TwoDigits(t)) == t
  {
  }

  /** A day written as DD-MM-YYYY, every field zero-padded. */
  function FormatDate(d: Date): (s: string)
    requires ValidDate(d)
    ensures |s| == 10 && s[2] == '-' && s[5] == '-' && ' ' !in s
  {
    Pad2(d.day) + "-" + Pad2(d.month) + "-" + Pad2(d.year / 100) + Pad2(d.year % 100)
  }

  /** Reading a day back from its DD-MM-YYYY spelling gives that day. */
  lemma ParseFormatted(d: Date)
    requires ValidDate(d)
    ensures ParseDate(FormatDate(d)) == Some(d)
  {
  }

  /** A ten-character date without spaces that parses is the DD-MM-YYYY
      spelling of its day: for such strings, equal strings and equal days
      are the same thing. */
  lemma {:induction false} TenCharacterDateIsFormatted(s: string)
    requires |s| == 10 && ' ' !in s && ParseDate(s).Some?
    ensures FormatDate(ParseDate(s).value) == s
  {
    var d := ParseDate(s).value;
    assert s[1] != '-' && s[2] == '-';
    var rest := s[3..];
    assert rest[1] != '-' && rest[2] == '-';
    assert s[0] in s;
    Pad2Unique(s[..2]);
    Pad2Unique(rest[..2]);
    var y := rest[3..];
    Pad2Unique(y[..2]);
    Pad2Unique(y[2..]);
    assert TwoDigits(y[..2]) == d.year / 100 && TwoDigits(y[2..]) == d.year % 100;
    assert s == s[..2] + "-" + rest[..2] + "-" + y[..2] + y[2..];
  }

  /** Two DD-MM-YYYY strings name the same day exactly when they are equal. */
  lemma SameDayIffSameString(a: string, b: string)
    requires |a| == 10 && ' ' !in a && ParseDate(a).Some?
    requires |b| == 10 && ' ' !in b && ParseDate(b).Some?
    ensures ParseDate(a) == ParseDate(b) <==> a == b
  {
    TenCharacterDateIsFormatted(a);
    TenCharacterDateIsFormatted(b);
  }

  /** The parse also takes one-digit days and months, so one day has several
      spellings. */
  lemma OneDigitSpelling()
    ensures ParseDate("1-1-2099") == ParseDate("01-01-2099") == Some(Date(1, 1, 2099))
  {
    ParseFormatted(Date(1, 1, 2099));
    assert FormatDate(Date(1, 1, 2099)) == "01-01-2099";
    var s := "1-1-2099";
    assert s[2..][2..] == "2099" && s[..1] == "1" && s[2..][..1] == "1";
    assert YearField("2099") == Some(2099) by {
      assert "2099"[..2] == "20" && "2099"[2..] == "99";
    }
  }
}
