/** The report date of the run: `datetime.now() - timedelta(days=1)` rendered with
    `strftime('%Y%m%d')`, on the proleptic Gregorian calendar of Python's `datetime`. */
module Calendar {
  import opened Options
  import Text

  datatype Date = Date(year: int, month: int, day: int)

  /** `datetime` accepts years 1 through 9999 only. */
  const MinYear := 1
  const MaxYear := 9999

  predicate IsLeapYear(year: int) {
    year % 4 == 0 && (year % 100 != 0 || year % 400 == 0)
  }

  function DaysInMonth(year: int, month: int): (n: int)
    requires 1 <= month <= 12
    ensures 28 <= n <= 31
    ensures n == 29 <==> month == 2 && IsLeapYear(year)
  {
    if month == 2 then (if IsLeapYear(year) then 29 else 28)
    else if month == 4 || month == 6 || month == 9 || month == 11 then 30
    else 31
  }

  predicate Valid(d: Date) {
    && MinYear <= d.year <= MaxYear
    && 1 <= d.month <= 12
    && 1 <= d.day <= DaysInMonth(d.year, d.month)
  }

  /** Chronological order of dates. */
  predicate Before(a: Date, b: Date) {
    || a.year < b.year
    || (a.year == b.year && a.month < b.month)
    || (a.year == b.year && a.month == b.month && a.day < b.day)
  }

  /** The day before `d`; `None` where `datetime` raises `OverflowError` (before 0001-01-01). */
  function PreviousDay(d: Date): (r: Option<Date>)
    requires Valid(d)
    ensures r.None? <==> d == Date(MinYear, 1, 1)
    ensures r.Some? ==> Valid(r.value) && Before(r.value, d)
  {
    if d.day > 1 then Some(Date(d.year, d.month, d.day - 1))
    else if d.month > 1 then Some(Date(d.year, d.month - 1, DaysInMonth(d.year, d.month - 1)))
    else if d.year > MinYear then Some(Date(d.year - 1, 12, 31))
    else None
  }

  /** The day after `d`; `None` after 9999-12-31. The partner of `PreviousDay`. */
  function NextDay(d: Date): (r: Option<Date>)
    requires Valid(d)
    ensures r.None? <==> d == Date(MaxYear, 12, 31)
    ensures r.Some? ==> Valid(r.value) && Before(d, r.value)
  {
    if d.day < DaysInMonth(d.year, d.month) then Some(Date(d.year, d.month, d.day + 1))
    else if d.month < 12 then Some(Date(d.year, d.month + 1, 1))
    else if d.year < MaxYear then Some(Date(d.year + 1, 1, 1))
    else None
  }

  /** Going back one day and then forward one day returns to the start. */
  lemma PreviousThenNext(d: Date)
    requires Valid(d) && PreviousDay(d).Some?
    ensures NextDay(PreviousDay(d).value) == Some(d)
  {
  }

  /** Going forward one day and then back one day returns to the start. */
  lemma NextThenPrevious(d: Date)
    requires Valid(d) && NextDay(d).Some?
    ensures PreviousDay(NextDay(d).value) == Some(d)
  {
  }

  /** "Yesterday" is the latest valid date strictly before today: no day is skipped. */
  lemma PreviousDayIsImmediate(d: Date, x: Date)
    requires Valid(d) && Valid(x) && PreviousDay(d).Some?
    requires Before(x, d)
    ensures x == PreviousDay(d).value || Before(x, PreviousDay(d).value)
  {
  }

  /** `strftime('%Y%m%d')`: four-digit year, two-digit month, two-digit day. */
  function FolderName(d: Date): (s: string)
    requires Valid(d)
    ensures |s| == 8 && Text.AllDigits(s)
  {
    Text.FixedDigits(d.year, 4) + Text.FixedDigits(d.month, 2) + Text.FixedDigits(d.day, 2)
  }

  /** Reads an eight-digit `YYYYMMDD` folder name back into a date. */
  function ParseFolderName(s: string): (r: Option<Date>)
    ensures r.Some? ==> Valid(r.value)
  {
    if |s| == 8 && Text.AllDigits(s) then
      var d := Date(Text.Value(s[..4]), Text.Value(s[4..6]), Text.Value(s[6..]));
      if Valid(d) then Some(d) else None
    else None
  }

  /** The folder name identifies its date: parsing it back gives the date it was made from. */
  lemma FolderNameRoundTrip(d: Date)
    requires Valid(d)
    ensures ParseFolderName(FolderName(d)) == Some(d)
  {
    var y := Text.FixedDigits(d.year, 4);
    var m := Text.FixedDigits(d.month, 2);
    var dd := Text.FixedDigits(d.day, 2);
    var s := FolderName(d);
    assert s[..4] == y && s[4..6] == m && s[6..] == dd;
    Text.FixedDigitsRoundTrip(d.year, 4);
    Text.FixedDigitsRoundTrip(d.month, 2);
    Text.FixedDigitsRoundTrip(d.day, 2);
  }

  /** Distinct dates get distinct archive folders. */
  lemma FolderNameInjective(a: Date, b: Date)
    requires Valid(a) && Valid(b) && FolderName(a) == FolderName(b)
    ensures a == b
  {
    FolderNameRoundTrip(a);
    FolderNameRoundTrip(b);
  }
}
