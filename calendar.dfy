/** The part of the proleptic Gregorian calendar that the locator uses: a date,
    adding a signed number of days to it, its weekday, and its `%d/%m/%Y`
    rendering. Integers are unbounded here, so the calendar has no first or
    last year. */
module Calendar {
  import opened Optional
  import opened Text

  datatype Date = Date(year: int, month: int, day: int)

  /** A year divisible by 4, except centuries not divisible by 400. */
  predicate IsLeapYear(y: int)
  {
    y % 4 == 0 && (y % 100 != 0 || y % 400 == 0)
  }

  function DaysInMonth(y: int, m: int): (n: int)
    requires 1 <= m <= 12
    ensures 28 <= n <= 31
    ensures n == 29 <==> m == 2 && IsLeapYear(y)
  {
    if m == 2 then (if IsLeapYear(y) then 29 else 28)
    else if m == 4 || m == 6 || m == 9 || m == 11 then 30
    else 31
  }

  /** A month between 1 and 12 and a day that month has. */
  predicate Valid(d: Date)
  {
    1 <= d.month <= 12 && 1 <= d.day <= DaysInMonth(d.year, d.month)
  }

  /** The day after `d`. */
  function NextDay(d: Date): (r: Date)
    requires Valid(d)
    ensures Valid(r)
  {
    if d.day < DaysInMonth(d.year, d.month) then Date(d.year, d.month, d.day + 1)
    else if d.month < 12 then Date(d.year, d.month + 1, 1)
    else Date(d.year + 1, 1, 1)
  }

  /** The day before `d`. */
  function PrevDay(d: Date): (r: Date)
    requires Valid(d)
    ensures Valid(r)
  {
    if d.day > 1 then Date(d.year, d.month, d.day - 1)
    else if d.month > 1 then Date(d.year, d.month - 1, DaysInMonth(d.year, d.month - 1))
    else Date(d.year - 1, 12, 31)
  }

  /** Stepping forward and stepping back undo each other. */
  lemma NextPrevInverse(d: Date)
    requires Valid(d)
    ensures PrevDay(NextDay(d)) == d
    ensures NextDay(PrevDay(d)) == d
  {
  }

  /** `date + Duration::days(n)`, one day at a time. */
  function AddDays(d: Date, n: int): (r: Date)
    requires Valid(d)
    ensures Valid(r)
    decreases if n < 0 then -n else n
  {
    if n == 0 then d
    else if n > 0 then AddDays(NextDay(d), n - 1)
    else AddDays(PrevDay(d), n + 1)
  }

  /** Days in the months of year `y` before month `m`. */
  function DaysBeforeMonth(y: int, m: int): int
    requires 1 <= m <= 12
  {
    [0, 31, 59, 90, 120, 151, 181, 212, 243, 273, 304, 334][m - 1]
      + (if m > 2 && IsLeapYear(y) then 1 else 0)
  }

  /** Leap years among 1 .. y - 1 (negated count of 0 .. -y ... for y < 1). */
  function LeapYearsBefore(y: int): int
  {
    (y - 1) / 4 - (y - 1) / 100 + (y - 1) / 400
  }

  /** Days from 0001-01-01, which is day 0 (a Monday). */
  function DayNumber(d: Date): int
    requires Valid(d)
  {
    365 * (d.year - 1) + LeapYearsBefore(d.year) + DaysBeforeMonth(d.year, d.month) + d.day - 1
  }

  lemma DivModUnique(a: int, k: int, q: int, r: int)
    requires k > 0 && a == k * q + r && 0 <= r < k
    ensures a / k == q && a % k == r
  {
    var q', r' := a / k, a % k;
    var diff := q' - q;
    assert k * diff == r - r' by {
      assert k * q' - k * q == k * (q' - q);
    }
    assert diff >= 1 ==> k * diff >= k * 1;
    assert diff <= -1 ==> k * (-diff) >= k * 1;
  }

  /** Dividing `y` and `y - 1` by `k` differ by one exactly when `k` divides `y`. */
  lemma DivStep(y: int, k: int)
    requires k > 0
    ensures y / k - (y - 1) / k == if y % k == 0 then 1 else 0
  {
    var q, r := (y - 1) / k, (y - 1) % k;
    if r == k - 1 {
      assert y == k * (q + 1) + 0;
      DivModUnique(y, k, q + 1, 0);
    } else {
      assert y == k * q + (r + 1);
      DivModUnique(y, k, q, r + 1);
    }
  }

  lemma MultipleOf(y: int, big: int, small: int)
    requires small > 0 && big > 0 && big == small * (big / small) && y % big == 0
    ensures y % small == 0
  {
    var c := big / small;
    assert y == big * (y / big);
    assert y == small * (c * (y / big)) + 0;
    DivModUnique(y, small, c * (y / big), 0);
  }

  /** Year `y` adds one leap day to the count exactly when it is a leap year. */
  lemma LeapYearsStep(y: int)
    ensures LeapYearsBefore(y + 1) == LeapYearsBefore(y) + (if IsLeapYear(y) then 1 else 0)
  {
    DivStep(y, 4);
    DivStep(y, 100);
    DivStep(y, 400);
    if y % 100 == 0 { MultipleOf(y, 100, 4); }
    if y % 400 == 0 { MultipleOf(y, 400, 100); }
  }

  /** The day after `d` has the next day number. */
  lemma DayNumberNext(d: Date)
    requires Valid(d)
    ensures DayNumber(NextDay(d)) == DayNumber(d) + 1
  {
    if d.day == DaysInMonth(d.year, d.month) && d.month == 12 {
      LeapYearsStep(d.year);
    }
  }

  /** Adding `n` days moves the day number by exactly `n`. */
  lemma {:induction false} DayNumberAdd(d: Date, n: int)
    requires Valid(d)
    ensures DayNumber(AddDays(d, n)) == DayNumber(d) + n
    decreases if n < 0 then -n else n
  {
    if n > 0 {
      DayNumberNext(d);
      DayNumberAdd(NextDay(d), n - 1);
    } else if n < 0 {
      DayNumberNext(PrevDay(d));
      NextPrevInverse(d);
      DayNumberAdd(PrevDay(d), n + 1);
    }
  }

  /** Different offsets from the same day land on different days. */
  lemma AddDaysInjective(d: Date, a: int, b: int)
    requires Valid(d)
    ensures AddDays(d, a) == AddDays(d, b) ==> a == b
  {
    DayNumberAdd(d, a);
    DayNumberAdd(d, b);
  }

  /** chrono's `Weekday`, counted from 0 = Monday. */
  function Weekday(d: Date): nat
    requires Valid(d)
  {
    DayNumber(d) % 7
  }

  /** The weekday moves forward by the number of days added, modulo 7. */
  lemma WeekdayAfter(d: Date, n: int)
    requires Valid(d)
    ensures Weekday(AddDays(d, n)) == (Weekday(d) + n) % 7
  {
    DayNumberAdd(d, n);
    var k := DayNumber(d);
    DivModUnique(k, 7, k / 7, k % 7);
    DivModUnique(k + n, 7, k / 7 + (k % 7 + n) / 7, (k % 7 + n) % 7);
  }

  /** chrono's `Display` for `Weekday`. */
  function WeekdayName(w: nat): (s: string)
    requires w < 7
  {
    ["Mon", "Tue", "Wed", "Thu", "Fri", "Sat", "Sun"][w]
  }

  predicate IsDigit(c: char)
  {
    '0' <= c <= '9'
  }

  function DigitChar(n: nat): (c: char)
    requires n < 10
    ensures IsDigit(c)
  {
    ('0' as int + n) as char
  }

  /** The decimal digits of `n`, zero-padded on the left to at least `width`. */
  function ZeroPad(n: nat, width: nat): (s: string)
    decreases n + width
  {
    if n < 10 && width <= 1 then [DigitChar(n)]
    else ZeroPad(n / 10, if width > 0 then width - 1 else 0) + [DigitChar(n % 10)]
  }

  function DigitValue(c: char): (n: nat)
    requires IsDigit(c)
    ensures n < 10 && DigitChar(n) == c
  {
    c as int - '0' as int
  }

  /** The number a string of decimal digits denotes. */
  function DigitsValue(s: string): nat
    requires forall i :: 0 <= i < |s| ==> IsDigit(s[i])
  {
    if |s| == 0 then 0
    else 10 * DigitsValue(s[..|s| - 1]) + DigitValue(s[|s| - 1])
  }

  function Pow10(w: nat): (p: nat)
    ensures p >= 1
  {
    if w == 0 then 1 else 10 * Pow10(w - 1)
  }

  /** A number below 10^width pads to exactly `width` digits that read back as the number. */
  lemma {:induction false} ZeroPadExact(n: nat, width: nat)
    requires 1 <= width && n < Pow10(width)
    ensures |ZeroPad(n, width)| == width
    ensures forall i :: 0 <= i < width ==> IsDigit(ZeroPad(n, width)[i])
    ensures DigitsValue(ZeroPad(n, width)) == n
    decreases width
  {
    if !(n < 10 && width <= 1) {
      assert width >= 2;
      assert n / 10 < Pow10(width - 1);
      ZeroPadExact(n / 10, width - 1);
      var s := ZeroPad(n, width);
      assert s[..|s| - 1] == ZeroPad(n / 10, width - 1);
    }
  }

  /** chrono's `%Y`: four zero-padded digits for years 0 to 9999, otherwise a
      sign followed by at least four digits. */
  function YearText(y: int): string
  {
    if 0 <= y < 10000 then ZeroPad(y, 4)
    else if y < 0 then "-" + ZeroPad(-y, 4)
    else "+" + ZeroPad(y, 4)
  }

  /** `date.format("%d/%m/%Y")`. */
  function Format(d: Date): string
    requires Valid(d)
  {
    ZeroPad(d.day, 2) + "/" + ZeroPad(d.month, 2) + "/" + YearText(d.year)
  }

  /** Every formatted date holds the '/' separator. */
  lemma FormatHasSlash(d: Date)
    requires Valid(d)
    ensures ContainsChar(Format(d), '/')
  {
    ZeroPadExact(d.day, 2);
    assert Format(d)[2] == '/';
  }

  /** Reads a `DD/MM/YYYY` string back into a valid date. */
  function ParseDate(s: string): Option<Date>
  {
    if |s| == 10 && s[2] == '/' && s[5] == '/' &&
       (forall i :: 0 <= i < 10 && i != 2 && i != 5 ==> IsDigit(s[i]))
    then
      var d := Date(DigitsValue(s[6..]), DigitsValue(s[3..5]), DigitsValue(s[..2]));
      if Valid(d) then Some(d) else None
    else None
  }

  /** Formatting a date of a four-digit year and parsing it back gives the date. */
  lemma ParseFormat(d: Date)
    requires Valid(d) && 0 <= d.year < 10000
    ensures ParseDate(Format(d)) == Some(d)
  {
    ZeroPadExact(d.day, 2);
    ZeroPadExact(d.month, 2);
    ZeroPadExact(d.year, 4);
    var dd, mm, yyyy := ZeroPad(d.day, 2), ZeroPad(d.month, 2), ZeroPad(d.year, 4);
    var s := Format(d);
    assert s == dd + "/" + mm + "/" + yyyy;
    assert s[..2] == dd && s[3..5] == mm && s[6..] == yyyy;
  }

  /** Two dates of four-digit years with the same text are the same date. */
  lemma FormatInjective(d: Date, e: Date)
    requires Valid(d) && 0 <= d.year < 10000
    requires Valid(e) && 0 <= e.year < 10000
    ensures Format(d) == Format(e) ==> d == e
  {
    ParseFormat(d);
    ParseFormat(e);
  }
}
