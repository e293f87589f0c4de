/** The proleptic Gregorian calendar as Python's `datetime.date` implements it:
    dates from 0001-01-01 to 9999-12-31, the day number (`toordinal`), the
    weekday with Monday = 0, comparison, adding days, `replace(year=...)`, and
    the `DD.MM.YYYY` text form used by `strptime`/`strftime` in the directory. */
module Calendar {
  import opened Wrappers

  datatype Date = Date(year: int, month: int, day: int)

  const MinYear := 1
  const MaxYear := 9999
  /** `date.max` */
  const MaxDate := Date(9999, 12, 31)

  predicate IsLeap(y: int) {
    y % 4 == 0 && (y % 100 != 0 || y % 400 == 0)
  }

  function DaysInMonth(y: int, m: int): (n: int)
    requires 1 <= m <= 12
    ensures 28 <= n <= 31
    ensures n == 29 <==> m == 2 && IsLeap(y)
  {
    if m == 2 then (if IsLeap(y) then 29 else 28)
    else if m == 4 || m == 6 || m == 9 || m == 11 then 30
    else 31
  }

  function DaysInYear(y: int): int {
    if IsLeap(y) then 366 else 365
  }

  /** A date `datetime.date` accepts. */
  predicate ValidDate(d: Date) {
    && MinYear <= d.year <= MaxYear
    && 1 <= d.month <= 12
    && 1 <= d.day <= DaysInMonth(d.year, d.month)
  }

  /** Days in the years before `y`, in closed form. */
  function DaysBeforeYear(y: int): int
    requires y >= 1
  {
    var n := y - 1;
    n * 365 + n / 4 - n / 100 + n / 400
  }

  /** Days in the months of year `y` before month `m`: a fixed table plus one
      after February of a leap year. */
  function DaysBeforeMonth(y: int, m: int): int
    requires 1 <= m <= 12
  {
    var table := [0, 31, 59, 90, 120, 151, 181, 212, 243, 273, 304, 334];
    table[m - 1] + (if m > 2 && IsLeap(y) then 1 else 0)
  }

  /** `date.toordinal()`: 0001-01-01 is day 1. */
  function Ordinal(d: Date): int
    requires ValidDate(d)
  {
    DaysBeforeYear(d.year) + DaysBeforeMonth(d.year, d.month) + d.day
  }

  /** `date.weekday()`: Monday is 0, Sunday is 6. */
  function Weekday(d: Date): (w: int)
    requires ValidDate(d)
    ensures 0 <= w < 7
  {
    (Ordinal(d) + 6) % 7
  }

  /** `a < b` on dates: compares (year, month, day) lexicographically. */
  predicate Before(a: Date, b: Date) {
    || a.year < b.year
    || (a.year == b.year && (a.month < b.month || (a.month == b.month && a.day < b.day)))
  }

  /** The calendar day after `d`. */
  function NextDay(d: Date): (r: Date)
    requires ValidDate(d) && d != MaxDate
    ensures ValidDate(r) && Ordinal(r) == Ordinal(d) + 1
  {
    if d.day < DaysInMonth(d.year, d.month) then
      Date(d.year, d.month, d.day + 1)
    else if d.month < 12 then
      var r := Date(d.year, d.month + 1, 1);
      assert DaysBeforeMonth(d.year, d.month + 1) == DaysBeforeMonth(d.year, d.month) + DaysInMonth(d.year, d.month);
      r
    else
      DaysBeforeYearStep(d.year);
      Date(d.year + 1, 1, 1)
  }

  /** `d + timedelta(days=n)`, for results no later than `date.max`. */
  function AddDays(d: Date, n: nat): (r: Date)
    requires ValidDate(d) && Ordinal(d) + n <= Ordinal(MaxDate)
    ensures ValidDate(r) && Ordinal(r) == Ordinal(d) + n
    decreases n
  {
    if n == 0 then d else AddDays(NextDay(d), n - 1)
  }

  /** `d.replace(year=y)`: the year is checked first, then the day against the
      month's length in year `y`. */
  function ReplaceYear(d: Date, y: int): (r: Result<Date, Error>)
    requires 1 <= d.month <= 12 && d.day >= 1
    ensures r.Success? <==> MinYear <= y <= MaxYear && d.day <= DaysInMonth(y, d.month)
    ensures r.Success? ==> ValidDate(r.value) && r.value == Date(y, d.month, d.day)
    ensures (y < MinYear || y > MaxYear) ==> r == Failure(ValueError("year " + IntToString(y) + " is out of range"))
    ensures MinYear <= y <= MaxYear && r.Failure? ==> r == Failure(ValueError("day is out of range for month"))
  {
    if y < MinYear || y > MaxYear then
      Failure(ValueError("year " + IntToString(y) + " is out of range"))
    else if d.day > DaysInMonth(y, d.month) then
      Failure(ValueError("day is out of range for month"))
    else
      Success(Date(y, d.month, d.day))
  }

  // ---------------------------------------------------------------------------
  // Day numbers

  /** Moving from `n` to `n + 1` raises `n / k` by one exactly when `k`
      divides `n + 1`. */
  lemma QuotientStep(n: int, k: int)
    requires n >= 0 && k > 0
    ensures (n + 1) / k == n / k + (if (n + 1) % k == 0 then 1 else 0)
  {
    var q, r := n / k, n % k;
    assert n == q * k + r && 0 <= r < k;
    if r + 1 < k {
      assert n + 1 == q * k + (r + 1);
      QuotientUnique(n + 1, k, q, r + 1);
    } else {
      assert n + 1 == (q + 1) * k;
      QuotientUnique(n + 1, k, q + 1, 0);
    }
  }

  lemma QuotientUnique(n: int, k: int, q: int, r: int)
    requires k > 0 && 0 <= r < k && n == q * k + r
    ensures n / k == q && n % k == r
  {
    var q', r' := n / k, n % k;
    assert n == q' * k + r';
    if q < q' {
      ProductAtLeast(q' - q, k);
    } else if q > q' {
      ProductAtLeast(q - q', k);
    }
  }

  lemma ProductAtLeast(a: int, k: int)
    requires a >= 1 && k > 0
    ensures a * k >= k
  {
  }

  lemma DaysBeforeYearStep(y: int)
    requires y >= 1
    ensures DaysBeforeYear(y + 1) == DaysBeforeYear(y) + DaysInYear(y)
  {
    var n := y - 1;
    QuotientStep(n, 4);
    QuotientStep(n, 100);
    QuotientStep(n, 400);
    if y % 400 == 0 {
      QuotientUnique(y, 100, 4 * (y / 400), 0);
      QuotientUnique(y, 4, 100 * (y / 400), 0);
    } else if y % 100 == 0 {
      QuotientUnique(y, 4, 25 * (y / 100), 0);
    }
  }

  lemma {:induction false} DaysBeforeYearGrows(y1: int, y2: int)
    requires 1 <= y1 < y2
    ensures DaysBeforeYear(y1) + DaysInYear(y1) <= DaysBeforeYear(y2)
    decreases y2 - y1
  {
    DaysBeforeYearStep(y1);
    if y1 + 1 < y2 {
      DaysBeforeYearGrows(y1 + 1, y2);
    }
  }

  /** Every day of a year is numbered below the first day of the next. */
  lemma OrdinalWithinYear(d: Date)
    requires ValidDate(d)
    ensures DaysBeforeYear(d.year) < Ordinal(d) <= DaysBeforeYear(d.year) + DaysInYear(d.year)
  {
  }

  /** Comparing dates is comparing their day numbers. */
  lemma OrdinalOrder(a: Date, b: Date)
    requires ValidDate(a) && ValidDate(b)
    ensures Before(a, b) <==> Ordinal(a) < Ordinal(b)
    ensures a == b <==> Ordinal(a) == Ordinal(b)
  {
    OrdinalWithinYear(a);
    OrdinalWithinYear(b);
    if a.year < b.year {
      DaysBeforeYearGrows(a.year, b.year);
    } else if b.year < a.year {
      DaysBeforeYearGrows(b.year, a.year);
    }
  }

  lemma OrdinalAtMostMax(d: Date)
    requires ValidDate(d)
    ensures Ordinal(d) <= Ordinal(MaxDate)
  {
    OrdinalOrder(d, MaxDate);
  }

  /** 9999-12-31 is a Friday. */
  lemma MaxDateIsFriday()
    ensures Ordinal(MaxDate) == 3652059 && Weekday(MaxDate) == 4
  {
  }

  // ---------------------------------------------------------------------------
  // Text form DD.MM.YYYY

  predicate IsDigit(c: char) {
    '0' <= c <= '9'
  }

  function DigitChar(n: int): (c: char)
    requires 0 <= n < 10
    ensures IsDigit(c)
  {
    ('0' as int + n) as char
  }

  function DigitValue(c: char): (n: int)
    requires IsDigit(c)
    ensures 0 <= n < 10 && DigitChar(n) == c
  {
    c as int - '0' as int
  }

  function Pad2(n: int): (s: string)
    requires 0 <= n < 100
  {
    [DigitChar(n / 10), DigitChar(n % 10)]
  }

  function Pad4(n: int): (s: string)
    requires 0 <= n < 10000
  {
    [DigitChar(n / 1000), DigitChar(n / 100 % 10), DigitChar(n / 10 % 10), DigitChar(n % 10)]
  }

  /** `strftime("%d.%m.%Y")`. */
  function FormatDate(d: Date): (s: string)
    requires ValidDate(d)
    ensures |s| == 10 && s[2] == '.' && s[5] == '.'
  {
    Pad2(d.day) + "." + Pad2(d.month) + "." + Pad4(d.year)
  }

  /** The zero-padded `DD.MM.YYYY` shape, before any calendar check. */
  predicate DateShaped(s: string) {
    && |s| == 10
    && s[2] == '.' && s[5] == '.'
    && IsDigit(s[0]) && IsDigit(s[1]) && IsDigit(s[3]) && IsDigit(s[4])
    && IsDigit(s[6]) && IsDigit(s[7]) && IsDigit(s[8]) && IsDigit(s[9])
  }

  /** The date a `DateShaped` string spells, valid or not. */
  function SpelledDate(s: string): Date
    requires DateShaped(s)
  {
    Date(
      1000 * DigitValue(s[6]) + 100 * DigitValue(s[7]) + 10 * DigitValue(s[8]) + DigitValue(s[9]),
      10 * DigitValue(s[3]) + DigitValue(s[4]),
      10 * DigitValue(s[0]) + DigitValue(s[1]))
  }

  /** `datetime.strptime(s, "%d.%m.%Y").date()` on zero-padded input: the
      shape must match and the values must form a calendar date. */
  function ParseDate(s: string): (r: Option<Date>)
    ensures r.Some? <==> DateShaped(s) && ValidDate(SpelledDate(s))
    ensures r.Some? ==> ValidDate(r.value) && FormatDate(r.value) == s
  {
    if DateShaped(s) && ValidDate(SpelledDate(s)) then
      var d := SpelledDate(s);
      FormatSpelledDate(s);
      Some(d)
    else
      None
  }

  lemma Pad2Digits(a: int, b: int)
    requires 0 <= a < 10 && 0 <= b < 10
    ensures Pad2(10 * a + b) == [DigitChar(a), DigitChar(b)]
  {
    QuotientUnique(10 * a + b, 10, a, b);
  }

  lemma Pad4Digits(a: int, b: int, c: int, e: int)
    requires 0 <= a < 10 && 0 <= b < 10 && 0 <= c < 10 && 0 <= e < 10
    ensures Pad4(1000 * a + 100 * b + 10 * c + e) == [DigitChar(a), DigitChar(b), DigitChar(c), DigitChar(e)]
  {
    var n := 1000 * a + 100 * b + 10 * c + e;
    QuotientUnique(n, 1000, a, 100 * b + 10 * c + e);
    QuotientUnique(n, 100, 10 * a + b, 10 * c + e);
    QuotientUnique(10 * a + b, 10, a, b);
    QuotientUnique(n, 10, 100 * a + 10 * b + c, e);
    QuotientUnique(100 * a + 10 * b + c, 10, 10 * a + b, c);
  }

  lemma FormatSpelledDate(s: string)
    requires DateShaped(s) && ValidDate(SpelledDate(s))
    ensures FormatDate(SpelledDate(s)) == s
  {
    Pad2Digits(DigitValue(s[0]), DigitValue(s[1]));
    Pad2Digits(DigitValue(s[3]), DigitValue(s[4]));
    Pad4Digits(DigitValue(s[6]), DigitValue(s[7]), DigitValue(s[8]), DigitValue(s[9]));
    var t := FormatDate(SpelledDate(s));
    assert t == s;
  }

  lemma Pad2Reads(n: int)
    requires 0 <= n < 100
    ensures IsDigit(Pad2(n)[0]) && IsDigit(Pad2(n)[1])
    ensures 10 * DigitValue(Pad2(n)[0]) + DigitValue(Pad2(n)[1]) == n
  {
    QuotientUnique(n, 10, n / 10, n % 10);
  }

  lemma Pad4Reads(n: int)
    requires 0 <= n < 10000
    ensures var s := Pad4(n);
            && IsDigit(s[0]) && IsDigit(s[1]) && IsDigit(s[2]) && IsDigit(s[3])
            && 1000 * DigitValue(s[0]) + 100 * DigitValue(s[1]) + 10 * DigitValue(s[2]) + DigitValue(s[3]) == n
  {
    var q1, e := n / 10, n % 10;
    var q2, c := q1 / 10, q1 % 10;
    var a, b := q2 / 10, q2 % 10;
    QuotientUnique(n, 100, q2, 10 * c + e);
    QuotientUnique(n, 1000, a, 100 * b + 10 * c + e);
    Pad4Digits(a, b, c, e);
  }

  /** Rendering a date and parsing it back gives the same date. */
  lemma ParseFormat(d: Date)
    requires ValidDate(d)
    ensures ParseDate(FormatDate(d)) == Some(d)
  {
    var s := FormatDate(d);
    var dd, mm, yyyy := Pad2(d.day), Pad2(d.month), Pad4(d.year);
    Pad2Reads(d.day);
    Pad2Reads(d.month);
    Pad4Reads(d.year);
    assert s == dd + "." + mm + "." + yyyy;
    assert s[0] == dd[0] && s[1] == dd[1] && s[3] == mm[0] && s[4] == mm[1];
    assert s[6] == yyyy[0] && s[7] == yyyy[1] && s[8] == yyyy[2] && s[9] == yyyy[3];
    assert DateShaped(s);
    assert SpelledDate(s) == d;
  }

  // ---------------------------------------------------------------------------
  // Decimal text of an integer, for the out-of-range year message.

  function NatToString(n: nat): string
  {
    if n < 10 then [DigitChar(n)] else NatToString(n / 10) + [DigitChar(n % 10)]
  }

  function IntToString(n: int): string
  {
    if n < 0 then "-" + NatToString(-n) else NatToString(n)
  }
}
