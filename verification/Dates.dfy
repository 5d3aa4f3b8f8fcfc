/** Dates as text (src/time.cxx). */
module Dates {
  import opened Buffers
  import opened Integers
  import opened Wrappers

  /** A Gregorian date as std::chrono::year_month_day has it: astronomical years,
      with a year zero.  It need not exist in the calendar. */
  datatype Date = Date(y: int, m: int, d: int)

  const YEAR_MIN := -32767
  const YEAR_MAX := 32767

  predicate IsLeap(y: int) {
    y % 4 == 0 && (y % 100 != 0 || y % 400 == 0)
  }

  function LastDay(y: int, m: int): int
    requires 1 <= m <= 12
  {
    if m == 2 then (if IsLeap(y) then 29 else 28)
    else if m in {4, 6, 9, 11} then 30
    else 31
  }

  /** year_month_day::ok(). */
  predicate Exists(date: Date) {
    && YEAR_MIN <= date.y <= YEAR_MAX
    && 1 <= date.m <= 12
    && 1 <= date.d <= LastDay(date.y, date.m)
  }

  /** How many multiples of k there are from 0 on, below y. */
  function Multiples(y: int, k: int): int
    requires k >= 1
  {
    (y + k - 1) / k
  }

  /** How many days there are from the first day of year 0 to that of year y: every
      fourth year has one more than 365, but not every hundredth, but again every
      four-hundredth. */
  function DaysBefore(y: int): int {
    365 * y + Multiples(y, 4) - Multiples(y, 100) + Multiples(y, 400)
  }

  /** The calendar is the Gregorian one: months have their known lengths, and
      February has the day that makes the months add up to the year.  There are
      146097 days in four centuries. */
  lemma CalendarExactly(date: Date)
    ensures Exists(date) <==>
              && -32767 <= date.y <= 32767 && 1 <= date.m <= 12 && 1 <= date.d
              && date.d <= [31, DaysBefore(date.y + 1) - DaysBefore(date.y) - 337,
                            31, 30, 31, 30, 31, 31, 30, 31, 30, 31][date.m - 1]
    ensures DaysBefore(date.y + 400) - DaysBefore(date.y) == 146097
  {
    YearLength(date.y);
  }

  lemma YearLength(y: int)
    ensures DaysBefore(y + 1) - DaysBefore(y) == if IsLeap(y) then 366 else 365
    ensures DaysBefore(y + 400) - DaysBefore(y) == 146097
  {
    hide Multiples;
    MultiplesOf4(y);
    MultiplesOf100(y);
    MultiplesOf400(y);
    Divides(y);
  }

  lemma Divides(y: int)
    ensures y % 400 == 0 ==> y % 100 == 0
    ensures y % 100 == 0 ==> y % 4 == 0
  {
  }

  lemma MultiplesOf4(y: int)
    ensures Multiples(y + 1, 4) - Multiples(y, 4) == if y % 4 == 0 then 1 else 0
    ensures Multiples(y + 400, 4) - Multiples(y, 4) == 100
  {
  }

  lemma MultiplesOf100(y: int)
    ensures Multiples(y + 1, 100) - Multiples(y, 100) == if y % 100 == 0 then 1 else 0
    ensures Multiples(y + 400, 100) - Multiples(y, 100) == 4
  {
  }

  lemma MultiplesOf400(y: int)
    ensures Multiples(y + 1, 400) - Multiples(y, 400) == if y % 400 == 0 then 1 else 0
    ensures Multiples(y + 400, 400) - Multiples(y, 400) == 1
  {
  }

  /** The year as people and PostgreSQL count it: 1 BC comes right before 1 AD. */
  function CalendarYear(y: int): (n: nat)
    ensures n >= 1
  {
    if y > 0 then y else 1 - y
  }

  /** At least four digits. */
  function Padded(n: nat): string {
    if n < 10 then "000" + Dec(n)
    else if n < 100 then "00" + Dec(n)
    else if n < 1000 then "0" + Dec(n)
    else Dec(n)
  }

  function TwoDigits(n: int): string
    requires 0 <= n <= 99
  {
    [NumberToDigit(n / 10), NumberToDigit(n % 10)]
  }

  const BC := " BC"

  /** A date whose parts can be written down: two digits do for month and day, and
      the year as people count it is an int. */
  predicate Writable(date: Date) {
    && 1 - INT.top <= date.y <= INT.top
    && 0 <= date.m <= 99
    && 0 <= date.d <= 99
  }

  /** "YYYY-MM-DD", without what says that the year is BC. */
  function Core(date: Date): string
    requires Writable(date)
  {
    Padded(CalendarYear(date.y)) + ("-" + TwoDigits(date.m) + "-" + TwoDigits(date.d))
  }

  /** How a date is written. */
  function DateText(date: Date): string
    requires Writable(date)
  {
    Core(date) + (if date.y <= 0 then BC else "")
  }

  /** Two texts, spelled out: a leap day, and a day of the second year before
      Christ. */
  lemma KnownDates()
    ensures DateText(Date(2024, 2, 29)) == "2024-02-29"
    ensures DateText(Date(-1, 10, 3)) == "0002-10-03 BC"
  {
    hide Dec;
    DecStep(202, 4);
    DecStep(20, 2);
    DecStep(2, 0);
    assert Dec(2) == "2" by { OneDigit(2); }
    assert Core(Date(2024, 2, 29)) == "2024-02-29";
    assert Core(Date(-1, 10, 3)) == "0002-10-03";
  }

  // ---- Writing ----------------------------------------------------------

  lemma {:induction false} DecDigits(n: nat)
    requires n < 100000
    ensures |Dec(n)| == if n < 10 then 1 else if n < 100 then 2 else if n < 1000 then 3
                        else if n < 10000 then 4 else 5
  {
    if n >= 10 {
      DecDigits(n / 10);
    }
  }

  lemma PaddedDigits(n: nat)
    ensures AllDigits(Padded(n)) && 4 <= |Padded(n)|
    ensures n < 100000 ==> |Padded(n)| <= 5
  {
    hide Dec;
    if n < 100000 {
      DecDigits(n);
    } else {
      DecDigits(99999);
      DecLengthGrows(99999, n);
    }
  }

  /** The lowest year has a text of its own in the source; it is no exception. */
  lemma OldestYear()
    ensures Padded(CalendarYear(YEAR_MIN)) == "32768"
  {
    hide Dec;
    LowestShort();
  }

  /** The zeros that come first. */
  function Zeros(n: nat): string {
    if n < 10 then "000" else if n < 100 then "00" else if n < 1000 then "0" else ""
  }

  method ZerosIntoBuf(buf: array<char>, begin: nat, n: nat) returns (here: nat)
    requires begin + 3 <= buf.Length
    modifies buf
    ensures here == begin + |Zeros(n)| && buf[..here] == old(buf[..begin]) + Zeros(n)
  {
    here := begin;
    if n < 1000 {
      buf[here] := '0';
      here := here + 1;
      if n < 100 {
        buf[here] := '0';
        here := here + 1;
      }
      if n < 10 {
        buf[here] := '0';
        here := here + 1;
      }
    }
  }

  /** Writes the year without its sign.  The number is written as a short, into a
      span that would hold any int. */
  method YearIntoBuf(buf: array<char>, begin: nat, y: int) returns (here: nat)
    requires YEAR_MIN <= y <= YEAR_MAX && begin + 3 + SizeBuffer(INT) <= buf.Length
    modifies buf
    ensures begin <= here <= begin + 5 && buf[..here] == old(buf[..begin]) + Padded(CalendarYear(y))
  {
    hide Dec, SizeBuffer, Padded, Zeros;
    PaddedDigits(CalendarYear(y));
    Spans();
    ghost var before := buf[..begin];
    if y == YEAR_MIN {
      OldestYear();
      CopyInto(buf, begin, "32768");
      return begin + 5;
    }
    var absy := (if y >= 0 then y else -y) + (if y <= 0 then 1 else 0);
    PaddedIsZeros(absy, before);
    here := ZerosIntoBuf(buf, begin, absy);
    var r := IntoBuf(SHORT, buf, here, here + SizeBuffer(INT), absy);
    here := here + r.value;
  }

  lemma PaddedIsZeros(n: nat, before: string)
    ensures before + Zeros(n) + Dec(n) == before + Padded(n)
    ensures |Zeros(n)| <= 3
  {
    hide Dec;
  }

  lemma Spans()
    ensures SizeBuffer(INT) == 11 && SizeBuffer(SHORT) == 6
  {
    hide Dec;
    DecDigits(0x8000);
    assert |Dec(0x8000_0000)| == 5 + |Dec(21474)| by {
      DecStep(21474, 8);
      DecStep(214748, 3);
      DecStep(2147483, 6);
      DecStep(21474836, 4);
      DecStep(214748364, 8);
    }
    DecDigits(21474);
  }

  /** How a month is written, be it one or not. */
  function MonthText(m: int): string
    requires m >= 0
  {
    [if m >= 10 then '1' else '0', NumberToDigit(m % 10)]
  }

  /** Beyond 19 that is not the month's number any more. */
  lemma MonthTextRight(m: int)
    requires 0 <= m <= 99
    ensures MonthText(m) == TwoDigits(m) <==> m <= 19
  {
    assert DigitToNumber(TwoDigits(m)[0]) == m / 10;
    assert DigitToNumber('1') == 1 && DigitToNumber('0') == 0;
  }

  method MonthIntoBuf(buf: array<char>, begin: nat, m: int) returns (here: nat)
    requires 0 <= m && begin + 2 <= buf.Length
    modifies buf
    ensures here == begin + 2 && buf[..here] == old(buf[..begin]) + MonthText(m)
  {
    if m >= 10 {
      buf[begin] := '1';
    } else {
      buf[begin] := '0';
    }
    here := begin + 1;
    buf[here] := NumberToDigit(m % 10);
    here := here + 1;
  }

  method DayIntoBuf(buf: array<char>, begin: nat, d: int) returns (here: nat)
    requires 0 <= d <= 99 && begin + 2 <= buf.Length
    modifies buf
    ensures here == begin + 2 && buf[..here] == old(buf[..begin]) + TwoDigits(d)
  {
    buf[begin] := NumberToDigit(d / 10);
    buf[begin + 1] := NumberToDigit(d % 10);
    here := begin + 2;
  }

  const SIZE_BUFFER := 5 + 1 + 2 + 1 + 2 + |BC| + 1

  /** What is written for a date whose month need not exist. */
  function Written(date: Date): string
    requires date.m >= 0 && 0 <= date.d <= 99
  {
    Padded(CalendarYear(date.y)) + ("-" + MonthText(date.m) + "-" + TwoDigits(date.d))
    + (if date.y <= 0 then BC else "")
  }

  /** It is the date's text for every month up to 19. */
  lemma WrittenRight(date: Date)
    requires Writable(date) && date.m <= 19
    ensures Written(date) == DateText(date)
  {
    hide Padded, CalendarYear;
    MonthTextRight(date.m);
  }

  /** Writes a date at the start of the buffer; says how long its text is. */
  method ToBuf(buf: array<char>, date: Date) returns (r: Result<nat, ConversionError>)
    requires YEAR_MIN <= date.y <= YEAR_MAX && 0 <= date.m && 0 <= date.d <= 99
    modifies buf
    ensures buf.Length < 15 ==> r == Failure(Overrun) && buf[..] == old(buf[..])
    ensures buf.Length >= 15 ==>
              r.Success? && r.value <= buf.Length && buf[..r.value] == Written(date)
  {
    hide Padded, CalendarYear, TwoDigits, MonthText, SizeBuffer;
    if buf.Length < SIZE_BUFFER {
      return Failure(Overrun);
    }
    Spans();
    var here := YearIntoBuf(buf, 0, date.y);
    ghost var year := buf[..here];
    CopyInto(buf, here, "-");
    here := MonthIntoBuf(buf, here + 1, date.m);
    CopyInto(buf, here, "-");
    here := DayIntoBuf(buf, here + 1, date.d);
    assert buf[..here] == year + ("-" + MonthText(date.m) + "-" + TwoDigits(date.d));
    if date.y <= 0 {
      CopyInto(buf, here, BC);
      here := here + |BC|;
    }
    r := Success(here);
  }

  // ---- Reading ----------------------------------------------------------

  datatype DateError =
    | Malformed
    | YearTooSmall
    | YearText(error: ConversionError)
    | BadYear
    | BadMonth
    | BadDay

  /** Where the first dash is; the end of the text if there is none. */
  function Separator(s: string, i: nat): (j: nat)
    requires i <= |s|
    ensures i <= j <= |s|
    decreases |s| - i
  {
    if i < |s| && s[i] != '-' then Separator(s, i + 1) else i
  }

  method FindYearMonthSeparator(s: string) returns (here: nat)
    ensures here == Separator(s, 0)
    ensures here <= |s| && '-' !in s[..here] && (here < |s| ==> s[here] == '-')
  {
    here := 0;
    while here < |s| && s[here] != '-'
      invariant here <= |s| && '-' !in s[..here]
      invariant Separator(s, here) == Separator(s, 0)
    {
      here := here + 1;
    }
  }

  function YearFromText(s: string): Result<int, DateError> {
    if |s| < 4 then Failure(YearTooSmall)
    else
      match Parse(INT, s)
      case Failure(e) => Failure(YearText(e))
      case Success(year) => if year <= 0 then Failure(BadYear) else Success(year)
  }

  function PairFromText(s: string, error: DateError): Result<int, DateError>
    requires |s| == 2
  {
    if IsDigit(s[0]) && IsDigit(s[1])
    then Success(10 * DigitToNumber(s[0]) + DigitToNumber(s[1]))
    else Failure(error)
  }

  predicate EndsWith(s: string, suffix: string) {
    |s| >= |suffix| && s[|s| - |suffix|..] == suffix
  }

  /** What a text means as a date.  `narrow` is how std::chrono::year keeps an int,
      which the C++ standard leaves open outside of its range. */
  function ParseDate(narrow: int -> int, text: string): Result<Date, DateError> {
    if |text| < 9 then Failure(Malformed)
    else
      var bc := EndsWith(text, BC);
      var s := if bc then text[..|text| - |BC|] else text;
      ParseCore(narrow, s, bc)
  }

  function ParseCore(narrow: int -> int, s: string, bc: bool): Result<Date, DateError> {
    var sep := Separator(s, 0);
    if |s| - sep != 6 then Failure(Malformed)
    else
      var baseYear :- YearFromText(s[..sep]);
      var y := narrow(if bc then -baseYear + 1 else baseYear);
      var m :- PairFromText(s[sep + 1..sep + 3], BadMonth);
      if s[sep + 3] != '-' then Failure(Malformed)
      else
        var d :- PairFromText(s[sep + 4..sep + 6], BadDay);
        if !(1 <= d <= 31) then Failure(BadDay)
        else if Exists(Date(y, m, d)) then Success(Date(y, m, d)) else Failure(Malformed)
  }

  // ---- Round trip -------------------------------------------------------

  ghost predicate Keeps(narrow: int -> int) {
    forall y :: YEAR_MIN <= y <= YEAR_MAX ==> narrow(y) == y
  }

  lemma {:induction false} LeadingZero(s: string)
    requires AllDigits(s)
    ensures AllDigits("0" + s) && Value("0" + s) == Value(s)
  {
    var z := "0" + s;
    if s == "" {
      assert z[..0] == "";
    } else {
      var init := s[..|s| - 1];
      LeadingZero(init);
      assert z[..|z| - 1] == "0" + init;
    }
  }

  lemma PaddedValue(n: nat)
    ensures AllDigits(Padded(n)) && Value(Padded(n)) == n
  {
    hide Dec, Value;
    PaddedDigits(n);
    DecValue(n);
    var s := Dec(n);
    LeadingZero(s);
    LeadingZero("0" + s);
    LeadingZero("0" + ("0" + s));
    assert "00" + s == "0" + ("0" + s);
    assert "000" + s == "0" + ("0" + ("0" + s));
  }

  lemma YearReads(n: nat)
    requires 1 <= n <= INT.top
    ensures YearFromText(Padded(n)) == Success(n)
  {
    hide Padded, Value, Parse;
    PaddedDigits(n);
    PaddedValue(n);
    ParsesNumerals(INT, "", Numeral(false, Padded(n)));
    assert "" + Padded(n) == Padded(n);
  }

  lemma PairReads(n: int, error: DateError)
    requires 0 <= n <= 99
    ensures PairFromText(TwoDigits(n), error) == Success(n)
  {
  }

  lemma {:induction false} SeparatorAfterDigits(digits: string, rest: string, i: nat)
    requires AllDigits(digits) && i <= |digits|
    ensures Separator(digits + ("-" + rest), i) == |digits|
    decreases |digits| - i
  {
    if i < |digits| {
      assert (digits + ("-" + rest))[i] == digits[i];
      SeparatorAfterDigits(digits, rest, i + 1);
    }
  }

  lemma CoreParts(date: Date)
    requires Writable(date)
    ensures var s, year := Core(date), Padded(CalendarYear(date.y));
            && |s| == |year| + 6
            && Separator(s, 0) == |year| && s[..|year|] == year
            && s[|year| + 1..|year| + 3] == TwoDigits(date.m)
            && s[|year| + 3] == '-'
            && s[|year| + 4..|year| + 6] == TwoDigits(date.d)
  {
    hide Padded, Separator;
    var year := Padded(CalendarYear(date.y));
    PaddedDigits(CalendarYear(date.y));
    var rest := TwoDigits(date.m) + "-" + TwoDigits(date.d);
    assert Core(date) == year + ("-" + rest);
    SeparatorAfterDigits(year, rest, 0);
  }

  lemma CoreReads(narrow: int -> int, date: Date)
    requires Writable(date)
    ensures var r, read := ParseCore(narrow, Core(date), date.y <= 0), date.(y := narrow(date.y));
            if Exists(read) then r == Success(read) else r.Failure?
  {
    hide Padded, TwoDigits, Separator, Core, YearFromText, PairFromText;
    CoreParts(date);
    YearReads(CalendarYear(date.y));
    PairReads(date.m, BadMonth);
    PairReads(date.d, BadDay);
  }

  lemma SuffixOnlyIfBC(date: Date)
    requires Writable(date)
    ensures EndsWith(DateText(date), " BC") <==> date.y <= 0
    ensures date.y <= 0 ==> DateText(date)[..|DateText(date)| - |BC|] == Core(date)
    ensures |DateText(date)| >= 10
  {
    hide Padded;
    var s := DateText(date);
    PaddedDigits(CalendarYear(date.y));
    if date.y > 0 {
      assert s == Core(date);
      assert s[|s| - 1] == TwoDigits(date.d)[1];
      assert s[|s| - 3..][2] == s[|s| - 1];
    } else {
      assert s[|s| - 3..] == BC;
    }
  }

  /** The text of any day, month and year is read as that, with the year as the
      library keeps it, or refused if there is no such date. */
  lemma ReadsDates(narrow: int -> int, date: Date)
    requires Writable(date)
    ensures var r, read := ParseDate(narrow, DateText(date)), date.(y := narrow(date.y));
            if Exists(read) then r == Success(read) else r.Failure?
  {
    hide ParseCore, Core, EndsWith, Exists;
    SuffixOnlyIfBC(date);
    CoreReads(narrow, date);
    assert date.y > 0 ==> DateText(date) == Core(date);
  }

  /** Exactly the dates that exist can be read back: every date of the calendar, in
      every year from 32768 BC to 32767 AD, and nothing else. */
  lemma DateRoundTrip(narrow: int -> int, date: Date)
    requires Keeps(narrow) && Writable(date)
    ensures ParseDate(narrow, DateText(date)) == Success(date) <==> Exists(date)
    ensures YEAR_MIN <= date.y <= YEAR_MAX && !Exists(date) ==> ParseDate(narrow, DateText(date)).Failure?
  {
    hide ParseDate, DateText, LastDay;
    ReadsDates(narrow, date);
  }

  /** Two's complement: how an int fits in a short. */
  function Wrap(y: int): int {
    (y + 0x8000) % 0x1_0000 - 0x8000
  }

  /** A year out of range need not be refused: where the library just truncates it,
      the first day of the year 65537 is read as that of the year 1. */
  lemma LateYearIsTakenForEarly()
    ensures Keeps(Wrap)
    ensures ParseDate(Wrap, DateText(Date(65537, 1, 1))) == Success(Date(1, 1, 1))
  {
    hide ParseDate, DateText;
    ReadsDates(Wrap, Date(65537, 1, 1));
  }

  /** Different dates have different texts. */
  lemma DateTextInjective(a: Date, b: Date)
    requires Exists(a) && Exists(b) && DateText(a) == DateText(b)
    ensures a == b
  {
    hide DateText, ParseDate;
    var narrow := (y: int) => y;
    DateRoundTrip(narrow, a);
    DateRoundTrip(narrow, b);
  }

  lemma PairIsTwoDigits(s: string, error: DateError)
    requires |s| == 2 && PairFromText(s, error).Success?
    ensures var n := PairFromText(s, error).value; 0 <= n <= 99 && s == TwoDigits(n)
  {
    var a, b := DigitToNumber(s[0]), DigitToNumber(s[1]);
    assert (10 * a + b) / 10 == a && (10 * a + b) % 10 == b;
    assert s == [NumberToDigit(a), NumberToDigit(b)];
  }

  lemma {:induction false} SeparatorIsDash(s: string, i: nat)
    requires i <= |s|
    ensures var j := Separator(s, i);
            '-' !in s[i..j] && (j < |s| ==> s[j] == '-')
    decreases |s| - i
  {
    if i < |s| && s[i] != '-' {
      SeparatorIsDash(s, i + 1);
      var j := Separator(s, i);
      assert s[i..j] == [s[i]] + s[i + 1..j];
    }
  }

  /** The text around the year. */
  function Rest(date: Date): string
    requires 0 <= date.m <= 99 && 0 <= date.d <= 99
  {
    "-" + TwoDigits(date.m) + "-" + TwoDigits(date.d)
  }

  lemma CoreIsDate(narrow: int -> int, s: string, bc: bool) returns (year: string, n: int)
    requires ParseCore(narrow, s, bc).Success?
    ensures var date := ParseCore(narrow, s, bc).value;
            && Exists(date) && s == year + Rest(date) && '-' !in year && |year| >= 4
            && Parse(INT, year) == Success(n) && n >= 1 && date.y == narrow(if bc then 1 - n else n)
  {
    hide Separator, Parse, PairFromText;
    var sep := Separator(s, 0);
    SeparatorIsDash(s, 0);
    year := s[..sep];
    assert year == s[0..sep];
    n := YearFromText(year).value;
    PairIsTwoDigits(s[sep + 1..sep + 3], BadMonth);
    PairIsTwoDigits(s[sep + 4..sep + 6], BadDay);
    assert s == year + ([s[sep]] + s[sep + 1..sep + 3] + [s[sep + 3]] + s[sep + 4..sep + 6]);
  }

  /** Nothing else is read as a date: a text that is, is a year of at least four
      characters that reads as a positive int, the month and the day of the date that
      it is read as, in two digits each, and "BC" or not; and that date exists.  Of the
      canonical text it can differ only in how the year is written. */
  lemma ParsesOnlyDates(narrow: int -> int, text: string) returns (year: string, n: int, bc: bool)
    requires ParseDate(narrow, text).Success?
    ensures var date := ParseDate(narrow, text).value;
            && Exists(date) && text == year + Rest(date) + (if bc then BC else "")
            && '-' !in year && |year| >= 4
            && Parse(INT, year) == Success(n) && n >= 1 && date.y == narrow(if bc then 1 - n else n)
  {
    hide ParseCore, Rest, Exists, Parse;
    bc := EndsWith(text, BC);
    var s := if bc then text[..|text| - |BC|] else text;
    year, n := CoreIsDate(narrow, s, bc);
    if bc {
      assert text == s + text[|text| - |BC|..];
    } else {
      assert text == s + "";
    }
  }
}
