/** Years and ISO dates as Python writes them. */
module CalendarText {
  import opened Outcome

  function Digit(n: nat): char
    requires n < 10
  {
    "0123456789"[n]
  }

  predicate IsDigit(c: char) { '0' <= c <= '9' }

  function DigitValue(c: char): nat
    requires IsDigit(c)
  {
    c as nat - '0' as nat
  }

  lemma DigitsRoundTrip(n: nat)
    requires n < 10
    ensures IsDigit(Digit(n)) && DigitValue(Digit(n)) == n
  {
  }

  lemma DigitTextRoundTrip(c: char)
    requires IsDigit(c)
    ensures DigitValue(c) < 10 && Digit(DigitValue(c)) == c
  {
    var n := DigitValue(c);
    assert c == '0' + n as char;
  }

  /** Four digits, or the two digits, of a number. */
  function FourDigits(n: nat): string
    requires n < 10_000
  {
    [Digit(n / 1000), Digit(n / 100 % 10), Digit(n / 10 % 10), Digit(n % 10)]
  }

  function TwoDigits(n: nat): string
    requires n < 100
  {
    [Digit(n / 10), Digit(n % 10)]
  }

  predicate AllDigits(text: string) { forall i :: 0 <= i < |text| ==> IsDigit(text[i]) }

  function TwoDigitValue(text: string): (n: nat)
    requires |text| == 2 && AllDigits(text)
    ensures n < 100
  {
    DigitValue(text[0]) * 10 + DigitValue(text[1])
  }

  function FourDigitValue(text: string): (n: nat)
    requires |text| == 4 && AllDigits(text)
    ensures n < 10_000
  {
    DigitValue(text[0]) * 1000 + DigitValue(text[1]) * 100 + DigitValue(text[2]) * 10 + DigitValue(text[3])
  }

  lemma TwoDigitsApart(a: nat, b: nat)
    requires a < 10 && b < 10
    ensures (a * 10 + b) / 10 == a && (a * 10 + b) % 10 == b
  {
  }

  lemma FourDigitsApart(a: nat, b: nat, c: nat, d: nat)
    requires a < 10 && b < 10 && c < 10 && d < 10
    ensures var n := a * 1000 + b * 100 + c * 10 + d;
            n / 1000 == a && n / 100 % 10 == b && n / 10 % 10 == c && n % 10 == d
  {
    var n := a * 1000 + b * 100 + c * 10 + d;
    assert n / 100 == a * 10 + b && n / 10 == a * 100 + b * 10 + c;
  }

  lemma DigitsOfPair(a: char, b: char)
    requires IsDigit(a) && IsDigit(b)
    ensures var n := DigitValue(a) * 10 + DigitValue(b);
            n < 100 && Digit(n / 10) == a && Digit(n % 10) == b
  {
    TwoDigitsApart(DigitValue(a), DigitValue(b));
    DigitTextRoundTrip(a);
    DigitTextRoundTrip(b);
  }

  lemma TwoDigitsOfValue(text: string)
    requires |text| == 2 && AllDigits(text)
    ensures TwoDigits(TwoDigitValue(text)) == text
  {
    DigitsOfPair(text[0], text[1]);
  }

  lemma FourDigitsOfValue(text: string)
    requires |text| == 4 && AllDigits(text)
    ensures FourDigits(FourDigitValue(text)) == text
  {
    FourDigitsApart(DigitValue(text[0]), DigitValue(text[1]), DigitValue(text[2]), DigitValue(text[3]));
    DigitTextRoundTrip(text[0]);
    DigitTextRoundTrip(text[1]);
    DigitTextRoundTrip(text[2]);
    DigitTextRoundTrip(text[3]);
  }

  lemma ValueOfDigits(a: nat, b: nat, c: nat, d: nat)
    requires a < 10 && b < 10 && c < 10 && d < 10
    ensures AllDigits([Digit(a), Digit(b), Digit(c), Digit(d)])
    ensures FourDigitValue([Digit(a), Digit(b), Digit(c), Digit(d)]) == a * 1000 + b * 100 + c * 10 + d
  {
    DigitsRoundTrip(a);
    DigitsRoundTrip(b);
    DigitsRoundTrip(c);
    DigitsRoundTrip(d);
  }

  lemma DigitsAddUp(n: nat)
    requires n < 10_000
    ensures n == n / 1000 * 1000 + n / 100 % 10 * 100 + n / 10 % 10 * 10 + n % 10
  {
    var a := n / 1000;
    var b := (n - 1000 * a) / 100;
    var c := (n - 1000 * a - 100 * b) / 10;
    FourDigitsApart(a, b, c, n - 1000 * a - 100 * b - 10 * c);
  }

  lemma ValueOfFourDigits(n: nat)
    requires n < 10_000
    ensures AllDigits(FourDigits(n)) && FourDigitValue(FourDigits(n)) == n
  {
    DigitsAddUp(n);
    ValueOfDigits(n / 1000, n / 100 % 10, n / 10 % 10, n % 10);
  }

  // ---- ISO dates ----

  datatype Date = Date(year: nat, month: nat, day: nat)

  predicate IsLeap(year: nat) { year % 4 == 0 && (year % 100 != 0 || year % 400 == 0) }

  function DaysIn(year: nat, month: nat): nat {
    if month == 2 then (if IsLeap(year) then 29 else 28)
    else if month == 4 || month == 6 || month == 9 || month == 11 then 30
    else 31
  }

  predicate OnCalendar(date: Date) {
    1 <= date.year <= 9999 && 1 <= date.month <= 12 && 1 <= date.day <= DaysIn(date.year, date.month)
  }

  function IsoFormat(date: Date): string
    requires OnCalendar(date)
  {
    FourDigits(date.year) + "-" + TwoDigits(date.month) + "-" + TwoDigits(date.day)
  }

  /** The date that text writes as YYYY-MM-DD, if it writes one. */
  function FromIso(text: string): (date: Option<Date>)
    ensures date.Some? ==> OnCalendar(date.value)
  {
    if |text| != 10 || text[4] != '-' || text[7] != '-' then None
    else if !AllDigits(text[..4]) || !AllDigits(text[5..7]) || !AllDigits(text[8..]) then None
    else
      var date := Date(FourDigitValue(text[..4]), TwoDigitValue(text[5..7]), TwoDigitValue(text[8..]));
      if OnCalendar(date) then Some(date) else None
  }

  /** There are 97 leap years in 400: one in four, but for three of four centuries. */
  function LeapsBefore(year: nat): nat { if year == 0 then 0 else LeapsBefore(year - 1) + if IsLeap(year) then 1 else 0 }

  lemma {:induction false} LeapYearsAre(year: nat)
    ensures LeapsBefore(year) == year / 4 - year / 100 + year / 400
  {
    if year > 0 {
      LeapYearsAre(year - 1);
      NextMultiples(year);
      Hundreds(year);
    }
  }

  lemma NextMultiples(n: nat)
    requires n > 0
    ensures n / 4 == (n - 1) / 4 + if n % 4 == 0 then 1 else 0
    ensures n / 100 == (n - 1) / 100 + if n % 100 == 0 then 1 else 0
    ensures n / 400 == (n - 1) / 400 + if n % 400 == 0 then 1 else 0
  {
  }

  lemma Hundreds(n: nat)
    ensures n % 100 == 0 ==> n % 4 == 0
    ensures n % 400 == 0 ==> n % 100 == 0
  {
    if n % 100 == 0 { Multiple(n / 100); }
    if n % 400 == 0 { Multiple(n / 400); }
  }

  lemma Multiple(k: nat)
    ensures 100 * k % 4 == 0 && 400 * k % 100 == 0
  {
    var a, b := 25 * k, 4 * k;
    assert 100 * k == 4 * a && 4 * a % 4 == 0;
    assert 400 * k == 100 * b && 100 * b % 100 == 0;
  }

  /** The days of the year before a month, by the usual formula. */
  function DaysBefore(year: nat, month: nat): int
    requires 1 <= month <= 13
  {
    (367 * month - 362) / 12 - (if month <= 2 then 0 else if IsLeap(year) then 1 else 2)
  }

  /** Each month is as long as the formula says, and a year has 365 days, or 366. */
  lemma MonthsAre(year: nat, month: nat)
    requires 1 <= month <= 12
    ensures DaysIn(year, month) == DaysBefore(year, month + 1) - DaysBefore(year, month)
    ensures DaysBefore(year, 13) == if IsLeap(year) then 366 else 365
  {
    MonthIs(year, month);
  }

  lemma MonthIs(year: nat, month: nat)
    requires 1 <= month <= 12
    ensures DaysIn(year, month) == DaysBefore(year, month + 1) - DaysBefore(year, month)
  {
    assert month == 1 || month == 2 || month == 3 || month == 4 || month == 5 || month == 6
           || month == 7 || month == 8 || month == 9 || month == 10 || month == 11 || month == 12;
  }

  lemma TwoDigitsText(n: nat)
    requires n < 100
    ensures AllDigits(TwoDigits(n)) && TwoDigitValue(TwoDigits(n)) == n
  {
    DigitsRoundTrip(n / 10);
    DigitsRoundTrip(n % 10);
  }

  /** Every date of the calendar is read back from how it is written. */
  lemma DateRoundTrip(date: Date)
    requires OnCalendar(date)
    ensures FromIso(IsoFormat(date)) == Some(date)
  {
    var text := IsoFormat(date);
    ValueOfFourDigits(date.year);
    TwoDigitsText(date.month);
    TwoDigitsText(date.day);
    assert text[..4] == FourDigits(date.year) && text[5..7] == TwoDigits(date.month) && text[8..] == TwoDigits(date.day);
  }

  /** Text that is accepted as a date is exactly how that date is written. */
  lemma IsoRoundTrip(text: string)
    ensures FromIso(text).Some? ==> IsoFormat(FromIso(text).value) == text
  {
    if FromIso(text).Some? {
      FourDigitsOfValue(text[..4]);
      TwoDigitsOfValue(text[5..7]);
      TwoDigitsOfValue(text[8..]);
      assert text == text[..4] + "-" + text[5..7] + "-" + text[8..];
    }
  }
}
