/** Certifying a worker's economy result: its SPM receipts must match the request. */
module WorkerCertification {
  import opened Outcome
  import opened CalendarText
  import opened SpmSelection
  import Text

  // ---- The years a window expands to ----

  const BUDGET_WINDOW_MAX_YEARS := 75
  const BUDGET_WINDOW_MAX_END_YEAR := 2099

  function NatText(n: nat): (text: string)
    ensures text != "" && (n < 10 ==> |text| == 1)
  {
    if n < 10 then [Digit(n)] else NatText(n / 10) + [Digit(n % 10)]
  }

  /** Python's `str` of an integer. */
  function IntText(n: int): string { if n < 0 then "-" + NatText(-n) else NatText(n) }

  function WindowYears(startYear: int, windowSize: nat): (years: seq<string>)
    ensures |years| == windowSize
  {
    seq(windowSize, i => IntText(startYear + i))
  }

  datatype WindowSetup = WindowSetup(startYear: string, windowSize: nat, years: seq<string>, timePeriod: string)

  function WindowPeriod(startYear: int, windowSize: int): string {
    "budget_window:" + (IntText(startYear) + ":" + IntText(windowSize))
  }

  function BuildWindowSetup(startYear: int, windowSize: int, target: string): (r: Result<WindowSetup>)
    ensures r.Ok? <==> target == "general" && 1 <= windowSize <= 75 && startYear + windowSize - 1 <= 2099
    ensures r.Ok? ==>
              && r.value.startYear == IntText(startYear) && r.value.windowSize == windowSize == |r.value.years|
              && (forall i :: 0 <= i < windowSize ==> r.value.years[i] == IntText(startYear + i))
              && r.value.timePeriod == WindowPeriod(startYear, windowSize)
  {
    if target != "general" then Err("Budget-window calculations only support target='general'")
    else if !(1 <= windowSize <= BUDGET_WINDOW_MAX_YEARS) then Err("window_size must be between 1 and 75")
    else if startYear + windowSize - 1 > BUDGET_WINDOW_MAX_END_YEAR then
      Err("budget-window end_year must be 2099 or earlier")
    else
      Ok(WindowSetup(IntText(startYear), windowSize, WindowYears(startYear, windowSize),
                     WindowPeriod(startYear, windowSize)))
  }

  lemma ShortNumber(n: nat)
    requires n < 1000
    ensures |NatText(n)| <= 3
  {
    if n >= 100 { assert |NatText(n / 10 / 10)| == 1; }
  }

  lemma LongNumber(n: nat)
    requires n >= 10_000
    ensures |NatText(n)| >= 5
  {
    assert |NatText(n / 10)| == |NatText(n / 10 / 10)| + 1;
    assert |NatText(n / 10 / 10)| == |NatText(n / 10 / 10 / 10)| + 1;
    assert |NatText(n / 10 / 10 / 10)| == |NatText(n / 10 / 10 / 10 / 10)| + 1;
  }

  lemma FourDigitNumber(n: nat)
    requires 1000 <= n < 10_000
    ensures NatText(n) == FourDigits(n)
  {
    assert n / 10 / 10 == n / 100 && n / 10 / 10 / 10 == n / 1000;
    assert NatText(n / 1000) == [Digit(n / 1000)];
    assert NatText(n / 100) == [Digit(n / 1000), Digit(n / 100 % 10)];
    assert NatText(n / 10) == [Digit(n / 1000), Digit(n / 100 % 10), Digit(n / 10 % 10)];
  }

  /** An integer reads as a calendar year exactly if it has four digits. */
  lemma CalendarYearText(n: int)
    ensures IsCalendarYear(IntText(n)) <==> 1000 <= n < 10_000
    ensures 1000 <= n < 10_000 ==> FourDigitValue(IntText(n)) == n
  {
    if n < 0 {
      assert IntText(n)[0] == '-';
    } else if n < 1000 {
      ShortNumber(n);
    } else if n < 10_000 {
      FourDigitNumber(n);
      ValueOfFourDigits(n);
    } else {
      LongNumber(n);
    }
  }

  /** A number's text is all digits, and no other number's. */
  lemma {:induction false} NatTextDigits(n: nat)
    ensures AllDigits(NatText(n))
  {
    DigitsRoundTrip(n % 10);
    if n >= 10 { NatTextDigits(n / 10); }
  }

  lemma {:induction false} NatTextIsInjective(a: nat, b: nat)
    requires NatText(a) == NatText(b)
    ensures a == b
  {
    DigitsRoundTrip(a % 10);
    DigitsRoundTrip(b % 10);
    if a >= 10 && b >= 10 {
      assert NatText(a / 10) == NatText(a)[..|NatText(a)| - 1] == NatText(b)[..|NatText(b)| - 1] == NatText(b / 10);
      NatTextIsInjective(a / 10, b / 10);
    }
  }

  lemma SignFirst(n: int)
    ensures |IntText(n)| >= 1 && (IntText(n)[0] == '-' <==> n < 0)
  {
    if n >= 0 { NatTextDigits(n); }
  }

  lemma IntTextIsInjective(a: int, b: int)
    requires IntText(a) == IntText(b)
    ensures a == b
  {
    SignFirst(a);
    SignFirst(b);
    if a < 0 {
      AfterPrefix("-", NatText(-a), NatText(-b));
      NatTextIsInjective(-a, -b);
    } else {
      NatTextIsInjective(a, b);
    }
  }

  lemma IntTextHasNoColon(n: int)
    ensures ':' !in IntText(n)
  {
    NatTextDigits(if n < 0 then -n else n);
  }

  /** A window's period tells its first year and its size. */
  lemma PeriodNamesWindow(startYear: int, windowSize: int, otherStart: int, otherSize: int)
    requires BuildWindowSetup(startYear, windowSize, "general").Ok? && BuildWindowSetup(otherStart, otherSize, "general").Ok?
    ensures BuildWindowSetup(startYear, windowSize, "general").value.timePeriod
            == BuildWindowSetup(otherStart, otherSize, "general").value.timePeriod
       <==> startYear == otherStart && windowSize == otherSize
  {
    var a, b := WindowPeriod(startYear, windowSize), WindowPeriod(otherStart, otherSize);
    if a == b {
      AfterPrefix("budget_window:", IntText(startYear) + ":" + IntText(windowSize), IntText(otherStart) + ":" + IntText(otherSize));
      IntTextHasNoColon(startYear);
      IntTextHasNoColon(otherStart);
      Text.SplitsOnce(':', IntText(startYear), IntText(windowSize), IntText(otherStart), IntText(otherSize));
      IntTextIsInjective(startYear, otherStart);
      IntTextIsInjective(windowSize, otherSize);
    }
  }

  lemma AfterPrefix(prefix: string, a: string, b: string)
    requires prefix + a == prefix + b
    ensures a == b
  {
    assert a == (prefix + a)[|prefix|..] && b == (prefix + b)[|prefix|..];
  }

  // ---- Results ----

  datatype Execution = Execution(receipt: Provenance, executionCount: int)

  datatype Comparison = Comparison(baseline: Execution, reform: Execution)

  /** A worker's result, as far as certification reads it. A field that is missing or of
      another type is None; `year` is the field as `str` renders it. */
  datatype WorkerResult =
    | NotAnObject
    | Object(kind: Option<string>, windowSize: Option<int>, rows: Rows, year: Option<string>, hasLegacyConfig: bool,
             provenance: Option<Comparison>)

  datatype Rows = NoList | List(value: seq<WorkerResult>)

  predicate IsBudgetWindow(result: WorkerResult) { result.Object? && result.kind == Some("budgetWindow") }

  /** The comparison model: valid receipts, the same for both sides. */
  predicate ComparisonValid(c: Comparison) {
    && ReceiptValid(c.baseline.receipt) && c.baseline.executionCount >= 1
    && ReceiptValid(c.reform.receipt) && c.reform.executionCount >= 1
    && c.baseline.receipt == c.reform.receipt
  }

  function YearText(year: Option<string>): string { if year.Some? then year.value else "None" }

  function RowYears(rows: seq<WorkerResult>): (years: seq<string>)
    requires forall i :: 0 <= i < |rows| ==> rows[i].Object?
    ensures |years| == |rows|
  {
    seq(|rows|, i requires 0 <= i < |rows| => YearText(rows[i].year))
  }

  predicate Distinct(years: seq<string>) { forall i, j :: 0 <= i < j < |years| ==> years[i] != years[j] }

  /** Whether certification passes: each `false` is an exception. */
  predicate Certifies(result: WorkerResult, selection: Option<Values>, expectedYear: Option<string>,
                      expectedYears: Option<seq<string>>)
    decreases result
  {
    selection.Some? ==>
      && result.Object?
      && if IsBudgetWindow(result) then
           && expectedYear.None?
           && RowsComplete(result)
           && WindowYearsMatch(RowYears(result.rows.value), expectedYears)
           && forall i :: 0 <= i < |result.rows.value| ==>
                Certifies(result.rows.value[i], selection, result.rows.value[i].year, None)
         else expectedYears.None? && ReceiptsMatch(result, selection.value, expectedYear)
  }

  predicate RowsComplete(result: WorkerResult) {
    && result.Object?
    && result.windowSize.Some? && result.windowSize.value >= 1
    && result.rows.List?
    && (forall i :: 0 <= i < |result.rows.value| ==> result.rows.value[i].Object?)
    && |result.rows.value| == result.windowSize.value
  }

  predicate WindowYearsMatch(actual: seq<string>, expectedYears: Option<seq<string>>) {
    && (forall i :: 0 <= i < |actual| ==> IsCalendarYear(actual[i]))
    && Distinct(actual)
    && (expectedYears.Some? ==> actual == expectedYears.value)
  }

  predicate ReceiptMatches(receipt: Provenance, selection: Values, expectedYear: Option<string>) {
    && ReceiptValid(receipt)
    && ResolvedConfiguration(receipt) == selection
    && (expectedYear.Some? ==> expectedYear.value in receipt.years)
  }

  predicate ReceiptsMatch(result: WorkerResult, selection: Values, expectedYear: Option<string>) {
    && result.Object? && !result.hasLegacyConfig
    && result.provenance.Some? && ComparisonValid(result.provenance.value)
    && ReceiptMatches(result.provenance.value.baseline.receipt, selection, expectedYear)
    && ReceiptMatches(result.provenance.value.reform.receipt, selection, expectedYear)
  }

  /** An annual result, not itself a window, whose two receipts resolve to the selection and cover this year. */
  predicate AnnualResult(row: WorkerResult, selection: Values, year: string) {
    row.Object? && !IsBudgetWindow(row) && YearText(row.year) == year && ReceiptsMatch(row, selection, Some(year))
  }

  lemma RowCertifies(row: WorkerResult, selection: Values)
    requires row.Object? && IsCalendarYear(YearText(row.year))
    ensures Certifies(row, Some(selection), row.year, None) <==> AnnualResult(row, selection, YearText(row.year))
  {
    assert "None"[0] == 'N';
  }

  /** Certification of a window is exact: with a selection and requested years, a result is
      accepted exactly when it calls itself a window and has as many rows as its window size, at least
      one, the requested years are distinct and of four digits, and the row for each of them in
      turn is an annual result certified for that year. */
  lemma WindowCertificationIsExact(result: WorkerResult, selection: Values, years: seq<string>)
    ensures Certifies(result, Some(selection), None, Some(years))
       <==> && IsBudgetWindow(result)
            && result.windowSize == Some(|years|) && |years| >= 1
            && result.rows.List? && |result.rows.value| == |years|
            && (forall i :: 0 <= i < |years| ==> IsCalendarYear(years[i])) && Distinct(years)
            && forall i :: 0 <= i < |years| ==> AnnualResult(result.rows.value[i], selection, years[i])
  {
    if IsBudgetWindow(result) {
      if RowsComplete(result) && RowYears(result.rows.value) == years {
        forall i | 0 <= i < |years| && IsCalendarYear(years[i])
          ensures Certifies(result.rows.value[i], Some(selection), result.rows.value[i].year, None)
             <==> AnnualResult(result.rows.value[i], selection, years[i])
        {
          assert RowYears(result.rows.value)[i] == years[i];
          RowCertifies(result.rows.value[i], selection);
        }
      }
      if result.rows.List? && |result.rows.value| == |years|
         && forall i :: 0 <= i < |years| ==> AnnualResult(result.rows.value[i], selection, years[i]) {
        assert RowYears(result.rows.value) == years;
      }
    }
  }

  /** For a window that the request setup accepts, the years are always distinct; they all have
      four digits exactly if the first year has. So no result of a window that starts before the
      year 1000 is ever certified, and for every other only the rows are at stake. */
  lemma RequestedWindowCertification(result: WorkerResult, selection: Values, startYear: int, windowSize: int)
    requires BuildWindowSetup(startYear, windowSize, "general").Ok?
    ensures var years := BuildWindowSetup(startYear, windowSize, "general").value.years;
            Certifies(result, Some(selection), None, Some(years))
            <==> && IsBudgetWindow(result) && startYear >= 1000 && result.windowSize == Some(windowSize)
                 && result.rows.List? && |result.rows.value| == windowSize
                 && forall i :: 0 <= i < windowSize ==> AnnualResult(result.rows.value[i], selection, years[i])
  {
    WindowCertificationIsExact(result, selection, WindowYears(startYear, windowSize));
    RequestedYears(startYear, windowSize);
  }

  lemma RequestedYears(startYear: int, windowSize: nat)
    requires windowSize >= 1 && startYear + windowSize - 1 <= BUDGET_WINDOW_MAX_END_YEAR
    ensures var years := WindowYears(startYear, windowSize);
            (forall i :: 0 <= i < |years| ==> IsCalendarYear(years[i])) && Distinct(years) <==> startYear >= 1000
  {
    var years := WindowYears(startYear, windowSize);
    forall i | 0 <= i < windowSize
      ensures IsCalendarYear(years[i]) <==> startYear + i >= 1000
      ensures startYear + i >= 1000 ==> FourDigitValue(years[i]) == startYear + i
    {
      CalendarYearText(startYear + i);
    }
    assert IsCalendarYear(years[0]) <==> startYear >= 1000;
  }

  // ---- What certification refuses ----

  /** Without a selection there is nothing to certify. */
  lemma NothingToCertify(result: WorkerResult, expectedYear: Option<string>, expectedYears: Option<seq<string>>)
    ensures Certifies(result, None, expectedYear, expectedYears)
  {
  }

  /** No defect of a result is overlooked: one that is no object, or a window when a year was asked
      for, or carries the legacy configuration, or lacks its receipts, or whose receipts are not
      valid, differ, count no execution, are of another selection or do not cover the year, is refused. */
  lemma DefectsAreRefused(result: WorkerResult, selection: Values, year: string)
    requires || result.NotAnObject? || result.kind == Some("budgetWindow")
             || result.hasLegacyConfig || result.provenance.None?
             || var c := result.provenance.value;
                || !ReceiptValid(c.baseline.receipt) || !ReceiptValid(c.reform.receipt)
                || c.baseline.receipt != c.reform.receipt
                || c.baseline.executionCount < 1 || c.reform.executionCount < 1
                || ResolvedConfiguration(c.baseline.receipt) != selection
                || year !in c.baseline.receipt.years
    ensures !Certifies(result, Some(selection), Some(year), None)
  {
  }

  /** Nor of a window: each row is a defect-free annual result for its own label. */
  lemma DefectiveRowsAreRefused(result: WorkerResult, selection: Values, years: seq<string>, i: nat)
    requires result.Object? && result.rows.List? && i < |result.rows.value| && i < |years|
    requires !Certifies(result.rows.value[i], Some(selection), Some(years[i]), None)
    ensures !Certifies(result, Some(selection), None, Some(years))
  {
    WindowCertificationIsExact(result, selection, years);
  }

  // ---- Receipts as a worker builds them ----

  /** An annual result over these years whose two receipts were built from this selection. */
  ghost predicate BuiltFrom(result: WorkerResult, selection: Values, years: seq<string>) {
    && result.Object? && !IsBudgetWindow(result) && !result.hasLegacyConfig && result.provenance.Some?
    && var c := result.provenance.value;
       && c.baseline.executionCount >= 1 && c.reform.executionCount >= 1
       && c.baseline.receipt == c.reform.receipt
       && exists forecastId, versions ::
            selection.forecastContentSha256.Some?
            && BuildProvenance(forecastId, selection.forecastContentSha256.value, selection, years, versions)
               == Ok(c.baseline.receipt)
  }

  lemma BuiltReceiptsMatch(result: WorkerResult, selection: Values, years: seq<string>, requested: Values, year: string)
    requires Valid(selection) && BuiltFrom(result, selection, years)
    ensures ReceiptsMatch(result, requested, Some(year)) <==> requested == selection && year in years
  {
    var forecastId, versions :|
      BuildProvenance(forecastId, selection.forecastContentSha256.value, selection, years, versions)
      == Ok(result.provenance.value.baseline.receipt);
    ReceiptRoundTrip(forecastId, selection.forecastContentSha256.value, selection, years, versions);
  }

  /** What a worker ran is what certification accepts: a result carrying receipts built from one
      selection over some years is certified for a request exactly if the request resolved to
      that very selection and asks for one of those years. */
  lemma BuiltResultsCertify(result: WorkerResult, selection: Values, years: seq<string>, requested: Values, year: string)
    requires Valid(selection) && BuiltFrom(result, selection, years)
    ensures Certifies(result, Some(requested), Some(year), None) <==> requested == selection && year in years
  {
    BuiltReceiptsMatch(result, selection, years, requested, year);
  }

  /** A window whose rows a worker built from one selection, row `i` over `covered[i]`. */
  ghost predicate WindowBuiltFrom(result: WorkerResult, selection: Values, covered: seq<seq<string>>) {
    && IsBudgetWindow(result) && result.rows.List? && |result.rows.value| == |covered|
    && forall i :: 0 <= i < |covered| ==> BuiltFrom(result.rows.value[i], selection, covered[i])
  }

  /** The same for a window: it is certified for a request exactly if the request resolved to that
      selection, its years are the rows' own labels, distinct and of four digits, the size is
      right, and each row covers its label. */
  lemma BuiltWindowsCertify(result: WorkerResult, selection: Values, covered: seq<seq<string>>, requested: Values,
                            years: seq<string>)
    requires Valid(selection) && WindowBuiltFrom(result, selection, covered) && |covered| >= 1
    ensures Certifies(result, Some(requested), None, Some(years))
       <==> && requested == selection && result.windowSize == Some(|covered|)
            && RowYears(result.rows.value) == years
            && (forall i :: 0 <= i < |years| ==> IsCalendarYear(years[i])) && Distinct(years)
            && forall i :: 0 <= i < |covered| ==> years[i] in covered[i]
  {
    WindowCertificationIsExact(result, requested, years);
    if |years| == |covered| {
      forall i | 0 <= i < |years|
        ensures AnnualResult(result.rows.value[i], requested, years[i])
           <==> requested == selection && RowYears(result.rows.value)[i] == years[i] && years[i] in covered[i]
      {
        assert BuiltFrom(result.rows.value[i], selection, covered[i]);
        BuiltReceiptsMatch(result.rows.value[i], selection, covered[i], requested, years[i]);
      }
      assert AnnualResult(result.rows.value[0], requested, years[0]) ==> requested == selection;
    }
  }
}
