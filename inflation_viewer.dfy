/** The inflation viewer page: checking the entered dates, clamping what is typed into the
    date fields, the selection of countries, and the requests a fetch would make. */
module InflationViewer {
  import opened Wrappers
  import opened Text
  import opened Calendar
  import opened Lists
  import opened MonthGrid

  // ---------------------------------------------------------------------------------------
  // Dates

  /** `new Date(year, month, 0).getDate()`: day 0 of month index `month` is the last day of the
      month before it, that is, of the calendar month `month` (counted from 1). */
  function LastDayOf(year: int, month: int): (r: int)
    ensures 1 <= month <= 12 ==> r == DaysInMonth(FullYear(year), month)
  {
    var first := FirstOfMonth(year, month - 1);
    DaysInMonth(first.year, first.month)
  }

  /** `isValidDate`: the month must lie in 1 to 12, the day must be at least 1 and at most the
      length of that month. */
  function IsValidDate(day: int, month: int, year: int): bool {
    if month < 1 || month > 12 then false
    else if day < 1 then false
    else day <= LastDayOf(year, month)
  }

  /** A date is valid exactly when its month is a month and its day lies within that month of
      the Gregorian calendar. */
  lemma ValidDateSpec(day: int, month: int, year: int)
    ensures IsValidDate(day, month, year)
        <==> 1 <= month <= 12 && 1 <= day <= DaysInMonth(FullYear(year), month)
  {
  }

  /** 29 February is valid exactly in leap years. */
  lemma LeapDayValid(year: int)
    ensures IsValidDate(29, 2, year) <==> IsLeapYear(FullYear(year))
  {
  }

  /** The 31st is valid exactly in the seven long months. */
  lemma ThirtyFirstValid(month: int, year: int)
    requires 1 <= month <= 12
    ensures IsValidDate(31, month, year) <==> month in {1, 3, 5, 7, 8, 10, 12}
  {
  }

  /** The first 28 days of every month are valid. */
  lemma EarlyDaysValid(day: int, month: int, year: int)
    requires 1 <= day <= 28 && 1 <= month <= 12
    ensures IsValidDate(day, month, year)
  {
  }

  // ---------------------------------------------------------------------------------------
  // Typing into the date fields

  /** `parseInt(text) || fallback`: a text that is not a number, or reads as 0, gives the
      fallback. */
  function OrFallback(parsed: Option<int>, fallback: int): (r: int)
    ensures parsed.Some? && parsed.value != 0 ==> r == parsed.value
    ensures parsed.None? || parsed.value == 0 ==> r == fallback
  {
    match parsed
    case Some(n) => if n != 0 then n else fallback
    case None => fallback
  }

  function Max(a: int, b: int): int { if a >= b then a else b }

  function Min(a: int, b: int): int { if a <= b then a else b }

  /** `Math.max(lo, Math.min(hi, parseInt(text) || fallback))`. */
  function ClampInput(text: string, lo: int, hi: int, fallback: int): (r: int)
    ensures r >= lo && (lo <= hi ==> r <= hi)
  {
    Max(lo, Min(hi, OrFallback(ParseInt(text), fallback)))
  }

  /** A number in range other than 0 is taken as typed. */
  lemma ClampKeepsInRange(text: string, lo: int, hi: int, fallback: int, n: int)
    requires ParseInt(text) == Some(n) && n != 0 && lo <= n <= hi
    ensures ClampInput(text, lo, hi, fallback) == n
  {
  }

  /** A number outside the range is moved to the nearer end. */
  lemma ClampMovesToEnd(text: string, lo: int, hi: int, fallback: int, n: int)
    requires ParseInt(text) == Some(n) && n != 0 && lo <= hi
    ensures n < lo ==> ClampInput(text, lo, hi, fallback) == lo
    ensures n > hi ==> ClampInput(text, lo, hi, fallback) == hi
  {
  }

  /** A text that is not a number gives the fallback, itself clamped. */
  lemma ClampFallsBack(text: string, lo: int, hi: int, fallback: int)
    requires ParseInt(text).None? || ParseInt(text) == Some(0)
    ensures ClampInput(text, lo, hi, fallback) == Max(lo, Min(hi, fallback))
  {
  }

  /** The start day field: 1 to 31, and 1 when the text is not a number. */
  function StartDayInput(text: string): (r: int)
    ensures 1 <= r <= 31
    ensures ParseInt(text).None? ==> r == 1
  {
    ClampInput(text, 1, 31, 1)
  }

  /** The start month field: 1 to 12, and 1 when the text is not a number. */
  function StartMonthInput(text: string): (r: int)
    ensures 1 <= r <= 12
    ensures ParseInt(text).None? ==> r == 1
  {
    ClampInput(text, 1, 12, 1)
  }

  /** The start year field: 1900 to the current year, and 2015 when the text is not a number
      (the current year, read from the clock in the page, is a parameter). */
  function StartYearInput(text: string, currentYear: int): (r: int)
    ensures r >= 1900 && (currentYear >= 1900 ==> r <= currentYear)
    ensures ParseInt(text).None? && currentYear >= 2015 ==> r == 2015
  {
    ClampInput(text, 1900, currentYear, 2015)
  }

  /** The end day field: 1 to 31, and 31 when the text is not a number. */
  function EndDayInput(text: string): (r: int)
    ensures 1 <= r <= 31
    ensures ParseInt(text).None? ==> r == 31
  {
    ClampInput(text, 1, 31, 31)
  }

  /** The end month field: 1 to 12, and 12 when the text is not a number. */
  function EndMonthInput(text: string): (r: int)
    ensures 1 <= r <= 12
    ensures ParseInt(text).None? ==> r == 12
  {
    ClampInput(text, 1, 12, 12)
  }

  /** The end year field: 1900 to the current year, and last year when the text is not a
      number. */
  function EndYearInput(text: string, currentYear: int): (r: int)
    ensures r >= 1900 && (currentYear >= 1900 ==> r <= currentYear)
    ensures ParseInt(text).None? && currentYear >= 1901 ==> r == currentYear - 1
  {
    ClampInput(text, 1900, currentYear, currentYear - 1)
  }

  /** The fields can still hold a date that does not exist: a day typed as 31 and a month
      typed as 2 pass the clamping and fail the check. */
  lemma ClampedDateMayBeInvalid(dayText: string, monthText: string, year: int)
    requires ParseInt(dayText) == Some(31) && ParseInt(monthText) == Some(2)
    ensures StartDayInput(dayText) == 31 && StartMonthInput(monthText) == 2
    ensures !IsValidDate(StartDayInput(dayText), StartMonthInput(monthText), year)
  {
  }

  // ---------------------------------------------------------------------------------------
  // The dates of a request

  /** `${year}-${pad2(month)}-${pad2(day)}`. */
  function DateParam(year: int, month: int, day: int): string {
    IntToString(year) + "-" + TwoDigits(month) + "-" + TwoDigits(day)
  }

  lemma DateParamJoined(year: int, month: int, day: int)
    ensures DateParam(year, month, day) == IntToString(year) + ['-'] + TwoDigits(month) + ['-'] + TwoDigits(day)
  {
  }

  /** The date splits at its dashes into the year, the month and the day, each of which reads
      back as the number it was made from. */
  lemma DateParamPieces(year: int, month: int, day: int)
    requires year >= 0 && 0 <= month < 100 && 0 <= day < 100
    ensures Split(DateParam(year, month, day), '-') == [IntToString(year), TwoDigits(month), TwoDigits(day)]
    ensures ParseInt(IntToString(year)) == Some(year)
    ensures ParseInt(TwoDigits(month)) == Some(month) && ParseInt(TwoDigits(day)) == Some(day)
  {
    DateParamJoined(year, month, day);
    NumeralFree(year, '-');
    TwoDigitsFree(month, '-');
    TwoDigitsFree(day, '-');
    SplitThree(IntToString(year), TwoDigits(month), TwoDigits(day), '-');
    ParseIntToString(year);
    TwoDigitsRoundTrip(month);
    TwoDigitsRoundTrip(day);
  }

  /** For a four-digit year and a valid date the text has the ten characters of `YYYY-MM-DD`. */
  lemma DateParamLength(year: int, month: int, day: int)
    requires 1000 <= year <= 9999 && IsValidDate(day, month, year)
    ensures |DateParam(year, month, day)| == 10
  {
    FourDigitNumerals(year);
    TwoDigitsRoundTrip(month);
    TwoDigitsRoundTrip(day);
  }

  // ---------------------------------------------------------------------------------------
  // The selection of countries

  /** The loaded series of one country. */
  datatype CountrySeries = CountrySeries(country: string, data: seq<MonthlyValue>)

  function Name(country: string): string { country }

  function SeriesCountry(series: CountrySeries): string { series.country }

  /** `addCountry`: the country is appended unless it is already selected. */
  function AddCountry(selected: seq<string>, country: string): (r: seq<string>)
    ensures country in r && |selected| <= |r| <= |selected| + 1 && r[..|selected|] == selected
    ensures country in selected ==> r == selected
    ensures Distinct(selected) ==> Distinct(r)
  {
    if country in selected then selected else selected + [country]
  }

  /** `removeCountry`: the country leaves the selection and its series leaves the loaded data. */
  function RemoveCountry(selected: seq<string>, data: seq<CountrySeries>, country: string)
    : (r: (seq<string>, seq<CountrySeries>))
    ensures forall k :: 0 <= k < |r.0| ==> r.0[k] != country
    ensures forall k :: 0 <= k < |r.1| ==> r.1[k].country != country
    ensures Distinct(selected) ==> Distinct(r.0)
  {
    RemoveDistinctNames(selected, country);
    (RemoveById(selected, Name, country), RemoveById(data, SeriesCountry, country))
  }

  lemma RemoveDistinctNames(selected: seq<string>, country: string)
    ensures Distinct(selected) ==> Distinct(RemoveById(selected, Name, country))
  {
    if Distinct(selected) {
      RemoveDistinct(selected, Name, country);
    }
  }

  /** Every other selected country and every other series stays, and nothing else appears. */
  lemma RemoveCountryKeepsOthers(selected: seq<string>, data: seq<CountrySeries>, country: string,
                                 other: string, series: CountrySeries)
    ensures other in RemoveCountry(selected, data, country).0 <==> other in selected && other != country
    ensures series in RemoveCountry(selected, data, country).1 <==> series in data && series.country != country
  {
    RemoveMembership(selected, Name, country, other);
    RemoveMembership(data, SeriesCountry, country, series);
  }

  /** Removing keeps the order of what stays: removing from a list split in two removes from
      each part. */
  lemma RemoveCountryKeepsOrder(a: seq<string>, b: seq<string>, country: string)
    ensures RemoveCountry(a + b, [], country).0 == RemoveCountry(a, [], country).0 + RemoveCountry(b, [], country).0
  {
    RemoveAppend(a, b, Name, country);
  }

  /** Adding a country that was not selected and removing it again restores the selection. */
  lemma AddThenRemove(selected: seq<string>, data: seq<CountrySeries>, country: string)
    requires country !in selected
    ensures RemoveCountry(AddCountry(selected, country), data, country).0 == selected
  {
    assert Fresh(selected, Name, Name(country));
    RemoveUndoesAppend(selected, Name, country);
  }

  // ---------------------------------------------------------------------------------------
  // Fetching

  /** The date fields of one end of the range. */
  datatype DateInput = DateInput(day: int, month: int, year: int)

  predicate Valid(d: DateInput) {
    IsValidDate(d.day, d.month, d.year)
  }

  /** Which of the two dates is shown as wrong. */
  datatype DateErrors = DateErrors(startDate: bool, endDate: bool)

  /** Why a fetch stops before any request. */
  datatype FetchError = NoCountriesSelected | InvalidDate

  /** One request: the country and the two dates of the range. */
  datatype Request = Request(country: string, startDate: string, endDate: string)

  /** `!validateStartDate() || !validateEndDate()`: the start date is checked and its error
      flag set; the end date is checked, and its flag set, only when the start date is valid. */
  function ValidateDates(errors: DateErrors, start: DateInput, end: DateInput): (r: (bool, DateErrors))
    ensures r.0 <==> Valid(start) && Valid(end)
    ensures r.1.startDate <==> !Valid(start)
    ensures r.1.endDate == if Valid(start) then !Valid(end) else errors.endDate
  {
    var startValid := Valid(start);
    var errors' := errors.(startDate := !startValid);
    if !startValid then (false, errors')
    else
      var endValid := Valid(end);
      (endValid, errors'.(endDate := !endValid))
  }

  /** The request for one country. */
  function RequestFor(country: string, start: DateInput, end: DateInput): Request {
    Request(country, DateParam(start.year, start.month, start.day), DateParam(end.year, end.month, end.day))
  }

  /** The requests of the loop over the selection, one per country, in order. */
  function RequestsFor(selected: seq<string>, start: DateInput, end: DateInput): (r: seq<Request>)
    ensures |r| == |selected|
    ensures forall k :: 0 <= k < |selected| ==> r[k].country == selected[k]
  {
    if selected == [] then []
    else RequestsFor(selected[..|selected| - 1], start, end) + [RequestFor(selected[|selected| - 1], start, end)]
  }

  /** `fetchInflationData` up to the requests: no request without a selected country or with an
      invalid date, otherwise one request per selected country with the two dates of the range;
      the date error flags are updated on the way. */
  function FetchInflationData(selected: seq<string>, errors: DateErrors, start: DateInput, end: DateInput)
    : (r: (Result<seq<Request>, FetchError>, DateErrors))
    ensures |selected| == 0 ==> r == (Err(NoCountriesSelected), errors)
    ensures r.0.Ok? <==> |selected| > 0 && Valid(start) && Valid(end)
    ensures r.0.Err? && |selected| > 0 ==> r.0.error == InvalidDate
    ensures r.0.Ok? ==> |r.0.value| == |selected| && !r.1.startDate && !r.1.endDate
  {
    if |selected| == 0 then (Err(NoCountriesSelected), errors)
    else
      var (valid, errors') := ValidateDates(errors, start, end);
      if !valid then (Err(InvalidDate), errors')
      else (Ok(RequestsFor(selected, start, end)), errors')
  }

  /** Every request carries the two dates as `YYYY-MM-DD` texts that read back as the dates
      entered. */
  lemma RequestDatesReadBack(selected: seq<string>, errors: DateErrors, start: DateInput, end: DateInput, k: int)
    requires FetchInflationData(selected, errors, start, end).0.Ok?
    requires start.year >= 0 && end.year >= 0
    requires 0 <= k < |selected|
    ensures var q := FetchInflationData(selected, errors, start, end).0.value[k];
            Split(q.startDate, '-') == [IntToString(start.year), TwoDigits(start.month), TwoDigits(start.day)]
            && Split(q.endDate, '-') == [IntToString(end.year), TwoDigits(end.month), TwoDigits(end.day)]
  {
    RequestsAt(selected, start, end, k);
    DateParamPieces(start.year, start.month, start.day);
    DateParamPieces(end.year, end.month, end.day);
  }

  lemma {:induction false} RequestsAt(selected: seq<string>, start: DateInput, end: DateInput, k: int)
    requires 0 <= k < |selected|
    ensures RequestsFor(selected, start, end)[k] == RequestFor(selected[k], start, end)
  {
    if k < |selected| - 1 {
      RequestsAt(selected[..|selected| - 1], start, end, k);
    }
  }
  // ---------------------------------------------------------------------------------------
  // Assembling what a fetch loaded

  /** What the lookups for one country gave: a cached array (used even when it is empty), the
      array the service answered after a cache miss, or an answer that is not an array. */
  datatype Lookup = Cached(data: seq<MonthlyValue>) | Fetched(data: seq<MonthlyValue>) | NotAnArray

  /** What one country adds to the loaded data: a fetched answer only when it is not empty. */
  function Entry(country: string, lookup: Lookup): (r: seq<CountrySeries>)
    ensures |r| <= 1
    ensures |r| == 1 <==> lookup.Cached? || (lookup.Fetched? && |lookup.data| > 0)
    ensures |r| == 1 ==> r[0] == CountrySeries(country, lookup.data)
  {
    match lookup
    case Cached(data) => [CountrySeries(country, data)]
    case Fetched(data) => if |data| > 0 then [CountrySeries(country, data)] else []
    case NotAnArray => []
  }

  /** The loaded data of the loop over the selection, in the order of the selection. */
  function Loaded(selected: seq<string>, lookups: seq<Lookup>): (r: seq<CountrySeries>)
    requires |lookups| == |selected|
    ensures |r| <= |selected|
  {
    if selected == [] then []
    else
      var n := |selected| - 1;
      Loaded(selected[..n], lookups[..n]) + Entry(selected[n], lookups[n])
  }

  /** How many countries came from the cache. */
  function CachedCount(lookups: seq<Lookup>): nat {
    if lookups == [] then 0
    else CachedCount(lookups[..|lookups| - 1]) + if lookups[|lookups| - 1].Cached? then 1 else 0
  }

  /** How many countries were fetched with data. */
  function FetchedCount(lookups: seq<Lookup>): nat {
    if lookups == [] then 0
    else
      var last := lookups[|lookups| - 1];
      FetchedCount(lookups[..|lookups| - 1]) + if last.Fetched? && |last.data| > 0 then 1 else 0
  }

  lemma LoadedNext(selected: seq<string>, lookups: seq<Lookup>, i: nat)
    requires |lookups| == |selected| && i < |selected|
    ensures Loaded(selected[..i + 1], lookups[..i + 1])
         == Loaded(selected[..i], lookups[..i]) + Entry(selected[i], lookups[i])
  {
    assert selected[..i + 1][..i] == selected[..i];
    assert lookups[..i + 1][..i] == lookups[..i];
  }

  lemma CountsNext(lookups: seq<Lookup>, i: nat)
    requires i < |lookups|
    ensures CachedCount(lookups[..i + 1]) == CachedCount(lookups[..i]) + if lookups[i].Cached? then 1 else 0
    ensures FetchedCount(lookups[..i + 1])
         == FetchedCount(lookups[..i]) + if lookups[i].Fetched? && |lookups[i].data| > 0 then 1 else 0
  {
    assert lookups[..i + 1][..i] == lookups[..i];
  }

  /** The loop of `fetchInflationData` over the selected countries, with the cache and the
      service answers given as `lookups`: it collects the loaded series and counts how many
      came from the cache and how many from the service. */
  method CollectSeries(selected: seq<string>, lookups: seq<Lookup>)
    returns (newInflationData: seq<CountrySeries>, cachedCount: nat, fetchedCount: nat)
    requires |lookups| == |selected|
    ensures newInflationData == Loaded(selected, lookups)
    ensures cachedCount == CachedCount(lookups) && fetchedCount == FetchedCount(lookups)
  {
    newInflationData, cachedCount, fetchedCount := [], 0, 0;
    var i := 0;
    while i < |selected|
      invariant 0 <= i <= |selected|
      invariant newInflationData == Loaded(selected[..i], lookups[..i])
      invariant cachedCount == CachedCount(lookups[..i]) && fetchedCount == FetchedCount(lookups[..i])
    {
      LoadedNext(selected, lookups, i);
      CountsNext(lookups, i);
      var country := selected[i];
      match lookups[i] {
        case Cached(data) =>
          newInflationData := newInflationData + [CountrySeries(country, data)];
          cachedCount := cachedCount + 1;
        case Fetched(data) =>
          if |data| > 0 {
            newInflationData := newInflationData + [CountrySeries(country, data)];
            fetchedCount := fetchedCount + 1;
          }
        case NotAnArray =>
      }
      i := i + 1;
    }
    assert selected[..i] == selected && lookups[..i] == lookups;
  }

  /** Every loaded series is counted once: the loaded data holds as many series as the two
      counts together. */
  lemma {:induction false} LoadedSize(selected: seq<string>, lookups: seq<Lookup>)
    requires |lookups| == |selected|
    ensures |Loaded(selected, lookups)| == CachedCount(lookups) + FetchedCount(lookups)
  {
    if selected != [] {
      var n := |selected| - 1;
      LoadedSize(selected[..n], lookups[..n]);
    }
  }

  /** Every loaded series belongs to a selected country whose lookup gave data, and carries
      that data. */
  lemma {:induction false} LoadedFromSelection(selected: seq<string>, lookups: seq<Lookup>, k: nat)
    requires |lookups| == |selected| && k < |Loaded(selected, lookups)|
    ensures exists j :: 0 <= j < |selected| && !lookups[j].NotAnArray?
                        && Loaded(selected, lookups)[k] == CountrySeries(selected[j], lookups[j].data)
  {
    var n := |selected| - 1;
    var init := Loaded(selected[..n], lookups[..n]);
    if k < |init| {
      LoadedFromSelection(selected[..n], lookups[..n], k);
      var j :| 0 <= j < n && !lookups[..n][j].NotAnArray?
               && init[k] == CountrySeries(selected[..n][j], lookups[..n][j].data);
      assert Loaded(selected, lookups)[k] == init[k];
      assert selected[j] == selected[..n][j] && lookups[j] == lookups[..n][j];
    } else {
      assert Loaded(selected, lookups)[k] == Entry(selected[n], lookups[n])[0];
    }
  }

  /** When every lookup comes from the cache, every selected country is loaded, in order. */
  lemma {:induction false} AllCachedAllLoaded(selected: seq<string>, lookups: seq<Lookup>, k: nat)
    requires |lookups| == |selected| && k < |selected|
    requires forall j :: 0 <= j < |lookups| ==> lookups[j].Cached?
    ensures |Loaded(selected, lookups)| == |selected|
    ensures Loaded(selected, lookups)[k] == CountrySeries(selected[k], lookups[k].data)
  {
    var n := |selected| - 1;
    if k < n {
      AllCachedAllLoaded(selected[..n], lookups[..n], k);
    } else if n > 0 {
      AllCachedAllLoaded(selected[..n], lookups[..n], 0);
    }
  }
}
