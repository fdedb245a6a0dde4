/** The inflation table of one country: the rows of the year-by-month grid with each year's
    average, the average over the years shown in the badge, and the colour of a rate. */
module InflationTable {
  import opened Wrappers
  import opened Text
  import opened MonthGrid

  // ---------------------------------------------------------------------------------------
  // Sums and means

  /** `xs.reduce((sum, v) => sum + v, 0)`. */
  function Sum(xs: seq<real>): real {
    if xs == [] then 0.0 else Sum(xs[..|xs| - 1]) + xs[|xs| - 1]
  }

  /** The sum divided by the count; only ever applied to values that are there. */
  function Mean(xs: seq<real>): real {
    if xs == [] then 0.0 else Sum(xs) / |xs| as real
  }

  lemma SumSnoc(xs: seq<real>, x: real)
    ensures Sum(xs + [x]) == Sum(xs) + x
  {
    assert (xs + [x])[..|xs|] == xs;
  }

  /** Values that all lie between `lo` and `hi` add up to between `|xs|` times each. */
  lemma {:induction false} SumBounds(xs: seq<real>, lo: real, hi: real)
    requires forall k :: 0 <= k < |xs| ==> lo <= xs[k] <= hi
    ensures lo * |xs| as real <= Sum(xs) <= hi * |xs| as real
  {
    if xs != [] {
      SumBounds(xs[..|xs| - 1], lo, hi);
    }
  }

  /** A mean lies between the smallest and the largest value. */
  lemma MeanBounds(xs: seq<real>, lo: real, hi: real)
    requires xs != [] && forall k :: 0 <= k < |xs| ==> lo <= xs[k] <= hi
    ensures lo <= Mean(xs) <= hi
  {
    SumBounds(xs, lo, hi);
  }

  // ---------------------------------------------------------------------------------------
  // The rows of the table

  /** `values.filter(v => v !== null)`. */
  function Present(values: seq<Option<real>>): (r: seq<real>)
    ensures |r| <= |values|
  {
    if values == [] then []
    else
      var v := values[|values| - 1];
      Present(values[..|values| - 1]) + (if v.Some? then [v.value] else [])
  }

  /** The mean of the slots that hold a value, and `null` when none does. */
  function YearlyAverage(values: seq<Option<real>>): (r: Option<real>)
    ensures r.None? <==> AllNull(values)
  {
    PresentEmpty(values);
    var validValues := Present(values);
    if |validValues| > 0 then Some(Sum(validValues) / |validValues| as real) else None
  }

  lemma {:induction false} PresentEmpty(values: seq<Option<real>>)
    ensures Present(values) == [] <==> AllNull(values)
  {
    if values != [] {
      PresentEmpty(values[..|values| - 1]);
    }
  }

  /** The values kept are values of slots. */
  lemma {:induction false} PresentBounds(values: seq<Option<real>>, lo: real, hi: real)
    requires forall m :: 0 <= m < |values| && values[m].Some? ==> lo <= values[m].value <= hi
    ensures forall k :: 0 <= k < |Present(values)| ==> lo <= Present(values)[k] <= hi
  {
    if values != [] {
      PresentBounds(values[..|values| - 1], lo, hi);
    }
  }

  /** A year's average lies between the smallest and the largest of its monthly rates. */
  lemma YearlyAverageBounds(values: seq<Option<real>>, lo: real, hi: real)
    requires forall m :: 0 <= m < |values| && values[m].Some? ==> lo <= values[m].value <= hi
    requires YearlyAverage(values).Some?
    ensures lo <= YearlyAverage(values).value <= hi
  {
    PresentBounds(values, lo, hi);
    MeanBounds(Present(values), lo, hi);
  }

  /** `organizeDataByYear`: fills the grid point by point, then maps the sorted years to rows
      of the year, its twelve slots and their yearly average. */
  method OrganizeDataByYear(points: seq<MonthlyValue>) returns (rows: seq<GridRow<Option<real>>>)
    ensures rows == Grid(points, YearlyAverage)
  {
    var yearMap := Organize(points);
    SortedYearsAreKeys(yearMap);
    rows := RowsOf(yearMap, SortedYears(yearMap), YearlyAverage);
  }

  // ---------------------------------------------------------------------------------------
  // The average over the years

  /** The rates of the points dated in `year`, in order. */
  function ValuesOf(points: seq<MonthlyValue>, year: int): (r: seq<real>)
    ensures |r| <= |points|
  {
    if points == [] then []
    else
      var p := points[|points| - 1];
      ValuesOf(points[..|points| - 1], year) + (if p.year == year then [p.value] else [])
  }

  lemma ValuesOfSnoc(points: seq<MonthlyValue>, p: MonthlyValue, year: int)
    ensures ValuesOf(points + [p], year) == ValuesOf(points, year) + (if p.year == year then [p.value] else [])
  {
    assert (points + [p])[..|points|] == points;
  }

  /** A year has rates exactly when some point falls in it. */
  lemma {:induction false} ValuesOfEmpty(points: seq<MonthlyValue>, year: int)
    ensures ValuesOf(points, year) == [] <==> !HasYear(points, year)
  {
    if points != [] {
      var init := points[..|points| - 1];
      ValuesOfEmpty(init, year);
      if HasYear(points, year) && points[|points| - 1].year != year {
        var i :| 0 <= i < |points| && points[i].year == year;
        assert init[i].year == year;
      }
      if HasYear(init, year) {
        var i :| 0 <= i < |init| && init[i].year == year;
        assert points[i].year == year;
      }
    }
  }

  predicate SortedByYear(points: seq<MonthlyValue>) {
    forall i, j :: 0 <= i < j < |points| ==> points[i].year <= points[j].year
  }

  /** `p` placed after every point of `sorted` whose year is not later than its own. */
  function InsertByYear(sorted: seq<MonthlyValue>, p: MonthlyValue): (r: seq<MonthlyValue>)
    ensures multiset(r) == multiset(sorted) + multiset{p}
  {
    if sorted == [] then [p]
    else
      var last := sorted[|sorted| - 1];
      if last.year <= p.year then sorted + [p]
      else
        var init := sorted[..|sorted| - 1];
        assert sorted == init + [last];
        InsertByYear(init, p) + [last]
  }

  lemma {:induction false} InsertSorted(sorted: seq<MonthlyValue>, p: MonthlyValue)
    requires SortedByYear(sorted)
    ensures SortedByYear(InsertByYear(sorted, p))
  {
    if sorted != [] && sorted[|sorted| - 1].year > p.year {
      var init, last := sorted[..|sorted| - 1], sorted[|sorted| - 1];
      InsertSorted(init, p);
      var r := InsertByYear(init, p);
      forall k | 0 <= k < |r|
        ensures r[k].year <= last.year
      {
        assert r[k] in multiset(r);
        if r[k] != p {
          assert r[k] in multiset(init);
          var n :| 0 <= n < |init| && init[n] == r[k];
          assert sorted[n] == r[k];
        }
      }
    }
  }

  /** Inserting keeps every year's rates in order, the new one last: the sort is stable. */
  lemma {:induction false} InsertValues(sorted: seq<MonthlyValue>, p: MonthlyValue, year: int)
    ensures ValuesOf(InsertByYear(sorted, p), year)
         == ValuesOf(sorted, year) + (if p.year == year then [p.value] else [])
  {
    if sorted == [] {
      ValuesOfSnoc([], p, year);
    } else {
      var init, last := sorted[..|sorted| - 1], sorted[|sorted| - 1];
      assert sorted == init + [last];
      if last.year <= p.year {
        ValuesOfSnoc(sorted, p, year);
      } else {
        InsertValues(init, p, year);
        ValuesOfSnoc(InsertByYear(init, p), last, year);
        ValuesOfSnoc(init, last, year);
      }
    }
  }

  /** `[...data].sort(...)` by date, taken by year: a stable insertion sort of a copy. */
  function SortByYear(points: seq<MonthlyValue>): (r: seq<MonthlyValue>)
    ensures multiset(r) == multiset(points)
  {
    if points == [] then []
    else
      var init := points[..|points| - 1];
      assert points == init + [points[|points| - 1]];
      InsertByYear(SortByYear(init), points[|points| - 1])
  }

  /** The copy is sorted by year. */
  lemma {:induction false} SortByYearSorted(points: seq<MonthlyValue>)
    ensures SortedByYear(SortByYear(points))
  {
    if points != [] {
      SortByYearSorted(points[..|points| - 1]);
      InsertSorted(SortByYear(points[..|points| - 1]), points[|points| - 1]);
    }
  }

  /** Sorting leaves every year's rates as they were, in the same order. */
  lemma {:induction false} SortKeepsValues(points: seq<MonthlyValue>, year: int)
    ensures ValuesOf(SortByYear(points), year) == ValuesOf(points, year)
  {
    if points != [] {
      var init, p := points[..|points| - 1], points[|points| - 1];
      SortKeepsValues(init, year);
      InsertValues(SortByYear(init), p, year);
    }
  }

  /** A run of consecutive points of one year, and their rates. */
  datatype YearRun = YearRun(year: int, values: seq<real>)

  /** The points cut into runs of consecutive points of the same year. */
  function Runs(points: seq<MonthlyValue>): (r: seq<YearRun>)
    ensures points == [] <==> r == []
    ensures points != [] ==> r[|r| - 1].year == points[|points| - 1].year
    ensures forall k :: 0 <= k < |r| ==> r[k].values != []
  {
    if points == [] then []
    else
      var init, p := points[..|points| - 1], points[|points| - 1];
      var runs := Runs(init);
      if init != [] && init[|init| - 1].year == p.year then
        runs[..|runs| - 1] + [YearRun(p.year, runs[|runs| - 1].values + [p.value])]
      else runs + [YearRun(p.year, [p.value])]
  }

  /** The mean of each run, in order. */
  function Means(runs: seq<YearRun>): (r: seq<real>)
    ensures |r| == |runs| && forall k :: 0 <= k < |runs| ==> r[k] == Mean(runs[k].values)
  {
    if runs == [] then [] else Means(runs[..|runs| - 1]) + [Mean(runs[|runs| - 1].values)]
  }

  /** The year of each run, in order. */
  function YearsOf(runs: seq<YearRun>): (r: seq<int>)
    ensures |r| == |runs| && forall k :: 0 <= k < |runs| ==> r[k] == runs[k].year
  {
    if runs == [] then [] else YearsOf(runs[..|runs| - 1]) + [runs[|runs| - 1].year]
  }

  /** A point of a new year opens a run. */
  lemma RunsStepNew(s: seq<MonthlyValue>, i: int)
    requires 0 <= i < |s| && (i == 0 || s[i].year != s[i - 1].year)
    ensures Runs(s[..i + 1]) == Runs(s[..i]) + [YearRun(s[i].year, [s[i].value])]
  {
    assert s[..i + 1][..i] == s[..i];
  }

  /** A point of the same year as the one before extends the last run. */
  lemma RunsStepSame(s: seq<MonthlyValue>, i: int)
    requires 0 < i < |s| && s[i].year == s[i - 1].year
    ensures var runs := Runs(s[..i]);
            Runs(s[..i + 1]) == runs[..|runs| - 1] + [YearRun(s[i].year, runs[|runs| - 1].values + [s[i].value])]
  {
    assert s[..i + 1][..i] == s[..i];
  }

  lemma MeansSnoc(runs: seq<YearRun>, run: YearRun)
    ensures Means(runs + [run]) == Means(runs) + [Mean(run.values)]
  {
    assert (runs + [run])[..|runs|] == runs;
  }

  predicate Ascending(runs: seq<YearRun>) {
    forall i, j :: 0 <= i < j < |runs| ==> runs[i].year < runs[j].year
  }

  /** On points sorted by year each run is a whole year: the run years ascend strictly and a
      run holds all the rates of its year, in order. */
  lemma {:induction false} RunsOfSorted(s: seq<MonthlyValue>)
    requires SortedByYear(s)
    ensures Ascending(Runs(s))
    ensures forall k :: 0 <= k < |Runs(s)| ==> Runs(s)[k].values == ValuesOf(s, Runs(s)[k].year)
  {
    if s != [] {
      var init, p := s[..|s| - 1], s[|s| - 1];
      assert s == init + [p];
      RunsOfSorted(init);
      if init != [] && init[|init| - 1].year == p.year {
        RunsOfSortedSame(init, p);
      } else {
        RunsOfSortedNew(init, p);
      }
    }
  }

  lemma RunsOfSortedSame(init: seq<MonthlyValue>, p: MonthlyValue)
    requires SortedByYear(init + [p]) && init != [] && init[|init| - 1].year == p.year
    requires Ascending(Runs(init))
    requires forall k :: 0 <= k < |Runs(init)| ==> Runs(init)[k].values == ValuesOf(init, Runs(init)[k].year)
    ensures Ascending(Runs(init + [p]))
    ensures forall k :: 0 <= k < |Runs(init + [p])| ==> Runs(init + [p])[k].values == ValuesOf(init + [p], Runs(init + [p])[k].year)
  {
    var s := init + [p];
    var runs := Runs(init);
    assert s[..|s| - 1] == init;
    var r := Runs(s);
    assert r == runs[..|runs| - 1] + [YearRun(p.year, runs[|runs| - 1].values + [p.value])];
    forall k | 0 <= k < |r|
      ensures r[k].values == ValuesOf(s, r[k].year)
    {
      ValuesOfSnoc(init, p, r[k].year);
    }
  }

  lemma RunsOfSortedNew(init: seq<MonthlyValue>, p: MonthlyValue)
    requires SortedByYear(init + [p]) && (init == [] || init[|init| - 1].year != p.year)
    requires Ascending(Runs(init))
    requires forall k :: 0 <= k < |Runs(init)| ==> Runs(init)[k].values == ValuesOf(init, Runs(init)[k].year)
    ensures Ascending(Runs(init + [p]))
    ensures forall k :: 0 <= k < |Runs(init + [p])| ==> Runs(init + [p])[k].values == ValuesOf(init + [p], Runs(init + [p])[k].year)
  {
    var s := init + [p];
    var runs := Runs(init);
    assert s[..|s| - 1] == init;
    var r := Runs(s);
    assert r == runs + [YearRun(p.year, [p.value])];
    LaterYearAbsent(init, p);
    forall k | 0 <= k < |r|
      ensures r[k].values == ValuesOf(s, r[k].year)
    {
      ValuesOfSnoc(init, p, r[k].year);
    }
  }

  /** Before a point of a new year in sorted order, that year has no rates, and every earlier
      run is of an earlier year. */
  lemma LaterYearAbsent(init: seq<MonthlyValue>, p: MonthlyValue)
    requires SortedByYear(init + [p]) && (init == [] || init[|init| - 1].year != p.year)
    ensures ValuesOf(init, p.year) == []
    ensures init != [] ==> init[|init| - 1].year < p.year
  {
    var s := init + [p];
    if init != [] {
      var last := init[|init| - 1];
      assert s[|init| - 1] == last && s[|init|] == p;
      forall i | 0 <= i < |init|
        ensures init[i].year < p.year
      {
        assert s[i] == init[i];
      }
    }
    ValuesOfEmpty(init, p.year);
  }

  /** Every year that has a point has a run. */
  lemma {:induction false} RunsCoverYears(s: seq<MonthlyValue>, year: int)
    requires HasYear(s, year)
    ensures year in YearsOf(Runs(s))
  {
    var init, p := s[..|s| - 1], s[|s| - 1];
    var r := Runs(s);
    if p.year == year {
      assert YearsOf(r)[|r| - 1] == year;
    } else {
      var i :| 0 <= i < |s| && s[i].year == year;
      assert init[i].year == year;
      RunsCoverYears(init, year);
      var runs := Runs(init);
      var k :| 0 <= k < |runs| && YearsOf(runs)[k] == year;
      assert r[k].year == year;
      assert YearsOf(r)[k] == year;
    }
  }

  /** The years of the data in ascending order, each once. */
  function DistinctYears(data: seq<MonthlyValue>): seq<int> {
    YearsOf(Runs(SortByYear(data)))
  }

  /** The mean rate of each of `years`, in order. */
  function YearMeans(data: seq<MonthlyValue>, years: seq<int>): (r: seq<real>)
    ensures |r| == |years| && forall k :: 0 <= k < |years| ==> r[k] == Mean(ValuesOf(data, years[k]))
  {
    if years == [] then []
    else YearMeans(data, years[..|years| - 1]) + [Mean(ValuesOf(data, years[|years| - 1]))]
  }

  /** What the badge shows: no value for no data, otherwise the mean over the distinct years of
      each year's mean rate, so that every year counts once whatever its number of months. */
  function AverageInflation(data: seq<MonthlyValue>): Option<real> {
    if data == [] then None else Some(Mean(YearMeans(data, DistinctYears(data))))
  }

  /** `DistinctYears` holds each year that has a point, and no other. */
  lemma DistinctYearsMembers(data: seq<MonthlyValue>, year: int)
    ensures year in DistinctYears(data) <==> HasYear(data, year)
  {
    var s := SortByYear(data);
    var runs := Runs(s);
    SortByYearSorted(data);
    RunsOfSorted(s);
    SortKeepsValues(data, year);
    ValuesOfEmpty(data, year);
    ValuesOfEmpty(s, year);
    if year in DistinctYears(data) {
      var k :| 0 <= k < |runs| && YearsOf(runs)[k] == year;
      assert runs[k].values == ValuesOf(s, year);
    }
    if HasYear(data, year) {
      RunsCoverYears(s, year);
    }
  }

  /** `DistinctYears` ascends strictly, so it holds no year twice. */
  lemma DistinctYearsAscend(data: seq<MonthlyValue>, i: int, j: int)
    requires 0 <= i < j < |DistinctYears(data)|
    ensures DistinctYears(data)[i] < DistinctYears(data)[j]
  {
    SortByYearSorted(data);
    RunsOfSorted(SortByYear(data));
  }

  /** The means of the runs of the sorted copy are the means of the years of the data. */
  lemma RunMeansAreYearMeans(data: seq<MonthlyValue>)
    ensures Means(Runs(SortByYear(data))) == YearMeans(data, DistinctYears(data))
  {
    var s := SortByYear(data);
    var runs := Runs(s);
    SortByYearSorted(data);
    RunsOfSorted(s);
    forall k | 0 <= k < |runs|
      ensures Means(runs)[k] == YearMeans(data, DistinctYears(data))[k]
    {
      SortKeepsValues(data, runs[k].year);
    }
  }

  /** `calculateCAGR`: sorts a copy of the data, walks it keeping the current year, the sum and
      the count of its rates, pushes a year's mean when the year changes and after the last
      point, and averages the means. */
  method CalculateAverageInflation(data: seq<MonthlyValue>) returns (r: Option<real>)
    ensures r == AverageInflation(data)
  {
    if |data| == 0 {
      return None;
    }
    var sortedData := SortByYear(data);
    var yearValues := YearValues(sortedData);
    RunMeansAreYearMeans(data);
    if |yearValues| == 0 {
      return None;
    }
    r := Some(Sum(yearValues) / |yearValues| as real);
  }

  /** The runs before the last one. */
  function Init(runs: seq<YearRun>): seq<YearRun>
    requires runs != []
  {
    runs[..|runs| - 1]
  }

  /** The last run. */
  function Last(runs: seq<YearRun>): YearRun
    requires runs != []
  {
    runs[|runs| - 1]
  }

  lemma SumSingle(x: real)
    ensures Sum([x]) == x
  {
    assert [x][..0] == [];
  }

  lemma MeansLast(runs: seq<YearRun>)
    requires runs != []
    ensures Means(runs) == Means(Init(runs)) + [Mean(Last(runs).values)]
  {
  }

  lemma StepFirst(s: seq<MonthlyValue>)
    requires s != []
    ensures Init(Runs(s[..1])) == [] && Last(Runs(s[..1])) == YearRun(s[0].year, [s[0].value])
  {
    RunsStepNew(s, 0);
  }

  lemma StepNew(s: seq<MonthlyValue>, i: int)
    requires 0 < i < |s| && s[i].year != s[i - 1].year
    ensures Init(Runs(s[..i + 1])) == Runs(s[..i])
    ensures Last(Runs(s[..i + 1])) == YearRun(s[i].year, [s[i].value])
  {
    RunsStepNew(s, i);
  }

  lemma StepSame(s: seq<MonthlyValue>, i: int)
    requires 0 < i < |s| && s[i].year == s[i - 1].year
    ensures Init(Runs(s[..i + 1])) == Init(Runs(s[..i]))
    ensures Last(Runs(s[..i + 1])).values == Last(Runs(s[..i])).values + [s[i].value]
  {
    RunsStepSame(s, i);
  }

  /** The state of the walk after `index` points: the means of the runs closed so far (all of
      them once the walk is over), and the year, sum and count of the run that is open. */
  ghost predicate Walked(s: seq<MonthlyValue>, index: int, yearValues: seq<real>, currentYear: int,
                         yearSum: real, yearCount: int)
    requires s != []
  {
    0 <= index <= |s|
    && (index == 0 ==> yearValues == [] && yearSum == 0.0 && yearCount == 0 && currentYear == s[0].year)
    && (0 < index ==> currentYear == s[index - 1].year && yearCount == |Last(Runs(s[..index])).values|
                      && yearSum == Sum(Last(Runs(s[..index])).values))
    && (0 < index < |s| ==> yearValues == Means(Init(Runs(s[..index]))))
    && (index == |s| ==> yearValues == Means(Runs(s[..index])))
  }

  /** The state once the point at `index` has been added to the open run, before the check for
      the last point. */
  ghost predicate Added(s: seq<MonthlyValue>, index: int, yearValues: seq<real>, currentYear: int,
                        yearSum: real, yearCount: int)
  {
    0 <= index < |s| && currentYear == s[index].year
    && yearCount == |Last(Runs(s[..index + 1])).values| && yearSum == Sum(Last(Runs(s[..index + 1])).values)
    && yearValues == Means(Init(Runs(s[..index + 1])))
  }

  /** A point of a new year closes the open run and opens one of its own. */
  lemma NewYearStep(s: seq<MonthlyValue>, index: int, yearValues: seq<real>, currentYear: int,
                    yearSum: real, yearCount: int)
    requires s != [] && Walked(s, index, yearValues, currentYear, yearSum, yearCount)
    requires index < |s| && s[index].year != currentYear
    ensures Added(s, index, if yearCount > 0 then yearValues + [yearSum / yearCount as real] else yearValues,
                  s[index].year, s[index].value, 1)
  {
    StepNew(s, index);
    MeansLast(Runs(s[..index]));
    SumSingle(s[index].value);
  }

  /** A point of the open run's year is added to it. */
  lemma SameYearStep(s: seq<MonthlyValue>, index: int, yearValues: seq<real>, currentYear: int,
                     yearSum: real, yearCount: int)
    requires s != [] && Walked(s, index, yearValues, currentYear, yearSum, yearCount)
    requires index < |s| && s[index].year == currentYear
    ensures Added(s, index, yearValues, currentYear, yearSum + s[index].value, yearCount + 1)
  {
    var before := if index == 0 then [] else Last(Runs(s[..index])).values;
    if index == 0 {
      StepFirst(s);
    } else {
      StepSame(s, index);
    }
    SumSnoc(before, s[index].value);
  }

  /** After the last point the open run is closed too. */
  lemma CloseStep(s: seq<MonthlyValue>, index: int, yearValues: seq<real>, currentYear: int,
                  yearSum: real, yearCount: int)
    requires Added(s, index, yearValues, currentYear, yearSum, yearCount)
    ensures Walked(s, index + 1, if index == |s| - 1 && yearCount > 0
                                 then yearValues + [yearSum / yearCount as real] else yearValues,
                   currentYear, yearSum, yearCount)
  {
    MeansLast(Runs(s[..index + 1]));
  }

  /** The `forEach` of `calculateCAGR`: the mean of each run of one year, in order. */
  method YearValues(s: seq<MonthlyValue>) returns (yearValues: seq<real>)
    requires s != []
    ensures yearValues == Means(Runs(s))
  {
    yearValues := [];
    var currentYear := s[0].year;
    var yearSum := 0.0;
    var yearCount := 0;
    var index := 0;
    while index < |s|
      invariant Walked(s, index, yearValues, currentYear, yearSum, yearCount)
    {
      var point := s[index];
      var year := point.year;
      if year != currentYear {
        NewYearStep(s, index, yearValues, currentYear, yearSum, yearCount);
        if yearCount > 0 {
          yearValues := yearValues + [yearSum / yearCount as real];
        }
        currentYear := year;
        yearSum := point.value;
        yearCount := 1;
      } else {
        SameYearStep(s, index, yearValues, currentYear, yearSum, yearCount);
        yearSum := yearSum + point.value;
        yearCount := yearCount + 1;
      }
      CloseStep(s, index, yearValues, currentYear, yearSum, yearCount);
      if index == |s| - 1 && yearCount > 0 {
        yearValues := yearValues + [yearSum / yearCount as real];
      }
      index := index + 1;
    }
    assert s[..index] == s;
  }

  // ---------------------------------------------------------------------------------------
  // What the average says

  lemma {:induction false} ValuesOfBounds(points: seq<MonthlyValue>, year: int, lo: real, hi: real)
    requires forall n :: 0 <= n < |points| ==> lo <= points[n].value <= hi
    ensures forall k :: 0 <= k < |ValuesOf(points, year)| ==> lo <= ValuesOf(points, year)[k] <= hi
  {
    if points != [] {
      ValuesOfBounds(points[..|points| - 1], year, lo, hi);
    }
  }

  /** The badge never leaves the range of the monthly rates: it lies between the smallest and
      the largest of them. */
  lemma AverageInflationBounds(data: seq<MonthlyValue>, lo: real, hi: real)
    requires data != [] && forall n :: 0 <= n < |data| ==> lo <= data[n].value <= hi
    ensures lo <= AverageInflation(data).value <= hi
  {
    var years := DistinctYears(data);
    var means := YearMeans(data, years);
    forall k | 0 <= k < |means|
      ensures lo <= means[k] <= hi
    {
      DistinctYearsMembers(data, years[k]);
      ValuesOfEmpty(data, years[k]);
      ValuesOfBounds(data, years[k], lo, hi);
      MeanBounds(ValuesOf(data, years[k]), lo, hi);
    }
    assert data[0].year in years by {
      DistinctYearsMembers(data, data[0].year);
    }
    MeanBounds(means, lo, hi);
  }

  /** When every year has the same mean rate, that is the average, however many months each
      year has. */
  lemma AverageOfEqualYears(data: seq<MonthlyValue>, c: real)
    requires data != []
    requires forall y :: HasYear(data, y) ==> Mean(ValuesOf(data, y)) == c
    ensures AverageInflation(data) == Some(c)
  {
    var years := DistinctYears(data);
    var means := YearMeans(data, years);
    forall k | 0 <= k < |means|
      ensures c <= means[k] <= c
    {
      DistinctYearsMembers(data, years[k]);
    }
    assert data[0].year in years by {
      DistinctYearsMembers(data, data[0].year);
    }
    MeanBounds(means, c, c);
  }

  // ---------------------------------------------------------------------------------------
  // Colours and formatting

  /** `getChangeColor`: red from 3 % up, yellow from 2 % up to 3 %, green below 2 %, and no
      colour for a missing rate. */
  function InflationColour(value: Option<real>): (c: RateColour)
    ensures c == NoColour <==> value.None?
    ensures c == Red <==> value.Some? && value.value >= 3.0
    ensures c == Yellow <==> value.Some? && 2.0 <= value.value < 3.0
    ensures c == Green <==> value.Some? && value.value < 2.0
  {
    match value
    case None => NoColour
    case Some(v) => if v >= 3.0 then Red else if v >= 2.0 then Yellow else Green
  }

  /** How alarming a colour is. */
  function Severity(c: RateColour): nat {
    match c
    case NoColour => 0
    case Green => 1
    case Yellow => 2
    case Red => 3
  }

  /** A higher rate never gets a milder colour. */
  lemma ColourMonotone(a: real, b: real)
    requires a <= b
    ensures Severity(InflationColour(Some(a))) <= Severity(InflationColour(Some(b)))
  {
  }

  /** `formatPercentage`: a dash for no value, otherwise the rate to two decimals and `%`. */
  function FormatPercentage(value: Option<real>): (r: string)
    ensures r == "-" <==> value.None?
    ensures value.Some? ==> r == FormatValue(value) + "%"
  {
    match value
    case None => "-"
    case Some(v) => ToFixed2(v) + "%"
  }
}
