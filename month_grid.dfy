/** The year-by-month grid both viewer tables build from a monthly series: a `Map` from year
    to twelve slots, filled point by point, whose keys are then sorted. */
module MonthGrid {
  import opened Wrappers
  import opened Text

  /** `Date.getMonth()`: January is 0. */
  type MonthIndex = m: int | 0 <= m < 12

  /** A value of a series, with the year and month of its date. */
  datatype MonthlyValue = MonthlyValue(year: int, month: MonthIndex, value: real)

  type Row = seq<Option<real>>

  /** Every slot is `null`. */
  predicate AllNull(values: Row) {
    forall m :: 0 <= m < |values| ==> values[m].None?
  }

  /** `Array(12).fill(null)`. */
  function EmptyRow(): (r: Row)
    ensures |r| == 12 && forall m :: 0 <= m < 12 ==> r[m] == None
  {
    seq(12, _ => None)
  }

  /** A `Map<number, (number | null)[]>`: the rows by year, and the years in insertion order
      (the order `keys()` yields them in). */
  datatype YearMap = YearMap(keys: seq<int>, rows: map<int, Row>)

  /** The keys are the map's domain, each once, and every row has twelve slots. */
  predicate Valid(ym: YearMap) {
    (forall y :: y in ym.keys ==> y in ym.rows)
    && (forall y :: y in ym.rows ==> y in ym.keys)
    && (forall i, j :: 0 <= i < j < |ym.keys| ==> ym.keys[i] != ym.keys[j])
    && (forall y :: y in ym.rows ==> |ym.rows[y]| == 12)
  }

  /** One pass of the `forEach`: create the year's row when missing, then write the value
      into the month's slot. */
  function Place(ym: YearMap, p: MonthlyValue): (r: YearMap)
    requires Valid(ym)
    ensures Valid(r)
  {
    if p.year !in ym.rows then Write(YearMap(ym.keys + [p.year], ym.rows[p.year := EmptyRow()]), p)
    else Write(ym, p)
  }

  /** `yearMap.get(year)![month] = value` on a row that exists. */
  function Write(ym: YearMap, p: MonthlyValue): (r: YearMap)
    requires Valid(ym) && p.year in ym.rows
    ensures Valid(r)
  {
    ym.(rows := ym.rows[p.year := ym.rows[p.year][p.month := Some(p.value)]])
  }

  /** The map after the `forEach` over `points`. */
  function Bucket(points: seq<MonthlyValue>): (r: YearMap)
    ensures Valid(r)
  {
    if points == [] then YearMap([], map[])
    else Place(Bucket(points[..|points| - 1]), points[|points| - 1])
  }

  /** The `forEach` that fills the map. */
  method Organize(points: seq<MonthlyValue>) returns (yearMap: YearMap)
    ensures yearMap == Bucket(points)
  {
    yearMap := YearMap([], map[]);
    var i := 0;
    while i < |points|
      invariant 0 <= i <= |points|
      invariant yearMap == Bucket(points[..i]) && Valid(yearMap)
    {
      var point := points[i];
      if point.year !in yearMap.rows {
        yearMap := YearMap(yearMap.keys + [point.year], yearMap.rows[point.year := EmptyRow()]);
      }
      var values := yearMap.rows[point.year];
      yearMap := yearMap.(rows := yearMap.rows[point.year := values[point.month := Some(point.value)]]);
      BucketNext(points, i);
      i := i + 1;
    }
    assert points[..i] == points;
  }

  lemma BucketNext(points: seq<MonthlyValue>, i: int)
    requires 0 <= i < |points|
    ensures Bucket(points[..i + 1]) == Place(Bucket(points[..i]), points[i])
  {
    assert points[..i + 1][..i] == points[..i];
  }

  // ---------------------------------------------------------------------------------------
  // What the grid holds

  /** The value of the last point of `points` dated in `year` and `month`, if any. */
  function LastValue(points: seq<MonthlyValue>, year: int, month: MonthIndex): Option<real> {
    if points == [] then None
    else
      var p := points[|points| - 1];
      if p.year == year && p.month == month then Some(p.value)
      else LastValue(points[..|points| - 1], year, month)
  }

  /** Some point of `points` is dated in `year`. */
  predicate HasYear(points: seq<MonthlyValue>, year: int) {
    exists i :: 0 <= i < |points| && points[i].year == year
  }

  /** The grid has a row for exactly the years of the points. */
  lemma {:induction false} BucketYears(points: seq<MonthlyValue>, year: int)
    ensures year in Bucket(points).rows <==> HasYear(points, year)
  {
    if points != [] {
      var init := points[..|points| - 1];
      BucketYears(init, year);
      if HasYear(points, year) && points[|points| - 1].year != year {
        var i :| 0 <= i < |points| && points[i].year == year;
        assert init[i].year == year;
      }
      if HasYear(init, year) {
        var i :| 0 <= i < |init| && init[i].year == year;
        assert points[i].year == year;
      }
    }
  }

  /** Each slot holds the last value seen for its month, and a year's row has a value in
      a slot exactly when some point falls in that month. */
  lemma {:induction false} BucketSlots(points: seq<MonthlyValue>, year: int, month: MonthIndex)
    requires year in Bucket(points).rows
    ensures Bucket(points).rows[year][month] == LastValue(points, year, month)
  {
    var init := points[..|points| - 1];
    var p := points[|points| - 1];
    var before := Bucket(init);
    if year in before.rows {
      BucketSlots(init, year, month);
    } else {
      assert p.year == year;
      NoYearNoValue(init, year, month);
    }
  }

  lemma {:induction false} NoYearNoValue(points: seq<MonthlyValue>, year: int, month: MonthIndex)
    requires year !in Bucket(points).rows
    ensures LastValue(points, year, month) == None
  {
    if points != [] {
      var init := points[..|points| - 1];
      NoYearNoValue(init, year, month);
    }
  }

  // ---------------------------------------------------------------------------------------
  // The order of the rows

  /** `Array.from(yearMap.keys()).sort()`: the years sorted as text. */
  function SortedYears(ym: YearMap): (r: seq<int>)
    ensures multiset(r) == multiset(ym.keys) && SortedAsText(r)
  {
    SortAsText(ym.keys)
  }

  /** The sorted years are the years of the points, each once. */
  lemma SortedYearsAreTheYears(points: seq<MonthlyValue>, year: int)
    ensures year in SortedYears(Bucket(points)) <==> HasYear(points, year)
  {
    var ym := Bucket(points);
    BucketYears(points, year);
    assert year in SortedYears(ym) <==> year in multiset(ym.keys);
  }

  /** When every year has four digits the text order is the numeric order: the rows come out
      in strictly ascending years. */
  lemma FourDigitYearsAscend(points: seq<MonthlyValue>)
    requires forall i :: 0 <= i < |points| ==> 1000 <= points[i].year <= 9999
    ensures var r := SortedYears(Bucket(points));
            forall i, j :: 0 <= i < j < |r| ==> r[i] < r[j]
  {
    var r := SortedYears(Bucket(points));
    forall i, j | 0 <= i < j < |r|
      ensures r[i] < r[j]
    {
      FourDigitPair(points, i, j);
    }
  }

  lemma FourDigitPair(points: seq<MonthlyValue>, i: int, j: int)
    requires forall i :: 0 <= i < |points| ==> 1000 <= points[i].year <= 9999
    requires 0 <= i < j < |SortedYears(Bucket(points))|
    ensures SortedYears(Bucket(points))[i] < SortedYears(Bucket(points))[j]
  {
    var ym := Bucket(points);
    FourDigitKeys(points);
    AscendingPair(ym.keys, SortedYears(ym), i, j);
  }

  lemma FourDigitKeys(points: seq<MonthlyValue>)
    requires forall i :: 0 <= i < |points| ==> 1000 <= points[i].year <= 9999
    ensures forall y :: y in Bucket(points).keys ==> 1000 <= y <= 9999
  {
    forall y | y in Bucket(points).keys
      ensures 1000 <= y <= 9999
    {
      FourDigitKey(points, y);
    }
  }

  lemma FourDigitKey(points: seq<MonthlyValue>, year: int)
    requires forall i :: 0 <= i < |points| ==> 1000 <= points[i].year <= 9999
    requires year in Bucket(points).keys
    ensures 1000 <= year <= 9999
  {
    BucketYears(points, year);
  }

  /** Sorting distinct four-digit keys as text sorts them strictly ascending. */
  lemma AscendingPair(keys: seq<int>, r: seq<int>, i: int, j: int)
    requires forall y :: y in keys ==> 1000 <= y <= 9999
    requires forall a, b :: 0 <= a < b < |keys| ==> keys[a] != keys[b]
    requires multiset(r) == multiset(keys) && SortedAsText(r) && 0 <= i < j < |r|
    ensures r[i] < r[j]
  {
    PermutedMember(keys, r, i);
    PermutedMember(keys, r, j);
    FourDigitTextOrder(r[i], r[j]);
    DistinctSorted(keys, r, i, j);
  }

  lemma PermutedMember(keys: seq<int>, r: seq<int>, i: int)
    requires multiset(r) == multiset(keys) && 0 <= i < |r|
    ensures r[i] in keys
  {
    assert r[i] in multiset(r);
  }

  /** A permutation of a sequence without repetitions has none either. */
  lemma DistinctSorted(keys: seq<int>, r: seq<int>, i: int, j: int)
    requires forall a, b :: 0 <= a < b < |keys| ==> keys[a] != keys[b]
    requires multiset(r) == multiset(keys) && 0 <= i < j < |r|
    ensures r[i] != r[j]
  {
    if r[i] == r[j] {
      var x := r[i];
      assert r == r[..j] + r[j..];
      assert x in multiset(r[..j]) && x in multiset(r[j..]);
      assert multiset(r)[x] >= 2;
      AtMostOnce(keys, x);
      assert false;
    }
  }

  lemma {:induction false} AtMostOnce(keys: seq<int>, x: int)
    requires forall a, b :: 0 <= a < b < |keys| ==> keys[a] != keys[b]
    ensures multiset(keys)[x] <= 1
  {
    if keys != [] {
      var init := keys[..|keys| - 1];
      AtMostOnce(init, x);
      assert keys == init + [keys[|keys| - 1]];
      if keys[|keys| - 1] == x {
        assert x !in init;
      }
    }
  }

  // ---------------------------------------------------------------------------------------
  // The rows of a table

  /** A row of a table: the year, its twelve slots and what the table shows for the year. */
  datatype GridRow<S> = GridRow(year: int, values: Row, summary: S)

  /** `years.map(year => ...)`: the row of each of `years`, in that order. */
  function RowsOf<S>(ym: YearMap, years: seq<int>, summary: Row -> S): (rows: seq<GridRow<S>>)
    requires forall k :: 0 <= k < |years| ==> years[k] in ym.rows
    ensures |rows| == |years|
    ensures forall k :: 0 <= k < |years| ==> rows[k].year == years[k] && rows[k].values == ym.rows[years[k]]
    ensures forall k :: 0 <= k < |years| ==> rows[k].summary == summary(rows[k].values)
  {
    if years == [] then []
    else
      var year := years[|years| - 1];
      var values := ym.rows[year];
      RowsOf(ym, years[..|years| - 1], summary) + [GridRow(year, values, summary(values))]
  }

  lemma SortedYearsAreKeys(ym: YearMap)
    requires Valid(ym)
    ensures forall k :: 0 <= k < |SortedYears(ym)| ==> SortedYears(ym)[k] in ym.rows
  {
    var ys := SortedYears(ym);
    forall k | 0 <= k < |ys|
      ensures ys[k] in ym.rows
    {
      assert ys[k] in multiset(ys);
    }
  }

  /** The rows the points give: the grid filled from them, then one row per year in the order
      of `sort()`. */
  function Grid<S>(points: seq<MonthlyValue>, summary: Row -> S): seq<GridRow<S>> {
    var ym := Bucket(points);
    SortedYearsAreKeys(ym);
    RowsOf(ym, SortedYears(ym), summary)
  }

  /** There is a row for a year exactly when some point falls in it. */
  lemma GridYears<S>(points: seq<MonthlyValue>, summary: Row -> S, year: int)
    ensures (exists k :: 0 <= k < |Grid(points, summary)| && Grid(points, summary)[k].year == year)
        <==> HasYear(points, year)
  {
    var ym := Bucket(points);
    var ys := SortedYears(ym);
    SortedYearsAreTheYears(points, year);
    if year in ys {
      var k :| 0 <= k < |ys| && ys[k] == year;
      assert Grid(points, summary)[k].year == year;
    }
  }

  /** No year has two rows. */
  lemma GridDistinct<S>(points: seq<MonthlyValue>, summary: Row -> S, i: int, j: int)
    requires 0 <= i < j < |Grid(points, summary)|
    ensures Grid(points, summary)[i].year != Grid(points, summary)[j].year
  {
    var ym := Bucket(points);
    DistinctSorted(ym.keys, SortedYears(ym), i, j);
  }

  /** Each row has twelve slots, slot `m` holding the value of the last point dated in that
      month of the row's year, or `null`, and shows the summary of those slots. */
  lemma GridSlots<S>(points: seq<MonthlyValue>, summary: Row -> S, k: int, month: MonthIndex)
    requires 0 <= k < |Grid(points, summary)|
    ensures |Grid(points, summary)[k].values| == 12
    ensures Grid(points, summary)[k].values[month] == LastValue(points, Grid(points, summary)[k].year, month)
    ensures Grid(points, summary)[k].summary == summary(Grid(points, summary)[k].values)
  {
    var ym := Bucket(points);
    SortedYearsAreKeys(ym);
    BucketSlots(points, Grid(points, summary)[k].year, month);
  }

  /** With four-digit years the rows come out in ascending years. */
  lemma GridAscends<S>(points: seq<MonthlyValue>, summary: Row -> S, i: int, j: int)
    requires forall n :: 0 <= n < |points| ==> 1000 <= points[n].year <= 9999
    requires 0 <= i < j < |Grid(points, summary)|
    ensures Grid(points, summary)[i].year < Grid(points, summary)[j].year
  {
    FourDigitPair(points, i, j);
  }

  // ---------------------------------------------------------------------------------------
  // Cells

  /** The colour class a table gives a figure: none, green, yellow or red. */
  datatype RateColour = NoColour | Green | Yellow | Red

  /** `formatValue`: a dash for an empty slot, otherwise the value to two decimals. */
  function FormatValue(value: Option<real>): (r: string)
    ensures r == "-" <==> value.None?
    ensures |r| >= 1 && (value.Some? ==> (r[0] == '-' <==> value.value < 0.0))
  {
    match value
    case None => "-"
    case Some(v) => ToFixed2(v)
  }
}
