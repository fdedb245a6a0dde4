/** The table of one fund: the year-by-month grid of monthly closes, each year's change from
    its first to its last close, and how a change is written and coloured. */
module EtfTable {
  import opened Wrappers
  import opened Text
  import opened MonthGrid

  /** `[...xs].reverse()`. */
  function Reverse<T>(xs: seq<T>): (r: seq<T>)
    ensures |r| == |xs|
  {
    if xs == [] then [] else [xs[|xs| - 1]] + Reverse(xs[..|xs| - 1])
  }

  /** `values.find(v => v !== null)`: the first value that is there, if any. */
  function Find(values: Row): (r: Option<real>)
    ensures r.None? <==> AllNull(values)
    ensures r.Some? ==> exists i :: 0 <= i < |values| && values[i] == r && AllNull(values[..i])
  {
    if values == [] then None
    else if values[0].Some? then
      assert AllNull(values[..0]);
      values[0]
    else
      var r := Find(values[1..]);
      if r.Some? then
        var i :| 0 <= i < |values[1..]| && values[1..][i] == r && AllNull(values[1..][..i]);
        assert values[1..][..i] == values[1..i + 1];
        assert values[i + 1] == r && AllNull(values[..i + 1]);
        r
      else r
  }

  /** `months.find(v => v !== null)`: the first close of the year. */
  function FirstClose(months: Row): Option<real> {
    Find(months)
  }

  /** `[...months].reverse().find(v => v !== null)`: the last close of the year. */
  function LastClose(months: Row): Option<real> {
    Find(Reverse(months))
  }

  /** The first close is the value of the earliest month that has one. */
  lemma FirstCloseSpec(months: Row)
    ensures FirstClose(months).None? <==> AllNull(months)
    ensures FirstClose(months).Some? ==>
              exists i :: 0 <= i < |months| && months[i] == FirstClose(months)
                          && forall j :: 0 <= j < i ==> months[j].None?
  {
    if FirstClose(months).Some? {
      var i :| 0 <= i < |months| && months[i] == FirstClose(months) && AllNull(months[..i]);
      assert forall j :: 0 <= j < i ==> months[j] == months[..i][j];
    }
  }

  /** The value of the latest slot that has one, if any. */
  function FindLast(values: Row): (r: Option<real>)
    ensures r.None? <==> AllNull(values)
    ensures r.Some? ==> exists i :: 0 <= i < |values| && values[i] == r && AllNull(values[i + 1..])
  {
    if values == [] then None
    else
      var n := |values| - 1;
      if values[n].Some? then
        assert AllNull(values[n + 1..]);
        values[n]
      else
        var r := FindLast(values[..n]);
        if r.Some? then
          var i :| 0 <= i < n && values[..n][i] == r && AllNull(values[..n][i + 1..]);
          assert values[i + 1..] == values[..n][i + 1..] + [values[n]];
          assert values[i] == r && AllNull(values[i + 1..]);
          r
        else r
  }

  /** Searching the reversed copy from the front is searching the original from the back. */
  lemma {:induction false} FindReversed(values: Row)
    ensures Find(Reverse(values)) == FindLast(values)
  {
    if values != [] {
      var n := |values| - 1;
      var rest := Reverse(values[..n]);
      assert Reverse(values) == [values[n]] + rest;
      assert ([values[n]] + rest)[1..] == rest;
      FindReversed(values[..n]);
    }
  }

  /** A year has a last close exactly when it has a close at all. */
  lemma LastCloseNone(months: Row)
    ensures LastClose(months).None? <==> AllNull(months)
  {
    FindReversed(months);
  }

  /** The last close is the value of the latest month that has one. */
  lemma LastCloseSpec(months: Row)
    requires LastClose(months).Some?
    ensures exists i :: 0 <= i < |months| && months[i] == LastClose(months)
                        && forall j :: i < j < |months| ==> months[j].None?
  {
    FindReversed(months);
    var i :| 0 <= i < |months| && months[i] == LastClose(months) && AllNull(months[i + 1..]);
    assert forall j :: i < j < |months| ==> months[j] == months[i + 1..][j - i - 1];
  }

  /** `firstValue && lastValue`: a close is a usable operand only when it is there and is not
      zero, since `0` is falsy. */
  predicate Truthy(value: Option<real>) {
    value.Some? && value.value != 0.0
  }

  /** `yearlyChange`: the change in percent from the first to the last close of the year, and
      `null` unless both closes are there and neither is zero. */
  function YearlyChange(months: Row): (r: Option<real>)
    ensures r.Some? <==> Truthy(FirstClose(months)) && Truthy(LastClose(months))
  {
    var firstValue := FirstClose(months);
    var lastValue := LastClose(months);
    if Truthy(firstValue) && Truthy(lastValue) then
      Some((lastValue.value - firstValue.value) / firstValue.value * 100.0)
    else None
  }

  /** A year without closes has no change. */
  lemma NoClosesNoChange(months: Row)
    requires AllNull(months)
    ensures YearlyChange(months) == None
  {
  }

  /** A year whose first or last close is zero shows no change either. */
  lemma ZeroCloseNoChange(months: Row)
    requires FirstClose(months) == Some(0.0) || LastClose(months) == Some(0.0)
    ensures YearlyChange(months) == None
  {
  }

  /** With a positive first close the change is not negative exactly when the year closed no
      lower than it opened. */
  lemma ChangeSign(months: Row)
    requires YearlyChange(months).Some? && FirstClose(months).value > 0.0
    ensures YearlyChange(months).value >= 0.0 <==> LastClose(months).value >= FirstClose(months).value
  {
    var f, l := FirstClose(months).value, LastClose(months).value;
    if l >= f {
      assert (l - f) / f >= 0.0;
    } else {
      assert (l - f) / f < 0.0;
    }
  }

  /** The change takes the year from its first close to its last: applied to the first close
      it gives the last. */
  lemma ChangeRoundTrip(months: Row)
    requires YearlyChange(months).Some?
    ensures var f := FirstClose(months).value;
            f + f * YearlyChange(months).value / 100.0 == LastClose(months).value
  {
  }

  /** A year with a single close has a change of zero, unless that close is zero. */
  lemma SingleCloseNoChange(months: Row, m: int, v: real)
    requires 0 <= m < |months| && months[m] == Some(v) && v != 0.0
    requires forall j :: 0 <= j < |months| && j != m ==> months[j].None?
    ensures YearlyChange(months) == Some(0.0)
  {
    FirstCloseSpec(months);
    LastCloseNone(months);
    LastCloseSpec(months);
  }

  /** `organizeDataByYear`: fills the grid point by point, then maps the sorted years to rows of
      the year, its twelve closes and its change. */
  method OrganizeDataByYear(points: seq<MonthlyValue>) returns (rows: seq<GridRow<Option<real>>>)
    ensures rows == Grid(points, YearlyChange)
  {
    var yearMap := Organize(points);
    SortedYearsAreKeys(yearMap);
    rows := RowsOf(yearMap, SortedYears(yearMap), YearlyChange);
  }

  /** `formatPercentage`: a dash for no change, otherwise the change to two decimals with `%`,
      signed `+` when it is not negative and `-` when it is. */
  function FormatChange(value: Option<real>): (r: string)
    ensures r == "-" <==> value.None?
    ensures |r| >= 1 && (value.Some? ==> r[|r| - 1] == '%')
    ensures value.Some? ==> (r[0] == '+' <==> value.value >= 0.0)
    ensures value.Some? ==> (r[0] == '-' <==> value.value < 0.0)
  {
    match value
    case None => "-"
    case Some(v) =>
      var sign := if v >= 0.0 then "+" else "";
      sign + ToFixed2(v) + "%"
  }

  /** `getChangeColor`: green for a change that is not negative, red for a loss, no colour for
      no change. */
  function ChangeColour(value: Option<real>): (c: RateColour)
    ensures c == NoColour <==> value.None?
    ensures c == Green <==> value.Some? && value.value >= 0.0
    ensures c == Red <==> value.Some? && value.value < 0.0
  {
    match value
    case None => NoColour
    case Some(v) => if v >= 0.0 then Green else Red
  }

  /** The colour and the sign agree: green exactly when the text starts with `+`. */
  lemma ColourMatchesSign(value: Option<real>)
    requires value.Some?
    ensures ChangeColour(value) == Green <==> FormatChange(value)[0] == '+'
  {
  }
}
