/** The monthly inflation series of one country: reading the bundled CSV files, restricting a
    series to a date range, and the table of countries that have a file. */
module InflationData {
  import opened Wrappers
  import opened Text
  import opened Calendar

  /** One month of a series: the rate in percent and its `year-MM-01` label. */
  datatype InflationDataPoint = InflationDataPoint(year: int, month: int, value: real, dateString: string)

  // ---------------------------------------------------------------------------------------
  // Reading a CSV file

  /** `${year}-${String(month).padStart(2, '0')}-01`. */
  function DateString(year: int, month: int): string {
    IntToString(year) + "-" + TwoDigits(month) + "-01"
  }

  /** Element `i` of a destructured array: `undefined` past its end. */
  function Field(parts: seq<string>, i: nat): Option<string> {
    if i < |parts| then Some(parts[i]) else None
  }

  /** `parseInt(field, 10)`; `parseInt(undefined)` is `NaN`. */
  function IntField(field: Option<string>): Option<int> {
    match field
    case None => None
    case Some(f) => ParseInt(f)
  }

  /** `parseFloat(field)`; `parseFloat(undefined)` is `NaN`. */
  function RealField(field: Option<string>): Option<real> {
    match field
    case None => None
    case Some(f) => ParseFloat(f)
  }

  /** The point a raw data line yields: none for a blank line, otherwise the point its
      comma-separated fields give. */
  function LinePoint(raw: string): Option<InflationDataPoint> {
    var line := Trim(raw);
    if line == [] then None else FieldsPoint(Split(line, ','))
  }

  /** The first three fields read as year, month and value, and no point unless all three
      are numbers. */
  function FieldsPoint(parts: seq<string>): Option<InflationDataPoint> {
    var yearNum := IntField(Field(parts, 0));
    var monthNum := IntField(Field(parts, 1));
    var valueNum := RealField(Field(parts, 2));
    if yearNum.Some? && monthNum.Some? && valueNum.Some? then
      Some(InflationDataPoint(yearNum.value, monthNum.value, valueNum.value,
                              DateString(yearNum.value, monthNum.value)))
    else None
  }

  function Point<T>(line: Option<T>): seq<T> {
    match line
    case None => []
    case Some(p) => [p]
  }

  /** The values `f` yields on `xs`, in order: `push` of each present result. */
  function Collect<A, B>(xs: seq<A>, f: A -> Option<B>): (r: seq<B>)
    ensures |r| <= |xs|
  {
    if xs == [] then [] else Collect(xs[..|xs| - 1], f) + Point(f(xs[|xs| - 1]))
  }

  lemma CollectNext<A, B>(xs: seq<A>, lo: nat, i: nat, f: A -> Option<B>)
    requires lo <= i < |xs|
    ensures Collect(xs[lo..i + 1], f) == Collect(xs[lo..i], f) + Point(f(xs[i]))
  {
    assert xs[lo..i + 1][..i - lo] == xs[lo..i];
  }

  /** Collecting keeps the order: the results on two runs are those of the first followed by
      those of the second. */
  lemma {:induction false} CollectAppend<A, B>(a: seq<A>, b: seq<A>, f: A -> Option<B>)
    ensures Collect(a + b, f) == Collect(a, f) + Collect(b, f)
    decreases |b|
  {
    if b == [] {
      assert a + b == a;
    } else {
      var init, x := b[..|b| - 1], b[|b| - 1];
      var last := Point(f(x));
      assert a + b == (a + init) + [x] && b == init + [x];
      calc {
        Collect(a + b, f);
        { CollectSnoc(a + init, x, f); }
        Collect(a + init, f) + last;
        { CollectAppend(a, init, f); }
        (Collect(a, f) + Collect(init, f)) + last;
        Collect(a, f) + (Collect(init, f) + last);
        { CollectSnoc(init, x, f); }
        Collect(a, f) + Collect(b, f);
      }
    }
  }

  lemma CollectSnoc<A, B>(xs: seq<A>, x: A, f: A -> Option<B>)
    ensures Collect(xs + [x], f) == Collect(xs, f) + Point(f(x))
  {
    assert (xs + [x])[..|xs|] == xs;
  }

  /** The lines of a file: the trimmed text split at line feeds. */
  function Lines(csvText: string): (r: seq<string>)
    ensures |r| >= 1
  {
    Split(Trim(csvText), '\n')
  }

  /** `parseCsvData`: every line after the first (the header) read as a data line. The
      country code is not used. */
  method ParseCsvData(csvText: string, iso3: string) returns (dataPoints: seq<InflationDataPoint>)
    ensures dataPoints == Collect(Lines(csvText)[1..], LinePoint)
  {
    var lines := Split(Trim(csvText), '\n');
    dataPoints := ReadDataLines(lines);
  }

  /** The loop of `parseCsvData`, from the second line on. */
  method ReadDataLines(lines: seq<string>) returns (dataPoints: seq<InflationDataPoint>)
    requires |lines| >= 1
    ensures dataPoints == Collect(lines[1..], LinePoint)
  {
    dataPoints := [];
    var i := 1;
    while i < |lines|
      invariant 1 <= i <= |lines|
      invariant dataPoints == Collect(lines[1..i], LinePoint)
    {
      var point := LinePoint(lines[i]);
      CollectNext(lines, 1, i, LinePoint);
      dataPoints := dataPoints + Point(point);
      i := i + 1;
    }
    assert lines[1..i] == lines[1..];
  }

  /** A line that is blank or white space yields no point. */
  lemma BlankLineSkipped(raw: string)
    requires IsBlank(raw)
    ensures LinePoint(raw) == None
  {
    TrimEmptyIffBlank(raw);
  }

  /** A line yields a point exactly when it is not blank and its year, month and value fields
      all read as numbers; the point carries those numbers and the matching label. */
  lemma LinePointSpec(raw: string)
    ensures var parts := Split(Trim(raw), ',');
            LinePoint(raw).Some? <==>
              !IsBlank(raw) && IntField(Field(parts, 0)).Some? && IntField(Field(parts, 1)).Some?
              && RealField(Field(parts, 2)).Some?
    ensures LinePoint(raw).Some? ==>
              var p := LinePoint(raw).value;
              var parts := Split(Trim(raw), ',');
              IntField(Field(parts, 0)) == Some(p.year) && IntField(Field(parts, 1)) == Some(p.month)
              && RealField(Field(parts, 2)) == Some(p.value) && p.dateString == DateString(p.year, p.month)
  {
    TrimEmptyIffBlank(raw);
  }

  /** A file of a single line (the header alone) yields no point. */
  lemma HeaderOnly(csvText: string)
    requires Free(Trim(csvText), '\n')
    ensures Lines(csvText)[1..] == []
  {
    SplitPrefix(Trim(csvText), [], '\n');
    assert Trim(csvText) + [] == Trim(csvText);
  }

  /** The header is never read as data: for a text that trimming leaves as it is, the data
      lines are exactly the lines after the first line feed. */
  lemma HeaderIgnored(header: string, body: string)
    requires Free(header, '\n') && Trim(header + "\n" + body) == header + "\n" + body
    ensures Lines(header + "\n" + body)[1..] == Split(body, '\n')
  {
    assert header + "\n" + body == header + ("\n" + body);
    SplitPrefix(header, "\n" + body, '\n');
    assert ("\n" + body)[1..] == body;
  }

  /** The line a writer of the format produces for a rate that is a whole, non-negative
      number is read back as that point. Rates with a sign or a fraction are the next
      lemma's. */
  lemma WrittenLineRead(year: int, month: int, value: int)
    requires year >= 0 && month >= 0 && value >= 0
    ensures LinePoint(IntToString(year) + "," + IntToString(month) + "," + IntToString(value))
         == Some(InflationDataPoint(year, month, value as real, DateString(year, month)))
  {
    var y, m, v := IntToString(year), IntToString(month), IntToString(value);
    var line := y + "," + m + "," + v;
    assert line == y + [','] + m + [','] + v;
    NumeralTrimmed(year, month, value);
    assert Split(line, ',') == [y, m, v] by {
      NumeralFree(year, ',');
      NumeralFree(month, ',');
      NumeralFree(value, ',');
      SplitThree(y, m, v, ',');
    }
    WrittenFieldsRead(year, month, value);
  }

  /** The line a writer of the format produces for a rate written with a point and
      possibly a minus sign, such as `2024,3,-0.4`, is read back as that point. */
  lemma WrittenDecimalLineRead(year: int, month: int, negative: bool, whole: nat, fraction: string)
    requires year >= 0 && month >= 0 && AllDigits(fraction) && fraction != []
    ensures LinePoint(IntToString(year) + "," + IntToString(month) + ","
                      + DecimalNumeral(negative, whole, fraction))
         == Some(InflationDataPoint(year, month, DecimalValue(negative, whole, fraction),
                                    DateString(year, month)))
  {
    var y, m, v := IntToString(year), IntToString(month), DecimalNumeral(negative, whole, fraction);
    var line := y + "," + m + "," + v;
    assert Trim(line) == line && line != [] by {
      assert line == y + [','] + m + [','] + v;
      DecimalLineTrimmed(year, month, negative, whole, fraction);
    }
    assert Split(line, ',') == [y, m, v] by {
      assert line == y + [','] + m + [','] + v;
      NumeralFree(year, ',');
      NumeralFree(month, ',');
      DecimalFree(negative, whole, fraction, ',');
      SplitThree(y, m, v, ',');
    }
    LinePointOfFields(line, [y, m, v]);
    WrittenDecimalFieldsRead(year, month, negative, whole, fraction);
  }

  /** A non-blank line that trimming leaves as it is yields the point of its fields. */
  lemma LinePointOfFields(line: string, parts: seq<string>)
    requires line != [] && Trim(line) == line && Split(line, ',') == parts
    ensures LinePoint(line) == FieldsPoint(parts)
  {
  }

  lemma WrittenDecimalFieldsRead(year: int, month: int, negative: bool, whole: nat, fraction: string)
    requires year >= 0 && month >= 0 && AllDigits(fraction) && fraction != []
    ensures FieldsPoint([IntToString(year), IntToString(month), DecimalNumeral(negative, whole, fraction)])
         == Some(InflationDataPoint(year, month, DecimalValue(negative, whole, fraction),
                                    DateString(year, month)))
  {
    ParseIntToString(year);
    ParseIntToString(month);
    ParseFloatOfDecimal(negative, whole, fraction);
  }

  /** A line of two numerals and a decimal literal separated by commas is not changed by
      trimming. */
  lemma DecimalLineTrimmed(year: int, month: int, negative: bool, whole: nat, fraction: string)
    requires year >= 0 && month >= 0 && AllDigits(fraction) && fraction != []
    ensures var line := IntToString(year) + [','] + IntToString(month) + [',']
                        + DecimalNumeral(negative, whole, fraction);
            Trim(line) == line
  {
    var y, v := IntToString(year), DecimalNumeral(negative, whole, fraction);
    var line := y + [','] + IntToString(month) + [','] + v;
    assert line[0] == y[0];
    assert v[|v| - 1] == fraction[|fraction| - 1];
    assert line[|line| - 1] == v[|v| - 1];
    TrimStartUnchanged(line);
  }

  lemma WrittenFieldsRead(year: int, month: int, value: int)
    requires year >= 0 && month >= 0 && value >= 0
    ensures FieldsPoint([IntToString(year), IntToString(month), IntToString(value)])
         == Some(InflationDataPoint(year, month, value as real, DateString(year, month)))
  {
    ParseIntToString(year);
    ParseIntToString(month);
    ParseFloatOfInteger(value);
  }

  /** A line of three numerals separated by commas is not changed by trimming. */
  lemma NumeralTrimmed(a: int, b: int, c: int)
    requires a >= 0 && b >= 0 && c >= 0
    ensures var line := IntToString(a) + [','] + IntToString(b) + [','] + IntToString(c);
            line != [] && Trim(line) == line
  {
    var x, z := IntToString(a), IntToString(c);
    var line := x + [','] + IntToString(b) + [','] + z;
    assert line[0] == x[0];
    assert line[|line| - 1] == z[|z| - 1];
    TrimStartUnchanged(line);
  }

  /** The label splits at its dashes into the numeral of the year, the month as two digits
      (which read back as the month) and `01`. */
  lemma DateStringPieces(year: int, month: int)
    requires year >= 0 && 0 <= month < 100
    ensures Split(DateString(year, month), '-') == [IntToString(year), TwoDigits(month), "01"]
  {
    DateStringJoined(year, month);
    NumeralFree(year, '-');
    TwoDigitsFree(month, '-');
    SplitThree(IntToString(year), TwoDigits(month), "01", '-');
  }

  lemma DateStringJoined(year: int, month: int)
    ensures DateString(year, month) == IntToString(year) + ['-'] + TwoDigits(month) + ['-'] + "01"
  {
  }

  // ---------------------------------------------------------------------------------------
  // Restricting to a date range

  /** The test of the filter: the first of the point's month (`new Date(year, month - 1, 1)`)
      lies on or after the start and on or before the end, where given. The bounds stand for
      `Date` objects, so they are taken to be real calendar dates. */
  predicate InRange(p: InflationDataPoint, startDate: Option<Day>, endDate: Option<Day>) {
    var pointDate := FirstOfMonth(p.year, p.month - 1);
    !(startDate.Some? && Before(pointDate, startDate.value))
    && !(endDate.Some? && Before(endDate.value, pointDate))
  }

  function KeepInRange(data: seq<InflationDataPoint>, startDate: Option<Day>, endDate: Option<Day>)
    : (r: seq<InflationDataPoint>)
    ensures |r| <= |data|
    ensures forall i :: 0 <= i < |r| ==> InRange(r[i], startDate, endDate)
  {
    if data == [] then []
    else
      var last := data[|data| - 1];
      KeepInRange(data[..|data| - 1], startDate, endDate) + (if InRange(last, startDate, endDate) then [last] else [])
  }

  /** `filterByDateRange`: the series itself when neither bound is given, otherwise the
      points in range. */
  function FilterByDateRange(data: seq<InflationDataPoint>, startDate: Option<Day>, endDate: Option<Day>)
    : (r: seq<InflationDataPoint>)
    ensures startDate.None? && endDate.None? ==> r == data
    ensures forall i :: 0 <= i < |r| ==> InRange(r[i], startDate, endDate)
  {
    if startDate.None? && endDate.None? then data else KeepInRange(data, startDate, endDate)
  }

  /** The shortcut for no bounds agrees with the filter: without bounds every point is in
      range. */
  lemma {:induction false} UnboundedKeepsAll(data: seq<InflationDataPoint>)
    ensures KeepInRange(data, None, None) == data
  {
    if data != [] {
      UnboundedKeepsAll(data[..|data| - 1]);
      assert data == data[..|data| - 1] + [data[|data| - 1]];
    }
  }

  /** The filter keeps the order: filtering a concatenation filters each part. */
  lemma {:induction false} KeepInRangeAppend(a: seq<InflationDataPoint>, b: seq<InflationDataPoint>,
                                            startDate: Option<Day>, endDate: Option<Day>)
    ensures KeepInRange(a + b, startDate, endDate) == KeepInRange(a, startDate, endDate) + KeepInRange(b, startDate, endDate)
    decreases |b|
  {
    if b == [] {
      assert a + b == a;
    } else {
      var init, x := b[..|b| - 1], b[|b| - 1];
      var last := if InRange(x, startDate, endDate) then [x] else [];
      assert a + b == (a + init) + [x] && b == init + [x];
      calc {
        KeepInRange(a + b, startDate, endDate);
        { KeepInRangeSnoc(a + init, x, startDate, endDate); }
        KeepInRange(a + init, startDate, endDate) + last;
        { KeepInRangeAppend(a, init, startDate, endDate); }
        (KeepInRange(a, startDate, endDate) + KeepInRange(init, startDate, endDate)) + last;
        KeepInRange(a, startDate, endDate) + (KeepInRange(init, startDate, endDate) + last);
        { KeepInRangeSnoc(init, x, startDate, endDate); }
        KeepInRange(a, startDate, endDate) + KeepInRange(b, startDate, endDate);
      }
    }
  }

  lemma KeepInRangeSnoc(xs: seq<InflationDataPoint>, x: InflationDataPoint, startDate: Option<Day>, endDate: Option<Day>)
    ensures KeepInRange(xs + [x], startDate, endDate)
         == KeepInRange(xs, startDate, endDate) + (if InRange(x, startDate, endDate) then [x] else [])
  {
    assert (xs + [x])[..|xs|] == xs;
  }

  /** A point survives the filter exactly when it is in the series and in range. */
  lemma {:induction false} FilterMembership(data: seq<InflationDataPoint>, startDate: Option<Day>, endDate: Option<Day>,
                                           p: InflationDataPoint)
    ensures p in FilterByDateRange(data, startDate, endDate) <==> p in data && InRange(p, startDate, endDate)
  {
    if startDate.None? && endDate.None? {
      assert InRange(p, None, None);
    } else {
      KeepMembership(data, startDate, endDate, p);
    }
  }

  lemma {:induction false} KeepMembership(data: seq<InflationDataPoint>, startDate: Option<Day>, endDate: Option<Day>,
                                         p: InflationDataPoint)
    ensures p in KeepInRange(data, startDate, endDate) <==> p in data && InRange(p, startDate, endDate)
  {
    if data != [] {
      var init := data[..|data| - 1];
      var last := data[|data| - 1];
      KeepMembership(init, startDate, endDate, p);
      assert data == init + [last];
    }
  }

  /** With a start on the first of a month, a point (of a month from 1 to 12 and a year
      outside 0 to 99) is kept by the start bound exactly when its year and month are not
      earlier. */
  lemma StartBoundByMonth(p: InflationDataPoint, start: Day)
    requires 1 <= p.month <= 12 && !(0 <= p.year <= 99) && start.day == 1
    ensures InRange(p, Some(start), None) <==>
              (p.year > start.year || (p.year == start.year && p.month >= start.month))
  {
    FirstOfMonthAsWritten(p.year, p.month);
  }

  // ---------------------------------------------------------------------------------------
  // The countries with a bundled file

  datatype CountryMetadata = CountryMetadata(
    name: string, iso3: string, iso2: string, continent: string, group: string,
    startYear: int, endYear: int)

  function Countries(): seq<CountryMetadata> {
    [ CountryMetadata("Australia", "AUS", "AU", "Oceania", "G20, OECD", 2000, 2023),
      CountryMetadata("Austria", "AUT", "AT", "Europe", "European Union, OECD", 2000, 2023),
      CountryMetadata("Belgium", "BEL", "BE", "Europe", "European Union, OECD", 2000, 2023),
      CountryMetadata("Brazil", "BRA", "BR", "South America", "G20", 2000, 2023),
      CountryMetadata("Canada", "CAN", "CA", "North America", "G7, G20, OECD", 2000, 2023),
      CountryMetadata("China", "CHN", "CN", "Asia", "G20", 2000, 2023),
      CountryMetadata("Denmark", "DNK", "DK", "Europe", "European Union, OECD", 2000, 2023),
      CountryMetadata("Finland", "FIN", "FI", "Europe", "European Union, OECD", 2000, 2023),
      CountryMetadata("France", "FRA", "FR", "Europe", "European Union, G7, G20, OECD", 2000, 2023),
      CountryMetadata("Germany", "DEU", "DE", "Europe", "European Union, G7, G20, OECD", 2000, 2023),
      CountryMetadata("Greece", "GRC", "GR", "Europe", "European Union, OECD", 2000, 2023),
      CountryMetadata("India", "IND", "IN", "Asia", "G20", 2000, 2023),
      CountryMetadata("Ireland", "IRL", "IE", "Europe", "European Union, OECD", 2000, 2023),
      CountryMetadata("Italy", "ITA", "IT", "Europe", "European Union, G7, G20, OECD", 2000, 2023),
      CountryMetadata("Japan", "JPN", "JP", "Asia", "G7, G20, OECD", 2000, 2023),
      CountryMetadata("Mexico", "MEX", "MX", "North America", "G20, OECD", 2000, 2023),
      CountryMetadata("Netherlands", "NLD", "NL", "Europe", "European Union, OECD", 2000, 2023),
      CountryMetadata("New Zealand", "NZL", "NZ", "Oceania", "OECD", 2000, 2023),
      CountryMetadata("Norway", "NOR", "NO", "Europe", "OECD", 2000, 2023),
      CountryMetadata("Poland", "POL", "PL", "Europe", "European Union, OECD", 2000, 2023),
      CountryMetadata("Portugal", "PRT", "PT", "Europe", "European Union, OECD", 2000, 2023),
      CountryMetadata("Russia", "RUS", "RU", "Europe/Asia", "G20", 2000, 2023),
      CountryMetadata("South Africa", "ZAF", "ZA", "Africa", "G20", 2000, 2023),
      CountryMetadata("South Korea", "KOR", "KR", "Asia", "G20, OECD", 2000, 2023),
      CountryMetadata("Spain", "ESP", "ES", "Europe", "European Union, G20, OECD", 2000, 2023),
      CountryMetadata("Sweden", "SWE", "SE", "Europe", "European Union, OECD", 2000, 2023),
      CountryMetadata("Switzerland", "CHE", "CH", "Europe", "OECD", 2000, 2023),
      CountryMetadata("Turkey", "TUR", "TR", "Europe/Asia", "G20, OECD", 2000, 2023),
      CountryMetadata("United Kingdom", "GBR", "GB", "Europe", "G7, G20, OECD", 2000, 2023),
      CountryMetadata("United States", "USA", "US", "North America", "G7, G20, OECD", 2000, 2023) ]
  }

  /** `countries.find(c => c.iso3 === iso3)`: the first entry with the code, if any. */
  function FindByIso3(countries: seq<CountryMetadata>, iso3: string): (r: Option<CountryMetadata>)
    ensures r.None? <==> forall i :: 0 <= i < |countries| ==> countries[i].iso3 != iso3
    ensures r.Some? ==> exists i :: 0 <= i < |countries| && countries[i] == r.value && r.value.iso3 == iso3
                          && forall j :: 0 <= j < i ==> countries[j].iso3 != iso3
  {
    if countries == [] then None
    else if countries[0].iso3 == iso3 then Some(countries[0])
    else
      var r := FindByIso3(countries[1..], iso3);
      assert r.Some? ==> exists i :: 1 <= i < |countries| && countries[i] == r.value
                            && forall j :: 0 <= j < i ==> countries[j].iso3 != iso3 by {
        if r.Some? {
          var k :| 0 <= k < |countries| - 1 && countries[1..][k] == r.value && r.value.iso3 == iso3
                   && forall j :: 0 <= j < k ==> countries[1..][j].iso3 != iso3;
          assert forall j :: 0 <= j < k + 1 ==> countries[j].iso3 != iso3 by {
            forall j | 0 <= j < k + 1 ensures countries[j].iso3 != iso3 {
              if j > 0 {
                assert countries[j] == countries[1..][j - 1];
              }
            }
          }
        }
      }
      r
  }

  function GetCountryByIso3(iso3: string): Option<CountryMetadata> {
    FindByIso3(Countries(), iso3)
  }
}
