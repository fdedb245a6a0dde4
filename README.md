# Wealth projection and inflation viewers, modelled in Dafny

This project models the computational core of a small personal-finance web application.

- **Wealth projection** (`Home.tsx`). A snapshot of settings holds the initial wealth, the yearly
  interest, inflation, the start year, the requested number of years, and lists of costs and
  investments. `calculateProjections` turns it into a year-by-year ledger:
  - the horizon is the requested number of years or the last year any entry reaches, whichever
    is later;
  - each year earns interest only while wealth is positive;
  - each year adds inflation-indexed investments;
  - each year subtracts enabled costs, which are either fixed and inflation-indexed or a
    percentage of wealth after interest;
  - each year hands its ending wealth to the next.

  The page also adds, updates and removes entries by id, extends the horizon by ten years, and
  migrates stored costs that have no `enabled` flag.
- **Inflation data loading** (`inflationDataLoader.ts`):
  - the CSV reader `parseCsvData`, which skips the header, blank lines and malformed rows;
  - the month-granular date-range filter `filterByDateRange`;
  - the country table and its lookup by ISO 3166 alpha-3 code.
- **The inflation table** (`InflationTable.tsx`):
  - bucketing of monthly points into one 12-slot row per year;
  - the mean of each row;
  - the "average of yearly averages" over a whole series;
  - the colour thresholds and the formatting of cells.
- **The fund table** (`ETFTable.tsx`): the same bucketing, each year's change from its first to its
  last close, and the sign and colour of that change.
- **The inflation viewer** (`InflationViewer.tsx`):
  - calendar-date validation with Gregorian leap years;
  - clamping of the typed date fields;
  - the `YYYY-MM-DD` request dates (the `full-date` form of section 5.6 of RFC 3339);
  - the duplicate-free selection of countries;
  - the guard that stops a fetch;
  - the assembly of what a fetch loaded.

The modules follow the program:

- `Projection` is the engine. It has the specification functions `YearOf`, `WealthAt`, `Ledger`
  and `Horizon`, plus the loop methods `CalculateProjections`, `SimulateYears`, `ProjectYear`,
  `CollectInvestments` and `CollectCosts`, which are proved equal to them.
- `Home` holds the page state as the class `HomePage`, whose methods change its fields. It also
  has the entry and migration lemmas.
- `Lists` holds the update-by-id and remove-by-id operations that the page and the viewer share.
- `InflationData` is the loader.
- `MonthGrid` is the 12-slot bucketing shared by both tables.
- `InflationTable`, `EtfTable` and `InflationViewer` are the two tables and the viewer.
- `Text`, `Calendar` and `Wrappers` model the JavaScript primitives the core relies on:
  - `trim`, `split`, `parseInt`, `parseFloat`, `toString`, `padStart` and `toFixed(2)`;
  - the code-unit order of `Array.prototype.sort()` without a comparator;
  - the two-digit-year rule and month normalisation of `new Date(y, m, d)`;
  - the Gregorian month lengths;
  - the `Option` and `Result` values.

Amounts are exact `real` numbers. Loops that the source writes as loops are methods with loop
invariants, proved equal to recursive specification functions, and the properties are lemmas about
those functions.

## Model

| member | source | states |
|---|---|---|
| Projection.Computable | client/src/pages/Home.tsx:127-129 | the guard of the calculation: a positive initial wealth and non-negative interest and inflation rates; `CalculateProjections` computes nothing exactly when it fails |
| Projection.Pow | client/src/pages/Home.tsx:154 | `Math.pow` for a natural exponent; `PowAtLeastOne` proves a base of at least 1 gives at least 1, which `Multiplier` relies on |
| Projection.Multiplier | client/src/pages/Home.tsx:154 | the inflation factor `(1+inflation/100)^year` is at least 1 for non-negative inflation |
| Projection.InvestmentLine | client/src/pages/Home.tsx:152-166 | one investment's line in one year, or none; its meaning (listed iff active with a positive indexed amount, at no less than the configured amount, worth that amount today) is proved by `InvestmentLineSpec` |
| Projection.InvestmentLineSpec | client/src/pages/Home.tsx:152-166 | an investment is listed in a year iff the year lies in its active window and its indexed amount is positive; the listed amount is at least the configured amount and its today's value is exactly the configured amount |
| Projection.CostLine | client/src/pages/Home.tsx:172-193 | one cost's line in one year, or none; its meaning (enabled, active and positive; fixed costs indexed, percentage costs a share of wealth after interest; today's value inflated back is the amount) is proved by `CostLineSpec` |
| Projection.CostLineSpec | client/src/pages/Home.tsx:172-193 | a cost is listed only when enabled, active and positive. A fixed cost is its amount indexed by inflation. A percentage cost is that percentage of wealth after interest, with no inflation factor, and is listed iff that product is positive; for either kind, the line's value in today's money times the inflation factor is its amount |
| Projection.Interest | client/src/pages/Home.tsx:146 | a year's interest; that it is 0 on a wealth at or below zero, the rate's share of a positive wealth, and never negative at a non-negative rate is proved by `InterestRule` |
| Projection.InterestRule | client/src/pages/Home.tsx:146 | interest is exactly 0 when wealth is not positive and `wealth*rate/100` otherwise; it is never negative for a non-negative rate |
| Projection.MaxReduce | client/src/pages/Home.tsx:131-138 | the reduce with `Math.max` is an upper bound of the start value and every element, and equals one of them |
| Projection.Total | client/src/pages/Home.tsx:157-195 | the sum of the listed amounts; `TotalAppend` proves each push raises it by exactly the pushed amount, and `CollectInvestments`/`CollectCosts` that it equals the running totals |
| Projection.TotalAppend | client/src/pages/Home.tsx:164 | a running total grows by exactly the amount of each pushed entry |
| Projection.VisitInvestment | client/src/pages/Home.tsx:153-165 | one call of the investment callback pushes exactly that investment's listed line, if any, and raises the running total by exactly its amount |
| Projection.VisitCost | client/src/pages/Home.tsx:173-191 | one call of the cost callback pushes exactly that cost's listed line, if any, and raises the running total by exactly its amount |
| Projection.CollectInvestments | client/src/pages/Home.tsx:149-167 | the `forEach` over investments pushes exactly the listed investment lines of the year, and its total is their sum |
| Projection.CollectCosts | client/src/pages/Home.tsx:169-193 | the `forEach` over costs pushes exactly the listed cost lines of the year, and its total is their sum |
| Projection.YearOf | client/src/pages/Home.tsx:145-207 | the record of year k carries year number k and calendar year startYear + k, starts at the wealth carried in, its totals are the sums of its lines, and ending wealth = starting wealth + interest + investments − costs |
| Projection.ProjectYear | client/src/pages/Home.tsx:145-207 | one iteration of the year loop builds exactly the year record of the specification |
| Projection.SimulateYears | client/src/pages/Home.tsx:141-210 | the year loop, threading the current wealth, produces exactly the specified ledger of that many years |
| Projection.CalculateProjections | client/src/pages/Home.tsx:126-213 | nothing is computed iff the initial wealth is not positive or the interest or inflation rate is negative; otherwise the result is the ledger over the horizon |
| Projection.Ledger | client/src/pages/Home.tsx:141-210 | the ledger of n years has exactly n records; `LedgerAt`, `LedgerStep` and `LedgerPrefix` state that record k is year k at the wealth carried into it |
| Projection.LedgerStep | client/src/pages/Home.tsx:197-209 | each year appends one record and hands its ending wealth to the next year |
| Projection.LedgerAt | client/src/pages/Home.tsx:144-210 | record k of the ledger is the year record of year k at the wealth carried into it |
| Projection.LedgerPrefix | client/src/pages/Home.tsx:144 | a longer horizon does not change the earlier years |
| Projection.LedgerNumbering | client/src/pages/Home.tsx:197-199 | record k has year number k and calendar year startYear + k |
| Projection.WealthAt | client/src/pages/Home.tsx:142-209 | `currentWealth` entering a year; `LedgerThreadsWealth` proves it starts at the initial wealth and is then each year's ending wealth |
| Projection.LedgerThreadsWealth | client/src/pages/Home.tsx:142-145 | year 0 starts at the initial wealth; every later year starts at the previous year's ending wealth |
| Projection.LedgerBalances | client/src/pages/Home.tsx:146-195 | each record's interest follows the interest rule, each total is the sum of its listed lines, and ending wealth = starting wealth + interest + investments − costs, with no floor at zero |
| Projection.NoInterestAfterLoss | client/src/pages/Home.tsx:146 | a year that ends at or below zero is followed by a year with no interest |
| Projection.InvestmentItems | client/src/pages/Home.tsx:152-166 | the lines the investment `forEach` pushes; `InvestmentItemsListed` proves they are, in order, the lines of the active investments with a positive amount |
| Projection.InvestmentItemsListed | client/src/pages/Home.tsx:152-166 | the listed investment lines are, in order, the lines of the active investments that have a positive amount |
| Projection.ActiveInvestments | client/src/pages/Home.tsx:153 | the active investments of a year are entries of the list whose window contains the year |
| Projection.EnabledCosts | client/src/pages/Home.tsx:173 | the enabled costs are entries of the list with `enabled` set |
| Projection.CostItems | client/src/pages/Home.tsx:172-193 | the lines the cost `forEach` pushes; `CostItemsIgnoreDisabled` and `CostLinesPositive` prove only enabled costs contribute and every line is positive |
| Projection.CostItemsIgnoreDisabled | client/src/pages/Home.tsx:173 | the cost lines of a year are the same when only the enabled costs are kept |
| Projection.YearOfIgnoresDisabled | client/src/pages/Home.tsx:173 | a disabled cost never changes a year record |
| Projection.LedgerIgnoresDisabled | client/src/pages/Home.tsx:173 | a disabled cost never changes any record of the ledger nor the wealth carried |
| Projection.LedgerLinesPositive | client/src/pages/Home.tsx:157-191 | every listed line of every record has a positive amount, and both totals are non-negative |
| Projection.YearLinesPositive | client/src/pages/Home.tsx:157-191 | every listed line of a year record has a positive amount, and both totals are non-negative |
| Projection.InvestmentLinesPositive | client/src/pages/Home.tsx:157-165 | every listed investment line is positive, so their total is non-negative |
| Projection.CostLinesPositive | client/src/pages/Home.tsx:183-191 | every listed cost line is positive, so their total is non-negative |
| Projection.AppendPositive | client/src/pages/Home.tsx:159 | pushing positive lines onto positive lines keeps them positive |
| Projection.PercentageCostIgnoresInflation | client/src/pages/Home.tsx:180 | a percentage cost's line does not depend on the inflation rate |
| Projection.WealthNeverFallsWithoutCosts | client/src/pages/Home.tsx:146-195 | without enabled costs and with a non-negative rate, no year ends below where it started |
| Projection.YearNeverFallsWithoutCosts | client/src/pages/Home.tsx:146-195 | without enabled costs and with a non-negative rate, a year record ends at or above its starting wealth |
| Projection.Horizon | client/src/pages/Home.tsx:131-139 | the number of simulated years; `HorizonCovers` and `HorizonIsLeast` prove it is the largest of the requested years and every entry's end year |
| Projection.HorizonCovers | client/src/pages/Home.tsx:131-139 | the horizon is at least the requested years and at least every cost's and investment's end year, disabled costs included |
| Projection.HorizonIsLeast | client/src/pages/Home.tsx:131-139 | the horizon is the requested years, 0, or the end year of some cost or investment |
| Projection.LedgerCoversActiveYears | client/src/pages/Home.tsx:139-144 | every year in which some entry is active lies inside the horizon |
| Projection.PowAtLeastOne | client/src/pages/Home.tsx:154 | a power of a base of at least 1 is at least 1 |
| Projection.FixedCostScenario | client/src/pages/Home.tsx:126-213 | a worked ledger with an initial wealth of 100000, a 7.5% rate, 3% inflation, thirty requested years and one fixed cost of 50000 over the first ten: the horizon is 30, and the interest, costs and ending wealth of the first two years |
| Projection.FixedCostYear0 | client/src/pages/Home.tsx:145-207 | year 0 of that scenario ends at 57500 |
| Projection.FixedCostYear1 | client/src/pages/Home.tsx:145-207 | year 1 of that scenario earns 4312.5, pays 51500 and ends at 10312.5 |
| Home.HomePage.constructor | client/src/pages/Home.tsx:24-32 | the initial state holds the page's default settings and empty lists |
| Home.HomePage.AddCost | client/src/pages/Home.tsx:82-93 | appends a blank fixed cost with the given id and changes nothing else |
| Home.HomePage.UpdateCost | client/src/pages/Home.tsx:95-97 | replaces the costs with that id and changes nothing else |
| Home.HomePage.RemoveCost | client/src/pages/Home.tsx:99-101 | drops the costs with that id and changes nothing else |
| Home.HomePage.AddInvestment | client/src/pages/Home.tsx:103-112 | appends a blank investment with the given id and changes nothing else |
| Home.HomePage.UpdateInvestment | client/src/pages/Home.tsx:114-116 | replaces the investments with that id and changes nothing else |
| Home.HomePage.RemoveInvestment | client/src/pages/Home.tsx:118-120 | drops the investments with that id and changes nothing else |
| Home.HomePage.ExtendYears | client/src/pages/Home.tsx:122-124 | adds exactly 10 to the requested years and changes nothing else |
| Home.HomePage.Recalculate | client/src/pages/Home.tsx:126-219 | leaves the projections untouched when the settings cannot be computed; otherwise sets them to the ledger over the horizon of the current snapshot |
| Home.NewCost | client/src/pages/Home.tsx:83-91 | the blank cost the add button appends; `BlankCostItems` proves it never yields a line and `YearOfIgnoresBlankCost` that adding it changes no record |
| Home.NewInvestment | client/src/pages/Home.tsx:104-110 | the blank investment the add button appends; `BlankInvestmentItems` proves it never yields a line and `YearOfIgnoresBlankInvestment` that adding it changes no record |
| Home.BlankCostItems | client/src/pages/Home.tsx:83-91 | a freshly added cost (amount 0) never produces a cost line |
| Home.BlankInvestmentItems | client/src/pages/Home.tsx:104-110 | a freshly added investment (amount 0) never produces an investment line |
| Home.YearOfIgnoresBlankCost | client/src/pages/Home.tsx:82-93 | adding a blank cost does not change any year record |
| Home.YearOfIgnoresBlankInvestment | client/src/pages/Home.tsx:103-112 | adding a blank investment does not change any year record |
| Home.LedgerIgnoresBlankCost | client/src/pages/Home.tsx:82-93 | adding a blank cost does not change any ledger |
| Home.LedgerIgnoresBlankInvestment | client/src/pages/Home.tsx:103-112 | adding a blank investment does not change any ledger |
| Home.YearOfIgnoresMaxYears | client/src/pages/Home.tsx:145-207 | the requested number of years does not influence any year record |
| Home.SameYearsSameLedger | client/src/pages/Home.tsx:141-210 | two snapshots with the same initial wealth and the same year records have the same ledger |
| Home.ExtendHorizon | client/src/pages/Home.tsx:122-124 | extending by ten years never shortens the horizon and reaches at least the new requested years |
| Home.ExtendKeepsLedger | client/src/pages/Home.tsx:122-124 | extending keeps every record of the previous ledger |
| Home.MigrateCost | client/src/pages/Home.tsx:47-50 | a stored cost keeps every field; `enabled` is true when missing and the stored flag otherwise |
| Home.MigrateCosts | client/src/pages/Home.tsx:47-50 | missing costs give the empty list; otherwise each stored cost is migrated in place and order |
| Home.MigrateStored | client/src/pages/Home.tsx:47-50 | migrating saved costs gives back exactly the costs that were saved |
| Home.MigrateIdempotent | client/src/pages/Home.tsx:47-50 | migrating costs that were already migrated changes nothing |
| Lists.ReplaceById | client/src/pages/Home.tsx:95-97 | same length; entries with the id become the update; all others stay in place |
| Lists.RemoveById | client/src/pages/Home.tsx:99-101 | no entry with the id remains, and the result is no longer than the input |
| Lists.ReplaceIdempotent | client/src/pages/Home.tsx:95-97 | updating twice with the same entry is updating once |
| Lists.ReplaceFresh | client/src/pages/Home.tsx:95-97 | updating an id that is not in the list changes nothing |
| Lists.RemoveAppend | client/src/pages/Home.tsx:99-101 | removing from a concatenation removes from each part, so the order of what stays is kept |
| Lists.RemoveMembership | client/src/pages/Home.tsx:99-101 | an entry remains iff it was there and has another id |
| Lists.RemoveFresh | client/src/pages/Home.tsx:99-101 | removing an id that is not in the list changes nothing |
| Lists.RemoveIdempotent | client/src/pages/Home.tsx:99-101 | removing twice is removing once |
| Lists.RemoveUndoesAppend | client/src/pages/Home.tsx:99-101 | removing an entry just appended with a fresh id restores the list |
| Lists.RemoveDistinct | client/src/pages/InflationViewer.tsx:170 | removing keeps a duplicate-free list duplicate-free |
| Text.IsSpace | client/src/lib/inflationDataLoader.ts:29 | the white space `trim`, `parseInt` and `parseFloat` skip; `TrimStart`, `TrimEnd` and `TrimEmptyIffBlank` are stated with it |
| Text.TrimStart | client/src/lib/inflationDataLoader.ts:29 | the result is the input without its leading white space, and does not start with white space |
| Text.TrimEnd | client/src/lib/inflationDataLoader.ts:33 | the result is the input without its trailing white space, and does not end with white space |
| Text.Trim | client/src/lib/inflationDataLoader.ts:33 | `trim`; `TrimStart`, `TrimEnd` and `TrimEmptyIffBlank` prove it removes exactly the surrounding white space |
| Text.TrimEmptyIffBlank | client/src/lib/inflationDataLoader.ts:33-34 | a line trims to nothing iff it is all white space |
| Text.Split | client/src/lib/inflationDataLoader.ts:36 | `split` on one character: at least one piece; `JoinSplit`, `SplitJoin` and `SplitPiecesFree` prove it inverts joining |
| Text.SplitPiecesFree | client/src/lib/inflationDataLoader.ts:36 | no piece of a split contains the separator |
| Text.JoinSplit | client/src/lib/inflationDataLoader.ts:29 | joining the pieces of a split with the separator gives back the text |
| Text.SplitJoin | client/src/lib/inflationDataLoader.ts:36 | splitting pieces that do not contain the separator, once joined, gives back the pieces |
| Text.SplitPrefix | client/src/lib/inflationDataLoader.ts:36 | a separator-free prefix extends the first piece of the split |
| Text.SplitThree | client/src/lib/inflationDataLoader.ts:36 | three separator-free fields joined by the separator split back into those three fields |
| Text.NatToString | client/src/lib/inflationDataLoader.ts:46 | the decimal numeral of a natural number is a non-empty string of digits |
| Text.DigitPrefix | client/src/lib/inflationDataLoader.ts:37 | the digits `parseInt` reads are the longest run of digits at the front |
| Text.DigitsValueOfNatToString | client/src/lib/inflationDataLoader.ts:37 | reading the digits of a numeral gives its number |
| Text.SignAndBodyOfInteger | client/src/lib/inflationDataLoader.ts:37 | the sign read from an integer's numeral is its sign, and the rest is the numeral of its magnitude |
| Text.IntToString | client/src/lib/inflationDataLoader.ts:46 | `String(i)`; `ParseIntToString` proves `parseInt` reads it back and `NatToStringInjective` that different numbers get different numerals |
| Text.ParseInt | client/src/lib/inflationDataLoader.ts:37-38 | `parseInt(s, 10)`; `ParseIntToString` and `TwoDigitsRoundTrip` prove it reads back written and padded numerals |
| Text.ParseIntToString | client/src/lib/inflationDataLoader.ts:37 | `parseInt(String(i), 10)` gives back i |
| Text.NatToStringInjective | client/src/lib/inflationDataLoader.ts:46 | different numbers have different numerals |
| Text.UnsignedFloatOfNumeral | client/src/lib/inflationDataLoader.ts:39 | `parseFloat` of a natural numeral is that number |
| Text.ParseFloat | client/src/lib/inflationDataLoader.ts:39 | `parseFloat`; `ParseFloatOfInteger` and `ParseFloatOfDecimal` prove it reads back integer and signed decimal literals |
| Text.UnsignedFloatOfDecimal | client/src/lib/inflationDataLoader.ts:39 | digits, a point and a non-empty run of digits read as the whole part plus the fraction over its power of ten |
| Text.UnsignedFloatOfPieces | client/src/lib/inflationDataLoader.ts:39 | a body made of a digit run, a point and a digit run, with nothing after, reads as the value of those digits |
| Text.ParseFloatOfDecimal | client/src/lib/inflationDataLoader.ts:39 | `parseFloat` reads a decimal literal such as `-0.4` back as the number it denotes, sign included |
| Text.SignAndBodyOfDecimal | client/src/lib/inflationDataLoader.ts:39 | a decimal literal is read as its sign and the unsigned literal after the sign |
| Text.ParseFloatOfSign | client/src/lib/inflationDataLoader.ts:39 | `parseFloat` is the unsigned literal after the sign, negated after a `-` |
| Text.DecimalFree | client/src/lib/inflationDataLoader.ts:36 | a decimal literal contains no separator other than `-` and `.`, so it stays one field of a comma split |
| Text.ParseFloatOfInteger | client/src/lib/inflationDataLoader.ts:39 | `parseFloat(String(i))` gives back i |
| Text.PadStart | client/src/lib/inflationDataLoader.ts:46 | `padStart` gives the target width or the text's own length, with the text at the end and the pad character in front |
| Text.TwoDigits | client/src/pages/InflationViewer.tsx:200 | `String(n).padStart(2, '0')`; `TwoDigitsRoundTrip` proves a number below 100 becomes exactly two digits that read back as it |
| Text.TwoDigitsRoundTrip | client/src/pages/InflationViewer.tsx:200 | a number below 100, padded to two digits, has two digits and reads back as that number |
| Text.PaddedDigitRoundTrip | client/src/pages/InflationViewer.tsx:200 | a single digit padded with `0` reads back as that digit |
| Text.NumeralFree | client/src/pages/InflationViewer.tsx:200 | a natural numeral contains no non-digit separator |
| Text.TwoDigitsFree | client/src/pages/InflationViewer.tsx:200 | a two-digit field contains no non-digit separator |
| Text.ToFixed2 | client/src/components/InflationTable.tsx:108 | `toFixed(2)` has at least four characters and starts with `-` iff the value is negative |
| Text.LexLe | client/src/components/InflationTable.tsx:85 | the code-unit order of comparator-less `sort()`; `LexLeTotal`, `LexLeAntisymmetric` and `LexLeTransitive` prove it a total order, and `TextSortIsNotNumeric` that it is not the numeric one |
| Text.LexLeTotal | client/src/components/InflationTable.tsx:85 | the default sort order compares any two strings |
| Text.LexLeAntisymmetric | client/src/components/InflationTable.tsx:85 | strings that order both ways are equal |
| Text.LexLeTransitive | client/src/components/InflationTable.tsx:85 | the default sort order is transitive |
| Text.LexLeAppend | client/src/components/InflationTable.tsx:85 | equal-length strings extended by one character compare by their prefixes first |
| Text.NatToStringShort | client/src/components/InflationTable.tsx:85 | a numeral has one character iff its number is below 10 |
| Text.TextOrderOfEqualLength | client/src/components/InflationTable.tsx:85 | numerals of equal length sort as text exactly as their numbers sort |
| Text.FourDigitNumerals | client/src/components/InflationTable.tsx:85 | the numeral of a four-digit year has four characters |
| Text.FourDigitTextOrder | client/src/components/InflationTable.tsx:85 | four-digit years sort as text exactly as they sort as numbers |
| Text.InsertAsText | client/src/components/InflationTable.tsx:85 | inserting into a text-sorted list keeps it text-sorted and adds exactly the element |
| Text.InsertFirstSorted | client/src/components/InflationTable.tsx:85 | an element no later than the head can go in front |
| Text.InsertLaterSorted | client/src/components/InflationTable.tsx:85 | the head stays in front of the rest after inserting a later element |
| Text.SortAsText | client/src/components/InflationTable.tsx:85 | `.sort()` without a comparator returns a permutation of its input sorted by the text of each number |
| Text.TextSortIsNotNumeric | client/src/components/InflationTable.tsx:85 | that sort is not numeric: it puts 1000 before 999 |
| Text.TrimStartUnchanged | client/src/lib/inflationDataLoader.ts:33 | a text that does not start with white space is not changed by trimming its start |
| Text.DigitPrefixOfDigits | client/src/lib/inflationDataLoader.ts:37 | `parseInt` reads exactly the digits before the first non-digit |
| Text.DigitPrefixOfNumeral | client/src/lib/inflationDataLoader.ts:37 | `parseInt` reads a whole numeral |
| Text.SplitCons | client/src/lib/inflationDataLoader.ts:36 | a non-separator character joins the first piece of the split |
| Calendar.IsLeapYear | client/src/pages/InflationViewer.tsx:109 | the Gregorian leap-year rule; `DaysInMonth` proves February has 29 days exactly in those years |
| Calendar.DaysInMonth | client/src/pages/InflationViewer.tsx:109 | every month has 28 to 31 days, 29 exactly for February of a Gregorian leap year, 31 exactly for January, March, May, July, August, October and December |
| Calendar.FullYear | client/src/lib/inflationDataLoader.ts:143 | the two-digit-year rule of `new Date`; `FirstOfMonth` and `FirstOfMonthAsWritten` prove how it shapes the first of a month |
| Calendar.FirstOfMonth | client/src/lib/inflationDataLoader.ts:143 | `new Date(year, monthIndex, 1)` is the first of a month, counted from the full year with month overflow carried into the year |
| Calendar.FirstOfMonthAsWritten | client/src/lib/inflationDataLoader.ts:143 | for a year outside 0..99 and a month in 1..12, `new Date(year, month - 1, 1)` is the first of that month of that year |
| InflationData.Collect | client/src/lib/inflationDataLoader.ts:32-49 | keeping the points of the lines that parse never yields more points than lines |
| InflationData.CollectNext | client/src/lib/inflationDataLoader.ts:32-49 | one more line adds at most its own point, at the end |
| InflationData.CollectAppend | client/src/lib/inflationDataLoader.ts:32-49 | the points of two runs of lines are the points of each, in order |
| InflationData.CollectSnoc | client/src/lib/inflationDataLoader.ts:42-47 | a last line adds exactly its own point at the end |
| InflationData.Lines | client/src/lib/inflationDataLoader.ts:29 | the trimmed text splits into at least one line |
| InflationData.ReadDataLines | client/src/lib/inflationDataLoader.ts:32-51 | the loop from index 1 pushes, in order, the points of exactly the lines after the first that parse |
| InflationData.ParseCsvData | client/src/lib/inflationDataLoader.ts:28-52 | the result is, in order, the points of the lines after the header that parse |
| InflationData.BlankLineSkipped | client/src/lib/inflationDataLoader.ts:33-34 | a blank line gives no point |
| InflationData.Field | client/src/lib/inflationDataLoader.ts:36 | an element of the destructured split, `undefined` past its end; `LinePointSpec` proves a line with fewer than three fields yields no point |
| InflationData.IntField | client/src/lib/inflationDataLoader.ts:37-41 | `parseInt(field, 10)` with `NaN` as none, `undefined` included; `ParseIntToString` proves it reads back a written integer |
| InflationData.RealField | client/src/lib/inflationDataLoader.ts:39-41 | `parseFloat(field)` with `NaN` as none, `undefined` included; `ParseFloatOfDecimal` proves it reads back a written decimal |
| InflationData.LinePoint | client/src/lib/inflationDataLoader.ts:33-47 | the point of one data line; `LinePointSpec` proves it is present iff the line is not blank and its three fields parse, and `WrittenLineRead` and `WrittenDecimalLineRead` that a written line reads back |
| InflationData.FieldsPoint | client/src/lib/inflationDataLoader.ts:36-47 | the point of three fields; `LinePointSpec` proves it carries the parsed year, month and value and the matching date label |
| InflationData.LinePointSpec | client/src/lib/inflationDataLoader.ts:36-47 | a line gives a point iff its first three comma-separated fields parse as year, month and value, and the point carries those numbers and the date `year-MM-01` |
| InflationData.HeaderOnly | client/src/lib/inflationDataLoader.ts:32 | a text of one line (the header) gives no data lines |
| InflationData.HeaderIgnored | client/src/lib/inflationDataLoader.ts:32 | after a one-line header the data lines are exactly the lines of the body |
| InflationData.WrittenLineRead | client/src/lib/inflationDataLoader.ts:36-47 | a line written as `year,month,value` with a whole, non-negative value reads back as that point |
| InflationData.WrittenDecimalLineRead | client/src/lib/inflationDataLoader.ts:33-47 | a line `year,month,value` with the value written as a signed decimal, such as `2024,3,-0.4`, is read back as that point |
| InflationData.WrittenDecimalFieldsRead | client/src/lib/inflationDataLoader.ts:37-47 | two numerals and a decimal literal read as the point of those numbers, with its label |
| InflationData.DecimalLineTrimmed | client/src/lib/inflationDataLoader.ts:33 | a line of two numerals and a decimal literal is not changed by trimming |
| InflationData.LinePointOfFields | client/src/lib/inflationDataLoader.ts:33-47 | a non-blank line that trimming leaves unchanged yields the point of its comma-separated fields |
| InflationData.WrittenFieldsRead | client/src/lib/inflationDataLoader.ts:37-47 | three numerals read back as the point they were written from |
| InflationData.NumeralTrimmed | client/src/lib/inflationDataLoader.ts:33 | a line of numerals and commas is not changed by trimming |
| InflationData.DateString | client/src/lib/inflationDataLoader.ts:46 | the `year-MM-01` label; `DateStringPieces` proves it splits back into the year, the padded month and `01` |
| InflationData.DateStringPieces | client/src/lib/inflationDataLoader.ts:46 | the date string splits at its dashes into the year, the padded month and `01` |
| InflationData.DateStringJoined | client/src/lib/inflationDataLoader.ts:46 | proof step, not a property: the date string is the year, a dash, the two-digit month, a dash and `01` |
| Calendar.Before | client/src/lib/inflationDataLoader.ts:145-149 | `<` between `Date` objects at midnight; `StartBoundByMonth` proves that a point of a year outside 0..99 passes a first-of-month start iff its year and month are not earlier |
| InflationData.InRange | client/src/lib/inflationDataLoader.ts:142-154 | the filter's test on the first of the point's month; `KeepInRange` proves every kept point passes it and `KeepMembership` that a point is kept iff it is in the data and passes it |
| InflationData.KeepInRange | client/src/lib/inflationDataLoader.ts:142-154 | the filter keeps only points whose first of month lies in the bounds, and is no longer than its input |
| InflationData.FilterByDateRange | client/src/lib/inflationDataLoader.ts:133-155 | without bounds the data comes back unchanged; with bounds every kept point lies in them |
| InflationData.UnboundedKeepsAll | client/src/lib/inflationDataLoader.ts:142-154 | filtering with no bound keeps every point |
| InflationData.KeepInRangeAppend | client/src/lib/inflationDataLoader.ts:142-154 | filtering a concatenation filters each part, so the kept points keep their order |
| InflationData.KeepInRangeSnoc | client/src/lib/inflationDataLoader.ts:142-154 | a last point is kept at the end iff it lies in the bounds |
| InflationData.FilterMembership | client/src/lib/inflationDataLoader.ts:133-155 | a point is in the result iff it is in the data and lies in the bounds |
| InflationData.KeepMembership | client/src/lib/inflationDataLoader.ts:142-154 | a point is kept iff it is in the data and lies in the bounds |
| InflationData.StartBoundByMonth | client/src/lib/inflationDataLoader.ts:143-147 | against a start date on the first of a month, a point is kept iff its year and month are not earlier |
| InflationData.Countries | client/src/lib/inflationDataLoader.ts:173-206 | the 30-entry `getCountries` table, searched by `GetCountryByIso3` with the first-match property of `FindByIso3` |
| InflationData.GetCountryByIso3 | client/src/lib/inflationDataLoader.ts:208-210 | the lookup in the country table; `FindByIso3` proves nothing is found iff no entry has the code, and otherwise the first entry with it |
| InflationData.FindByIso3 | client/src/lib/inflationDataLoader.ts:208-210 | nothing is found iff no entry has the code; otherwise the entry found has that code and no earlier entry has it |
| MonthGrid.EmptyRow | client/src/components/InflationTable.tsx:78 | a new row has 12 slots, all null |
| MonthGrid.Place | client/src/components/InflationTable.tsx:72-83 | placing a point keeps the year map well formed (keys and rows agree, no year twice, 12 slots) |
| MonthGrid.Write | client/src/components/InflationTable.tsx:81-82 | writing a slot of an existing year keeps the map well formed |
| MonthGrid.Bucket | client/src/components/InflationTable.tsx:70-83 | the map built from any points is well formed |
| MonthGrid.Organize | client/src/components/InflationTable.tsx:70-83 | the `forEach` that fills the map builds exactly the bucketed map |
| MonthGrid.BucketNext | client/src/components/InflationTable.tsx:72-83 | one more point updates the map by placing it |
| MonthGrid.BucketYears | client/src/components/InflationTable.tsx:77-79 | a year has a row iff some point falls in it |
| MonthGrid.BucketSlots | client/src/components/InflationTable.tsx:81-82 | each slot holds the value of the last point of that year and month, or null |
| MonthGrid.NoYearNoValue | client/src/components/InflationTable.tsx:77-82 | a year without a row has no value in any month |
| MonthGrid.SortedYears | client/src/components/InflationTable.tsx:85 | the sorted years are a permutation of the map's years in text order |
| MonthGrid.SortedYearsAreTheYears | client/src/components/InflationTable.tsx:85 | a year is listed iff some point falls in it |
| MonthGrid.FourDigitYearsAscend | client/src/components/InflationTable.tsx:85 | with four-digit years the sorted years strictly ascend |
| MonthGrid.FourDigitPair | client/src/components/InflationTable.tsx:85 | with four-digit years an earlier listed year is smaller |
| MonthGrid.FourDigitKeys | client/src/components/InflationTable.tsx:77-79 | with four-digit points every key of the map is a four-digit year |
| MonthGrid.FourDigitKey | client/src/components/InflationTable.tsx:77-79 | with four-digit points any one key of the map is a four-digit year |
| MonthGrid.AscendingPair | client/src/components/InflationTable.tsx:85 | a text-sorted permutation of distinct four-digit years strictly ascends |
| MonthGrid.PermutedMember | client/src/components/InflationTable.tsx:85 | every element of a permutation of the keys is a key |
| MonthGrid.DistinctSorted | client/src/components/InflationTable.tsx:85 | a permutation of distinct keys holds no year twice |
| MonthGrid.AtMostOnce | client/src/components/InflationTable.tsx:85 | a duplicate-free list holds each value at most once |
| MonthGrid.RowsOf | client/src/components/InflationTable.tsx:87-100 | one row per year in order, carrying that year's slots and the summary of those slots |
| MonthGrid.SortedYearsAreKeys | client/src/components/InflationTable.tsx:85-88 | every sorted year has a row in the map |
| MonthGrid.Grid | client/src/components/InflationTable.tsx:69-100 | the rows `organizeDataByYear` returns; `GridYears`, `GridDistinct`, `GridSlots` and `GridAscends` prove one row per year, 12 slots holding each month's last value, and ascending four-digit years |
| MonthGrid.GridYears | client/src/components/InflationTable.tsx:77-100 | the table has a row for a year iff some point falls in it |
| MonthGrid.GridDistinct | client/src/components/InflationTable.tsx:85-100 | no year has two rows |
| MonthGrid.GridSlots | client/src/components/InflationTable.tsx:77-100 | every row has 12 slots, each slot is the last value of its month, and the summary is computed from the row's slots |
| MonthGrid.GridAscends | client/src/components/InflationTable.tsx:85 | with four-digit years the rows come out in ascending year order |
| MonthGrid.FormatValue | client/src/components/InflationTable.tsx:106-109 | a missing value shows as `-`; a present one shows with two decimals, starting with `-` iff negative |
| InflationTable.Present | client/src/components/InflationTable.tsx:90 | the non-null values are no more than the slots |
| InflationTable.YearlyAverage | client/src/components/InflationTable.tsx:90-93 | the yearly average is null iff every slot is null |
| InflationTable.PresentEmpty | client/src/components/InflationTable.tsx:90-91 | no value is present iff every slot is null |
| InflationTable.PresentBounds | client/src/components/InflationTable.tsx:90 | the present values keep the bounds of the slots |
| InflationTable.YearlyAverageBounds | client/src/components/InflationTable.tsx:90-93 | the yearly average lies between the least and the greatest slot value |
| InflationTable.Sum | client/src/components/InflationTable.tsx:64 | `reduce((sum, v) => sum + v, 0)`; `SumSnoc` proves each value is added once and `SumBounds` that n bounded values sum within n times the bounds |
| InflationTable.Mean | client/src/components/InflationTable.tsx:92 | the sum over the count; `MeanBounds` proves it lies between the least and greatest value |
| InflationTable.SumSnoc | client/src/components/InflationTable.tsx:64 | the reduce adds each value once |
| InflationTable.SumBounds | client/src/components/InflationTable.tsx:64 | the sum of n values within bounds lies within n times those bounds |
| InflationTable.MeanBounds | client/src/components/InflationTable.tsx:64 | a mean lies between the bounds of its values |
| InflationTable.OrganizeDataByYear | client/src/components/InflationTable.tsx:69-101 | the table is the grid of the points with the yearly average as each row's summary |
| InflationTable.ValuesOf | client/src/components/InflationTable.tsx:42-55 | a year's values are drawn from the points |
| InflationTable.ValuesOfSnoc | client/src/components/InflationTable.tsx:42-55 | a last point adds its value to its own year only |
| InflationTable.ValuesOfEmpty | client/src/components/InflationTable.tsx:42-55 | a year has no values iff no point falls in it |
| InflationTable.InsertByYear | client/src/components/InflationTable.tsx:33-35 | inserting into the sorted copy adds exactly the point |
| InflationTable.InsertSorted | client/src/components/InflationTable.tsx:33-35 | inserting keeps the copy sorted by year |
| InflationTable.InsertValues | client/src/components/InflationTable.tsx:33-35 | inserting a point keeps each year's values in their order, with the new value where it belongs |
| InflationTable.SortByYear | client/src/components/InflationTable.tsx:33-35 | the sorted copy is a permutation of the data |
| InflationTable.SortByYearSorted | client/src/components/InflationTable.tsx:33-35 | the copy is sorted by year |
| InflationTable.SortKeepsValues | client/src/components/InflationTable.tsx:33-35 | sorting does not change any year's values |
| InflationTable.Runs | client/src/components/InflationTable.tsx:42-60 | the runs of equal years are empty iff the data is, none is empty, and the last run is the last point's year |
| InflationTable.Means | client/src/components/InflationTable.tsx:47 | one mean per run, each the mean of that run |
| InflationTable.YearsOf | client/src/components/InflationTable.tsx:43 | one year per run, each that run's year |
| InflationTable.RunsStepNew | client/src/components/InflationTable.tsx:45-51 | a point of a new year opens a run with just its value |
| InflationTable.RunsStepSame | client/src/components/InflationTable.tsx:52-54 | a point of the current year extends the current run |
| InflationTable.MeansSnoc | client/src/components/InflationTable.tsx:47 | one more run adds its mean at the end |
| InflationTable.RunsOfSorted | client/src/components/InflationTable.tsx:42-60 | over sorted data the runs have strictly ascending years and each run holds all of its year's values |
| InflationTable.RunsOfSortedSame | client/src/components/InflationTable.tsx:52-54 | extending the current run preserves that invariant |
| InflationTable.RunsOfSortedNew | client/src/components/InflationTable.tsx:45-51 | opening a run preserves that invariant |
| InflationTable.LaterYearAbsent | client/src/components/InflationTable.tsx:45 | in sorted data a year that starts a run has not occurred before |
| InflationTable.RunsCoverYears | client/src/components/InflationTable.tsx:42-60 | every year of the data has a run |
| InflationTable.YearMeans | client/src/components/InflationTable.tsx:37-60 | each listed year is paired with the mean of its values |
| InflationTable.DistinctYearsMembers | client/src/components/InflationTable.tsx:37-60 | the years averaged are exactly the years of the data |
| InflationTable.DistinctYearsAscend | client/src/components/InflationTable.tsx:37-60 | the years averaged strictly ascend, so none is counted twice |
| InflationTable.RunMeansAreYearMeans | client/src/components/InflationTable.tsx:37-60 | the per-run means of the sorted data are the means of the distinct years |
| InflationTable.AverageInflation | client/src/components/InflationTable.tsx:30-67 | the badge value; `CalculateAverageInflation` proves the loop computes it and `AverageInflationBounds` that it lies between the least and greatest rate |
| InflationTable.CalculateAverageInflation | client/src/components/InflationTable.tsx:30-67 | null for empty data; otherwise the mean over the distinct years of each year's mean |
| InflationTable.YearValues | client/src/components/InflationTable.tsx:37-60 | the `forEach` with `currentYear`, `yearSum` and `yearCount` pushes exactly the mean of each run |
| InflationTable.MeansLast | client/src/components/InflationTable.tsx:57-59 | proof step, not a property: the last mean is the mean of the last run |
| InflationTable.StepFirst | client/src/components/InflationTable.tsx:38-41 | the first point opens the first run |
| InflationTable.StepNew | client/src/components/InflationTable.tsx:45-51 | a new year closes the current run and opens a run with the point |
| InflationTable.StepSame | client/src/components/InflationTable.tsx:52-54 | the same year adds the point to the current run |
| InflationTable.NewYearStep | client/src/components/InflationTable.tsx:45-51 | the new-year branch pushes the current mean when there is one, and resets the sum and count to the point |
| InflationTable.SameYearStep | client/src/components/InflationTable.tsx:52-54 | the same-year branch adds the value and counts it |
| InflationTable.CloseStep | client/src/components/InflationTable.tsx:57-59 | at the last index the current mean is pushed |
| InflationTable.ValuesOfBounds | client/src/components/InflationTable.tsx:37-60 | a year's values keep the bounds of the data |
| InflationTable.AverageInflationBounds | client/src/components/InflationTable.tsx:30-67 | the average lies between the least and the greatest value of the data |
| InflationTable.AverageOfEqualYears | client/src/components/InflationTable.tsx:30-67 | when every year has the same mean, the average is that mean, whatever the number of points in each year |
| InflationTable.InflationColour | client/src/components/InflationTable.tsx:116-119 | no colour iff null; red iff at least 3; yellow iff from 2 to below 3; green iff below 2 |
| InflationTable.ColourMonotone | client/src/components/InflationTable.tsx:116-119 | a higher rate never gets a milder colour |
| InflationTable.FormatPercentage | client/src/components/InflationTable.tsx:111-114 | `-` iff null; otherwise the two-decimal value followed by `%` |
| EtfTable.Reverse | client/src/components/ETFTable.tsx:50 | the reversed copy has the same length |
| EtfTable.Find | client/src/components/ETFTable.tsx:49 | nothing is found iff every slot is null; otherwise the value found is in a slot with only nulls before it |
| EtfTable.FirstClose | client/src/components/ETFTable.tsx:49 | the first close of a year; `FirstCloseSpec` proves it is the earliest month's close and missing iff every month is null |
| EtfTable.FirstCloseSpec | client/src/components/ETFTable.tsx:49 | the first close is the value of the earliest month that has one, and is missing iff every month is null |
| EtfTable.FindLast | client/src/components/ETFTable.tsx:50 | the value of the latest slot that has one: missing iff every slot is null |
| EtfTable.FindReversed | client/src/components/ETFTable.tsx:50 | searching the reversed copy from the front is searching the row from the back |
| EtfTable.LastClose | client/src/components/ETFTable.tsx:50 | the last close of a year; `LastCloseSpec` and `LastCloseNone` prove it is the latest month's close and present iff any close is |
| EtfTable.LastCloseNone | client/src/components/ETFTable.tsx:50 | a year has a last close iff it has any close |
| EtfTable.LastCloseSpec | client/src/components/ETFTable.tsx:50 | the last close is the value of the latest month that has one |
| EtfTable.Truthy | client/src/components/ETFTable.tsx:52 | JavaScript truthiness of a close: present and non-zero; `YearlyChange` and `ZeroCloseNoChange` prove a change exists iff both closes are truthy |
| EtfTable.YearlyChange | client/src/components/ETFTable.tsx:52-54 | there is a change iff both the first and the last close are present and non-zero |
| EtfTable.NoClosesNoChange | client/src/components/ETFTable.tsx:52-54 | a year without closes has no change |
| EtfTable.ZeroCloseNoChange | client/src/components/ETFTable.tsx:52 | a zero first or last close gives no change, because 0 is falsy |
| EtfTable.ChangeSign | client/src/components/ETFTable.tsx:53 | with a positive first close, the change is non-negative iff the year closed no lower than it opened |
| EtfTable.ChangeRoundTrip | client/src/components/ETFTable.tsx:53 | applying the change to the first close gives the last close |
| EtfTable.SingleCloseNoChange | client/src/components/ETFTable.tsx:49-54 | a year with a single non-zero close has a change of 0 |
| EtfTable.OrganizeDataByYear | client/src/components/ETFTable.tsx:28-62 | the table is the grid of the closes with the yearly change as each row's summary |
| EtfTable.FormatChange | client/src/components/ETFTable.tsx:71-75 | `-` iff null; otherwise ends in `%` and starts with `+` iff the value is non-negative and with `-` iff negative |
| EtfTable.ChangeColour | client/src/components/ETFTable.tsx:77-80 | no colour iff null; green iff non-negative; red iff negative |
| EtfTable.ColourMatchesSign | client/src/components/ETFTable.tsx:71-80 | the colour is green iff the text starts with `+` |
| InflationViewer.LastDayOf | client/src/pages/InflationViewer.tsx:109 | `new Date(year, month, 0).getDate()` is the number of days of calendar month `month` of that (full) year |
| InflationViewer.IsValidDate | client/src/pages/InflationViewer.tsx:105-111 | `isValidDate`; `ValidDateSpec` proves it holds iff the month is 1..12 and the day lies from 1 to the Gregorian length of that month |
| InflationViewer.ValidDateSpec | client/src/pages/InflationViewer.tsx:105-111 | a date is valid iff its month is in 1..12 and its day lies from 1 to the length of that month |
| InflationViewer.LeapDayValid | client/src/pages/InflationViewer.tsx:109-110 | 29 February is valid iff the year is a Gregorian leap year |
| InflationViewer.ThirtyFirstValid | client/src/pages/InflationViewer.tsx:109-110 | the 31st is valid iff the month is one of the seven long months |
| InflationViewer.EarlyDaysValid | client/src/pages/InflationViewer.tsx:105-111 | days 1 to 28 are valid in every month |
| InflationViewer.OrFallback | client/src/pages/InflationViewer.tsx:289 | `parseInt(text) \|\| fallback` is the number when it parses to a non-zero value, and the fallback otherwise |
| InflationViewer.Max | client/src/pages/InflationViewer.tsx:289 | `Math.max` of two integers; `ClampInput` proves the clamp it builds stays within its bounds |
| InflationViewer.Min | client/src/pages/InflationViewer.tsx:289 | `Math.min` of two integers; `ClampKeepsInRange` and `ClampMovesToEnd` prove the clamp keeps in-range numbers and moves others to the nearer end |
| InflationViewer.ClampInput | client/src/pages/InflationViewer.tsx:289 | the clamped value is at least the lower bound and, for a non-empty range, at most the upper bound |
| InflationViewer.ClampKeepsInRange | client/src/pages/InflationViewer.tsx:289 | a non-zero number in range is taken as typed |
| InflationViewer.ClampMovesToEnd | client/src/pages/InflationViewer.tsx:289 | a number out of range goes to the nearer end |
| InflationViewer.ClampFallsBack | client/src/pages/InflationViewer.tsx:289 | an unparsable text or 0 gives the fallback, itself clamped |
| InflationViewer.StartDayInput | client/src/pages/InflationViewer.tsx:289 | the start day is within 1..31 and 1 for an unparsable text |
| InflationViewer.StartMonthInput | client/src/pages/InflationViewer.tsx:303 | the start month is within 1..12 and 1 for an unparsable text |
| InflationViewer.StartYearInput | client/src/pages/InflationViewer.tsx:317 | the start year is within 1900 and the current year, and 2015 for an unparsable text |
| InflationViewer.EndDayInput | client/src/pages/InflationViewer.tsx:342 | the end day is within 1..31 and 31 for an unparsable text |
| InflationViewer.EndMonthInput | client/src/pages/InflationViewer.tsx:356 | the end month is within 1..12 and 12 for an unparsable text |
| InflationViewer.EndYearInput | client/src/pages/InflationViewer.tsx:370 | the end year is within 1900 and the current year, and last year for an unparsable text |
| InflationViewer.ClampedDateMayBeInvalid | client/src/pages/InflationViewer.tsx:289-303 | a day of 31 and a month of 2 pass the clamping but fail the date check |
| InflationViewer.DateParam | client/src/pages/InflationViewer.tsx:200-201 | a request date; `DateParamPieces` proves it splits back into the entered numbers and `DateParamLength` that a valid date is ten characters |
| InflationViewer.DateParamJoined | client/src/pages/InflationViewer.tsx:200-201 | proof step, not a property: a request date is the year, a dash, the two-digit month, a dash and the two-digit day |
| InflationViewer.DateParamPieces | client/src/pages/InflationViewer.tsx:200-201 | a request date splits at its dashes into year, month and day, each of which reads back as its number |
| InflationViewer.DateParamLength | client/src/pages/InflationViewer.tsx:200-201 | a valid date with a four-digit year gives the ten characters of `YYYY-MM-DD` |
| InflationViewer.AddCountry | client/src/pages/InflationViewer.tsx:163-167 | the country is selected afterwards; the old selection is kept in order as a prefix; nothing changes when it was already selected; a duplicate-free selection stays duplicate-free |
| InflationViewer.RemoveCountry | client/src/pages/InflationViewer.tsx:169-172 | the country is in neither the selection nor the loaded data afterwards, and a duplicate-free selection stays duplicate-free |
| InflationViewer.RemoveDistinctNames | client/src/pages/InflationViewer.tsx:170 | removing a country keeps the selection duplicate-free |
| InflationViewer.RemoveCountryKeepsOthers | client/src/pages/InflationViewer.tsx:169-172 | every other country and every other series stays, and nothing new appears |
| InflationViewer.RemoveCountryKeepsOrder | client/src/pages/InflationViewer.tsx:170 | removing keeps the order of the countries that stay |
| InflationViewer.AddThenRemove | client/src/pages/InflationViewer.tsx:163-172 | adding a country that was not selected and removing it restores the selection |
| InflationViewer.ValidateDates | client/src/pages/InflationViewer.tsx:113-123 | the dates pass iff both are valid; the start error flag is set iff the start is invalid; the end flag is updated only when the start is valid, as the short-circuit `\|\|` skips it otherwise |
| InflationViewer.RequestFor | client/src/pages/InflationViewer.tsx:200-201 | the request for one country; `RequestsAt` and `RequestDatesReadBack` prove it carries the country and both dates read back as entered |
| InflationViewer.RequestsFor | client/src/pages/InflationViewer.tsx:199-201 | one request per selected country, in order |
| InflationViewer.FetchInflationData | client/src/pages/InflationViewer.tsx:174-201 | no country gives an error and leaves the flags; otherwise the fetch proceeds iff both dates are valid, with one request per country and both error flags cleared, and fails with an invalid-date error otherwise |
| InflationViewer.RequestDatesReadBack | client/src/pages/InflationViewer.tsx:199-201 | every request carries the two dates as texts that split into the entered year, month and day |
| InflationViewer.RequestsAt | client/src/pages/InflationViewer.tsx:199-201 | request k is for the k-th selected country, with the two dates of the range |
| InflationViewer.Entry | client/src/pages/InflationViewer.tsx:203-229 | a country adds one series iff its lookup hit the cache (even with an empty array) or fetched a non-empty array, and that series carries its data |
| InflationViewer.Loaded | client/src/pages/InflationViewer.tsx:194-229 | the loaded data has at most one series per selected country |
| InflationViewer.LoadedNext | client/src/pages/InflationViewer.tsx:199-229 | one more country adds its own entry at the end |
| InflationViewer.CountsNext | client/src/pages/InflationViewer.tsx:210-223 | one more country adds one to the cache count or the fetch count as its lookup says |
| InflationViewer.CollectSeries | client/src/pages/InflationViewer.tsx:194-229 | the loop over the selection pushes exactly the loaded series in order and counts the cache hits and the successful fetches |
| InflationViewer.CachedCount | client/src/pages/InflationViewer.tsx:210 | `cachedCount`: the lookups that hit the cache; `CountsNext` and `CollectSeries` prove the loop's counter equals it |
| InflationViewer.FetchedCount | client/src/pages/InflationViewer.tsx:227 | `fetchedCount`: the non-empty fetches; `CountsNext` and `CollectSeries` prove the loop's counter equals it, and `LoadedSize` that the two counts add up to the loaded series |
| InflationViewer.LoadedSize | client/src/pages/InflationViewer.tsx:194-229 | the number of loaded series is the cache count plus the fetch count |
| InflationViewer.LoadedFromSelection | client/src/pages/InflationViewer.tsx:199-229 | every loaded series belongs to a selected country whose lookup gave an array, and carries that array |
| InflationViewer.AllCachedAllLoaded | client/src/pages/InflationViewer.tsx:203-210 | when every lookup hits the cache, every selected country is loaded in order |

## Left out

- React rendering, hooks, toasts, scrolling and tabs are not modelled. They are presentation; the
  page state of the projection page is the class `Home.HomePage`, and the viewer's state changes
  are functions from old to new values.
- The effect that recomputes the ledger after every settings change, once the saved settings have
  been restored, is the separate step `Home.HomePage.Recalculate`. Between a change and that step
  the model's `projections` still hold the previous ledger; the page shows the new one after the
  effect runs.
- Persistence is not modelled: `localStorage` loading and saving in both pages (only the cost
  migration on load is), the IndexedDB cache, and the in-memory cache, IndexedDB and `fetch`
  cascade of `loadCountryInflationData` and `loadManifest`. These are browser I/O.
- Network requests are not modelled. A fetch is represented by the requests it would issue
  (`InflationViewer.RequestsFor`), and its answers are parameters (`InflationViewer.Lookup`).
  An exception thrown during the loop, which discards the whole batch, is not modelled.
- `fetchCountries` and its `localeCompare` sort of the country list are not modelled. They are
  network I/O, and locale-aware collation has no counterpart here.
- The date sort of a freshly fetched series is not modelled. The series is taken in the order
  received.
- The chart components, the `generate-data.mjs` script and the unused tax fields of the cost
  example are not part of this model. InflationChart's copy of the average is the same aggregate
  as `InflationTable.CalculateAverageInflation`.
- Numbers are exact reals. IEEE-754 rounding, `Infinity` and `NaN` arithmetic are not modelled.
- `Text.ToFixed2`: rounds the exact value to hundredths, ties away from zero, and its contract
  states only the length and the sign of the text. The exponential form `toFixed` uses from
  10^21 up is not modelled.
- `parseInt` and `parseFloat` are modelled for decimal text after leading white space. The
  following are not modelled: the hexadecimal prefix of `parseInt`, the `Infinity` literal of
  `parseFloat`, and the Unicode space separators other than the listed white-space characters.
- `Text.IsSpace`, and through it `Text.Trim`, `Text.TrimStart` and `Text.TrimEnd`: the white-space
  set is the ten characters listed there. The other Unicode space separators (category Zs, such
  as U+2003), which `trim`, `parseInt` and `parseFloat` also skip, are not in it.
- The `startYear`, `years` and `maxYears` fields of entries are integers here. The page's number
  inputs could hold fractions.
- `Calendar.Before` and `InflationData.InRange` take any `Day` triple as a bound. The `Date`
  bounds of `filterByDateRange` are always real calendar dates, and the model does not demand
  it: for a triple such as 2024-02-31, which no `Date` holds (`new Date(2024, 1, 31)` is
  2 March), the comparison is field by field rather than by timestamp.
- Points are given by year and month. Parsing `DateTime` strings, time of day and time zones are
  not modelled.
- Ids from `Date.now()` and the current year from the clock are parameters.
- `InflationTable.SortByYear`: the copy that `calculateCAGR` sorts is ordered by year with a
  stable insertion sort, not by the full timestamp. The result does not depend on the order within
  a year, since each year contributes the mean of all its values.
- `InflationTable.Mean`: the mean of no values is taken as 0. It is never applied to an empty
  list.
- `InflationData.FindByIso3`: the lookup's first-match property is proved generically over any
  table, not entry by entry for the built-in table of thirty countries.
- `EtfTable.Reverse`: only the length of the reversed copy is stated. Its use is characterised
  through `EtfTable.FindReversed` instead.
- The 12-slot arrays are sequence values. Aliasing between a row in the map and the row handed to
  the table is not modelled, and neither is in-place mutation of a row.
- The `iso3` argument of `parseCsvData` is unused by the source, and is carried but not used here.
