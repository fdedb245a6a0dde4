/** The wealth projection engine: from the settings and the entry lists, a ledger with one
    record per simulated year. */
module Projection {
  import opened Wrappers

  datatype CostKind = Fixed | Percentage

  /** A recurring inflow of `amount` in today's money, paid in the projection years
      `startYear` up to but excluding `startYear + years` (offsets from year 0). */
  datatype Investment = Investment(id: string, name: string, amount: real, startYear: int, years: int)

  /** A recurring outflow: a fixed amount in today's money, or a percentage of the wealth
      after interest; the engine ignores a cost that is not enabled. */
  datatype Cost = Cost(id: string, name: string, kind: CostKind, amount: real,
                       startYear: int, years: int, enabled: bool)

  /** One listed inflow or outflow of a year, in that year's money and in today's. */
  datatype LineItem = LineItem(name: string, amount: real, todaysValue: real)

  /** One record of the ledger. */
  datatype YearProjection = YearProjection(
    yearNumber: nat, calendarYear: int,
    startingWealth: real, interestGained: real,
    investments: seq<LineItem>, totalInvestments: real,
    costs: seq<LineItem>, totalCosts: real,
    endingWealth: real)

  /** Everything the calculation reads: the settings card, the requested number of years
      and the two entry lists. */
  datatype Settings = Settings(
    initialWealth: real, yearlyInterest: real, inflation: real, startYear: int,
    maxYears: int, costs: seq<Cost>, investments: seq<Investment>)

  /** The guard of the calculation: when it fails nothing is computed. */
  predicate Computable(s: Settings) {
    !(s.initialWealth <= 0.0 || s.yearlyInterest < 0.0 || s.inflation < 0.0)
  }

  /** An entry runs in `year` when the year lies in its half-open activity window. */
  predicate Active(startYear: int, years: int, year: int) {
    startYear <= year < startYear + years
  }

  /** `name || fallback`: the empty name is replaced. */
  function Label(name: string, fallback: string): string {
    if name == "" then fallback else name
  }

  // ---------------------------------------------------------------------------------------
  // Inflation

  /** `Math.pow(b, n)` for a natural exponent. */
  function Pow(b: real, n: nat): real {
    if n == 0 then 1.0 else b * Pow(b, n - 1)
  }

  lemma {:induction false} PowAtLeastOne(b: real, n: nat)
    requires b >= 1.0
    ensures Pow(b, n) >= 1.0
  {
    if n > 0 {
      PowAtLeastOne(b, n - 1);
      assert b * Pow(b, n - 1) >= Pow(b, n - 1);
    }
  }

  /** The inflation multiplier of year `year`: what one unit of today's money is worth then.
      With non-negative inflation it never falls below one. */
  function Multiplier(inflation: real, year: nat): (r: real)
    requires inflation >= 0.0
    ensures r >= 1.0
  {
    PowAtLeastOne(1.0 + inflation / 100.0, year);
    Pow(1.0 + inflation / 100.0, year)
  }

  // ---------------------------------------------------------------------------------------
  // One entry in one year

  /** What an investment contributes to `year`: a line in that year's money with its value
      in today's money, or nothing. */
  function InvestmentLine(inv: Investment, year: nat, inflation: real): Option<LineItem>
    requires inflation >= 0.0
  {
    if year >= inv.startYear && year < inv.startYear + inv.years then
      var inflationMultiplier := Multiplier(inflation, year);
      var investmentAmount := inv.amount * inflationMultiplier;
      if investmentAmount > 0.0 then
        Some(LineItem(Label(inv.name, "Unnamed Investment"), investmentAmount,
                      investmentAmount / inflationMultiplier))
      else None
    else None
  }

  /** An investment is listed only inside its window and only when its inflated amount is
      positive, which, the multiplier being at least one, is exactly when its configured
      amount is positive; the listed amount is never below the configured one, and
      deflating it gives the configured amount back. */
  lemma InvestmentLineSpec(inv: Investment, year: nat, inflation: real)
    requires inflation >= 0.0
    ensures InvestmentLine(inv, year, inflation).Some?
        <==> Active(inv.startYear, inv.years, year) && inv.amount > 0.0
    ensures InvestmentLine(inv, year, inflation).Some? ==>
              InvestmentLine(inv, year, inflation).value.todaysValue == inv.amount
              && InvestmentLine(inv, year, inflation).value.amount >= inv.amount
  {
    var m := Multiplier(inflation, year);
    if inv.amount > 0.0 {
      assert inv.amount * m >= inv.amount;
    } else {
      assert inv.amount * m <= 0.0;
    }
  }

  /** What a cost takes in `year`, given the wealth after interest: a line in that year's
      money with its value in today's money, or nothing. */
  function CostLine(c: Cost, year: nat, inflation: real, afterInterest: real): Option<LineItem>
    requires inflation >= 0.0
  {
    if c.enabled && year >= c.startYear && year < c.startYear + c.years then
      var inflationMultiplier := Multiplier(inflation, year);
      var costAmount := if c.kind == Fixed then c.amount * inflationMultiplier
                        else (afterInterest * c.amount) / 100.0;
      if costAmount > 0.0 then
        Some(LineItem(Label(c.name, "Unnamed Cost"), costAmount, costAmount / inflationMultiplier))
      else None
    else None
  }

  /** A disabled cost, or one outside its window, takes nothing. A fixed cost is listed
      exactly when its configured amount is positive, at no less than that amount, and
      deflating it gives the amount back. A percentage cost is listed exactly when its share
      of the wealth after interest is positive, and it is that share, whatever the
      inflation. Either kind's value in today's money, inflated back to `year`, is its
      amount. */
  lemma CostLineSpec(c: Cost, year: nat, inflation: real, afterInterest: real)
    requires inflation >= 0.0
    ensures CostLine(c, year, inflation, afterInterest).Some? ==>
              c.enabled && Active(c.startYear, c.years, year)
              && CostLine(c, year, inflation, afterInterest).value.amount > 0.0
    ensures c.enabled && Active(c.startYear, c.years, year) && c.kind == Fixed ==>
              (CostLine(c, year, inflation, afterInterest).Some? <==> c.amount > 0.0)
    ensures c.enabled && Active(c.startYear, c.years, year) && c.kind == Percentage ==>
              (CostLine(c, year, inflation, afterInterest).Some? <==> afterInterest * c.amount > 0.0)
    ensures CostLine(c, year, inflation, afterInterest).Some? && c.kind == Fixed ==>
              CostLine(c, year, inflation, afterInterest).value.todaysValue == c.amount
              && CostLine(c, year, inflation, afterInterest).value.amount >= c.amount
    ensures CostLine(c, year, inflation, afterInterest).Some? && c.kind == Percentage ==>
              100.0 * CostLine(c, year, inflation, afterInterest).value.amount == afterInterest * c.amount
    ensures CostLine(c, year, inflation, afterInterest).Some? ==>
              CostLine(c, year, inflation, afterInterest).value.todaysValue * Multiplier(inflation, year)
              == CostLine(c, year, inflation, afterInterest).value.amount
  {
    var m := Multiplier(inflation, year);
    if c.amount > 0.0 {
      assert c.amount * m >= c.amount;
    } else {
      assert c.amount * m <= 0.0;
    }
  }

  // ---------------------------------------------------------------------------------------
  // One year

  function Listed(line: Option<LineItem>): seq<LineItem> {
    if line.Some? then [line.value] else []
  }

  /** The investments listed in `year`, in entry order. */
  function InvestmentItems(investments: seq<Investment>, year: nat, inflation: real): seq<LineItem>
    requires inflation >= 0.0
  {
    if investments == [] then []
    else InvestmentItems(investments[..|investments| - 1], year, inflation)
         + Listed(InvestmentLine(investments[|investments| - 1], year, inflation))
  }

  /** The costs listed in `year`, in entry order. */
  function CostItems(costs: seq<Cost>, year: nat, inflation: real, afterInterest: real): seq<LineItem>
    requires inflation >= 0.0
  {
    if costs == [] then []
    else CostItems(costs[..|costs| - 1], year, inflation, afterInterest)
         + Listed(CostLine(costs[|costs| - 1], year, inflation, afterInterest))
  }

  /** The sum of the listed amounts. */
  function Total(items: seq<LineItem>): real {
    if items == [] then 0.0 else Total(items[..|items| - 1]) + items[|items| - 1].amount
  }

  /** The interest a year's starting wealth earns: the rate's share of a positive wealth,
      and nothing on a wealth at or below zero. */
  function Interest(wealth: real, yearlyInterest: real): real {
    if wealth > 0.0 then (wealth * yearlyInterest) / 100.0 else 0.0
  }

  /** Interest is the rate's share of a positive wealth, nothing on a wealth at or below zero,
      and never negative at a non-negative rate. */
  lemma InterestRule(wealth: real, yearlyInterest: real)
    ensures wealth <= 0.0 ==> Interest(wealth, yearlyInterest) == 0.0
    ensures wealth > 0.0 ==> 100.0 * Interest(wealth, yearlyInterest) == wealth * yearlyInterest
    ensures yearlyInterest >= 0.0 ==> Interest(wealth, yearlyInterest) >= 0.0
  {
  }

  /** The record of projection year `year` entered with `wealth`: numbered from the start
      year, its totals the sums of its lines, and its books balanced. */
  function YearOf(s: Settings, year: nat, wealth: real): (r: YearProjection)
    requires s.inflation >= 0.0
    ensures r.yearNumber == year && r.calendarYear == s.startYear + year && r.startingWealth == wealth
    ensures r.totalInvestments == Total(r.investments) && r.totalCosts == Total(r.costs)
    ensures r.endingWealth == r.startingWealth + r.interestGained + r.totalInvestments - r.totalCosts
  {
    var interestGained := Interest(wealth, s.yearlyInterest);
    var wealthAfterInterest := wealth + interestGained;
    var investments := InvestmentItems(s.investments, year, s.inflation);
    var costs := CostItems(s.costs, year, s.inflation, wealthAfterInterest);
    YearProjection(year, s.startYear + year, wealth, interestGained,
                   investments, Total(investments), costs, Total(costs),
                   wealthAfterInterest + Total(investments) - Total(costs))
  }

  // ---------------------------------------------------------------------------------------
  // The ledger

  /** The wealth entering projection year `year`. */
  function WealthAt(s: Settings, year: nat): real
    requires s.inflation >= 0.0
  {
    if year == 0 then s.initialWealth else YearOf(s, year - 1, WealthAt(s, year - 1)).endingWealth
  }

  /** The first `n` records, in year order. */
  function Ledger(s: Settings, n: nat): (r: seq<YearProjection>)
    requires s.inflation >= 0.0
    ensures |r| == n
  {
    if n == 0 then [] else Ledger(s, n - 1) + [YearOf(s, n - 1, WealthAt(s, n - 1))]
  }

  /** `ends.reduce((max, x) => Math.max(max, x), acc)`: the largest of `acc` and `ends`. */
  function MaxReduce(acc: int, ends: seq<int>): (r: int)
    ensures r >= acc && forall i :: 0 <= i < |ends| ==> r >= ends[i]
    ensures r == acc || exists i :: 0 <= i < |ends| && r == ends[i]
    decreases |ends|
  {
    if ends == [] then acc else MaxReduce(if ends[0] > acc then ends[0] else acc, ends[1..])
  }

  function CostEnds(costs: seq<Cost>): seq<int> {
    seq(|costs|, i requires 0 <= i < |costs| => costs[i].startYear + costs[i].years)
  }

  function InvestmentEnds(investments: seq<Investment>): seq<int> {
    seq(|investments|, i requires 0 <= i < |investments| => investments[i].startYear + investments[i].years)
  }

  /** The number of simulated years: the requested number, stretched to the last end year
      of every cost (enabled or not) and every investment. */
  function Horizon(s: Settings): nat {
    var maxCostYear := MaxReduce(0, CostEnds(s.costs));
    var maxInvestmentYear := MaxReduce(0, InvestmentEnds(s.investments));
    var m := if s.maxYears > maxCostYear then s.maxYears else maxCostYear;
    if m > maxInvestmentYear then m else maxInvestmentYear
  }

  // ---------------------------------------------------------------------------------------
  // The calculation, as the source runs it

  lemma TotalAppend(items: seq<LineItem>, more: seq<LineItem>)
    requires |more| <= 1
    ensures Total(items + more) == Total(items) + Total(more)
  {
    if more != [] {
      assert (items + more)[..|items|] == items;
    } else {
      assert items + more == items;
    }
  }

  /** The listed investments of one year and their total, accumulated entry by entry. */
  method CollectInvestments(investments: seq<Investment>, year: nat, inflation: real)
    returns (yearInvestments: seq<LineItem>, totalInvestments: real)
    requires inflation >= 0.0
    ensures yearInvestments == InvestmentItems(investments, year, inflation)
    ensures totalInvestments == Total(yearInvestments)
  {
    yearInvestments, totalInvestments := [], 0.0;
    var i := 0;
    while i < |investments|
      invariant 0 <= i <= |investments|
      invariant yearInvestments == InvestmentItems(investments[..i], year, inflation)
      invariant totalInvestments == Total(yearInvestments)
    {
      ghost var line := InvestmentLine(investments[i], year, inflation);
      TotalAppend(yearInvestments, Listed(line));
      InvestmentItemsStep(investments, i, year, inflation);
      yearInvestments, totalInvestments :=
        VisitInvestment(investments[i], year, inflation, yearInvestments, totalInvestments);
      i := i + 1;
    }
    assert investments[..|investments|] == investments;
  }

  /** The body of the per-investment callback: push the investment's line, if any, and add
      its amount to the running total. */
  method VisitInvestment(investment: Investment, year: nat, inflation: real,
                         yearInvestments: seq<LineItem>, totalInvestments: real)
    returns (items: seq<LineItem>, total: real)
    requires inflation >= 0.0
    ensures items == yearInvestments + Listed(InvestmentLine(investment, year, inflation))
    ensures total == totalInvestments + Total(Listed(InvestmentLine(investment, year, inflation)))
  {
    items, total := yearInvestments, totalInvestments;
    if year >= investment.startYear && year < investment.startYear + investment.years {
      var inflationMultiplier := Multiplier(inflation, year);
      var investmentAmount := investment.amount * inflationMultiplier;
      if investmentAmount > 0.0 {
        var todaysValue := investmentAmount / inflationMultiplier;
        items := items + [LineItem(Label(investment.name, "Unnamed Investment"), investmentAmount, todaysValue)];
        total := total + investmentAmount;
        ghost var line := InvestmentLine(investment, year, inflation);
        assert line.Some?;
        assert line.value.amount == investmentAmount;
        assert line.value.todaysValue == todaysValue;
        assert line == Some(LineItem(Label(investment.name, "Unnamed Investment"), investmentAmount, todaysValue));
      } else {
        assert InvestmentLine(investment, year, inflation) == None;
      }
    } else {
      assert InvestmentLine(investment, year, inflation) == None;
    }
  }

  lemma InvestmentItemsStep(investments: seq<Investment>, i: nat, year: nat, inflation: real)
    requires inflation >= 0.0 && i < |investments|
    ensures InvestmentItems(investments[..i + 1], year, inflation)
         == InvestmentItems(investments[..i], year, inflation)
            + Listed(InvestmentLine(investments[i], year, inflation))
  {
    assert investments[..i + 1][..i] == investments[..i];
  }

  /** The listed costs of one year and their total, accumulated entry by entry. */
  method CollectCosts(costs: seq<Cost>, year: nat, inflation: real, wealthAfterInterest: real)
    returns (yearCosts: seq<LineItem>, totalCosts: real)
    requires inflation >= 0.0
    ensures yearCosts == CostItems(costs, year, inflation, wealthAfterInterest)
    ensures totalCosts == Total(yearCosts)
  {
    yearCosts, totalCosts := [], 0.0;
    var i := 0;
    while i < |costs|
      invariant 0 <= i <= |costs|
      invariant yearCosts == CostItems(costs[..i], year, inflation, wealthAfterInterest)
      invariant totalCosts == Total(yearCosts)
    {
      ghost var line := CostLine(costs[i], year, inflation, wealthAfterInterest);
      TotalAppend(yearCosts, Listed(line));
      CostItemsStep(costs, i, year, inflation, wealthAfterInterest);
      yearCosts, totalCosts := VisitCost(costs[i], year, inflation, wealthAfterInterest, yearCosts, totalCosts);
      i := i + 1;
    }
    assert costs[..|costs|] == costs;
  }

  /** The body of the per-cost callback: a disabled cost or one outside its window is
      skipped; otherwise the fixed amount is indexed, the percentage is taken of the wealth
      after interest, and a positive amount is pushed and added to the running total. */
  method VisitCost(cost: Cost, year: nat, inflation: real, wealthAfterInterest: real,
                   yearCosts: seq<LineItem>, totalCosts: real)
    returns (items: seq<LineItem>, total: real)
    requires inflation >= 0.0
    ensures items == yearCosts + Listed(CostLine(cost, year, inflation, wealthAfterInterest))
    ensures total == totalCosts + Total(Listed(CostLine(cost, year, inflation, wealthAfterInterest)))
  {
    items, total := yearCosts, totalCosts;
    if cost.enabled && year >= cost.startYear && year < cost.startYear + cost.years {
      var inflationMultiplier := Multiplier(inflation, year);
      var costAmount := 0.0;
      if cost.kind == Fixed {
        costAmount := cost.amount * inflationMultiplier;
      } else {
        costAmount := (wealthAfterInterest * cost.amount) / 100.0;
      }
      if costAmount > 0.0 {
        var todaysValue := costAmount / inflationMultiplier;
        items := items + [LineItem(Label(cost.name, "Unnamed Cost"), costAmount, todaysValue)];
        total := total + costAmount;
        ghost var line := CostLine(cost, year, inflation, wealthAfterInterest);
        assert line.Some?;
        assert line.value.amount == costAmount;
        assert line.value.todaysValue == todaysValue;
        assert line == Some(LineItem(Label(cost.name, "Unnamed Cost"), costAmount, todaysValue));
      } else {
        assert CostLine(cost, year, inflation, wealthAfterInterest) == None;
      }
    } else {
      assert CostLine(cost, year, inflation, wealthAfterInterest) == None;
    }
  }

  lemma CostItemsStep(costs: seq<Cost>, i: nat, year: nat, inflation: real, afterInterest: real)
    requires inflation >= 0.0 && i < |costs|
    ensures CostItems(costs[..i + 1], year, inflation, afterInterest)
         == CostItems(costs[..i], year, inflation, afterInterest)
            + Listed(CostLine(costs[i], year, inflation, afterInterest))
  {
    assert costs[..i + 1][..i] == costs[..i];
  }

  /** One year's record assembled from the collected lines is the specified record. */
  lemma YearOfCollected(s: Settings, year: nat, wealth: real,
                        investments: seq<LineItem>, totalInvestments: real,
                        costs: seq<LineItem>, totalCosts: real)
    requires s.inflation >= 0.0
    requires investments == InvestmentItems(s.investments, year, s.inflation)
    requires totalInvestments == Total(investments)
    requires costs == CostItems(s.costs, year, s.inflation, wealth + Interest(wealth, s.yearlyInterest))
    requires totalCosts == Total(costs)
    ensures YearOf(s, year, wealth)
         == YearProjection(year, s.startYear + year, wealth, Interest(wealth, s.yearlyInterest),
                           investments, totalInvestments, costs, totalCosts,
                           wealth + Interest(wealth, s.yearlyInterest) + totalInvestments - totalCosts)
  {
  }

  lemma LedgerStep(s: Settings, n: nat)
    requires s.inflation >= 0.0
    ensures Ledger(s, n + 1) == Ledger(s, n) + [YearOf(s, n, WealthAt(s, n))]
    ensures WealthAt(s, n + 1) == YearOf(s, n, WealthAt(s, n)).endingWealth
  {
  }

  /** The whole calculation: nothing when the guard fails (the caller then keeps its previous
      ledger), otherwise one record per year of the horizon, each year entered with the
      previous year's ending wealth. */
  method CalculateProjections(s: Settings) returns (r: Option<seq<YearProjection>>)
    ensures r.None? <==> !Computable(s)
    ensures r.Some? ==> s.inflation >= 0.0 && r.value == Ledger(s, Horizon(s))
  {
    if s.initialWealth <= 0.0 || s.yearlyInterest < 0.0 || s.inflation < 0.0 {
      return None;
    }
    var projectionYears := Horizon(s);
    var yearlyProjections := SimulateYears(s, projectionYears);
    return Some(yearlyProjections);
  }

  /** The year loop of the calculation: `projectionYears` records, each year entered with the
      previous year's ending wealth. */
  method SimulateYears(s: Settings, projectionYears: nat) returns (yearlyProjections: seq<YearProjection>)
    requires s.inflation >= 0.0
    ensures yearlyProjections == Ledger(s, projectionYears)
  {
    yearlyProjections := [];
    var currentWealth := s.initialWealth;
    var year: nat := 0;
    while year < projectionYears
      invariant year <= projectionYears
      invariant yearlyProjections == Ledger(s, year)
      invariant currentWealth == WealthAt(s, year)
    {
      var record := ProjectYear(s, year, currentWealth);
      LedgerStep(s, year);
      yearlyProjections := yearlyProjections + [record];
      currentWealth := record.endingWealth;
      year := year + 1;
    }
  }

  /** The body of one pass of the year loop: interest on positive wealth, then the year's
      investments and costs, then the ending wealth. */
  method ProjectYear(s: Settings, year: nat, currentWealth: real) returns (record: YearProjection)
    requires s.inflation >= 0.0
    ensures record == YearOf(s, year, currentWealth)
  {
    var startingWealth := currentWealth;
    var interestGained := Interest(currentWealth, s.yearlyInterest);
    var wealthAfterInterest := currentWealth + interestGained;
    var yearInvestments, totalInvestments := CollectInvestments(s.investments, year, s.inflation);
    var yearCosts, totalCosts := CollectCosts(s.costs, year, s.inflation, wealthAfterInterest);
    var endingWealth := wealthAfterInterest + totalInvestments - totalCosts;
    record := YearProjection(
      year, s.startYear + year, startingWealth, interestGained,
      yearInvestments, totalInvestments, yearCosts, totalCosts, endingWealth);
    YearOfCollected(s, year, currentWealth, yearInvestments, totalInvestments, yearCosts, totalCosts);
  }

  // ---------------------------------------------------------------------------------------
  // Properties of the ledger

  /** Record `k` of any ledger long enough to hold it is year `k` entered with the wealth
      the previous years leave. */
  lemma {:induction false} LedgerAt(s: Settings, n: nat, k: nat)
    requires s.inflation >= 0.0 && k < n
    ensures Ledger(s, n)[k] == YearOf(s, k, WealthAt(s, k))
  {
    LedgerStep(s, n - 1);
    var last := YearOf(s, n - 1, WealthAt(s, n - 1));
    if k < n - 1 {
      LedgerAt(s, n - 1, k);
      assert (Ledger(s, n - 1) + [last])[k] == Ledger(s, n - 1)[k];
    } else {
      assert (Ledger(s, n - 1) + [last])[k] == last;
    }
  }

  /** A longer ledger starts with the shorter one: extending the horizon keeps every
      earlier record. */
  lemma LedgerPrefix(s: Settings, n: nat, m: nat, k: nat)
    requires s.inflation >= 0.0 && k < n <= m
    ensures Ledger(s, n)[k] == Ledger(s, m)[k]
  {
    LedgerAt(s, n, k);
    LedgerAt(s, m, k);
  }

  /** Every record is numbered by its position and carries the matching calendar year. */
  lemma LedgerNumbering(s: Settings, n: nat, k: nat)
    requires s.inflation >= 0.0 && k < n
    ensures Ledger(s, n)[k].yearNumber == k
    ensures Ledger(s, n)[k].calendarYear == s.startYear + k
  {
    LedgerAt(s, n, k);
  }

  /** Year 0 starts from the initial wealth and every later year starts from the ending
      wealth of the year before. */
  lemma LedgerThreadsWealth(s: Settings, n: nat, k: nat)
    requires s.inflation >= 0.0 && k < n
    ensures k == 0 ==> Ledger(s, n)[k].startingWealth == s.initialWealth
    ensures k > 0 ==> Ledger(s, n)[k].startingWealth == Ledger(s, n)[k - 1].endingWealth
  {
    LedgerAt(s, n, k);
    if k > 0 {
      LedgerAt(s, n, k - 1);
    }
  }

  /** Each record balances: interest is the rate's share of a positive starting wealth and
      exactly zero otherwise, each total is the sum of its listed lines, and the ending
      wealth is the starting wealth plus interest plus investments minus costs, with no
      floor at zero. */
  lemma LedgerBalances(s: Settings, n: nat, k: nat)
    requires s.inflation >= 0.0 && k < n
    ensures Ledger(s, n)[k].interestGained == Interest(Ledger(s, n)[k].startingWealth, s.yearlyInterest)
    ensures Ledger(s, n)[k].startingWealth <= 0.0 ==> Ledger(s, n)[k].interestGained == 0.0
    ensures Ledger(s, n)[k].totalInvestments == Total(Ledger(s, n)[k].investments)
    ensures Ledger(s, n)[k].totalCosts == Total(Ledger(s, n)[k].costs)
    ensures Ledger(s, n)[k].endingWealth == Ledger(s, n)[k].startingWealth + Ledger(s, n)[k].interestGained
              + Ledger(s, n)[k].totalInvestments - Ledger(s, n)[k].totalCosts
  {
    LedgerAt(s, n, k);
  }

  /** A year that ends at or below zero leaves its successor without interest. */
  lemma NoInterestAfterLoss(s: Settings, n: nat, k: nat)
    requires s.inflation >= 0.0 && k + 1 < n
    requires Ledger(s, n)[k].endingWealth <= 0.0
    ensures Ledger(s, n)[k + 1].interestGained == 0.0
  {
    LedgerThreadsWealth(s, n, k + 1);
    LedgerBalances(s, n, k + 1);
  }

  /** The lines of a year are the listed lines of the entries, in entry order: an investment
      line is listed exactly when the entry is active with a positive amount. */
  lemma {:induction false} InvestmentItemsListed(investments: seq<Investment>, year: nat, inflation: real)
    requires inflation >= 0.0
    ensures |InvestmentItems(investments, year, inflation)|
         == |ActiveInvestments(investments, year)|
    ensures forall j :: 0 <= j < |InvestmentItems(investments, year, inflation)| ==>
              InvestmentItems(investments, year, inflation)[j].todaysValue
                == ActiveInvestments(investments, year)[j].amount
              && InvestmentLine(ActiveInvestments(investments, year)[j], year, inflation)
                == Some(InvestmentItems(investments, year, inflation)[j])
  {
    if investments != [] {
      var init := investments[..|investments| - 1];
      var last := investments[|investments| - 1];
      InvestmentItemsListed(init, year, inflation);
      InvestmentLineSpec(last, year, inflation);
    }
  }

  /** The investments active in `year` with a positive configured amount, in entry order. */
  function ActiveInvestments(investments: seq<Investment>, year: nat): (r: seq<Investment>)
    ensures |r| <= |investments|
    ensures forall j :: 0 <= j < |r| ==>
              r[j] in investments && Active(r[j].startYear, r[j].years, year) && r[j].amount > 0.0
  {
    if investments == [] then []
    else
      var last := investments[|investments| - 1];
      ActiveInvestments(investments[..|investments| - 1], year)
        + (if Active(last.startYear, last.years, year) && last.amount > 0.0 then [last] else [])
  }

  /** The enabled costs, in entry order. */
  function EnabledCosts(costs: seq<Cost>): (r: seq<Cost>)
    ensures |r| <= |costs|
    ensures forall j :: 0 <= j < |r| ==> r[j].enabled && r[j] in costs
  {
    if costs == [] then []
    else
      var last := costs[|costs| - 1];
      EnabledCosts(costs[..|costs| - 1]) + (if last.enabled then [last] else [])
  }

  /** A disabled cost never takes anything: dropping every disabled cost leaves the cost
      lines of every year as they were. */
  lemma {:induction false} CostItemsIgnoreDisabled(costs: seq<Cost>, year: nat, inflation: real, afterInterest: real)
    requires inflation >= 0.0
    ensures CostItems(costs, year, inflation, afterInterest)
         == CostItems(EnabledCosts(costs), year, inflation, afterInterest)
  {
    if costs != [] {
      var init := costs[..|costs| - 1];
      var last := costs[|costs| - 1];
      CostItemsIgnoreDisabled(init, year, inflation, afterInterest);
      var e := EnabledCosts(init);
      var line := CostLine(last, year, inflation, afterInterest);
      assert CostItems(costs, year, inflation, afterInterest)
          == CostItems(init, year, inflation, afterInterest) + Listed(line);
      if last.enabled {
        assert EnabledCosts(costs) == e + [last];
        assert (e + [last])[..|e|] == e;
        assert CostItems(e + [last], year, inflation, afterInterest)
            == CostItems(e, year, inflation, afterInterest) + Listed(line);
      } else {
        assert EnabledCosts(costs) == e;
        assert line == None;
      }
    }
  }

  lemma YearOfIgnoresDisabled(s: Settings, year: nat, w: real)
    requires s.inflation >= 0.0
    ensures YearOf(s, year, w) == YearOf(s.(costs := EnabledCosts(s.costs)), year, w)
  {
    var t := s.(costs := EnabledCosts(s.costs));
    var interest := Interest(w, s.yearlyInterest);
    var investments := InvestmentItems(s.investments, year, s.inflation);
    var costs := CostItems(s.costs, year, s.inflation, w + interest);
    var record := YearProjection(year, s.startYear + year, w, interest, investments, Total(investments),
                                 costs, Total(costs), w + interest + Total(investments) - Total(costs));
    assert YearOf(s, year, w) == record;
    assert YearOf(t, year, w) == record by {
      CostItemsIgnoreDisabled(s.costs, year, s.inflation, w + interest);
    }
  }

  /** Dropping every disabled cost leaves the whole ledger as it was (the horizon aside,
      which disabled costs still stretch). */
  lemma {:induction false} LedgerIgnoresDisabled(s: Settings, n: nat)
    requires s.inflation >= 0.0
    ensures Ledger(s, n) == Ledger(s.(costs := EnabledCosts(s.costs)), n)
    ensures WealthAt(s, n) == WealthAt(s.(costs := EnabledCosts(s.costs)), n)
  {
    var t := s.(costs := EnabledCosts(s.costs));
    if n > 0 {
      LedgerIgnoresDisabled(s, n - 1);
      var w := WealthAt(s, n - 1);
      assert WealthAt(t, n - 1) == w;
      YearOfIgnoresDisabled(s, n - 1, w);
      LedgerStep(s, n - 1);
      LedgerStep(t, n - 1);
      assert WealthAt(s, n) == YearOf(s, n - 1, w).endingWealth;
      assert WealthAt(t, n) == YearOf(t, n - 1, w).endingWealth;
    } else {
      assert WealthAt(t, 0) == t.initialWealth;
    }
  }

  /** Every listed line of every record takes or brings a positive amount, so no total is
      negative. */
  lemma LedgerLinesPositive(s: Settings, n: nat, k: nat)
    requires s.inflation >= 0.0 && k < n
    ensures AllPositive(Ledger(s, n)[k].investments) && AllPositive(Ledger(s, n)[k].costs)
    ensures Ledger(s, n)[k].totalInvestments >= 0.0 && Ledger(s, n)[k].totalCosts >= 0.0
  {
    LedgerAt(s, n, k);
    YearLinesPositive(s, k, WealthAt(s, k));
  }

  lemma YearLinesPositive(s: Settings, year: nat, w: real)
    requires s.inflation >= 0.0
    ensures AllPositive(YearOf(s, year, w).investments) && AllPositive(YearOf(s, year, w).costs)
    ensures YearOf(s, year, w).totalInvestments >= 0.0 && YearOf(s, year, w).totalCosts >= 0.0
  {
    InvestmentLinesPositive(s.investments, year, s.inflation);
    CostLinesPositive(s.costs, year, s.inflation, w + Interest(w, s.yearlyInterest));
  }

  /** Every listed line takes or brings a positive amount. */
  predicate AllPositive(items: seq<LineItem>) {
    forall j :: 0 <= j < |items| ==> items[j].amount > 0.0
  }

  lemma AppendPositive(items: seq<LineItem>, more: seq<LineItem>)
    requires AllPositive(items) && AllPositive(more)
    ensures AllPositive(items + more)
  {
  }

  lemma {:induction false} InvestmentLinesPositive(investments: seq<Investment>, year: nat, inflation: real)
    requires inflation >= 0.0
    ensures AllPositive(InvestmentItems(investments, year, inflation))
    ensures Total(InvestmentItems(investments, year, inflation)) >= 0.0
  {
    if investments != [] {
      var init := investments[..|investments| - 1];
      var line := InvestmentLine(investments[|investments| - 1], year, inflation);
      var items := InvestmentItems(init, year, inflation);
      InvestmentLinesPositive(init, year, inflation);
      assert line.Some? ==> line.value.amount > 0.0;
      assert InvestmentItems(investments, year, inflation) == items + Listed(line);
      TotalAppend(items, Listed(line));
      AppendPositive(items, Listed(line));
    }
  }

  lemma {:induction false} CostLinesPositive(costs: seq<Cost>, year: nat, inflation: real, afterInterest: real)
    requires inflation >= 0.0
    ensures AllPositive(CostItems(costs, year, inflation, afterInterest))
    ensures Total(CostItems(costs, year, inflation, afterInterest)) >= 0.0
  {
    if costs != [] {
      var init := costs[..|costs| - 1];
      var line := CostLine(costs[|costs| - 1], year, inflation, afterInterest);
      var items := CostItems(init, year, inflation, afterInterest);
      CostLinesPositive(init, year, inflation, afterInterest);
      assert line.Some? ==> line.value.amount > 0.0;
      assert CostItems(costs, year, inflation, afterInterest) == items + Listed(line);
      TotalAppend(items, Listed(line));
      AppendPositive(items, Listed(line));
    }
  }

  /** A percentage cost is a share of the wealth after interest and is not indexed: whether
      it is listed and how much it takes do not depend on the inflation rate. */
  lemma PercentageCostIgnoresInflation(c: Cost, year: nat, inflation1: real, inflation2: real, afterInterest: real)
    requires inflation1 >= 0.0 && inflation2 >= 0.0 && c.kind == Percentage
    ensures CostLine(c, year, inflation1, afterInterest).Some?
        <==> CostLine(c, year, inflation2, afterInterest).Some?
    ensures CostLine(c, year, inflation1, afterInterest).Some? ==>
              CostLine(c, year, inflation1, afterInterest).value.amount
                == CostLine(c, year, inflation2, afterInterest).value.amount
  {
    CostLineSpec(c, year, inflation1, afterInterest);
    CostLineSpec(c, year, inflation2, afterInterest);
  }

  /** With no enabled cost and a non-negative rate, no year ends below where it started. */
  lemma WealthNeverFallsWithoutCosts(s: Settings, n: nat, k: nat)
    requires s.inflation >= 0.0 && s.yearlyInterest >= 0.0 && k < n
    requires EnabledCosts(s.costs) == []
    ensures Ledger(s, n)[k].endingWealth >= Ledger(s, n)[k].startingWealth
  {
    LedgerAt(s, n, k);
    YearNeverFallsWithoutCosts(s, k, WealthAt(s, k));
  }

  lemma YearNeverFallsWithoutCosts(s: Settings, year: nat, w: real)
    requires s.inflation >= 0.0 && s.yearlyInterest >= 0.0
    requires EnabledCosts(s.costs) == []
    ensures YearOf(s, year, w).endingWealth >= w
  {
    var r := YearOf(s, year, w);
    assert r.costs == [] by {
      CostItemsIgnoreDisabled(s.costs, year, s.inflation, w + Interest(w, s.yearlyInterest));
    }
    YearLinesPositive(s, year, w);
    InterestRule(w, s.yearlyInterest);
    assert r.totalCosts == 0.0;
  }

  // ---------------------------------------------------------------------------------------
  // The horizon

  /** The horizon reaches the requested number of years and the end year of every cost,
      enabled or not, and of every investment. */
  lemma HorizonCovers(s: Settings)
    ensures Horizon(s) >= s.maxYears
    ensures forall j :: 0 <= j < |s.costs| ==> Horizon(s) >= s.costs[j].startYear + s.costs[j].years
    ensures forall j :: 0 <= j < |s.investments| ==>
              Horizon(s) >= s.investments[j].startYear + s.investments[j].years
  {
    var ce := CostEnds(s.costs);
    var ie := InvestmentEnds(s.investments);
    assert forall j :: 0 <= j < |s.costs| ==> ce[j] == s.costs[j].startYear + s.costs[j].years;
    assert forall j :: 0 <= j < |s.investments| ==> ie[j] == s.investments[j].startYear + s.investments[j].years;
  }

  /** The horizon is no larger than it has to be: it is the requested number of years, an
      entry's end year, or zero. */
  lemma HorizonIsLeast(s: Settings)
    ensures Horizon(s) == s.maxYears || Horizon(s) == 0
         || (exists j :: 0 <= j < |s.costs| && Horizon(s) == s.costs[j].startYear + s.costs[j].years)
         || (exists j :: 0 <= j < |s.investments| &&
               Horizon(s) == s.investments[j].startYear + s.investments[j].years)
  {
    var ce := CostEnds(s.costs);
    var ie := InvestmentEnds(s.investments);
    var mc := MaxReduce(0, ce);
    var mi := MaxReduce(0, ie);
    if Horizon(s) != s.maxYears && Horizon(s) != 0 {
      if Horizon(s) == mc {
        var j :| 0 <= j < |ce| && mc == ce[j];
        assert Horizon(s) == s.costs[j].startYear + s.costs[j].years;
      } else {
        assert Horizon(s) == mi;
        var j :| 0 <= j < |ie| && mi == ie[j];
        assert Horizon(s) == s.investments[j].startYear + s.investments[j].years;
      }
    }
  }

  /** Every year in which some cost or investment runs has a record. */
  lemma LedgerCoversActiveYears(s: Settings, year: nat)
    requires (exists j :: 0 <= j < |s.costs| && Active(s.costs[j].startYear, s.costs[j].years, year))
          || (exists j :: 0 <= j < |s.investments|
                && Active(s.investments[j].startYear, s.investments[j].years, year))
    ensures year < Horizon(s)
  {
    HorizonCovers(s);
  }

  // ---------------------------------------------------------------------------------------
  // A worked example

  /** 100000 at 7.5% with 3% inflation, thirty years requested, and one fixed cost of 50000
      for the first ten years. */
  function FixedCostSettings(): Settings {
    Settings(100000.0, 7.5, 3.0, 2026, 30, [Cost("1", "Living", Fixed, 50000.0, 0, 10, true)], [])
  }

  /** Year 0 earns 7500 and pays 50000, ending at 57500; year 1 earns 4312.5 on that, pays
      the indexed 51500 and ends at 10312.5; thirty years are simulated. */
  lemma FixedCostScenario()
    ensures Horizon(FixedCostSettings()) == 30
    ensures Ledger(FixedCostSettings(), 2)[0].endingWealth == 57500.0
    ensures Ledger(FixedCostSettings(), 2)[1].interestGained == 4312.5
    ensures Ledger(FixedCostSettings(), 2)[1].totalCosts == 51500.0
    ensures Ledger(FixedCostSettings(), 2)[1].endingWealth == 10312.5
  {
    var s := FixedCostSettings();
    assert Horizon(s) == 30 by {
      assert CostEnds(s.costs) == [10];
      assert InvestmentEnds(s.investments) == [];
    }
    LedgerAt(s, 2, 0);
    LedgerAt(s, 2, 1);
    FixedCostYear0();
    assert WealthAt(s, 1) == 57500.0;
    FixedCostYear1();
  }

  lemma FixedCostYear0()
    ensures YearOf(FixedCostSettings(), 0, 100000.0).endingWealth == 57500.0
  {
    var s := FixedCostSettings();
    assert Interest(100000.0, 7.5) == 7500.0;
    assert CostItems(s.costs, 0, 3.0, 107500.0) == [LineItem("Living", 50000.0, 50000.0)] by {
      assert Multiplier(3.0, 0) == 1.0;
      assert s.costs[..0] == [];
    }
    assert Total([LineItem("Living", 50000.0, 50000.0)]) == 50000.0;
  }

  lemma FixedCostYear1()
    ensures YearOf(FixedCostSettings(), 1, 57500.0).interestGained == 4312.5
    ensures YearOf(FixedCostSettings(), 1, 57500.0).totalCosts == 51500.0
    ensures YearOf(FixedCostSettings(), 1, 57500.0).endingWealth == 10312.5
  {
    var s := FixedCostSettings();
    assert Interest(57500.0, 7.5) == 4312.5;
    assert CostItems(s.costs, 1, 3.0, 61812.5) == [LineItem("Living", 51500.0, 50000.0)] by {
      assert CostLine(s.costs[0], 1, 3.0, 61812.5) == Some(LineItem("Living", 51500.0, 50000.0)) by {
        assert Multiplier(3.0, 1) == 1.03 by {
          assert Pow(1.03, 1) == 1.03 * Pow(1.03, 0);
        }
        assert 50000.0 * 1.03 == 51500.0;
        assert 51500.0 / 1.03 == 50000.0;
      }
      assert s.costs[..0] == [];
    }
    assert Total([LineItem("Living", 51500.0, 50000.0)]) == 51500.0;
  }
}
