/** The planner page: its state, the operations on the two entry lists, the horizon button,
    the migration of stored costs and the recalculation that replaces the ledger. */
module Home {
  import opened Wrappers
  import opened Lists
  import opened Projection

  // ---------------------------------------------------------------------------------------
  // Costs and investments

  function CostId(c: Cost): string { c.id }

  function InvestmentId(inv: Investment): string { inv.id }

  /** The cost the add button appends: unnamed, fixed, zero, one year from year 0, enabled.
      The id (the current time in the page) is a parameter. */
  function NewCost(id: string): Cost {
    Cost(id, "", Fixed, 0.0, 0, 1, true)
  }

  /** The investment the add button appends: unnamed, zero, one year from year 0. */
  function NewInvestment(id: string): Investment {
    Investment(id, "", 0.0, 0, 1)
  }

  /** A blank cost is never listed: its amount is zero in every year. */
  lemma {:induction false} BlankCostItems(costs: seq<Cost>, id: string, year: nat, inflation: real, afterInterest: real)
    requires inflation >= 0.0
    ensures CostItems(costs + [NewCost(id)], year, inflation, afterInterest)
         == CostItems(costs, year, inflation, afterInterest)
  {
    var xs := costs + [NewCost(id)];
    assert xs[..|xs| - 1] == costs;
    assert CostLine(NewCost(id), year, inflation, afterInterest) == None;
    assert CostItems(xs, year, inflation, afterInterest)
        == CostItems(costs, year, inflation, afterInterest) + Listed(None);
  }

  /** A blank investment is never listed: its amount is zero in every year. */
  lemma {:induction false} BlankInvestmentItems(investments: seq<Investment>, id: string, year: nat, inflation: real)
    requires inflation >= 0.0
    ensures InvestmentItems(investments + [NewInvestment(id)], year, inflation)
         == InvestmentItems(investments, year, inflation)
  {
    var xs := investments + [NewInvestment(id)];
    assert xs[..|xs| - 1] == investments;
    assert InvestmentLine(NewInvestment(id), year, inflation) == None;
    assert InvestmentItems(xs, year, inflation)
        == InvestmentItems(investments, year, inflation) + Listed(None);
  }

  lemma YearOfIgnoresBlankCost(s: Settings, id: string, year: nat, w: real)
    requires s.inflation >= 0.0
    ensures YearOf(s.(costs := s.costs + [NewCost(id)]), year, w) == YearOf(s, year, w)
  {
    var t := s.(costs := s.costs + [NewCost(id)]);
    var interest := Interest(w, s.yearlyInterest);
    var investments := InvestmentItems(s.investments, year, s.inflation);
    var costs := CostItems(s.costs, year, s.inflation, w + interest);
    var record := YearProjection(year, s.startYear + year, w, interest, investments, Total(investments),
                                 costs, Total(costs), w + interest + Total(investments) - Total(costs));
    assert YearOf(s, year, w) == record;
    assert YearOf(t, year, w) == record by {
      BlankCostItems(s.costs, id, year, s.inflation, w + interest);
    }
  }

  lemma YearOfIgnoresBlankInvestment(s: Settings, id: string, year: nat, w: real)
    requires s.inflation >= 0.0
    ensures YearOf(s.(investments := s.investments + [NewInvestment(id)]), year, w) == YearOf(s, year, w)
  {
    var t := s.(investments := s.investments + [NewInvestment(id)]);
    var interest := Interest(w, s.yearlyInterest);
    var investments := InvestmentItems(s.investments, year, s.inflation);
    var costs := CostItems(s.costs, year, s.inflation, w + interest);
    var record := YearProjection(year, s.startYear + year, w, interest, investments, Total(investments),
                                 costs, Total(costs), w + interest + Total(investments) - Total(costs));
    assert YearOf(s, year, w) == record;
    assert YearOf(t, year, w) == record by {
      BlankInvestmentItems(s.investments, id, year, s.inflation);
    }
  }

  lemma YearOfIgnoresMaxYears(s: Settings, t: Settings, year: nat, w: real)
    requires s.inflation >= 0.0 && t == s.(maxYears := t.maxYears)
    ensures YearOf(t, year, w) == YearOf(s, year, w)
  {
    assert t.yearlyInterest == s.yearlyInterest && t.inflation == s.inflation && t.startYear == s.startYear;
    assert t.costs == s.costs && t.investments == s.investments;
  }

  /** Two settings with the same initial wealth whose years agree on every entering wealth
      produce the same ledger. */
  lemma {:induction false} SameYearsSameLedger(s: Settings, t: Settings, n: nat)
    requires s.inflation >= 0.0 && t.inflation >= 0.0 && t.initialWealth == s.initialWealth
    requires forall year: nat, w: real :: YearOf(t, year, w) == YearOf(s, year, w)
    ensures Ledger(t, n) == Ledger(s, n)
    ensures WealthAt(t, n) == WealthAt(s, n)
  {
    if n > 0 {
      SameYearsSameLedger(s, t, n - 1);
      var w := WealthAt(s, n - 1);
      assert YearOf(t, n - 1, w) == YearOf(s, n - 1, w);
      LedgerStep(s, n - 1);
      LedgerStep(t, n - 1);
      assert WealthAt(s, n) == YearOf(s, n - 1, w).endingWealth;
      assert WealthAt(t, n) == YearOf(t, n - 1, w).endingWealth;
    } else {
      assert WealthAt(t, 0) == s.initialWealth;
    }
  }

  /** A freshly added cost changes no record of the ledger (its one year may stretch the
      horizon, which adds records but changes none). */
  lemma LedgerIgnoresBlankCost(s: Settings, id: string, n: nat)
    requires s.inflation >= 0.0
    ensures Ledger(s.(costs := s.costs + [NewCost(id)]), n) == Ledger(s, n)
  {
    var t := s.(costs := s.costs + [NewCost(id)]);
    forall year: nat, w: real
      ensures YearOf(t, year, w) == YearOf(s, year, w)
    {
      YearOfIgnoresBlankCost(s, id, year, w);
    }
    SameYearsSameLedger(s, t, n);
  }

  /** A freshly added investment changes no record of the ledger. */
  lemma LedgerIgnoresBlankInvestment(s: Settings, id: string, n: nat)
    requires s.inflation >= 0.0
    ensures Ledger(s.(investments := s.investments + [NewInvestment(id)]), n) == Ledger(s, n)
  {
    var t := s.(investments := s.investments + [NewInvestment(id)]);
    forall year: nat, w: real
      ensures YearOf(t, year, w) == YearOf(s, year, w)
    {
      YearOfIgnoresBlankInvestment(s, id, year, w);
    }
    SameYearsSameLedger(s, t, n);
  }

  /** Ten more requested years never shorten the horizon and cover the request. */
  lemma ExtendHorizon(s: Settings)
    ensures Horizon(s) <= Horizon(s.(maxYears := s.maxYears + 10))
    ensures s.maxYears + 10 <= Horizon(s.(maxYears := s.maxYears + 10))
  {
    var t := s.(maxYears := s.maxYears + 10);
    assert CostEnds(t.costs) == CostEnds(s.costs);
    assert InvestmentEnds(t.investments) == InvestmentEnds(s.investments);
  }

  /** After ten more requested years every record computed before is computed again
      unchanged. */
  lemma ExtendKeepsLedger(s: Settings, k: nat)
    requires s.inflation >= 0.0 && k < Horizon(s)
    ensures k < Horizon(s.(maxYears := s.maxYears + 10))
    ensures Ledger(s.(maxYears := s.maxYears + 10), Horizon(s.(maxYears := s.maxYears + 10)))[k]
         == Ledger(s, Horizon(s))[k]
  {
    var t := s.(maxYears := s.maxYears + 10);
    ExtendHorizon(s);
    LedgerAt(s, Horizon(s), k);
    LedgerAt(t, Horizon(t), k);
    var w := WealthAt(s, k);
    assert WealthAt(t, k) == w by {
      forall year: nat, w': real
        ensures YearOf(t, year, w') == YearOf(s, year, w')
      {
        YearOfIgnoresMaxYears(s, t, year, w');
      }
      SameYearsSameLedger(s, t, k);
    }
    YearOfIgnoresMaxYears(s, t, k, w);
  }

  // ---------------------------------------------------------------------------------------
  // Migration of stored costs

  /** A cost as found in storage: an older save may lack the `enabled` field. */
  datatype StoredCost = StoredCost(id: string, name: string, kind: CostKind, amount: real,
                                   startYear: int, years: int, enabled: Option<bool>)

  /** `{...cost, enabled: cost.enabled ?? true}`. */
  function MigrateCost(c: StoredCost): (r: Cost)
    ensures r.id == c.id && r.name == c.name && r.kind == c.kind && r.amount == c.amount
    ensures r.startYear == c.startYear && r.years == c.years
    ensures r.enabled <==> (c.enabled.None? || c.enabled.value)
  {
    Cost(c.id, c.name, c.kind, c.amount, c.startYear, c.years, c.enabled.GetOr(true))
  }

  /** `(data.costs ?? []).map(migrate)`: a missing list loads as no costs. */
  function MigrateCosts(stored: Option<seq<StoredCost>>): (r: seq<Cost>)
    ensures stored.None? ==> r == []
    ensures stored.Some? ==> |r| == |stored.value|
    ensures stored.Some? ==> forall i :: 0 <= i < |r| ==> r[i] == MigrateCost(stored.value[i])
  {
    match stored
    case None => []
    case Some(cs) => seq(|cs|, i requires 0 <= i < |cs| => MigrateCost(cs[i]))
  }

  /** How the page saves a cost: every field, `enabled` included. */
  function StoreCost(c: Cost): StoredCost {
    StoredCost(c.id, c.name, c.kind, c.amount, c.startYear, c.years, Some(c.enabled))
  }

  /** Loading what was saved gives the same costs back. */
  lemma MigrateStored(costs: seq<Cost>)
    ensures MigrateCosts(Some(seq(|costs|, i requires 0 <= i < |costs| => StoreCost(costs[i])))) == costs
  {
  }

  /** Migrating is idempotent: saving migrated costs and loading them again changes nothing. */
  lemma MigrateIdempotent(stored: seq<StoredCost>)
    ensures var once := MigrateCosts(Some(stored));
            MigrateCosts(Some(seq(|once|, i requires 0 <= i < |once| => StoreCost(once[i])))) == once
  {
    MigrateStored(MigrateCosts(Some(stored)));
  }

  // ---------------------------------------------------------------------------------------
  // The page state

  /** The state the planner page keeps: the settings card, the two entry lists, the
      requested number of years and the ledger last computed. */
  class HomePage {
    var initialWealth: real
    var yearlyInterest: real
    var inflation: real
    var startYear: int
    var birthYear: int
    var costs: seq<Cost>
    var investments: seq<Investment>
    var projections: seq<YearProjection>
    var maxYears: int

    /** The settings a recalculation reads. */
    function Snapshot(): Settings
      reads this
    {
      Settings(initialWealth, yearlyInterest, inflation, startYear, maxYears, costs, investments)
    }

    /** The initial state: a wealth of 100000 at 7.5% interest and 3% inflation, starting in
        2026 for someone born in 1984, no entries, no ledger, 30 requested years. */
    constructor ()
      ensures initialWealth == 100000.0 && yearlyInterest == 7.5 && inflation == 3.0
      ensures startYear == 2026 && birthYear == 1984 && maxYears == 30
      ensures costs == [] && investments == [] && projections == []
    {
      initialWealth := 100000.0;
      yearlyInterest := 7.5;
      inflation := 3.0;
      startYear := 2026;
      birthYear := 1984;
      costs := [];
      investments := [];
      projections := [];
      maxYears := 30;
    }

    /** Appends a blank cost; the id is supplied by the caller (the page uses the clock). */
    method AddCost(id: string)
      modifies this
      ensures costs == old(costs) + [NewCost(id)]
      ensures investments == old(investments) && projections == old(projections)
      ensures Snapshot() == old(Snapshot()).(costs := costs) && birthYear == old(birthYear)
    {
      costs := costs + [NewCost(id)];
    }

    method UpdateCost(id: string, updated: Cost)
      modifies this
      ensures costs == ReplaceById(old(costs), CostId, id, updated)
      ensures Snapshot() == old(Snapshot()).(costs := costs) && projections == old(projections)
      ensures birthYear == old(birthYear)
    {
      costs := ReplaceById(costs, CostId, id, updated);
    }

    method RemoveCost(id: string)
      modifies this
      ensures costs == RemoveById(old(costs), CostId, id)
      ensures Snapshot() == old(Snapshot()).(costs := costs) && projections == old(projections)
      ensures birthYear == old(birthYear)
    {
      costs := RemoveById(costs, CostId, id);
    }

    /** Appends a blank investment; the id is supplied by the caller. */
    method AddInvestment(id: string)
      modifies this
      ensures investments == old(investments) + [NewInvestment(id)]
      ensures Snapshot() == old(Snapshot()).(investments := investments) && projections == old(projections)
      ensures birthYear == old(birthYear)
    {
      investments := investments + [NewInvestment(id)];
    }

    method UpdateInvestment(id: string, updated: Investment)
      modifies this
      ensures investments == ReplaceById(old(investments), InvestmentId, id, updated)
      ensures Snapshot() == old(Snapshot()).(investments := investments) && projections == old(projections)
      ensures birthYear == old(birthYear)
    {
      investments := ReplaceById(investments, InvestmentId, id, updated);
    }

    method RemoveInvestment(id: string)
      modifies this
      ensures investments == RemoveById(old(investments), InvestmentId, id)
      ensures Snapshot() == old(Snapshot()).(investments := investments) && projections == old(projections)
      ensures birthYear == old(birthYear)
    {
      investments := RemoveById(investments, InvestmentId, id);
    }

    /** The "10 more years" button. */
    method ExtendYears()
      modifies this
      ensures maxYears == old(maxYears) + 10
      ensures Snapshot() == old(Snapshot()).(maxYears := maxYears) && projections == old(projections)
      ensures birthYear == old(birthYear)
    {
      maxYears := maxYears + 10;
    }

    /** The recalculation the page runs as an effect after every settings change, once the
        saved settings have been restored: the ledger of the current settings when the guard
        holds, otherwise the previous ledger stays; nothing else changes. */
    method Recalculate()
      modifies this
      ensures Snapshot() == old(Snapshot()) && birthYear == old(birthYear)
      ensures !Computable(Snapshot()) ==> projections == old(projections)
      ensures Computable(Snapshot()) ==> inflation >= 0.0 && projections == Ledger(Snapshot(), Horizon(Snapshot()))
    {
      var result := CalculateProjections(Snapshot());
      if result.Some? {
        projections := result.value;
      }
    }
  }
}
