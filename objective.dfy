/**
 * The per-scenario objective: a cost coefficient for every variable
 * x[i, t, y], made of the net carbon cost after the free allowance, the
 * abatement cost against BF_BOF, and the discount factor of the year, and
 * the linear sum of coefficient * x built in the nested loops of
 * solve_for_scenarios.
 */
module Objective {
  import opened Wrappers
  import opened Errors
  import opened Lp
  import opened Data
  import opened Counting
  import opened Model

  // ---------------------------------------------------------------------
  // Discount factor
  // ---------------------------------------------------------------------

  /** b ** n for a whole exponent n >= 0 (0.0 ** 0 is 1.0, as in Python). */
  function Pow(b: real, n: nat): real {
    if n == 0 then 1.0 else b * Pow(b, n - 1)
  }

  lemma {:induction false} PowOfOne(n: nat)
    ensures Pow(1.0, n) == 1.0
  {
    if n > 0 {
      PowOfOne(n - 1);
    }
  }

  lemma {:induction false} PowPositive(b: real, n: nat)
    requires b > 0.0
    ensures Pow(b, n) > 0.0
  {
    if n > 0 {
      PowPositive(b, n - 1);
    }
  }

  lemma {:induction false} PowZeroIff(b: real, n: nat)
    ensures Pow(b, n) == 0.0 <==> b == 0.0 && n > 0
  {
    if n > 0 {
      PowZeroIff(b, n - 1);
    }
  }

  /**
   * discount_factor = 1.0 / ((1.0 + r) ** (y - start)). Python raises
   * ZeroDivisionError when the power is 0.
   */
  function Discount(rate: real, start: int, y: int): Result<real, Error>
    requires start <= y
  {
    var p := Pow(1.0 + rate, y - start);
    if p == 0.0 then Failure(DivisionByZero) else Success(1.0 / p)
  }

  /** The factor is the inverse of (1 + r) ** (y - start); the only error is the division by zero. */
  lemma DiscountInverse(rate: real, start: int, y: int)
    requires start <= y
    ensures Discount(rate, start, y).Failure? ==> Discount(rate, start, y).error == DivisionByZero
    ensures Discount(rate, start, y).Success? ==> Discount(rate, start, y).value * Pow(1.0 + rate, y - start) == 1.0
  {
  }

  /** The first year of the horizon is not discounted, whatever the rate. */
  lemma DiscountAtStart(rate: real, start: int)
    ensures Discount(rate, start, start) == Success(1.0)
  {
  }

  /** With a zero rate no year is discounted. */
  lemma DiscountZeroRate(start: int, y: int)
    requires start <= y
    ensures Discount(0.0, start, y) == Success(1.0)
  {
    PowOfOne(y - start);
  }

  /** The division fails exactly for the rate -1 after the first year. */
  lemma DiscountFailsIff(rate: real, start: int, y: int)
    requires start <= y
    ensures Discount(rate, start, y).Failure? <==> rate == -1.0 && y > start
  {
    PowZeroIff(1.0 + rate, y - start);
  }

  /** For a rate above -1 the factor is positive, and each year divides it once more by 1 + r. */
  lemma DiscountStep(rate: real, start: int, y: int)
    requires rate > -1.0 && start <= y
    ensures Discount(rate, start, y).Success? && Discount(rate, start, y + 1).Success?
    ensures Discount(rate, start, y).value > 0.0
    ensures Discount(rate, start, y + 1).value * (1.0 + rate) == Discount(rate, start, y).value
  {
    PowPositive(1.0 + rate, y - start);
    PowPositive(1.0 + rate, y + 1 - start);
    var p := Pow(1.0 + rate, y - start);
    assert Pow(1.0 + rate, y + 1 - start) == (1.0 + rate) * p;
  }

  // ---------------------------------------------------------------------
  // Cost coefficient
  // ---------------------------------------------------------------------

  /**
   * total_cost = (carbon_cost - allowance_offset + abatement) * discount, where
   * carbon_cost = cap * emi * price, allowance_offset = carbon_cost * allow and
   * abatement = cap * (bf_bof_int - emi) * mac.
   */
  function Coefficient(cap: real, emi: real, price: real, allow: real, baseEmi: real, mac: real, disc: real): real {
    var carbonCost := cap * emi * price;
    var allowanceOffset := carbonCost * allow;
    var abatement := cap * (baseEmi - emi) * mac;
    (carbonCost - allowanceOffset + abatement) * disc
  }

  /** The carbon cost is paid only on the share not covered by free allowances. */
  lemma NetCarbonCost(cap: real, emi: real, price: real, allow: real, baseEmi: real, mac: real, disc: real)
    ensures Coefficient(cap, emi, price, allow, baseEmi, mac, disc) ==
      (cap * emi * price * (1.0 - allow) + cap * (baseEmi - emi) * mac) * disc
  {
  }

  /** A technology as intensive as BF_BOF has no abatement cost, whatever its MAC. */
  lemma NoAbatementAtBaseline(cap: real, emi: real, price: real, allow: real, mac: real, mac': real, disc: real)
    ensures Coefficient(cap, emi, price, allow, emi, mac, disc) == Coefficient(cap, emi, price, allow, emi, mac', disc)
    ensures Coefficient(cap, emi, price, allow, emi, mac, disc) == cap * emi * price * (1.0 - allow) * disc
  {
  }

  /**
   * With a non-negative capacity, intensity and discount and an allowance
   * share of at most 1, a higher carbon price never lowers the coefficient.
   */
  lemma CoefficientMonotoneInPrice(cap: real, emi: real, price: real, price': real, allow: real, baseEmi: real, mac: real, disc: real)
    requires cap >= 0.0 && emi >= 0.0 && disc >= 0.0 && allow <= 1.0 && price <= price'
    ensures Coefficient(cap, emi, price, allow, baseEmi, mac, disc) <= Coefficient(cap, emi, price', allow, baseEmi, mac, disc)
  {
    NetCarbonCost(cap, emi, price, allow, baseEmi, mac, disc);
    NetCarbonCost(cap, emi, price', allow, baseEmi, mac, disc);
    var w := cap * emi * (1.0 - allow);
    assert w >= 0.0 by {
      assert cap * emi >= 0.0;
    }
    assert cap * emi * price * (1.0 - allow) == w * price;
    assert cap * emi * price' * (1.0 - allow) == w * price';
    assert w * price <= w * price';
    var a := cap * (baseEmi - emi) * mac;
    assert (w * price + a) * disc <= (w * price' + a) * disc;
  }

  /**
   * The body of the technology loop once the year's discount factor is
   * known: get_carbon_price, get_emission_intensity, get_allow_rate,
   * get_emission_intensity for BF_BOF and get_mac, in that order, then the
   * formula. The first error raised is the result.
   */
  function DiscountedCost(dm: DataManager, cap: real, y: int, t: nat, scenario: string, disc: real): Result<real, Error>
    requires dm.Valid() && t < NumTechs
  {
    var price :- dm.CarbonPrice(y, scenario);
    var emi :- dm.EmissionIntensity(y, Technologies[t]);
    var allow :- dm.AllowRate(y);
    var baseEmi :- dm.EmissionIntensity(y, Technologies[0]);
    var mac :- dm.Mac(y, Technologies[t]);
    Success(Coefficient(cap, emi, price, allow, baseEmi, mac, disc))
  }

  /** The cost fails exactly when one of its five lookups fails. */
  lemma DiscountedCostSucceedsIff(dm: DataManager, cap: real, y: int, t: nat, scenario: string, disc: real)
    requires dm.Valid() && t < NumTechs
    ensures DiscountedCost(dm, cap, y, t, scenario, disc).Success? <==>
      dm.CarbonPrice(y, scenario).Success? && dm.EmissionIntensity(y, Technologies[t]).Success? &&
      dm.AllowRate(y).Success? && dm.EmissionIntensity(y, Technologies[0]).Success? &&
      dm.Mac(y, Technologies[t]).Success?
  {
  }

  /** The coefficient of x[i, t, y] for one scenario: the year's discount factor first, then the lookups. */
  function CostCoefficient(dm: DataManager, cap: real, rate: real, start: int, y: int, t: nat, scenario: string): Result<real, Error>
    requires dm.Valid() && start <= y && t < NumTechs
  {
    var disc :- Discount(rate, start, y);
    DiscountedCost(dm, cap, y, t, scenario, disc)
  }

  /** The coefficient of x[i, t, y] under the configuration's capacity, start year and rate. */
  function Cell(dm: DataManager, cfg: ModelConfig, scenario: string, i: nat, y: int, t: nat): Result<real, Error>
    requires dm.Valid() && i < |dm.facilities| && cfg.startYear <= y && t < NumTechs
  {
    CostCoefficient(dm, dm.facilities[i].capacity, cfg.discountRate, cfg.startYear, y, t, scenario)
  }

  /** Every lookup of BF_BOF's own coefficient has zero abatement: only the net carbon cost remains. */
  lemma BaselineCoefficient(dm: DataManager, cfg: ModelConfig, scenario: string, i: nat, y: int)
    requires dm.Valid() && i < |dm.facilities| && cfg.startYear <= y
    requires Cell(dm, cfg, scenario, i, y, 0).Success?
    ensures Cell(dm, cfg, scenario, i, y, 0).value ==
      dm.facilities[i].capacity * dm.EmissionIntensity(y, Technologies[0]).value *
      dm.CarbonPrice(y, scenario).value * (1.0 - dm.AllowRate(y).value) *
      Discount(cfg.discountRate, cfg.startYear, y).value
  {
    var emi := dm.EmissionIntensity(y, Technologies[0]).value;
    NoAbatementAtBaseline(dm.facilities[i].capacity, emi, dm.CarbonPrice(y, scenario).value,
      dm.AllowRate(y).value, dm.Mac(y, Technologies[0]).value, 0.0,
      Discount(cfg.discountRate, cfg.startYear, y).value);
  }

  // ---------------------------------------------------------------------
  // The objective as a sequence of terms, in loop order (i, y, t)
  // ---------------------------------------------------------------------

  /** A coefficient for every (i, y, t); the objective only applies it. */
  type CostTable = (nat, int, nat) -> Result<real, Error>

  /**
   * The coefficients of one scenario. Indices outside the declared space
   * are never asked for; they read as the KeyError of x.
   */
  function CostOf(dm: DataManager, cfg: ModelConfig, scenario: string): CostTable {
    (i: nat, y: int, t: nat) =>
      if dm.Valid() && i < |dm.facilities| && cfg.startYear <= y && t < NumTechs then Cell(dm, cfg, scenario, i, y, t)
      else Failure(MissingVariable(VarKey(i, t, y)))
  }

  /** The terms of x[i, 0, y] .. x[i, t - 1, y]. */
  function TechTerms(cost: CostTable, i: nat, y: int, t: nat): Result<seq<Term>, Error> {
    if t == 0 then Success([])
    else
      var prev :- TechTerms(cost, i, y, t - 1);
      var c :- cost(i, y, t - 1);
      Success(prev + [Term(c, VarKey(i, t - 1, y))])
  }

  /** The terms of facility i for the years in [start, y). */
  function YearTerms(cost: CostTable, i: nat, start: int, y: int): Result<seq<Term>, Error>
    decreases y - start
  {
    if y <= start then Success([])
    else
      var prev :- YearTerms(cost, i, start, y - 1);
      var cells :- TechTerms(cost, i, y - 1, NumTechs);
      Success(prev + cells)
  }

  /** The terms of the facilities i < n. */
  function FacilityTerms(cost: CostTable, n: nat, start: int, end: int): Result<seq<Term>, Error> {
    if n == 0 then Success([])
    else
      var prev :- FacilityTerms(cost, n - 1, start, end);
      var years :- YearTerms(cost, n - 1, start, end + 1);
      Success(prev + years)
  }

  /** cost_expr for one scenario, or the first error its construction raises. */
  function ObjectiveSpec(dm: DataManager, cfg: ModelConfig, scenario: string): Result<seq<Term>, Error> {
    FacilityTerms(CostOf(dm, cfg, scenario), |dm.facilities|, cfg.startYear, cfg.endYear)
  }

  /** The last term of TechTerms(t + 1) is the term of x[i, t, y]. */
  lemma TechStep(cost: CostTable, i: nat, y: int, t: nat) returns (term: Term)
    requires TechTerms(cost, i, y, t + 1).Success?
    ensures TechTerms(cost, i, y, t).Success? && cost(i, y, t) == Success(term.coef)
    ensures term.key == VarKey(i, t, y)
    ensures TechTerms(cost, i, y, t + 1).value == TechTerms(cost, i, y, t).value + [term]
  {
    term := Term(cost(i, y, t).value, VarKey(i, t, y));
  }

  lemma YearStep(cost: CostTable, i: nat, start: int, y: int)
    requires start <= y && YearTerms(cost, i, start, y).Success?
    ensures YearTerms(cost, i, start, y + 1) ==
      match TechTerms(cost, i, y, NumTechs)
      case Failure(err) => Failure(err)
      case Success(cells) => Success(YearTerms(cost, i, start, y).value + cells)
  {
  }

  lemma FacilityStep(cost: CostTable, n: nat, start: int, end: int)
    requires FacilityTerms(cost, n, start, end).Success?
    ensures FacilityTerms(cost, n + 1, start, end) ==
      match YearTerms(cost, n, start, end + 1)
      case Failure(err) => Failure(err)
      case Success(years) => Success(FacilityTerms(cost, n, start, end).value + years)
  {
  }

  lemma {:induction false} TechTermsFailureStays(cost: CostTable, i: nat, y: int, t: nat, err: Error)
    requires t <= NumTechs && TechTerms(cost, i, y, t) == Failure(err)
    ensures TechTerms(cost, i, y, NumTechs) == Failure(err)
    decreases NumTechs - t
  {
    if t < NumTechs {
      TechTermsFailureStays(cost, i, y, t + 1, err);
    }
  }

  lemma {:induction false} YearTermsFailureStays(cost: CostTable, i: nat, start: int, y: int, y': int, err: Error)
    requires y <= y' && YearTerms(cost, i, start, y) == Failure(err)
    ensures YearTerms(cost, i, start, y') == Failure(err)
    decreases y' - y
  {
    if y < y' {
      YearTermsFailureStays(cost, i, start, y + 1, y', err);
    }
  }

  lemma {:induction false} FacilityTermsFailureStays(cost: CostTable, m: nat, n: nat, start: int, end: int, err: Error)
    requires m <= n && FacilityTerms(cost, m, start, end) == Failure(err)
    ensures FacilityTerms(cost, n, start, end) == Failure(err)
    decreases n - m
  {
    if m < n {
      FacilityTermsFailureStays(cost, m + 1, n, start, end, err);
    }
  }

  /** An error raised in the cells of (i, y) is the error of all the years of facility i. */
  lemma YearFailurePropagates(cost: CostTable, i: nat, start: int, end: int, y: int, err: Error)
    requires start <= y <= end
    requires YearTerms(cost, i, start, y).Success? && TechTerms(cost, i, y, NumTechs) == Failure(err)
    ensures YearTerms(cost, i, start, end + 1) == Failure(err)
  {
    YearStep(cost, i, start, y);
    YearTermsFailureStays(cost, i, start, y + 1, end + 1, err);
  }

  /** When the discount factor of year y cannot be computed, no cell of that year can. */
  lemma DiscountFailureCells(dm: DataManager, cfg: ModelConfig, scenario: string, i: nat, y: int)
    requires dm.Valid() && i < |dm.facilities| && cfg.startYear <= y
    requires Discount(cfg.discountRate, cfg.startYear, y).Failure?
    ensures TechTerms(CostOf(dm, cfg, scenario), i, y, NumTechs) == Failure(Discount(cfg.discountRate, cfg.startYear, y).error)
  {
    var cost := CostOf(dm, cfg, scenario);
    var err := Discount(cfg.discountRate, cfg.startYear, y).error;
    assert cost(i, y, 0) == Failure(err);
    assert TechTerms(cost, i, y, 1) == Failure(err);
    TechTermsFailureStays(cost, i, y, 1, err);
  }

  // ---------------------------------------------------------------------
  // The loops that fill cost_expr
  // ---------------------------------------------------------------------

  /**
   * The loops that fill cost_expr, facility by facility. Every variable is
   * looked up in x, and those lookups are proved to succeed.
   */
  method BuildObjective(dm: DataManager, cfg: ModelConfig, x: seq<VarKey>, scenario: string)
    returns (r: Result<seq<Term>, Error>)
    requires dm.Valid()
    requires x == VariableKeys(|dm.facilities|, cfg.startYear, cfg.endYear)
    ensures r == ObjectiveSpec(dm, cfg, scenario)
  {
    ghost var cost := CostOf(dm, cfg, scenario);
    var costExpr: seq<Term> := [];
    var i: nat := 0;
    while i < |dm.facilities|
      invariant i <= |dm.facilities|
      invariant FacilityTerms(cost, i, cfg.startYear, cfg.endYear) == Success(costExpr)
    {
      var years := AddFacilityTerms(dm, cfg, x, scenario, i);
      FacilityStep(cost, i, cfg.startYear, cfg.endYear);
      match years {
        case Failure(err) =>
          FacilityTermsFailureStays(cost, i + 1, |dm.facilities|, cfg.startYear, cfg.endYear, err);
          return Failure(err);
        case Success(ys) =>
          costExpr := costExpr + ys;
      }
      i := i + 1;
    }
    return Success(costExpr);
  }

  /**
   * The terms of facility i, year by year. The discount factor is computed
   * once per year, before the technology loop.
   */
  method AddFacilityTerms(dm: DataManager, cfg: ModelConfig, x: seq<VarKey>, scenario: string, i: nat)
    returns (r: Result<seq<Term>, Error>)
    requires dm.Valid() && i < |dm.facilities|
    requires x == VariableKeys(|dm.facilities|, cfg.startYear, cfg.endYear)
    ensures r == YearTerms(CostOf(dm, cfg, scenario), i, cfg.startYear, cfg.endYear + 1)
  {
    ghost var cost := CostOf(dm, cfg, scenario);
    var terms: seq<Term> := [];
    var y := cfg.startYear;
    while y <= cfg.endYear
      invariant cfg.startYear <= y && (y <= cfg.endYear + 1 || y == cfg.startYear)
      invariant YearTerms(cost, i, cfg.startYear, y) == Success(terms)
    {
      var discount := Discount(cfg.discountRate, cfg.startYear, y);
      if discount.Failure? {
        DiscountFailureCells(dm, cfg, scenario, i, y);
        YearFailurePropagates(cost, i, cfg.startYear, cfg.endYear, y, DivisionByZero);
        return Failure(DivisionByZero);
      }
      var cells := AddYearTerms(dm, cfg, x, scenario, i, y, discount.value);
      match cells {
        case Failure(err) =>
          YearFailurePropagates(cost, i, cfg.startYear, cfg.endYear, y, err);
          return Failure(err);
        case Success(cs) =>
          YearStep(cost, i, cfg.startYear, y);
          terms := terms + cs;
      }
      y := y + 1;
    }
    return Success(terms);
  }

  /**
   * The terms of one (facility, year): the technology loop, with the
   * year's discount factor already computed.
   */
  method AddYearTerms(dm: DataManager, cfg: ModelConfig, x: seq<VarKey>, scenario: string, i: nat, y: int, discount: real)
    returns (r: Result<seq<Term>, Error>)
    requires dm.Valid() && i < |dm.facilities| && cfg.startYear <= y <= cfg.endYear
    requires x == VariableKeys(|dm.facilities|, cfg.startYear, cfg.endYear)
    requires Discount(cfg.discountRate, cfg.startYear, y) == Success(discount)
    ensures r == TechTerms(CostOf(dm, cfg, scenario), i, y, NumTechs)
  {
    ghost var cost := CostOf(dm, cfg, scenario);
    VariableKeysSpace(|dm.facilities|, cfg.startYear, cfg.endYear);
    var cap := dm.facilities[i].capacity;
    var terms: seq<Term> := [];
    var t: nat := 0;
    while t < NumTechs
      invariant t <= NumTechs
      invariant TechTerms(cost, i, y, t) == Success(terms)
    {
      var c := DiscountedCost(dm, cap, y, t, scenario, discount);
      assert cost(i, y, t) == c;
      match c {
        case Failure(err) =>
          TechTermsFailureStays(cost, i, y, t + 1, err);
          return Failure(err);
        case Success(coef) =>
          assert VarKey(i, t, y) in x by {
            assert InSpace(VarKey(i, t, y), |dm.facilities|, cfg.startYear, cfg.endYear);
          }
          terms := terms + [Term(coef, VarKey(i, t, y))];
      }
      t := t + 1;
    }
    return Success(terms);
  }

  // ---------------------------------------------------------------------
  // What the objective is made of
  // ---------------------------------------------------------------------

  /** The variables of a list of terms, in order. */
  function Keys(terms: seq<Term>): (ks: seq<VarKey>)
    ensures |ks| == |terms| && forall k :: 0 <= k < |terms| ==> ks[k] == terms[k].key
  {
    seq(|terms|, k requires 0 <= k < |terms| => terms[k].key)
  }

  lemma KeysConcat(a: seq<Term>, b: seq<Term>)
    ensures Keys(a + b) == Keys(a) + Keys(b)
  {
  }

  /** x[i, 0, y] .. x[i, t - 1, y]: the variables of the technology loop, in order. */
  function CellKeys(i: int, y: int, t: nat): seq<VarKey> {
    if t == 0 then [] else CellKeys(i, y, t - 1) + [VarKey(i, t - 1, y)]
  }

  /** The variables of facility i for the years in [start, y), in loop order. */
  function YearCellKeys(i: int, start: int, y: int): seq<VarKey>
    decreases y - start
  {
    if y <= start then [] else YearCellKeys(i, start, y - 1) + CellKeys(i, y - 1, NumTechs)
  }

  /** The variables of the objective for the facilities i < n, in loop order (i, y, t). */
  function ObjectiveKeys(n: nat, start: int, end: int): seq<VarKey> {
    if n == 0 then [] else ObjectiveKeys(n - 1, start, end) + YearCellKeys(n - 1, start, end + 1)
  }

  lemma {:induction false} CellKeysCount(i: int, y: int, t: nat, k: VarKey)
    ensures Count(CellKeys(i, y, t), k) == if k.facility == i && k.year == y && 0 <= k.tech < t then 1 else 0
  {
    if t > 0 {
      CellKeysCount(i, y, t - 1, k);
      CountConcat(CellKeys(i, y, t - 1), [VarKey(i, t - 1, y)], k);
      CountSingle(VarKey(i, t - 1, y), k);
    }
  }

  lemma {:induction false} YearCellKeysCount(i: int, start: int, y: int, k: VarKey)
    ensures Count(YearCellKeys(i, start, y), k) ==
      if k.facility == i && 0 <= k.tech < NumTechs && start <= k.year < y then 1 else 0
    decreases y - start
  {
    if y > start {
      YearCellKeysCount(i, start, y - 1, k);
      CellKeysCount(i, y - 1, NumTechs, k);
      CountConcat(YearCellKeys(i, start, y - 1), CellKeys(i, y - 1, NumTechs), k);
    }
  }

  /** In loop order (i, y, t), every declared variable occurs exactly once, and no other does. */
  lemma {:induction false} ObjectiveKeysCount(n: nat, start: int, end: int, k: VarKey)
    ensures InSpace(k, n, start, end) ==> Count(ObjectiveKeys(n, start, end), k) == 1
    ensures !InSpace(k, n, start, end) ==> Count(ObjectiveKeys(n, start, end), k) == 0
  {
    if n > 0 {
      var before, block := ObjectiveKeys(n - 1, start, end), YearCellKeys(n - 1, start, end + 1);
      ObjectiveKeysCount(n - 1, start, end, k);
      YearCellKeysCount(n - 1, start, end + 1, k);
      CountConcat(before, block, k);
      assert Count(ObjectiveKeys(n, start, end), k) == Count(before, k) + Count(block, k);
    }
  }

  lemma {:induction false} TechTermsKeys(cost: CostTable, i: nat, y: int, t: nat)
    requires TechTerms(cost, i, y, t).Success?
    ensures Keys(TechTerms(cost, i, y, t).value) == CellKeys(i, y, t)
  {
    if t > 0 {
      var term := TechStep(cost, i, y, t - 1);
      TechTermsKeys(cost, i, y, t - 1);
      KeysConcat(TechTerms(cost, i, y, t - 1).value, [term]);
      assert Keys([term]) == [term.key];
    } else {
      assert Keys([]) == [];
    }
  }

  lemma {:induction false} YearTermsKeys(cost: CostTable, i: nat, start: int, y: int)
    requires YearTerms(cost, i, start, y).Success?
    ensures Keys(YearTerms(cost, i, start, y).value) == YearCellKeys(i, start, y)
    decreases y - start
  {
    if y > start {
      YearTermsKeys(cost, i, start, y - 1);
      YearStep(cost, i, start, y - 1);
      TechTermsKeys(cost, i, y - 1, NumTechs);
      KeysConcat(YearTerms(cost, i, start, y - 1).value, TechTerms(cost, i, y - 1, NumTechs).value);
    } else {
      assert Keys([]) == [];
    }
  }

  lemma {:induction false} FacilityTermsKeys(cost: CostTable, n: nat, start: int, end: int)
    requires FacilityTerms(cost, n, start, end).Success?
    ensures Keys(FacilityTerms(cost, n, start, end).value) == ObjectiveKeys(n, start, end)
  {
    if n > 0 {
      FacilityTermsKeys(cost, n - 1, start, end);
      FacilityStep(cost, n - 1, start, end);
      YearTermsKeys(cost, n - 1, start, end + 1);
      KeysConcat(FacilityTerms(cost, n - 1, start, end).value, YearTerms(cost, n - 1, start, end + 1).value);
    } else {
      assert Keys([]) == [];
    }
  }

  /** The coefficient of a term is the table's value at the term's variable. */
  predicate FromTable(cost: CostTable, term: Term) {
    0 <= term.key.facility && 0 <= term.key.tech &&
    cost(term.key.facility, term.key.year, term.key.tech) == Success(term.coef)
  }

  lemma {:induction false} TechTermsFromTable(cost: CostTable, i: nat, y: int, t: nat)
    requires TechTerms(cost, i, y, t).Success?
    ensures forall term :: term in TechTerms(cost, i, y, t).value ==> FromTable(cost, term)
  {
    if t > 0 {
      var term := TechStep(cost, i, y, t - 1);
      TechTermsFromTable(cost, i, y, t - 1);
    }
  }

  lemma {:induction false} YearTermsFromTable(cost: CostTable, i: nat, start: int, y: int)
    requires YearTerms(cost, i, start, y).Success?
    ensures forall term :: term in YearTerms(cost, i, start, y).value ==> FromTable(cost, term)
    decreases y - start
  {
    if y > start {
      YearTermsFromTable(cost, i, start, y - 1);
      YearStep(cost, i, start, y - 1);
      TechTermsFromTable(cost, i, y - 1, NumTechs);
    }
  }

  lemma {:induction false} FacilityTermsFromTable(cost: CostTable, n: nat, start: int, end: int)
    requires FacilityTerms(cost, n, start, end).Success?
    ensures forall term :: term in FacilityTerms(cost, n, start, end).value ==> FromTable(cost, term)
  {
    if n > 0 {
      FacilityTermsFromTable(cost, n - 1, start, end);
      FacilityStep(cost, n - 1, start, end);
      YearTermsFromTable(cost, n - 1, start, end + 1);
    }
  }

  /** A term whose variable is declared and whose coefficient is that variable's cost coefficient. */
  predicate Priced(dm: DataManager, cfg: ModelConfig, scenario: string, term: Term)
    requires dm.Valid()
  {
    InSpace(term.key, |dm.facilities|, cfg.startYear, cfg.endYear) &&
    Cell(dm, cfg, scenario, term.key.facility, term.key.year, term.key.tech) == Success(term.coef)
  }

  /**
   * A built objective holds one term per declared variable x[i, t, y] and
   * no other, and the coefficient of each term is the cost coefficient of
   * its variable.
   */
  lemma ObjectiveShape(dm: DataManager, cfg: ModelConfig, scenario: string)
    requires dm.Valid()
    requires ObjectiveSpec(dm, cfg, scenario).Success?
    ensures forall term :: term in ObjectiveSpec(dm, cfg, scenario).value ==> Priced(dm, cfg, scenario, term)
    ensures forall k ::
      Count(Keys(ObjectiveSpec(dm, cfg, scenario).value), k) ==
      (if InSpace(k, |dm.facilities|, cfg.startYear, cfg.endYear) then 1 else 0)
  {
    var cost := CostOf(dm, cfg, scenario);
    var obj := ObjectiveSpec(dm, cfg, scenario).value;
    FacilityTermsKeys(cost, |dm.facilities|, cfg.startYear, cfg.endYear);
    FacilityTermsFromTable(cost, |dm.facilities|, cfg.startYear, cfg.endYear);
    forall k
      ensures Count(Keys(obj), k) == (if InSpace(k, |dm.facilities|, cfg.startYear, cfg.endYear) then 1 else 0)
    {
      ObjectiveKeysCount(|dm.facilities|, cfg.startYear, cfg.endYear, k);
    }
    forall term | term in obj
      ensures Priced(dm, cfg, scenario, term)
    {
      CountPositive(Keys(obj), term.key);
      assert term.key in Keys(obj);
      ObjectiveKeysCount(|dm.facilities|, cfg.startYear, cfg.endYear, term.key);
      assert FromTable(cost, term);
    }
  }

  // ---------------------------------------------------------------------
  // When the objective can be built
  // ---------------------------------------------------------------------

  lemma {:induction false} TechTermsSucceedIff(cost: CostTable, i: nat, y: int, t: nat)
    ensures TechTerms(cost, i, y, t).Success? <==> forall t': nat :: t' < t ==> cost(i, y, t').Success?
  {
    if t > 0 {
      TechTermsSucceedIff(cost, i, y, t - 1);
    }
  }

  lemma {:induction false} YearTermsSucceedIff(cost: CostTable, i: nat, start: int, y: int)
    ensures YearTerms(cost, i, start, y).Success? <==>
      forall y', t': nat :: start <= y' < y && t' < NumTechs ==> cost(i, y', t').Success?
    decreases y - start
  {
    if y > start {
      YearTermsSucceedIff(cost, i, start, y - 1);
      TechTermsSucceedIff(cost, i, y - 1, NumTechs);
      if YearTerms(cost, i, start, y - 1).Success? {
        YearStep(cost, i, start, y - 1);
      }
    }
  }

  lemma {:induction false} FacilityTermsSucceedIff(cost: CostTable, n: nat, start: int, end: int)
    ensures FacilityTerms(cost, n, start, end).Success? <==>
      forall i: nat, y, t: nat :: i < n && start <= y <= end && t < NumTechs ==> cost(i, y, t).Success?
  {
    if n > 0 {
      FacilityTermsSucceedIff(cost, n - 1, start, end);
      YearTermsSucceedIff(cost, n - 1, start, end + 1);
      if FacilityTerms(cost, n - 1, start, end).Success? {
        FacilityStep(cost, n - 1, start, end);
      }
    }
  }

  /** Values for every declared variable give the built objective a value. */
  lemma ObjectiveValueDefined(dm: DataManager, cfg: ModelConfig, scenario: string, values: Assignment)
    requires dm.Valid() && ObjectiveSpec(dm, cfg, scenario).Success?
    requires HasValues(values, VariableKeys(|dm.facilities|, cfg.startYear, cfg.endYear))
    ensures ObjectiveValue(values, ObjectiveSpec(dm, cfg, scenario).value).Some?
  {
    var obj := ObjectiveSpec(dm, cfg, scenario).value;
    VariableKeysSpace(|dm.facilities|, cfg.startYear, cfg.endYear);
    ObjectiveShape(dm, cfg, scenario);
    forall k | 0 <= k < |obj|
      ensures obj[k].key in values
    {
      assert Priced(dm, cfg, scenario, obj[k]);
    }
    ObjectiveValueSomeIff(values, obj);
  }

  /**
   * The objective of a scenario can be built exactly when the cost
   * coefficient of every declared variable can be computed: every lookup
   * it makes finds its row and column, and the discount factor does not
   * divide by zero.
   */
  lemma ObjectiveSucceedsIff(dm: DataManager, cfg: ModelConfig, scenario: string)
    requires dm.Valid()
    ensures ObjectiveSpec(dm, cfg, scenario).Success? <==>
      forall i: nat, y, t: nat :: i < |dm.facilities| && cfg.startYear <= y <= cfg.endYear && t < NumTechs ==>
        Cell(dm, cfg, scenario, i, y, t).Success?
  {
    var cost := CostOf(dm, cfg, scenario);
    FacilityTermsSucceedIff(cost, |dm.facilities|, cfg.startYear, cfg.endYear);
    assert forall i: nat, y, t: nat :: i < |dm.facilities| && cfg.startYear <= y <= cfg.endYear && t < NumTechs ==>
      cost(i, y, t) == Cell(dm, cfg, scenario, i, y, t);
  }

  // ---------------------------------------------------------------------
  // The scenario enters only through its carbon price column
  // ---------------------------------------------------------------------

  lemma {:induction false} TechTermsSameTable(cost: CostTable, cost': CostTable, i: nat, y: int, t: nat)
    requires forall t': nat :: t' < t ==> cost(i, y, t') == cost'(i, y, t')
    ensures TechTerms(cost, i, y, t) == TechTerms(cost', i, y, t)
  {
    if t > 0 {
      TechTermsSameTable(cost, cost', i, y, t - 1);
    }
  }

  lemma {:induction false} YearTermsSameTable(cost: CostTable, cost': CostTable, i: nat, start: int, y: int)
    requires forall y', t': nat :: t' < NumTechs ==> cost(i, y', t') == cost'(i, y', t')
    ensures YearTerms(cost, i, start, y) == YearTerms(cost', i, start, y)
    decreases y - start
  {
    if y > start {
      YearTermsSameTable(cost, cost', i, start, y - 1);
      TechTermsSameTable(cost, cost', i, y - 1, NumTechs);
    }
  }

  lemma {:induction false} FacilityTermsSameTable(cost: CostTable, cost': CostTable, n: nat, start: int, end: int)
    requires forall i: nat, y, t: nat :: t < NumTechs ==> cost(i, y, t) == cost'(i, y, t)
    ensures FacilityTerms(cost, n, start, end) == FacilityTerms(cost', n, start, end)
  {
    if n > 0 {
      FacilityTermsSameTable(cost, cost', n - 1, start, end);
      YearTermsSameTable(cost, cost', n - 1, start, end + 1);
    }
  }

  /** Two scenarios whose carbon price lookups agree in every year get the same objective. */
  lemma ObjectiveSamePrices(dm: DataManager, cfg: ModelConfig, s: string, s': string)
    requires dm.Valid()
    requires forall y :: dm.CarbonPrice(y, s) == dm.CarbonPrice(y, s')
    ensures ObjectiveSpec(dm, cfg, s) == ObjectiveSpec(dm, cfg, s')
  {
    var cost, cost' := CostOf(dm, cfg, s), CostOf(dm, cfg, s');
    forall i: nat, y, t: nat | t < NumTechs
      ensures cost(i, y, t) == cost'(i, y, t)
    {
      if i < |dm.facilities| && cfg.startYear <= y {
        assert dm.CarbonPrice(y, s) == dm.CarbonPrice(y, s');
      }
    }
    FacilityTermsSameTable(cost, cost', |dm.facilities|, cfg.startYear, cfg.endYear);
  }

  // ---------------------------------------------------------------------
  // A higher carbon price never makes a plan cheaper
  // ---------------------------------------------------------------------

  /** The same variables in the same order, each coefficient of `lo` at most that of `hi`. */
  predicate Dominated(lo: seq<Term>, hi: seq<Term>) {
    |lo| == |hi| && forall k :: 0 <= k < |lo| ==> lo[k].key == hi[k].key && lo[k].coef <= hi[k].coef
  }

  /** Every variable of the terms has a value, and no value is negative. */
  predicate NonNegativeOn(values: Assignment, terms: seq<Term>) {
    forall k :: 0 <= k < |terms| ==> terms[k].key in values && values[terms[k].key] >= 0.0
  }

  /** Under non-negative values, a dominated objective never has the larger value. */
  lemma {:induction false} ObjectiveValueMonotone(values: Assignment, lo: seq<Term>, hi: seq<Term>)
    requires Dominated(lo, hi) && NonNegativeOn(values, lo)
    ensures ObjectiveValue(values, lo).Some? && ObjectiveValue(values, hi).Some?
    ensures ObjectiveValue(values, lo).value <= ObjectiveValue(values, hi).value
  {
    if lo != [] {
      var n := |lo| - 1;
      assert Dominated(lo[..n], hi[..n]);
      assert NonNegativeOn(values, lo[..n]);
      ObjectiveValueMonotone(values, lo[..n], hi[..n]);
      var v := values[lo[n].key];
      assert hi[n].key == lo[n].key;
      assert (hi[n].coef - lo[n].coef) * v >= 0.0;
    }
  }

  lemma DominatedConcat(a: seq<Term>, b: seq<Term>, a': seq<Term>, b': seq<Term>)
    requires Dominated(a, a') && Dominated(b, b')
    ensures Dominated(a + b, a' + b')
  {
    assert forall k :: |a| <= k < |a + b| ==> (a + b)[k] == b[k - |a|] && (a' + b')[k] == b'[k - |a|];
  }

  /** Wherever both tables give a coefficient, the one of `lo` is at most the one of `hi`. */
  ghost predicate CheaperTable(lo: CostTable, hi: CostTable) {
    forall i: nat, y: int, t: nat :: lo(i, y, t).Success? && hi(i, y, t).Success? ==> lo(i, y, t).value <= hi(i, y, t).value
  }

  lemma {:induction false} TechTermsDominated(lo: CostTable, hi: CostTable, i: nat, y: int, t: nat)
    requires CheaperTable(lo, hi)
    requires TechTerms(lo, i, y, t).Success? && TechTerms(hi, i, y, t).Success?
    ensures Dominated(TechTerms(lo, i, y, t).value, TechTerms(hi, i, y, t).value)
  {
    if t > 0 {
      var term := TechStep(lo, i, y, t - 1);
      var term' := TechStep(hi, i, y, t - 1);
      TechTermsDominated(lo, hi, i, y, t - 1);
      assert Dominated([term], [term']);
      DominatedConcat(TechTerms(lo, i, y, t - 1).value, [term], TechTerms(hi, i, y, t - 1).value, [term']);
    }
  }

  lemma {:induction false} YearTermsDominated(lo: CostTable, hi: CostTable, i: nat, start: int, y: int)
    requires CheaperTable(lo, hi)
    requires YearTerms(lo, i, start, y).Success? && YearTerms(hi, i, start, y).Success?
    ensures Dominated(YearTerms(lo, i, start, y).value, YearTerms(hi, i, start, y).value)
    decreases y - start
  {
    if y > start {
      YearTermsDominated(lo, hi, i, start, y - 1);
      TechTermsDominated(lo, hi, i, y - 1, NumTechs);
      DominatedConcat(YearTerms(lo, i, start, y - 1).value, TechTerms(lo, i, y - 1, NumTechs).value,
        YearTerms(hi, i, start, y - 1).value, TechTerms(hi, i, y - 1, NumTechs).value);
    }
  }

  lemma {:induction false} FacilityTermsDominated(lo: CostTable, hi: CostTable, n: nat, start: int, end: int)
    requires CheaperTable(lo, hi)
    requires FacilityTerms(lo, n, start, end).Success? && FacilityTerms(hi, n, start, end).Success?
    ensures Dominated(FacilityTerms(lo, n, start, end).value, FacilityTerms(hi, n, start, end).value)
  {
    if n > 0 {
      FacilityTermsDominated(lo, hi, n - 1, start, end);
      YearTermsDominated(lo, hi, n - 1, start, end + 1);
      DominatedConcat(FacilityTerms(lo, n - 1, start, end).value, YearTerms(lo, n - 1, start, end + 1).value,
        FacilityTerms(hi, n - 1, start, end).value, YearTerms(hi, n - 1, start, end + 1).value);
    }
  }

  /** Data sets that may differ only in their carbon price sheet. */
  predicate SameButPrices(dm: DataManager, dm': DataManager) {
    dm'.facilities == dm.facilities && dm'.techMac == dm.techMac &&
    dm'.techEmission == dm.techEmission && dm'.allowanceRate == dm.allowanceRate
  }

  /**
   * The physical ranges the objective's sign argument needs: capacities and
   * emission intensities are not negative, the free allowance share is at
   * most 1, and the discount rate is above -100%.
   */
  ghost predicate PhysicalRanges(dm: DataManager, cfg: ModelConfig)
    requires dm.Valid()
  {
    (forall i :: 0 <= i < |dm.facilities| ==> dm.facilities[i].capacity >= 0.0) &&
    (forall y, tech :: dm.EmissionIntensity(y, tech).Success? ==> dm.EmissionIntensity(y, tech).value >= 0.0) &&
    (forall y :: dm.AllowRate(y).Success? ==> dm.AllowRate(y).value <= 1.0) &&
    cfg.discountRate > -1.0
  }

  /** In every year, the price of scenario s in dm is at most the price of s' in dm'. */
  ghost predicate PricesAtMost(dm: DataManager, s: string, dm': DataManager, s': string)
    requires dm.Valid() && dm'.Valid()
  {
    forall y :: dm.CarbonPrice(y, s).Success? && dm'.CarbonPrice(y, s').Success? ==>
      dm.CarbonPrice(y, s).value <= dm'.CarbonPrice(y, s').value
  }

  /** One coefficient under the lower and under the higher prices. */
  lemma CellMonotoneInPrice(dm: DataManager, dm': DataManager, cfg: ModelConfig, s: string, s': string, i: nat, y: int, t: nat)
    requires dm.Valid() && dm'.Valid() && SameButPrices(dm, dm')
    requires PhysicalRanges(dm, cfg) && PricesAtMost(dm, s, dm', s')
    requires i < |dm.facilities| && cfg.startYear <= y && t < NumTechs
    requires Cell(dm, cfg, s, i, y, t).Success? && Cell(dm', cfg, s', i, y, t).Success?
    ensures Cell(dm, cfg, s, i, y, t).value <= Cell(dm', cfg, s', i, y, t).value
  {
    DiscountStep(cfg.discountRate, cfg.startYear, y);
    var disc := Discount(cfg.discountRate, cfg.startYear, y).value;
    var emi := dm.EmissionIntensity(y, Technologies[t]).value;
    assert emi >= 0.0;
    assert dm.AllowRate(y).value <= 1.0;
    CoefficientMonotoneInPrice(dm.facilities[i].capacity, emi,
      dm.CarbonPrice(y, s).value, dm'.CarbonPrice(y, s').value, dm.AllowRate(y).value,
      dm.EmissionIntensity(y, Technologies[0]).value, dm.Mac(y, Technologies[t]).value, disc);
  }

  /**
   * Any plan, priced under carbon prices that are at least as high in
   * every year, costs at least as much: the objective value of binary
   * values never decreases when the carbon price sheet, or the scenario
   * column read from it, is replaced by one with higher prices.
   */
  lemma ObjectiveMonotoneInPrice(dm: DataManager, dm': DataManager, cfg: ModelConfig, s: string, s': string, values: Assignment)
    requires dm.Valid() && dm'.Valid() && SameButPrices(dm, dm')
    requires PhysicalRanges(dm, cfg) && PricesAtMost(dm, s, dm', s')
    requires ObjectiveSpec(dm, cfg, s).Success? && ObjectiveSpec(dm', cfg, s').Success?
    requires Binary(values, VariableKeys(|dm.facilities|, cfg.startYear, cfg.endYear))
    ensures ObjectiveValue(values, ObjectiveSpec(dm, cfg, s).value).Some?
    ensures ObjectiveValue(values, ObjectiveSpec(dm', cfg, s').value).Some?
    ensures ObjectiveValue(values, ObjectiveSpec(dm, cfg, s).value).value <=
      ObjectiveValue(values, ObjectiveSpec(dm', cfg, s').value).value
  {
    var lo, hi := CostOf(dm, cfg, s), CostOf(dm', cfg, s');
    forall i: nat, y: int, t: nat | lo(i, y, t).Success? && hi(i, y, t).Success?
      ensures lo(i, y, t).value <= hi(i, y, t).value
    {
      CellMonotoneInPrice(dm, dm', cfg, s, s', i, y, t);
    }
    var obj := ObjectiveSpec(dm, cfg, s).value;
    FacilityTermsDominated(lo, hi, |dm.facilities|, cfg.startYear, cfg.endYear);
    VariableKeysSpace(|dm.facilities|, cfg.startYear, cfg.endYear);
    ObjectiveShape(dm, cfg, s);
    forall k | 0 <= k < |obj|
      ensures obj[k].key in values && values[obj[k].key] >= 0.0
    {
      assert Priced(dm, cfg, s, obj[k]);
    }
    ObjectiveValueMonotone(values, obj, ObjectiveSpec(dm', cfg, s').value);
  }
}
