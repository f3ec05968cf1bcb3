/**
 * Model building: the index space of the binary variables x[i, t, y], the
 * "exactly one technology" constraint per (facility, year), and the forced
 * switch to H2_HDRI_EAF from a facility's end year on. The constraint
 * families are given as functions in the order the optimizer adds them, and
 * the loops that add them to the problem are proved against those functions.
 */
module Model {
  import opened Wrappers
  import opened Errors
  import opened Lp
  import opened Data
  import opened Counting

  /** Optimizer.__init__'s technology list; the position of a name is its index t. */
  const Technologies: seq<string> := ["BF_BOF", "BF_BOF_scrap", "BF_BOF_CCUS", "H2_HDRI_EAF"]
  const NumTechs: nat := 4
  /** h2_idx, the index that the forced switch fixes to 1. */
  const H2Index: nat := 3

  /** ModelConfig; its results directory only matters to the reporting layer and is left out. */
  datatype ModelConfig = ModelConfig(startYear: int, endYear: int, discountRate: real, scenarios: seq<string>)

  /** The number of years in range(start, end + 1). */
  function Horizon(start: int, end: int): nat {
    if start <= end then end - start + 1 else 0
  }

  /** 0 <= i < n, 0 <= t < 4 and start <= y <= end. */
  predicate InSpace(k: VarKey, n: int, start: int, end: int) {
    0 <= k.facility < n && 0 <= k.tech < NumTechs && start <= k.year <= end
  }

  // ---------------------------------------------------------------------
  // The variable index space
  // ---------------------------------------------------------------------

  /** x[i, t, y] for the years in [start, y). */
  function YearKeys(i: int, t: int, start: int, y: int): seq<VarKey>
    decreases y - start
  {
    if y <= start then [] else YearKeys(i, t, start, y - 1) + [VarKey(i, t, y - 1)]
  }

  /** x[i, t, y] for the technologies t < n and the years of the horizon. */
  function TechKeys(i: int, n: nat, start: int, end: int): seq<VarKey> {
    if n == 0 then [] else TechKeys(i, n - 1, start, end) + YearKeys(i, n - 1, start, end + 1)
  }

  /** The keys of LpVariable.dicts("tech_choice", ...) for facilities i < n, in generation order. */
  function VariableKeys(n: nat, start: int, end: int): seq<VarKey> {
    if n == 0 then [] else VariableKeys(n - 1, start, end) + TechKeys(n - 1, NumTechs, start, end)
  }

  lemma {:induction false} YearKeysLength(i: int, t: int, start: int, y: int)
    ensures |YearKeys(i, t, start, y)| == if start <= y then y - start else 0
    decreases y - start
  {
    if y > start {
      YearKeysLength(i, t, start, y - 1);
    }
  }

  lemma {:induction false} YearKeysCount(i: int, t: int, start: int, y: int, k: VarKey)
    ensures Count(YearKeys(i, t, start, y), k) ==
      if k.facility == i && k.tech == t && start <= k.year < y then 1 else 0
    decreases y - start
  {
    if y > start {
      YearKeysCount(i, t, start, y - 1, k);
      CountConcat(YearKeys(i, t, start, y - 1), [VarKey(i, t, y - 1)], k);
      CountSingle(VarKey(i, t, y - 1), k);
    }
  }

  lemma {:induction false} TechKeysLength(i: int, n: nat, start: int, end: int)
    ensures |TechKeys(i, n, start, end)| == n * Horizon(start, end)
  {
    if n > 0 {
      TechKeysLength(i, n - 1, start, end);
      YearKeysLength(i, n - 1, start, end + 1);
      assert n * Horizon(start, end) == (n - 1) * Horizon(start, end) + Horizon(start, end);
    }
  }

  lemma {:induction false} TechKeysCount(i: int, n: nat, start: int, end: int, k: VarKey)
    ensures Count(TechKeys(i, n, start, end), k) ==
      if k.facility == i && 0 <= k.tech < n && start <= k.year <= end then 1 else 0
  {
    if n > 0 {
      TechKeysCount(i, n - 1, start, end, k);
      YearKeysCount(i, n - 1, start, end + 1, k);
      CountConcat(TechKeys(i, n - 1, start, end), YearKeys(i, n - 1, start, end + 1), k);
    }
  }

  lemma {:induction false} VariableKeysLength(n: nat, start: int, end: int)
    ensures |VariableKeys(n, start, end)| == n * NumTechs * Horizon(start, end)
  {
    if n > 0 {
      VariableKeysLength(n - 1, start, end);
      TechKeysLength(n - 1, NumTechs, start, end);
      assert n * NumTechs * Horizon(start, end) == (n - 1) * NumTechs * Horizon(start, end) + NumTechs * Horizon(start, end);
    }
  }

  /** Every in-range key occurs exactly once, and no other key occurs. */
  lemma {:induction false} VariableKeysCount(n: nat, start: int, end: int, k: VarKey)
    ensures Count(VariableKeys(n, start, end), k) == if InSpace(k, n, start, end) then 1 else 0
  {
    if n > 0 {
      VariableKeysCount(n - 1, start, end, k);
      TechKeysCount(n - 1, NumTechs, start, end, k);
      CountConcat(VariableKeys(n - 1, start, end), TechKeys(n - 1, NumTechs, start, end), k);
    }
  }

  /**
   * One binary variable per (i, t, y) with 0 <= i < n, 0 <= t < 4 and
   * start <= y <= end: n * 4 * (end - start + 1) of them, none twice.
   */
  lemma VariableKeysSpace(n: nat, start: int, end: int)
    ensures |VariableKeys(n, start, end)| == n * NumTechs * Horizon(start, end)
    ensures forall k :: k in VariableKeys(n, start, end) <==> InSpace(k, n, start, end)
    ensures forall k :: Count(VariableKeys(n, start, end), k) <= 1
  {
    VariableKeysLength(n, start, end);
    forall k
      ensures k in VariableKeys(n, start, end) <==> InSpace(k, n, start, end)
      ensures Count(VariableKeys(n, start, end), k) <= 1
    {
      VariableKeysCount(n, start, end, k);
      CountPositive(VariableKeys(n, start, end), k);
    }
  }

  // ---------------------------------------------------------------------
  // A) One technology per facility-year
  // ---------------------------------------------------------------------

  /** x[i, 0, y], ..., x[i, 3, y] */
  function TechVars(i: int, y: int): seq<VarKey> {
    [VarKey(i, 0, y), VarKey(i, 1, y), VarKey(i, 2, y), VarKey(i, 3, y)]
  }

  /** lpSum(x[i, t, y] for t in range(num_techs)) == 1 */
  function OneTechRow(i: int, y: int): Constraint {
    Constraint(TechVars(i, y), 1.0)
  }

  /** The rows of facility i for the years in [start, y). */
  function OneTechYears(i: int, start: int, y: int): seq<Constraint>
    decreases y - start
  {
    if y <= start then [] else OneTechYears(i, start, y - 1) + [OneTechRow(i, y - 1)]
  }

  /** Family A for the facilities i < n, in the order of the nested loops. */
  function OneTechConstraints(n: nat, start: int, end: int): seq<Constraint> {
    if n == 0 then [] else OneTechConstraints(n - 1, start, end) + OneTechYears(n - 1, start, end + 1)
  }

  lemma OneTechRowInjective(i: int, y: int, i': int, y': int)
    ensures OneTechRow(i, y) == OneTechRow(i', y') <==> i == i' && y == y'
  {
    if OneTechRow(i, y) == OneTechRow(i', y') {
      assert TechVars(i, y)[0] == TechVars(i', y')[0];
    }
  }

  lemma {:induction false} OneTechYearsLength(i: int, start: int, y: int)
    ensures |OneTechYears(i, start, y)| == if start <= y then y - start else 0
    decreases y - start
  {
    if y > start {
      OneTechYearsLength(i, start, y - 1);
    }
  }

  lemma {:induction false} OneTechYearsCount(i: int, start: int, y: int, i': int, y': int)
    ensures Count(OneTechYears(i, start, y), OneTechRow(i', y')) ==
      if i' == i && start <= y' < y then 1 else 0
    decreases y - start
  {
    if y > start {
      OneTechYearsCount(i, start, y - 1, i', y');
      OneTechRowInjective(i, y - 1, i', y');
      CountConcat(OneTechYears(i, start, y - 1), [OneTechRow(i, y - 1)], OneTechRow(i', y'));
      CountSingle(OneTechRow(i, y - 1), OneTechRow(i', y'));
    }
  }

  /** Family A holds n * (end - start + 1) constraints. */
  lemma {:induction false} OneTechLength(n: nat, start: int, end: int)
    ensures |OneTechConstraints(n, start, end)| == n * Horizon(start, end)
  {
    if n > 0 {
      OneTechLength(n - 1, start, end);
      OneTechYearsLength(n - 1, start, end + 1);
      assert n * Horizon(start, end) == (n - 1) * Horizon(start, end) + Horizon(start, end);
    }
  }

  /**
   * Family A holds exactly one constraint sum_t x[i, t, y] == 1 for each
   * in-range (i, y) and none for any other pair.
   */
  lemma {:induction false} OneTechCount(n: nat, start: int, end: int, i: int, y: int)
    ensures Count(OneTechConstraints(n, start, end), OneTechRow(i, y)) ==
      if 0 <= i < n && start <= y <= end then 1 else 0
  {
    if n > 0 {
      var front, back, row := OneTechConstraints(n - 1, start, end), OneTechYears(n - 1, start, end + 1), OneTechRow(i, y);
      assert OneTechConstraints(n, start, end) == front + back;
      OneTechCount(n - 1, start, end, i, y);
      OneTechYearsCount(n - 1, start, end + 1, i, y);
      CountConcat(front, back, row);
    }
  }

  /** Family A has no constraint other than the rows of in-range (i, y). */
  predicate IsOneTechRow(c: Constraint, n: int, start: int, end: int) {
    |c.vars| == NumTechs && c == OneTechRow(c.vars[0].facility, c.vars[0].year) &&
    0 <= c.vars[0].facility < n && start <= c.vars[0].year <= end
  }

  lemma {:induction false} OneTechShape(n: nat, start: int, end: int)
    ensures forall c :: c in OneTechConstraints(n, start, end) ==> IsOneTechRow(c, n, start, end)
  {
    if n > 0 {
      OneTechShape(n - 1, start, end);
      OneTechYearsShape(n - 1, start, end + 1, n, end);
    }
  }

  lemma {:induction false} OneTechYearsShape(i: int, start: int, y: int, n: int, end: int)
    requires 0 <= i < n && y <= end + 1
    ensures forall c :: c in OneTechYears(i, start, y) ==> IsOneTechRow(c, n, start, end)
    decreases y - start
  {
    if y > start {
      OneTechYearsShape(i, start, y - 1, n, end);
    }
  }

  // ---------------------------------------------------------------------
  // B) Forced switch to H2_HDRI_EAF from the end year on
  // ---------------------------------------------------------------------

  /** x[i, t, y] == v */
  function Fix(i: int, t: int, y: int, v: real): Constraint {
    Constraint([VarKey(i, t, y)], v)
  }

  /** x[i, t', y] == 0 for the t' < t other than h2_idx, in increasing t'. */
  function ZerosBelow(i: int, y: int, t: nat): seq<Constraint> {
    if t == 0 then []
    else ZerosBelow(i, y, t - 1) + (if t - 1 != H2Index then [Fix(i, t - 1, y, 0.0)] else [])
  }

  /** The constraints one forced year adds: x[i, 3, y] == 1, then the others == 0. */
  function ForcedBlock(i: int, y: int): seq<Constraint> {
    [Fix(i, H2Index, y, 1.0)] + ZerosBelow(i, y, NumTechs)
  }

  /** The forced blocks of facility i for the years in [from, y). */
  function ForcedYears(i: int, from: int, y: int): seq<Constraint>
    decreases y - from
  {
    if y <= from then [] else ForcedYears(i, from, y - 1) + ForcedBlock(i, y - 1)
  }

  /**
   * Family B for the facilities i < n. A facility whose end year e is after
   * `end` adds nothing; one with start <= e <= end adds the blocks of the
   * years e..end; one with e < start raises KeyError on x[i, 3, e], which
   * was never created (the year is not clamped to `start`).
   */
  function ForcedSpec(facilities: seq<Facility>, start: int, end: int, n: nat): Result<seq<Constraint>, Error>
    requires n <= |facilities|
  {
    if n == 0 then Success([])
    else match ForcedSpec(facilities, start, end, n - 1)
      case Failure(err) => Failure(err)
      case Success(cs) =>
        var last := facilities[n - 1].endYear;
        if last > end then Success(cs)
        else if last < start then Failure(MissingVariable(VarKey(n - 1, H2Index, last)))
        else Success(cs + ForcedYears(n - 1, last, end + 1))
  }

  /** Both families, in the order the optimizer adds them. */
  function Structural(facilities: seq<Facility>, start: int, end: int): Result<seq<Constraint>, Error> {
    match ForcedSpec(facilities, start, end, |facilities|)
    case Failure(err) => Failure(err)
    case Success(forced) => Success(OneTechConstraints(|facilities|, start, end) + forced)
  }

  lemma {:induction false} ForcedFailureStays(facilities: seq<Facility>, start: int, end: int, m: nat, n: nat, err: Error)
    requires m <= n <= |facilities|
    requires ForcedSpec(facilities, start, end, m) == Failure(err)
    ensures ForcedSpec(facilities, start, end, n) == Failure(err)
    decreases n - m
  {
    if m < n {
      ForcedFailureStays(facilities, start, end, m + 1, n, err);
    }
  }

  /**
   * Building family B fails exactly when some facility has an end year
   * before `start` (and not after `end`).
   */
  lemma {:induction false} ForcedFailsIff(facilities: seq<Facility>, start: int, end: int, n: nat)
    requires n <= |facilities|
    ensures ForcedSpec(facilities, start, end, n).Failure? <==>
      exists i :: 0 <= i < n && facilities[i].endYear < start && facilities[i].endYear <= end
  {
    if n > 0 {
      ForcedFailsIff(facilities, start, end, n - 1);
    }
  }

  /** A forced constraint fixes one in-range variable in a year at or after its facility's end year. */
  predicate IsForcedRow(c: Constraint, facilities: seq<Facility>, start: int, end: int) {
    |c.vars| == 1 && InSpace(c.vars[0], |facilities|, start, end) &&
    facilities[c.vars[0].facility].endYear <= c.vars[0].year &&
    c.rhs == (if c.vars[0].tech == H2Index then 1.0 else 0.0)
  }

  lemma {:induction false} ZerosBelowFacts(i: int, y: int, t: nat)
    ensures forall c :: c in ZerosBelow(i, y, t) ==>
      |c.vars| == 1 && c.vars[0].facility == i && c.vars[0].year == y &&
      0 <= c.vars[0].tech < t && c.vars[0].tech != H2Index && c.rhs == 0.0
    ensures forall t' :: 0 <= t' < t && t' != H2Index ==> Fix(i, t', y, 0.0) in ZerosBelow(i, y, t)
  {
    if t > 0 {
      ZerosBelowFacts(i, y, t - 1);
    }
  }

  /** Every row of the forced blocks from `from` on is an in-range forced row. */
  lemma {:induction false} ForcedYearsRows(facilities: seq<Facility>, start: int, end: int, i: nat, from: int, y: int)
    requires i < |facilities| && start <= from && facilities[i].endYear <= from && y <= end + 1
    ensures forall c :: c in ForcedYears(i, from, y) ==> IsForcedRow(c, facilities, start, end)
    decreases y - from
  {
    if y > from {
      ForcedYearsRows(facilities, start, end, i, from, y - 1);
      ZerosBelowFacts(i, y - 1, NumTechs);
    }
  }

  /** Year y of facility i is forced by cs: x[i, 3, y] == 1 and x[i, t, y] == 0 for every other t are among them. */
  predicate ForcedIn(cs: seq<Constraint>, i: int, y: int) {
    Fix(i, H2Index, y, 1.0) in cs && forall t :: 0 <= t < NumTechs && t != H2Index ==> Fix(i, t, y, 0.0) in cs
  }

  lemma ForcedInGrows(cs: seq<Constraint>, ds: seq<Constraint>, i: int, y: int)
    requires ForcedIn(cs, i, y) && forall c :: c in cs ==> c in ds
    ensures ForcedIn(ds, i, y)
  {
  }

  /** One forced year's block forces that year. */
  lemma ForcedBlockForces(i: int, y: int)
    ensures ForcedIn(ForcedBlock(i, y), i, y)
  {
    ZerosBelowFacts(i, y, NumTechs);
  }

  /** The block of a year in [from, y) is part of the forced years up to y. */
  lemma {:induction false} ForcedYearInYears(i: nat, from: int, y: int, y': int)
    requires from <= y' < y
    ensures forall c :: c in ForcedBlock(i, y') ==> c in ForcedYears(i, from, y)
    decreases y - from
  {
    var prev, block := ForcedYears(i, from, y - 1), ForcedBlock(i, y - 1);
    assert ForcedYears(i, from, y) == prev + block;
    if y' < y - 1 {
      ForcedYearInYears(i, from, y - 1, y');
    }
  }

  /** Every year in [from, y) gets x[i, 3, y'] == 1 and x[i, t, y'] == 0 for t != 3. */
  lemma ForcedYearsCover(i: nat, from: int, y: int)
    ensures forall y' :: from <= y' < y ==> ForcedIn(ForcedYears(i, from, y), i, y')
  {
    forall y' | from <= y' < y
      ensures ForcedIn(ForcedYears(i, from, y), i, y')
    {
      ForcedYearInYears(i, from, y, y');
      ForcedBlockForces(i, y');
      ForcedInGrows(ForcedBlock(i, y'), ForcedYears(i, from, y), i, y');
    }
  }

  /**
   * When family B is built, it holds only rows that fix a variable in a
   * forced year, and for every facility i < n and every year y from its end
   * year to `end` it holds x[i, 3, y] == 1 and x[i, t, y] == 0 for t != 3.
   */
  lemma {:induction false} ForcedFacts(facilities: seq<Facility>, start: int, end: int, n: nat)
    requires n <= |facilities|
    requires ForcedSpec(facilities, start, end, n).Success?
    ensures forall c :: c in ForcedSpec(facilities, start, end, n).value ==> IsForcedRow(c, facilities, start, end)
    ensures forall i, y :: 0 <= i < n && facilities[i].endYear <= y <= end ==>
      ForcedIn(ForcedSpec(facilities, start, end, n).value, i, y)
  {
    if n > 0 {
      ForcedFacts(facilities, start, end, n - 1);
      var prev := ForcedSpec(facilities, start, end, n - 1).value;
      var last := facilities[n - 1].endYear;
      if start <= last <= end {
        var cur := prev + ForcedYears(n - 1, last, end + 1);
        assert ForcedSpec(facilities, start, end, n).value == cur;
        var block := ForcedYears(n - 1, last, end + 1);
        ForcedYearsRows(facilities, start, end, n - 1, last, end + 1);
        ForcedYearsCover(n - 1, last, end + 1);
        forall c | c in cur
          ensures IsForcedRow(c, facilities, start, end)
        {
          if c !in prev {
            assert c in block;
          }
        }
        forall i, y | 0 <= i < n && facilities[i].endYear <= y <= end
          ensures ForcedIn(cur, i, y)
        {
          if i < n - 1 {
            ForcedInGrows(prev, cur, i, y);
          } else {
            assert last <= y < end + 1;
            ForcedInGrows(block, cur, i, y);
          }
        }
      } else {
        assert ForcedSpec(facilities, start, end, n).value == prev;
      }
    }
  }

  // ---------------------------------------------------------------------
  // The loops of solve_for_scenarios that add the two families
  // ---------------------------------------------------------------------

  /** Constraint family A, added facility by facility and year by year. */
  method AddOneTechConstraints(prob: LpProblem, n: nat, start: int, end: int)
    modifies prob
    ensures prob.constraints == old(prob.constraints) + OneTechConstraints(n, start, end)
    ensures prob.objective == old(prob.objective) && prob.status == old(prob.status)
    ensures prob.values == old(prob.values) && prob.solveLog == old(prob.solveLog)
  {
    var i := 0;
    while i < n
      invariant 0 <= i <= n
      invariant prob.constraints == old(prob.constraints) + OneTechConstraints(i, start, end)
      invariant prob.objective == old(prob.objective) && prob.status == old(prob.status)
      invariant prob.values == old(prob.values) && prob.solveLog == old(prob.solveLog)
    {
      var y := start;
      while y <= end
        invariant start <= y && (y <= end + 1 || y == start)
        invariant prob.constraints == old(prob.constraints) + OneTechConstraints(i, start, end) + OneTechYears(i, start, y)
        invariant prob.objective == old(prob.objective) && prob.status == old(prob.status)
        invariant prob.values == old(prob.values) && prob.solveLog == old(prob.solveLog)
      {
        prob.AddConstraint(OneTechRow(i, y));
        y := y + 1;
      }
      assert OneTechYears(i, start, y) == OneTechYears(i, start, end + 1);
      i := i + 1;
    }
  }

  /**
   * Constraint family B. Every variable is looked up in x, the dictionary
   * of declared variables; the lookup of x[i, 3, e] for a facility whose
   * end year e is before the horizon raises KeyError, and the error is
   * returned. The other lookups are proved to succeed.
   */
  method AddForcedSwitch(prob: LpProblem, x: seq<VarKey>, facilities: seq<Facility>, start: int, end: int)
    returns (err: Option<Error>)
    requires x == VariableKeys(|facilities|, start, end)
    modifies prob
    ensures ForcedSpec(facilities, start, end, |facilities|).Success? ==>
      err == None &&
      prob.constraints == old(prob.constraints) + ForcedSpec(facilities, start, end, |facilities|).value
    ensures ForcedSpec(facilities, start, end, |facilities|).Failure? ==>
      err == Some(ForcedSpec(facilities, start, end, |facilities|).error) &&
      exists j :: 0 <= j < |facilities| && ForcedSpec(facilities, start, end, j).Success? &&
        ForcedSpec(facilities, start, end, j + 1).Failure? &&
        prob.constraints == old(prob.constraints) + ForcedSpec(facilities, start, end, j).value
    ensures prob.objective == old(prob.objective) && prob.status == old(prob.status)
    ensures prob.values == old(prob.values) && prob.solveLog == old(prob.solveLog)
  {
    VariableKeysSpace(|facilities|, start, end);
    var i := 0;
    while i < |facilities|
      invariant 0 <= i <= |facilities|
      invariant ForcedSpec(facilities, start, end, i).Success?
      invariant prob.constraints == old(prob.constraints) + ForcedSpec(facilities, start, end, i).value
      invariant prob.objective == old(prob.objective) && prob.status == old(prob.status)
      invariant prob.values == old(prob.values) && prob.solveLog == old(prob.solveLog)
    {
      ghost var before := ForcedSpec(facilities, start, end, i).value;
      var last := facilities[i].endYear;
      if last <= end {
        var y := last;
        while y <= end
          invariant last <= y <= end + 1
          invariant y > last ==> start <= last
          invariant prob.constraints == old(prob.constraints) + before + ForcedYears(i, last, y)
          invariant prob.objective == old(prob.objective) && prob.status == old(prob.status)
          invariant prob.values == old(prob.values) && prob.solveLog == old(prob.solveLog)
        {
          if VarKey(i, H2Index, y) !in x {
            err := Some(MissingVariable(VarKey(i, H2Index, y)));
            ForcedFailureStays(facilities, start, end, i + 1, |facilities|, err.value);
            return;
          }
          AddForcedBlock(prob, x, |facilities|, start, end, i, y);
          y := y + 1;
        }
      }
      i := i + 1;
    }
    err := None;
  }

  /** One forced year: x[i, 3, y] == 1, then x[i, t, y] == 0 for the other t in increasing order. */
  method AddForcedBlock(prob: LpProblem, x: seq<VarKey>, n: nat, start: int, end: int, i: nat, y: int)
    requires x == VariableKeys(n, start, end) && i < n && start <= y <= end
    modifies prob
    ensures prob.constraints == old(prob.constraints) + ForcedBlock(i, y)
    ensures prob.objective == old(prob.objective) && prob.status == old(prob.status)
    ensures prob.values == old(prob.values) && prob.solveLog == old(prob.solveLog)
  {
    VariableKeysSpace(n, start, end);
    prob.AddConstraint(Fix(i, H2Index, y, 1.0));
    var t := 0;
    while t < NumTechs
      invariant 0 <= t <= NumTechs
      invariant prob.constraints == old(prob.constraints) + [Fix(i, H2Index, y, 1.0)] + ZerosBelow(i, y, t)
      invariant prob.objective == old(prob.objective) && prob.status == old(prob.status)
      invariant prob.values == old(prob.values) && prob.solveLog == old(prob.solveLog)
    {
      if t != H2Index {
        assert VarKey(i, t, y) in x by {
          assert InSpace(VarKey(i, t, y), n, start, end);
        }
        prob.AddConstraint(Fix(i, t, y, 0.0));
      }
      t := t + 1;
    }
  }

  /**
   * Both families, added in order: the error of the forced switch, if any,
   * is the error of Structural, and otherwise the problem gains exactly the
   * structural constraints.
   */
  method AddStructural(prob: LpProblem, x: seq<VarKey>, facilities: seq<Facility>, start: int, end: int)
    returns (err: Option<Error>)
    requires x == VariableKeys(|facilities|, start, end)
    modifies prob
    ensures err.None? <==> Structural(facilities, start, end).Success?
    ensures err.Some? ==> Structural(facilities, start, end) == Failure(err.value)
    ensures err.None? ==> prob.constraints == old(prob.constraints) + Structural(facilities, start, end).value
    ensures prob.objective == old(prob.objective) && prob.status == old(prob.status)
    ensures prob.values == old(prob.values) && prob.solveLog == old(prob.solveLog)
  {
    AddOneTechConstraints(prob, |facilities|, start, end);
    err := AddForcedSwitch(prob, x, facilities, start, end);
  }

  // ---------------------------------------------------------------------
  // The structural constraints are always satisfiable
  // ---------------------------------------------------------------------

  /** Every facility runs H2_HDRI_EAF in every year. */
  function AllH2(vars: seq<VarKey>): (values: Assignment)
    ensures forall k :: k in values <==> k in vars
    ensures forall k :: k in values ==> values[k] == if k.tech == H2Index then 1.0 else 0.0
  {
    map k | k in vars :: if k.tech == H2Index then 1.0 else 0.0
  }

  /** lpSum over the four technology variables of (i, y), written out. */
  lemma TechVarsSumOf(values: Assignment, i: int, y: int)
    requires HasValues(values, TechVars(i, y))
    ensures SumOf(values, TechVars(i, y)) ==
      values[VarKey(i, 0, y)] + values[VarKey(i, 1, y)] + values[VarKey(i, 2, y)] + values[VarKey(i, 3, y)]
  {
    var vs := TechVars(i, y);
    var v3, v2, v1 := vs[..3], vs[..3][..2], vs[..3][..2][..1];
    assert v3 == [VarKey(i, 0, y), VarKey(i, 1, y), VarKey(i, 2, y)];
    assert v2 == [VarKey(i, 0, y), VarKey(i, 1, y)];
    assert v1 == [VarKey(i, 0, y)];
    assert v1[..0] == [];
    assert SumOf(values, v1) == values[VarKey(i, 0, y)];
    assert SumOf(values, v2) == values[VarKey(i, 0, y)] + values[VarKey(i, 1, y)];
    assert SumOf(values, v3) == values[VarKey(i, 0, y)] + values[VarKey(i, 1, y)] + values[VarKey(i, 2, y)];
  }

  lemma TechVarsSum(values: Assignment, i: int, y: int)
    requires forall t :: 0 <= t < NumTechs ==> VarKey(i, t, y) in values
    requires forall t :: 0 <= t < NumTechs ==> values[VarKey(i, t, y)] == if t == H2Index then 1.0 else 0.0
    ensures Holds(values, OneTechRow(i, y))
  {
    TechVarsSumOf(values, i, y);
  }

  /**
   * Whenever the structural constraints can be built, the assignment that
   * runs H2_HDRI_EAF everywhere is binary and satisfies all of them: the
   * MILP handed to the solver is never infeasible.
   */
  lemma StructuralFeasible(facilities: seq<Facility>, start: int, end: int)
    requires Structural(facilities, start, end).Success?
    ensures Binary(AllH2(VariableKeys(|facilities|, start, end)), VariableKeys(|facilities|, start, end))
    ensures Satisfies(AllH2(VariableKeys(|facilities|, start, end)), Structural(facilities, start, end).value)
  {
    var n := |facilities|;
    var vars := VariableKeys(n, start, end);
    var values := AllH2(vars);
    VariableKeysSpace(n, start, end);
    OneTechShape(n, start, end);
    ForcedFacts(facilities, start, end, n);
    forall c | c in Structural(facilities, start, end).value
      ensures Holds(values, c)
    {
      if c in OneTechConstraints(n, start, end) {
        assert IsOneTechRow(c, n, start, end);
        var i, y := c.vars[0].facility, c.vars[0].year;
        assert forall t :: 0 <= t < NumTechs ==> InSpace(VarKey(i, t, y), n, start, end);
        TechVarsSum(values, i, y);
      } else {
        assert c in ForcedSpec(facilities, start, end, n).value;
        assert IsForcedRow(c, facilities, start, end);
        assert c.vars == [c.vars[0]];
        assert [c.vars[0]][..0] == [];
      }
    }
  }

  /** The single-variable constraint x[i, t, y] == v holds exactly when x[i, t, y] has the value v. */
  lemma FixHolds(values: Assignment, i: int, t: int, y: int, v: real)
    ensures Holds(values, Fix(i, t, y, v)) <==> VarKey(i, t, y) in values && values[VarKey(i, t, y)] == v
  {
    var vs := Fix(i, t, y, v).vars;
    assert vs[..0] == [];
    if VarKey(i, t, y) in values {
      assert SumOf(values, vs) == values[VarKey(i, t, y)];
    }
  }

  /**
   * Any assignment satisfying the structural constraints runs H2_HDRI_EAF,
   * and no other technology, in every year from a facility's end year to
   * the end of the horizon.
   */
  lemma ForcedYearsAreH2(facilities: seq<Facility>, start: int, end: int, values: Assignment)
    requires Structural(facilities, start, end).Success?
    requires Satisfies(values, Structural(facilities, start, end).value)
    ensures forall i, y :: 0 <= i < |facilities| && facilities[i].endYear <= y <= end ==>
      VarKey(i, H2Index, y) in values && values[VarKey(i, H2Index, y)] == 1.0
    ensures forall i, t, y ::
      0 <= i < |facilities| && facilities[i].endYear <= y <= end && 0 <= t < NumTechs && t != H2Index ==>
      VarKey(i, t, y) in values && values[VarKey(i, t, y)] == 0.0
  {
    var n := |facilities|;
    ForcedFacts(facilities, start, end, n);
    var forced := ForcedSpec(facilities, start, end, n).value;
    assert Structural(facilities, start, end).value == OneTechConstraints(n, start, end) + forced;
    forall i, t, y | 0 <= i < n && facilities[i].endYear <= y <= end && 0 <= t < NumTechs
      ensures VarKey(i, t, y) in values && values[VarKey(i, t, y)] == if t == H2Index then 1.0 else 0.0
    {
      var v := if t == H2Index then 1.0 else 0.0;
      assert ForcedIn(forced, i, y);
      assert Fix(i, t, y, v) in forced;
      FixHolds(values, i, t, y, v);
    }
  }
}
