/**
 * The single-file script: module-level settings, one problem built once
 * with the same variables and structural constraints as the optimizer,
 * then every scenario's objective built before any solve, one solve per
 * scenario whose decisions are stored as technology indices, and one
 * emission path per scenario.
 */
module Past {
  import opened Wrappers
  import opened Errors
  import opened Lp
  import opened Data
  import opened Model
  import opened Objective
  import opened Extraction
  import opened Dicts
  import opened Paths
  import O = Optimizer
  import Reporting

  const StartYear: int := 2024
  const EndYear: int := 2050
  const DiscountRate: real := 0.05
  const Scenarios: seq<string> := ["below_2", "ndc", "net_zero"]

  /** The script's settings, as a configuration of the optimizer. */
  const Config: ModelConfig := ModelConfig(StartYear, EndYear, DiscountRate, Scenarios)

  /** The declared variables x[i, t, y]. */
  function ScriptVars(dm: DataManager): seq<VarKey> {
    VariableKeys(|dm.facilities|, StartYear, EndYear)
  }

  /** The three scenario names are distinct. */
  lemma ScenariosDistinct()
    ensures forall a, b :: 0 <= a < b < |Scenarios| ==> Scenarios[a] != Scenarios[b]
  {
    assert |Scenarios[0]| == 7 && |Scenarios[1]| == 3 && |Scenarios[2]| == 8;
  }

  // ---------------------------------------------------------------------
  // Lookups, cost coefficient and discount factor
  // ---------------------------------------------------------------------

  /**
   * The script's four lookup helpers answer as the data manager's getters
   * do: the cell of the first row with the year, ValueError when no row has
   * it and KeyError when the column is missing.
   */
  lemma HelpersAnswer(dm: DataManager, year: int, scenario: string, tech: string)
    requires dm.Valid()
    ensures Answers(dm.carbonPrice, year, scenario, dm.CarbonPrice(year, scenario))
    ensures Answers(dm.allowanceRate, year, AllowRateColumn, dm.AllowRate(year))
    ensures Answers(dm.techEmission, year, tech, dm.EmissionIntensity(year, tech))
    ensures Answers(dm.techMac, year, tech, dm.Mac(year, tech))
  {
    CarbonPriceAnswers(dm, year, scenario);
    AllowRateAnswers(dm, year);
    EmissionIntensityAnswers(dm, year, tech);
    MacAnswers(dm, year, tech);
  }

  /**
   * total_cost_y as the script writes it: the allowance offset is
   * recomputed as cap * emi * price * allow instead of carbon_cost * allow.
   */
  function ScriptCoefficient(cap: real, emi: real, price: real, allow: real, baseEmi: real, mac: real, disc: real): real {
    var carbonCost := cap * emi * price;
    var allowanceOffset := cap * emi * price * allow;
    var abatement := cap * (baseEmi - emi) * mac;
    (carbonCost - allowanceOffset + abatement) * disc
  }

  /**
   * The script's coefficient is the optimizer's: the net carbon cost
   * cap * emi * price * (1 - allow) plus the abatement cost, discounted. So
   * the script's objective for a scenario is the optimizer's objective.
   */
  lemma ScriptCoefficientAgrees(cap: real, emi: real, price: real, allow: real, baseEmi: real, mac: real, disc: real)
    ensures ScriptCoefficient(cap, emi, price, allow, baseEmi, mac, disc) == Coefficient(cap, emi, price, allow, baseEmi, mac, disc)
    ensures ScriptCoefficient(cap, emi, price, allow, baseEmi, mac, disc) ==
      (cap * emi * price * (1.0 - allow) + cap * (baseEmi - emi) * mac) * disc
  {
    NetCarbonCost(cap, emi, price, allow, baseEmi, mac, disc);
  }

  /** At the script's rate of 5% the discount factor is defined and positive in every year from 2024 on. */
  lemma ScriptDiscountDefined(y: int)
    requires StartYear <= y
    ensures Discount(DiscountRate, StartYear, y).Success?
    ensures Discount(DiscountRate, StartYear, y).value > 0.0
    ensures Discount(DiscountRate, StartYear, y + 1).Success?
    ensures Discount(DiscountRate, StartYear, y + 1).value * 1.05 == Discount(DiscountRate, StartYear, y).value
  {
    DiscountStep(DiscountRate, StartYear, y);
  }

  // ---------------------------------------------------------------------
  // All objectives first
  // ---------------------------------------------------------------------

  /** objectives: every scenario's cost expression, or the first error raised while building them. */
  function ObjectivesSpec(dm: DataManager): Result<Dict<seq<Term>>, Error> {
    Collect(O.Objectives(dm, Config), Scenarios, |Scenarios|)
  }

  /** The first scenario loop: objectives[scenario] = lpSum(cost_expr), for every scenario before any solve. */
  method BuildObjectives(dm: DataManager, x: seq<VarKey>, ghost objectives: string -> Result<seq<Term>, Error>)
    returns (r: Result<Dict<seq<Term>>, Error>)
    requires dm.Valid() && x == ScriptVars(dm)
    requires O.TabulatesObjectives(objectives, dm, Config)
    ensures r == Collect(objectives, Scenarios, |Scenarios|)
  {
    var built := Dict([], map[]);
    var k := 0;
    while k < |Scenarios|
      invariant k <= |Scenarios|
      invariant Collect(objectives, Scenarios, k) == Success(built)
    {
      var scenario := Scenarios[k];
      var costExpr := BuildObjective(dm, Config, x, scenario);
      CollectStep(objectives, Scenarios, k, built);
      if costExpr.Failure? {
        CollectFailureStays(objectives, Scenarios, k + 1, |Scenarios|, costExpr.error);
        return Failure(costExpr.error);
      }
      built := Insert(built, scenario, costExpr.value);
      k := k + 1;
    }
    r := Success(built);
  }

  /** The objectives are built exactly when every scenario's cost expression can be built. */
  lemma ObjectivesSucceedIff(dm: DataManager)
    ensures ObjectivesSpec(dm).Success? <==> forall j :: 0 <= j < |Scenarios| ==> ObjectiveSpec(dm, Config, Scenarios[j]).Success?
  {
    CollectSucceedsIff(O.Objectives(dm, Config), Scenarios, |Scenarios|);
  }

  // ---------------------------------------------------------------------
  // Decisions as technology indices
  // ---------------------------------------------------------------------

  /** decisions[(i, y)] = t, the technology index; no key at all when no variable is 1. */
  type IndexDecisions = map<(int, int), nat>

  /** The dictionary the script's extraction loops fill. */
  function IndicesOf(values: Assignment, n: nat, start: int, end: int): IndexDecisions {
    map i, y | 0 <= i < n && start <= y <= end && FirstOne(values, i, y).Some? :: (i, y) := FirstOne(values, i, y).value
  }

  /**
   * An index dictionary and a name dictionary that record the same choices
   * for the n facilities over [start, end]: the index dictionary has keys
   * only there, it has a key exactly where the name is not None, and its
   * index is that of the named technology.
   */
  ghost predicate SameChoices(indices: IndexDecisions, names: Decisions, n: nat, start: int, end: int) {
    (forall i, y :: (i, y) in indices ==> 0 <= i < n && start <= y <= end) &&
    (forall i, y :: 0 <= i < n && start <= y <= end ==>
      (i, y) in names && ((i, y) in indices <==> names[(i, y)].Some?)) &&
    (forall i, y :: (i, y) in indices ==>
      indices[(i, y)] < NumTechs && (i, y) in names && names[(i, y)] == Some(Technologies[indices[(i, y)]]))
  }

  /** Read from the same values, the script's index dictionary and the optimizer's name dictionary agree. */
  lemma IndicesAgreeWithNames(values: Assignment, n: nat, start: int, end: int)
    ensures SameChoices(IndicesOf(values, n, start, end), DecisionsOf(values, n, start, end), n, start, end)
  {
    DecisionsOfEntries(values, n, start, end);
  }

  /** The technology loop for one (i, y): the index of the first variable equal to 1. */
  method FirstOneIndex(values: Assignment, x: seq<VarKey>, n: nat, start: int, end: int, i: int, y: int)
    returns (found: Option<nat>)
    requires x == VariableKeys(n, start, end) && 0 <= i < n && start <= y <= end
    ensures found == FirstOne(values, i, y)
  {
    VariableKeysSpace(n, start, end);
    found := None;
    var t: nat := 0;
    while t < NumTechs
      invariant t <= NumTechs
      invariant found == None
      invariant FirstOne(values, i, y) == FirstOneFrom(values, i, y, t)
    {
      assert VarKey(i, t, y) in x by {
        assert InSpace(VarKey(i, t, y), n, start, end);
      }
      if VarKey(i, t, y) in values && values[VarKey(i, t, y)] == 1.0 {
        found := Some(t);
        break;
      }
      t := t + 1;
    }
  }

  /** The nested loops that fill the index dictionary. */
  method ExtractIndices(values: Assignment, x: seq<VarKey>, n: nat, start: int, end: int)
    returns (decisions: IndexDecisions)
    requires x == VariableKeys(n, start, end)
    ensures decisions == IndicesOf(values, n, start, end)
  {
    decisions := map[];
    var i := 0;
    while i < n
      invariant 0 <= i <= n
      invariant forall i', y' :: (i', y') in decisions <==>
        0 <= i' < i && start <= y' <= end && FirstOne(values, i', y').Some?
      invariant forall i', y' :: (i', y') in decisions ==> Some(decisions[(i', y')]) == FirstOne(values, i', y')
    {
      var y := start;
      while y <= end
        invariant start <= y && (y <= end + 1 || y == start)
        invariant forall i', y' :: (i', y') in decisions <==>
          ((0 <= i' < i && start <= y' <= end) || (i' == i && start <= y' < y)) && FirstOne(values, i', y').Some?
        invariant forall i', y' :: (i', y') in decisions ==> Some(decisions[(i', y')]) == FirstOne(values, i', y')
      {
        var found := FirstOneIndex(values, x, n, start, end, i, y);
        if found.Some? {
          decisions := decisions[(i, y) := found.value];
        }
        y := y + 1;
      }
      i := i + 1;
    }
    IndicesExtensional(decisions, values, n, start, end);
  }

  /** A dictionary with the keys and the entries of IndicesOf is IndicesOf. */
  lemma IndicesExtensional(d: IndexDecisions, values: Assignment, n: nat, start: int, end: int)
    requires forall i, y :: (i, y) in d <==> 0 <= i < n && start <= y <= end && FirstOne(values, i, y).Some?
    requires forall i, y :: (i, y) in d ==> Some(d[(i, y)]) == FirstOne(values, i, y)
    ensures d == IndicesOf(values, n, start, end)
  {
    var spec := IndicesOf(values, n, start, end);
    forall p: (int, int)
      ensures p in d <==> p in spec
    {
      var (a, b) := p;
      assert (a, b) in d <==> (a, b) in spec;
    }
  }

  // ---------------------------------------------------------------------
  // The solve loop
  // ---------------------------------------------------------------------

  /** results[scenario] = {'status', 'objective_value', 'decisions'} */
  datatype ScriptResult = ScriptResult(status: Status, objectiveValue: Option<real>, decisions: IndexDecisions)

  /** One solve: the problem with the objective `objective`, and what is read back. */
  function SolvedWith(solver: Solver, dm: DataManager, cs: seq<Constraint>, objective: seq<Term>): ScriptResult {
    var out := solver(Problem(ScriptVars(dm), cs, objective));
    ScriptResult(out.status, ObjectiveValue(out.values, objective), IndicesOf(out.values, |dm.facilities|, StartYear, EndYear))
  }

  /** A scenario of the solve loop: objectives[scenario] raises KeyError when absent. */
  function ScriptOutcomeOf(solver: Solver, dm: DataManager, cs: seq<Constraint>, objectives: Dict<seq<Term>>, scenario: string)
    : Result<ScriptResult, Error>
  {
    if scenario in objectives.entries then Success(SolvedWith(solver, dm, cs, objectives.entries[scenario]))
    else Failure(MissingScenario(scenario))
  }

  function ScriptOutcomes(solver: Solver, dm: DataManager, cs: seq<Constraint>, objectives: Dict<seq<Term>>)
    : string -> Result<ScriptResult, Error>
  {
    scenario => ScriptOutcomeOf(solver, dm, cs, objectives, scenario)
  }

  /** `outcome` answers every scenario as ScriptOutcomeOf does. */
  ghost predicate TabulatesOutcomes(outcome: string -> Result<ScriptResult, Error>, solver: Solver, dm: DataManager,
                                    cs: seq<Constraint>, objectives: Dict<seq<Term>>)
  {
    forall s {:trigger ScriptOutcomeOf(solver, dm, cs, objectives, s)} :: outcome(s) == ScriptOutcomeOf(solver, dm, cs, objectives, s)
  }

  lemma ScriptOutcomesTabulate(solver: Solver, dm: DataManager, cs: seq<Constraint>, objectives: Dict<seq<Term>>)
    ensures TabulatesOutcomes(ScriptOutcomes(solver, dm, cs, objectives), solver, dm, cs, objectives)
  {
  }

  /** results: the structural constraints, all objectives, then one solve per scenario. */
  function ResultsSpec(solver: Solver, dm: DataManager): Result<Dict<ScriptResult>, Error> {
    var cs :- Structural(dm.facilities, StartYear, EndYear);
    var objectives :- ObjectivesSpec(dm);
    Collect(ScriptOutcomes(solver, dm, cs, objectives), Scenarios, |Scenarios|)
  }

  /** The body of the solve loop for one scenario. */
  method SolveOne(prob: LpProblem, solver: Solver, dm: DataManager, x: seq<VarKey>, objectives: Dict<seq<Term>>,
                  ghost outcome: string -> Result<ScriptResult, Error>, scenario: string)
    returns (r: Result<ScriptResult, Error>)
    requires x == ScriptVars(dm)
    requires TabulatesOutcomes(outcome, solver, dm, prob.constraints, objectives)
    modifies prob
    ensures r == outcome(scenario) && (r.Success? <==> scenario in objectives.entries)
    ensures prob.constraints == old(prob.constraints)
    ensures scenario !in objectives.entries ==> prob.solveLog == old(prob.solveLog)
    ensures scenario in objectives.entries ==>
      prob.solveLog == old(prob.solveLog) + [Problem(x, prob.constraints, objectives.entries[scenario])]
  {
    ghost var expected := ScriptOutcomeOf(solver, dm, prob.constraints, objectives, scenario);
    if scenario !in objectives.entries {
      return Failure(MissingScenario(scenario));
    }
    prob.SetObjective(objectives.entries[scenario]);
    prob.Solve(solver, x);
    var status := prob.status;
    var objectiveValue := ObjectiveValue(prob.values, prob.objective);
    var decisions := ExtractIndices(prob.values, x, |dm.facilities|, StartYear, EndYear);
    r := Success(ScriptResult(status, objectiveValue, decisions));
  }

  /**
   * The second scenario loop, on a problem that holds the constraints `cs`
   * and has not been solved; `objectiveOf` is what the objectives were built
   * from.
   */
  method SolveAll(prob: LpProblem, solver: Solver, dm: DataManager, x: seq<VarKey>, objectives: Dict<seq<Term>>,
                  ghost outcome: string -> Result<ScriptResult, Error>,
                  ghost objectiveOf: string -> Result<seq<Term>, Error>, ghost cs: seq<Constraint>)
    returns (r: Result<Dict<ScriptResult>, Error>)
    requires x == ScriptVars(dm)
    requires prob.constraints == cs && prob.solveLog == []
    requires TabulatesOutcomes(outcome, solver, dm, cs, objectives)
    requires forall s :: s in objectives.entries ==> objectiveOf(s) == Success(objectives.entries[s])
    modifies prob
    ensures r == Collect(outcome, Scenarios, |Scenarios|)
    ensures prob.constraints == cs
    ensures O.HandedInOrder(prob.solveLog, objectiveOf, x, cs, Scenarios)
    ensures r.Success? ==> |prob.solveLog| == |Scenarios|
  {
    var results := Dict([], map[]);
    var k := 0;
    while k < |Scenarios|
      invariant k <= |Scenarios|
      invariant prob.constraints == cs
      invariant Collect(outcome, Scenarios, k) == Success(results)
      invariant |prob.solveLog| == k && O.HandedInOrder(prob.solveLog, objectiveOf, x, cs, Scenarios)
    {
      var scenario := Scenarios[k];
      ghost var log := prob.solveLog;
      var entry := SolveOne(prob, solver, dm, x, objectives, outcome, scenario);
      CollectStep(outcome, Scenarios, k, results);
      if entry.Failure? {
        CollectFailureStays(outcome, Scenarios, k + 1, |Scenarios|, entry.error);
        return Failure(entry.error);
      }
      O.HandedAppend(log, objectiveOf, x, cs, Scenarios);
      results := Insert(results, scenario, entry.value);
      k := k + 1;
    }
    r := Success(results);
  }

  // ---------------------------------------------------------------------
  // Emission paths and the whole script
  // ---------------------------------------------------------------------

  /** TECHNOLOGIES[res['decisions'][(i, year)]]: KeyError when the key is absent, IndexError past the list. */
  function IndexedTech(decisions: IndexDecisions): TechOf {
    (i: int, y: int) =>
      if (i, y) !in decisions then Failure(MissingDecision(i, y))
      else if decisions[(i, y)] < NumTechs then Success(Technologies[decisions[(i, y)]])
      else Failure(BadTechIndex(decisions[(i, y)]))
  }

  function IndexTech(res: ScriptResult): TechOf {
    IndexedTech(res.decisions)
  }

  /** What the script leaves behind: results and emission_paths. */
  datatype ScriptOutput = ScriptOutput(results: Dict<ScriptResult>, emissionPaths: Dict<Path>)

  /** The whole script, or the first exception it raises. */
  function RunSpec(solver: Solver, dm: DataManager): Result<ScriptOutput, Error> {
    var results :- ResultsSpec(solver, dm);
    var paths :- PathsSpec(dm, StartYear, EndYear, results, IndexTech);
    Success(ScriptOutput(results, paths))
  }

  /**
   * The script from the problem to emission_paths. Every objective is built
   * before the first solve, so an objective that cannot be built stops the
   * script before the solver is called at all; otherwise the solver is
   * handed one problem per scenario, in order, each with the same variables
   * and constraints and its own scenario's objective.
   */
  method Run(solver: Solver, dm: DataManager) returns (r: Result<ScriptOutput, Error>, prob: LpProblem)
    requires dm.Valid()
    ensures fresh(prob)
    ensures r == RunSpec(solver, dm)
    ensures Structural(dm.facilities, StartYear, EndYear).Success? ==>
      prob.constraints == Structural(dm.facilities, StartYear, EndYear).value
    ensures Structural(dm.facilities, StartYear, EndYear).Failure? ==> prob.solveLog == []
    ensures ObjectivesSpec(dm).Failure? ==> prob.solveLog == []
    ensures O.HandedInOrder(prob.solveLog, O.Objectives(dm, Config), ScriptVars(dm), prob.constraints, Scenarios)
    ensures ResultsSpec(solver, dm).Success? ==> |prob.solveLog| == |Scenarios|
  {
    prob := new LpProblem();
    var x := VariableKeys(|dm.facilities|, StartYear, EndYear);
    var err := AddStructural(prob, x, dm.facilities, StartYear, EndYear);
    if err.Some? {
      assert ResultsSpec(solver, dm) == Failure(err.value);
      return Failure(err.value), prob;
    }
    ghost var cs := prob.constraints;
    assert cs == Structural(dm.facilities, StartYear, EndYear).value;
    ghost var objectiveOf := O.Objectives(dm, Config);
    O.OutcomesTabulate(solver, dm, Config, cs);
    var objectives := BuildObjectives(dm, x, objectiveOf);
    assert objectives == ObjectivesSpec(dm);
    if objectives.Failure? {
      assert ResultsSpec(solver, dm) == Failure(objectives.error);
      return Failure(objectives.error), prob;
    }
    CollectEntries(objectiveOf, Scenarios, |Scenarios|);
    ghost var outcome := ScriptOutcomes(solver, dm, cs, objectives.value);
    ScriptOutcomesTabulate(solver, dm, cs, objectives.value);
    var results := SolveAll(prob, solver, dm, x, objectives.value, outcome, objectiveOf, cs);
    assert results == ResultsSpec(solver, dm);
    if results.Failure? {
      return Failure(results.error), prob;
    }
    CollectValid(outcome, Scenarios, |Scenarios|);
    var paths := EmissionPaths(dm, StartYear, EndYear, results.value, IndexTech);
    if paths.Failure? {
      return Failure(paths.error), prob;
    }
    r := Success(ScriptOutput(results.value, paths.value));
  }

  // ---------------------------------------------------------------------
  // The script and the optimizer agree
  // ---------------------------------------------------------------------

  /**
   * The solve loop runs to the end exactly when the structural constraints
   * and every objective can be built: objectives[scenario] never raises,
   * since the objectives were built for the same list of scenarios.
   */
  lemma ResultsSucceedIff(solver: Solver, dm: DataManager)
    ensures ResultsSpec(solver, dm).Success? ==>
      Structural(dm.facilities, StartYear, EndYear).Success? && ObjectivesSpec(dm).Success?
    ensures Structural(dm.facilities, StartYear, EndYear).Success? && ObjectivesSpec(dm).Success? ==>
      ResultsSpec(solver, dm).Success?
  {
    var structural := Structural(dm.facilities, StartYear, EndYear);
    if structural.Success? && ObjectivesSpec(dm).Success? {
      var objectives := ObjectivesSpec(dm).value;
      CollectEntries(O.Objectives(dm, Config), Scenarios, |Scenarios|);
      var outcome := ScriptOutcomes(solver, dm, structural.value, objectives);
      CollectSucceedsIff(outcome, Scenarios, |Scenarios|);
      forall j | 0 <= j < |Scenarios|
        ensures outcome(Scenarios[j]).Success?
      {
        assert Scenarios[..|Scenarios|] == Scenarios;
        assert Scenarios[j] in objectives.entries;
      }
    }
  }

  /**
   * The results hold one entry per scenario, in the order of SCENARIOS, and
   * the entry of a scenario is the solve of that scenario's objective.
   */
  lemma ScriptResultsPerScenario(solver: Solver, dm: DataManager)
    requires ResultsSpec(solver, dm).Success?
    ensures Structural(dm.facilities, StartYear, EndYear).Success? && ObjectivesSpec(dm).Success?
    ensures ResultsSpec(solver, dm).value.Valid() && ResultsSpec(solver, dm).value.order == Scenarios
    ensures forall s :: s in ResultsSpec(solver, dm).value.entries <==> s in Scenarios
    ensures forall s :: s in ResultsSpec(solver, dm).value.entries ==>
      ObjectiveSpec(dm, Config, s).Success? &&
      ResultsSpec(solver, dm).value.entries[s] ==
      SolvedWith(solver, dm, Structural(dm.facilities, StartYear, EndYear).value, ObjectiveSpec(dm, Config, s).value)
  {
    var cs := Structural(dm.facilities, StartYear, EndYear).value;
    var objectives := ObjectivesSpec(dm).value;
    var outcome := ScriptOutcomes(solver, dm, cs, objectives);
    var n := |Scenarios|;
    assert Scenarios[..n] == Scenarios;
    CollectEntries(O.Objectives(dm, Config), Scenarios, n);
    CollectValid(outcome, Scenarios, n);
    CollectEntries(outcome, Scenarios, n);
    ScenariosDistinct();
    CollectOrder(outcome, Scenarios, n);
  }

  /** A script result and an optimizer result with the same status, objective value and choices. */
  ghost predicate Matches(res: ScriptResult, opt: O.ScenarioResult, n: nat) {
    res.status == opt.status && res.objectiveValue == opt.objectiveValue &&
    SameChoices(res.decisions, opt.decisions, n, StartYear, EndYear)
  }

  /** The solver is handed the same problem by both, so what is read back matches. */
  lemma SolvedWithMatches(solver: Solver, dm: DataManager, cs: seq<Constraint>, s: string)
    requires ObjectiveSpec(dm, Config, s).Success?
    ensures O.ScenarioOutcome(solver, dm, Config, cs, s).Success?
    ensures Matches(SolvedWith(solver, dm, cs, ObjectiveSpec(dm, Config, s).value),
                    O.ScenarioOutcome(solver, dm, Config, cs, s).value, |dm.facilities|)
  {
    var obj := ObjectiveSpec(dm, Config, s).value;
    var out := solver(Problem(ScriptVars(dm), cs, obj));
    assert O.Vars(dm, Config) == ScriptVars(dm);
    IndicesAgreeWithNames(out.values, |dm.facilities|, StartYear, EndYear);
  }

  /**
   * With end years that are integers, as `Facility.endYear` is: whenever
   * the script gets through its solve loop, the optimizer run with the
   * script's settings on the same data returns results too, and each
   * scenario's entry matches the script's: same status, same objective
   * value, and the same technology chosen for every facility and year.
   */
  lemma ScriptAgreesWithOptimizer(solver: Solver, dm: DataManager, s: string)
    requires ResultsSpec(solver, dm).Success? && s in ResultsSpec(solver, dm).value.entries
    ensures O.SolveSpec(solver, dm, Config).Success? && s in O.SolveSpec(solver, dm, Config).value.entries
    ensures Matches(ResultsSpec(solver, dm).value.entries[s], O.SolveSpec(solver, dm, Config).value.entries[s], |dm.facilities|)
  {
    ScriptResultsPerScenario(solver, dm);
    ObjectivesSucceedIff(dm);
    O.SolveSucceedsIff(solver, dm, Config);
    O.ResultsPerScenario(solver, dm, Config);
    SolvedWithMatches(solver, dm, Structural(dm.facilities, StartYear, EndYear).value, s);
  }

  /** Choices recorded alike give paths that are both built with the same values, or both not built. */
  lemma SameChoicesSamePath(dm: DataManager, indices: IndexDecisions, names: Decisions)
    requires dm.Valid() && SameChoices(indices, names, |dm.facilities|, StartYear, EndYear)
    ensures Alike(PathFrom(dm, IndexedTech(indices), StartYear, EndYear + 1),
                  PathFrom(dm, Reporting.NamedTech(names), StartYear, EndYear + 1))
  {
    forall i, year | 0 <= i < |dm.facilities| && StartYear <= year < EndYear + 1
      ensures Alike(IndexedTech(indices)(i, year), Reporting.NamedTech(names)(i, year))
    {
    }
    PathSameReads(dm, IndexedTech(indices), Reporting.NamedTech(names), StartYear, EndYear + 1);
  }

  /** Two results dictionaries over SCENARIOS that record the same choices give alike emission paths. */
  lemma SameChoicesSamePaths(dm: DataManager, script: Dict<ScriptResult>, opt: Dict<O.ScenarioResult>)
    requires dm.Valid() && script.order == Scenarios && opt.order == Scenarios
    requires forall s :: s in Scenarios ==>
      s in script.entries && s in opt.entries &&
      SameChoices(script.entries[s].decisions, opt.entries[s].decisions, |dm.facilities|, StartYear, EndYear)
    ensures Alike(PathsSpec(dm, StartYear, EndYear, script, IndexTech), PathsSpec(dm, StartYear, EndYear, opt, Reporting.ResultTech))
  {
    var f := ScenarioPath(dm, StartYear, EndYear, script, IndexTech);
    var g := ScenarioPath(dm, StartYear, EndYear, opt, Reporting.ResultTech);
    forall j | 0 <= j < |Scenarios|
      ensures Alike(f(Scenarios[j]), g(Scenarios[j]))
    {
      var s := Scenarios[j];
      SameChoicesSamePath(dm, script.entries[s].decisions, opt.entries[s].decisions);
    }
    CollectAlike(f, g, Scenarios, |Scenarios|);
  }

  /**
   * With integer end years, the script's emission paths and the run
   * script's paths of the optimizer's results are both built, and then
   * equal, or both raise.
   */
  lemma ScriptPathsAgree(solver: Solver, dm: DataManager)
    requires dm.Valid() && ResultsSpec(solver, dm).Success?
    ensures O.SolveSpec(solver, dm, Config).Success?
    ensures Alike(PathsSpec(dm, StartYear, EndYear, ResultsSpec(solver, dm).value, IndexTech),
                  Reporting.ReportPaths(dm, Config, O.SolveSpec(solver, dm, Config).value))
  {
    var script := ResultsSpec(solver, dm).value;
    ScriptResultsPerScenario(solver, dm);
    ScriptAgreesWithOptimizer(solver, dm, Scenarios[0]);
    var opt := O.SolveSpec(solver, dm, Config).value;
    O.ResultsPerScenario(solver, dm, Config);
    ScenariosDistinct();
    forall s | s in Scenarios
      ensures s in script.entries && s in opt.entries
      ensures SameChoices(script.entries[s].decisions, opt.entries[s].decisions, |dm.facilities|, StartYear, EndYear)
    {
      ScriptAgreesWithOptimizer(solver, dm, s);
    }
    SameChoicesSamePaths(dm, script, opt);
  }

  /**
   * With a solver that keeps its promise, intensities for every year and
   * technology, and every scenario solved to Optimal, the script runs to
   * the end: every emission path is built.
   */
  lemma OptimalScriptCompletes(solver: Solver, dm: DataManager)
    requires Sound(solver) && dm.Valid() && Reporting.IntensitiesCover(dm, Config)
    requires ResultsSpec(solver, dm).Success?
    requires forall s :: s in ResultsSpec(solver, dm).value.entries ==> ResultsSpec(solver, dm).value.entries[s].status == Optimal
    ensures RunSpec(solver, dm).Success?
  {
    var script := ResultsSpec(solver, dm).value;
    ScriptPathsAgree(solver, dm);
    var opt := O.SolveSpec(solver, dm, Config).value;
    forall s | s in opt.entries
      ensures opt.entries[s].status == Optimal
    {
      O.ResultsPerScenario(solver, dm, Config);
      ScriptResultsPerScenario(solver, dm);
      ScriptAgreesWithOptimizer(solver, dm, s);
    }
    Reporting.OptimalRunHasPaths(solver, dm, Config);
  }
}
