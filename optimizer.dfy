/**
 * The Optimizer: one PuLP problem built once with its variables and its
 * structural constraints, then, scenario by scenario, a new objective, a
 * solve, and the status, objective value and decisions stored under the
 * scenario's name.
 */
module Optimizer {
  import opened Wrappers
  import opened Errors
  import opened Lp
  import opened Data
  import opened Model
  import opened Objective
  import opened Extraction
  import opened Dicts

  /** results[scenario] = {'status', 'objective_value', 'decisions'} */
  datatype ScenarioResult = ScenarioResult(status: Status, objectiveValue: Option<real>, decisions: Decisions)

  /** The declared variables for a data manager and a configuration. */
  function Vars(dm: DataManager, cfg: ModelConfig): seq<VarKey> {
    VariableKeys(|dm.facilities|, cfg.startYear, cfg.endYear)
  }

  /**
   * One scenario: build its objective, hand the problem with the structural
   * constraints `cs` to the solver, and read back the status, pulp.value of
   * the objective and the decisions.
   */
  function ScenarioOutcome(solver: Solver, dm: DataManager, cfg: ModelConfig, cs: seq<Constraint>, scenario: string)
    : Result<ScenarioResult, Error>
  {
    var obj :- ObjectiveSpec(dm, cfg, scenario);
    var out := solver(Problem(Vars(dm, cfg), cs, obj));
    Success(ScenarioResult(out.status, ObjectiveValue(out.values, obj),
      DecisionsOf(out.values, |dm.facilities|, cfg.startYear, cfg.endYear)))
  }

  /** The outcome of every scenario, with the structural constraints `cs`. */
  function Outcomes(solver: Solver, dm: DataManager, cfg: ModelConfig, cs: seq<Constraint>)
    : string -> Result<ScenarioResult, Error>
  {
    scenario => ScenarioOutcome(solver, dm, cfg, cs, scenario)
  }

  /**
   * `outcome` answers every scenario as ScenarioOutcome does. The trigger
   * keeps the scenario loop from unfolding ScenarioOutcome.
   */
  ghost predicate Tabulates(outcome: string -> Result<ScenarioResult, Error>, solver: Solver, dm: DataManager,
                            cfg: ModelConfig, cs: seq<Constraint>)
  {
    forall s {:trigger ScenarioOutcome(solver, dm, cfg, cs, s)} :: outcome(s) == ScenarioOutcome(solver, dm, cfg, cs, s)
  }

  /** `objectives` answers every scenario as ObjectiveSpec does. */
  ghost predicate TabulatesObjectives(objectives: string -> Result<seq<Term>, Error>, dm: DataManager, cfg: ModelConfig) {
    forall s {:trigger ObjectiveSpec(dm, cfg, s)} :: objectives(s) == ObjectiveSpec(dm, cfg, s)
  }

  lemma OutcomesTabulate(solver: Solver, dm: DataManager, cfg: ModelConfig, cs: seq<Constraint>)
    ensures Tabulates(Outcomes(solver, dm, cfg, cs), solver, dm, cfg, cs)
    ensures TabulatesObjectives(Objectives(dm, cfg), dm, cfg)
  {
  }

  /** The objective of every scenario. */
  function Objectives(dm: DataManager, cfg: ModelConfig): string -> Result<seq<Term>, Error> {
    scenario => ObjectiveSpec(dm, cfg, scenario)
  }

  /**
   * The problems handed to the solver, in order: one per scenario of the
   * list, each with the same variables and the same constraints, and the
   * objective of its own scenario.
   */
  ghost predicate HandedInOrder(log: seq<Problem>, objectives: string -> Result<seq<Term>, Error>,
                                vars: seq<VarKey>, cs: seq<Constraint>, scenarios: seq<string>)
  {
    |log| <= |scenarios| &&
    forall j :: 0 <= j < |log| ==>
      objectives(scenarios[j]).Success? && log[j] == Problem(vars, cs, objectives(scenarios[j]).value)
  }

  lemma HandedAppend(log: seq<Problem>, objectives: string -> Result<seq<Term>, Error>,
                     vars: seq<VarKey>, cs: seq<Constraint>, scenarios: seq<string>)
    requires HandedInOrder(log, objectives, vars, cs, scenarios) && |log| < |scenarios|
    requires objectives(scenarios[|log|]).Success?
    ensures HandedInOrder(log + [Problem(vars, cs, objectives(scenarios[|log|]).value)], objectives, vars, cs, scenarios)
  {
  }

  /** solve_for_scenarios: the structural constraints, then every scenario in order. */
  function SolveSpec(solver: Solver, dm: DataManager, cfg: ModelConfig): Result<Dict<ScenarioResult>, Error> {
    var cs :- Structural(dm.facilities, cfg.startYear, cfg.endYear);
    Collect(Outcomes(solver, dm, cfg, cs), cfg.scenarios, |cfg.scenarios|)
  }

  class Optimizer {
    const dm: DataManager
    const config: ModelConfig
    const technologies: seq<string>
    /** self.prob and self.x, which exist once solve_for_scenarios has run. */
    var prob: LpProblem?
    var x: seq<VarKey>

    constructor (dm: DataManager, config: ModelConfig)
      ensures this.dm == dm && this.config == config && technologies == Technologies
      ensures prob == null
    {
      this.dm := dm;
      this.config := config;
      technologies := Technologies;
      prob := null;
      x := [];
    }

    /**
     * Replace the objective with the scenario's, solve, and read back the
     * result. The constraints are left as they are; the solver is handed
     * exactly one problem, unless the objective cannot be built.
     */
    method SolveScenario(solver: Solver, ghost outcome: string -> Result<ScenarioResult, Error>,
                         ghost objectives: string -> Result<seq<Term>, Error>, scenario: string) returns (r: Result<ScenarioResult, Error>)
      requires dm.Valid() && prob != null && x == Vars(dm, config)
      requires Tabulates(outcome, solver, dm, config, prob.constraints) && TabulatesObjectives(objectives, dm, config)
      modifies prob
      ensures r == outcome(scenario) && (r.Success? <==> objectives(scenario).Success?)
      ensures prob.constraints == old(prob.constraints)
      ensures objectives(scenario).Success? ==> prob.objective == objectives(scenario).value
      ensures objectives(scenario).Failure? ==> prob.objective == old(prob.objective)
      ensures objectives(scenario).Failure? ==> prob.solveLog == old(prob.solveLog)
      ensures objectives(scenario).Success? ==>
        prob.solveLog == old(prob.solveLog) + [Problem(x, prob.constraints, objectives(scenario).value)]
    {
      ghost var expected := ScenarioOutcome(solver, dm, config, prob.constraints, scenario);
      ghost var objective := ObjectiveSpec(dm, config, scenario);
      var costExpr := BuildObjective(dm, config, x, scenario);
      if costExpr.Failure? {
        return Failure(costExpr.error);
      }
      prob.SetObjective(costExpr.value);
      prob.Solve(solver, x);
      var status := prob.status;
      var objectiveValue := ObjectiveValue(prob.values, prob.objective);
      var decisions := ExtractDecisions(prob.values, x, |dm.facilities|, config.startYear, config.endYear);
      r := Success(ScenarioResult(status, objectiveValue, decisions));
    }

    /**
     * solve_for_scenarios: a fresh problem with the variables and the
     * structural constraints, then one solve per scenario. The result is
     * SolveSpec; every problem handed to the solver carries the same
     * variables and the same structural constraints, and differs only in
     * the objective of its scenario.
     */
    method SolveForScenarios(solver: Solver) returns (r: Result<Dict<ScenarioResult>, Error>)
      requires dm.Valid()
      modifies this
      ensures r == SolveSpec(solver, dm, config)
      ensures prob != null && fresh(prob) && x == Vars(dm, config)
      ensures Structural(dm.facilities, config.startYear, config.endYear).Failure? ==> prob.solveLog == []
      ensures Structural(dm.facilities, config.startYear, config.endYear).Success? ==>
        prob.constraints == Structural(dm.facilities, config.startYear, config.endYear).value
      ensures HandedInOrder(prob.solveLog, Objectives(dm, config), x, prob.constraints, config.scenarios)
      ensures r.Success? ==> |prob.solveLog| == |config.scenarios|
    {
      var p := new LpProblem();
      prob := p;
      var n := |dm.facilities|;
      x := VariableKeys(n, config.startYear, config.endYear);
      var err := AddStructural(p, x, dm.facilities, config.startYear, config.endYear);
      if err.Some? {
        return Failure(err.value);
      }
      assert p.constraints == Structural(dm.facilities, config.startYear, config.endYear).value;
      OutcomesTabulate(solver, dm, config, p.constraints);
      r := SolveEach(solver, Outcomes(solver, dm, config, p.constraints), Objectives(dm, config), p.constraints);
    }

    /** The scenario loop of solve_for_scenarios, on a problem that holds the constraints `cs` and has not been solved. */
    method SolveEach(solver: Solver, ghost outcome: string -> Result<ScenarioResult, Error>,
                     ghost objectives: string -> Result<seq<Term>, Error>, ghost cs: seq<Constraint>) returns (r: Result<Dict<ScenarioResult>, Error>)
      requires dm.Valid() && prob != null && x == Vars(dm, config)
      requires prob.constraints == cs && prob.solveLog == []
      requires Tabulates(outcome, solver, dm, config, cs) && TabulatesObjectives(objectives, dm, config)
      modifies prob
      ensures r == Collect(outcome, config.scenarios, |config.scenarios|)
      ensures prob.constraints == cs
      ensures HandedInOrder(prob.solveLog, objectives, x, cs, config.scenarios)
      ensures r.Success? ==> |prob.solveLog| == |config.scenarios|
    {
      var results := Dict([], map[]);
      var k := 0;
      while k < |config.scenarios|
        invariant k <= |config.scenarios|
        invariant prob.constraints == cs
        invariant Collect(outcome, config.scenarios, k) == Success(results)
        invariant |prob.solveLog| == k && HandedInOrder(prob.solveLog, objectives, x, cs, config.scenarios)
      {
        var scenario := config.scenarios[k];
        ghost var log := prob.solveLog;
        var entry := SolveScenario(solver, outcome, objectives, scenario);
        CollectStep(outcome, config.scenarios, k, results);
        if entry.Failure? {
          CollectFailureStays(outcome, config.scenarios, k + 1, |config.scenarios|, entry.error);
          return Failure(entry.error);
        }
        HandedAppend(log, objectives, x, cs, config.scenarios);
        results := Insert(results, scenario, entry.value);
        k := k + 1;
      }
      r := Success(results);
    }
  }

  // ---------------------------------------------------------------------
  // What a run promises
  // ---------------------------------------------------------------------

  /** A scenario's outcome fails exactly when its objective cannot be built. */
  lemma ScenarioOutcomeSucceedsIff(solver: Solver, dm: DataManager, cfg: ModelConfig, cs: seq<Constraint>, scenario: string)
    ensures ScenarioOutcome(solver, dm, cfg, cs, scenario).Success? <==> ObjectiveSpec(dm, cfg, scenario).Success?
    ensures ObjectiveSpec(dm, cfg, scenario).Failure? ==>
      ScenarioOutcome(solver, dm, cfg, cs, scenario) == Failure(ObjectiveSpec(dm, cfg, scenario).error)
  {
  }

  /**
   * A run returns results exactly when the structural constraints can be
   * built and the objective of every listed scenario can be built.
   */
  lemma SolveSucceedsIff(solver: Solver, dm: DataManager, cfg: ModelConfig)
    ensures SolveSpec(solver, dm, cfg).Success? <==>
      Structural(dm.facilities, cfg.startYear, cfg.endYear).Success? &&
      forall j :: 0 <= j < |cfg.scenarios| ==> ObjectiveSpec(dm, cfg, cfg.scenarios[j]).Success?
  {
    var structural := Structural(dm.facilities, cfg.startYear, cfg.endYear);
    if structural.Success? {
      var outcome := Outcomes(solver, dm, cfg, structural.value);
      CollectSucceedsIff(outcome, cfg.scenarios, |cfg.scenarios|);
      forall j | 0 <= j < |cfg.scenarios|
        ensures outcome(cfg.scenarios[j]).Success? <==> ObjectiveSpec(dm, cfg, cfg.scenarios[j]).Success?
      {
        ScenarioOutcomeSucceedsIff(solver, dm, cfg, structural.value, cfg.scenarios[j]);
      }
    }
  }

  /**
   * The results hold one entry per listed scenario and no other, in the
   * order of the list when no scenario is listed twice, and the entry of a
   * scenario is the outcome of that scenario alone.
   */
  lemma ResultsPerScenario(solver: Solver, dm: DataManager, cfg: ModelConfig)
    requires SolveSpec(solver, dm, cfg).Success?
    ensures Structural(dm.facilities, cfg.startYear, cfg.endYear).Success?
    ensures SolveSpec(solver, dm, cfg).value.Valid()
    ensures forall s :: s in SolveSpec(solver, dm, cfg).value.entries <==> s in cfg.scenarios
    ensures forall s :: s in SolveSpec(solver, dm, cfg).value.entries ==>
      ScenarioOutcome(solver, dm, cfg, Structural(dm.facilities, cfg.startYear, cfg.endYear).value, s).Success? &&
      SolveSpec(solver, dm, cfg).value.entries[s] ==
      ScenarioOutcome(solver, dm, cfg, Structural(dm.facilities, cfg.startYear, cfg.endYear).value, s).value
    ensures (forall a, b :: 0 <= a < b < |cfg.scenarios| ==> cfg.scenarios[a] != cfg.scenarios[b]) ==>
      SolveSpec(solver, dm, cfg).value.order == cfg.scenarios
  {
    var cs := Structural(dm.facilities, cfg.startYear, cfg.endYear).value;
    var outcome := Outcomes(solver, dm, cfg, cs);
    var n := |cfg.scenarios|;
    CollectValid(outcome, cfg.scenarios, n);
    CollectEntries(outcome, cfg.scenarios, n);
    assert cfg.scenarios[..n] == cfg.scenarios;
    if forall a, b :: 0 <= a < b < n ==> cfg.scenarios[a] != cfg.scenarios[b] {
      CollectOrder(outcome, cfg.scenarios, n);
    }
  }

  /**
   * Two scenarios whose carbon prices agree in every year get the same
   * entry: the carbon price is the only input that depends on the scenario.
   */
  lemma SamePricesSameEntry(solver: Solver, dm: DataManager, cfg: ModelConfig, s: string, s': string)
    requires dm.Valid()
    requires SolveSpec(solver, dm, cfg).Success?
    requires s in SolveSpec(solver, dm, cfg).value.entries && s' in SolveSpec(solver, dm, cfg).value.entries
    requires forall y :: dm.CarbonPrice(y, s) == dm.CarbonPrice(y, s')
    ensures SolveSpec(solver, dm, cfg).value.entries[s] == SolveSpec(solver, dm, cfg).value.entries[s']
  {
    ResultsPerScenario(solver, dm, cfg);
    ObjectiveSamePrices(dm, cfg, s, s');
  }

  /**
   * With a solver that keeps its promise, an Optimal entry has an objective
   * value, a technology for every facility and year, and H2_HDRI_EAF in
   * every year from a facility's end year on.
   */
  lemma OptimalEntryComplete(solver: Solver, dm: DataManager, cfg: ModelConfig, s: string)
    requires Sound(solver) && dm.Valid()
    requires SolveSpec(solver, dm, cfg).Success? && s in SolveSpec(solver, dm, cfg).value.entries
    requires SolveSpec(solver, dm, cfg).value.entries[s].status == Optimal
    ensures SolveSpec(solver, dm, cfg).value.entries[s].objectiveValue.Some?
    ensures forall i, y :: 0 <= i < |dm.facilities| && cfg.startYear <= y <= cfg.endYear ==>
      (i, y) in SolveSpec(solver, dm, cfg).value.entries[s].decisions &&
      SolveSpec(solver, dm, cfg).value.entries[s].decisions[(i, y)].Some?
    ensures forall i, y :: 0 <= i < |dm.facilities| && dm.facilities[i].endYear <= y <= cfg.endYear ==>
      (i, y) in SolveSpec(solver, dm, cfg).value.entries[s].decisions &&
      SolveSpec(solver, dm, cfg).value.entries[s].decisions[(i, y)] == Some("H2_HDRI_EAF")
  {
    ResultsPerScenario(solver, dm, cfg);
    var n, start, end := |dm.facilities|, cfg.startYear, cfg.endYear;
    var cs := Structural(dm.facilities, start, end).value;
    ScenarioOutcomeSucceedsIff(solver, dm, cfg, cs, s);
    var obj := ObjectiveSpec(dm, cfg, s).value;
    var out := solver(Problem(Vars(dm, cfg), cs, obj));
    assert SolveSpec(solver, dm, cfg).value.entries[s] ==
      ScenarioResult(out.status, ObjectiveValue(out.values, obj), DecisionsOf(out.values, n, start, end));
    assert Binary(out.values, Vars(dm, cfg)) && Satisfies(out.values, cs);
    ObjectiveValueDefined(dm, cfg, s, out.values);
    SoundDecisions(dm.facilities, start, end, out.values);
  }

  /** Every decision of an entry that is not None names one of the four technologies. */
  lemma EntryNamesTechnologies(solver: Solver, dm: DataManager, cfg: ModelConfig, s: string)
    requires SolveSpec(solver, dm, cfg).Success? && s in SolveSpec(solver, dm, cfg).value.entries
    ensures forall i, y ::
      (i, y) in SolveSpec(solver, dm, cfg).value.entries[s].decisions &&
      SolveSpec(solver, dm, cfg).value.entries[s].decisions[(i, y)].Some? ==>
        SolveSpec(solver, dm, cfg).value.entries[s].decisions[(i, y)].value in Technologies
  {
    ResultsPerScenario(solver, dm, cfg);
    var cs := Structural(dm.facilities, cfg.startYear, cfg.endYear).value;
    ScenarioOutcomeSucceedsIff(solver, dm, cfg, cs, s);
    var obj := ObjectiveSpec(dm, cfg, s).value;
    var out := solver(Problem(Vars(dm, cfg), cs, obj));
    assert SolveSpec(solver, dm, cfg).value.entries[s].decisions ==
      DecisionsOf(out.values, |dm.facilities|, cfg.startYear, cfg.endYear);
    DecisionsNameTechnologies(out.values, |dm.facilities|, cfg.startYear, cfg.endYear);
  }
}
