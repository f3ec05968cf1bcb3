/**
 * What the run script does with the optimizer's results: one emission path
 * per scenario, and one summary record per scenario with its status and
 * objective value. Writing CSV files and drawing plots is not modelled.
 */
module Reporting {
  import opened Wrappers
  import opened Errors
  import opened Lp
  import opened Data
  import opened Model
  import opened Objective
  import opened Extraction
  import opened Dicts
  import opened Paths
  import O = Optimizer

  /**
   * decisions[(i, year)] raises KeyError when the key is absent, and a
   * technology of None makes get_emission_intensity raise KeyError.
   */
  function NamedTech(decisions: Decisions): TechOf {
    (i: int, y: int) =>
      if (i, y) !in decisions then Failure(MissingDecision(i, y))
      else if decisions[(i, y)].None? then Failure(NoTechnology)
      else Success(decisions[(i, y)].value)
  }

  /** The technology reader of one scenario's results. */
  function ResultTech(res: O.ScenarioResult): TechOf {
    NamedTech(res.decisions)
  }

  /** scenario_emission_paths of the run script. */
  function ReportPaths(dm: DataManager, cfg: ModelConfig, results: Dict<O.ScenarioResult>): Result<Dict<Path>, Error> {
    PathsSpec(dm, cfg.startYear, cfg.endYear, results, ResultTech)
  }

  /** One summary row: 'Scenario', 'Status', 'Objective_Value'. */
  datatype SummaryRecord = SummaryRecord(scenario: string, status: Status, objectiveValue: Option<real>)

  /** summary_data: one record per scenario, in the order of results.items(). */
  function SummaryOf(results: Dict<O.ScenarioResult>): seq<SummaryRecord>
    requires results.Valid()
  {
    seq(|results.order|, k requires 0 <= k < |results.order| =>
      SummaryRecord(results.order[k], results.entries[results.order[k]].status,
                    results.entries[results.order[k]].objectiveValue))
  }

  /** The loop that appends one record per scenario. */
  method Summary(results: Dict<O.ScenarioResult>) returns (summaryData: seq<SummaryRecord>)
    requires results.Valid()
    ensures summaryData == SummaryOf(results)
  {
    summaryData := [];
    var k := 0;
    while k < |results.order|
      invariant k <= |results.order|
      invariant summaryData == SummaryOf(results)[..k]
    {
      var scenario := results.order[k];
      var res := results.entries[scenario];
      summaryData := summaryData + [SummaryRecord(scenario, res.status, res.objectiveValue)];
      k := k + 1;
    }
  }

  // ---------------------------------------------------------------------
  // What the report promises
  // ---------------------------------------------------------------------

  /**
   * A scenario's path lists (year, total) for every year of the horizon in
   * ascending order, the total being that year's sum over the facilities.
   */
  lemma PathCoversHorizon(dm: DataManager, cfg: ModelConfig, decisions: Decisions, path: Path)
    requires dm.Valid() && PathFrom(dm, NamedTech(decisions), cfg.startYear, cfg.endYear + 1) == Success(path)
    ensures |path| == Horizon(cfg.startYear, cfg.endYear)
    ensures forall k :: 0 <= k < |path| ==>
      path[k].0 == cfg.startYear + k &&
      YearTotal(dm, NamedTech(decisions), cfg.startYear + k, |dm.facilities|) == Success(path[k].1)
  {
    if cfg.startYear <= cfg.endYear {
      PathShape(dm, NamedTech(decisions), cfg.startYear, cfg.endYear + 1);
    }
  }

  /**
   * A facility and year of the horizon without a technology in some
   * scenario's decisions (no key, or None) makes the report fail: it is not
   * skipped.
   */
  lemma MissingDecisionRaises(dm: DataManager, cfg: ModelConfig, results: Dict<O.ScenarioResult>, s: string, i: int, y: int)
    requires dm.Valid() && results.Valid() && s in results.entries
    requires 0 <= i < |dm.facilities| && cfg.startYear <= y <= cfg.endYear
    requires (i, y) !in results.entries[s].decisions || results.entries[s].decisions[(i, y)].None?
    ensures ReportPaths(dm, cfg, results).Failure?
  {
    var tech := ResultTech(results.entries[s]);
    assert tech(i, y).Failure?;
    YearTotalSucceedsIff(dm, tech, y, |dm.facilities|);
    MissingYearRaises(dm, cfg.startYear, cfg.endYear, results, ResultTech, s, y);
  }

  /** tech_emission has a row for every year of the horizon and a column for every technology. */
  predicate IntensitiesCover(dm: DataManager, cfg: ModelConfig)
    requires dm.Valid()
  {
    forall y, t :: cfg.startYear <= y <= cfg.endYear && 0 <= t < NumTechs ==>
      dm.EmissionIntensity(y, Technologies[t]).Success?
  }

  /**
   * Decisions that name a technology for every facility and year of the
   * horizon give a path, when every technology has an intensity in every
   * year.
   */
  lemma CompletePathDefined(dm: DataManager, cfg: ModelConfig, decisions: Decisions)
    requires dm.Valid() && IntensitiesCover(dm, cfg)
    requires forall i, y :: 0 <= i < |dm.facilities| && cfg.startYear <= y <= cfg.endYear ==>
      (i, y) in decisions && decisions[(i, y)].Some? && decisions[(i, y)].value in Technologies
    ensures PathFrom(dm, NamedTech(decisions), cfg.startYear, cfg.endYear + 1).Success?
  {
    var n := |dm.facilities|;
    var tech := NamedTech(decisions);
    forall year | cfg.startYear <= year < cfg.endYear + 1
      ensures YearTotal(dm, tech, year, n).Success?
    {
      YearTotalSucceedsIff(dm, tech, year, n);
      forall i | 0 <= i < n
        ensures tech(i, year).Success? && dm.EmissionIntensity(year, tech(i, year).value).Success?
      {
        var t :| 0 <= t < |Technologies| && Technologies[t] == decisions[(i, year)].value;
        assert tech(i, year) == Success(Technologies[t]);
      }
    }
    PathSucceedsIff(dm, tech, cfg.startYear, cfg.endYear + 1);
  }

  /**
   * With a solver that keeps its promise and intensities for every
   * technology and year, the path of an Optimal scenario is defined: every
   * facility has a technology in every year.
   */
  lemma OptimalPathDefined(solver: Solver, dm: DataManager, cfg: ModelConfig, s: string)
    requires Sound(solver) && dm.Valid() && IntensitiesCover(dm, cfg)
    requires O.SolveSpec(solver, dm, cfg).Success? && s in O.SolveSpec(solver, dm, cfg).value.entries
    requires O.SolveSpec(solver, dm, cfg).value.entries[s].status == Optimal
    ensures PathFrom(dm, NamedTech(O.SolveSpec(solver, dm, cfg).value.entries[s].decisions), cfg.startYear, cfg.endYear + 1).Success?
  {
    O.OptimalEntryComplete(solver, dm, cfg, s);
    O.EntryNamesTechnologies(solver, dm, cfg, s);
    CompletePathDefined(dm, cfg, O.SolveSpec(solver, dm, cfg).value.entries[s].decisions);
  }

  /**
   * With a solver that keeps its promise and intensities for every
   * technology and year, a run whose every scenario is Optimal has an
   * emission path for every scenario.
   */
  lemma OptimalRunHasPaths(solver: Solver, dm: DataManager, cfg: ModelConfig)
    requires Sound(solver) && dm.Valid() && IntensitiesCover(dm, cfg)
    requires O.SolveSpec(solver, dm, cfg).Success?
    requires forall s :: s in O.SolveSpec(solver, dm, cfg).value.entries ==> O.SolveSpec(solver, dm, cfg).value.entries[s].status == Optimal
    ensures O.SolveSpec(solver, dm, cfg).value.Valid()
    ensures ReportPaths(dm, cfg, O.SolveSpec(solver, dm, cfg).value).Success?
  {
    var results := O.SolveSpec(solver, dm, cfg).value;
    O.ResultsPerScenario(solver, dm, cfg);
    forall s | s in results.entries
      ensures PathFrom(dm, ResultTech(results.entries[s]), cfg.startYear, cfg.endYear + 1).Success?
    {
      OptimalPathDefined(solver, dm, cfg, s);
    }
    PathsSucceedIff(dm, cfg.startYear, cfg.endYear, results, ResultTech);
  }

  /** A year in which every facility runs H2_HDRI_EAF emits the combined capacity times its intensity. */
  lemma AllH2YearTotal(dm: DataManager, decisions: Decisions, y: int)
    requires dm.Valid() && dm.EmissionIntensity(y, "H2_HDRI_EAF").Success?
    requires forall i :: 0 <= i < |dm.facilities| ==> (i, y) in decisions && decisions[(i, y)] == Some("H2_HDRI_EAF")
    ensures YearTotal(dm, NamedTech(decisions), y, |dm.facilities|).Success?
    ensures YearTotal(dm, NamedTech(decisions), y, |dm.facilities|).value ==
      Capacity(dm.facilities, |dm.facilities|) * dm.EmissionIntensity(y, "H2_HDRI_EAF").value
  {
    var tech := NamedTech(decisions);
    forall i | 0 <= i < |dm.facilities|
      ensures tech(i, y) == Success("H2_HDRI_EAF")
    {
    }
    UniformYearTotal(dm, tech, y, |dm.facilities|, "H2_HDRI_EAF");
  }

  /**
   * In a year in which every facility is at or after its end year, an
   * Optimal scenario runs H2_HDRI_EAF everywhere, so the year's total is
   * the combined capacity times H2_HDRI_EAF's intensity.
   */
  lemma RetiredYearEmission(solver: Solver, dm: DataManager, cfg: ModelConfig, s: string, y: int)
    requires Sound(solver) && dm.Valid()
    requires O.SolveSpec(solver, dm, cfg).Success? && s in O.SolveSpec(solver, dm, cfg).value.entries
    requires O.SolveSpec(solver, dm, cfg).value.entries[s].status == Optimal
    requires y <= cfg.endYear && forall i :: 0 <= i < |dm.facilities| ==> dm.facilities[i].endYear <= y
    requires dm.EmissionIntensity(y, "H2_HDRI_EAF").Success?
    ensures YearTotal(dm, NamedTech(O.SolveSpec(solver, dm, cfg).value.entries[s].decisions), y, |dm.facilities|).Success?
    ensures YearTotal(dm, NamedTech(O.SolveSpec(solver, dm, cfg).value.entries[s].decisions), y, |dm.facilities|).value ==
      Capacity(dm.facilities, |dm.facilities|) * dm.EmissionIntensity(y, "H2_HDRI_EAF").value
  {
    O.OptimalEntryComplete(solver, dm, cfg, s);
    AllH2YearTotal(dm, O.SolveSpec(solver, dm, cfg).value.entries[s].decisions, y);
  }

  /** summary_data lists the records of summaryData's scenarios in the order of the results. */
  lemma SummaryPerScenario(solver: Solver, dm: DataManager, cfg: ModelConfig)
    requires O.SolveSpec(solver, dm, cfg).Success?
    requires forall a, b :: 0 <= a < b < |cfg.scenarios| ==> cfg.scenarios[a] != cfg.scenarios[b]
    ensures O.SolveSpec(solver, dm, cfg).value.Valid()
    ensures |SummaryOf(O.SolveSpec(solver, dm, cfg).value)| == |cfg.scenarios|
    ensures Structural(dm.facilities, cfg.startYear, cfg.endYear).Success?
    ensures forall k :: 0 <= k < |cfg.scenarios| ==>
      var outcome := O.ScenarioOutcome(solver, dm, cfg, Structural(dm.facilities, cfg.startYear, cfg.endYear).value, cfg.scenarios[k]);
      outcome.Success? &&
      SummaryOf(O.SolveSpec(solver, dm, cfg).value)[k] ==
        SummaryRecord(cfg.scenarios[k], outcome.value.status, outcome.value.objectiveValue)
  {
    O.ResultsPerScenario(solver, dm, cfg);
  }
}
