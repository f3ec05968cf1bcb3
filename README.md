# Steel-transition MILP: problem construction, scenario loop and reporting

This project models in Dafny the scenario-batch engine of the POSCO
steel-transition optimisation. The engine has four parts:

- **The variables.** One binary variable x[i, t, y] per facility i,
  technology t and year y. The technologies are `BF_BOF`, `BF_BOF_scrap`,
  `BF_BOF_CCUS` and `H2_HDRI_EAF`.
- **The structural constraints.** Exactly one technology per facility and
  year. From each facility's end year on, `H2_HDRI_EAF` is forced.
- **One objective per carbon-price scenario.** Each coefficient is
  `(carbon cost − free-allowance offset + abatement cost)` discounted to
  the start year. It is built from four table lookups.
- **The scenario loop.** One problem object keeps its constraints. Each
  scenario replaces only the objective, then the problem is solved and
  the status, objective value and decisions are read back.

Two consumers of the results are modelled too: the per-scenario emission
path (sum over facilities of capacity × intensity of the chosen technology,
year by year) and the summary records of the run script.

The single-file script that predates the class (`test_past.py`) is modelled
side by side. It builds every objective before the first solve and stores
decisions as technology indices rather than names. It is proved to agree
with the class for integer end years:

- whenever the script gets through its solve loop, the optimizer run with
  the same settings returns results too;
- each scenario's entry has the same status and objective value;
- the same technology is chosen for every facility and year;
- the emission paths are equal, or both raise.

Modules:

- `Wrappers`: Option and Result.
- `Lp`: the problem, the solver as a function, and `LpProblem` as a class
  whose constraint list grows, whose objective is replaced, and whose ghost
  `solveLog` records every problem handed to the solver.
- `Errors`: one constructor per exception the model raises.
- `Data`: the tables and the four lookup helpers.
- `Counting`: occurrence counts in a sequence.
- `Model`: the variable index space and the two constraint families, with
  the loops that add them.
- `Objective`: discount factor, cost coefficient, the objective loops, and
  the proof that higher carbon prices never make a plan cheaper.
- `Extraction`: reading decisions back.
- `Dicts`: Python dicts filled in insertion order.
- `Optimizer`: the class and its scenario loop.
- `Paths`: emission-path aggregation.
- `Reporting`: `main/run_optimization.py`.
- `Past`: `test_past.py`.

The solver is a parameter: a function from the problem it is handed to a
status and an assignment. What the optimizer relies on is the predicate
`Lp.Sound`: when the status is Optimal, the values are binary on the
declared variables and satisfy every constraint of the problem.

A facility whose end year is before the start year gets no special
treatment. The forced-switch loop starts at that end year and looks up
`x[i, 3, end_year]`, a variable that was never created, so the run raises
KeyError (`Model.ForcedSpec`, `Model.ForcedFailsIff`).

## Model

| member | source | states |
|---|---|---|
| Data.FirstRowFinds | src/data_manager.py:36 | The row found is the first whose year equals the query; None means no row has the year. |
| Data.LookupAnswers | src/data_manager.py:31-67 | A lookup answers KeyError for an unknown column, ValueError when no row has the year, and otherwise the cell of the first row with that year. |
| Data.LookupSucceedsIff | src/data_manager.py:37-38 | A lookup succeeds exactly when the column exists and some row has the year; it never defaults. |
| Data.CarbonPriceAnswers | src/data_manager.py:31-39 | get_carbon_price reads the scenario column of the carbon price sheet, with the first-match and ValueError-on-miss behaviour. |
| Data.AllowRateAnswers | src/data_manager.py:41-49 | get_allow_rate reads column allow_rate, with the same behaviour. |
| Data.EmissionIntensityAnswers | src/data_manager.py:51-58 | get_emission_intensity is keyed by year row and technology column, and raises ValueError on a miss. |
| Data.MacAnswers | src/data_manager.py:60-67 | get_mac is keyed by year row and technology column, and raises ValueError on a miss. |
| Lp.ObjectiveValueSomeIff | src/optimizer.py:104 | pulp.value of the objective is defined exactly when every variable of the objective has a value. |
| Lp.LpProblem.constructor | src/optimizer.py:29 | A new problem has no constraints, no objective, status Not Solved, no values, and has not been handed to the solver; the script's single problem (test_past.py line 68) starts the same way. |
| Lp.LpProblem.AddConstraint | src/optimizer.py:56 | `prob += c` appends c and changes nothing else. |
| Lp.LpProblem.SetObjective | src/optimizer.py:100 | setObjective replaces the objective and changes neither the constraints nor the solve history. |
| Lp.LpProblem.Solve | src/optimizer.py:101 | solve hands the current variables, constraints and objective to the solver, keeps its answer and leaves constraints and objective as they were. |
| Model.VariableKeysLength | src/optimizer.py:43-49 | There are F·4·(end−start+1) variables. |
| Model.VariableKeysCount | src/optimizer.py:43-49 | Each (i, t, y) with 0 ≤ i < F, 0 ≤ t < 4 and start ≤ y ≤ end is declared exactly once, and nothing else is. |
| Model.VariableKeysSpace | src/optimizer.py:43-49 | A key is declared iff it is in the index space, the count is F·4·(end−start+1), and no key is declared twice. |
| Model.OneTechRowInjective | src/optimizer.py:56 | Two one-technology rows are equal exactly when they belong to the same (facility, year). |
| Model.OneTechLength | src/optimizer.py:53-56 | Family A holds F·(end−start+1) constraints. |
| Model.OneTechCount | src/optimizer.py:53-56 | Family A holds exactly one constraint Σ_t x[i,t,y] == 1 for each (i, y) of the horizon, and none for any other (i, y). |
| Model.OneTechShape | src/optimizer.py:53-56 | Every constraint of family A is the one-technology row of an in-range (i, y). |
| Model.ForcedFailsIff | src/optimizer.py:61-71 | Adding the forced switch raises KeyError exactly when some facility's end year is before the start year; the year is not clamped. |
| Model.ForcedFailureStays | src/optimizer.py:61-71 | Once a facility raises, the loop over facilities ends with that error. |
| Model.ForcedFacts | src/optimizer.py:61-71 | Every forced constraint fixes an in-range variable in a year at or after its facility's end year; each such year of each facility gets x[i,3,y]==1 and x[i,t,y]==0 for every t ≠ 3. |
| Model.ForcedYearsRows | src/optimizer.py:66-71 | Every row the year loop adds from the end year e on fixes an in-range variable of that facility in a year at or after e. |
| Model.ForcedYearInYears | src/optimizer.py:66-71 | The block of every year from e to the end is among the rows the year loop adds. |
| Model.ForcedYearsCover | src/optimizer.py:66-71 | Every year from e to the end gets x[i,3,y]==1 and x[i,t,y]==0 for each t ≠ 3. |
| Model.ForcedBlockForces | src/optimizer.py:67-71 | One forced year's block holds x[i,3,y]==1 and x[i,t,y]==0 for each t ≠ 3. |
| Model.AddOneTechConstraints | src/optimizer.py:53-56 | The nested loops append exactly family A and change nothing else of the problem. |
| Model.AddForcedSwitch | src/optimizer.py:61-71 | The loop appends exactly family B, or raises the error of the first facility that fails after appending the constraints of the facilities before it. |
| Model.AddForcedBlock | src/optimizer.py:67-71 | One forced year appends x[i,3,y]==1 and then x[i,t,y]==0 for t = 0, 1, 2, and every key is found in x. |
| Model.AddStructural | src/optimizer.py:53-71 | Both families are appended in order; the method fails exactly when Structural fails, with the same error. |
| Model.StructuralFeasible | src/optimizer.py:53-71 | Whenever the structural constraints can be built, the all-H2 assignment is binary and satisfies them. |
| Model.FixHolds | src/optimizer.py:67 | x[i,t,y] == v holds exactly when the variable has the value v. |
| Model.ForcedYearsAreH2 | src/optimizer.py:65-71 | Every assignment satisfying the constraints has x[i,3,y] = 1 and the other technologies at 0 in every forced year of every facility. |
| Objective.DiscountInverse | src/optimizer.py:81 | The discount factor times (1+r)^(y−start) is 1; the only error is ZeroDivisionError. |
| Objective.DiscountAtStart | src/optimizer.py:81 | The factor is 1 at the start year, whatever the rate. |
| Objective.DiscountZeroRate | src/optimizer.py:81 | With r = 0 the factor is 1 in every year. |
| Objective.DiscountFailsIff | src/optimizer.py:81 | The division fails exactly for r = −1 after the start year. |
| Objective.DiscountStep | src/optimizer.py:81 | For r > −1 the factor is positive and each year divides it once more by 1 + r. |
| Objective.NetCarbonCost | src/optimizer.py:87-96 | The coefficient equals (cap·emi·price·(1−allow) + cap·(bf_bof_int−emi)·mac)·discount. |
| Objective.NoAbatementAtBaseline | src/optimizer.py:92-94 | Measured against its own intensity the abatement term is zero, whatever the MAC. |
| Objective.CoefficientMonotoneInPrice | src/optimizer.py:88-96 | With non-negative capacity, intensity and discount and allow ≤ 1, a higher carbon price never lowers the coefficient. |
| Objective.DiscountedCostSucceedsIff | src/optimizer.py:84-96 | The coefficient is computed exactly when its five lookups succeed. |
| Objective.BaselineCoefficient | src/optimizer.py:92-96 | BF_BOF's coefficient is cap·emi·price·(1−allow)·discount: no abatement cost. |
| Objective.DiscountFailureCells | src/optimizer.py:81-97 | A discount factor that divides by zero is the error of the year's technology loop. |
| Objective.CellMonotoneInPrice | src/optimizer.py:81-96 | With non-negative capacity and intensities, allow ≤ 1 and a rate above −1, a coefficient computed under prices at least as high in the year is at least as large. |
| Objective.ObjectiveValueMonotone | src/optimizer.py:100-104 | Under non-negative values, an objective over the same variables with no larger coefficients has a value, and it is no larger. |
| Objective.ObjectiveMonotoneInPrice | src/optimizer.py:74-104 | Any binary plan costs at least as much under carbon prices that are at least as high in every year, whether the other scenario column or a different price sheet supplies them. |
| Objective.ObjectiveShape | src/optimizer.py:76-97 | A built objective holds one term per declared variable and no other, each with that variable's cost coefficient. |
| Objective.ObjectiveSucceedsIff | src/optimizer.py:76-97 | The objective can be built exactly when the coefficient of every declared variable can be computed. |
| Objective.ObjectiveValueDefined | src/optimizer.py:104 | Values for every declared variable give the built objective a value. |
| Objective.ObjectiveSamePrices | src/optimizer.py:84 | Two scenarios with the same carbon-price column get the same objective: the price is the only input that depends on the scenario. |
| Objective.BuildObjective | src/optimizer.py:76-97 | The loops return the objective of the scenario, or the first error its lookups or the discount raise. |
| Objective.AddFacilityTerms | src/optimizer.py:79-97 | The year loop of one facility returns that facility's terms or the first error. |
| Objective.AddYearTerms | src/optimizer.py:83-97 | The technology loop of one year returns its four terms or the first error. |
| Extraction.FirstOneFrom | src/optimizer.py:111-114 | The index found is the lowest from t whose variable is exactly 1, and None means no variable is 1. |
| Extraction.DecisionsOfEntries | src/optimizer.py:107-115 | The decisions hold one entry per (i, y) of the horizon and no other key. |
| Extraction.DecisionsNameTechnologies | src/optimizer.py:113 | Every decision that is not None names one of the four technologies. |
| Extraction.ChooseTech | src/optimizer.py:110-114 | The technology loop returns the name of the first technology whose variable is 1, or None. |
| Extraction.ExtractDecisions | src/optimizer.py:107-115 | The nested loops fill exactly the decisions of the values. |
| Extraction.ExactlyOneOfFour | src/optimizer.py:56 | Binary values satisfying a one-technology row have exactly one technology at 1. |
| Extraction.DecisionIsTheChosenTech | src/optimizer.py:107-115 | Under binary values satisfying the constraints, each (i, y) has exactly one technology at 1, and the decision is its name. |
| Extraction.ForcedDecisionIsH2 | src/optimizer.py:65-71 | Under values satisfying the constraints, the decision in every year from the end year on is H2_HDRI_EAF. |
| Extraction.SoundDecisions | src/optimizer.py:107-115 | Binary values satisfying the constraints decide a technology for every (i, y), and H2_HDRI_EAF from each end year on. |
| Dicts.InsertValid | src/optimizer.py:117 | `d[key] = value` keeps every key listed once and lists exactly the keys. |
| Dicts.CollectValid | src/optimizer.py:74-121 | A completed loop leaves a well-formed dict. |
| Dicts.CollectSucceedsIff | src/optimizer.py:74-121 | The loop completes exactly when no key raises. |
| Dicts.CollectEntries | src/optimizer.py:117-121 | A completed loop holds one entry per listed key and no other, each f(key). |
| Dicts.CollectOrder | src/optimizer.py:117-121 | With no key listed twice the keys come out in list order. |
| Dicts.CollectFailureStays | src/optimizer.py:74-121 | Once a key raises, the loop ends with that error. |
| Dicts.CollectAlike | test_past.py:170-182 | Two loops whose entries come out alike end alike. |
| Optimizer.Optimizer.constructor | src/optimizer.py:14-19 | The optimizer holds the data, the configuration and the fixed technology list. |
| Optimizer.Optimizer.SolveForScenarios | src/optimizer.py:21-123 | The result is the structural constraints then every scenario in order. Every problem handed to the solver has the same variables and constraints and differs only in its scenario's objective, one problem per scenario. |
| Optimizer.Optimizer.SolveScenario | src/optimizer.py:76-121 | A scenario replaces only the objective: on success the problem's objective is the scenario's, otherwise it is the old one, since the build raises before setObjective. The solver is handed exactly one problem, unless the objective cannot be built, and the constraints are unchanged. |
| Optimizer.Optimizer.SolveEach | src/optimizer.py:74-121 | The scenario loop fills the results in order, keeps the constraints, and logs one problem per scenario solved. |
| Optimizer.ScenarioOutcomeSucceedsIff | src/optimizer.py:74-121 | A scenario fails exactly when its objective cannot be built, with that error. |
| Optimizer.SolveSucceedsIff | src/optimizer.py:21-123 | A run returns results exactly when the constraints and every scenario's objective can be built. |
| Optimizer.ResultsPerScenario | src/optimizer.py:117-123 | One entry per listed scenario and no other, in list order when no scenario repeats; an entry is that scenario's outcome alone. |
| Optimizer.SamePricesSameEntry | src/optimizer.py:84 | Two scenarios with the same carbon prices get the same entry. |
| Optimizer.OptimalEntryComplete | src/optimizer.py:103-121 | With a sound solver an Optimal entry has an objective value, a technology for every (i, y), and H2_HDRI_EAF from each end year on. |
| Optimizer.EntryNamesTechnologies | src/optimizer.py:113 | Every decision of an entry that is not None names one of the four technologies. |
| Paths.YearTotalSucceedsIff | main/run_optimization.py:52-57 | A year's total is defined exactly when every facility has a technology with an intensity for the year. |
| Paths.UniformYearTotal | main/run_optimization.py:52-57 | When every facility runs the same technology the total is the combined capacity times its intensity. |
| Paths.PathSucceedsIff | main/run_optimization.py:50-58 | A path is built exactly when every year's total is defined. |
| Paths.PathShape | main/run_optimization.py:50-58 | A path lists (year, total) for every year from start to end, ascending, with the year's total. |
| Paths.YearEmission | main/run_optimization.py:52-57 | The accumulator starts at 0.0 and adds cap_i·intensity once per facility, or raises the first error. |
| Paths.EmissionPath | main/run_optimization.py:50-58 | The year loop returns the path or the first error. |
| Paths.YearTotalSameReads | main/run_optimization.py:52-57 | Technology readers that answer alike give alike year totals. |
| Paths.PathSameReads | main/run_optimization.py:50-58 | Technology readers that answer alike give alike paths. |
| Paths.EmissionPaths | main/run_optimization.py:44-59 | The loop over results.items() builds the paths dictionary or raises the first error. |
| Paths.EachPath | main/run_optimization.py:44-59 | The loop over results.items() fills the paths dictionary in results order, equal to the dict-filling specification, or stops at the first scenario whose path raises. |
| Paths.PathsPerScenario | main/run_optimization.py:44-59 | One path per scenario of the results, in the same order, each computed from that scenario's results alone. |
| Paths.MissingYearRaises | main/run_optimization.py:44-59 | A scenario with an undefined year total makes the paths fail. |
| Paths.PathsSucceedIff | main/run_optimization.py:44-59 | The paths are built exactly when every scenario's path is defined. |
| Reporting.PathCoversHorizon | main/run_optimization.py:50-58 | A path has end−start+1 pairs, year start+k at position k, with that year's total. |
| Reporting.MissingDecisionRaises | main/run_optimization.py:54 | An absent or None decision for an in-range (i, year) makes the report raise instead of skipping it. |
| Reporting.CompletePathDefined | main/run_optimization.py:50-58 | Decisions naming a technology for every (i, y) give a path when every technology has an intensity in every year. |
| Reporting.OptimalPathDefined | main/run_optimization.py:44-59 | With a sound solver, an Optimal scenario's path is built. |
| Reporting.OptimalRunHasPaths | main/run_optimization.py:44-59 | With a sound solver and every scenario Optimal, all paths are built. |
| Reporting.AllH2YearTotal | main/run_optimization.py:52-57 | A year in which every facility runs H2_HDRI_EAF totals the combined capacity times its intensity. |
| Reporting.RetiredYearEmission | main/run_optimization.py:52-57 | In a year at or after every end year, an Optimal scenario's total is the combined capacity times H2_HDRI_EAF's intensity. |
| Reporting.Summary | main/run_optimization.py:83-89 | The loop appends one record per scenario with its status and objective value, in results order. |
| Reporting.SummaryPerScenario | main/run_optimization.py:83-89 | The summary has one record per scenario, in scenario order, carrying that scenario's status and objective value. |
| Past.ScenariosDistinct | test_past.py:33 | The three scenario names are distinct. |
| Past.HelpersAnswer | test_past.py:38-61 | The four helpers answer the first matching row's cell, ValueError when no row has the year, KeyError for an unknown column. |
| Past.ScriptCoefficientAgrees | test_past.py:120-134 | allowance_offset = cap·emi·price·allow makes the coefficient equal to the optimizer's and to the net cost cap·emi·price·(1−allow) plus abatement. |
| Past.ScriptDiscountDefined | test_past.py:114 | At 5% the factor is defined and positive from 2024 on, and shrinks by 1.05 each year. |
| Past.BuildObjectives | test_past.py:105-137 | All objectives are built before any solve, one per scenario, or the first error. |
| Past.ObjectivesSucceedIff | test_past.py:108-137 | The objectives are built exactly when every scenario's cost expression can be built. |
| Past.IndicesAgreeWithNames | test_past.py:151-158 | The index dictionary has a key exactly where the class's decision is not None, only in range, holding the index of that technology. |
| Past.FirstOneIndex | test_past.py:155-158 | The technology loop stops at the index of the first variable equal to 1. |
| Past.ExtractIndices | test_past.py:151-158 | The nested loops fill the index of the first t with value 1, and leave the key out when there is none. |
| Past.SolveOne | test_past.py:140-164 | A scenario installs its objective with setObjective, solves once and reads back; an absent objective raises KeyError before any solve. |
| Past.SolveAll | test_past.py:140-164 | The solve loop fills the results in order and hands the solver one problem per scenario with the same constraints. |
| Past.Run | test_past.py:68-182 | The script from problem to emission paths. Structural constraints that cannot be built, or an objective that cannot be built, stop it before the solver is called. Otherwise the solver gets one problem per scenario, in order, with the same constraints. |
| Past.ResultsSucceedIff | test_past.py:105-164 | The solve loop completes exactly when the constraints and every objective can be built. |
| Past.ScriptResultsPerScenario | test_past.py:160-164 | One entry per scenario in SCENARIOS order, each the solve of that scenario's objective. |
| Past.SolvedWithMatches | test_past.py:140-164 | One solve of the script and of the class read back the same status and objective value, and the same choices. |
| Past.ScriptAgreesWithOptimizer | test_past.py:105-164 | For integer end years: when the script's loop completes, the class run with the same settings returns results whose entries match the script's. |
| Past.SameChoicesSamePath | test_past.py:173-181 | Decisions recording the same choices give the same path, or both raise. |
| Past.SameChoicesSamePaths | test_past.py:170-182 | Results recording the same choices give the same emission paths, or both raise. |
| Past.ScriptPathsAgree | test_past.py:170-182 | For integer end years: the script's emission paths equal those the run script computes from the class's results, or both raise. |
| Past.OptimalScriptCompletes | test_past.py:170-182 | With a sound solver, intensities for every year and technology, and every scenario Optimal, the whole script completes. |

## Left out

- The MILP solve (CBC) is a function parameter. It is taken to be
  deterministic: the same problem gets the same answer.
- Its promise for an Optimal status is the predicate `Lp.Sound`.
  Branch-and-bound and the LpStatus strings are not modelled, and the
  status is an enumeration.
- The solver call and PuLP's arithmetic never raise in the model. The real
  `prob.solve(...)` can raise a solver error, and PuLP rejects a NaN or
  infinite coefficient; neither is modelled.
- End years are integers in the model, so a blank or fractional end-year
  cell is not modelled, and there the script and the class part ways. The
  class calls `int(...)` first (src/optimizer.py:62), so a blank cell raises
  ValueError and 2050.5 forces the facility from 2050. The script compares
  the raw cell first (test_past.py:91-94): a blank cell (NaN) compares
  False, and so does 2050.5 <= END_YEAR with END_YEAR = 2050, so that
  facility's forced switch is silently skipped. The agreement lemmas
  (`Past.ScriptAgreesWithOptimizer`, `Past.ScriptPathsAgree`) hold for
  integer end years only.
- Reading the workbook, and the file-existence check, are not modelled.
  `DataManager.__init__` and `load_data` are I/O, so the tables are given
  as values.
- CSV writing, plotting and directory creation are output formatting and
  are not modelled.
- `src/utils.py` (logging) and `setup.py` (packaging) hold no logic.
- `src/model_config.py` is a plain record. It is the datatype
  `Model.ModelConfig`, without its defaults.
- `archive/tests/test_optimizer.py` is stale: it does not match the
  constructor or the result keys, so no property is taken from it.
- Floating point is modelled as exact `real` arithmetic. The `== 1` test on
  solver values is exact equality with 1.0.
- `Paths.ScenarioPathOf` answers KeyError for a scenario missing from the
  results. The dict is always valid, so that case never arises.
- A `None` decision in the run script reaches `get_emission_intensity` as
  the column None, which raises KeyError. The model raises it as
  `NoTechnology` before the lookup.
- `Past.IndexedTech` answers IndexError for an index of 4 or more. Indices
  come from the four-technology loop, so that case never arises.
