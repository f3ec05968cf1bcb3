/**
 * Emission paths: for every year of the horizon, the sum over facilities
 * of capacity times the emission intensity of the technology chosen for
 * that facility and year, accumulated in a running total.
 */
module Paths {
  import opened Wrappers
  import opened Errors
  import opened Data
  import opened Dicts

  /** The technology chosen for (facility, year), or the error that reading it raises. */
  type TechOf = (int, int) -> Result<string, Error>

  /** A path: (year, total emissions) pairs. */
  type Path = seq<(int, real)>

  /**
   * total_emi after the first k facilities of a year: for each facility in
   * turn, its chosen technology, then get_emission_intensity, then the sum.
   */
  function YearTotal(dm: DataManager, tech: TechOf, year: int, k: nat): Result<real, Error>
    requires dm.Valid() && k <= |dm.facilities|
  {
    if k == 0 then Success(0.0)
    else
      var prev :- YearTotal(dm, tech, year, k - 1);
      var name :- tech(k - 1, year);
      var emi :- dm.EmissionIntensity(year, name);
      Success(prev + dm.facilities[k - 1].capacity * emi)
  }

  /** path_list for the years [start, y). */
  function PathFrom(dm: DataManager, tech: TechOf, start: int, y: int): Result<Path, Error>
    requires dm.Valid()
    decreases y - start
  {
    if y <= start then Success([])
    else
      var prev :- PathFrom(dm, tech, start, y - 1);
      var total :- YearTotal(dm, tech, y - 1, |dm.facilities|);
      Success(prev + [(y - 1, total)])
  }

  /** The combined capacity of the first k facilities. */
  function Capacity(facilities: seq<Facility>, k: nat): real
    requires k <= |facilities|
  {
    if k == 0 then 0.0 else Capacity(facilities, k - 1) + facilities[k - 1].capacity
  }

  // ---------------------------------------------------------------------
  // What a year's total and a path are
  // ---------------------------------------------------------------------

  /**
   * A year's total is defined exactly when every facility has a technology
   * and that technology has an intensity for the year.
   */
  lemma {:induction false} YearTotalSucceedsIff(dm: DataManager, tech: TechOf, year: int, k: nat)
    requires dm.Valid() && k <= |dm.facilities|
    ensures YearTotal(dm, tech, year, k).Success? <==>
      forall i :: 0 <= i < k ==>
        tech(i, year).Success? && dm.EmissionIntensity(year, tech(i, year).value).Success?
  {
    if k > 0 {
      YearTotalSucceedsIff(dm, tech, year, k - 1);
    }
  }

  /**
   * A year in which every facility runs the same technology emits the
   * combined capacity times that technology's intensity.
   */
  lemma {:induction false} UniformYearTotal(dm: DataManager, tech: TechOf, year: int, k: nat, name: string)
    requires dm.Valid() && k <= |dm.facilities|
    requires forall i :: 0 <= i < k ==> tech(i, year) == Success(name)
    requires dm.EmissionIntensity(year, name).Success?
    ensures YearTotal(dm, tech, year, k).Success?
    ensures YearTotal(dm, tech, year, k).value == Capacity(dm.facilities, k) * dm.EmissionIntensity(year, name).value
  {
    var emi := dm.EmissionIntensity(year, name).value;
    if k == 0 {
      assert Capacity(dm.facilities, 0) * emi == 0.0;
    } else {
      UniformYearTotal(dm, tech, year, k - 1, name);
      var cap := dm.facilities[k - 1].capacity;
      assert tech(k - 1, year) == Success(name);
      assert YearTotal(dm, tech, year, k).value == Capacity(dm.facilities, k - 1) * emi + cap * emi;
      assert Capacity(dm.facilities, k - 1) * emi + cap * emi == Capacity(dm.facilities, k) * emi;
    }
  }

  /** A path is defined exactly when every year's total is. */
  lemma {:induction false} PathSucceedsIff(dm: DataManager, tech: TechOf, start: int, y: int)
    requires dm.Valid()
    ensures PathFrom(dm, tech, start, y).Success? ==>
      forall year :: start <= year < y ==> YearTotal(dm, tech, year, |dm.facilities|).Success?
    ensures PathFrom(dm, tech, start, y).Failure? ==>
      exists year :: start <= year < y && YearTotal(dm, tech, year, |dm.facilities|).Failure?
    decreases y - start
  {
    if y > start {
      var before := y - 1;
      PathSucceedsIff(dm, tech, start, before);
      if PathFrom(dm, tech, start, before).Failure? {
        var bad :| start <= bad < before && YearTotal(dm, tech, bad, |dm.facilities|).Failure?;
        assert PathFrom(dm, tech, start, y).Failure?;
      } else if YearTotal(dm, tech, before, |dm.facilities|).Success? {
        assert PathFrom(dm, tech, start, y).Success?;
      } else {
        assert PathFrom(dm, tech, start, y).Failure?;
      }
    }
  }

  /** A path holds one pair per year in ascending order, each with that year's total. */
  lemma {:induction false} PathShape(dm: DataManager, tech: TechOf, start: int, y: int)
    requires dm.Valid() && start <= y && PathFrom(dm, tech, start, y).Success?
    ensures |PathFrom(dm, tech, start, y).value| == y - start
    ensures forall k :: 0 <= k < y - start ==>
      PathFrom(dm, tech, start, y).value[k].0 == start + k &&
      YearTotal(dm, tech, start + k, |dm.facilities|) == Success(PathFrom(dm, tech, start, y).value[k].1)
    decreases y - start
  {
    if y > start {
      PathShape(dm, tech, start, y - 1);
    }
  }

  /** One more year: its total is appended, or its error ends the path. */
  lemma PathStep(dm: DataManager, tech: TechOf, start: int, y: int, path: Path)
    requires dm.Valid() && start <= y && PathFrom(dm, tech, start, y) == Success(path)
    ensures YearTotal(dm, tech, y, |dm.facilities|).Failure? ==>
      PathFrom(dm, tech, start, y + 1) == Failure(YearTotal(dm, tech, y, |dm.facilities|).error)
    ensures YearTotal(dm, tech, y, |dm.facilities|).Success? ==>
      PathFrom(dm, tech, start, y + 1) == Success(path + [(y, YearTotal(dm, tech, y, |dm.facilities|).value)])
  {
  }

  // ---------------------------------------------------------------------
  // The loops
  // ---------------------------------------------------------------------

  lemma {:induction false} YearTotalFailureStays(dm: DataManager, tech: TechOf, year: int, k: nat, m: nat, err: Error)
    requires dm.Valid() && k <= m <= |dm.facilities| && YearTotal(dm, tech, year, k) == Failure(err)
    ensures YearTotal(dm, tech, year, m) == Failure(err)
    decreases m - k
  {
    if k < m {
      YearTotalFailureStays(dm, tech, year, k + 1, m, err);
    }
  }

  lemma {:induction false} PathFailureStays(dm: DataManager, tech: TechOf, start: int, y: int, m: int, err: Error)
    requires dm.Valid() && start <= y <= m && PathFrom(dm, tech, start, y) == Failure(err)
    ensures PathFrom(dm, tech, start, m) == Failure(err)
    decreases m - y
  {
    if y < m {
      PathFailureStays(dm, tech, start, y + 1, m, err);
    }
  }

  /** The facility loop of one year: total_emi starts at 0.0 and grows by cap_i * emi_int. */
  method YearEmission(dm: DataManager, tech: TechOf, year: int) returns (r: Result<real, Error>)
    requires dm.Valid()
    ensures r == YearTotal(dm, tech, year, |dm.facilities|)
  {
    var totalEmi := 0.0;
    var i := 0;
    while i < |dm.facilities|
      invariant i <= |dm.facilities|
      invariant YearTotal(dm, tech, year, i) == Success(totalEmi)
    {
      var chosenTech := tech(i, year);
      if chosenTech.Failure? {
        YearTotalFailureStays(dm, tech, year, i + 1, |dm.facilities|, chosenTech.error);
        return Failure(chosenTech.error);
      }
      var cap := dm.facilities[i].capacity;
      var emi := dm.EmissionIntensity(year, chosenTech.value);
      if emi.Failure? {
        YearTotalFailureStays(dm, tech, year, i + 1, |dm.facilities|, emi.error);
        return Failure(emi.error);
      }
      assert YearTotal(dm, tech, year, i + 1).Success?;
      assert YearTotal(dm, tech, year, i + 1).value == totalEmi + cap * emi.value;
      totalEmi := totalEmi + cap * emi.value;
      i := i + 1;
    }
    return Success(totalEmi);
  }

  /** The year loop: one (year, total) pair appended per year of [start, end]. */
  method EmissionPath(dm: DataManager, tech: TechOf, start: int, end: int) returns (r: Result<Path, Error>)
    requires dm.Valid()
    ensures r == PathFrom(dm, tech, start, end + 1)
  {
    var pathList: Path := [];
    var year := start;
    while year <= end
      invariant start <= year && (year <= end + 1 || year == start)
      invariant PathFrom(dm, tech, start, year) == Success(pathList)
    {
      var total := YearEmission(dm, tech, year);
      PathStep(dm, tech, start, year, pathList);
      if total.Failure? {
        PathFailureStays(dm, tech, start, year + 1, end + 1, total.error);
        return Failure(total.error);
      }
      pathList := pathList + [(year, total.value)];
      year := year + 1;
    }
    return Success(pathList);
  }

  // ---------------------------------------------------------------------
  // Technology readers that agree
  // ---------------------------------------------------------------------

  /**
   * Two technology readers that answer alike for every facility and year
   * give the same year totals, and so the same path.
   */
  lemma {:induction false} YearTotalSameReads(dm: DataManager, tech: TechOf, tech': TechOf, year: int, k: nat)
    requires dm.Valid() && k <= |dm.facilities|
    requires forall i :: 0 <= i < k ==> Alike(tech(i, year), tech'(i, year))
    ensures Alike(YearTotal(dm, tech, year, k), YearTotal(dm, tech', year, k))
  {
    if k > 0 {
      YearTotalSameReads(dm, tech, tech', year, k - 1);
    }
  }

  lemma {:induction false} PathSameReads(dm: DataManager, tech: TechOf, tech': TechOf, start: int, y: int)
    requires dm.Valid()
    requires forall i, year :: 0 <= i < |dm.facilities| && start <= year < y ==> Alike(tech(i, year), tech'(i, year))
    ensures Alike(PathFrom(dm, tech, start, y), PathFrom(dm, tech', start, y))
    decreases y - start
  {
    if y > start {
      PathSameReads(dm, tech, tech', start, y - 1);
      YearTotalSameReads(dm, tech, tech', y - 1, |dm.facilities|);
    }
  }

  // ---------------------------------------------------------------------
  // One path per scenario of a results dictionary
  // ---------------------------------------------------------------------

  /**
   * The path of one scenario of the results, read through `techOf`; a
   * scenario without results reads as a KeyError.
   */
  function ScenarioPathOf<R>(dm: DataManager, start: int, end: int, results: Dict<R>, techOf: R -> TechOf, scenario: string)
    : Result<Path, Error>
  {
    if dm.Valid() && scenario in results.entries
    then PathFrom(dm, techOf(results.entries[scenario]), start, end + 1)
    else Failure(MissingScenario(scenario))
  }

  /** The path of every scenario. */
  function ScenarioPath<R>(dm: DataManager, start: int, end: int, results: Dict<R>, techOf: R -> TechOf)
    : string -> Result<Path, Error>
  {
    scenario => ScenarioPathOf(dm, start, end, results, techOf, scenario)
  }

  /**
   * `pathOf` answers every scenario as ScenarioPathOf does. The trigger
   * keeps the scenario loop from unfolding ScenarioPathOf.
   */
  ghost predicate TabulatesPaths<R>(pathOf: string -> Result<Path, Error>, dm: DataManager, start: int, end: int,
                                    results: Dict<R>, techOf: R -> TechOf)
  {
    forall s {:trigger ScenarioPathOf(dm, start, end, results, techOf, s)} ::
      pathOf(s) == ScenarioPathOf(dm, start, end, results, techOf, s)
  }

  lemma ScenarioPathTabulates<R>(dm: DataManager, start: int, end: int, results: Dict<R>, techOf: R -> TechOf)
    ensures TabulatesPaths(ScenarioPath(dm, start, end, results, techOf), dm, start, end, results, techOf)
  {
  }

  /** The emission paths dictionary, filled in the order of results.items(). */
  function PathsSpec<R>(dm: DataManager, start: int, end: int, results: Dict<R>, techOf: R -> TechOf)
    : Result<Dict<Path>, Error>
  {
    Collect(ScenarioPath(dm, start, end, results, techOf), results.order, |results.order|)
  }

  /** The loop over results.items() that builds the emission paths dictionary. */
  method EmissionPaths<R>(dm: DataManager, start: int, end: int, results: Dict<R>, techOf: R -> TechOf)
    returns (r: Result<Dict<Path>, Error>)
    requires dm.Valid() && results.Valid()
    ensures r == PathsSpec(dm, start, end, results, techOf)
  {
    ScenarioPathTabulates(dm, start, end, results, techOf);
    r := EachPath(dm, start, end, results, techOf, ScenarioPath(dm, start, end, results, techOf));
  }

  /** The body of that loop, with the path of every scenario given as `pathOf`. */
  method EachPath<R>(dm: DataManager, start: int, end: int, results: Dict<R>, techOf: R -> TechOf,
                     ghost pathOf: string -> Result<Path, Error>) returns (r: Result<Dict<Path>, Error>)
    requires dm.Valid() && results.Valid() && TabulatesPaths(pathOf, dm, start, end, results, techOf)
    ensures r == Collect(pathOf, results.order, |results.order|)
  {
    var paths := Dict([], map[]);
    var k := 0;
    while k < |results.order|
      invariant k <= |results.order|
      invariant Collect(pathOf, results.order, k) == Success(paths)
    {
      var scenario := results.order[k];
      var res := results.entries[scenario];
      var pathList := EmissionPath(dm, techOf(res), start, end);
      assert pathOf(scenario) == pathList by {
        assert pathOf(scenario) == ScenarioPathOf(dm, start, end, results, techOf, scenario);
      }
      CollectStep(pathOf, results.order, k, paths);
      if pathList.Failure? {
        CollectFailureStays(pathOf, results.order, k + 1, |results.order|, pathList.error);
        return Failure(pathList.error);
      }
      paths := Insert(paths, scenario, pathList.value);
      k := k + 1;
    }
    return Success(paths);
  }

  /**
   * There is one path per scenario of the results, in the same order, and
   * the path of a scenario is computed from that scenario's results alone.
   */
  lemma PathsPerScenario<R>(dm: DataManager, start: int, end: int, results: Dict<R>, techOf: R -> TechOf)
    requires dm.Valid() && results.Valid() && PathsSpec(dm, start, end, results, techOf).Success?
    ensures forall s :: s in PathsSpec(dm, start, end, results, techOf).value.entries <==> s in results.entries
    ensures PathsSpec(dm, start, end, results, techOf).value.order == results.order
    ensures forall s :: s in PathsSpec(dm, start, end, results, techOf).value.entries ==>
      PathFrom(dm, techOf(results.entries[s]), start, end + 1).Success? &&
      PathsSpec(dm, start, end, results, techOf).value.entries[s] == PathFrom(dm, techOf(results.entries[s]), start, end + 1).value
  {
    var pathOf := ScenarioPath(dm, start, end, results, techOf);
    var n := |results.order|;
    CollectEntries(pathOf, results.order, n);
    CollectOrder(pathOf, results.order, n);
    assert results.order[..n] == results.order;
  }

  /** The path of a scenario whose results fail to give some (facility, year) of the horizon a total is not built. */
  lemma MissingYearRaises<R>(dm: DataManager, start: int, end: int, results: Dict<R>, techOf: R -> TechOf, s: string, y: int)
    requires dm.Valid() && results.Valid() && s in results.entries && start <= y <= end
    requires YearTotal(dm, techOf(results.entries[s]), y, |dm.facilities|).Failure?
    ensures PathsSpec(dm, start, end, results, techOf).Failure?
  {
    PathSucceedsIff(dm, techOf(results.entries[s]), start, end + 1);
    var pathOf := ScenarioPath(dm, start, end, results, techOf);
    var j :| 0 <= j < |results.order| && results.order[j] == s;
    CollectSucceedsIff(pathOf, results.order, |results.order|);
    assert pathOf(results.order[j]).Failure?;
  }

  /** Every scenario's path is built exactly when every scenario's path is defined. */
  lemma PathsSucceedIff<R>(dm: DataManager, start: int, end: int, results: Dict<R>, techOf: R -> TechOf)
    requires dm.Valid() && results.Valid()
    ensures PathsSpec(dm, start, end, results, techOf).Success? <==>
      forall s :: s in results.entries ==> PathFrom(dm, techOf(results.entries[s]), start, end + 1).Success?
  {
    var pathOf := ScenarioPath(dm, start, end, results, techOf);
    CollectSucceedsIff(pathOf, results.order, |results.order|);
    if !PathsSpec(dm, start, end, results, techOf).Success? {
      var j :| 0 <= j < |results.order| && pathOf(results.order[j]).Failure?;
      assert results.order[j] in results.entries;
    }
  }
}
