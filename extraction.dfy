/**
 * Reading the decisions back after a solve: for every (facility, year) the
 * first technology, in list order, whose variable has the value 1.
 */
module Extraction {
  import opened Wrappers
  import opened Lp
  import opened Data
  import opened Counting
  import opened Model

  /** pulp.value(x[i, t, y]) == 1; a variable without a value reads as None, which is not 1. */
  predicate IsOne(values: Assignment, k: VarKey) {
    k in values && values[k] == 1.0
  }

  /** The first technology index t' in [t, 4) whose variable x[i, t', y] is 1. */
  function FirstOneFrom(values: Assignment, i: int, y: int, t: nat): (r: Option<nat>)
    requires t <= NumTechs
    ensures r.Some? ==> t <= r.value < NumTechs && IsOne(values, VarKey(i, r.value, y))
    ensures r.Some? ==> forall t' :: t <= t' < r.value ==> !IsOne(values, VarKey(i, t', y))
    ensures r.None? ==> forall t' :: t <= t' < NumTechs ==> !IsOne(values, VarKey(i, t', y))
    decreases NumTechs - t
  {
    if t == NumTechs then None
    else if IsOne(values, VarKey(i, t, y)) then Some(t)
    else FirstOneFrom(values, i, y, t + 1)
  }

  /** The index the technology loop stops at, if any. */
  function FirstOne(values: Assignment, i: int, y: int): Option<nat> {
    FirstOneFrom(values, i, y, 0)
  }

  /** decisions[(i, y)]: the name of the first technology whose variable is 1, or None. */
  function DecisionOf(values: Assignment, i: int, y: int): Option<string> {
    match FirstOne(values, i, y)
    case None => None
    case Some(t) => Some(Technologies[t])
  }

  /** The decisions dictionary, keyed by (facility, year). */
  type Decisions = map<(int, int), Option<string>>

  /** The dictionary the extraction loops fill: one entry per (facility, year) of the horizon. */
  function DecisionsOf(values: Assignment, n: nat, start: int, end: int): Decisions {
    map i, y | 0 <= i < n && start <= y <= end :: (i, y) := DecisionOf(values, i, y)
  }

  /** One entry per (facility, year) of the horizon and no other, each the decision read from the values. */
  lemma DecisionsOfEntries(values: Assignment, n: nat, start: int, end: int)
    ensures forall i, y :: (i, y) in DecisionsOf(values, n, start, end) <==> 0 <= i < n && start <= y <= end
    ensures forall i, y :: (i, y) in DecisionsOf(values, n, start, end) ==>
      DecisionsOf(values, n, start, end)[(i, y)] == DecisionOf(values, i, y)
  {
  }

  /** Every decision that is not None names one of the four technologies. */
  lemma DecisionsNameTechnologies(values: Assignment, n: nat, start: int, end: int)
    ensures forall i, y :: (i, y) in DecisionsOf(values, n, start, end) && DecisionsOf(values, n, start, end)[(i, y)].Some? ==>
      DecisionsOf(values, n, start, end)[(i, y)].value in Technologies
  {
    DecisionsOfEntries(values, n, start, end);
    forall i, y | (i, y) in DecisionsOf(values, n, start, end) && DecisionOf(values, i, y).Some?
      ensures DecisionOf(values, i, y).value in Technologies
    {
      assert DecisionOf(values, i, y).value == Technologies[FirstOne(values, i, y).value];
    }
  }

  /** The technology loop for one (i, y), leaving it at the first variable equal to 1. */
  method ChooseTech(values: Assignment, x: seq<VarKey>, n: nat, start: int, end: int, i: int, y: int)
    returns (chosen: Option<string>)
    requires x == VariableKeys(n, start, end) && 0 <= i < n && start <= y <= end
    ensures chosen == DecisionOf(values, i, y)
  {
    VariableKeysSpace(n, start, end);
    chosen := None;
    var t: nat := 0;
    while t < NumTechs
      invariant t <= NumTechs
      invariant chosen == None
      invariant FirstOne(values, i, y) == FirstOneFrom(values, i, y, t)
    {
      assert VarKey(i, t, y) in x by {
        assert InSpace(VarKey(i, t, y), n, start, end);
      }
      if VarKey(i, t, y) in values && values[VarKey(i, t, y)] == 1.0 {
        chosen := Some(Technologies[t]);
        break;
      }
      t := t + 1;
    }
  }

  /**
   * The nested loops that fill decisions: an entry for every (i, y) of the
   * horizon and no other key, each the decision read from the values.
   */
  method ExtractDecisions(values: Assignment, x: seq<VarKey>, n: nat, start: int, end: int)
    returns (decisions: Decisions)
    requires x == VariableKeys(n, start, end)
    ensures decisions == DecisionsOf(values, n, start, end)
  {
    decisions := map[];
    var i := 0;
    while i < n
      invariant 0 <= i <= n
      invariant forall i', y' :: (i', y') in decisions <==> 0 <= i' < i && start <= y' <= end
      invariant forall i', y' :: (i', y') in decisions ==> decisions[(i', y')] == DecisionOf(values, i', y')
    {
      var y := start;
      while y <= end
        invariant start <= y && (y <= end + 1 || y == start)
        invariant forall i', y' :: (i', y') in decisions <==>
          (0 <= i' < i && start <= y' <= end) || (i' == i && start <= y' < y)
        invariant forall i', y' :: (i', y') in decisions ==> decisions[(i', y')] == DecisionOf(values, i', y')
      {
        var chosen := ChooseTech(values, x, n, start, end, i, y);
        decisions := decisions[(i, y) := chosen];
        y := y + 1;
      }
      i := i + 1;
    }
    DecisionsExtensional(decisions, values, n, start, end);
  }

  /** A dictionary with the keys and the entries of DecisionsOf is DecisionsOf. */
  lemma DecisionsExtensional(d: Decisions, values: Assignment, n: nat, start: int, end: int)
    requires forall i, y :: (i, y) in d <==> 0 <= i < n && start <= y <= end
    requires forall i, y :: (i, y) in d ==> d[(i, y)] == DecisionOf(values, i, y)
    ensures d == DecisionsOf(values, n, start, end)
  {
    var spec := DecisionsOf(values, n, start, end);
    DecisionsOfEntries(values, n, start, end);
    forall p: (int, int)
      ensures p in d <==> p in spec
    {
      var (a, b) := p;
      assert (a, b) in d <==> (a, b) in spec;
    }
  }

  // ---------------------------------------------------------------------
  // What an optimal solution decides
  // ---------------------------------------------------------------------

  /** Four 0/1 values that add up to 1: one of them is 1 and the others are 0. */
  lemma OneOfFour(a: real, b: real, c: real, d: real) returns (t: nat)
    requires a == 0.0 || a == 1.0
    requires b == 0.0 || b == 1.0
    requires c == 0.0 || c == 1.0
    requires d == 0.0 || d == 1.0
    requires a + b + c + d == 1.0
    ensures t < NumTechs
    ensures (a == 1.0) == (t == 0) && (b == 1.0) == (t == 1) && (c == 1.0) == (t == 2) && (d == 1.0) == (t == 3)
  {
    if a == 1.0 {
      t := 0;
    } else if b == 1.0 {
      t := 1;
    } else if c == 1.0 {
      t := 2;
    } else {
      t := 3;
    }
  }

  /** Binary values on the four variables of (i, y) that satisfy its one-technology row: exactly one is 1. */
  lemma ExactlyOneOfFour(values: Assignment, i: int, y: int) returns (t: nat)
    requires Binary(values, TechVars(i, y))
    requires Holds(values, OneTechRow(i, y))
    ensures t < NumTechs && IsOne(values, VarKey(i, t, y))
    ensures forall t' :: 0 <= t' < NumTechs && t' != t ==> !IsOne(values, VarKey(i, t', y))
  {
    var a, b, c, d := values[VarKey(i, 0, y)], values[VarKey(i, 1, y)], values[VarKey(i, 2, y)], values[VarKey(i, 3, y)];
    TechVarsSumOf(values, i, y);
    t := OneOfFour(a, b, c, d);
  }

  /**
   * Under binary values that satisfy the structural constraints, every
   * (facility, year) of the horizon has exactly one technology at 1, and the
   * decision read back is that technology's name.
   */
  lemma DecisionIsTheChosenTech(facilities: seq<Facility>, start: int, end: int, values: Assignment, i: int, y: int)
    requires Structural(facilities, start, end).Success?
    requires Binary(values, VariableKeys(|facilities|, start, end))
    requires Satisfies(values, Structural(facilities, start, end).value)
    requires 0 <= i < |facilities| && start <= y <= end
    ensures exists t ::
      0 <= t < NumTechs && IsOne(values, VarKey(i, t, y)) &&
      (forall t' :: 0 <= t' < NumTechs && t' != t ==> !IsOne(values, VarKey(i, t', y))) &&
      DecisionOf(values, i, y) == Some(Technologies[t])
  {
    var n := |facilities|;
    VariableKeysSpace(n, start, end);
    OneTechCount(n, start, end, i, y);
    CountPositive(OneTechConstraints(n, start, end), OneTechRow(i, y));
    assert OneTechRow(i, y) in Structural(facilities, start, end).value;
    forall v | v in TechVars(i, y)
      ensures v in values && (values[v] == 0.0 || values[v] == 1.0)
    {
      assert InSpace(v, n, start, end);
    }
    var t := ExactlyOneOfFour(values, i, y);
    var r := FirstOne(values, i, y);
    assert r == Some(t);
  }

  /**
   * Under values that satisfy the structural constraints, the decision in
   * every year from a facility's end year on is H2_HDRI_EAF.
   */
  lemma ForcedDecisionIsH2(facilities: seq<Facility>, start: int, end: int, values: Assignment, i: int, y: int)
    requires Structural(facilities, start, end).Success?
    requires Satisfies(values, Structural(facilities, start, end).value)
    requires 0 <= i < |facilities| && facilities[i].endYear <= y <= end
    ensures DecisionOf(values, i, y) == Some("H2_HDRI_EAF")
  {
    ForcedYearsAreH2(facilities, start, end, values);
    assert !IsOne(values, VarKey(i, 0, y)) && !IsOne(values, VarKey(i, 1, y)) && !IsOne(values, VarKey(i, 2, y));
    assert FirstOne(values, i, y) == Some(H2Index);
  }

  /**
   * Binary values that satisfy the structural constraints decide a
   * technology for every (facility, year) of the horizon, and H2_HDRI_EAF
   * from a facility's end year on.
   */
  lemma SoundDecisions(facilities: seq<Facility>, start: int, end: int, values: Assignment)
    requires Structural(facilities, start, end).Success?
    requires Binary(values, VariableKeys(|facilities|, start, end))
    requires Satisfies(values, Structural(facilities, start, end).value)
    ensures forall i, y :: 0 <= i < |facilities| && start <= y <= end ==>
      (i, y) in DecisionsOf(values, |facilities|, start, end) && DecisionsOf(values, |facilities|, start, end)[(i, y)].Some?
    ensures forall i, y :: 0 <= i < |facilities| && facilities[i].endYear <= y <= end ==>
      (i, y) in DecisionsOf(values, |facilities|, start, end) &&
      DecisionsOf(values, |facilities|, start, end)[(i, y)] == Some("H2_HDRI_EAF")
  {
    var n := |facilities|;
    DecisionsOfEntries(values, n, start, end);
    forall i, y | 0 <= i < n && start <= y <= end
      ensures DecisionOf(values, i, y).Some?
    {
      DecisionIsTheChosenTech(facilities, start, end, values, i, y);
    }
    forall i, y | 0 <= i < n && facilities[i].endYear <= y <= end
      ensures (i, y) in DecisionsOf(values, n, start, end) && DecisionsOf(values, n, start, end)[(i, y)] == Some("H2_HDRI_EAF")
    {
      ForcedDecisionIsH2(facilities, start, end, values, i, y);
      ForcedFailsIff(facilities, start, end, n);
      assert ForcedSpec(facilities, start, end, n).Success?;
      assert start <= facilities[i].endYear;
    }
  }
}
