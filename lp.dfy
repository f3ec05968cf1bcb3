/**
 * The slice of the PuLP modelling library that the optimizer relies on:
 * binary variables keyed by (facility, technology, year), equality
 * constraints over sums of variables, a linear objective, and one mutable
 * problem object that collects constraints, has its objective replaced and
 * is handed to an external MILP solver.
 */
module Lp {
  import opened Wrappers

  /** The key of one decision variable x[i, t, y]. */
  datatype VarKey = VarKey(facility: int, tech: int, year: int)

  /** The constraint lpSum(vars) == rhs. */
  datatype Constraint = Constraint(vars: seq<VarKey>, rhs: real)

  /** One summand coef * x[key] of a linear objective. */
  datatype Term = Term(coef: real, key: VarKey)

  /** The value the solver gave each variable; a key without a value reads as None. */
  type Assignment = map<VarKey, real>

  /** pulp.LpStatus: Not Solved, Optimal, Infeasible, Unbounded, Undefined. */
  datatype Status = NotSolved | Optimal | Infeasible | Unbounded | Undefined

  /** What the solver is handed: the binary variables, the constraints and the objective. */
  datatype Problem = Problem(vars: seq<VarKey>, constraints: seq<Constraint>, objective: seq<Term>)

  /** What the solver hands back. */
  datatype Outcome = Outcome(status: Status, values: Assignment)

  /** The external MILP engine (CBC), seen as a function of the problem it is given. */
  type Solver = Problem -> Outcome

  predicate HasValues(values: Assignment, vars: seq<VarKey>) {
    forall v :: v in vars ==> v in values
  }

  /** The value of lpSum(vars) under an assignment that gives every variable a value. */
  function SumOf(values: Assignment, vars: seq<VarKey>): real
    requires HasValues(values, vars)
  {
    if vars == [] then 0.0
    else SumOf(values, vars[..|vars| - 1]) + values[vars[|vars| - 1]]
  }

  predicate Holds(values: Assignment, c: Constraint) {
    HasValues(values, c.vars) && SumOf(values, c.vars) == c.rhs
  }

  predicate Satisfies(values: Assignment, cs: seq<Constraint>) {
    forall c :: c in cs ==> Holds(values, c)
  }

  /** Every listed variable has the value 0 or 1. */
  predicate Binary(values: Assignment, vars: seq<VarKey>) {
    forall v :: v in vars ==> v in values && (values[v] == 0.0 || values[v] == 1.0)
  }

  /**
   * What the optimizer assumes of the external solver: when it reports
   * Optimal, its values are binary on the declared variables and satisfy
   * every constraint of the problem it was given.
   */
  ghost predicate Sound(solver: Solver) {
    forall p :: solver(p).status == Optimal ==>
      Binary(solver(p).values, p.vars) && Satisfies(solver(p).values, p.constraints)
  }

  /**
   * pulp.value(objective): the sum of coef * value over the terms, or None
   * as soon as one variable has no value.
   */
  function ObjectiveValue(values: Assignment, objective: seq<Term>): Option<real> {
    if objective == [] then Some(0.0)
    else
      var last := objective[|objective| - 1];
      match ObjectiveValue(values, objective[..|objective| - 1])
      case None => None
      case Some(s) => if last.key in values then Some(s + last.coef * values[last.key]) else None
  }

  /** The objective has a value exactly when every one of its variables has one. */
  lemma {:induction false} ObjectiveValueSomeIff(values: Assignment, objective: seq<Term>)
    ensures ObjectiveValue(values, objective).Some? <==> forall k :: 0 <= k < |objective| ==> objective[k].key in values
  {
    if objective != [] {
      ObjectiveValueSomeIff(values, objective[..|objective| - 1]);
    }
  }

  /**
   * pulp.LpProblem: a list of constraints that grows by `+=`, an objective
   * that setObjective replaces, and the status and variable values that the
   * last solve left behind. The ghost solveLog records every problem the
   * solver was handed, in order.
   */
  class LpProblem {
    var constraints: seq<Constraint>
    var objective: seq<Term>
    var status: Status
    var values: Assignment
    ghost var solveLog: seq<Problem>

    constructor ()
      ensures constraints == [] && objective == [] && status == NotSolved
      ensures values == map[] && solveLog == []
    {
      constraints := [];
      objective := [];
      status := NotSolved;
      values := map[];
      solveLog := [];
    }

    /** prob += c */
    method AddConstraint(c: Constraint)
      modifies this
      ensures constraints == old(constraints) + [c]
      ensures objective == old(objective) && status == old(status)
      ensures values == old(values) && solveLog == old(solveLog)
    {
      constraints := constraints + [c];
    }

    /** prob.setObjective(obj): the new objective replaces the old one. */
    method SetObjective(obj: seq<Term>)
      modifies this
      ensures objective == obj
      ensures constraints == old(constraints) && status == old(status)
      ensures values == old(values) && solveLog == old(solveLog)
    {
      objective := obj;
    }

    /** prob.solve(...): hands the current problem to the solver and keeps its answer. */
    method Solve(solver: Solver, vars: seq<VarKey>)
      modifies this
      ensures constraints == old(constraints) && objective == old(objective)
      ensures Outcome(status, values) == solver(Problem(vars, constraints, objective))
      ensures solveLog == old(solveLog) + [Problem(vars, constraints, objective)]
    {
      var outcome := solver(Problem(vars, constraints, objective));
      status := outcome.status;
      values := outcome.values;
      solveLog := solveLog + [Problem(vars, constraints, objective)];
    }
  }
}
