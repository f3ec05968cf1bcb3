/** The exceptions that abort a run, one constructor per cause. */
module Errors {
  import opened Lp

  datatype Error =
    /** ValueError from a lookup helper: no row has the requested year. */
    | NoRowForYear(year: int)
    /** KeyError from a lookup helper: the table has no such column. */
    | MissingColumn(column: string)
    /** KeyError from a lookup helper asked for the column None. */
    | NoTechnology
    /** KeyError: x[i, t, y] was never created. */
    | MissingVariable(key: VarKey)
    /** KeyError: decisions[(i, year)] is absent. */
    | MissingDecision(facility: int, year: int)
    /** IndexError: TECHNOLOGIES[t] with t out of range. */
    | BadTechIndex(index: int)
    /** KeyError: results[scenario] is absent. */
    | MissingScenario(scenario: string)
    /** ZeroDivisionError in the discount factor. */
    | DivisionByZero
}
