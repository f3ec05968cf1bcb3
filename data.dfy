/**
 * The tables of the workbook and the DataManager's lookup helpers. Each
 * helper filters a table on its `year` column, takes one column of the
 * first matching row, raises ValueError when no row matches and KeyError
 * when the column does not exist. Reading the workbook is not modelled:
 * the tables are given as values.
 */
module Data {
  import opened Wrappers
  import opened Errors

  /** One sheet row: its `year` cell and its other cells by column name. */
  datatype Row = Row(year: int, cells: map<string, real>)

  datatype Table = Table(columns: set<string>, rows: seq<Row>) {
    /** Rectangular, as a DataFrame is: every row has a cell in every column. */
    predicate Valid() {
      forall k :: 0 <= k < |rows| ==> columns <= rows[k].cells.Keys
    }
  }

  /** One row of the `facility` sheet. */
  datatype Facility = Facility(capacity: real, endYear: int)

  /** The index of the first row whose year is `year`, if any. */
  function FirstRow(rows: seq<Row>, year: int): (r: Option<nat>)
    ensures r.Some? ==> r.value < |rows|
  {
    if rows == [] then None
    else if rows[0].year == year then Some(0)
    else match FirstRow(rows[1..], year)
      case None => None
      case Some(k) => Some(k + 1)
  }

  /** FirstRow finds the first row with the year, and None means no row has it. */
  lemma {:induction false} FirstRowFinds(rows: seq<Row>, year: int)
    ensures FirstRow(rows, year).Some? ==> rows[FirstRow(rows, year).value].year == year
    ensures FirstRow(rows, year).Some? ==> forall j :: 0 <= j < FirstRow(rows, year).value ==> rows[j].year != year
    ensures FirstRow(rows, year).None? ==> forall j :: 0 <= j < |rows| ==> rows[j].year != year
  {
    if rows != [] && rows[0].year != year {
      FirstRowFinds(rows[1..], year);
      assert forall j :: 1 <= j < |rows| ==> rows[j] == rows[1..][j - 1];
    }
  }

  /**
   * What a lookup of (year, column) must answer: KeyError for an unknown
   * column, ValueError when no row has the year, and otherwise the cell of
   * the first row with that year.
   */
  ghost predicate Answers(t: Table, year: int, column: string, r: Result<real, Error>)
    requires t.Valid()
  {
    if column !in t.columns then r == Failure(MissingColumn(column))
    else if forall k :: 0 <= k < |t.rows| ==> t.rows[k].year != year then r == Failure(NoRowForYear(year))
    else
      exists k :: 0 <= k < |t.rows| && t.rows[k].year == year &&
        (forall j :: 0 <= j < k ==> t.rows[j].year != year) &&
        r == Success(t.rows[k].cells[column])
  }

  /** table.loc[table['year'] == year, column], then row.values[0]. */
  function Lookup(t: Table, year: int, column: string): Result<real, Error>
    requires t.Valid()
  {
    if column !in t.columns then Failure(MissingColumn(column))
    else match FirstRow(t.rows, year)
      case None => Failure(NoRowForYear(year))
      case Some(k) => Success(t.rows[k].cells[column])
  }

  lemma LookupAnswers(t: Table, year: int, column: string)
    requires t.Valid()
    ensures Answers(t, year, column, Lookup(t, year, column))
  {
    var r := FirstRow(t.rows, year);
    FirstRowFinds(t.rows, year);
    if column in t.columns && r.Some? {
      assert t.rows[r.value].year == year;
    }
  }

  const AllowRateColumn: string := "allow_rate"

  /** The DataManager after load_data: the facility sheet and the four cost sheets. */
  datatype DataManager = DataManager(
    facilities: seq<Facility>,
    techMac: Table,
    techEmission: Table,
    allowanceRate: Table,
    carbonPrice: Table)
  {
    predicate Valid() {
      techMac.Valid() && techEmission.Valid() && allowanceRate.Valid() && carbonPrice.Valid()
    }

    /** get_carbon_price: the `scenario` column of the carbon_price sheet. */
    function CarbonPrice(year: int, scenario: string): Result<real, Error>
      requires Valid()
    {
      Lookup(carbonPrice, year, scenario)
    }

    /** get_allow_rate: the `allow_rate` column of the allowance_rate sheet. */
    function AllowRate(year: int): Result<real, Error>
      requires Valid()
    {
      Lookup(allowanceRate, year, AllowRateColumn)
    }

    /** get_emission_intensity: the `tech` column of the tech_emission sheet. */
    function EmissionIntensity(year: int, tech: string): Result<real, Error>
      requires Valid()
    {
      Lookup(techEmission, year, tech)
    }

    /** get_mac: the `tech` column of the tech_mac sheet. */
    function Mac(year: int, tech: string): Result<real, Error>
      requires Valid()
    {
      Lookup(techMac, year, tech)
    }
  }

  /** A lookup never defaults: it succeeds exactly when the column exists and some row has the year. */
  lemma LookupSucceedsIff(t: Table, year: int, column: string)
    requires t.Valid()
    ensures Lookup(t, year, column).Success? <==>
      column in t.columns && exists k :: 0 <= k < |t.rows| && t.rows[k].year == year
  {
    LookupAnswers(t, year, column);
  }

  /** get_carbon_price answers from the `scenario` column of the carbon_price sheet. */
  lemma CarbonPriceAnswers(dm: DataManager, year: int, scenario: string)
    requires dm.Valid()
    ensures Answers(dm.carbonPrice, year, scenario, dm.CarbonPrice(year, scenario))
  {
    LookupAnswers(dm.carbonPrice, year, scenario);
  }

  /** get_allow_rate answers from the `allow_rate` column of the allowance_rate sheet. */
  lemma AllowRateAnswers(dm: DataManager, year: int)
    requires dm.Valid()
    ensures Answers(dm.allowanceRate, year, AllowRateColumn, dm.AllowRate(year))
  {
    LookupAnswers(dm.allowanceRate, year, AllowRateColumn);
  }

  /** get_emission_intensity answers from the `tech` column of the tech_emission sheet. */
  lemma EmissionIntensityAnswers(dm: DataManager, year: int, tech: string)
    requires dm.Valid()
    ensures Answers(dm.techEmission, year, tech, dm.EmissionIntensity(year, tech))
  {
    LookupAnswers(dm.techEmission, year, tech);
  }

  /** get_mac answers from the `tech` column of the tech_mac sheet. */
  lemma MacAnswers(dm: DataManager, year: int, tech: string)
    requires dm.Valid()
    ensures Answers(dm.techMac, year, tech, dm.Mac(year, tech))
  {
    LookupAnswers(dm.techMac, year, tech);
  }
}
