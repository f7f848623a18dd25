/**
 * The value domains that the input form derives from the reference rows of
 * the training data (the profile that confines every widget of
 * `get_user_input`).
 */
module Schema {
  import opened Results
  import opened Sequences

  /** One row of the reference data set. */
  datatype Row = Row(
    creditScore: int,
    geography: string,
    gender: string,
    age: int,
    tenure: int,
    balance: real,
    numOfProducts: int,
    hasCrCard: int,
    isActiveMember: int,
    estimatedSalary: real)

  /** Fixed bounds of the age and salary sliders, independent of the data. */
  const AGE_MIN: int := 18
  const AGE_MAX: int := 100
  const SALARY_MIN: int := 0
  const SALARY_MAX: int := 200000

  /** Default positions of the option widgets (the `index=` arguments). */
  const GEOGRAPHY_DEFAULT: nat := 1
  const GENDER_DEFAULT: nat := 0
  const TENURE_DEFAULT: nat := 5
  const PRODUCTS_DEFAULT: nat := 1

  /** The legal choices of every data-dependent widget. */
  datatype Profile = Profile(
    geographies: seq<string>,
    genders: seq<string>,
    creditScoreMin: int,
    creditScoreMax: int,
    tenures: seq<int>,
    balanceMin: real,
    balanceMax: real,
    products: seq<int>)

  datatype ProfileError =
    | DatasetUnavailable
    | EmptyDataset
    | TooFewChoices(column: string, needed: nat, available: nat)

  function Geographies(rows: seq<Row>): (c: seq<string>)
    ensures |c| == |rows| && forall i :: 0 <= i < |rows| ==> c[i] == rows[i].geography
  {
    seq(|rows|, i requires 0 <= i < |rows| => rows[i].geography)
  }

  function Genders(rows: seq<Row>): (c: seq<string>)
    ensures |c| == |rows| && forall i :: 0 <= i < |rows| ==> c[i] == rows[i].gender
  {
    seq(|rows|, i requires 0 <= i < |rows| => rows[i].gender)
  }

  function CreditScores(rows: seq<Row>): (c: seq<int>)
    ensures |c| == |rows| && forall i :: 0 <= i < |rows| ==> c[i] == rows[i].creditScore
  {
    seq(|rows|, i requires 0 <= i < |rows| => rows[i].creditScore)
  }

  function Tenures(rows: seq<Row>): (c: seq<int>)
    ensures |c| == |rows| && forall i :: 0 <= i < |rows| ==> c[i] == rows[i].tenure
  {
    seq(|rows|, i requires 0 <= i < |rows| => rows[i].tenure)
  }

  function Balances(rows: seq<Row>): (c: seq<real>)
    ensures |c| == |rows| && forall i :: 0 <= i < |rows| ==> c[i] == rows[i].balance
  {
    seq(|rows|, i requires 0 <= i < |rows| => rows[i].balance)
  }

  function Products(rows: seq<Row>): (c: seq<int>)
    ensures |c| == |rows| && forall i :: 0 <= i < |rows| ==> c[i] == rows[i].numOfProducts
  {
    seq(|rows|, i requires 0 <= i < |rows| => rows[i].numOfProducts)
  }

  /**
   * What a profile means for a given set of rows, stated without the
   * functions that compute it: every categorical choice list holds each
   * column value exactly once (in first-occurrence order for the text
   * columns, ascending for the integer columns), and the numeric bounds are
   * the least and greatest values of their column.
   */
  ghost predicate Describes(p: Profile, rows: seq<Row>) {
    && UniqueInOrder(p.geographies, Geographies(rows))
    && UniqueInOrder(p.genders, Genders(rows))
    && IntBounds(p.creditScoreMin, p.creditScoreMax, CreditScores(rows))
    && AscendingValuesOf(p.tenures, Tenures(rows))
    && RealBounds(p.balanceMin, p.balanceMax, Balances(rows))
    && AscendingValuesOf(p.products, Products(rows))
  }

  /** A profile whose option widgets can show their default positions. */
  predicate Usable(p: Profile) {
    && GENDER_DEFAULT < |p.genders|
    && GEOGRAPHY_DEFAULT < |p.geographies|
    && TENURE_DEFAULT < |p.tenures|
    && PRODUCTS_DEFAULT < |p.products|
    && p.creditScoreMin <= p.creditScoreMax
    && p.balanceMin <= p.balanceMax
  }

  /**
   * Derives the profile from the reference data, or reports why the form
   * cannot be shown: the data file is missing (`None`), the data has no
   * rows, or a column has too few distinct values for its widget's default
   * position.
   */
  function BuildProfile(data: Option<seq<Row>>): (r: Result<Profile, ProfileError>)
    ensures r == Err(DatasetUnavailable) <==> data.None?
    ensures r == Err(EmptyDataset) <==> data.Some? && |data.value| == 0
    ensures r.Err? && data.Some? && |data.value| > 0 ==> r.error.TooFewChoices?
    ensures data.Some? && |data.value| > 0 && |Elements(Geographies(data.value))| <= GEOGRAPHY_DEFAULT ==>
      r == Err(TooFewChoices("Geography", GEOGRAPHY_DEFAULT + 1, |Elements(Geographies(data.value))|))
    ensures
      (&& data.Some? && |data.value| > 0
       && |Elements(Geographies(data.value))| > GEOGRAPHY_DEFAULT
       && |Elements(Tenures(data.value))| <= TENURE_DEFAULT)
      ==> r == Err(TooFewChoices("Tenure", TENURE_DEFAULT + 1, |Elements(Tenures(data.value))|))
    ensures
      (&& data.Some? && |data.value| > 0
       && |Elements(Geographies(data.value))| > GEOGRAPHY_DEFAULT
       && |Elements(Tenures(data.value))| > TENURE_DEFAULT
       && |Elements(Products(data.value))| <= PRODUCTS_DEFAULT)
      ==> r == Err(TooFewChoices("NumOfProducts", PRODUCTS_DEFAULT + 1, |Elements(Products(data.value))|))
    ensures r.Ok? <==>
      && data.Some? && |data.value| > 0
      && |Elements(Geographies(data.value))| > GEOGRAPHY_DEFAULT
      && |Elements(Tenures(data.value))| > TENURE_DEFAULT
      && |Elements(Products(data.value))| > PRODUCTS_DEFAULT
    ensures r.Ok? ==> Usable(r.value) && Describes(r.value, data.value)
    ensures r.Err? && r.error.TooFewChoices? ==> r.error.available <= r.error.needed
  {
    match data
    case None => Err(DatasetUnavailable)
    case Some(rows) =>
      if |rows| == 0 then Err(EmptyDataset)
      else
        var p := ProfileOf(rows);
        DistinctCount(Geographies(rows));
        SortedDistinctCount(Tenures(rows));
        SortedDistinctCount(Products(rows));
        if |p.geographies| <= GEOGRAPHY_DEFAULT then
          Err(TooFewChoices("Geography", GEOGRAPHY_DEFAULT + 1, |p.geographies|))
        else if |p.tenures| <= TENURE_DEFAULT then
          Err(TooFewChoices("Tenure", TENURE_DEFAULT + 1, |p.tenures|))
        else if |p.products| <= PRODUCTS_DEFAULT then
          Err(TooFewChoices("NumOfProducts", PRODUCTS_DEFAULT + 1, |p.products|))
        else
          Ok(p)
  }

  /** The profile of a non-empty set of rows. */
  function ProfileOf(rows: seq<Row>): (p: Profile)
    requires |rows| > 0
    ensures Describes(p, rows)
    ensures 0 < |p.genders| && p.creditScoreMin <= p.creditScoreMax && p.balanceMin <= p.balanceMax
  {
    var p := Profile(
      Distinct(Geographies(rows)),
      Distinct(Genders(rows)),
      MinInt(CreditScores(rows)),
      MaxInt(CreditScores(rows)),
      SortedDistinct(Tenures(rows)),
      MinReal(Balances(rows)),
      MaxReal(Balances(rows)),
      SortedDistinct(Products(rows)));
    DistinctIsUniqueInOrder(Geographies(rows));
    DistinctIsUniqueInOrder(Genders(rows));
    assert Genders(rows)[0] in p.genders;
    p
  }
}
