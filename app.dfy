/**
 * The app's request path: derive the profile from the reference data,
 * build the feature table from the user's selections, ask the classifier
 * for a label and tell the user what the label means.
 */
module ChurnApp {
  import opened Results
  import opened Sequences
  import opened Schema
  import opened FeatureRecordBuilder

  /** What the app tells the user about the customer. */
  datatype Verdict = NotLikelyToChurn | LikelyToChurn

  /** Label 0 means the customer is not likely to churn; every other label means the opposite. */
  function Interpret(prediction: int): (v: Verdict)
    ensures v == NotLikelyToChurn <==> prediction == 0
    ensures v == LikelyToChurn <==> prediction != 0
  {
    if prediction == 0 then NotLikelyToChurn else LikelyToChurn
  }

  datatype AppError =
    | ProfileFailed(cause: ProfileError)
    | SelectionRejected(reason: SelectionError)
    | NoPrediction

  /**
   * One request. `data` is the reference data (`None` when its file is
   * missing); `predict` is the classifier, whose result the app reads at
   * position 0.
   */
  function Run(data: Option<seq<Row>>, sel: Selection, predict: Frame -> seq<int>): (r: Result<Verdict, AppError>)
    ensures data.None? ==> r == Err(ProfileFailed(DatasetUnavailable))
    ensures BuildProfile(data).Err? ==> r == Err(ProfileFailed(BuildProfile(data).error))
    ensures r.Err? && r.error.ProfileFailed? ==> BuildProfile(data).Err?
    ensures r.Err? && r.error.SelectionRejected? ==>
      BuildProfile(data).Ok? && Validate(BuildProfile(data).value, sel) == Err(r.error.reason)
    ensures BuildProfile(data).Ok? && !Admissible(BuildProfile(data).value, sel) ==>
      r.Err? && r.error.SelectionRejected?
    ensures r.Ok? ==>
      && BuildProfile(data).Ok?
      && Admissible(BuildProfile(data).value, sel)
      && var x := GetUserInput(BuildProfile(data).value, sel);
         |predict(x)| > 0 && (r.value == LikelyToChurn <==> predict(x)[0] != 0)
    ensures
      (&& BuildProfile(data).Ok?
       && Admissible(BuildProfile(data).value, sel)
       && |predict(GetUserInput(BuildProfile(data).value, sel))| > 0)
      ==> r.Ok?
    ensures
      (&& BuildProfile(data).Ok?
       && Admissible(BuildProfile(data).value, sel)
       && |predict(GetUserInput(BuildProfile(data).value, sel))| == 0)
      ==> r == Err(NoPrediction)
  {
    match BuildProfile(data)
    case Err(e) => Err(ProfileFailed(e))
    case Ok(p) =>
      match Validate(p, sel)
      case Err(e) => Err(SelectionRejected(e))
      case Ok(_) =>
        var labels := predict(GetUserInput(p, sel));
        if |labels| == 0 then Err(NoPrediction) else Ok(Interpret(labels[0]))
  }

  /** Eleven reference rows: three countries, two genders, tenures 0 to 10 and products 1 to 4. */
  const EXAMPLE_ROWS: seq<Row> := [
    Row(350, "France", "Female", 30, 0, 0.0, 1, 1, 1, 10000.0),
    Row(650, "Germany", "Male", 41, 1, 75000.0, 2, 0, 1, 50000.0),
    Row(700, "Spain", "Female", 52, 2, 120000.0, 3, 1, 0, 90000.0),
    Row(850, "France", "Male", 23, 3, 250898.09, 4, 1, 1, 150000.0),
    Row(500, "Germany", "Female", 37, 4, 98000.5, 1, 0, 0, 60000.0),
    Row(620, "Spain", "Male", 45, 5, 0.0, 2, 1, 1, 110000.0),
    Row(580, "France", "Female", 60, 6, 43000.0, 1, 1, 0, 30000.0),
    Row(710, "Germany", "Male", 29, 7, 61000.0, 2, 0, 1, 75000.0),
    Row(690, "Spain", "Female", 33, 8, 150000.0, 1, 1, 1, 20000.0),
    Row(640, "France", "Male", 48, 9, 0.0, 3, 1, 0, 180000.0),
    Row(760, "Germany", "Female", 39, 10, 84000.0, 2, 0, 1, 95000.0)]

  /** The selection of the worked example. */
  const EXAMPLE_SELECTION: Selection :=
    Selection("Germany", "Female", 40, 650, 50000, 5, 75000.0, 2, "Yes", "No")

  /** The example rows hold at least two countries. */
  lemma ExampleGeographies(rows: seq<Row>)
    requires rows == EXAMPLE_ROWS
    ensures |Elements(Geographies(rows))| > GEOGRAPHY_DEFAULT
    ensures Geographies(rows)[1] == "Germany"
  {
    var g := Geographies(rows);
    assert g[0] == "France" && g[1] == "Germany";
    assert {"France", "Germany"} <= Elements(g);
    SubsetCardinality({"France", "Germany"}, Elements(g));
  }

  /** The example rows hold at least six tenures. */
  lemma ExampleTenures(rows: seq<Row>)
    requires rows == EXAMPLE_ROWS
    ensures |Elements(Tenures(rows))| > TENURE_DEFAULT
    ensures Tenures(rows)[5] == 5
  {
    var t := Tenures(rows);
    assert t[0] == 0 && t[1] == 1 && t[2] == 2 && t[3] == 3 && t[4] == 4 && t[5] == 5;
    assert {0, 1, 2, 3, 4, 5} <= Elements(t);
    SubsetCardinality({0, 1, 2, 3, 4, 5}, Elements(t));
  }

  /** The example rows hold at least two product counts. */
  lemma ExampleProducts(rows: seq<Row>)
    requires rows == EXAMPLE_ROWS
    ensures |Elements(Products(rows))| > PRODUCTS_DEFAULT
    ensures Products(rows)[1] == 2
  {
    var n := Products(rows);
    assert n[0] == 1 && n[1] == 2;
    assert {1, 2} <= Elements(n);
    SubsetCardinality({1, 2}, Elements(n));
  }

  /** The example rows hold the example's credit score, gender and balance. */
  lemma ExampleOtherColumns(rows: seq<Row>)
    requires rows == EXAMPLE_ROWS
    ensures Genders(rows)[0] == "Female"
    ensures CreditScores(rows)[1] == 650
    ensures Balances(rows)[1] == 75000.0
  {
  }

  /**
   * Rows with at least two countries, six tenures and two product counts, in
   * which the example's values occur, yield a profile admitting the example.
   */
  lemma ProfileAdmitsExample(rows: seq<Row>)
    requires |rows| > 1
    requires |Elements(Geographies(rows))| > GEOGRAPHY_DEFAULT
    requires |Elements(Tenures(rows))| > TENURE_DEFAULT
    requires |Elements(Products(rows))| > PRODUCTS_DEFAULT
    requires Geographies(rows)[1] == "Germany" && Genders(rows)[0] == "Female"
    requires |Tenures(rows)| > 5 && Tenures(rows)[5] == 5 && Products(rows)[1] == 2
    requires CreditScores(rows)[1] == 650 && Balances(rows)[1] == 75000.0
    ensures BuildProfile(Some(rows)).Ok?
    ensures Admissible(BuildProfile(Some(rows)).value, EXAMPLE_SELECTION)
  {
    var p := BuildProfile(Some(rows)).value;
    assert Describes(p, rows);
    assert Geographies(rows)[1] in Geographies(rows);
    assert Genders(rows)[0] in Genders(rows);
    assert Tenures(rows)[5] in Tenures(rows);
    assert Products(rows)[1] in Products(rows);
    assert CreditScores(rows)[1] in CreditScores(rows);
    assert Balances(rows)[1] in Balances(rows);
  }

  /**
   * The worked example from the reference rows onwards: the profile of
   * `EXAMPLE_ROWS` admits the selection, the table holds the row
   * 650, "Germany", "Female", 40, 5, 75000.0, 2, 1, 0, 50000, and a
   * classifier answering 1 makes the verdict "likely to churn".
   */
  lemma WorkedExampleFromRows()
    ensures BuildProfile(Some(EXAMPLE_ROWS)).Ok?
    ensures Admissible(BuildProfile(Some(EXAMPLE_ROWS)).value, EXAMPLE_SELECTION)
    ensures GetUserInput(BuildProfile(Some(EXAMPLE_ROWS)).value, EXAMPLE_SELECTION).rows == [[
      IntCell(650), TextCell("Germany"), TextCell("Female"), IntCell(40), IntCell(5),
      RealCell(75000.0), IntCell(2), IntCell(1), IntCell(0), IntCell(50000)]]
    ensures Run(Some(EXAMPLE_ROWS), EXAMPLE_SELECTION, (x: Frame) => [1]) == Ok(LikelyToChurn)
  {
    var rows := EXAMPLE_ROWS;
    ExampleGeographies(rows);
    ExampleTenures(rows);
    ExampleProducts(rows);
    ExampleOtherColumns(rows);
    ProfileAdmitsExample(rows);
  }

  /** A selection whose answer is neither option is rejected and encodes as 0 when assembled. */
  lemma OtherAnswerEncodesAsNo(p: Profile, sel: Selection)
    requires sel.hasCreditCard !in ANSWERS
    ensures Validate(p, sel).Err?
    ensures Assemble(sel).hasCrCard == 0
  {
  }
}
