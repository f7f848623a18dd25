/**
 * The input form of the churn app: what each widget lets the user select,
 * the encoding of the two Yes/No answers, and the one-row feature table
 * handed to the classifier.
 */
module FeatureRecordBuilder {
  import opened Results
  import opened Schema

  /** The raw values the widgets return, before encoding. */
  datatype Selection = Selection(
    geography: string,
    gender: string,
    age: int,
    creditScore: int,
    estimatedSalary: int,
    tenure: int,
    balance: real,
    numOfProducts: int,
    hasCreditCard: string,
    isActive: string)

  const YES: string := "Yes"
  const NO: string := "No"

  /** The options of both Yes/No radio buttons. */
  const ANSWERS: seq<string> := [YES, NO]

  /** The column order of the feature table, which the classifier expects. */
  const COLUMNS: seq<string> := [
    "CreditScore", "Geography", "Gender", "Age", "Tenure",
    "Balance", "NumOfProducts", "HasCrCard", "IsActiveMember", "EstimatedSalary"]

  /** The columns in the order the form shows their widgets. */
  const FORM_ORDER: seq<string> := [
    "Geography", "Gender", "Age", "CreditScore", "EstimatedSalary",
    "Tenure", "Balance", "NumOfProducts", "HasCrCard", "IsActiveMember"]

  /** The columns whose widget is a slider over a numeric range. */
  const RANGE_COLUMNS: seq<string> := ["Age", "CreditScore", "EstimatedSalary", "Balance"]

  /** The domain the widget of `column` confines its selection to. */
  predicate FieldAdmissible(p: Profile, sel: Selection, column: string) {
    match column
    case "Geography" => sel.geography in p.geographies
    case "Gender" => sel.gender in p.genders
    case "Age" => AGE_MIN <= sel.age <= AGE_MAX
    case "CreditScore" => p.creditScoreMin <= sel.creditScore <= p.creditScoreMax
    case "EstimatedSalary" => SALARY_MIN <= sel.estimatedSalary <= SALARY_MAX
    case "Tenure" => sel.tenure in p.tenures
    case "Balance" => p.balanceMin <= sel.balance <= p.balanceMax
    case "NumOfProducts" => sel.numOfProducts in p.products
    case "HasCrCard" => sel.hasCreditCard in ANSWERS
    case "IsActiveMember" => sel.isActive in ANSWERS
    case _ => true
  }

  /** A selection that every widget of the form can return. */
  predicate Admissible(p: Profile, sel: Selection) {
    && FieldAdmissible(p, sel, "Geography")
    && FieldAdmissible(p, sel, "Gender")
    && FieldAdmissible(p, sel, "Age")
    && FieldAdmissible(p, sel, "CreditScore")
    && FieldAdmissible(p, sel, "EstimatedSalary")
    && FieldAdmissible(p, sel, "Tenure")
    && FieldAdmissible(p, sel, "Balance")
    && FieldAdmissible(p, sel, "NumOfProducts")
    && FieldAdmissible(p, sel, "HasCrCard")
    && FieldAdmissible(p, sel, "IsActiveMember")
  }

  datatype SelectionError =
    | OutOfDomain(column: string)
    | OutOfRange(column: string)

  /**
   * The widget constraints as a check: returns the encoded record when every
   * selection lies in its widget's domain, and otherwise names the first
   * widget, in the order the form shows them, whose selection does not.
   */
  function Validate(p: Profile, sel: Selection): (r: Result<FeatureRecord, SelectionError>)
    ensures r.Ok? <==> Admissible(p, sel)
    ensures r.Ok? ==> r.value == Assemble(sel) && Conforms(p, r.value)
    ensures r.Err? ==> r.error.column in COLUMNS && !FieldAdmissible(p, sel, r.error.column)
    ensures r.Err? ==> r.error.column in FORM_ORDER
    ensures r.Err? ==> forall j, k :: 0 <= j < k < |FORM_ORDER| && FORM_ORDER[k] == r.error.column ==>
      FieldAdmissible(p, sel, FORM_ORDER[j])
    ensures r.Err? ==> (r.error.OutOfRange? <==> r.error.column in RANGE_COLUMNS)
  {
    if !FieldAdmissible(p, sel, "Geography") then Err(OutOfDomain("Geography"))
    else if !FieldAdmissible(p, sel, "Gender") then Err(OutOfDomain("Gender"))
    else if !FieldAdmissible(p, sel, "Age") then Err(OutOfRange("Age"))
    else if !FieldAdmissible(p, sel, "CreditScore") then Err(OutOfRange("CreditScore"))
    else if !FieldAdmissible(p, sel, "EstimatedSalary") then Err(OutOfRange("EstimatedSalary"))
    else if !FieldAdmissible(p, sel, "Tenure") then Err(OutOfDomain("Tenure"))
    else if !FieldAdmissible(p, sel, "Balance") then Err(OutOfRange("Balance"))
    else if !FieldAdmissible(p, sel, "NumOfProducts") then Err(OutOfDomain("NumOfProducts"))
    else if !FieldAdmissible(p, sel, "HasCrCard") then Err(OutOfDomain("HasCrCard"))
    else if !FieldAdmissible(p, sel, "IsActiveMember") then Err(OutOfDomain("IsActiveMember"))
    else
      AssembleConforms(p, sel);
      Ok(Assemble(sel))
  }

  /**
   * The selection the form shows before the user changes anything: the
   * option widgets at their `index=` positions and both answers at "Yes".
   * The slider defaults come from column means and are passed in.
   */
  function DefaultSelection(p: Profile, age: int, creditScore: int, estimatedSalary: int, balance: real): (sel: Selection)
    requires Usable(p)
    requires AGE_MIN <= age <= AGE_MAX
    requires p.creditScoreMin <= creditScore <= p.creditScoreMax
    requires SALARY_MIN <= estimatedSalary <= SALARY_MAX
    requires p.balanceMin <= balance <= p.balanceMax
    ensures Admissible(p, sel)
    ensures sel.age == age && sel.creditScore == creditScore
    ensures sel.estimatedSalary == estimatedSalary && sel.balance == balance
  {
    Selection(
      p.geographies[GEOGRAPHY_DEFAULT],
      p.genders[GENDER_DEFAULT],
      age,
      creditScore,
      estimatedSalary,
      p.tenures[TENURE_DEFAULT],
      balance,
      p.products[PRODUCTS_DEFAULT],
      ANSWERS[0],
      ANSWERS[0])
  }

  /** The typed view of the one row of the feature table. */
  datatype FeatureRecord = FeatureRecord(
    creditScore: int,
    geography: string,
    gender: string,
    age: int,
    tenure: int,
    balance: real,
    numOfProducts: int,
    hasCrCard: int,
    isActiveMember: int,
    estimatedSalary: int)

  /** A Yes/No answer as the classifier expects it: "Yes" is 1, any other text 0. */
  function Encode(answer: string): (b: int)
    ensures b == 1 <==> answer == YES
    ensures b == 0 || b == 1
  {
    if answer == YES then 1 else 0
  }

  /** The radio option that encodes to `b`. */
  function AnswerOf(b: int): (answer: string)
    ensures answer in ANSWERS
  {
    if b == 1 then YES else NO
  }

  /** On the radio's two options, encoding and `AnswerOf` are inverse to each other. */
  lemma EncodeRoundTrip(answer: string, b: int)
    ensures answer in ANSWERS ==> AnswerOf(Encode(answer)) == answer
    ensures (b == 0 || b == 1) ==> Encode(AnswerOf(b)) == b
  {
  }

  /** A record every field of which lies in its domain under `p`. */
  predicate Conforms(p: Profile, r: FeatureRecord) {
    && p.creditScoreMin <= r.creditScore <= p.creditScoreMax
    && r.geography in p.geographies
    && r.gender in p.genders
    && AGE_MIN <= r.age <= AGE_MAX
    && r.tenure in p.tenures
    && p.balanceMin <= r.balance <= p.balanceMax
    && r.numOfProducts in p.products
    && (r.hasCrCard == 0 || r.hasCrCard == 1)
    && (r.isActiveMember == 0 || r.isActiveMember == 1)
    && SALARY_MIN <= r.estimatedSalary <= SALARY_MAX
  }

  /** The widget selections that a record stands for. */
  function SelectionOf(r: FeatureRecord): Selection {
    Selection(
      r.geography, r.gender, r.age, r.creditScore, r.estimatedSalary,
      r.tenure, r.balance, r.numOfProducts, AnswerOf(r.hasCrCard), AnswerOf(r.isActiveMember))
  }

  /**
   * Encodes both answers and gathers the ten selections into one record.
   * With both answers taken from the radio options no information is lost.
   */
  function Assemble(sel: Selection): (r: FeatureRecord)
    ensures r.hasCrCard == 1 <==> sel.hasCreditCard == YES
    ensures r.isActiveMember == 1 <==> sel.isActive == YES
    ensures (r.hasCrCard == 0 || r.hasCrCard == 1) && (r.isActiveMember == 0 || r.isActiveMember == 1)
    ensures sel.hasCreditCard in ANSWERS && sel.isActive in ANSWERS ==> SelectionOf(r) == sel
  {
    FeatureRecord(
      sel.creditScore,
      sel.geography,
      sel.gender,
      sel.age,
      sel.tenure,
      sel.balance,
      sel.numOfProducts,
      Encode(sel.hasCreditCard),
      Encode(sel.isActive),
      sel.estimatedSalary)
  }

  /** Every admissible selection assembles into a record that conforms to the profile. */
  lemma AssembleConforms(p: Profile, sel: Selection)
    requires Admissible(p, sel)
    ensures Conforms(p, Assemble(sel))
  {
  }

  /** Whatever the reference data, age and salary obey the same fixed bounds. */
  lemma FixedBoundsIndependentOfData(p: Profile, sel: Selection)
    requires Admissible(p, sel)
    ensures AGE_MIN <= Assemble(sel).age <= AGE_MAX
    ensures SALARY_MIN <= Assemble(sel).estimatedSalary <= SALARY_MAX
  {
  }

  /** One cell of the feature table. */
  datatype Cell = IntCell(i: int) | RealCell(x: real) | TextCell(s: string)

  /** A data frame: column names, row index and rows of cells. */
  datatype Frame = Frame(columns: seq<string>, index: seq<int>, rows: seq<seq<Cell>>)

  /** The feature table with the record as its single row, at index 0. */
  function ToFrame(r: FeatureRecord): (x: Frame)
    ensures x.columns == COLUMNS && x.index == [0]
    ensures |x.rows| == 1 && |x.rows[0]| == |COLUMNS| == 10
    ensures FromFrame(x) == Some(r)
  {
    Frame(COLUMNS, [0], [[
      IntCell(r.creditScore),
      TextCell(r.geography),
      TextCell(r.gender),
      IntCell(r.age),
      IntCell(r.tenure),
      RealCell(r.balance),
      IntCell(r.numOfProducts),
      IntCell(r.hasCrCard),
      IntCell(r.isActiveMember),
      IntCell(r.estimatedSalary)]])
  }

  /**
   * Reads a feature table the way the classifier's schema does: exactly the
   * columns of `COLUMNS` in that order, one row at index 0, and a cell of
   * the column's type in every position.
   */
  function FromFrame(x: Frame): Option<FeatureRecord> {
    if x.columns != COLUMNS || x.index != [0] || |x.rows| != 1 || |x.rows[0]| != 10 then None
    else
      var c := x.rows[0];
      if && c[0].IntCell? && c[1].TextCell? && c[2].TextCell? && c[3].IntCell? && c[4].IntCell?
         && c[5].RealCell? && c[6].IntCell? && c[7].IntCell? && c[8].IntCell? && c[9].IntCell?
      then
        Some(FeatureRecord(c[0].i, c[1].s, c[2].s, c[3].i, c[4].i, c[5].x, c[6].i, c[7].i, c[8].i, c[9].i))
      else None
  }

  /** A table the classifier accepts is exactly the table of the record it reads. */
  lemma FromFrameOnlyToFrame(x: Frame, r: FeatureRecord)
    requires FromFrame(x) == Some(r)
    ensures x == ToFrame(r)
  {
    var c := x.rows[0];
    assert c == ToFrame(r).rows[0];
    assert x.rows == [c];
  }

  /**
   * `get_user_input`: the one-row feature table of an admissible selection.
   * Its record conforms to the profile and gives back the selection.
   */
  function GetUserInput(p: Profile, sel: Selection): (x: Frame)
    requires Admissible(p, sel)
    ensures x.columns == COLUMNS && x.index == [0] && |x.rows| == 1
    ensures FromFrame(x).Some? && Conforms(p, FromFrame(x).value)
    ensures SelectionOf(FromFrame(x).value) == sel
  {
    AssembleConforms(p, sel);
    ToFrame(Assemble(sel))
  }
}
