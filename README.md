# Bank customer churn app: feature-record assembly

A Dafny model of the input form of the bank customer churn app
(`code/churn_app.py`). The form reads reference rows of customer data,
derives from them the choices every widget offers, lets the user pick one
value per widget, encodes the two Yes/No answers as 1/0 and assembles the
ten picks into a one-row table in a fixed column order for the classifier.
The classifier's label is then shown as "likely" or "not likely to churn".

Modules:

- `Results` (`results.dfy`): `Option` and `Result` for the error paths.
- `Sequences` (`sequences.dfy`): the column operations the form relies on:
  `unique()` as `Distinct`, `sorted(unique())` as `SortedDistinct`, and
  `min()`/`max()`. Each comes with an independent reference meaning
  (`UniqueInOrder`, `AscendingValuesOf`, `IntBounds`, `RealBounds`).
- `Schema` (`schema.dfy`): a reference row, the profile of legal choices
  (`Profile`), and `BuildProfile`, which derives it or says why the form
  cannot be shown.
- `FeatureRecordBuilder` (`builder.dfy`): the widget domains
  (`FieldAdmissible`, `Admissible`), the Yes/No encoding, the record, the
  one-row table (`Frame`) and `GetUserInput`.
- `ChurnApp` (`app.dfy`): label interpretation and one request end to end.

Modelling choices:

- Each widget is replaced by its domain: a radio or select box by "the value
  is one of its options", a slider by "the value lies between its bounds".
  `Validate` states these domains as a check with `OutOfDomain` and
  `OutOfRange` errors. In the app itself the widgets make those errors
  unreachable.
- `Encode` maps "Yes" to 1 and any other text to 0, as lines 89 and 92 do;
  it rejects no literal. A literal outside the radio options is rejected
  only by the radio domain in `Validate`.
- The default positions `index=1` (Geography), `index=5` (Tenure) and
  `index=1` (NumOfProducts) need at least 2, 6 and 2 distinct values. The
  model makes these `TooFewChoices` errors of `BuildProfile`. Reference data
  without rows is `EmptyDataset`. A missing data file (lines 127-131) is the
  input `None`, giving `DatasetUnavailable`.
- The app uses the column `CreditScore` as integers, and `int(...)` of their
  minimum and maximum is the identity. `Balance` is a `real`, compared only.
  Age and EstimatedSalary come from integer sliders.
- The classifier `predict.predict` is the function parameter `predict` of
  `Run`. Reading its result at position 0 fails with `NoPrediction` when it
  returns nothing.

## Model

| member | source | states |
|---|---|---|
| `Sequences.Distinct` | code/churn_app.py:59-62 | the distinct values of a column have no duplicates and contain exactly the values of the column, and there are no more of them than rows |
| `Sequences.DistinctFirstOccurrence` | code/churn_app.py:59-62 | the distinct values appear in the order of their first occurrence in the column |
| `Sequences.DistinctIsUniqueInOrder` | code/churn_app.py:59-62 | `unique()` meets its reference meaning: each column value once, in first-occurrence order |
| `Sequences.DistinctCount` | code/churn_app.py:59-62 | the distinct-value list has as many entries as the column has distinct values |
| `Sequences.SortedDistinct` | code/churn_app.py:77-78 | the Tenure and NumOfProducts choice lists are strictly ascending and contain exactly the values of the column |
| `Sequences.AscendingUnique` | code/churn_app.py:77-78 | a strictly ascending list is determined by its values, so the choice list is the only one with those two properties |
| `Sequences.SortedDistinctCanonical` | code/churn_app.py:85-86 | the sorted choice list depends only on which values the column holds, not on their order or repetition |
| `Sequences.SortedDistinctCount` | code/churn_app.py:85-86 | the sorted choice list has as many entries as the column has distinct values |
| `Sequences.MinInt` | code/churn_app.py:66-67 | the credit-score lower bound occurs in the column and bounds every value from below |
| `Sequences.MaxInt` | code/churn_app.py:66-68 | the credit-score upper bound occurs in the column and bounds every value from above |
| `Sequences.MinReal` | code/churn_app.py:79-80 | the balance lower bound occurs in the column and bounds every value from below |
| `Sequences.MaxReal` | code/churn_app.py:79-81 | the balance upper bound occurs in the column and bounds every value from above |
| `Schema.ProfileOf` | code/churn_app.py:58-86 | the profile of non-empty rows describes them: first-occurrence distinct lists for Geography and Gender, ascending distinct lists for Tenure and NumOfProducts, attained minimum and maximum for CreditScore and Balance |
| `Schema.BuildProfile` | code/churn_app.py:126-131 | `DatasetUnavailable` exactly when the data file is missing, `EmptyDataset` exactly when it has no rows, and otherwise only `TooFewChoices`, naming the first of Geography (fewer than 2 distinct values), Tenure (fewer than 6) and NumOfProducts (fewer than 2) that falls short; it succeeds exactly when Geography has at least 2, Tenure at least 6 and NumOfProducts at least 2 distinct values, and then the profile describes the rows and every default position exists |
| `FeatureRecordBuilder.Validate` | code/churn_app.py:58-92 | accepts exactly the selections inside every widget's domain, returning the assembled, conforming record; otherwise names the first column, in the order the form shows its widgets, whose selection is outside its domain, as `OutOfRange` for slider columns and `OutOfDomain` for the others |
| `FeatureRecordBuilder.DefaultSelection` | code/churn_app.py:59-92 | the default positions of the option widgets, with slider defaults in range, give an admissible selection |
| `FeatureRecordBuilder.Encode` | code/churn_app.py:89 | the encoded answer is 1 exactly when the answer is "Yes", and is always 0 or 1 |
| `FeatureRecordBuilder.AnswerOf` | code/churn_app.py:87-88 | the answer that a stored bit stands for is one of the radio options |
| `FeatureRecordBuilder.EncodeRoundTrip` | code/churn_app.py:87-92 | on the two radio options, encoding and decoding are inverse in both directions |
| `FeatureRecordBuilder.Assemble` | code/churn_app.py:87-105 | HasCrCard and IsActiveMember are 1 exactly when their answer is "Yes" and are always in {0,1}; with both answers from the radio options the selection can be recovered from the record |
| `FeatureRecordBuilder.AssembleConforms` | code/churn_app.py:58-105 | every admissible selection yields a record whose fields all lie in their domains |
| `FeatureRecordBuilder.FixedBoundsIndependentOfData` | code/churn_app.py:63-71 | Age lies in [18,100] and EstimatedSalary in [0,200000] whatever the reference data |
| `FeatureRecordBuilder.ToFrame` | code/churn_app.py:94-105 | the table has the ten columns in the order CreditScore, Geography, Gender, Age, Tenure, Balance, NumOfProducts, HasCrCard, IsActiveMember, EstimatedSalary, and one row at index 0, which reads back as the record |
| `FeatureRecordBuilder.FromFrameOnlyToFrame` | code/churn_app.py:94-105 | the only table read as a given record is that record's table |
| `FeatureRecordBuilder.GetUserInput` | code/churn_app.py:54-106 | for an admissible selection, the result is a one-row table in the fixed column order whose record conforms to the profile and gives back the selection |
| `ChurnApp.Interpret` | code/churn_app.py:141-146 | label 0 means "not likely to churn", and every other label means "likely to churn" |
| `ChurnApp.Run` | code/churn_app.py:126-146 | a missing data file or an unusable profile stops the request with exactly that error, and only then; an inadmissible selection is rejected with the error `Validate` gives; an empty classifier answer gives `NoPrediction`; otherwise the verdict is "likely" exactly when the first label is not 0 |
| `ChurnApp.WorkedExampleFromRows` | code/churn_app.py:54-146 | from eleven reference rows (France, Germany and Spain, tenures 0 to 10), the profile builds, the selection 650, Germany, Female, 40, tenure 5, balance 75000.0, 2 products, "Yes", "No", salary 50000 is admissible, the table row is 650, "Germany", "Female", 40, 5, 75000.0, 2, 1, 0, 50000, and a classifier answering 1 gives "likely to churn" |
| `ChurnApp.OtherAnswerEncodesAsNo` | code/churn_app.py:87-92 | an answer other than the radio options is outside the widget's domain, and would be encoded as 0 |

## Left out

- Page styling, page configuration, title, image and welcome text (lines 12-52 and 110-124): presentation only.
- Widget rendering and layout (radio buttons, sliders, select boxes, columns, spinner, balloons and snow): each widget is replaced by its domain.
- The slider defaults from column means (lines 63, 69, 71, 82): averages in floating point that only pre-fill widgets; `DefaultSelection` takes them as parameters.
- Reading the CSV file: replaced by the input `Option<seq<Row>>`, where `None` stands for the missing file.
- A data file that lacks one of the columns or holds non-numeric values where numbers are expected (a `KeyError` or `TypeError` at lines 60-86): a `Row` has all ten typed columns by construction.
- `predict.predict` (line 139): a module not part of this model; it is an opaque function parameter. Its own failure modes are not modelled.
- Missing values (NaN) in the reference columns: the rows are assumed complete.
- Floating-point behaviour of Balance: modelled as `real`, without rounding.
- Error messages shown to the user (line 130): the model only returns the error value.
