/**
 * Training-data preparation and the training run of scripts/train_model.py:
 * the cleaning steps of `load_and_clean_data`, the X/y split on the target
 * column, and the shape of the pipeline `create_full_pipeline` builds.
 * The CSV file is an input (`fileExists` and the `raw` table read from it);
 * scikit-learn and CatBoost are recorded as configuration, not executed.
 */
module Training {
  import opened Common
  import opened Frames
  import opened Features

  /** `cols_to_str`: the columns turned into text before training. */
  const TextColumns: seq<string> :=
    ["Gender", "Married", "Education", "Self_Employed", "Dependents", "Property_Area", "Credit_History"]

  const Target := "Loan_Status"
  const RowId := "Loan_ID"

  /** The two columns whose missing values make a training row unusable. */
  const AmountSubset: seq<string> := [LoanAmount, LoanAmountTerm]

  /** The column names the cleaning steps single out are pairwise different. */
  lemma CleaningNamesDiffer()
    ensures Target !in TextColumns && RowId !in TextColumns && Target != RowId
    ensures LoanAmount !in TextColumns && LoanAmountTerm !in TextColumns
    ensures LoanAmount != Target && LoanAmountTerm != Target && LoanAmount != RowId && LoanAmountTerm != RowId
  {
    assert Target[5] != RowId[5] && Target[4] != LoanAmount[4] && Target[5] != LoanAmountTerm[5];
    assert RowId[4] != LoanAmount[4] && RowId[5] != LoanAmountTerm[5];
  }

  // ---------------------------------------------------------------------
  // Cell-level conversions.

  /**
   * `astype(str)` on one cell of `column`. Text stays as it is, NaN becomes
   * "nan", and a number is written by `numText(column, x)`: the formatting
   * pandas uses for that column's dtype ("1" in an int64 column, "1.0" in a
   * float64 one).
   */
  function AsText(v: Value, column: string, numText: (string, real) -> string): (r: Value)
    ensures r.Str?
    ensures v.Str? ==> r == v
    ensures v.Missing? ==> r == Str("nan")
    ensures v.Num? ==> r == Str(numText(column, v.x))
  {
    match v
    case Num(x) => Str(numText(column, x))
    case Str(_) => v
    case Missing => Str("nan")
  }

  function TextSeries(s: Series, column: string, numText: (string, real) -> string): (r: Series)
    ensures |r| == |s| && forall i | 0 <= i < |r| :: r[i] == AsText(s[i], column, numText)
  {
    seq(|s|, i requires 0 <= i < |s| => AsText(s[i], column, numText))
  }

  /** The status mapping (`Series.map`) on one cell: 'Y' is 1, 'N' is 0, and any other value, NaN included, becomes NaN. */
  function StatusCode(v: Value): (r: Value)
    ensures r == Num(1.0) <==> v == Str("Y")
    ensures r == Num(0.0) <==> v == Str("N")
    ensures r.Missing? <==> v != Str("Y") && v != Str("N")
  {
    if v == Str("Y") then Num(1.0)
    else if v == Str("N") then Num(0.0)
    else Missing
  }

  function StatusSeries(s: Series): (r: Series)
    ensures |r| == |s| && forall i | 0 <= i < |r| :: r[i] == StatusCode(s[i])
  {
    seq(|s|, i requires 0 <= i < |s| => StatusCode(s[i]))
  }

  // ---------------------------------------------------------------------
  // The cleaning steps, column by column, as the source writes them.

  /** The text-conversion loop: each listed column the frame has is converted with `astype(str)`, in list order. */
  function ToText(t: Table, names: seq<string>, numText: (string, real) -> string): (r: Table)
    requires WellFormed(t)
    ensures WellFormed(r) && r.columns == t.columns && |r.rows| == |t.rows|
  {
    if names == [] then t
    else
      var front := ToText(t, names[..|names| - 1], numText);
      var c := names[|names| - 1];
      if c in front.columns then
        ColumnHasCells(front, c);
        WithColumn(front, c, TextSeries(Column(front, c), c, numText))
      else front
  }

  /** One more turn of the text-conversion loop. */
  lemma ToTextStep(t: Table, names: seq<string>, k: nat, numText: (string, real) -> string)
    requires WellFormed(t) && k < |names|
    ensures var front := ToText(t, names[..k], numText);
      ToText(t, names[..k + 1], numText) ==
        if names[k] in front.columns then
          ColumnHasCells(front, names[k]);
          WithColumn(front, names[k], TextSeries(Column(front, names[k]), names[k], numText))
        else front
  {
    assert names[..k + 1][..k] == names[..k];
  }

  /** The target column, when present, is recoded cell by cell with `StatusCode` (`Series.map`). */
  function Coded(t: Table): (r: Table)
    requires WellFormed(t)
    ensures WellFormed(r) && r.columns == t.columns && |r.rows| == |t.rows|
  {
    if Target in t.columns then
      ColumnHasCells(t, Target);
      WithColumn(t, Target, StatusSeries(Column(t, Target)))
    else t
  }

  /** The rows `dropna` is applied to: only when both amount columns exist. */
  predicate DropsIncomplete(t: Table) {
    LoanAmount in t.columns && LoanAmountTerm in t.columns
  }

  /** When both amount columns exist, `dropna` on them removes the rows missing either value. */
  function Complete(t: Table): (r: Table)
    requires WellFormed(t)
    ensures WellFormed(r) && r.columns == t.columns
  {
    if DropsIncomplete(t) then WithoutIncompleteRows(t, AmountSubset) else t
  }

  /** The row identifier column, when present, is dropped (`DataFrame.drop`). */
  function WithoutRowId(t: Table): (r: Table)
    requires WellFormed(t)
    ensures WellFormed(r) && |r.rows| == |t.rows|
    ensures r.columns == Remove(t.columns, RowId)
  {
    if RowId in t.columns then WithoutColumn(t, RowId) else t
  }

  /** `load_and_clean_data` on the table read from the CSV file. */
  function Clean(raw: Table, numText: (string, real) -> string): (r: Table)
    requires WellFormed(raw)
    ensures WellFormed(r)
  {
    WithoutRowId(Complete(Coded(ToText(raw, TextColumns, numText))))
  }

  // ---------------------------------------------------------------------
  // The same cleaning, one record at a time.

  /** The record with each of `names` that it has turned into text. */
  function TextCells(row: Row, names: seq<string>, numText: (string, real) -> string): (r: Row)
    ensures r.Keys == row.Keys
    ensures forall c | c in r :: r[c] == if c in names then AsText(row[c], c, numText) else row[c]
  {
    map c | c in row :: if c in names then AsText(row[c], c, numText) else row[c]
  }

  /** The cleaned form of one training record, when it survives the row filter. */
  function CleanRecord(row: Row, numText: (string, real) -> string): (r: Row)
    ensures r.Keys == row.Keys - {RowId}
    ensures forall c | c in TextColumns && c in row && c != RowId :: r[c].Str?
    ensures Target in row ==> r[Target] == StatusCode(row[Target])
    ensures forall c | c in r && c !in TextColumns && c != Target :: r[c] == row[c]
  {
    CleaningNamesDiffer();
    var text := TextCells(row, TextColumns, numText);
    var coded := if Target in text then text[Target := StatusCode(text[Target])] else text;
    coded - {RowId}
  }

  /** Whether the row filter keeps `row` of `t`. */
  predicate Keeps(t: Table, row: Row) {
    !DropsIncomplete(t) || HasValues(row, AmountSubset)
  }

  /** The positions of the raw rows that survive cleaning. */
  function Survivors(raw: Table): (idx: seq<nat>)
    ensures Increasing(idx)
    ensures forall k | 0 <= k < |idx| :: idx[k] < |raw.rows|
    ensures !DropsIncomplete(raw) ==> |idx| == |raw.rows|
  {
    if DropsIncomplete(raw) then
      KeptPositionsBounded(raw.rows, AmountSubset);
      KeptPositionsIncrease(raw.rows, AmountSubset);
      KeptPositions(raw.rows, AmountSubset)
    else seq(|raw.rows|, i requires 0 <= i < |raw.rows| => i)
  }

  lemma {:induction false} ToTextRows(t: Table, names: seq<string>, numText: (string, real) -> string, i: nat)
    requires WellFormed(t) && i < |t.rows|
    ensures ToText(t, names, numText).rows[i] == TextCells(t.rows[i], names, numText)
  {
    if names != [] {
      var front := names[..|names| - 1];
      var c := names[|names| - 1];
      ToTextRows(t, front, numText, i);
      var f := ToText(t, front, numText);
      var a, b := ToText(t, names, numText).rows[i], TextCells(t.rows[i], names, numText);
      var prev := TextCells(t.rows[i], front, numText);
      if c in f.columns {
        assert c in Names(f.columns);
        ColumnHasCells(f, c);
        assert a == prev[c := AsText(prev[c], c, numText)];
      } else {
        assert c !in Names(t.columns);
        assert a == prev;
      }
      forall k | k in a ensures a[k] == b[k] {
        if k in front {
        } else if k == c {
        }
      }
    }
  }

  lemma CodedRows(t: Table, i: nat)
    requires WellFormed(t) && i < |t.rows|
    ensures Coded(t).rows[i] == if Target in t.rows[i] then t.rows[i][Target := StatusCode(t.rows[i][Target])] else t.rows[i]
  {
    assert Target in t.rows[i] <==> Target in Names(t.columns);
  }

  /** Two row lists that agree on which rows have all the `subset` values keep the same positions. */
  lemma {:induction false} KeptPositionsAgree(rows1: seq<Row>, rows2: seq<Row>, subset: seq<string>)
    requires |rows1| == |rows2|
    requires forall i | 0 <= i < |rows1| :: HasValues(rows1[i], subset) <==> HasValues(rows2[i], subset)
    ensures KeptPositions(rows1, subset) == KeptPositions(rows2, subset)
  {
    if rows1 != [] {
      var n := |rows1| - 1;
      KeptPositionsAgree(rows1[..n], rows2[..n], subset);
    }
  }

  /** The rows and columns after the text conversion and the status coding, for the proofs below. */
  function Coded2(raw: Table, numText: (string, real) -> string): (t: Table)
    requires WellFormed(raw)
    ensures WellFormed(t) && t.columns == raw.columns && |t.rows| == |raw.rows|
  {
    Coded(ToText(raw, TextColumns, numText))
  }

  lemma Coded2Rows(raw: Table, numText: (string, real) -> string, i: nat)
    requires WellFormed(raw) && i < |raw.rows|
    ensures var row, text := raw.rows[i], TextCells(raw.rows[i], TextColumns, numText);
      Coded2(raw, numText).rows[i] == if Target in text then text[Target := StatusCode(text[Target])] else text
    ensures forall c | c in AmountSubset :: (c in raw.rows[i] <==> c in Coded2(raw, numText).rows[i])
    ensures forall c | c in AmountSubset && c in raw.rows[i] :: Coded2(raw, numText).rows[i][c] == raw.rows[i][c]
  {
    CleaningNamesDiffer();
    ToTextRows(raw, TextColumns, numText, i);
    CodedRows(ToText(raw, TextColumns, numText), i);
  }

  lemma SurvivorsAgree(raw: Table, numText: (string, real) -> string)
    requires WellFormed(raw)
    ensures DropsIncomplete(raw) ==>
      KeptPositions(Coded2(raw, numText).rows, AmountSubset) == KeptPositions(raw.rows, AmountSubset)
  {
    var t := Coded2(raw, numText);
    forall i | 0 <= i < |raw.rows| ensures HasValues(t.rows[i], AmountSubset) <==> HasValues(raw.rows[i], AmountSubset) {
      Coded2Rows(raw, numText, i);
    }
    KeptPositionsAgree(t.rows, raw.rows, AmountSubset);
  }

  /** The row filter keeps the coded rows at the surviving positions. */
  lemma CompleteRows(raw: Table, numText: (string, real) -> string)
    requires WellFormed(raw)
    ensures var t2, t3, idx := Coded2(raw, numText), Complete(Coded2(raw, numText)), Survivors(raw);
      && |t3.rows| == |idx|
      && Increasing(idx)
      && (forall k | 0 <= k < |idx| :: idx[k] < |raw.rows| && t3.rows[k] == t2.rows[idx[k]])
      && (forall i | 0 <= i < |raw.rows| :: i in idx <==> Keeps(raw, raw.rows[i]))
  {
    var t2 := Coded2(raw, numText);
    var idx := Survivors(raw);
    if DropsIncomplete(raw) {
      DropNaSelects(t2.rows, AmountSubset);
      SurvivorsAgree(raw, numText);
      DropNaSelects(raw.rows, AmountSubset);
    } else {
      forall i | 0 <= i < |raw.rows| ensures i in idx {
        assert idx[i] == i;
      }
    }
  }

  lemma WithoutRowIdRow(t: Table, k: nat)
    requires WellFormed(t) && k < |t.rows|
    ensures WithoutRowId(t).rows[k] == t.rows[k] - {RowId}
  {
    assert RowId in t.rows[k] <==> RowId in Names(t.columns);
  }

  /**
   * Cleaning keeps exactly the raw rows the filter keeps, in their order, and
   * turns each into its `CleanRecord`.
   */
  lemma CleanRows(raw: Table, numText: (string, real) -> string)
    requires WellFormed(raw)
    ensures var c, idx := Clean(raw, numText), Survivors(raw);
      && |c.rows| == |idx|
      && Increasing(idx)
      && (forall k | 0 <= k < |idx| :: idx[k] < |raw.rows| && c.rows[k] == CleanRecord(raw.rows[idx[k]], numText))
      && (forall i | 0 <= i < |raw.rows| :: i in idx <==> Keeps(raw, raw.rows[i]))
  {
    var t2 := Coded2(raw, numText);
    var t3 := Complete(t2);
    var idx := Survivors(raw);
    CompleteRows(raw, numText);
    forall k | 0 <= k < |idx| ensures Clean(raw, numText).rows[k] == CleanRecord(raw.rows[idx[k]], numText) {
      Coded2Rows(raw, numText, idx[k]);
      WithoutRowIdRow(t3, k);
    }
  }

  /**
   * The cleaned table has the raw columns in their order without Loan_ID; it
   * has the target column exactly when the raw table has it.
   */
  lemma CleanColumns(raw: Table, numText: (string, real) -> string)
    requires WellFormed(raw)
    ensures Clean(raw, numText).columns == Remove(raw.columns, RowId)
    ensures RowId !in Clean(raw, numText).columns
    ensures Target in Clean(raw, numText).columns <==> Target in raw.columns
  {
    var r := Clean(raw, numText).columns;
    assert Names(r) == Names(raw.columns) - {RowId};
    assert RowId !in Names(r);
    CleaningNamesDiffer();
    assert Target in raw.columns <==> Target in Names(raw.columns);
    assert Target in r <==> Target in Names(r);
  }

  // ---------------------------------------------------------------------
  // The imperative procedure.

  /**
   * `load_and_clean_data`. A missing file raises before anything is read;
   * otherwise the frame read from it is cleaned in place step by step. The
   * write of the cleaned CSV is not modelled.
   */
  method LoadAndClean(fileExists: bool, path: string, raw: Table, numText: (string, real) -> string) returns (r: Result<Frame>)
    requires WellFormed(raw)
    ensures !fileExists ==> r == Failure(FileNotFoundError(path))
    ensures fileExists ==> r.Success? && fresh(r.value) && r.value.Valid() && r.value.View() == Clean(raw, numText)
  {
    if !fileExists {
      return Failure(FileNotFoundError(path));
    }
    var df := new Frame(raw);
    for k := 0 to |TextColumns|
      invariant fresh(df)
      invariant df.View() == ToText(raw, TextColumns[..k], numText)
    {
      ToTextStep(raw, TextColumns, k, numText);
      if df.Has(TextColumns[k]) {
        df.Assign(TextColumns[k], TextSeries(df.Get(TextColumns[k]), TextColumns[k], numText));
      }
    }
    assert TextColumns[..|TextColumns|] == TextColumns;
    if df.Has(Target) {
      df.Assign(Target, StatusSeries(df.Get(Target)));
    }
    if df.Has(LoanAmount) && df.Has(LoanAmountTerm) {
      df := df.DropNa(AmountSubset);
    }
    if df.Has(RowId) {
      df.Drop(RowId);
    }
    return Success(df);
  }

  // ---------------------------------------------------------------------
  // The target split and the training run.

  /** The split into features and target: after the check that the target exists, X is the frame without it and y is its column. */
  function SplitTarget(df: Table): (r: Result<(Table, Series)>)
    requires WellFormed(df)
    ensures r.Failure? <==> Target !in df.columns
    ensures r.Failure? ==> r.error == KeyError(Target)
    ensures r.Success? ==>
      var (x, y) := r.value;
      && WellFormed(x)
      && x.columns == Remove(df.columns, Target) && Target !in Names(x.columns)
      && |x.rows| == |y| == |df.rows|
      && forall i | 0 <= i < |y| :: x.rows[i] == df.rows[i] - {Target} && y[i] == df.rows[i][Target]
  {
    if Target !in df.columns then Failure(KeyError(Target))
    else
      ColumnHasCells(df, Target);
      Success((WithoutColumn(df, Target), Column(df, Target)))
  }

  /** Putting the target cell back into each row of X gives the cleaned rows back. */
  lemma SplitRejoins(df: Table)
    requires WellFormed(df) && SplitTarget(df).Success?
    ensures var (x, y) := SplitTarget(df).value;
      forall i | 0 <= i < |df.rows| :: x.rows[i][Target := y[i]] == df.rows[i]
  {
    var (x, y) := SplitTarget(df).value;
    forall i | 0 <= i < |df.rows| ensures x.rows[i][Target := y[i]] == df.rows[i] {
      assert Target in Names(df.columns);
      assert x.rows[i][Target := y[i]].Keys == df.rows[i].Keys;
    }
  }

  /** The CatBoost settings of the training run. */
  datatype Estimator = CatBoost(verbose: nat, depth: nat, iterations: nat, l2LeafReg: real, learningRate: real)

  /** The `ColumnTransformer`: scaled-and-reduced numeric columns, imputed one-hot categorical ones. */
  datatype Preprocessor = Preprocessor(
    numeric: seq<string>, pcaComponents: nat,
    categorical: seq<string>, fillValue: string, ignoreUnknown: bool,
    passthroughRest: bool)

  datatype Step = FeatureEngineerStep | PreprocessorStep(pre: Preprocessor) | EstimatorStep(model: Estimator)

  datatype Pipeline = Pipeline(steps: seq<(string, Step)>)

  function Min(a: int, b: int): int {
    if a <= b then a else b
  }

  /**
   * `create_full_pipeline`: feature engineering, then the column transformer,
   * then the estimator, in that order.
   */
  function CreateFullPipeline(numeric: seq<string>, categorical: seq<string>, model: Estimator): (p: Pipeline)
    ensures |p.steps| == 3
    ensures p.steps[0] == ("feature_engineer", FeatureEngineerStep)
    ensures p.steps[1].0 == "preprocessor" && p.steps[1].1.PreprocessorStep?
    ensures p.steps[2] == ("estimator", EstimatorStep(model))
    ensures var pre := p.steps[1].1.pre;
      && pre.numeric == numeric && pre.categorical == categorical
      && pre.pcaComponents <= 5 && pre.pcaComponents <= |numeric|
      && (pre.pcaComponents == 5 || pre.pcaComponents == |numeric|)
      && pre.fillValue == "DK" && pre.ignoreUnknown && pre.passthroughRest
  {
    var pre := Preprocessor(numeric, Min(5, |numeric|), categorical, "DK", true, true);
    Pipeline([("feature_engineer", FeatureEngineerStep), ("preprocessor", PreprocessorStep(pre)), ("estimator", EstimatorStep(model))])
  }

  const NumericalColumns: seq<string> :=
    [Income, ApplicantIncome, CoapplicantIncome, LoanInstallment, LoanAmount, LoanAmountTerm, IncomeImpact]

  const CategoricalColumns: seq<string> :=
    ["Gender", "Married", "Education", "Self_Employed", "Dependents", "Property_Area", "Credit_History"]

  const TrainingEstimator := CatBoost(0, 4, 100, 1.0, 0.01)

  /** The training pipeline keeps 5 principal components of its seven numeric columns. */
  lemma TrainingPipelineComponents()
    ensures CreateFullPipeline(NumericalColumns, CategoricalColumns, TrainingEstimator).steps[1].1.pre.pcaComponents == 5
  {
  }

  /**
   * Every numeric column the preprocessor reads is a column the feature
   * engineer guarantees, whatever the input frame lacks.
   */
  lemma NumericColumnsDerived(t: Table)
    requires WellFormed(t) && AmountsNumeric(t)
    ensures forall c | c in NumericalColumns :: c in Derive(t).columns
  {
    DeriveColumns(t);
    DerivedNames();
    forall c | c in NumericalColumns ensures c in Derive(t).columns {
      assert c in Names(AmountColumns) || c in Names(DerivedColumns);
      assert c in Names(Derive(t).columns);
    }
  }

  /** What `train_model` hands to `pipeline.fit`. */
  datatype TrainingRun = TrainingRun(pipeline: Pipeline, x: Table, y: Series)

  /**
   * `train_model` up to the call of `fit`: builds the pipeline, loads and
   * cleans the data, checks the target and splits it off. Fitting and saving
   * the pipeline are foreign calls and are not modelled.
   */
  method TrainModel(fileExists: bool, path: string, raw: Table, numText: (string, real) -> string) returns (r: Result<TrainingRun>)
    requires WellFormed(raw)
    ensures !fileExists ==> r == Failure(FileNotFoundError(path))
    ensures fileExists && Target !in raw.columns ==> r == Failure(KeyError(Target))
    ensures fileExists && Target in raw.columns ==>
      && r.Success?
      && r.value.pipeline == CreateFullPipeline(NumericalColumns, CategoricalColumns, TrainingEstimator)
      && SplitTarget(Clean(raw, numText)) == Success((r.value.x, r.value.y))
  {
    var pipeline := CreateFullPipeline(NumericalColumns, CategoricalColumns, TrainingEstimator);
    var loaded := LoadAndClean(fileExists, path, raw, numText);
    if loaded.Failure? {
      return Failure(loaded.error);
    }
    var df := loaded.value.View();
    CleanColumns(raw, numText);
    var split := SplitTarget(df);
    if split.Failure? {
      return Failure(split.error);
    }
    var (x, y) := split.value;
    return Success(TrainingRun(pipeline, x, y));
  }
}
