# Loan pre-approval: feature engineering, training data and inference, in Dafny

This project models the core of a small loan pre-approval application. The
application trains a scikit-learn pipeline (a feature-engineering step, a
column transformer and a CatBoost classifier) on a CSV of past applications.
A Streamlit form then collects one applicant's answers, runs the fitted
pipeline on them and shows the predicted label.

The model covers four parts:

- **Features** (`scripts/custom_transformers.py`). `FeatureEngineer.transform`
  is a class method that updates a copy of the frame step by step.
  - It is modelled as `FeatureEngineer.Transform` on a `Frame` class, which
    stands for a pandas DataFrame.
  - `Transform` is proved equal to the column-wise function `Derive`.
  - `Derive` is shown to act row by row as the record-level reference
    `DeriveRecord`: defaults of 0 for the four amounts, `Income`,
    `LoanInstallment` with a term of 0 treated as 1, and `IncomeImpact` over
    the applicant income, else the total income, else NaN.
  - The lemmas show that no division by zero happens, that the derived
    columns are the ones promised, and that transforming twice changes
    nothing.
- **Training** (`scripts/train_model.py`).
  - `load_and_clean_data` is a method (`LoadAndClean`) proved equal to the
    function `Clean`.
  - `Clean` is described row by row by `CleanRecord` and by the positions of
    the surviving rows.
  - The model also covers the split of the target column, the structure
    `create_full_pipeline` builds, and `train_model` up to the call of `fit`.
- **Prediction** (`app/prediction.py`). `make_prediction` takes the fitted
  pipeline as a value holding its `predict` and optional `predict_proba`
  entry points. It returns the truncated label and the class-1 probability,
  with the error paths of the source.
- **Form** (`app/form.py`).
  - The rejection of a zero applicant income or loan amount.
  - The `user_input` dict built from the answers.
  - The display of the result: the label text, and the left and right
    review panes.
  - The whole `show_prediction_form` run.

Values are modelled as follows:

- a cell is `Num(real)`, `Str(string)` or `Missing` (NaN);
- a frame's value is a `Table`: a column list plus one map per row;
- Python exceptions become the `Failure` case of a `Result`.

## Model

| member | source | states |
|---|---|---|
| Frames.Frame.Copy | scripts/custom_transformers.py:19 | the copy is a fresh frame with the same columns and rows; the original is untouched |
| Frames.Frame.Assign | scripts/custom_transformers.py:28 | `df[col] = series` replaces the column in place, or appends it at the end, and changes nothing else |
| Frames.Frame.FillNa | scripts/custom_transformers.py:31-32 | only the named columns change, with NaN cells replaced by the fill value |
| Frames.Frame.DropNa | scripts/train_model.py:76-77 | a fresh frame holding the rows that have a value in every subset column |
| Frames.Frame.Drop | scripts/train_model.py:79-80 | in place: the column is removed from the column list and from every row |
| Frames.Column | scripts/train_model.py:113 | `df[name]` is the column's cells, one per row, top to bottom |
| Frames.WithColumn | scripts/custom_transformers.py:35 | `df[name] = values` sets the cell in every row; an existing column keeps its place, a new one is appended at the end |
| Frames.WithoutColumn | scripts/train_model.py:79-80 | `drop` removes the name from the column list (order kept) and from every row |
| Frames.FillMissing | scripts/custom_transformers.py:31-32 | `fillna` replaces NaN by the fill value in the listed columns only; columns and row count are unchanged |
| Frames.WithoutIncompleteRows | scripts/train_model.py:76-77 | `dropna` keeps the column list; its rows are described by `DropNaSelects` |
| Frames.Frame.constructor | scripts/train_model.py:63 | a frame read from the CSV holds exactly the table read |
| Frames.Frame.Get | scripts/custom_transformers.py:35 | `df[name]` on a frame is `Column` of its value |
| Frames.DropNaSelects | scripts/train_model.py:77 | the kept rows are exactly the complete ones, in their original order (increasing positions, and a position is kept iff that row is complete) |
| Frames.FromItems | app/form.py:54-67 | a dict literal with distinct keys yields exactly the listed items, in that order |
| Frames.OneRowTable | app/prediction.py:46 | `pd.DataFrame([d])` is a well-formed one-row frame whose columns are the dict's keys in order and whose row is the dict |
| Features.AddDefault | scripts/custom_transformers.py:27-28 | a present column leaves the frame unchanged; an absent one is appended at the end |
| Features.AddDefaultRows | scripts/custom_transformers.py:27-28 | a column added by default holds 0 in every row, and nothing else in the row changes |
| Features.AddDefaults | scripts/custom_transformers.py:26-28 | every listed column is present afterwards; existing columns keep their positions; the column set gains exactly the listed names |
| Features.Defaulted | scripts/custom_transformers.py:25-32 | every amount column has a cell in every row; column set = input columns plus the four amounts |
| Features.WithIncome | scripts/custom_transformers.py:35 | each row gets `Income` = applicant income + coapplicant income (NaN if either is NaN); existing columns are kept |
| Features.TermCell | scripts/custom_transformers.py:38-39 | the divisor is never 0: a non-zero term is kept, and 0 or NaN becomes 1 |
| Features.LoanTerm | scripts/custom_transformers.py:38-39 | the whole term series has no zero, and each entry is that row's `TermCell` |
| Features.WithInstallment | scripts/custom_transformers.py:42 | each row gets `LoanInstallment` = loan amount / its non-zero term |
| Features.DenomCell | scripts/custom_transformers.py:45-47 | the divisor is the applicant income when non-zero, else the income when non-zero, else NaN; it is never 0 |
| Features.Denominator | scripts/custom_transformers.py:45-47 | the divisor series has no zero, and each entry is that row's `DenomCell` |
| Features.WithImpact | scripts/custom_transformers.py:49-52 | each row gets `IncomeImpact` = installment / its non-zero divisor |
| Features.Derive | scripts/custom_transformers.py:17-54 | the value-level transform, stage by stage; its own contract states only a well-formed result with the same row count, and its meaning is stated by `DeriveIsRowwise`, `DeriveColumns` and `DeriveIdempotent` |
| Features.DeriveRecord | scripts/custom_transformers.py:17-54 | record-level meaning of the transform: the keys gain the 4 amounts and 3 derived names; other fields pass through; the three derived values are given in terms of the amounts, with 0 for missing amounts |
| Features.DeriveRecordImpact | scripts/custom_transformers.py:44-52 | `IncomeImpact` is NaN iff both incomes are 0; otherwise it is the installment over the applicant income, or over the coapplicant income when the applicant income is 0 |
| Features.DeriveRecordAmounts | scripts/custom_transformers.py:25-32 | after the transform each amount is a number: the original number, or 0 when it was absent or NaN |
| Features.InstallmentCoversLoan | scripts/custom_transformers.py:37-42 | installment × effective term = loan amount; with a term of 0 the installment is the whole loan amount (no division by zero, no infinity) |
| Features.DeriveIsRowwise | scripts/custom_transformers.py:17-54 | the column-wise transform gives, row by row, exactly `DeriveRecord` of each input row |
| Features.DeriveColumns | scripts/custom_transformers.py:25-49 | the input columns stay in place as a prefix; the output columns are exactly the input's plus the four amounts and the three derived columns |
| Features.DeriveKeepsPresentColumns | scripts/custom_transformers.py:26-28 | a frame that already has all seven columns keeps its column list unchanged |
| Features.DeriveAmountsNumeric | scripts/custom_transformers.py:31-32 | a transformed frame has no text in its amount columns, so it can be transformed again |
| Features.DeriveRecordIdempotent | scripts/custom_transformers.py:17-54 | deriving an already derived record gives it back unchanged |
| Features.DeriveIdempotent | scripts/custom_transformers.py:17-54 | transforming a transformed frame gives the same frame (columns and rows) |
| Features.FeatureEngineer.constructor | scripts/custom_transformers.py:11-12 | stores `feature_name` |
| Features.FeatureEngineer.Fit | scripts/custom_transformers.py:14-15 | `fit` learns nothing and returns the transformer itself |
| Features.FeatureEngineer.Transform | scripts/custom_transformers.py:17-54 | returns a fresh frame whose value is `Derive` of the input; the caller's frame is unchanged |
| Training.AsText | scripts/train_model.py:68-70 | `astype(str)` of a cell is always text: text is kept, NaN becomes "nan", and a number is written by the formatting of its column's dtype |
| Training.StatusCode | scripts/train_model.py:72-73 | 'Y' ↦ 1, 'N' ↦ 0, and every other value (NaN included) ↦ NaN, each as an iff |
| Training.ToText | scripts/train_model.py:65-70 | the conversion loop keeps the columns and the row count |
| Training.Coded | scripts/train_model.py:72-73 | coding the status keeps the columns and the row count |
| Training.Complete | scripts/train_model.py:75-77 | the row filter keeps the columns |
| Training.WithoutRowId | scripts/train_model.py:79-80 | the columns lose exactly `Loan_ID`, keeping their order and the row count |
| Training.Clean | scripts/train_model.py:65-80 | the cleaning steps in source order; its own contract states only a well-formed result, and its meaning is stated by `CleanRows` and `CleanColumns` |
| Training.Survivors | scripts/train_model.py:76-77 | the surviving positions are in range and strictly increasing, and all rows survive when no filter applies; `CleanRows` says which positions they are |
| Training.CleanRecord | scripts/train_model.py:65-80 | record-level meaning of cleaning: `Loan_ID` is gone, the seven categorical fields are text, the target is `StatusCode` of its raw value, and every other field is unchanged |
| Training.CleanRows | scripts/train_model.py:57-85 | cleaned row k is `CleanRecord` of the raw row at surviving position k; positions increase, and a raw row survives iff it has both amount values (or a column of the subset is absent) |
| Training.CleanColumns | scripts/train_model.py:65-80 | the cleaned columns are the raw ones in order without `Loan_ID`; the target column is present iff it was in the raw data |
| Training.LoadAndClean | scripts/train_model.py:57-85 | a missing file raises FileNotFoundError with the path; otherwise returns a fresh frame whose value is `Clean` of the table read |
| Training.SplitTarget | scripts/train_model.py:108-113 | fails with KeyError iff the target column is absent; otherwise X has every column but the target, in order, each row minus the target, and y is the target column |
| Training.SplitRejoins | scripts/train_model.py:112-113 | putting y's cell back into each X row gives the cleaned row back |
| Training.CreateFullPipeline | scripts/train_model.py:30-55 | steps feature_engineer → preprocessor → estimator, in that order; PCA components = min(5, number of numeric columns); categorical fill value 'DK'; unknown categories ignored; the other columns pass through |
| Training.TrainingPipelineComponents | scripts/train_model.py:88-104 | the training pipeline keeps 5 components of its seven numeric columns |
| Training.NumericColumnsDerived | scripts/train_model.py:88-92 | every numeric column the preprocessor selects exists after feature engineering, whatever the input lacks |
| Training.TrainModel | scripts/train_model.py:87-116 | FileNotFoundError without a file; KeyError when the raw data has no target; otherwise the pipeline built and the X/y split of the cleaned data that `fit` receives |
| Prediction.Trunc | app/prediction.py:49-50 | `int()` of a float truncates toward zero (the floor for non-negatives, the ceiling for negatives) |
| Prediction.Probability | app/prediction.py:55-64 | a probability is reported iff `predict_proba` exists, returns normally, has at least two columns and at least one row; it is then entry [0, 1] |
| Prediction.MakePrediction | app/prediction.py:41-66 | no pipeline gives ValueError; a failing `predict` propagates its error; an empty prediction gives TypeError; otherwise (truncated first prediction, `Probability`) |
| Form.Rejected | app/form.py:46 | the check that stops the form: applicant income 0 or loan amount 0 |
| Form.BoundsPassCheck | app/form.py:23-52 | within the widgets' bounds (applicant income and loan amount at least 1), the zero check never rejects |
| Form.OrUnknown | app/form.py:55-58 | the "no answer" choice becomes 'DK'; any other answer is kept |
| Form.CreditFlag | app/form.py:64 | credit history is 1 iff the answer is 'Yes', and 0 otherwise |
| Form.InputItems | app/form.py:54-67 | the keys of the items are the eleven training column names, in the literal's order |
| Form.InputKeysDistinct | app/form.py:54-67 | the eleven keys are pairwise different |
| Form.UserInput | app/form.py:54-67 | a valid dict with the eleven keys in order, whose items are exactly `InputItems` |
| Form.UserInputAmounts | app/form.py:60-63 | the four amounts reach the dict as the numbers entered |
| Form.UserInputAnswers | app/form.py:55-65 | the categorical answers go in with "no answer" choices as 'DK', and credit history as 1 or 0 |
| Form.UserInputDerivable | app/prediction.py:46-48 | the one-row frame of a form's dict has numeric amounts, and its feature step is `DeriveRecord` of the dict |
| Form.AcceptedInputHasImpact | app/form.py:46-67 | for an accepted form: Income = sum of the incomes; installment = amount / term when the term is not 0; IncomeImpact is a number, the installment over the applicant income |
| Form.LabelText | app/form.py:83-86 | label 1 ↦ "Pre-Approved", 0 ↦ "Not Pre-Approved", and no text for any other label (each as an iff) |
| Form.ShowPredictionResults | app/form.py:75-104 | a label other than 0 or 1 raises UnboundLocalError; otherwise the label text, the first ⌊n/2⌋ items in the left pane and the rest in the right pane, in insertion order |
| Form.PanesCoverInput | app/form.py:97-104 | the two panes together list every item once, in order, and the right pane has at most one more item than the left |
| Form.ShowPredictionForm | app/form.py:4-72 | no submission does nothing; a zero income or loan amount is rejected; no pipeline raises ValueError; a prediction error or an unknown label raises; otherwise it returns the form's dict, the truncated label and `Probability`, and shows the label text with the first ⌊n/2⌋ items in the left pane and the rest in the right |

## Left out

- Form.ShowPredictionResults: the probability reaches the display function (its `prob` argument) but is never shown; only the label text and the two panes are displayed.
- Page rendering is not modelled: titles, widgets, `st.error`/`st.success`, the expanders, the interpretation text and `key.title()` in the review panes. The form's answers arrive as a value, and the panes are lists of (key, value) items.
- File and model I/O are not modelled: `pd.read_csv` becomes the `raw` table parameter, and `os.path.exists` the `fileExists` parameter. The `to_csv` of the cleaned data, `joblib.dump`, `os.makedirs`, `load_model` and the configuration paths are left out.
- scikit-learn and CatBoost are foreign code: `StandardScaler`, `PCA`, `SimpleImputer`, `OneHotEncoder`, `ColumnTransformer` and `CatBoostClassifier` are recorded as configuration only. `fit` is not executed: `TrainModel` stops at what `fit` receives. At inference, the pipeline's `predict` and `predict_proba` are function values.
- Training.AsText: number formatting in `astype(str)` is the `numText(column, x)` parameter, one formatter per column. It stands for the dtype `read_csv` inferred for that column ("1" for an int64 column, "1.0" for a float64 one). The model does not derive the dtype from the file's contents.
- Floating point is modelled as exact reals. Overflow to infinity cannot be expressed, so the replacement of ±inf by NaN in scripts/custom_transformers.py:52 has no effect in the model: every division has a non-zero divisor.
- The `isinstance` conversion in scripts/custom_transformers.py:22-23 is left out: the transform always receives a frame.
- Features.FeatureEngineer.Transform: requires the amount columns to hold numbers or NaN (`AmountsNumeric`). With text there, pandas raises TypeError; that error path is not modelled.
- Prediction.MakePrediction: an empty `predict` output is reported as TypeError with a fixed message; the exact numpy exception text is not modelled. A `predict` output that is not one-dimensional is not modelled.
- Prediction.MakePrediction: "no `predict_proba` attribute" is modelled as an absent function value (`None`).
- Form.ShowPredictionForm: the answers are integers, as the widgets' integer bounds deliver them. The zero check follows the code (`== 0`), not a rule that rejects every non-positive value.
- The `print` progress messages of the training script are left out: they are output only.
- Default arguments are not modelled: `feature_name='feature_A'` of the transformer's constructor, and `prob=None` of the display function. Callers in the model always pass both.
- Training.SplitTarget: the KeyError carries the target column's name, not the full message text of the source.
