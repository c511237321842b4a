/**
 * The prediction form of app/form.py: the check on the submitted numbers,
 * the `user_input` record built from the answers, and the result display
 * (label text and the two review panes). Widgets and page rendering are
 * not modelled; the answers arrive as a value.
 */
module Form {
  import opened Common
  import opened Frames
  import opened Features
  import opened Prediction

  /** The answers of one submitted form, as the widgets deliver them. */
  datatype Answers = Answers(
    gender: string, married: string, education: string, dependents: int,
    applicantIncome: int, selfEmployed: string, creditHistory: string,
    coapplicantIncome: int, loanAmountTerm: int, propertyArea: string,
    loanAmount: int)

  /** The bounds the number inputs and the slider enforce. */
  predicate WithinWidgetBounds(a: Answers) {
    && 0 <= a.dependents <= 20
    && 1 <= a.applicantIncome <= 100000
    && 0 <= a.coapplicantIncome <= 100000
    && 60 <= a.loanAmountTerm <= 480 && a.loanAmountTerm % 60 == 0
    && 1 <= a.loanAmount <= 700
  }

  /** The source refuses to predict when the applicant income or the loan amount is 0. */
  predicate Rejected(a: Answers) {
    a.applicantIncome == 0 || a.loanAmount == 0
  }

  /** The widgets' lower bounds already exclude the rejected answers. */
  lemma BoundsPassCheck(a: Answers)
    requires WithinWidgetBounds(a)
    ensures !Rejected(a)
  {
  }

  /** An answer that stands for "no answer" becomes the sentinel 'DK'. */
  function OrUnknown(answer: string, unanswered: string): (r: string)
    ensures answer == unanswered ==> r == "DK"
    ensures answer != unanswered ==> r == answer
  {
    if answer == unanswered then "DK" else answer
  }

  /** Credit history 'Yes' is 1, every other answer 0. */
  function CreditFlag(answer: string): (r: real)
    ensures r == 1.0 <==> answer == "Yes"
    ensures r == 0.0 <==> answer != "Yes"
  {
    if answer == "Yes" then 1.0 else 0.0
  }

  /** The keys of `user_input`, in the order the dict literal lists them. */
  const InputKeys: seq<string> := [
    "Gender", "Married", "Dependents", "Education", "Self_Employed",
    ApplicantIncome, CoapplicantIncome, LoanAmount, LoanAmountTerm,
    "Credit_History", "Property_Area"]

  lemma InputKeysDistinct()
    ensures Distinct(InputKeys)
  {
    var k := InputKeys;
    forall i, j | 0 <= i < j < |k| ensures k[i] != k[j] {
      assert k[i][0] != k[j][0] || k[i][1] != k[j][1] || k[i][4] != k[j][4] || k[i][5] != k[j][5] || |k[i]| != |k[j]|;
    }
  }

  /** The items of `user_input`, in the order the dict literal lists them. */
  function InputItems(a: Answers): (items: seq<(string, Value)>)
    ensures KeysOf(items) == InputKeys
  {
    [("Gender", Str(OrUnknown(a.gender, "Prefer not to say"))),
     ("Married", Str(OrUnknown(a.married, "Not Specified"))),
     ("Dependents", Num(a.dependents as real)),
     ("Education", Str(OrUnknown(a.education, "Not Specified"))),
     ("Self_Employed", Str(a.selfEmployed)),
     (ApplicantIncome, Num(a.applicantIncome as real)),
     (CoapplicantIncome, Num(a.coapplicantIncome as real)),
     (LoanAmount, Num(a.loanAmount as real)),
     (LoanAmountTerm, Num(a.loanAmountTerm as real)),
     ("Credit_History", Num(CreditFlag(a.creditHistory))),
     ("Property_Area", Str(a.propertyArea))]
  }

  /**
   * The record `show_prediction_form` passes to the model: the answers under
   * their training column names, in the order of the dict literal.
   */
  function UserInput(a: Answers): (d: Record)
    ensures ValidRecord(d) && d.keys == InputKeys
    ensures Items(d) == InputItems(a)
  {
    InputKeysDistinct();
    FromItems(InputItems(a))
  }

  /** Each key of a dict holds the value its items list with it. */
  lemma ItemValue(d: Record, i: int)
    requires ValidRecord(d) && 0 <= i < |d.keys|
    ensures Items(d)[i].0 in d.values && d.values[Items(d)[i].0] == Items(d)[i].1
  {
    assert d.keys[i] in Names(d.keys);
  }

  /** The four amounts reach the model as the numbers entered. */
  lemma UserInputAmounts(a: Answers)
    ensures ApplicantIncome in UserInput(a).values && UserInput(a).values[ApplicantIncome] == Num(a.applicantIncome as real)
    ensures CoapplicantIncome in UserInput(a).values && UserInput(a).values[CoapplicantIncome] == Num(a.coapplicantIncome as real)
    ensures LoanAmount in UserInput(a).values && UserInput(a).values[LoanAmount] == Num(a.loanAmount as real)
    ensures LoanAmountTerm in UserInput(a).values && UserInput(a).values[LoanAmountTerm] == Num(a.loanAmountTerm as real)
  {
    var d := UserInput(a);
    var items := InputItems(a);
    ItemValue(d, 5);
    ItemValue(d, 6);
    ItemValue(d, 7);
    ItemValue(d, 8);
  }

  /** The categorical answers, with "no answer" choices sent as 'DK' and the credit history as 1 or 0. */
  lemma UserInputAnswers(a: Answers)
    ensures "Gender" in UserInput(a).values && UserInput(a).values["Gender"] == Str(OrUnknown(a.gender, "Prefer not to say"))
    ensures "Married" in UserInput(a).values && UserInput(a).values["Married"] == Str(OrUnknown(a.married, "Not Specified"))
    ensures "Education" in UserInput(a).values && UserInput(a).values["Education"] == Str(OrUnknown(a.education, "Not Specified"))
    ensures "Self_Employed" in UserInput(a).values && UserInput(a).values["Self_Employed"] == Str(a.selfEmployed)
    ensures "Dependents" in UserInput(a).values && UserInput(a).values["Dependents"] == Num(a.dependents as real)
    ensures "Credit_History" in UserInput(a).values && UserInput(a).values["Credit_History"] == Num(CreditFlag(a.creditHistory))
    ensures "Property_Area" in UserInput(a).values && UserInput(a).values["Property_Area"] == Str(a.propertyArea)
  {
    var d := UserInput(a);
    ItemValue(d, 0);
    ItemValue(d, 1);
    ItemValue(d, 2);
    ItemValue(d, 3);
    ItemValue(d, 4);
    ItemValue(d, 9);
    ItemValue(d, 10);
  }

  /** The one-row frame of a form's record meets what the feature step needs, and is derived row by row. */
  lemma UserInputDerivable(a: Answers)
    ensures var t := OneRowTable(UserInput(a));
      && AmountsNumeric(t)
      && Derive(t).rows == [DeriveRecord(UserInput(a).values)]
  {
    UserInputAmounts(a);
    OneRowDerivable(UserInput(a), a.applicantIncome as real, a.coapplicantIncome as real,
                    a.loanAmount as real, a.loanAmountTerm as real);
  }

  lemma OneRowDerivable(d: Record, ai: real, co: real, la: real, term: real)
    requires ValidRecord(d)
    requires ApplicantIncome in d.values && d.values[ApplicantIncome] == Num(ai)
    requires CoapplicantIncome in d.values && d.values[CoapplicantIncome] == Num(co)
    requires LoanAmount in d.values && d.values[LoanAmount] == Num(la)
    requires LoanAmountTerm in d.values && d.values[LoanAmountTerm] == Num(term)
    ensures var t := OneRowTable(d);
      && AmountsNumeric(t)
      && Derive(t).rows == [DeriveRecord(d.values)]
  {
    var t := OneRowTable(d);
    var row := d.values;
    assert AmountsNumeric(t) by {
      forall c | c in AmountColumns && c in row ensures !row[c].Str? {
      }
    }
    DeriveIsRowwise(t);
  }

  /**
   * The features derived from an accepted form: the income is the sum of the
   * two incomes, the installment the loan amount over the term (when the term
   * is not 0), and the income impact is a number, the installment over the
   * applicant income.
   */
  lemma AcceptedInputHasImpact(a: Answers)
    requires !Rejected(a)
    ensures var r := DeriveRecord(UserInput(a).values);
      && r[Income] == Num(a.applicantIncome as real + a.coapplicantIncome as real)
      && (a.loanAmountTerm != 0 ==> r[LoanInstallment] == Num(a.loanAmount as real / a.loanAmountTerm as real))
      && r[IncomeImpact] == Num(r[LoanInstallment].x / a.applicantIncome as real)
  {
    UserInputAmounts(a);
    DerivedFromNumbers(UserInput(a).values, a.applicantIncome as real, a.coapplicantIncome as real,
                       a.loanAmount as real, a.loanAmountTerm as real);
  }

  lemma DerivedFromNumbers(row: Row, ai: real, co: real, la: real, term: real)
    requires ApplicantIncome in row && row[ApplicantIncome] == Num(ai)
    requires CoapplicantIncome in row && row[CoapplicantIncome] == Num(co)
    requires LoanAmount in row && row[LoanAmount] == Num(la)
    requires LoanAmountTerm in row && row[LoanAmountTerm] == Num(term)
    requires ai != 0.0
    ensures var r := DeriveRecord(row);
      && r[Income] == Num(ai + co)
      && (term != 0.0 ==> r[LoanInstallment] == Num(la / term))
      && r[IncomeImpact] == Num(r[LoanInstallment].x / ai)
  {
    var r := DeriveRecord(row);
    assert Amount(row, ApplicantIncome) == ai && Amount(row, CoapplicantIncome) == co;
    assert Amount(row, LoanAmount) == la && Amount(row, LoanAmountTerm) == term;
    DeriveRecordImpact(row);
  }

  /** What `show_prediction_results` puts on the page. */
  datatype Display = Display(value: string, left: seq<(string, Value)>, right: seq<(string, Value)>)

  /** The text shown for a label; other labels have none. */
  function LabelText(prediction: int): (r: Option<string>)
    ensures prediction == 1 <==> r == Some("Pre-Approved")
    ensures prediction == 0 <==> r == Some("Not Pre-Approved")
    ensures r.None? <==> prediction != 0 && prediction != 1
  {
    if prediction == 1 then Some("Pre-Approved")
    else if prediction == 0 then Some("Not Pre-Approved")
    else None
  }

  /**
   * `show_prediction_results`. A label other than 0 or 1 leaves
   * `display_value` unassigned, so showing the metric raises
   * UnboundLocalError. Otherwise the left pane lists the first half of the
   * record's items (rounded down) and the right pane the rest, in order.
   */
  method ShowPredictionResults(prediction: int, userInput: Record, prob: Option<real>) returns (r: Result<Display>)
    requires ValidRecord(userInput)
    ensures r.Failure? <==> LabelText(prediction).None?
    ensures r.Failure? ==> r.error == UnboundLocalError("display_value")
    ensures r.Success? ==>
      var items, half := Items(userInput), |userInput.keys| / 2;
      && Some(r.value.value) == LabelText(prediction)
      && r.value.left == items[..half]
      && r.value.right == items[half..]
  {
    var displayValue: string;
    if prediction == 1 {
      displayValue := "Pre-Approved";
    } else if prediction == 0 {
      displayValue := "Not Pre-Approved";
    } else {
      return Failure(UnboundLocalError("display_value"));
    }
    var keys := userInput.keys;
    var half := |keys| / 2;
    var left: seq<(string, Value)> := [];
    for k := 0 to half
      invariant left == Items(userInput)[..k]
    {
      assert keys[k] in Names(keys);
      left := left + [(keys[k], userInput.values[keys[k]])];
    }
    var right: seq<(string, Value)> := [];
    for k := half to |keys|
      invariant right == Items(userInput)[half..k]
    {
      assert keys[k] in Names(keys);
      right := right + [(keys[k], userInput.values[keys[k]])];
    }
    return Success(Display(displayValue, left, right));
  }

  /** The two panes together show every item of the record once, in insertion order. */
  lemma PanesCoverInput(userInput: Record, d: Display)
    requires ValidRecord(userInput)
    requires d.left == Items(userInput)[..|userInput.keys| / 2]
    requires d.right == Items(userInput)[|userInput.keys| / 2..]
    ensures d.left + d.right == Items(userInput)
    ensures |d.left| <= |d.right| <= |d.left| + 1
  {
    var items := Items(userInput);
    var half := |userInput.keys| / 2;
    assert items[..half] + items[half..] == items;
  }

  /** What a run of `show_prediction_form` ends with. */
  datatype Outcome =
    | NotSubmitted
    | InputRejected
    | Shown(input: Record, verdict: int, prob: Option<real>, display: Display)
    | Raised(error: Error)

  /**
   * `show_prediction_form` after the widgets have been read: nothing happens
   * until the form is submitted; a zero income or loan amount shows an error
   * and stops; otherwise the record is predicted and displayed, and an
   * exception on the way ends the run.
   */
  method ShowPredictionForm(pipeline: Option<Model>, submitted: bool, a: Answers) returns (outcome: Outcome)
    ensures !submitted ==> outcome == NotSubmitted
    ensures submitted && Rejected(a) ==> outcome == InputRejected
    ensures pipeline.None? && submitted && !Rejected(a) ==> outcome == Raised(ValueError("Model pipeline is None"))
    ensures submitted && !Rejected(a) && pipeline.Some? ==>
      var input := OneRowTable(UserInput(a));
      var out := pipeline.value.predict(input);
      && (out.Failure? ==> outcome == Raised(out.error))
      && (out.Success? && |out.value| == 0 ==> outcome.Raised? && outcome.error.TypeError?)
      && (out.Success? && |out.value| > 0 && LabelText(Trunc(out.value[0])).None? ==>
            outcome == Raised(UnboundLocalError("display_value")))
      && (out.Success? && |out.value| > 0 && LabelText(Trunc(out.value[0])).Some? ==>
            && outcome.Shown?
            && outcome.input == UserInput(a)
            && outcome.verdict == Trunc(out.value[0])
            && outcome.prob == Probability(pipeline.value, input)
            && outcome.display.value == LabelText(outcome.verdict).value
            && outcome.display.left == Items(outcome.input)[..|outcome.input.keys| / 2]
            && outcome.display.left + outcome.display.right == Items(outcome.input))
  {
    if !submitted {
      return NotSubmitted;
    }
    if a.applicantIncome == 0 || a.loanAmount == 0 {
      return InputRejected;
    }
    var userInput := UserInput(a);
    var prediction := MakePrediction(pipeline, userInput);
    if prediction.Failure? {
      return Raised(prediction.error);
    }
    var (verdict, prob) := prediction.value;
    var shown := ShowPredictionResults(verdict, userInput, prob);
    if shown.Failure? {
      return Raised(shown.error);
    }
    PanesCoverInput(userInput, shown.value);
    return Shown(userInput, verdict, prob, shown.value);
  }
}
