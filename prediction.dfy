/**
 * `make_prediction` of app/prediction.py: the label and the optional
 * positive-class probability extracted from a fitted pipeline. The pipeline
 * itself (feature engineering, preprocessing and CatBoost) is foreign code,
 * represented by its two entry points as function values.
 */
module Prediction {
  import opened Common
  import opened Frames

  /** The output of `predict_proba`: `shape[1]` is `width`, and every row has that many entries. */
  datatype Proba = Proba(width: nat, rows: seq<seq<real>>)

  type ProbaMatrix = m: Proba | forall i | 0 <= i < |m.rows| :: |m.rows[i]| == m.width
    witness Proba(0, [])

  /**
   * A fitted pipeline as `make_prediction` uses it: `predict`, and
   * `predict_proba` when the object has one. Either may raise.
   */
  datatype Model = Model(
    predict: Table -> Result<seq<real>>,
    predictProba: Option<Table -> Result<ProbaMatrix>>)

  /** Python's `int()` of a float: truncation toward zero. */
  function Trunc(x: real): (n: int)
    ensures 0.0 <= x ==> n as real <= x < n as real + 1.0
    ensures x < 0.0 ==> n as real - 1.0 < x <= n as real
  {
    if 0.0 <= x then x.Floor else -((-x).Floor)
  }

  /**
   * The probability `make_prediction` reports for `input`: entry [0, 1] of
   * `predict_proba`, when the pipeline has one, it returns normally and has at
   * least two columns; None otherwise, an exception included.
   */
  function Probability(model: Model, input: Table): (p: Option<real>)
    ensures p.Some? <==>
      && model.predictProba.Some?
      && model.predictProba.value(input).Success?
      && model.predictProba.value(input).value.width >= 2
      && |model.predictProba.value(input).value.rows| > 0
    ensures p.Some? ==> p.value == model.predictProba.value(input).value.rows[0][1]
  {
    if model.predictProba.None? then None
    else
      var out := model.predictProba.value(input);
      if out.Failure? || out.value.width < 2 || |out.value.rows| == 0 then None
      else Some(out.value.rows[0][1])
  }

  /**
   * `make_prediction(pipeline, user_input)`. A missing pipeline raises
   * ValueError before anything is predicted; otherwise the pipeline sees the
   * one-row frame of the record, the label is the first prediction as an
   * int, and the probability never turns a good label into an error.
   */
  method MakePrediction(pipeline: Option<Model>, userInput: Record) returns (r: Result<(int, Option<real>)>)
    requires ValidRecord(userInput)
    ensures pipeline.None? ==> r == Failure(ValueError("Model pipeline is None"))
    ensures pipeline.Some? ==>
      var input := OneRowTable(userInput);
      var out := pipeline.value.predict(input);
      && (out.Failure? ==> r == Failure(out.error))
      && (out.Success? && |out.value| == 0 ==> r.Failure? && r.error.TypeError?)
      && (out.Success? && |out.value| > 0 ==>
            r == Success((Trunc(out.value[0]), Probability(pipeline.value, input))))
  {
    if pipeline.None? {
      return Failure(ValueError("Model pipeline is None"));
    }
    var model := pipeline.value;
    var inputDf := OneRowTable(userInput);
    var predArray := model.predict(inputDf);
    if predArray.Failure? {
      return Failure(predArray.error);
    }
    var pred: int;
    if |predArray.value| > 0 {
      pred := Trunc(predArray.value[0]);
    } else {
      // `pred_array[0]` raised, and `int()` of an empty array raises in turn.
      return Failure(TypeError("only length-1 arrays can be converted to Python scalars"));
    }
    var prob: Option<real> := None;
    if model.predictProba.Some? {
      var probArray := model.predictProba.value(inputDf);
      if probArray.Success? {
        if probArray.value.width >= 2 {
          if |probArray.value.rows| > 0 {
            prob := Some(probArray.value.rows[0][1]);
          } else {
            // `prob_array[0, 1]` raised IndexError, which the handler turns into None.
            prob := None;
          }
        }
      } else {
        prob := None;
      }
    }
    return Success((pred, prob));
  }
}
