/** The `NSFWDetector` object: its load lifecycle over
    `(model, isLoading, isLoaded)`, the readiness guard in front of
    classification, and the threshold rule that turns predictions into a
    flag. The ML runtime (`tf.loadLayersModel`, preprocessing, `predict`) is
    outside the model: a load attempt's outcome and an inference function are
    passed in. */
module Detector {
  import opened Outcomes
  import opened Numbers
  import opened Ranking

  /** The object `tf.loadLayersModel` hands back. */
  datatype Handle = Handle(id: nat)

  /** The parts of an `<img>` element the detector reads. */
  datatype Image = Image(src: string, alt: string, width: int, height: int,
                         complete: bool, naturalWidth: int)

  /** Preprocessing plus `model.predict` plus `logits.data()`: the score
      vector for an image, or the message of what the runtime threw. */
  type Inference = (Handle, Image) -> Result<seq<real>, string>

  datatype Error =
    | ModelNotLoaded        // "Model not loaded. Call loadModel() first."
    | LoadFailed(reason: string)
    | InferenceFailed(reason: string)
    | NoTopPrediction       // reading `className` of `predictions[0]` when it is undefined

  datatype State = State(model: Option<Handle>, isLoading: bool, isLoaded: bool)

  /** The constructor's state. */
  const Initial := State(None, false, false)

  /** Default `topK` of `getTopPredictions`. */
  const DefaultTopK := 5

  /** Default `threshold` of `isImageNSFW` and `analyzePageImages`. */
  const DefaultThreshold: real := 0.6

  const NsfwClasses: seq<Label> := [Porn, Hentai, Sexy]

  /** The states reachable from `Initial`: a model is held exactly when it is
      marked loaded, and a loaded detector is never loading. */
  predicate Coherent(st: State) {
    && (st.model.Some? <==> st.isLoaded)
    && !(st.isLoaded && st.isLoading)
  }

  /** `isModelReady()`: on every reachable state it is the loaded flag. */
  function IsModelReady(st: State): (ready: bool)
    ensures ready ==> st.model.Some?
    ensures Coherent(st) ==> (ready <==> st.isLoaded)
  {
    st.isLoaded && st.model.Some?
  }

  /** What one `loadModel()` call leaves behind: the new state, whether the
      promise resolved or rejected, and whether it started an acquisition. */
  datatype LoadStep = LoadStep(state: State, outcome: Result<(), Error>, acquired: bool)

  /** The synchronous prefix of `loadModel()` up to its `await`. */
  function BeginLoad(st: State): (st': State)
    ensures st'.isLoading
    ensures st'.model == st.model && st'.isLoaded == st.isLoaded
  {
    st.(isLoading := true)
  }

  /** The continuation of `loadModel()` once the runtime settles. */
  function CompleteLoad(st: State, fetched: Result<Handle, string>): (step: LoadStep)
    ensures step.acquired && !step.state.isLoading
    ensures fetched.Success? ==>
      step.state.model == Some(fetched.value) && step.state.isLoaded && step.outcome.Success?
    ensures fetched.Failure? ==>
      && step.state.model == st.model
      && step.state.isLoaded == st.isLoaded
      && step.outcome == Failure(LoadFailed(fetched.error))
  {
    match fetched
    case Success(h) => LoadStep(st.(model := Some(h), isLoaded := true, isLoading := false), Success(()), true)
    case Failure(e) => LoadStep(st.(isLoading := false), Failure(LoadFailed(e)), true)
  }

  /** `loadModel()` run to completion with the runtime's answer `fetched`. */
  function LoadModel(st: State, fetched: Result<Handle, string>): (step: LoadStep)
    ensures st.isLoaded || st.isLoading ==> step == LoadStep(st, Success(()), false)
    ensures !st.isLoaded && !st.isLoading ==>
      && step.acquired
      && !step.state.isLoading
      && (fetched.Success? ==> IsModelReady(step.state) && step.state.model == Some(fetched.value)
                               && step.outcome.Success?)
      && (fetched.Failure? ==> !step.state.isLoaded && step.state.model == st.model
                               && step.outcome == Failure(LoadFailed(fetched.error)))
  {
    if st.isLoaded || st.isLoading then
      LoadStep(st, Success(()), false)
    else
      CompleteLoad(BeginLoad(st), fetched)
  }

  /** `dispose()`. */
  function Dispose(st: State): (st': State)
    ensures st.model.Some? ==> st'.model.None? && !st'.isLoaded && st'.isLoading == st.isLoading
    ensures st.model.None? ==> st' == st
    ensures !IsModelReady(st')
  {
    if st.model.Some? then st.(model := None, isLoaded := false) else st
  }

  /** The constructor's state is coherent and every transition keeps the
      detector coherent, so on every reachable state readiness is the same as
      the loaded flag. */
  lemma TransitionsPreserveCoherence(st: State, fetched: Result<Handle, string>)
    requires Coherent(st)
    ensures Coherent(Initial)
    ensures Coherent(LoadModel(st, fetched).state)
    ensures Coherent(Dispose(st))
    ensures !st.isLoaded ==> Coherent(BeginLoad(st))
    ensures !st.isLoaded && !st.isLoading ==> Coherent(CompleteLoad(BeginLoad(st), fetched).state)
    ensures IsModelReady(st) <==> st.isLoaded
  {
  }

  /** A `loadModel()` call that arrives while another one is awaiting the
      runtime resolves at once, changes nothing and acquires nothing; the
      first call's continuation then yields what an uninterrupted call would. */
  lemma InFlightLoadIsNotDuplicated(st: State, first: Result<Handle, string>, second: Result<Handle, string>)
    requires !st.isLoaded && !st.isLoading
    ensures var pending := BeginLoad(st);
      && LoadModel(pending, second) == LoadStep(pending, Success(()), false)
      && CompleteLoad(pending, first) == LoadModel(st, first)
  {
  }

  /** `classifyImage(imageElement)`. */
  function ClassifyImage(st: State, infer: Inference, img: Image): (r: Result<seq<Prediction>, Error>)
    ensures r == Failure(ModelNotLoaded) <==> !IsModelReady(st)
    ensures IsModelReady(st) && infer(st.model.value, img).Failure? ==>
      r == Failure(InferenceFailed(infer(st.model.value, img).error))
    ensures IsModelReady(st) && infer(st.model.value, img).Success? ==>
      var values := infer(st.model.value, img).value;
      && r.Success?
      && |r.value| == Min(DefaultTopK, |values|)
      && Descending(r.value)
      && multiset(r.value) <= multiset(Pairs(values))
  {
    if !IsModelReady(st) then
      Failure(ModelNotLoaded)
    else
      match infer(st.model.value, img)
      case Failure(e) => Failure(InferenceFailed(e))
      case Success(values) => Success(GetTopPredictions(values, DefaultTopK))
  }

  datatype Analysis = Analysis(isNSFW: bool, topPrediction: Prediction, allPredictions: seq<Prediction>)

  /** The threshold rule of `isImageNSFW` applied to a classification. */
  function Assess(predictions: seq<Prediction>, threshold: real): (r: Result<Analysis, Error>)
    ensures r.Failure? <==> |predictions| == 0
    ensures r.Failure? ==> r.error == NoTopPrediction
    ensures r.Success? ==> r.value.topPrediction == predictions[0] && r.value.allPredictions == predictions
  {
    if |predictions| == 0 then
      Failure(NoTopPrediction)
    else
      var top := predictions[0];
      Success(Analysis(top.className in NsfwClasses && top.probability >= threshold, top, predictions))
  }

  /** `isImageNSFW(imageElement, threshold)`. */
  function IsImageNSFW(st: State, infer: Inference, img: Image, threshold: real): (r: Result<Analysis, Error>)
    ensures !IsModelReady(st) ==> r == Failure(ModelNotLoaded)
    ensures r.Success? ==> IsModelReady(st) && infer(st.model.value, img).Success?
  {
    match ClassifyImage(st, infer, img)
    case Failure(e) => Failure(e)
    case Success(predictions) => Assess(predictions, threshold)
  }

  /** The flag is raised exactly for a sensitive top class whose probability
      reaches the threshold, the boundary included. */
  lemma FlagRule(predictions: seq<Prediction>, threshold: real)
    requires |predictions| > 0
    ensures var r := Assess(predictions, threshold);
      && r.Success?
      && (r.value.isNSFW <==>
            (predictions[0].className == Porn || predictions[0].className == Hentai
             || predictions[0].className == Sexy)
            && threshold <= predictions[0].probability)
  {
  }

  /** A Drawing, Neutral or unlabelled top class is never flagged, whatever
      the threshold. */
  lemma SafeTopNeverFlagged(predictions: seq<Prediction>, threshold: real)
    requires |predictions| > 0
    requires predictions[0].className in [Drawing, Neutral, Undefined]
    ensures Assess(predictions, threshold) == Success(Analysis(false, predictions[0], predictions))
  {
  }

  /** Lowering the threshold never clears a flag. */
  lemma FlagMonotoneInThreshold(predictions: seq<Prediction>, high: real, low: real)
    requires low <= high
    requires Assess(predictions, high).Success? && Assess(predictions, high).value.isNSFW
    ensures Assess(predictions, low).Success? && Assess(predictions, low).value.isNSFW
  {
  }

  /** End to end: for a ready detector, an image is flagged exactly when the
      first largest score belongs to a sensitive class and reaches the
      threshold; an empty score vector makes `isImageNSFW` throw. */
  lemma FlaggedIffFirstMaximumSensitive(st: State, infer: Inference, img: Image, threshold: real)
    requires IsModelReady(st)
    requires infer(st.model.value, img).Success?
    ensures var values := infer(st.model.value, img).value;
      var r := IsImageNSFW(st, infer, img, threshold);
      && (|values| == 0 ==> r == Failure(NoTopPrediction))
      && (|values| > 0 ==>
            && r.Success?
            && r.value.topPrediction == Prediction(ClassOf(ArgMax(values)), values[ArgMax(values)])
            && (r.value.isNSFW <==>
                  (ArgMax(values) == 1 || 3 <= ArgMax(values) <= 4) && threshold <= values[ArgMax(values)]))
  {
    var values := infer(st.model.value, img).value;
    if |values| > 0 {
      TopIsFirstMaximum(values, DefaultTopK);
    }
  }

  /** A concrete classification: scores [0.05, 0.02, 0.10, 0.80, 0.03] put
      Porn at 0.80 on top, which the default threshold flags. */
  lemma PornAtEightyIsFlagged(st: State, infer: Inference, img: Image)
    requires IsModelReady(st)
    requires infer(st.model.value, img) == Success([0.05, 0.02, 0.10, 0.80, 0.03])
    ensures var r := IsImageNSFW(st, infer, img, DefaultThreshold);
      r.Success? && r.value.isNSFW && r.value.topPrediction == Prediction(Porn, 0.80)
  {
    var values := [0.05, 0.02, 0.10, 0.80, 0.03];
    var top := ArgMax(values);
    assert values[3] <= values[top];
    assert top == 3;
    FlaggedIffFirstMaximumSensitive(st, infer, img, DefaultThreshold);
  }
}
