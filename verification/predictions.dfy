/**
 A policy's output: one score per domain action plus the metadata and
 side-effect events the ensemble reconciles.
 */
module Predictions {
  import opened Wrappers
  import opened Events

  datatype Prediction = Prediction(
    probabilities: seq<real>,
    policyName: string,
    policyPriority: int,
    /** Applied whichever policy wins. */
    events: seq<Event>,
    /** Applied only when this prediction wins. */
    optionalEvents: seq<Event>,
    isEndToEndPrediction: bool,
    isNoUserPrediction: bool)

  /** The highest score; 0.0 for a prediction without scores. */
  function MaxConfidence(p: seq<real>): (m: real)
    ensures |p| == 0 ==> m == 0.0
    ensures |p| > 0 ==> exists k :: 0 <= k < |p| && p[k] == m
    ensures forall k :: 0 <= k < |p| ==> p[k] <= m
  {
    if |p| == 0 then 0.0
    else if |p| == 1 then p[0]
    else
      var m := MaxConfidence(p[..|p| - 1]);
      if p[|p| - 1] > m then p[|p| - 1] else m
  }

  /** The first position holding the highest score (Python's `list.index` of the max). */
  function MaxConfidenceIndex(p: seq<real>): (r: nat)
    requires |p| > 0
    ensures r < |p|
    ensures forall k :: 0 <= k < |p| ==> p[k] <= p[r]
    ensures forall k :: 0 <= k < r ==> p[k] < p[r]
  {
    if |p| == 1 then 0
    else
      var k := MaxConfidenceIndex(p[..|p| - 1]);
      if p[|p| - 1] > p[k] then |p| - 1 else k
  }

  /** Name Python reports for the constant test policy's class. */
  const CONSTANT_POLICY_NAME: string := "ConstantPolicy"

  /** The test double that always predicts one action with a fixed confidence (its
      arguments; as a policy class of the test module it is `EnsembleTests.ConstantPolicyDouble`). */
  datatype ConstantPolicy = ConstantPolicy(
    priority: int,
    predictIndex: Option<int>,
    confidence: real,
    isEndToEndPrediction: bool,
    isNoUserPrediction: bool,
    events: seq<Event>,
    optionalEvents: seq<Event>)

  /** `ConstantPolicy(priority=…, predict_index=…)` with every other argument defaulted. */
  function PlainConstant(priority: int, predictIndex: int): ConstantPolicy {
    ConstantPolicy(priority, Some(predictIndex), 1.0, false, false, [], [])
  }

  /** Python's `result[predict_index] = …` fails without an index, or outside `-n..n-1`. */
  datatype PredictError = IndexNotSet | IndexOutOfRange(index: int)

  /** The list slot Python assigns for an index in `-n..n-1`. */
  function Slot(index: int, n: nat): (s: nat)
    requires -(n as int) <= index < n
    ensures s < n
  {
    if index < 0 then n + index else index
  }

  /** `ConstantPolicy.predict_action_probabilities` over a domain of `numActions` actions. */
  function PredictConstant(c: ConstantPolicy, numActions: nat): (r: Result<Prediction, PredictError>)
    ensures r.Success? <==> c.predictIndex.Some? && -(numActions as int) <= c.predictIndex.value < numActions
    ensures c.predictIndex.None? ==> r == Failure(IndexNotSet)
    ensures r.Success? ==>
      var p := r.value;
      && |p.probabilities| == numActions
      && p.probabilities[Slot(c.predictIndex.value, numActions)] == c.confidence
      && (forall k :: 0 <= k < numActions && k != Slot(c.predictIndex.value, numActions) ==>
            p.probabilities[k] == 0.0)
      && p.policyName == CONSTANT_POLICY_NAME
      && p.policyPriority == c.priority
      && p.isEndToEndPrediction == c.isEndToEndPrediction
      && p.isNoUserPrediction == c.isNoUserPrediction
      && p.events == c.events && p.optionalEvents == c.optionalEvents
  {
    match c.predictIndex
    case None => Failure(IndexNotSet)
    case Some(i) =>
      if !(-(numActions as int) <= i < numActions) then Failure(IndexOutOfRange(i))
      else
        var slot := Slot(i, numActions);
        Success(Prediction(
          seq(numActions, k => if k == slot then c.confidence else 0.0),
          CONSTANT_POLICY_NAME, c.priority, c.events, c.optionalEvents,
          c.isEndToEndPrediction, c.isNoUserPrediction))
  }

  /** Every score of a one-hot vector is 0.0 except the one at `slot`. */
  predicate OneHot(p: seq<real>, slot: nat, confidence: real) {
    slot < |p| && p[slot] == confidence && forall k :: 0 <= k < |p| && k != slot ==> p[k] == 0.0
  }

  /** A one-hot vector with a non-negative confidence reports that confidence as its maximum,
      and, when the confidence is positive, the hot slot as its arg-max. */
  lemma {:induction false} OneHotMaximum(p: seq<real>, slot: nat, confidence: real)
    requires OneHot(p, slot, confidence) && confidence >= 0.0
    ensures MaxConfidence(p) == confidence
    ensures confidence > 0.0 ==> MaxConfidenceIndex(p) == slot
  {
    var m := MaxConfidence(p);
    assert p[slot] <= m;
    var k :| 0 <= k < |p| && p[k] == m;
    if confidence > 0.0 {
      var i := MaxConfidenceIndex(p);
      assert p[slot] <= p[i];
      assert i == slot;
    }
  }

  /** The constant policy's prediction peaks at its configured action with its confidence. */
  lemma ConstantPredictionPeak(c: ConstantPolicy, numActions: nat)
    requires PredictConstant(c, numActions).Success? && c.confidence > 0.0
    ensures var p := PredictConstant(c, numActions).value.probabilities;
      MaxConfidence(p) == c.confidence
      && MaxConfidenceIndex(p) == Slot(c.predictIndex.value, numActions)
  {
    var p := PredictConstant(c, numActions).value.probabilities;
    OneHotMaximum(p, Slot(c.predictIndex.value, numActions), c.confidence);
  }
}
