/**
 Prediction reconciliation of the simple policy ensemble.

 Every policy of the ensemble is queried in order; the ensemble then picks
 one winning prediction, stamps it with the winner's position and type
 name, and merges the side-effect events of all predictions. The queries
 themselves are outside this model: the ensemble receives the predictions
 the policies returned, aligned with the policies.
 */
module Ensemble {
  import opened Wrappers
  import opened Events
  import opened Naming
  import opened Policies
  import opened Predictions

  /** Only a prediction with scores can win; an empty vector means "no opinion". */
  predicate CanWin(p: Prediction) {
    |p.probabilities| > 0
  }

  /** The tier of a prediction: no-user predictions overrule all others, and end-to-end
      predictions overrule the remaining ones. Inside the no-user tier the end-to-end flag
      plays no part. */
  function Tier(p: Prediction): nat {
    if p.isNoUserPrediction then 2 else if p.isEndToEndPrediction then 1 else 0
  }

  /** `a` clearly beats `b`: it is in a higher tier, or in the same tier with at least the
      confidence and at least the priority of `b` and more of one of them. Whichever of the
      two is compared first inside a tier, `a` beats `b`. */
  predicate Dominates(a: Prediction, b: Prediction) {
    || Tier(a) > Tier(b)
    || (&& Tier(a) == Tier(b)
        && MaxConfidence(a.probabilities) >= MaxConfidence(b.probabilities)
        && a.policyPriority >= b.policyPriority
        && (MaxConfidence(a.probabilities) > MaxConfidence(b.probabilities)
            || a.policyPriority > b.policyPriority))
  }

  /** The ranking the scan applies: tier, then maximum confidence, then priority, so that
      priority only separates predictions of equal confidence (Rasa's documented rule). */
  predicate Outranks(a: Prediction, b: Prediction) {
    || Tier(a) > Tier(b)
    || (&& Tier(a) == Tier(b)
        && (|| MaxConfidence(a.probabilities) > MaxConfidence(b.probabilities)
            || (MaxConfidence(a.probabilities) == MaxConfidence(b.probabilities)
                && a.policyPriority > b.policyPriority)))
  }

  /** Outranking is a strict weak order, so "best" is well defined up to ties, and it
      refines domination. */
  lemma OutranksIsStrictWeakOrder(a: Prediction, b: Prediction, c: Prediction)
    ensures !Outranks(a, a)
    ensures Outranks(a, b) ==> !Outranks(b, a)
    ensures Outranks(a, b) && !Outranks(c, b) ==> Outranks(a, c)
    ensures Outranks(a, b) && Outranks(b, c) ==> Outranks(a, c)
    ensures Dominates(a, b) ==> Outranks(a, b)
  {
  }

  /** `w` is a legitimate winner: it can win and no prediction that can win clearly beats it. */
  predicate IsBest(preds: seq<Prediction>, w: nat) {
    && w < |preds|
    && CanWin(preds[w])
    && forall j :: 0 <= j < |preds| && CanWin(preds[j]) ==> !Dominates(preds[j], preds[w])
  }

  /** `w` can win and nothing that can win outranks it in the scan's full ranking. */
  predicate IsTopRanked(preds: seq<Prediction>, w: nat) {
    && w < |preds|
    && CanWin(preds[w])
    && forall j :: 0 <= j < |preds| && CanWin(preds[j]) ==> !Outranks(preds[j], preds[w])
  }

  /** The winner among the first `n` predictions, scanning them in ensemble order and
      replacing the current best only by a prediction that strictly outranks it. */
  function BestIndex(preds: seq<Prediction>, n: nat): (r: Option<nat>)
    requires n <= |preds|
    ensures r.None? <==> forall j :: 0 <= j < n ==> !CanWin(preds[j])
    ensures r.Some? ==> r.value < n && CanWin(preds[r.value])
    ensures r.Some? ==>
      forall j :: 0 <= j < n && CanWin(preds[j]) ==> !Outranks(preds[j], preds[r.value])
    ensures r.Some? ==>
      forall j :: 0 <= j < r.value && CanWin(preds[j]) ==> Outranks(preds[r.value], preds[j])
  {
    if n == 0 then None
    else
      var best := BestIndex(preds, n - 1);
      if !CanWin(preds[n - 1]) then best
      else match best
        case None => Some(n - 1)
        case Some(b) =>
          if Outranks(preds[n - 1], preds[b]) then
            OutranksOverBest(preds, n - 1, b);
            Some(n - 1)
          else best
  }

  /** A prediction that outranks the best of an earlier prefix outranks, and is not
      outranked by, any eligible member of that prefix. */
  lemma OutranksOverBest(preds: seq<Prediction>, m: nat, b: nat)
    requires b < m < |preds|
    requires forall j :: 0 <= j < m && CanWin(preds[j]) ==> !Outranks(preds[j], preds[b])
    requires Outranks(preds[m], preds[b])
    ensures forall j :: 0 <= j < m && CanWin(preds[j]) ==> Outranks(preds[m], preds[j])
    ensures forall j :: 0 <= j < m && CanWin(preds[j]) ==> !Outranks(preds[j], preds[m])
  {
    forall j | 0 <= j < m && CanWin(preds[j])
      ensures Outranks(preds[m], preds[j]) && !Outranks(preds[j], preds[m])
    {
      OutranksIsStrictWeakOrder(preds[m], preds[b], preds[j]);
      OutranksIsStrictWeakOrder(preds[j], preds[m], preds[b]);
    }
  }

  /** The number of must-have events over all predictions. */
  function EventCount(preds: seq<Prediction>): nat {
    if |preds| == 0 then 0
    else EventCount(preds[..|preds| - 1]) + |preds[|preds| - 1].events|
  }

  /** The must-have events of every prediction, in ensemble order. */
  function MustHaveEvents(preds: seq<Prediction>): (es: seq<Event>)
    ensures |es| == EventCount(preds)
    ensures forall i, k :: 0 <= i < |preds| && 0 <= k < |preds[i].events| ==> preds[i].events[k] in es
    ensures forall e :: e in es ==> exists i :: 0 <= i < |preds| && e in preds[i].events
  {
    if |preds| == 0 then []
    else MustHaveEvents(preds[..|preds| - 1]) + preds[|preds| - 1].events
  }

  /** Each prediction's must-have events appear as one block, after those of every earlier
      prediction and before those of every later one. */
  lemma {:induction false} MustHaveEventsLayout(preds: seq<Prediction>, i: nat)
    requires i < |preds|
    ensures EventCount(preds[..i]) + |preds[i].events| <= |MustHaveEvents(preds)|
    ensures MustHaveEvents(preds)[EventCount(preds[..i])..EventCount(preds[..i]) + |preds[i].events|]
            == preds[i].events
    decreases |preds|
  {
    var front := preds[..|preds| - 1];
    if i == |preds| - 1 {
      assert preds[..i] == front;
    } else {
      MustHaveEventsLayout(front, i);
      assert front[..i] == preds[..i];
      assert front[i] == preds[i];
      var lo := EventCount(preds[..i]);
      var hi := lo + |preds[i].events|;
      assert MustHaveEvents(preds)[lo..hi] == MustHaveEvents(front)[lo..hi];
    }
  }

  /** The marker recording how the last user turn was featurized. It is added only when the
      bot's latest action was to listen, that is, when a user turn is being answered. */
  function FeaturizationMarker(tracker: Tracker, isEndToEndPrediction: bool): (es: seq<Event>)
    ensures es != [] <==>
      exists k :: 0 <= k < |tracker| && tracker[k] == ActionExecuted(ACTION_LISTEN_NAME)
        && forall j :: k < j < |tracker| ==> !tracker[j].ActionExecuted?
    ensures es != [] ==> es == [DefinePrevUserUtteredFeaturization(isEndToEndPrediction)]
    // The same two facts in terms of `LatestActionIsListen` (they follow from the two above
    // by `ListenIsLatestAction`), kept as a convenience for callers.
    ensures LatestActionIsListen(tracker) ==> es == [DefinePrevUserUtteredFeaturization(isEndToEndPrediction)]
    ensures !LatestActionIsListen(tracker) ==> es == []
  {
    ListenIsLatestAction(tracker);
    if LatestActionIsListen(tracker) then [DefinePrevUserUtteredFeaturization(isEndToEndPrediction)]
    else []
  }

  /** `r` is the prediction the ensemble reports when the policy at position `w` wins:
      the winner's scores, priority and flags under the stamped name `policy_{w}_{Type}`,
      carrying every policy's must-have events, the winner's optional events and the
      featurization marker. */
  predicate Reconciled(policies: seq<Policy>, preds: seq<Prediction>, tracker: Tracker, w: nat, r: Prediction)
    requires |policies| == |preds|
  {
    && w < |preds|
    && r.probabilities == preds[w].probabilities
    && r.policyName == PolicyName(w, policies[w].kind.typeName)
    && r.policyPriority == preds[w].policyPriority
    && r.isEndToEndPrediction == preds[w].isEndToEndPrediction
    && r.isNoUserPrediction == preds[w].isNoUserPrediction
    && r.events == MustHaveEvents(preds) + preds[w].optionalEvents
                   + FeaturizationMarker(tracker, preds[w].isEndToEndPrediction)
    && r.optionalEvents == []
  }

  /** `probabilities_using_best_policy`: reconciles the predictions `preds[i]` returned by
      `policies[i]` for `tracker`. There is no result when no policy expressed an opinion. */
  function ProbabilitiesUsingBestPolicy(policies: seq<Policy>, preds: seq<Prediction>, tracker: Tracker)
    : (r: Option<Prediction>)
    requires |policies| == |preds|
    ensures r.None? <==> forall j :: 0 <= j < |preds| ==> !CanWin(preds[j])
    ensures r.Some? ==> exists w: nat :: IsBest(preds, w) && Reconciled(policies, preds, tracker, w, r.value)
  {
    match BestIndex(preds, |preds|)
    case None => None
    case Some(w) =>
      var winner := preds[w];
      var result := Prediction(
        winner.probabilities,
        PolicyName(w, policies[w].kind.typeName),
        winner.policyPriority,
        MustHaveEvents(preds) + winner.optionalEvents
          + FeaturizationMarker(tracker, winner.isEndToEndPrediction),
        [],
        winner.isEndToEndPrediction,
        winner.isNoUserPrediction);
      TopRankedIsBest(preds, w);
      assert IsBest(preds, w) && Reconciled(policies, preds, tracker, w, result);
      Some(result)
  }

  /** A prediction at the top of the full ranking is not clearly beaten by any other. */
  lemma TopRankedIsBest(preds: seq<Prediction>, w: nat)
    requires IsTopRanked(preds, w)
    ensures IsBest(preds, w)
  {
    forall j | 0 <= j < |preds| && CanWin(preds[j])
      ensures !Dominates(preds[j], preds[w])
    {
      OutranksIsStrictWeakOrder(preds[j], preds[w], preds[w]);
    }
  }

  /** The reported prediction has the highest confidence in its tier and, among equally
      confident ones, the highest priority. */
  lemma WinnerHasHighestConfidenceThenPriority(policies: seq<Policy>, preds: seq<Prediction>, tracker: Tracker)
    requires |policies| == |preds|
    requires ProbabilitiesUsingBestPolicy(policies, preds, tracker).Some?
    ensures exists w: nat ::
              && IsTopRanked(preds, w)
              && Reconciled(policies, preds, tracker, w, ProbabilitiesUsingBestPolicy(policies, preds, tracker).value)
  {
    var w := BestIndex(preds, |preds|).value;
    assert IsTopRanked(preds, w);
  }

  /** Of several equally ranked predictions the earliest in the ensemble is reported. */
  lemma EarliestOfEquallyRankedWins(policies: seq<Policy>, preds: seq<Prediction>, tracker: Tracker, w: nat)
    requires |policies| == |preds|
    requires IsTopRanked(preds, w)
    requires forall j :: 0 <= j < w && CanWin(preds[j]) ==> Outranks(preds[w], preds[j])
    ensures ProbabilitiesUsingBestPolicy(policies, preds, tracker).Some?
    ensures Reconciled(policies, preds, tracker, w, ProbabilitiesUsingBestPolicy(policies, preds, tracker).value)
  {
    var b := BestIndex(preds, |preds|).value;
    assert b == w;
  }

  /** A prediction that clearly beats every other prediction able to win is the one reported. */
  lemma DominantPredictionWins(policies: seq<Policy>, preds: seq<Prediction>, tracker: Tracker, i: nat)
    requires |policies| == |preds|
    requires i < |preds| && CanWin(preds[i])
    requires forall j :: 0 <= j < |preds| && j != i && CanWin(preds[j]) ==> Dominates(preds[i], preds[j])
    ensures ProbabilitiesUsingBestPolicy(policies, preds, tracker).Some?
    ensures Reconciled(policies, preds, tracker, i, ProbabilitiesUsingBestPolicy(policies, preds, tracker).value)
  {
    var r := ProbabilitiesUsingBestPolicy(policies, preds, tracker);
    var w: nat :| IsBest(preds, w) && Reconciled(policies, preds, tracker, w, r.value);
    if w != i {
      assert Dominates(preds[i], preds[w]);
    }
  }

  /** Among plain predictions (neither no-user nor end-to-end) of no higher confidence, the
      strictly highest priority wins wherever it sits; the result is named after its position
      and carries its scores. */
  lemma HighestPriorityWins(policies: seq<Policy>, preds: seq<Prediction>, tracker: Tracker, i: nat)
    requires |policies| == |preds|
    requires i < |preds| && CanWin(preds[i])
    requires forall j :: 0 <= j < |preds| ==>
      !preds[j].isNoUserPrediction && !preds[j].isEndToEndPrediction
    requires forall j :: 0 <= j < |preds| && j != i ==> preds[j].policyPriority < preds[i].policyPriority
    requires forall j :: 0 <= j < |preds| ==>
      MaxConfidence(preds[j].probabilities) <= MaxConfidence(preds[i].probabilities)
    ensures var r := ProbabilitiesUsingBestPolicy(policies, preds, tracker);
      && r.Some?
      && r.value.policyName == PolicyName(i, policies[i].kind.typeName)
      && r.value.probabilities == preds[i].probabilities
  {
    DominantPredictionWins(policies, preds, tracker, i);
  }

  /** A no-user prediction beats all others, whatever their priority or flags. */
  lemma NoUserPredictionWins(policies: seq<Policy>, preds: seq<Prediction>, tracker: Tracker, i: nat)
    requires |policies| == |preds|
    requires i < |preds| && CanWin(preds[i]) && preds[i].isNoUserPrediction
    requires forall j :: 0 <= j < |preds| && j != i ==> !preds[j].isNoUserPrediction
    ensures var r := ProbabilitiesUsingBestPolicy(policies, preds, tracker);
      && r.Some?
      && r.value.policyName == PolicyName(i, policies[i].kind.typeName)
      && r.value.isNoUserPrediction
      && r.value.isEndToEndPrediction == preds[i].isEndToEndPrediction
      && MaxConfidence(r.value.probabilities) == MaxConfidence(preds[i].probabilities)
      && MaxConfidenceIndex(r.value.probabilities) == MaxConfidenceIndex(preds[i].probabilities)
  {
    DominantPredictionWins(policies, preds, tracker, i);
  }

  /** Without no-user predictions, an end-to-end prediction beats every prediction based on
      the user's intent, even one of higher priority. */
  lemma EndToEndPredictionWins(policies: seq<Policy>, preds: seq<Prediction>, tracker: Tracker, i: nat)
    requires |policies| == |preds|
    requires i < |preds| && CanWin(preds[i]) && preds[i].isEndToEndPrediction
    requires forall j :: 0 <= j < |preds| ==> !preds[j].isNoUserPrediction
    requires forall j :: 0 <= j < |preds| && j != i ==> !preds[j].isEndToEndPrediction
    ensures var r := ProbabilitiesUsingBestPolicy(policies, preds, tracker);
      && r.Some?
      && r.value.policyName == PolicyName(i, policies[i].kind.typeName)
      && r.value.isEndToEndPrediction
      && MaxConfidence(r.value.probabilities) == MaxConfidence(preds[i].probabilities)
      && MaxConfidenceIndex(r.value.probabilities) == MaxConfidenceIndex(preds[i].probabilities)
  {
    DominantPredictionWins(policies, preds, tracker, i);
  }

  /** The reported prediction always belongs to the highest tier present among the
      predictions that can win (no-user above end-to-end above the rest), and no prediction
      of its tier clearly beats it. */
  lemma ResultIsFromHighestTier(policies: seq<Policy>, preds: seq<Prediction>, tracker: Tracker, i: nat)
    requires |policies| == |preds|
    requires i < |preds| && CanWin(preds[i])
    ensures var r := ProbabilitiesUsingBestPolicy(policies, preds, tracker);
      && r.Some?
      && Tier(r.value) >= Tier(preds[i])
      && (preds[i].isNoUserPrediction ==> r.value.isNoUserPrediction)
      && (preds[i].isEndToEndPrediction && !r.value.isNoUserPrediction ==> r.value.isEndToEndPrediction)
      && !Dominates(preds[i], r.value)
  {
    var r := ProbabilitiesUsingBestPolicy(policies, preds, tracker);
    var w: nat :| IsBest(preds, w) && Reconciled(policies, preds, tracker, w, r.value);
    assert !Dominates(preds[i], preds[w]);
    assert Tier(r.value) == Tier(preds[w]);
  }

  /** The must-have events of every policy reach the result, whether or not it won. */
  lemma MustHaveEventsAlwaysApplied(policies: seq<Policy>, preds: seq<Prediction>, tracker: Tracker, i: nat, e: Event)
    requires |policies| == |preds|
    requires i < |preds| && e in preds[i].events
    requires ProbabilitiesUsingBestPolicy(policies, preds, tracker).Some?
    ensures e in ProbabilitiesUsingBestPolicy(policies, preds, tracker).value.events
  {
    var r := ProbabilitiesUsingBestPolicy(policies, preds, tracker);
    var w: nat :| IsBest(preds, w) && Reconciled(policies, preds, tracker, w, r.value);
    var k :| 0 <= k < |preds[i].events| && preds[i].events[k] == e;
    assert e in MustHaveEvents(preds);
  }

  /** When the bot's latest action was to listen, the last reported event is the marker
      carrying the winner's end-to-end flag; otherwise the reported events are exactly the
      must-have events of all policies followed by the winner's optional events. */
  lemma FeaturizationMarkerFollowsListen(policies: seq<Policy>, preds: seq<Prediction>, tracker: Tracker)
    requires |policies| == |preds|
    requires ProbabilitiesUsingBestPolicy(policies, preds, tracker).Some?
    ensures var r := ProbabilitiesUsingBestPolicy(policies, preds, tracker).value;
      && (LatestActionIsListen(tracker) ==>
            |r.events| > 0
            && r.events[|r.events| - 1] == DefinePrevUserUtteredFeaturization(r.isEndToEndPrediction))
      && (!LatestActionIsListen(tracker) ==>
            exists w: nat :: IsBest(preds, w) && r.events == MustHaveEvents(preds) + preds[w].optionalEvents)
  {
    var r := ProbabilitiesUsingBestPolicy(policies, preds, tracker).value;
    var w: nat :| IsBest(preds, w) && Reconciled(policies, preds, tracker, w, r);
    if !LatestActionIsListen(tracker) {
      assert r.events == MustHaveEvents(preds) + preds[w].optionalEvents;
    }
  }

  /** `is_not_in_training_data`: a prediction counts as coming from the training data only
      when a memoizing policy (rule or memoization) made it with a confidence other than 0.0. */
  function IsNotInTrainingData(policyName: Option<string>, maxConfidence: Option<real>): (r: bool)
    ensures policyName.None? || policyName == Some("") ==> r
    ensures maxConfidence == Some(0.0) ==> r
    ensures !r ==> exists k :: 0 <= k < |MEMOIZING_POLICIES|
                     && EndsWith(policyName.value, "_" + MEMOIZING_POLICIES[k].typeName)
  {
    match policyName
    case None => true
    case Some(name) =>
      if name == "" then true
      else
        var isMemorized := exists k :: 0 <= k < |MEMOIZING_POLICIES|
                             && EndsWith(name, "_" + MEMOIZING_POLICIES[k].typeName);
        !isMemorized || maxConfidence == Some(0.0)
  }

  /** A name the ensemble stamped for a memoizing policy is in the training data exactly
      when its confidence is not 0.0. */
  lemma StampedMemoizingPolicyIsInTrainingData(index: nat, k: nat, maxConfidence: Option<real>)
    requires k < |MEMOIZING_POLICIES|
    ensures IsNotInTrainingData(Some(PolicyName(index, MEMOIZING_POLICIES[k].typeName)), maxConfidence)
            <==> maxConfidence == Some(0.0)
  {
    PolicyNameEndsWithType(index, MEMOIZING_POLICIES[k].typeName);
  }
}
