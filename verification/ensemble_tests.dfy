/**
 The test doubles of the ensemble's test suite and the behaviour its tests
 assert, stated as lemmas about the model. The domain's action count is left
 open wherever the tests only need it to be large enough.
 */
module EnsembleTests {
  import opened Wrappers
  import opened Events
  import opened Naming
  import opened Policies
  import opened Predictions
  import opened Ensemble
  import opened Configuration
  import opened Loading
  import opened Training

  const TEST_MODULE: string := "tests.core.test_ensemble"

  /** The policy classes the test module defines. */
  datatype TestDouble =
    | WorkingPolicy
    | LoadReturnsNonePolicy
    | LoadReturnsWrongTypePolicy
      /** The constant test double as a policy class; its predictions are
          `Predictions.ConstantPolicy` and `Predictions.PredictConstant`. */
    | ConstantPolicyDouble

  function Kind(d: TestDouble): PolicyKind {
    match d
    case WorkingPolicy => PolicyKind("WorkingPolicy", TEST_MODULE, MlData)
    case LoadReturnsNonePolicy => PolicyKind("LoadReturnsNonePolicy", TEST_MODULE, MlData)
    case LoadReturnsWrongTypePolicy => PolicyKind("LoadReturnsWrongTypePolicy", TEST_MODULE, MlData)
    case ConstantPolicyDouble => PolicyKind(CONSTANT_POLICY_NAME, TEST_MODULE, MlData)
  }

  /** An instance of a test double (none of them takes configuration options). */
  function Instance(d: TestDouble): Policy {
    Policy(Kind(d), map[])
  }

  /** What each test double's class method `load` returns. `ConstantPolicy.load` has an
      empty body, so it returns `None` as well. */
  function LoadDouble(d: TestDouble): (r: LoadResult)
    ensures r.Loaded? <==> d == WorkingPolicy
    ensures r.Loaded? ==> r.policy == Instance(d)
    ensures r.WrongType? <==> d == LoadReturnsWrongTypePolicy
  {
    match d
    case WorkingPolicy => Loaded(Instance(WorkingPolicy))
    case LoadReturnsNonePolicy => ReturnedNone
    case LoadReturnsWrongTypePolicy => WrongType
    case ConstantPolicyDouble => ReturnedNone
  }

  /** Reloads a persisted ensemble of test doubles with each double's own `load`. */
  function LoadDoubles(doubles: seq<TestDouble>): (r: Result<LoadedEnsemble, LoadError>)
    ensures r.Failure? <==> LoadReturnsWrongTypePolicy in doubles
  {
    var policies := seq(|doubles|, i requires 0 <= i < |doubles| => Instance(doubles[i]));
    var outcomes := seq(|doubles|, i requires 0 <= i < |doubles| => LoadDouble(doubles[i]));
    assert LoadReturnsWrongTypePolicy in doubles ==> exists i :: 0 <= i < |outcomes| && outcomes[i].WrongType? by {
      if LoadReturnsWrongTypePolicy in doubles {
        var i :| 0 <= i < |doubles| && doubles[i] == LoadReturnsWrongTypePolicy;
        assert outcomes[i].WrongType?;
      }
    }
    Load(Persist(policies), outcomes)
  }

  /** Python's `needle in haystack` for strings. */
  predicate Contains(haystack: string, needle: string) {
    exists i :: 0 <= i <= |haystack| - |needle| && OccursAt(haystack, needle, i)
  }

  predicate OccursAt(haystack: string, needle: string, i: int)
    requires 0 <= i <= |haystack| - |needle|
  {
    haystack[i..i + |needle|] == needle
  }

  lemma PolicyLoadingSimple()
    ensures LoadDoubles([WorkingPolicy]) == Success(LoadedEnsemble([Instance(WorkingPolicy)], []))
  {
    var doubles := [WorkingPolicy];
    assert seq(|doubles|, i requires 0 <= i < |doubles| => Instance(doubles[i])) == [Instance(WorkingPolicy)];
    assert seq(|doubles|, i requires 0 <= i < |doubles| => LoadDouble(doubles[i])) == [LoadDouble(WorkingPolicy)];
    PersistLoadRoundTrip([Instance(WorkingPolicy)], [LoadDouble(WorkingPolicy)]);
  }

  lemma PolicyLoadingLoadReturnsNone()
    ensures LoadDoubles([LoadReturnsNonePolicy]) == Success(LoadedEnsemble([],
      [NoneWarning(QualifiedName(Kind(LoadReturnsNonePolicy)))]))
  {
    var policies := [Instance(LoadReturnsNonePolicy)];
    var doubles := [LoadReturnsNonePolicy];
    assert seq(|doubles|, i requires 0 <= i < |doubles| => Instance(doubles[i])) == policies;
    assert seq(|doubles|, i requires 0 <= i < |doubles| => LoadDouble(doubles[i])) == [ReturnedNone];
    AbstentionDropsOnlyThatPolicy(Persist(policies), [ReturnedNone], 0);
  }

  lemma PolicyLoadingLoadReturnsWrongType()
    ensures LoadDoubles([LoadReturnsWrongTypePolicy])
      == Failure(WrongTypeReturned(QualifiedName(Kind(LoadReturnsWrongTypePolicy)), []))
  {
  }

  lemma ValidPolicyConfigurations()
    ensures FromDict(map[POLICY_KEY := [PolicySpec("MemoizationPolicy", map[])]], BUILTIN_REGISTRY).Success?
    ensures FromDict(map[POLICIES_KEY := [PolicySpec("MemoizationPolicy", map[])]], BUILTIN_REGISTRY).Success?
  {
    assert NameMatches(BUILTIN_REGISTRY[0], "MemoizationPolicy");
  }

  lemma InvalidPolicyConfigurations()
    ensures FromDict(map["police" := [PolicySpec("MemoizationPolicy", map[])]], BUILTIN_REGISTRY)
            == Failure(NoPoliciesDefined)
    ensures FromDict(map[POLICIES_KEY := []], BUILTIN_REGISTRY) == Failure(EmptyPolicyList)
    ensures FromDict(map[POLICIES_KEY := [PolicySpec("ykaüoppodas", map[])]], BUILTIN_REGISTRY)
            == Failure(UnknownPolicy("ykaüoppodas"))
    ensures FromDict(map[POLICY_KEY := [PolicySpec("ykaüoppodas", map[])]], BUILTIN_REGISTRY)
            == Failure(UnknownPolicy("ykaüoppodas"))
    ensures FromDict(map[POLICY_KEY := [PolicySpec("ykaüoppodas.bladibla", map[])]], BUILTIN_REGISTRY)
            == Failure(UnknownPolicy("ykaüoppodas.bladibla"))
  {
    assert !IsKnown(BUILTIN_REGISTRY, "ykaüoppodas");
    assert !IsKnown(BUILTIN_REGISTRY, "ykaüoppodas.bladibla");
  }

  /** The TED configuration is accepted and its featurizer option reaches the policy as given. */
  lemma FromDictKeepsPolicyOptions()
    ensures var options := map["featurizer" := "MaxHistoryTrackerFeaturizer"];
      var config := map[POLICIES_KEY := [PolicySpec("TEDPolicy", options)]];
      var r := FromDict(config, BUILTIN_REGISTRY);
      r.Success? && r.value == [Policy(TED_POLICY, options)]
  {
    assert NameMatches(BUILTIN_REGISTRY[3], "TEDPolicy");
    assert !NameMatches(BUILTIN_REGISTRY[0], "TEDPolicy");
    assert !NameMatches(BUILTIN_REGISTRY[1], "TEDPolicy");
    assert !NameMatches(BUILTIN_REGISTRY[2], "TEDPolicy");
  }

  lemma RuleBasedDataWarningsNoRuleTrackers()
    ensures var w := RuleDataWarnings([Policy(RULE_POLICY, map[])], [TrainingTracker([], false)]);
      |w| == 1 && Contains(w[0], "Found a rule-based policy in your pipeline but no rule-based training data.")
  {
    var w := RuleDataWarnings([Policy(RULE_POLICY, map[])], [TrainingTracker([], false)]);
    assert OccursAt(w[0], RULE_POLICY_WITHOUT_RULE_DATA, 0);
  }

  lemma RuleBasedDataWarningsNoRulePolicy()
    ensures var w := RuleDataWarnings([Instance(ConstantPolicyDouble)], [TrainingTracker([], true)]);
      |w| == 1 && Contains(w[0], "Found rule-based training data but no policy supporting rule-based data.")
  {
    var w := RuleDataWarnings([Instance(ConstantPolicyDouble)], [TrainingTracker([], true)]);
    assert OccursAt(w[0], RULE_DATA_WITHOUT_RULE_POLICY, 0);
  }

  /** Two instances of the constant test double, as an ensemble. */
  function TwoConstants(): seq<Policy> {
    [Instance(ConstantPolicyDouble), Instance(ConstantPolicyDouble)]
  }

  lemma TwoMustHaveEvents(p0: Prediction, p1: Prediction)
    ensures MustHaveEvents([p0, p1]) == p0.events + p1.events
  {
    assert [p0, p1][..1] == [p0];
    assert [p0][..0] == [];
    assert MustHaveEvents([p0]) == MustHaveEvents([]) + p0.events;
    assert MustHaveEvents([p0, p1]) == MustHaveEvents([p0]) + p1.events;
  }

  lemma ConstantNames()
    ensures PolicyName(0, CONSTANT_POLICY_NAME) == "policy_0_ConstantPolicy"
    ensures PolicyName(1, CONSTANT_POLICY_NAME) == "policy_1_ConstantPolicy"
    ensures PolicyName(2, CONSTANT_POLICY_NAME) == "policy_2_ConstantPolicy"
  {
  }

  /** Of two predictions, the one that clearly beats the other (or the only one able to win)
      is reported under its own name, with both must-have lists in order, its optional events
      and the featurization marker. */
  lemma PairWinner(policies: seq<Policy>, preds: seq<Prediction>, tracker: Tracker, w: nat)
    requires |policies| == 2 && |preds| == 2 && w < 2
    requires CanWin(preds[w])
    requires CanWin(preds[1 - w]) ==> Dominates(preds[w], preds[1 - w])
    ensures var r := ProbabilitiesUsingBestPolicy(policies, preds, tracker);
      && r.Some?
      && r.value.policyName == PolicyName(w, policies[w].kind.typeName)
      && r.value.probabilities == preds[w].probabilities
      && r.value.isEndToEndPrediction == preds[w].isEndToEndPrediction
      && r.value.isNoUserPrediction == preds[w].isNoUserPrediction
      && r.value.events == preds[0].events + preds[1].events + preds[w].optionalEvents
                           + FeaturizationMarker(tracker, preds[w].isEndToEndPrediction)
  {
    DominantPredictionWins(policies, preds, tracker, w);
    assert preds == [preds[0], preds[1]];
    TwoMustHaveEvents(preds[0], preds[1]);
  }

  /** The two trackers the tests use: an empty one, and one whose only event is the listen
      action. Only the second gets the featurization marker. */
  lemma TestTrackerMarkers(isEndToEndPrediction: bool)
    ensures FeaturizationMarker([], isEndToEndPrediction) == []
    ensures FeaturizationMarker([ActionExecuted(ACTION_LISTEN_NAME)], isEndToEndPrediction)
            == [DefinePrevUserUtteredFeaturization(isEndToEndPrediction)]
  {
    assert LastActionIndex([ActionExecuted(ACTION_LISTEN_NAME)]) == Some(0);
  }

  lemma PolicyPriority(numActions: nat, tracker: Tracker)
    requires numActions >= 2
    ensures var p1 := PredictConstant(PlainConstant(1, 0), numActions);
      var p2 := PredictConstant(PlainConstant(2, 1), numActions);
      && p1.Success? && p2.Success?
      && var r0 := ProbabilitiesUsingBestPolicy(TwoConstants(), [p1.value, p2.value], tracker);
         var r1 := ProbabilitiesUsingBestPolicy(TwoConstants(), [p2.value, p1.value], tracker);
         && r0.Some? && r0.value.policyName == "policy_1_ConstantPolicy"
         && r0.value.probabilities == p2.value.probabilities
         && r1.Some? && r1.value.policyName == "policy_0_ConstantPolicy"
         && r1.value.probabilities == p2.value.probabilities
  {
    var p1 := PredictConstant(PlainConstant(1, 0), numActions).value;
    var p2 := PredictConstant(PlainConstant(2, 1), numActions).value;
    ConstantPredictionPeak(PlainConstant(1, 0), numActions);
    ConstantPredictionPeak(PlainConstant(2, 1), numActions);
    var policies := TwoConstants();
    assert policies[0].kind.typeName == CONSTANT_POLICY_NAME;
    assert policies[1].kind.typeName == CONSTANT_POLICY_NAME;
    PairWinner(policies, [p1, p2], tracker, 1);
    PairWinner(policies, [p2, p1], tracker, 0);
    ConstantNames();
  }

  lemma EndToEndPredictionSupersedesOthers(numActions: nat)
    requires numActions >= 3
    ensures var c := ConstantPolicy(1, Some(2), 0.5, true, false, [], []);
      var p0 := PredictConstant(PlainConstant(100, 0), numActions);
      var p1 := PredictConstant(c, numActions);
      && p0.Success? && p1.Success?
      && var r := ProbabilitiesUsingBestPolicy(TwoConstants(), [p0.value, p1.value], []);
         && r.Some?
         && MaxConfidence(r.value.probabilities) == 0.5
         && MaxConfidenceIndex(r.value.probabilities) == 2
         && r.value.policyName == "policy_1_ConstantPolicy"
  {
    var c := ConstantPolicy(1, Some(2), 0.5, true, false, [], []);
    var p0 := PredictConstant(PlainConstant(100, 0), numActions).value;
    var p1 := PredictConstant(c, numActions).value;
    ConstantPredictionPeak(c, numActions);
    var policies := TwoConstants();
    assert policies[1].kind.typeName == CONSTANT_POLICY_NAME;
    PairWinner(policies, [p0, p1], [], 1);
    ConstantNames();
  }

  lemma NoUserPredictionSupersedesOthers(numActions: nat)
    requires numActions >= 3
    ensures var e2e := ConstantPolicy(1, Some(1), 1.0, true, false, [], []);
      var noUser := ConstantPolicy(1, Some(2), 0.5, false, true, [], []);
      var p0 := PredictConstant(PlainConstant(100, 0), numActions);
      var p1 := PredictConstant(e2e, numActions);
      var p2 := PredictConstant(noUser, numActions);
      && p0.Success? && p1.Success? && p2.Success?
      && var policies := TwoConstants() + [Instance(ConstantPolicyDouble)];
         var r := ProbabilitiesUsingBestPolicy(policies, [p0.value, p1.value, p2.value], []);
         && r.Some?
         && MaxConfidence(r.value.probabilities) == 0.5
         && MaxConfidenceIndex(r.value.probabilities) == 2
         && r.value.policyName == "policy_2_ConstantPolicy"
         && r.value.isNoUserPrediction
         && !r.value.isEndToEndPrediction
  {
    var noUser := ConstantPolicy(1, Some(2), 0.5, false, true, [], []);
    var p0 := PredictConstant(PlainConstant(100, 0), numActions).value;
    var p1 := PredictConstant(ConstantPolicy(1, Some(1), 1.0, true, false, [], []), numActions).value;
    var p2 := PredictConstant(noUser, numActions).value;
    var policies := TwoConstants() + [Instance(ConstantPolicyDouble)];
    assert policies[2].kind.typeName == CONSTANT_POLICY_NAME;
    ConstantPredictionPeak(noUser, numActions);
    ThirdNoUserWins(policies, p0, p1, p2);
    ConstantNames();
  }

  /** The only no-user prediction of three, placed last, is reported under its own name. */
  lemma ThirdNoUserWins(policies: seq<Policy>, p0: Prediction, p1: Prediction, p2: Prediction)
    requires |policies| == 3
    requires CanWin(p2) && p2.isNoUserPrediction && !p0.isNoUserPrediction && !p1.isNoUserPrediction
    ensures var r := ProbabilitiesUsingBestPolicy(policies, [p0, p1, p2], []);
      && r.Some?
      && r.value.policyName == PolicyName(2, policies[2].kind.typeName)
      && r.value.probabilities == p2.probabilities
      && r.value.isNoUserPrediction
      && r.value.isEndToEndPrediction == p2.isEndToEndPrediction
  {
    NoUserPredictionWins(policies, [p0, p1, p2], [], 2);
  }

  lemma PredictionAppliesMustHavePolicyEvents(numActions: nat)
    requires numActions >= 3
    ensures var mustHave := [ActionExecuted("my action")];
      var p0 := PredictConstant(PlainConstant(10, 1), numActions);
      var p1 := PredictConstant(ConstantPolicy(1, Some(2), 1.0, false, false, mustHave, []), numActions);
      && p0.Success? && p1.Success?
      && var r := ProbabilitiesUsingBestPolicy(TwoConstants(), [p0.value, p1.value], []);
         && r.Some?
         && r.value.policyName == "policy_0_ConstantPolicy"
         && r.value.events == mustHave
  {
    var mustHave := [ActionExecuted("my action")];
    var c1 := ConstantPolicy(1, Some(2), 1.0, false, false, mustHave, []);
    var p0 := PredictConstant(PlainConstant(10, 1), numActions).value;
    var p1 := PredictConstant(c1, numActions).value;
    ConstantPredictionPeak(PlainConstant(10, 1), numActions);
    ConstantPredictionPeak(c1, numActions);
    var policies := TwoConstants();
    assert policies[0].kind.typeName == CONSTANT_POLICY_NAME;
    PairWinner(policies, [p0, p1], [], 0);
    TestTrackerMarkers(false);
    ConstantNames();
  }

  lemma PredictionAppliesOptionalPolicyEvents(numActions: nat)
    requires numActions >= 3
    ensures var optional := [ActionExecuted("my action")];
      var mustHave := [SlotSet("some slot", "some value")];
      var p0 := PredictConstant(ConstantPolicy(10, Some(1), 1.0, false, false, mustHave, optional), numActions);
      var p1 := PredictConstant(PlainConstant(1, 2), numActions);
      && p0.Success? && p1.Success?
      && var r := ProbabilitiesUsingBestPolicy(TwoConstants(), [p0.value, p1.value], []);
         && r.Some?
         && r.value.policyName == "policy_0_ConstantPolicy"
         && |r.value.events| == |optional| + |mustHave|
         && (forall e :: e in optional ==> e in r.value.events)
         && (forall e :: e in mustHave ==> e in r.value.events)
  {
    var optional := [ActionExecuted("my action")];
    var mustHave := [SlotSet("some slot", "some value")];
    var c0 := ConstantPolicy(10, Some(1), 1.0, false, false, mustHave, optional);
    var p0 := PredictConstant(c0, numActions).value;
    var p1 := PredictConstant(PlainConstant(1, 2), numActions).value;
    ConstantPredictionPeak(c0, numActions);
    ConstantPredictionPeak(PlainConstant(1, 2), numActions);
    var policies := TwoConstants();
    assert policies[0].kind.typeName == CONSTANT_POLICY_NAME;
    PairWinner(policies, [p0, p1], [], 0);
    TestTrackerMarkers(false);
    assert ProbabilitiesUsingBestPolicy(policies, [p0, p1], []).value.events == mustHave + optional;
    ConstantNames();
  }

  lemma EndToEndPredictionAppliesDefineFeaturizationEvents(numActions: nat)
    requires numActions >= 2
    ensures var p0 := PredictConstant(PlainConstant(100, 0), numActions);
      var p1 := PredictConstant(ConstantPolicy(1, Some(1), 1.0, true, false, [], []), numActions);
      && p0.Success? && p1.Success?
      && var preds := [p0.value, p1.value];
         && ProbabilitiesUsingBestPolicy(TwoConstants(), preds, []).Some?
         && ProbabilitiesUsingBestPolicy(TwoConstants(), preds, []).value.events == []
         && ProbabilitiesUsingBestPolicy(TwoConstants(), preds, [ActionExecuted(ACTION_LISTEN_NAME)]).Some?
         && ProbabilitiesUsingBestPolicy(TwoConstants(), preds, [ActionExecuted(ACTION_LISTEN_NAME)]).value.events
            == [DefinePrevUserUtteredFeaturization(true)]
  {
    var p0 := PredictConstant(PlainConstant(100, 0), numActions).value;
    var p1 := PredictConstant(ConstantPolicy(1, Some(1), 1.0, true, false, [], []), numActions).value;
    PairWinner(TwoConstants(), [p0, p1], [], 1);
    PairWinner(TwoConstants(), [p0, p1], [ActionExecuted(ACTION_LISTEN_NAME)], 1);
    TestTrackerMarkers(true);
  }

  lemma IntentPredictionDoesNotApplyDefineFeaturizationEvents(numActions: nat)
    requires numActions >= 2
    ensures var p0 := PredictConstant(PlainConstant(100, 0), numActions);
      var p1 := PredictConstant(PlainConstant(1, 1), numActions);
      && p0.Success? && p1.Success?
      && var preds := [p0.value, p1.value];
         && ProbabilitiesUsingBestPolicy(TwoConstants(), preds, []).Some?
         && ProbabilitiesUsingBestPolicy(TwoConstants(), preds, []).value.events == []
         && ProbabilitiesUsingBestPolicy(TwoConstants(), preds, [ActionExecuted(ACTION_LISTEN_NAME)]).Some?
         && ProbabilitiesUsingBestPolicy(TwoConstants(), preds, [ActionExecuted(ACTION_LISTEN_NAME)]).value.events
            == [DefinePrevUserUtteredFeaturization(false)]
  {
    var p0 := PredictConstant(PlainConstant(100, 0), numActions).value;
    var p1 := PredictConstant(PlainConstant(1, 1), numActions).value;
    ConstantPredictionPeak(PlainConstant(100, 0), numActions);
    ConstantPredictionPeak(PlainConstant(1, 1), numActions);
    PairWinner(TwoConstants(), [p0, p1], [], 0);
    PairWinner(TwoConstants(), [p0, p1], [ActionExecuted(ACTION_LISTEN_NAME)], 0);
    TestTrackerMarkers(false);
  }

  lemma MemoizationPolicyIsInTrainingData()
    ensures !IsNotInTrainingData(Some(PolicyName(1, MEMOIZATION_POLICY.typeName)), Some(1.0))
  {
    StampedMemoizingPolicyIsInTrainingData(1, 1, Some(1.0));
  }

  lemma AugmentedMemoizationPolicyIsInTrainingData(maxConfidence: Option<real>)
    requires maxConfidence == Some(1.0) || maxConfidence == None
    ensures !IsNotInTrainingData(Some(PolicyName(1, AUGMENTED_MEMOIZATION_POLICY.typeName)), maxConfidence)
  {
    StampedMemoizingPolicyIsInTrainingData(1, 2, maxConfidence);
  }

  lemma RulePolicyIsInTrainingData()
    ensures !IsNotInTrainingData(Some(PolicyName(1, RULE_POLICY.typeName)), Some(1.0))
  {
    StampedMemoizingPolicyIsInTrainingData(1, 0, Some(1.0));
  }

  lemma ZeroConfidenceIsNotInTrainingData()
    ensures IsNotInTrainingData(Some("any"), Some(0.0))
  {
  }
}
