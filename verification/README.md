# Rasa dialogue-policy ensemble, modelled in Dafny

This project models the decision procedure at the heart of Rasa's dialogue
management: the **policy ensemble** that asks several policies (memoization,
rule-based, machine-learned) for a prediction of the bot's next action and
reconciles their answers into one. The behaviour is the one the ensemble's
test suite, `tests/core/test_ensemble.py`, pins down, with its test doubles
(`ConstantPolicy`, `WorkingPolicy`, `LoadReturnsNonePolicy`,
`LoadReturnsWrongTypePolicy`) modelled as well. The behaviour of the ensemble's
module, `rasa/core/policies/ensemble.py`, is taken from that test suite rather than
from the module's code, which is not part of this model; where the tests leave a
choice open, the model makes its own decision and says so below.

Modules, one per concept:

- `Wrappers` (`wrappers.dfy`): `Option` for Python's `None`, `Result` for raised errors.
- `Events` (`events.dfy`): conversation events and the tracker (`seq<Event>`), with the
  name of the most recently executed action.
- `Naming` (`naming.dfy`): the `policy_{i}_{TypeName}` names stamped on predictions and
  persisted policies, their parser and its round trip.
- `Policies` (`policies.dfy`): policy types (type name, module, supported training data)
  and the built-in registry.
- `Predictions` (`predictions.dfy`): `PolicyPrediction`, its maximum confidence and arg-max,
  and the `ConstantPolicy` test double's one-hot prediction.
- `Ensemble` (`ensemble.dfy`): `probabilities_using_best_policy` — choosing the winner,
  stamping its name, merging events, adding the featurization marker — and
  `is_not_in_training_data`.
- `Configuration` (`configuration.dfy`): `PolicyEnsemble.from_dict`.
- `Loading` (`loading.dfy`): what `persist` records per policy and `PolicyEnsemble.load` as a
  fold over per-policy load results.
- `Training` (`training.dfy`): the rule-data consistency warnings `train` emits.
- `EnsembleTests` (`ensemble_tests.dfy`): the test doubles and each test's assertions as
  lemmas about the model.

Design decisions where the tests leave the behaviour open:

- Predictions fall into three tiers: no-user predictions above all others, then end-to-end
  predictions, then the rest; inside the no-user tier the end-to-end flag plays no part.
- The winner is specified relationally (`Ensemble.IsBest`): it can win (its score vector is
  non-empty), nothing that can win is in a higher tier, and nothing that can win in its own
  tier clearly beats it, that is, has at least its maximum confidence and at least its
  priority and more of one of them. This holds whichever of confidence and priority is
  compared first, and the tests, whose competing predictions always share confidence 1.0,
  do not decide that order.
- The computation ranks by tier, then maximum confidence, then priority (Rasa's documented
  rule: priority only separates predictions of equal confidence;
  `Ensemble.WinnerHasHighestConfidenceThenPriority`). It scans the ensemble in order and
  keeps the earliest of equally ranked predictions (`Ensemble.EarliestOfEquallyRankedWins`);
  the tests never compare two equally ranked predictions, so that tie-break is the model's
  own choice.
- A prediction with an empty score vector cannot win. When no policy has an opinion the
  model returns no prediction (`None`) instead of failing.
- The `DefinePrevUserUtteredFeaturization` marker is added when the tracker's latest
  executed action is `action_listen`, i.e. the last `ActionExecuted` event names it; user
  messages after the listen do not change that. On the tests' trackers (empty, and
  `[ActionExecuted(action_listen)]`) this coincides with "the last event is the listen action".
- The model rejects a configuration holding both `policy` and `policies`; no test covers it.
- Configurations are values, so `from_dict` can never change its caller's mapping (the
  property the deep-copy test checks); each policy receives the options its entry lists.
- The rule-data check runs on whatever tracker list `train` receives, including an empty one.
- Probabilities are `real`, not floating point.

## Model

| member | source | states |
|---|---|---|
| `Predictions.PredictConstant` | tests/core/test_ensemble.py:127-145 | `ConstantPolicy` predicts a vector of `num_actions` scores, all 0.0 except `confidence` at `predict_index` (Python indexing, negatives counted from the end), copying priority, flags and both event lists; a missing or out-of-range index is an error |
| `Predictions.ConstantPredictionPeak` | tests/core/test_ensemble.py:127-145 | a constant prediction with positive confidence has that confidence as its maximum and its configured action as its arg-max |
| `Predictions.OneHotMaximum` | tests/core/test_ensemble.py:134-135 | a one-hot vector's maximum is its hot value, and its arg-max the hot slot when that value is positive |
| `Predictions.MaxConfidence` | tests/core/test_ensemble.py:349-350 | `max_confidence` is a score of the vector and no score exceeds it |
| `Predictions.MaxConfidenceIndex` | tests/core/test_ensemble.py:349-350 | `max_confidence_index` is the first position holding the maximum score |
| `Events.LastActionIndex` | tests/core/test_ensemble.py:442-456 | the latest executed action is the last `ActionExecuted` event; with none, there is no latest action |
| `Events.ListenIsLatestAction` | tests/core/test_ensemble.py:442-456 | the latest action is the listen action exactly when some `action_listen` execution is followed by no other action execution |
| `Events.LatestActionIgnoresOtherEvents` | tests/core/test_ensemble.py:442-456 | events other than action executions never change the latest action |
| `Naming.PolicyNameRoundTrip` | tests/core/test_ensemble.py:162-173 | the stamped name `policy_{i}_{TypeName}` can be parsed back to exactly `i` and `TypeName` |
| `Naming.PolicyNameInjective` | tests/core/test_ensemble.py:162-173 | two different positions or types never receive the same stamped name |
| `Naming.PolicyNameEndsWithType` | tests/core/test_ensemble.py:484-490 | a stamped name ends with `_` followed by the type name |
| `Ensemble.BestIndex` | tests/core/test_ensemble.py:148-174 | the scan over the predictions finds one that can win exactly when one exists; nothing able to win outranks it by tier, confidence and priority, and it outranks every earlier prediction able to win |
| `Ensemble.MustHaveEvents` | tests/core/test_ensemble.py:382-401 | the merged must-have events contain every event of every policy's must-have list, and nothing else, and their number is the total length of those lists |
| `Ensemble.MustHaveEventsLayout` | tests/core/test_ensemble.py:382-431 | each policy's must-have events appear as one contiguous block, placed after the blocks of all earlier policies |
| `Ensemble.FeaturizationMarker` | tests/core/test_ensemble.py:434-481 | the marker `DefinePrevUserUtteredFeaturization` with the given end-to-end flag is added exactly when the tracker holds an `action_listen` execution with no action executed after it, and nothing otherwise |
| `Ensemble.ProbabilitiesUsingBestPolicy` | tests/core/test_ensemble.py:148-174 | the result is the winner's scores, priority and flags under `policy_{i}_{TypeName}` for the winner's index `i`, with every policy's must-have events, the winner's optional events and the featurization marker; no result when no policy has an opinion |
| `Ensemble.WinnerHasHighestConfidenceThenPriority` | tests/core/test_ensemble.py:148-174 | the reported prediction is at the top of the ranking by tier, then maximum confidence, then priority (the documented rule; the tests only compare equal confidences) |
| `Ensemble.EarliestOfEquallyRankedWins` | tests/core/test_ensemble.py:148-174 | among equally ranked predictions the earliest in the ensemble is reported, under its own stamped name (the model's own choice; no test compares equal ranks) |
| `Ensemble.DominantPredictionWins` | tests/core/test_ensemble.py:329-379 | a prediction that clearly beats every other prediction able to win (higher tier, or same tier with no less confidence and priority and more of one) is the one reported |
| `Ensemble.HighestPriorityWins` | tests/core/test_ensemble.py:148-174 | among plain predictions whose maximum confidence is no higher than its own, the strictly highest priority wins in any ensemble order, named after its own index and carrying its own scores |
| `Ensemble.EndToEndPredictionWins` | tests/core/test_ensemble.py:329-351 | without no-user predictions an end-to-end prediction beats any intent-based one, whatever the priorities, keeping its maximum confidence and arg-max |
| `Ensemble.NoUserPredictionWins` | tests/core/test_ensemble.py:354-379 | a no-user prediction beats all others, and the result keeps its flags, maximum confidence and arg-max |
| `Ensemble.ResultIsFromHighestTier` | tests/core/test_ensemble.py:329-379 | the result belongs to the highest tier present (no-user, then end-to-end) and no prediction able to win clearly beats it |
| `Ensemble.MustHaveEventsAlwaysApplied` | tests/core/test_ensemble.py:382-401 | every must-have event of every policy, winner or loser, is in the result's events |
| `Ensemble.FeaturizationMarkerFollowsListen` | tests/core/test_ensemble.py:434-481 | after the listen action the last event is `DefinePrevUserUtteredFeaturization` with the winner's end-to-end flag; otherwise the events are exactly all must-have events followed by the winner's optional ones |
| `Ensemble.IsNotInTrainingData` | tests/core/test_ensemble.py:484-500 | a missing name or a confidence of 0.0 means "not in the training data"; "in the training data" requires a name ending in a memoizing policy's type |
| `Ensemble.StampedMemoizingPolicyIsInTrainingData` | tests/core/test_ensemble.py:484-500 | for a name stamped for the rule, memoization or augmented memoization policy, the answer is "not in the training data" exactly when the confidence is 0.0 |
| `Configuration.Resolve` | tests/core/test_ensemble.py:266-278 | a configured name resolves to a registered policy type matching it by short or qualified name, and to nothing exactly when no type matches |
| `Configuration.Instantiate` | tests/core/test_ensemble.py:266-278 | the policy list is built entry by entry in order exactly when every name is known; otherwise the error names an unknown entry |
| `Configuration.FromDict` | tests/core/test_ensemble.py:255-300 | a configuration is accepted exactly when one of `policy`/`policies` lists a non-empty sequence of known policies, and the result is that list in order with each entry's options |
| `Configuration.UnknownNameRejected` | tests/core/test_ensemble.py:266-278 | any configuration listing an unknown policy name is rejected |
| `Loading.Persist` | tests/core/test_ensemble.py:82-88 | persisting records each policy's qualified type name in order, under pairwise distinct directories |
| `Loading.Load` | tests/core/test_ensemble.py:204-252 | the load fails exactly when some policy's `load` returned a wrong type, naming the first one and carrying the warnings already logged for the policies before it; otherwise the policies are exactly the successful loads in order and the warnings exactly one per `None`, in order |
| `Loading.AllLoadedKeepsOrder` | tests/core/test_ensemble.py:82-88 | when every policy loads, the ensemble is rebuilt in the same order without warnings |
| `Loading.PersistLoadRoundTrip` | tests/core/test_ensemble.py:82-88 | persisting and reloading policies that reload as themselves gives an equal policy list |
| `Loading.AbstentionDropsOnlyThatPolicy` | tests/core/test_ensemble.py:204-216 | a policy whose `load` returns `None` is the only one missing, the rest keep their order, and exactly one warning names it |
| `Training.AnyRulePolicy` | tests/core/test_ensemble.py:303-313 | true exactly when some policy learns from rule data |
| `Training.AnyRuleTracker` | tests/core/test_ensemble.py:316-326 | true exactly when some training tracker is a rule tracker |
| `Training.ConsistentDataIsSilent` | tests/core/test_ensemble.py:303-326 | no warning is given exactly when rule policies and rule trackers are both present or both absent |
| `Training.RuleDataWarnings` | tests/core/test_ensemble.py:303-326 | at most one warning: the "rule-based policy but no rule-based training data" one exactly when a rule policy meets no rule tracker, the "rule-based training data but no policy" one exactly when rule trackers meet no rule policy |
| `EnsembleTests.LoadDouble` | tests/core/test_ensemble.py:52-55 | of the test doubles only `WorkingPolicy` loads (as an equal instance), and only `LoadReturnsWrongTypePolicy` returns a wrong type |
| `EnsembleTests.LoadDoubles` | tests/core/test_ensemble.py:204-252 | reloading persisted test doubles fails exactly when one of them is `LoadReturnsWrongTypePolicy` |
| `EnsembleTests.PolicyLoadingSimple` | tests/core/test_ensemble.py:82-88 | an ensemble of one `WorkingPolicy` reloads as an equal ensemble |
| `EnsembleTests.PolicyLoadingLoadReturnsNone` | tests/core/test_ensemble.py:204-216 | an ensemble of one `LoadReturnsNonePolicy` reloads with no policies and the warning `Failed to load policy tests.core.test_ensemble.LoadReturnsNonePolicy: load returned None` |
| `EnsembleTests.PolicyLoadingLoadReturnsWrongType` | tests/core/test_ensemble.py:246-252 | reloading an ensemble of one `LoadReturnsWrongTypePolicy` fails, naming that policy's type, with no earlier warnings |
| `EnsembleTests.ValidPolicyConfigurations` | tests/core/test_ensemble.py:255-263 | `MemoizationPolicy` under `policy` or under `policies` is accepted |
| `EnsembleTests.InvalidPolicyConfigurations` | tests/core/test_ensemble.py:266-278 | the wrong key `police`, an empty list, and unknown plain or dotted names are each rejected with the matching error |
| `EnsembleTests.FromDictKeepsPolicyOptions` | tests/core/test_ensemble.py:281-300 | the TED configuration is accepted and its featurizer option reaches the policy as written |
| `EnsembleTests.RuleBasedDataWarningsNoRuleTrackers` | tests/core/test_ensemble.py:303-313 | a rule policy with only story trackers gives one warning containing the "rule-based policy" sentence |
| `EnsembleTests.RuleBasedDataWarningsNoRulePolicy` | tests/core/test_ensemble.py:316-326 | a rule tracker without a rule policy gives one warning containing the "no policy supporting rule-based data" sentence |
| `EnsembleTests.TwoMustHaveEvents` | tests/core/test_ensemble.py:382-401 | the must-have events of a two-policy ensemble are the first policy's followed by the second's |
| `EnsembleTests.PolicyPriority` | tests/core/test_ensemble.py:148-174 | the priority-2 constant policy wins in both orders, named `policy_1_ConstantPolicy` and `policy_0_ConstantPolicy`, with its own scores |
| `EnsembleTests.EndToEndPredictionSupersedesOthers` | tests/core/test_ensemble.py:329-351 | the end-to-end prediction of priority 1 beats priority 100: confidence 0.5 at index 2, named `policy_1_ConstantPolicy` |
| `EnsembleTests.NoUserPredictionSupersedesOthers` | tests/core/test_ensemble.py:354-379 | the no-user prediction beats both others: confidence 0.5 at index 2, `policy_2_ConstantPolicy`, no-user and not end-to-end |
| `EnsembleTests.PredictionAppliesMustHavePolicyEvents` | tests/core/test_ensemble.py:382-401 | policy 0 wins and the result's events are exactly the losing policy's must-have events |
| `EnsembleTests.PredictionAppliesOptionalPolicyEvents` | tests/core/test_ensemble.py:404-431 | policy 0 wins and the events are its must-have and optional events, two in all |
| `EnsembleTests.EndToEndPredictionAppliesDefineFeaturizationEvents` | tests/core/test_ensemble.py:434-456 | with an empty tracker no events; after the listen action exactly `[DefinePrevUserUtteredFeaturization(True)]` |
| `EnsembleTests.IntentPredictionDoesNotApplyDefineFeaturizationEvents` | tests/core/test_ensemble.py:459-481 | with an empty tracker no events; after the listen action exactly `[DefinePrevUserUtteredFeaturization(False)]` |
| `EnsembleTests.MemoizationPolicyIsInTrainingData` | tests/core/test_ensemble.py:487 | `policy_1_MemoizationPolicy` with confidence 1.0 is in the training data |
| `EnsembleTests.AugmentedMemoizationPolicyIsInTrainingData` | tests/core/test_ensemble.py:488-489 | `policy_1_AugmentedMemoizationPolicy` with confidence 1.0 or none is in the training data |
| `EnsembleTests.RulePolicyIsInTrainingData` | tests/core/test_ensemble.py:490 | `policy_1_RulePolicy` with confidence 1.0 is in the training data |
| `EnsembleTests.ZeroConfidenceIsNotInTrainingData` | tests/core/test_ensemble.py:491 | the name `any` with confidence 0.0 is not in the training data |

## Left out

- Querying the policies: each policy's `predict_action_probabilities` is opaque, so the
  ensemble receives the predictions its policies returned, aligned with the policies.
- The tests of `action_unlikely_intent` (tests/core/test_ensemble.py:503-566) and the rule that
  the ensemble does not predict that action twice in a row: they need a trained agent and the
  `UnexpecTEDIntentPolicy`, neither of which is part of this model.
- Training the policies themselves and which trackers each one is given: policy training is
  opaque; only the rule-data check that precedes it is modelled.
- Persistence layout: directory creation, the metadata file, fingerprints and timestamps are
  file I/O. Only the per-policy record (qualified type name, `policy_{i}_{Type}` directory) is kept.
- Logging and Python's warnings machinery: warnings are returned as strings.
- `PolicyPrediction.for_action_name` (a one-hot prediction looked up by action name): only the
  left-out unlikely-intent tests use it.
- Importing custom policy classes by module path: resolution is a lookup in a registry of
  policy types given as a parameter; policy options are an opaque string map (nested
  featurizer configurations are not modelled).
- Training.RuleDataWarnings: each warning is only the sentence the tests look for; the advice
  and documentation link that follow it in the real message are not modelled.
- Loading.Load: the exception raised for a wrong-typed load result carries only the qualified
  name of the policy type and the warnings logged before it, not its message text.
- Rejected actions (`ActionExecutionRejected`): when the latest action was rejected, the
  ensemble sets that action's score to 0.0 in every prediction, before choosing the winner;
  the tests do not exercise it and the model does not carry rejection events.
- Events beyond those the tests use: the event vocabulary is `ActionExecuted`, `UserUttered`,
  `SlotSet` and the featurization marker. Rewinding or resetting events (`ActionReverted`,
  `UserUtteranceReverted`, `Restarted`), which would change which action counts as the
  latest, are not modelled.
- Configuration.FromDict: the tests do not decide three edge cases, and the implementation
  may differ from the model on each. The model rejects a configuration holding both
  `policy` and `policies`. It gives `EmptyPolicyList`, not `NoPoliciesDefined`, for
  `{"policies": []}`. An implementation reading `policies or policy` would accept the
  first configuration and report the second as having no policies.
- Training.RuleDataWarnings: the model runs the rule-data check on an empty tracker list
  too; the implementation may skip it when there are no trackers, and no test decides it.
- Ensemble.HighestPriorityWins: states priority only among predictions of no higher
  confidence, because the tests never let priority and confidence disagree.
