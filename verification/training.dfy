/**
 The rule-data consistency check the ensemble runs before training its
 policies. Its warnings are returned as values instead of being raised
 through Python's warnings machinery.
 */
module Training {
  import opened Events
  import opened Policies

  /** A training conversation, marked when it was written as a rule rather than a story. */
  datatype TrainingTracker = TrainingTracker(events: seq<Event>, isRuleTracker: bool)

  const RULE_POLICY_WITHOUT_RULE_DATA: string :=
    "Found a rule-based policy in your pipeline but no rule-based training data."
  const RULE_DATA_WITHOUT_RULE_POLICY: string :=
    "Found rule-based training data but no policy supporting rule-based data."

  /** Whether some policy of the ensemble learns from rule trackers. */
  function AnyRulePolicy(policies: seq<Policy>): (b: bool)
    ensures b <==> exists i :: 0 <= i < |policies| && SupportsRules(policies[i].kind)
  {
    if |policies| == 0 then false
    else SupportsRules(policies[0].kind) || AnyRulePolicy(policies[1..])
  }

  /** Whether some training tracker was written as a rule. */
  function AnyRuleTracker(trackers: seq<TrainingTracker>): (b: bool)
    ensures b <==> exists i :: 0 <= i < |trackers| && trackers[i].isRuleTracker
  {
    if |trackers| == 0 then false
    else trackers[0].isRuleTracker || AnyRuleTracker(trackers[1..])
  }

  /** The warnings `train` emits before fanning out: one when a rule policy has no rule data
      to learn from, the complementary one when rule data has no policy to learn it. */
  function RuleDataWarnings(policies: seq<Policy>, trackers: seq<TrainingTracker>): (w: seq<string>)
    ensures |w| <= 1
    ensures w == [RULE_POLICY_WITHOUT_RULE_DATA] <==>
      (exists i :: 0 <= i < |policies| && SupportsRules(policies[i].kind))
      && (forall j :: 0 <= j < |trackers| ==> !trackers[j].isRuleTracker)
    ensures w == [RULE_DATA_WITHOUT_RULE_POLICY] <==>
      (forall i :: 0 <= i < |policies| ==> !SupportsRules(policies[i].kind))
      && (exists j :: 0 <= j < |trackers| && trackers[j].isRuleTracker)
  {
    var rulePolicy := AnyRulePolicy(policies);
    var ruleData := AnyRuleTracker(trackers);
    if rulePolicy && !ruleData then [RULE_POLICY_WITHOUT_RULE_DATA]
    else if !rulePolicy && ruleData then [RULE_DATA_WITHOUT_RULE_POLICY]
    else []
  }

  /** Training data and policies that agree about rules produce no warning. */
  lemma ConsistentDataIsSilent(policies: seq<Policy>, trackers: seq<TrainingTracker>)
    ensures RuleDataWarnings(policies, trackers) == [] <==>
      ((exists i :: 0 <= i < |policies| && SupportsRules(policies[i].kind))
       <==> (exists j :: 0 <= j < |trackers| && trackers[j].isRuleTracker))
  {
  }
}
