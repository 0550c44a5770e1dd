/**
 Policy types and instances as the ensemble sees them: a type name, the
 module that defines it, and which kind of training data it consumes.
 A policy's trained parameters are opaque to the ensemble and are not
 represented.
 */
module Policies {

  /** Which training trackers a policy can learn from. */
  datatype SupportedData = MlData | RuleData | MlAndRuleData

  datatype PolicyKind = PolicyKind(typeName: string, modulePath: string, supportedData: SupportedData)

  /** A policy instance: its type and the options it was configured with. */
  datatype Policy = Policy(kind: PolicyKind, options: map<string, string>)

  /** The dotted path of a policy type, e.g. `rasa.core.policies.rule_policy.RulePolicy`. */
  function QualifiedName(kind: PolicyKind): string {
    kind.modulePath + "." + kind.typeName
  }

  /** True for policies that learn from rule trackers. */
  predicate SupportsRules(kind: PolicyKind) {
    kind.supportedData == RuleData || kind.supportedData == MlAndRuleData
  }

  const MEMOIZATION_POLICY := PolicyKind("MemoizationPolicy", "rasa.core.policies.memoization", MlData)
  const AUGMENTED_MEMOIZATION_POLICY :=
    PolicyKind("AugmentedMemoizationPolicy", "rasa.core.policies.memoization", MlData)
  const RULE_POLICY := PolicyKind("RulePolicy", "rasa.core.policies.rule_policy", MlAndRuleData)
  const TED_POLICY := PolicyKind("TEDPolicy", "rasa.core.policies.ted_policy", MlData)

  /** The built-in policy types the tests name. */
  const BUILTIN_REGISTRY: seq<PolicyKind> :=
    [MEMOIZATION_POLICY, AUGMENTED_MEMOIZATION_POLICY, RULE_POLICY, TED_POLICY]

  /** The policy types whose predictions replay memorised training data. */
  const MEMOIZING_POLICIES: seq<PolicyKind> :=
    [RULE_POLICY, MEMOIZATION_POLICY, AUGMENTED_MEMOIZATION_POLICY]
}
