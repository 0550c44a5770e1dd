/**
 Building an ensemble's policy list from a configuration mapping
 (`PolicyEnsemble.from_dict`). The mapping lists policy specifications under
 `policies` or `policy`; each names a known policy type by its short or its
 fully qualified name. The configuration is a value, so the caller's mapping
 can never be altered by building from it.
 */
module Configuration {
  import opened Wrappers
  import opened Policies

  const POLICIES_KEY: string := "policies"
  const POLICY_KEY: string := "policy"

  /** One entry of the policy list: the `name` field and the remaining options. */
  datatype PolicySpec = PolicySpec(name: string, options: map<string, string>)

  type PolicyConfig = map<string, seq<PolicySpec>>

  /** The reasons `InvalidPolicyConfig` is raised. */
  datatype InvalidPolicyConfig =
    | NoPoliciesDefined
    | ConflictingPolicyKeys
    | EmptyPolicyList
    | UnknownPolicy(name: string)

  predicate NameMatches(kind: PolicyKind, name: string) {
    name == kind.typeName || name == QualifiedName(kind)
  }

  predicate IsKnown(registry: seq<PolicyKind>, name: string) {
    exists k :: 0 <= k < |registry| && NameMatches(registry[k], name)
  }

  /** The registered policy type a configured name refers to. */
  function Resolve(registry: seq<PolicyKind>, name: string): (r: Option<PolicyKind>)
    ensures r.None? <==> !IsKnown(registry, name)
    ensures r.Some? ==> r.value in registry && NameMatches(r.value, name)
  {
    if |registry| == 0 then None
    else if NameMatches(registry[0], name) then Some(registry[0])
    else
      var r := Resolve(registry[1..], name);
      assert IsKnown(registry, name) ==> IsKnown(registry[1..], name) by {
        if IsKnown(registry, name) {
          var k :| 0 <= k < |registry| && NameMatches(registry[k], name);
          assert k > 0 && NameMatches(registry[1..][k - 1], name);
        }
      }
      r
  }

  /** `policies` is the policy list `specs` configures, entry by entry and in order:
      each policy has a registered type matching its entry's name and keeps its options. */
  predicate BuiltFrom(registry: seq<PolicyKind>, policies: seq<Policy>, specs: seq<PolicySpec>) {
    && |policies| == |specs|
    && forall i :: 0 <= i < |specs| ==>
         && policies[i].kind in registry
         && NameMatches(policies[i].kind, specs[i].name)
         && policies[i].options == specs[i].options
  }

  /** Instantiates the configured policies in order; the first unknown name is an error. */
  function Instantiate(registry: seq<PolicyKind>, specs: seq<PolicySpec>): (r: Result<seq<Policy>, InvalidPolicyConfig>)
    ensures r.Success? <==> AllKnown(registry, specs)
    ensures r.Success? ==> BuiltFrom(registry, r.value, specs)
    ensures r.Failure? ==> exists i :: 0 <= i < |specs| && !IsKnown(registry, specs[i].name)
                             && r.error == UnknownPolicy(specs[i].name)
  {
    if |specs| == 0 then Success([])
    else match Resolve(registry, specs[0].name)
      case None => Failure(UnknownPolicy(specs[0].name))
      case Some(kind) =>
        match Instantiate(registry, specs[1..])
        case Failure(e) => Failure(e)
        case Success(rest) => Success([Policy(kind, specs[0].options)] + rest)
  }

  /** A configuration is valid when exactly one of the two keys lists a non-empty
      sequence of policies whose names are all known. */
  predicate IsValidConfig(config: PolicyConfig, registry: seq<PolicyKind>) {
    && (POLICIES_KEY in config) != (POLICY_KEY in config)
    && |ListedSpecs(config)| > 0
    && AllKnown(registry, ListedSpecs(config))
  }

  /** The policy list under `policies`, else under `policy`, else nothing. */
  function ListedSpecs(config: PolicyConfig): seq<PolicySpec> {
    if POLICIES_KEY in config then config[POLICIES_KEY]
    else if POLICY_KEY in config then config[POLICY_KEY]
    else []
  }

  predicate AllKnown(registry: seq<PolicyKind>, specs: seq<PolicySpec>) {
    forall i :: 0 <= i < |specs| ==> IsKnown(registry, specs[i].name)
  }

  /** `PolicyEnsemble.from_dict`. */
  function FromDict(config: PolicyConfig, registry: seq<PolicyKind>): (r: Result<seq<Policy>, InvalidPolicyConfig>)
    ensures r.Success? <==> IsValidConfig(config, registry)
    ensures r.Success? ==> |r.value| > 0
    ensures r.Success? && POLICIES_KEY in config ==> BuiltFrom(registry, r.value, config[POLICIES_KEY])
    ensures r.Success? && POLICY_KEY in config ==> BuiltFrom(registry, r.value, config[POLICY_KEY])
  {
    if POLICIES_KEY in config && POLICY_KEY in config then Failure(ConflictingPolicyKeys)
    else if POLICIES_KEY !in config && POLICY_KEY !in config then Failure(NoPoliciesDefined)
    else
      var specs := ListedSpecs(config);
      if |specs| == 0 then Failure(EmptyPolicyList)
      else Instantiate(registry, specs)
  }

  /** Every configuration naming an unknown policy is rejected, and the error names it. */
  lemma UnknownNameRejected(config: PolicyConfig, registry: seq<PolicyKind>, key: string, i: nat)
    requires key == POLICIES_KEY || key == POLICY_KEY
    requires key in config && i < |config[key]| && !IsKnown(registry, config[key][i].name)
    ensures FromDict(config, registry).Failure?
    ensures (POLICIES_KEY in config) != (POLICY_KEY in config) ==>
      exists j :: 0 <= j < |config[key]| && FromDict(config, registry).error == UnknownPolicy(config[key][j].name)
  {
  }
}
