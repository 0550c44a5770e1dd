/**
 Reloading a persisted ensemble (`PolicyEnsemble.load`), modelled as a fold
 over the result each recorded policy type's own `load` returned. Reading
 directories and the metadata file is not modelled; what is kept of a
 persisted ensemble is, per policy and in order, its qualified type name
 and the directory it was stored under.
 */
module Loading {
  import opened Wrappers
  import opened Naming
  import opened Policies

  /** One persisted policy: its type's dotted path and its `policy_{i}_{Type}` directory. */
  datatype StoredPolicy = StoredPolicy(qualifiedName: string, directory: string)

  /** What a policy type's `load` returned: a policy, `None`, or a value of the wrong type. */
  datatype LoadResult = Loaded(policy: Policy) | ReturnedNone | WrongType

  datatype LoadedEnsemble = LoadedEnsemble(policies: seq<Policy>, warnings: seq<string>)

  /** The exception that aborts the whole load, together with the warnings that had already
      been logged for earlier policies before it was raised. */
  datatype LoadError = WrongTypeReturned(qualifiedName: string, loggedWarnings: seq<string>)

  /** The record of an ensemble's policies that `persist` leaves behind. */
  function Persist(policies: seq<Policy>): (stored: seq<StoredPolicy>)
    ensures |stored| == |policies|
    ensures forall i :: 0 <= i < |policies| ==>
      stored[i].qualifiedName == QualifiedName(policies[i].kind)
    ensures forall i, j :: 0 <= i < j < |stored| ==> stored[i].directory != stored[j].directory
  {
    var stored := seq(|policies|, i requires 0 <= i < |policies| =>
      StoredPolicy(QualifiedName(policies[i].kind), PolicyName(i, policies[i].kind.typeName)));
    DirectoriesDistinct(policies, stored);
    stored
  }

  lemma DirectoriesDistinct(policies: seq<Policy>, stored: seq<StoredPolicy>)
    requires |stored| == |policies|
    requires forall i :: 0 <= i < |policies| ==>
      stored[i].directory == PolicyName(i, policies[i].kind.typeName)
    ensures forall i, j :: 0 <= i < j < |stored| ==> stored[i].directory != stored[j].directory
  {
    forall i, j | 0 <= i < j < |stored|
      ensures stored[i].directory != stored[j].directory
    {
      if stored[i].directory == stored[j].directory {
        PolicyNameInjective(i, policies[i].kind.typeName, j, policies[j].kind.typeName);
      }
    }
  }

  /** The warning logged when a policy type's `load` returns `None`. */
  function NoneWarning(qualifiedName: string): string {
    "Failed to load policy " + qualifiedName + ": load returned None"
  }

  /** The policies of the successful load results, in order. */
  function LoadedOnes(outcomes: seq<LoadResult>): (ps: seq<Policy>)
    ensures |ps| <= |outcomes|
    ensures forall p :: p in ps <==> Loaded(p) in outcomes
  {
    if |outcomes| == 0 then []
    else if outcomes[0].Loaded? then [outcomes[0].policy] + LoadedOnes(outcomes[1..])
    else LoadedOnes(outcomes[1..])
  }

  /** One warning per load result that was `None`, naming that policy's type, in order. */
  function NoneWarnings(stored: seq<StoredPolicy>, outcomes: seq<LoadResult>): (ws: seq<string>)
    requires |stored| == |outcomes|
    ensures |ws| <= |outcomes|
    ensures forall w :: w in ws ==>
      exists i :: 0 <= i < |outcomes| && outcomes[i].ReturnedNone? && w == NoneWarning(stored[i].qualifiedName)
  {
    if |outcomes| == 0 then []
    else
      var ws := NoneWarnings(stored[1..], outcomes[1..]);
      if outcomes[0].ReturnedNone? then [NoneWarning(stored[0].qualifiedName)] + ws else ws
  }

  /** `PolicyEnsemble.load` over the per-policy `load` results `outcomes[i]` for `stored[i]`:
      loaded policies are kept in order, a `None` is skipped with a warning, and a value of
      the wrong type aborts the whole load after the warnings for the policies before it. */
  function Load(stored: seq<StoredPolicy>, outcomes: seq<LoadResult>): (r: Result<LoadedEnsemble, LoadError>)
    requires |stored| == |outcomes|
    ensures r.Failure? <==> exists i :: 0 <= i < |outcomes| && outcomes[i].WrongType?
    ensures r.Failure? ==>
      exists i :: (0 <= i < |outcomes| && outcomes[i].WrongType?
                   && r.error == WrongTypeReturned(stored[i].qualifiedName, NoneWarnings(stored[..i], outcomes[..i]))
                   && forall j :: 0 <= j < i ==> !outcomes[j].WrongType?)
    ensures r.Success? ==> r.value.policies == LoadedOnes(outcomes)
    ensures r.Success? ==> r.value.warnings == NoneWarnings(stored, outcomes)
    ensures r.Success? ==> |r.value.policies| + |r.value.warnings| == |stored|
  {
    if |stored| == 0 then Success(LoadedEnsemble([], []))
    else if outcomes[0].WrongType? then
      assert NoneWarnings(stored[..0], outcomes[..0]) == [];
      Failure(WrongTypeReturned(stored[0].qualifiedName, []))
    else
      var rest := Load(stored[1..], outcomes[1..]);
      if rest.Failure? then
        var i' :| 0 <= i' < |outcomes[1..]| && outcomes[1..][i'].WrongType?
          && rest.error == WrongTypeReturned(stored[1..][i'].qualifiedName,
                                             NoneWarnings(stored[1..][..i'], outcomes[1..][..i']))
          && forall j :: 0 <= j < i' ==> !outcomes[1..][j].WrongType?;
        assert outcomes[i' + 1].WrongType?;
        NoneWarningsOfLongerPrefix(stored, outcomes, i');
        var earlier := if outcomes[0].ReturnedNone? then [NoneWarning(stored[0].qualifiedName)] else [];
        Failure(WrongTypeReturned(rest.error.qualifiedName, earlier + rest.error.loggedWarnings))
      else if outcomes[0].ReturnedNone? then
        Success(LoadedEnsemble(rest.value.policies,
                               [NoneWarning(stored[0].qualifiedName)] + rest.value.warnings))
      else
        Success(LoadedEnsemble([outcomes[0].policy] + rest.value.policies, rest.value.warnings))
  }

  /** The warnings of a prefix are those of its first entry followed by those of the rest. */
  lemma NoneWarningsOfLongerPrefix(stored: seq<StoredPolicy>, outcomes: seq<LoadResult>, i: nat)
    requires |stored| == |outcomes| && i < |outcomes| - 1
    ensures NoneWarnings(stored[..i + 1], outcomes[..i + 1])
      == (if outcomes[0].ReturnedNone? then [NoneWarning(stored[0].qualifiedName)] else [])
         + NoneWarnings(stored[1..][..i], outcomes[1..][..i])
  {
    assert stored[..i + 1][1..] == stored[1..][..i];
    assert outcomes[..i + 1][1..] == outcomes[1..][..i];
  }

  /** The policies carried by load results that all succeeded. */
  function LoadedPolicies(outcomes: seq<LoadResult>): (ps: seq<Policy>)
    requires forall i :: 0 <= i < |outcomes| ==> outcomes[i].Loaded?
    ensures |ps| == |outcomes| && forall i :: 0 <= i < |outcomes| ==> outcomes[i] == Loaded(ps[i])
  {
    seq(|outcomes|, i requires 0 <= i < |outcomes| => outcomes[i].policy)
  }

  /** When every policy loads, the ensemble is rebuilt in order and nothing is logged. */
  lemma AllLoadedKeepsOrder(stored: seq<StoredPolicy>, outcomes: seq<LoadResult>)
    requires |stored| == |outcomes|
    requires forall i :: 0 <= i < |outcomes| ==> outcomes[i].Loaded?
    ensures Load(stored, outcomes) == Success(LoadedEnsemble(LoadedPolicies(outcomes), []))
  {
    AllLoadedOnes(outcomes);
    NoWarningWithoutAbstention(stored, outcomes);
  }

  /** Persisting an ensemble whose policies reload as themselves and loading it back yields
      an equal policy list. */
  lemma PersistLoadRoundTrip(policies: seq<Policy>, outcomes: seq<LoadResult>)
    requires |outcomes| == |policies|
    requires forall i :: 0 <= i < |policies| ==> outcomes[i] == Loaded(policies[i])
    ensures Load(Persist(policies), outcomes) == Success(LoadedEnsemble(policies, []))
  {
    AllLoadedKeepsOrder(Persist(policies), outcomes);
    assert LoadedPolicies(outcomes) == policies;
  }

  /** A policy whose `load` returns `None` is the only one left out; the others keep their
      order and exactly one warning names the missing policy's type. */
  lemma AbstentionDropsOnlyThatPolicy(stored: seq<StoredPolicy>, outcomes: seq<LoadResult>, k: nat)
    requires |stored| == |outcomes| && k < |outcomes|
    requires outcomes[k].ReturnedNone?
    requires forall i :: 0 <= i < |outcomes| && i != k ==> outcomes[i].Loaded?
    ensures var r := Load(stored, outcomes);
      && r.Success?
      && r.value.warnings == [NoneWarning(stored[k].qualifiedName)]
      && |r.value.policies| == |outcomes| - 1
      && (forall i :: 0 <= i < k ==> outcomes[i] == Loaded(r.value.policies[i]))
      && (forall i :: k < i < |outcomes| ==> outcomes[i] == Loaded(r.value.policies[i - 1]))
  {
    OneAbstentionWarning(stored, outcomes, k);
    OneAbstentionPolicies(outcomes, k);
  }

  /** With a single `None` among successful loads there is a single warning. */
  lemma {:induction false} OneAbstentionWarning(stored: seq<StoredPolicy>, outcomes: seq<LoadResult>, k: nat)
    requires |stored| == |outcomes| && k < |outcomes|
    requires outcomes[k].ReturnedNone?
    requires forall i :: 0 <= i < |outcomes| && i != k ==> outcomes[i].Loaded?
    ensures NoneWarnings(stored, outcomes) == [NoneWarning(stored[k].qualifiedName)]
    decreases |outcomes|
  {
    if k == 0 {
      NoWarningWithoutAbstention(stored[1..], outcomes[1..]);
    } else {
      OneAbstentionWarning(stored[1..], outcomes[1..], k - 1);
    }
  }

  /** Successful loads alone log nothing. */
  lemma {:induction false} NoWarningWithoutAbstention(stored: seq<StoredPolicy>, outcomes: seq<LoadResult>)
    requires |stored| == |outcomes|
    requires forall i :: 0 <= i < |outcomes| ==> outcomes[i].Loaded?
    ensures NoneWarnings(stored, outcomes) == []
    decreases |outcomes|
  {
    if |outcomes| > 0 {
      NoWarningWithoutAbstention(stored[1..], outcomes[1..]);
    }
  }

  /** With a single `None` among successful loads every other policy is kept, in order. */
  lemma {:induction false} OneAbstentionPolicies(outcomes: seq<LoadResult>, k: nat)
    requires k < |outcomes|
    requires outcomes[k].ReturnedNone?
    requires forall i :: 0 <= i < |outcomes| && i != k ==> outcomes[i].Loaded?
    ensures var ps := LoadedOnes(outcomes);
      && |ps| == |outcomes| - 1
      && (forall i :: 0 <= i < k ==> outcomes[i] == Loaded(ps[i]))
      && (forall i :: k < i < |outcomes| ==> outcomes[i] == Loaded(ps[i - 1]))
    decreases |outcomes|
  {
    var ps := LoadedOnes(outcomes);
    if k == 0 {
      AllLoadedOnes(outcomes[1..]);
      assert ps == LoadedPolicies(outcomes[1..]);
      forall i | 0 < i < |outcomes|
        ensures outcomes[i] == Loaded(ps[i - 1])
      {
        assert outcomes[i] == outcomes[1..][i - 1];
      }
    } else {
      OneAbstentionPolicies(outcomes[1..], k - 1);
      assert ps == [outcomes[0].policy] + LoadedOnes(outcomes[1..]);
      forall i | 0 < i < |outcomes| && i != k
        ensures outcomes[i] == Loaded(ps[if i < k then i else i - 1])
      {
        assert outcomes[i] == outcomes[1..][i - 1];
      }
    }
  }

  /** When every load succeeds the kept policies are exactly the loaded ones. */
  lemma {:induction false} AllLoadedOnes(outcomes: seq<LoadResult>)
    requires forall i :: 0 <= i < |outcomes| ==> outcomes[i].Loaded?
    ensures LoadedOnes(outcomes) == LoadedPolicies(outcomes)
    decreases |outcomes|
  {
    if |outcomes| > 0 {
      AllLoadedOnes(outcomes[1..]);
      assert LoadedPolicies(outcomes) == [outcomes[0].policy] + LoadedPolicies(outcomes[1..]);
    }
  }
}
