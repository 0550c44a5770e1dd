/**
 The names the ensemble stamps on predictions and on persisted policies:
 `policy_{i}_{TypeName}`, where `i` is the policy's position in the
 ensemble written in decimal.
 */
module Naming {
  import opened Wrappers

  const POLICY_NAME_PREFIX: string := "policy_"

  predicate IsDigit(c: char) {
    '0' <= c <= '9'
  }

  predicate AllDigits(s: string) {
    forall k :: 0 <= k < |s| ==> IsDigit(s[k])
  }

  function DigitChar(d: nat): (c: char)
    requires d < 10
    ensures IsDigit(c)
  {
    ('0' as int + d) as char
  }

  /** Decimal rendering of a natural number, as Python's `str` gives it. */
  function NatToString(n: nat): (s: string)
    ensures |s| > 0 && AllDigits(s)
    decreases n
  {
    if n < 10 then [DigitChar(n)] else NatToString(n / 10) + [DigitChar(n % 10)]
  }

  /** The number a string of decimal digits denotes. */
  function DigitsValue(s: string): nat
    requires AllDigits(s)
  {
    if |s| == 0 then 0
    else DigitsValue(s[..|s| - 1]) * 10 + (s[|s| - 1] as int - '0' as int)
  }

  lemma {:induction false} DigitsValueOfNatToString(n: nat)
    ensures DigitsValue(NatToString(n)) == n
    decreases n
  {
    if n >= 10 {
      var s := NatToString(n);
      assert s[..|s| - 1] == NatToString(n / 10);
      DigitsValueOfNatToString(n / 10);
    }
  }

  /** The name of the policy at position `index`, of Python type `typeName`. */
  function PolicyName(index: nat, typeName: string): string {
    POLICY_NAME_PREFIX + NatToString(index) + "_" + typeName
  }

  /** Position of the first occurrence of `c` in `s`. */
  function FirstIndexOf(s: string, c: char): (r: Option<nat>)
    ensures r.None? ==> forall k :: 0 <= k < |s| ==> s[k] != c
    ensures r.Some? ==> r.value < |s| && s[r.value] == c
    ensures r.Some? ==> forall k :: 0 <= k < r.value ==> s[k] != c
  {
    if |s| == 0 then None
    else if s[0] == c then Some(0)
    else match FirstIndexOf(s[1..], c)
      case None => None
      case Some(k) => Some(k + 1)
  }

  /** Recovers the ensemble position and type name from a stamped name. */
  function ParsePolicyName(name: string): Option<(nat, string)> {
    if |name| < |POLICY_NAME_PREFIX| || name[..|POLICY_NAME_PREFIX|] != POLICY_NAME_PREFIX then None
    else
      var rest := name[|POLICY_NAME_PREFIX|..];
      match FirstIndexOf(rest, '_')
      case None => None
      case Some(k) =>
        if k == 0 || !AllDigits(rest[..k]) then None
        else Some((DigitsValue(rest[..k]), rest[k + 1..]))
  }

  /** A stamped name determines the position and the type it was built from. */
  lemma PolicyNameRoundTrip(index: nat, typeName: string)
    ensures ParsePolicyName(PolicyName(index, typeName)) == Some((index, typeName))
  {
    var digits := NatToString(index);
    var name := PolicyName(index, typeName);
    assert name[..|POLICY_NAME_PREFIX|] == POLICY_NAME_PREFIX;
    var rest := name[|POLICY_NAME_PREFIX|..];
    assert rest == digits + "_" + typeName;
    assert rest[|digits|] == '_';
    assert forall k :: 0 <= k < |digits| ==> rest[k] == digits[k] && rest[k] != '_';
    assert FirstIndexOf(rest, '_') == Some(|digits|);
    assert rest[..|digits|] == digits;
    assert rest[|digits| + 1..] == typeName;
    DigitsValueOfNatToString(index);
  }

  /** Different positions or types never share a stamped name. */
  lemma PolicyNameInjective(i: nat, t: string, j: nat, u: string)
    requires PolicyName(i, t) == PolicyName(j, u)
    ensures i == j && t == u
  {
    PolicyNameRoundTrip(i, t);
    PolicyNameRoundTrip(j, u);
  }

  predicate EndsWith(s: string, suffix: string) {
    |suffix| <= |s| && s[|s| - |suffix|..] == suffix
  }

  /** A stamped name ends with `_` followed by the policy's type name. */
  lemma PolicyNameEndsWithType(index: nat, typeName: string)
    ensures EndsWith(PolicyName(index, typeName), "_" + typeName)
  {
    var name := PolicyName(index, typeName);
    assert name == (POLICY_NAME_PREFIX + NatToString(index)) + ("_" + typeName);
  }
}
