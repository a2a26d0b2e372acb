/**
 * The reservation API's access check: a bearer token grants the agent scope
 * when it mentions "agent", and the scopes decide which reservation policy
 * applies. Requests without a token are treated as passengers.
 */
module Security {
  import opened Wrappers
  import opened ReservationPolicies

  datatype Scope = AgentScope

  datatype Claims = Claims(scopes: seq<Scope>)

  /** pat occurs in s starting at position i. */
  predicate OccursAt(s: string, pat: string, i: nat) {
    i + |pat| <= |s| && s[i..i + |pat|] == pat
  }

  /** `str::contains`: pat occurs somewhere in s. */
  function Contains(s: string, pat: string): (b: bool)
    ensures b <==> exists i: nat :: OccursAt(s, pat, i)
    decreases |s|
  {
    if |pat| > |s| then false
    else if s[..|pat|] == pat then (assert OccursAt(s, pat, 0); true)
    else
      var rest := Contains(s[1..], pat);
      ShiftOccurrence(s, pat);
      rest
  }

  /** Once pat does not start s, its occurrences in s are those in s[1..], shifted by one. */
  lemma ShiftOccurrence(s: string, pat: string)
    requires |pat| <= |s| && s[..|pat|] != pat
    ensures (exists i: nat :: OccursAt(s, pat, i)) <==> (exists i: nat :: OccursAt(s[1..], pat, i))
  {
    if exists i: nat :: OccursAt(s, pat, i) {
      var i: nat :| OccursAt(s, pat, i);
      assert i > 0;
      assert s[1..][i - 1..i - 1 + |pat|] == s[i..i + |pat|];
      assert OccursAt(s[1..], pat, i - 1);
    }
    if exists i: nat :: OccursAt(s[1..], pat, i) {
      var i: nat :| OccursAt(s[1..], pat, i);
      assert s[i + 1..i + 1 + |pat|] == s[1..][i..i + |pat|];
      assert OccursAt(s, pat, i + 1);
    }
  }

  /** The claims a token carries: the agent scope exactly when it contains "agent". */
  function BearerClaims(value: string): (c: Claims)
    ensures AgentScope in c.scopes <==> Contains(value, "agent")
    ensures |c.scopes| <= 1
  {
    Claims(if Contains(value, "agent") then [AgentScope] else [])
  }

  /** `parse_bearer_token`: collects the token's scopes into a fresh list. */
  method ParseBearerToken(value: string) returns (claims: Claims)
    ensures claims == BearerClaims(value)
    ensures AgentScope in claims.scopes <==> Contains(value, "agent")
  {
    var scopes: seq<Scope> := [];
    if Contains(value, "agent") {
      scopes := scopes + [AgentScope];
    }
    claims := Claims(scopes);
  }

  /** `reservation_policy_from_claims`: the agent policy for agent claims, the passenger policy otherwise, also without claims. */
  function ReservationPolicyFromClaims(claims: Option<Claims>): (p: ReservationPolicy)
    ensures p == AgentPolicy() || p == PassengerPolicy()
    ensures p == AgentPolicy() <==> claims.Some? && AgentScope in claims.value.scopes
    ensures claims.None? ==> p == PassengerPolicy()
  {
    match claims
    case Some(c) => if AgentScope in c.scopes then AgentPolicy() else PassengerPolicy()
    case None => PassengerPolicy()
  }

  /**
   * A token gets the agent policy exactly when it mentions "agent": an agent's
   * token does, and a token without it gets the passenger policy.
   */
  lemma TokenPolicy(value: string)
    ensures ReservationPolicyFromClaims(Some(BearerClaims(value))) == AgentPolicy() <==> Contains(value, "agent")
    ensures ReservationPolicyFromClaims(Some(BearerClaims("Bearer agent-42"))) == AgentPolicy()
    ensures ReservationPolicyFromClaims(Some(BearerClaims("user-17"))) == PassengerPolicy()
  {
    assert OccursAt("Bearer agent-42", "agent", 7);
    var passenger := "user-17";
    assert forall k :: 0 <= k < |passenger| ==> passenger[k] != 'a';
    forall i: nat ensures !OccursAt(passenger, "agent", i) {
      if i + 5 <= |passenger| {
        assert passenger[i..i + 5][0] == passenger[i] != 'a';
      }
    }
  }
}
