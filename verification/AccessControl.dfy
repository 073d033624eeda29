/**
 * Role and tier decisions of `src/access_control.rs`: the tier listing agrees
 * with the decision made for each request, and neither shrinks with more roles.
 */
module AccessControl {
  import opened Octets
  import opened Platform
  import Sorting

  datatype Principal = Principal(id: Bytes, tenantId: Bytes, roles: set<Bytes>, scopes: set<Bytes>)

  datatype Action = LoadModel | RunInference | ReadTelemetry | ReadAudit | Prefetch | DecryptTier

  datatype TierPolicy = TierPolicy(
    tier: u16, allowedRoles: set<Bytes>, allowedTenants: set<Bytes>, downgradeTier: Option<u16>)

  datatype AuthorizationDecision = Allow | Downgrade(toTier: u16) | Deny

  datatype Rules = Rules(actionRoles: map<Action, set<Bytes>>, tierPolicies: map<u16, TierPolicy>)

  predicate HasRole(p: Principal, roles: set<Bytes>) {
    exists role :: role in p.roles && role in roles
  }

  /** The role test of an action; an action without an entry is open to all. */
  predicate PassesRoleTest(rules: Rules, p: Principal, action: Action) {
    action in rules.actionRoles ==> HasRole(p, rules.actionRoles[action])
  }

  predicate Identified(blank: Bytes -> bool, p: Principal) {
    !blank(p.id) && !blank(p.tenantId)
  }

  function Authorize(blank: Bytes -> bool, rules: Rules, p: Principal, action: Action, tier: Option<u16>)
    : Result<AuthorizationDecision>
  {
    if !Identified(blank, p) then Err(InvalidInput)
    else if !PassesRoleTest(rules, p, action) then Ok(Deny)
    else if tier.None? then Ok(Allow)
    else if tier.value !in rules.tierPolicies then Err(Unauthorized)
    else
      var policy := rules.tierPolicies[tier.value];
      if p.tenantId in policy.allowedTenants && HasRole(p, policy.allowedRoles) then Ok(Allow)
      else if policy.downgradeTier.Some? then Ok(Downgrade(policy.downgradeTier.value))
      else Ok(Deny)
  }

  /** Every answer, told by its conditions: blank names are invalid input; a role
      test that fails denies, whatever the tier; without a tier the role test
      alone allows; and a tier allows members of its tenants that share a role
      with it, and sends others to its downgrade tier, if it has one. */
  lemma AuthorizeExact(blank: Bytes -> bool, rules: Rules, p: Principal, action: Action, tier: Option<u16>)
    ensures var r := Authorize(blank, rules, p, action, tier);
      var unlocked := action !in rules.actionRoles || p.roles * rules.actionRoles[action] != {};
      && (r == Err(InvalidInput) <==> blank(p.id) || blank(p.tenantId))
      && (!blank(p.id) && !blank(p.tenantId) ==>
           && (!unlocked ==> r == Ok(Deny))
           && (unlocked && tier == None ==> r == Ok(Allow))
           && (unlocked && tier != None && tier.value !in rules.tierPolicies ==> r == Err(Unauthorized))
           && (unlocked && tier != None && tier.value in rules.tierPolicies ==>
                 var policy := rules.tierPolicies[tier.value];
                 if p.tenantId in policy.allowedTenants && p.roles * policy.allowedRoles != {} then r == Ok(Allow)
                 else if policy.downgradeTier == None then r == Ok(Deny)
                 else r == Ok(Downgrade(policy.downgradeTier.value))))
  {
    forall s: set<Bytes> ensures HasRole(p, s) <==> p.roles * s != {} { SharesRole(p, s); }
  }

  lemma SharesRole(p: Principal, roles: set<Bytes>)
    ensures HasRole(p, roles) <==> p.roles * roles != {}
  {
    if HasRole(p, roles) {
      var role :| role in p.roles && role in roles;
      assert role in p.roles * roles;
    }
    if p.roles * roles != {} {
      var role :| role in p.roles * roles;
      assert role in p.roles && role in roles;
    }
  }

  /** The tiers a principal is listed for. */
  function Listed(rules: Rules, p: Principal): set<u16> {
    set t | t in rules.tierPolicies
      && p.tenantId in rules.tierPolicies[t].allowedTenants && HasRole(p, rules.tierPolicies[t].allowedRoles)
  }

  ghost predicate StrictlyAscending(s: seq<u16>) {
    forall i, j :: 0 <= i < j < |s| ==> s[i] < s[j]
  }

  /** A request is allowed exactly when the action's role test passes and the
      tier is listed; so, if any action is open to the principal, a tier is
      listed exactly when it is allowed under every action open to it. */
  lemma AllowIffListed(blank: Bytes -> bool, rules: Rules, p: Principal, tier: u16)
    requires Identified(blank, p)
    ensures forall a :: Authorize(blank, rules, p, a, Some(tier)) == Ok(Allow) <==>
      PassesRoleTest(rules, p, a) && tier in Listed(rules, p)
    ensures (exists a :: PassesRoleTest(rules, p, a)) ==>
      (tier in Listed(rules, p) <==>
       forall a :: PassesRoleTest(rules, p, a) ==> Authorize(blank, rules, p, a, Some(tier)) == Ok(Allow))
  {
    if a :| PassesRoleTest(rules, p, a) {
      assert Authorize(blank, rules, p, a, Some(tier)) == Ok(Allow) <==> tier in Listed(rules, p);
    }
  }

  /** Rules that list one role of one tenant for tier 1 and open no action. */
  function ClosedRules(tenantId: Bytes, role: Bytes): Rules {
    var none: set<Bytes> := {};
    Rules(map[LoadModel := none, RunInference := none, ReadTelemetry := none,
              ReadAudit := none, Prefetch := none, DecryptTier := none],
          map[1 := TierPolicy(1, {role}, {tenantId}, None)])
  }

  /** A listing alone allows nothing: a principal may be listed for a tier and
      be denied it under every action. */
  lemma ListedButDenied(blank: Bytes -> bool, p: Principal, role: Bytes, action: Action)
    requires Identified(blank, p) && role in p.roles
    ensures 1 in Listed(ClosedRules(p.tenantId, role), p)
    ensures Authorize(blank, ClosedRules(p.tenantId, role), p, action, Some(1)) == Ok(Deny)
  {
    match action case LoadModel => case RunInference => case ReadTelemetry =>
    case ReadAudit => case Prefetch => case DecryptTier =>
  }

  /** How favourable an answer is. A missing tier policy is reported only once
      the role test has passed, so it ranks with a denial. */
  function Rank(r: Result<AuthorizationDecision>): nat {
    match r
    case Ok(Allow) => 2
    case Ok(Downgrade(_)) => 1
    case _ => 0
  }

  /** More roles never make an answer less favourable, never change the tier a
      downgrade leads to, and never lose a listed tier. */
  lemma RolesAreMonotone(blank: Bytes -> bool, rules: Rules, p: Principal, roles: set<Bytes>,
                         action: Action, tier: Option<u16>)
    requires p.roles <= roles
    ensures var q := p.(roles := roles);
      var before, after := Authorize(blank, rules, p, action, tier), Authorize(blank, rules, q, action, tier);
      && Listed(rules, p) <= Listed(rules, q)
      && Rank(before) <= Rank(after)
      && (before == Ok(Allow) ==> after == Ok(Allow))
      && (before.Ok? && before.value.Downgrade? ==> after == before || after == Ok(Allow))
  {
    var q := p.(roles := roles);
    forall s | HasRole(p, s) ensures HasRole(q, s) {
      var role :| role in p.roles && role in s;
      assert role in q.roles;
    }
  }

  /** Strictly ascending sequences with the same members are the same. */
  lemma {:induction false} AscendingUnique(a: seq<u16>, b: seq<u16>)
    requires StrictlyAscending(a) && StrictlyAscending(b)
    requires forall t :: t in a <==> t in b
    ensures a == b
  {
    assert b != [] ==> b[|b| - 1] in b;
    if a != [] {
      var m, n := |a| - 1, |b| - 1;
      assert a[m] in b && b[n] in a;
      assert a[m] == b[n];
      Snoc(a);
      Snoc(b);
      forall t ensures t in a[..m] <==> t in b[..n] {
        assert t in a[..m] <==> t in a && t != a[m];
        assert t in b[..n] <==> t in b && t != b[n];
      }
      AscendingUnique(a[..m], b[..n]);
    }
  }

  class AccessController {
    const blank: Bytes -> bool
    var actionRoles: map<Action, set<Bytes>>
    var tierPolicies: map<u16, TierPolicy>

    function View(): Rules
      reads this
    {
      Rules(actionRoles, tierPolicies)
    }

    constructor (blank: Bytes -> bool)
      ensures this.blank == blank && View() == Rules(map[], map[])
    {
      this.blank := blank;
      actionRoles, tierPolicies := map[], map[];
    }

    method SetActionRoles(action: Action, roles: set<Bytes>)
      modifies this
      ensures View() == Rules(old(actionRoles)[action := roles], old(tierPolicies))
    {
      actionRoles := actionRoles[action := roles];
    }

    method SetTierPolicy(policy: TierPolicy)
      modifies this
      ensures View() == Rules(old(actionRoles), old(tierPolicies)[policy.tier := policy])
    {
      tierPolicies := tierPolicies[policy.tier := policy];
    }

    method AuthorizeRequest(p: Principal, action: Action,
        requested: Option<u16>) returns (r: Result<AuthorizationDecision>)
      ensures r == Authorize(blank, View(), p, action, requested)
    {
      if blank(p.id) || blank(p.tenantId) { return Err(InvalidInput); }
      if action in actionRoles && !HasRole(p, actionRoles[action]) { return Ok(Deny); }
      if requested.Some? {
        if requested.value !in tierPolicies { return Err(Unauthorized); }
        var policy := tierPolicies[requested.value];
        if p.tenantId !in policy.allowedTenants {
          if policy.downgradeTier.Some? { return Ok(Downgrade(policy.downgradeTier.value)); }
          return Ok(Deny);
        }
        if !HasRole(p, policy.allowedRoles) {
          if policy.downgradeTier.Some? { return Ok(Downgrade(policy.downgradeTier.value)); }
          return Ok(Deny);
        }
      }
      r := Ok(Allow);
    }

    /** The listed tiers in strictly ascending order; by `AscendingUnique` that
        fixes the result. */
    method AuthorizedTiers(p: Principal) returns (tiers: seq<u16>)
      ensures StrictlyAscending(tiers)
      ensures forall t :: t in tiers <==> t in Listed(View(), p)
      ensures forall t :: t in tiers <==>
        && t in tierPolicies && p.tenantId in tierPolicies[t].allowedTenants
        && p.roles * tierPolicies[t].allowedRoles != {}
    {
      tiers := [];
      var remaining := tierPolicies.Keys;
      while remaining != {}
        invariant remaining <= tierPolicies.Keys
        invariant forall t :: t in tiers <==> t in Listed(View(), p) && t !in remaining
        invariant forall i, j :: 0 <= i < j < |tiers| ==> tiers[i] != tiers[j]
        decreases remaining
      {
        var t :| t in remaining;
        var policy := tierPolicies[t];
        if p.tenantId in policy.allowedTenants && HasRole(p, policy.allowedRoles) {
          tiers := tiers + [t];
        }
        remaining := remaining - {t};
      }
      SortDistinct(tiers);
      forall roles ensures HasRole(p, roles) <==> p.roles * roles != {} { SharesRole(p, roles); }
      tiers := Sorting.Sort(tiers, TierOrder);
    }
  }

  lemma SortDistinct(s: seq<u16>)
    requires forall i, j :: 0 <= i < j < |s| ==> s[i] != s[j]
    ensures StrictlyAscending(Sorting.Sort(s, TierOrder))
    ensures forall t :: t in Sorting.Sort(s, TierOrder) <==> t in s
  {
    var sorted := Sorting.Sort(s, TierOrder);
    assert Sorting.TotalPreorder(TierOrder);
    Sorting.SortIsSorted(s, TierOrder);
    Sorting.SortElements(s, TierOrder);
    forall i, j | 0 <= i < j < |sorted| ensures sorted[i] < sorted[j] {
      assert TierOrder(sorted[i], sorted[j]);
      SortedApart(s, sorted, i, j);
    }
  }

  /** A permutation of distinct elements holds distinct elements. */
  lemma SortedApart(s: seq<u16>, sorted: seq<u16>, i: nat, j: nat)
    requires forall i, j :: 0 <= i < j < |s| ==> s[i] != s[j]
    requires sorted == Sorting.Sort(s, TierOrder) && i < j < |sorted|
    ensures sorted[i] != sorted[j]
  {
    if sorted[i] == sorted[j] {
      Sorting.SortMultiset(s, TierOrder);
      CountTwo(sorted, i, j);
      CountOne(s, sorted[i]);
    }
  }

  lemma CountTwo(s: seq<u16>, i: nat, j: nat)
    requires i < j < |s| && s[i] == s[j]
    ensures multiset(s)[s[i]] >= 2
  {
    assert s == s[..j] + [s[j]] + s[j + 1..];
    assert s[i] in s[..j];
  }

  lemma {:induction false} CountOne(s: seq<u16>, x: u16)
    requires forall i, j :: 0 <= i < j < |s| ==> s[i] != s[j]
    ensures multiset(s)[x] <= 1
  {
    if s != [] {
      Snoc(s);
      CountOne(s[..|s| - 1], x);
      assert s[|s| - 1] !in s[..|s| - 1];
    }
  }
}
