/** The local permission checker: the rule cache, its age, and what each request is
    answered (internal/platform/authz/casbin_checker.go). */
module Decisions {
  import opened GoTime
  import opened Config
  import opened Policy

  datatype Tier = TierInvalid | TierStale | TierHealthy

  datatype Decision = Decision(allowed: bool, degraded: bool)

  /** The roles of the caller; the other principal fields play no part here. */
  datatype Principal = Principal(roles: seq<string>)

  /** Casbin's keyMatch2 on objects: the request's object against the rule's pattern. */
  type KeyMatch = (string, string) -> bool

  /** The fields of Checker that change. */
  datatype Cache = Cache(rules: seq<Rule>, hasPolicies: bool, lastSuccess: Time)

  const COLD := Cache([], false, 0)

  // ----- matching -----

  /** The matcher of model.conf. No grouping policy is ever added, so g is equality. */
  predicate Matches(km: KeyMatch, r: Rule, role: string, resource: string, action: string) {
    role == r.sub && km(resource, r.obj) && action == r.act
  }

  /** Effect some(where (p.eft == allow)): one matching rule is enough. */
  predicate Enforce(km: KeyMatch, rules: seq<Rule>, role: string, resource: string, action: string) {
    exists r | r in rules :: Matches(km, r, role, resource, action)
  }

  /** enforceLocked: some role of the principal is enforced, and the request is not blank. */
  predicate Enforced(km: KeyMatch, rules: seq<Rule>, p: Principal, resource: string, action: string) {
    resource != "" && action != "" && exists role | role in p.roles :: Enforce(km, rules, role, resource, action)
  }

  // ----- age -----

  function TierAt(cfg: Config, lastSuccess: Time, now: Time): Tier {
    if lastSuccess == 0 then TierInvalid
    else if Sub(now, lastSuccess) < cfg.healthyAfter then TierHealthy
    else if Sub(now, lastSuccess) < cfg.staleAfter then TierStale
    else TierInvalid
  }

  /** Whether a request is allowed, by tier. */
  predicate Allowed(cfg: Config, km: KeyMatch, c: Cache, p: Principal, resource: string, action: string, now: Time) {
    match TierAt(cfg, c.lastSuccess, now)
    case TierHealthy => Enforced(km, c.rules, p, resource, action)
    case TierStale =>
      !(cfg.denyWritesWhenStale && action != "read") && Enforced(km, c.rules, p, resource, action)
    case TierInvalid =>
      if !c.hasPolicies then cfg.safetyNetRole in p.roles
      else action == "read" && cfg.allowReadWhenInvalid && Enforced(km, c.rules, p, resource, action)
  }

  // ----- replacement -----

  /** The enforcer after the rules were added one by one: AddPolicy drops a rule it has. */
  function AddAll(have: seq<Rule>, rules: seq<Rule>): seq<Rule>
    decreases |rules|
  {
    if rules == [] then have
    else AddAll(if rules[0] in have then have else have + [rules[0]], rules[1..])
  }

  lemma {:induction false} AddAllAdds(have: seq<Rule>, rules: seq<Rule>, r: Rule)
    ensures r in AddAll(have, rules) <==> r in have || r in rules
    decreases |rules|
  {
    if rules != [] {
      AddAllAdds(if rules[0] in have then have else have + [rules[0]], rules[1..], r);
      assert rules == [rules[0]] + rules[1..];
    }
  }

  lemma {:induction false} AddAllStep(have: seq<Rule>, rules: seq<Rule>, r: Rule)
    ensures AddAll(have, rules + [r]) ==
            if r in AddAll(have, rules) then AddAll(have, rules) else AddAll(have, rules) + [r]
    decreases |rules|
  {
    if rules == [] {
      assert (rules + [r])[1..] == [];
    } else {
      assert (rules + [r])[1..] == rules[1..] + [r];
      AddAllStep(if rules[0] in have then have else have + [rules[0]], rules[1..], r);
    }
  }

  /** The cache after a replacement in which AddPolicy fails on rule failAt, if there is
      one: the rules before it are in, and the two bookkeeping fields are untouched. */
  function Replaced(c: Cache, rules: seq<Rule>, syncedAt: Time, failAt: nat): Cache {
    if failAt < |rules| then c.(rules := AddAll([], rules[..failAt]))
    else Cache(AddAll([], rules), |rules| > 0, syncedAt)
  }

  // ----- every answer -----

  /** A rule grants the request to one of the caller's roles, and the request is not blank. */
  ghost predicate Granted(km: KeyMatch, rules: seq<Rule>, p: Principal, resource: string, action: string) {
    && resource != "" && action != ""
    && exists role, r :: role in p.roles && r in rules && r.sub == role && km(resource, r.obj) && r.act == action
  }

  lemma GrantedExactly(km: KeyMatch, rules: seq<Rule>, p: Principal, resource: string, action: string)
    ensures Enforced(km, rules, p, resource, action) <==> Granted(km, rules, p, resource, action)
  {
    if Enforced(km, rules, p, resource, action) {
      var role :| role in p.roles && Enforce(km, rules, role, resource, action);
      var r :| r in rules && Matches(km, r, role, resource, action);
    }
    if Granted(km, rules, p, resource, action) {
      var role, r :| role in p.roles && r in rules && r.sub == role && km(resource, r.obj) && r.act == action;
      assert Matches(km, r, role, resource, action);
      assert Enforce(km, rules, role, resource, action);
    }
  }

  /** The answer for a caller, given whether a rule grants the request, by the age of the cache:
      young, rules decide; then they decide, but without writes if those are switched off; old
      or never synced, only reads, if switched on, and the safety-net role on an empty cache. */
  ghost predicate AnswerIs(answer: bool, granted: bool, cfg: Config, synced: Time, empty: bool, p: Principal,
                           action: string, now: Time) {
    if synced != 0 && now - synced < cfg.healthyAfter then answer <==> granted
    else if synced != 0 && now - synced < cfg.staleAfter
    then answer <==> granted && (action == "read" || !cfg.denyWritesWhenStale)
    else if empty then answer <==> cfg.safetyNetRole in p.roles
    else answer <==> granted && action == "read" && cfg.allowReadWhenInvalid
  }

  /** Every answer of every cache, at every age. */
  lemma DecidesExactly(cfg: Config, km: KeyMatch, c: Cache, p: Principal, resource: string, action: string, now: Time)
    requires WellFormed(cfg)
    ensures AnswerIs(Allowed(cfg, km, c, p, resource, action, now), Granted(km, c.rules, p, resource, action),
                     cfg, c.lastSuccess, !c.hasPolicies, p, action, now)
  {
    GrantedExactly(km, c.rules, p, resource, action);
    if c.lastSuccess != 0 {
      TierBands(cfg, c.lastSuccess, now);
    }
  }

  // ----- degradation -----

  lemma SubMonotone(t: Time, u: Time, v: Time)
    requires t <= u
    ensures Sub(t, v) <= Sub(u, v)
  {
  }

  /** The two thresholds cut time since a sync into the three tiers, in that order. */
  lemma TierBands(cfg: Config, synced: Time, now: Time)
    requires WellFormed(cfg) && synced != 0
    ensures TierAt(cfg, synced, now) == TierHealthy <==> now - synced < cfg.healthyAfter
    ensures TierAt(cfg, synced, now) == TierStale <==> cfg.healthyAfter <= now - synced < cfg.staleAfter
    ensures TierAt(cfg, synced, now) == TierInvalid <==> cfg.staleAfter <= now - synced
  {
  }

  /** Loaded rules only ever lose force with age. */
  lemma DegradesWithRules(cfg: Config, km: KeyMatch, c: Cache, p: Principal, resource: string, action: string, t: Time,
                          u: Time)
    requires c.hasPolicies && c.lastSuccess != 0 && t <= u
    requires Allowed(cfg, km, c, p, resource, action, u)
    ensures Allowed(cfg, km, c, p, resource, action, t)
  {
    SubMonotone(t, u, c.lastSuccess);
  }

  /** Later permission implies earlier permission, for every caller, request and pair of times. */
  ghost predicate Degrades(cfg: Config, km: KeyMatch, c: Cache) {
    forall p: Principal, resource: string, action: string, t: Time, u: Time
      | t <= u && Allowed(cfg, km, c, p, resource, action, u) ::
      Allowed(cfg, km, c, p, resource, action, t)
  }

  /** With time, permission is only lost, exactly when a non-empty replacement is in force
      or nothing was ever synced. Otherwise the cache has an age but counts as empty, and
      the safety-net role is denied while it is young and admitted once it is old. */
  lemma DegradesExactly(cfg: Config, km: KeyMatch, c: Cache)
    requires WellFormed(cfg)
    ensures Degrades(cfg, km, c) <==> c.hasPolicies || c.lastSuccess == 0
  {
    if c.hasPolicies && c.lastSuccess != 0 {
      forall p: Principal, resource: string, action: string, t: Time, u: Time
        | t <= u && Allowed(cfg, km, c, p, resource, action, u)
        ensures Allowed(cfg, km, c, p, resource, action, t)
      {
        DegradesWithRules(cfg, km, c, p, resource, action, t, u);
      }
    } else if c.lastSuccess != 0 {
      SafetyNetLater(cfg, km, c, "", "read");
    }
  }

  /** The exception, for any request the cached rules do not admit: an empty cache answers
      the safety-net role "no" at the time of the sync and "yes" once it has expired. */
  lemma SafetyNetLater(cfg: Config, km: KeyMatch, c: Cache, resource: string, action: string)
    requires WellFormed(cfg) && c.lastSuccess != 0 && !c.hasPolicies
    requires !Enforced(km, c.rules, Principal([cfg.safetyNetRole]), resource, action)
    ensures !Allowed(cfg, km, c, Principal([cfg.safetyNetRole]), resource, action, c.lastSuccess)
    ensures Allowed(cfg, km, c, Principal([cfg.safetyNetRole]), resource, action, c.lastSuccess + cfg.staleAfter)
  {
    TierBands(cfg, c.lastSuccess, c.lastSuccess);
    TierBands(cfg, c.lastSuccess, c.lastSuccess + cfg.staleAfter);
  }

  /** A replacement that succeeds puts exactly its rules in force, marks the cache empty or not and
      dates it; one that fails leaves the mark and the date and a first part of the rules. */
  lemma ReplacedExactly(c: Cache, rules: seq<Rule>, syncedAt: Time, failAt: nat, r: Rule)
    ensures var after := Replaced(c, rules, syncedAt, failAt);
            if |rules| <= failAt
            then && (r in after.rules <==> r in rules)
                 && (after.hasPolicies <==> rules != []) && after.lastSuccess == syncedAt
            else && (r in after.rules <==> r in rules[..failAt])
                 && after.hasPolicies == c.hasPolicies && after.lastSuccess == c.lastSuccess
  {
    AddAllAdds([], rules, r);
    if failAt < |rules| {
      AddAllAdds([], rules[..failAt], r);
    }
  }
}
