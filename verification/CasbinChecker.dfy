/** The checker and the syncer as objects (internal/platform/authz/casbin_checker.go and
    syncer.go). Each operation runs under the checker's lock and is one atomic step. */
module CasbinChecker {
  import opened Wrappers
  import opened GoTime
  import opened Config
  import opened Policy
  import opened Decisions
  import opened Snapshot

  /** The cache a new process starts with, given the files it finds. */
  function Boot(files: Files, cfg: Config, codec: Codec, readFails: bool, failAt: nat): Result<Cache, AuthzError> {
    match Loaded(files, cfg.snapshotPath, codec, readFails)
    case Err(e) => Err(e)
    case Ok(None) => Ok(COLD)
    case Ok(Some(s)) =>
      if failAt < |s.policies| then Err(AddPolicyFailed)
      else Ok(Replaced(COLD, s.policies, s.syncedAt, failAt))
  }

  /** What ReplacePolicies leaves on disk: nothing is saved when AddPolicy failed. */
  function FilesAfterReplace(files: Files, cfg: Config, codec: Codec, s: Snapshot, failAt: nat, fate: SaveFate): Files {
    if failAt < |s.policies| then files
    else FilesAfterSave(files, cfg.snapshotPath, codec.marshal(s), fate)
  }

  function ReplaceOutcome(cfg: Config, codec: Codec, s: Snapshot, failAt: nat, fate: SaveFate): Result<(), AuthzError> {
    if failAt < |s.policies| then Err(AddPolicyFailed)
    else SaveOutcome(cfg.snapshotPath, codec.marshal(s), fate)
  }

  class Checker {
    const cfg: Config
    const keyMatch: KeyMatch
    const codec: Codec
    const disk: Disk
    var rules: seq<Rule>
    var hasPolicies: bool
    var lastSuccess: Time

    function State(): Cache
      reads this
    {
      Cache(rules, hasPolicies, lastSuccess)
    }

    constructor Empty(cfg: Config, keyMatch: KeyMatch, codec: Codec, disk: Disk)
      ensures this.cfg == cfg && this.keyMatch == keyMatch && this.codec == codec && this.disk == disk
      ensures State() == COLD
    {
      this.cfg, this.keyMatch, this.codec, this.disk := cfg, keyMatch, codec, disk;
      rules, hasPolicies, lastSuccess := [], false, 0;
    }

    /** NewCheckerWithMetrics: an empty enforcer, then the snapshot if there is one. */
    static method New(config: Config, keyMatch: KeyMatch, codec: Codec, disk: Disk, readFails: bool, failAt: nat)
      returns (r: Result<Checker, AuthzError>)
      ensures Boot(disk.files, WithDefaults(config), codec, readFails, failAt).Err? ==>
              r == Err(Boot(disk.files, WithDefaults(config), codec, readFails, failAt).error)
      ensures Boot(disk.files, WithDefaults(config), codec, readFails, failAt).Ok? ==>
              && r.Ok? && fresh(r.value)
              && r.value.State() == Boot(disk.files, WithDefaults(config), codec, readFails, failAt).value
              && r.value.cfg == WithDefaults(config) && r.value.disk == disk
              && r.value.keyMatch == keyMatch && r.value.codec == codec
    {
      var c := new Checker.Empty(WithDefaults(config), keyMatch, codec, disk);
      var snap := disk.LoadSnapshot(c.cfg.snapshotPath, codec, readFails);
      if snap.Err? {
        return Err(snap.error);
      }
      if snap.value.Some? {
        var ok := c.ReplacePoliciesLocked(snap.value.value.policies, snap.value.value.syncedAt, failAt);
        if !ok {
          return Err(AddPolicyFailed);
        }
      }
      r := Ok(c);
    }

    /** Clears the enforcer and adds the rules one by one; the two other fields are set
        only once every rule is in. */
    method ReplacePoliciesLocked(policies: seq<Rule>, syncedAt: Time, failAt: nat) returns (ok: bool)
      modifies this
      ensures State() == Replaced(old(State()), policies, syncedAt, failAt)
      ensures ok <==> |policies| <= failAt
    {
      rules := [];
      assert policies[..0] == [];
      for i := 0 to |policies|
        invariant i <= failAt
        invariant rules == AddAll([], policies[..i])
        invariant hasPolicies == old(hasPolicies) && lastSuccess == old(lastSuccess)
      {
        if i == failAt {
          return false;
        }
        assert policies[..i + 1] == policies[..i] + [policies[i]];
        AddAllStep([], policies[..i], policies[i]);
        if policies[i] !in rules {
          rules := rules + [policies[i]];
        }
      }
      assert policies[..|policies|] == policies;
      hasPolicies := |policies| > 0;
      lastSuccess := syncedAt;
      ok := true;
    }

    /** ReplacePolicies: swap in memory first, then persist. A failed save is reported
        although the new rules are already in force. */
    method ReplacePolicies(policies: seq<Rule>, syncedAt: Time, failAt: nat, fate: SaveFate)
        returns (r: Result<(), AuthzError>)
      modifies this, disk
      ensures State() == Replaced(old(State()), policies, syncedAt, failAt)
      ensures disk.files == FilesAfterReplace(old(disk.files), cfg, codec, Snapshot(syncedAt, policies), failAt, fate)
      ensures r == ReplaceOutcome(cfg, codec, Snapshot(syncedAt, policies), failAt, fate)
    {
      var ok := ReplacePoliciesLocked(policies, syncedAt, failAt);
      if !ok {
        return Err(AddPolicyFailed);
      }
      r := Ok(());
      if cfg.snapshotPath != "" {
        r := disk.SaveSnapshot(cfg.snapshotPath, Snapshot(syncedAt, policies), codec, fate);
      }
    }

    /** enforceLocked: the first role that is enforced settles it. */
    method EnforceLocked(p: Principal, resource: string, action: string) returns (ok: bool)
      ensures ok == Enforced(keyMatch, rules, p, resource, action)
    {
      if resource == "" || action == "" {
        return false;
      }
      for i := 0 to |p.roles|
        invariant forall role | role in p.roles[..i] :: !Enforce(keyMatch, rules, role, resource, action)
      {
        if Enforce(keyMatch, rules, p.roles[i], resource, action) {
          return true;
        }
        assert p.roles[..i + 1] == p.roles[..i] + [p.roles[i]];
      }
      assert p.roles[..|p.roles|] == p.roles;
      ok := false;
    }

    /** Allow: one answer per tier, and whether it was given in a degraded tier. */
    method Allow(p: Principal, resource: string, action: string, now: Time) returns (d: Decision)
      ensures d.allowed == Allowed(cfg, keyMatch, State(), p, resource, action, now)
      ensures d.degraded <==> TierAt(cfg, lastSuccess, now) != TierHealthy
    {
      var tier := TierAt(cfg, lastSuccess, now);
      var ok := false;
      match tier {
        case TierHealthy =>
          ok := EnforceLocked(p, resource, action);
        case TierStale =>
          if !(cfg.denyWritesWhenStale && action != "read") {
            ok := EnforceLocked(p, resource, action);
          }
        case TierInvalid =>
          if !hasPolicies {
            ok := cfg.safetyNetRole in p.roles;
          } else if action == "read" && cfg.allowReadWhenInvalid {
            ok := EnforceLocked(p, resource, action);
          }
      }
      d := Decision(ok, tier != TierHealthy);
    }
  }

  class Syncer {
    const cfg: Config
    const checker: Checker

    constructor (config: Config, checker: Checker)
      ensures cfg == WithDefaults(config) && this.checker == checker
    {
      cfg := WithDefaults(config);
      this.checker := checker;
    }

    /** SyncOnce: fetch, expand, replace. fetched is what the remote source answers. */
    method SyncOnce(fetched: Result<seq<RemotePermission>, ()>, now: Time, failAt: nat, fate: SaveFate)
      returns (r: Result<(), AuthzError>)
      modifies checker, checker.disk
      ensures fetched.Err? ==>
              r == Err(FetchFailed) && checker.State() == old(checker.State())
                  && checker.disk.files == old(checker.disk.files)
      ensures fetched.Ok? ==>
              var s := Snapshot(now, Rules(fetched.value, cfg.modelFilter));
              && checker.State() == Replaced(old(checker.State()), s.policies, now, failAt)
              && checker.disk.files == FilesAfterReplace(old(checker.disk.files), checker.cfg, checker.codec, s, failAt,
                                                         fate)
              && r == ReplaceOutcome(checker.cfg, checker.codec, s, failAt, fate)
    {
      if fetched.Err? {
        return Err(FetchFailed);
      }
      var rules := PoliciesFromPermissions(fetched.value, cfg.modelFilter);
      r := checker.ReplacePolicies(rules, now, failAt, fate);
    }
  }

  // ----- what a sync means for requests -----

  /** Some remote permission answers the request for one of the caller's roles: read off
      the remote records, without rules. */
  ghost predicate RemotelyGranted(km: KeyMatch, perms: seq<RemotePermission>, modelFilter: string, p: Principal,
                                  resource: string, action: string) {
    && resource != "" && action != ""
    && exists perm, role, obj | perm in perms && role in p.roles ::
      && Counts(perm, modelFilter) && BindsRole(perm, role)
      && Lists(perm.resources, obj) && km(resource, obj) && Lists(perm.actions, action)
  }

  lemma EnforcedExactly(km: KeyMatch, perms: seq<RemotePermission>, modelFilter: string, p: Principal, resource: string,
                        action: string)
    ensures Granted(km, AddAll([], Rules(perms, modelFilter)), p, resource, action) <==>
            RemotelyGranted(km, perms, modelFilter, p, resource, action)
  {
    var rules := Rules(perms, modelFilter);
    if Granted(km, AddAll([], rules), p, resource, action) {
      var role, r :|
        role in p.roles && r in AddAll([], rules) && r.sub == role && km(resource, r.obj) && r.act == action;
      AddAllAdds([], rules, r);
      RulesExact(perms, modelFilter, r);
    }
    if RemotelyGranted(km, perms, modelFilter, p, resource, action) {
      var perm, role, obj :| perm in perms && role in p.roles
        && Counts(perm, modelFilter) && BindsRole(perm, role)
        && Lists(perm.resources, obj) && km(resource, obj) && Lists(perm.actions, action);
      var r := Rule(role, obj, action);
      assert Grants(perm, modelFilter, r);
      RulesExact(perms, modelFilter, r);
      AddAllAdds([], rules, r);
    }
  }

  /** Some remote permission grants some role something. */
  ghost predicate GrantsAnything(perms: seq<RemotePermission>, modelFilter: string) {
    exists perm, r :: perm in perms && Grants(perm, modelFilter, r)
  }

  lemma RulesEmptyExactly(perms: seq<RemotePermission>, modelFilter: string)
    ensures Rules(perms, modelFilter) == [] <==> !GrantsAnything(perms, modelFilter)
  {
    var rules := Rules(perms, modelFilter);
    if rules != [] {
      RulesExact(perms, modelFilter, rules[0]);
    }
    if GrantsAnything(perms, modelFilter) {
      var perm, r :| perm in perms && Grants(perm, modelFilter, r);
      RulesExact(perms, modelFilter, r);
    }
  }

  /** After a successful sync every request is answered, at every later age of the cache, from
      what the remote permissions grant; what was cached before does not matter. */
  lemma SyncRefinesRemote(cfg: Config, km: KeyMatch, before: Cache, perms: seq<RemotePermission>, modelFilter: string,
                          syncedAt: Time, failAt: nat, p: Principal, resource: string, action: string, now: Time)
    requires WellFormed(cfg) && |Rules(perms, modelFilter)| <= failAt
    ensures var cache := Replaced(before, Rules(perms, modelFilter), syncedAt, failAt);
            AnswerIs(Allowed(cfg, km, cache, p, resource, action, now),
                     RemotelyGranted(km, perms, modelFilter, p, resource, action),
                     cfg, syncedAt, !GrantsAnything(perms, modelFilter), p, action, now)
  {
    DecidesExactly(cfg, km, Replaced(before, Rules(perms, modelFilter), syncedAt, failAt), p, resource, action, now);
    EnforcedExactly(km, perms, modelFilter, p, resource, action);
    RulesEmptyExactly(perms, modelFilter);
  }

  lemma {:induction false} SameRulesEnforceAlike(km: KeyMatch, a: seq<Rule>, b: seq<Rule>, p: Principal,
                                                 resource: string, action: string)
    requires forall r :: r in a <==> r in b
    requires Enforced(km, AddAll([], a), p, resource, action)
    ensures Enforced(km, AddAll([], b), p, resource, action)
  {
    var role :| role in p.roles && Enforce(km, AddAll([], a), role, resource, action);
    var r :| r in AddAll([], a) && Matches(km, r, role, resource, action);
    AddAllAdds([], a, r);
    AddAllAdds([], b, r);
    assert Enforce(km, AddAll([], b), role, resource, action);
  }

  /** Only the set of rules counts: not their order, not their number, not what was cached
      before. */
  lemma SameRulesDecideAlike(cfg: Config, km: KeyMatch, before: Cache, a: seq<Rule>, b: seq<Rule>,
                             syncedAt: Time, p: Principal, resource: string, action: string, now: Time)
    requires forall r :: r in a <==> r in b
    ensures Allowed(cfg, km, Replaced(before, a, syncedAt, |a|), p, resource, action, now)
        <==> Allowed(cfg, km, Replaced(before, b, syncedAt, |b|), p, resource, action, now)
  {
    assert a == [] <==> b == [] by {
      if a != [] { assert a[0] in b; }
      if b != [] { assert b[0] in a; }
    }
    if Enforced(km, AddAll([], a), p, resource, action) {
      SameRulesEnforceAlike(km, a, b, p, resource, action);
    }
    if Enforced(km, AddAll([], b), p, resource, action) {
      SameRulesEnforceAlike(km, b, a, p, resource, action);
    }
  }

  /** Neither duplicates nor the order of the fetched permissions changes any answer, in any tier. */
  lemma SyncIgnoresOrder(cfg: Config, km: KeyMatch, before: Cache, a: seq<RemotePermission>, b: seq<RemotePermission>,
                         modelFilter: string, syncedAt: Time, p: Principal, resource: string, action: string, now: Time)
    requires forall perm :: perm in a <==> perm in b
    ensures Allowed(cfg, km, Replaced(before, Rules(a, modelFilter), syncedAt, |Rules(a, modelFilter)|), p, resource,
                    action, now)
        <==> Allowed(cfg, km, Replaced(before, Rules(b, modelFilter), syncedAt, |Rules(b, modelFilter)|), p, resource,
                     action, now)
  {
    var ra, rb := Rules(a, modelFilter), Rules(b, modelFilter);
    forall r ensures r in ra <==> r in rb {
      RulesExact(a, modelFilter, r);
      RulesExact(b, modelFilter, r);
    }
    SameRulesDecideAlike(cfg, km, before, ra, rb, syncedAt, p, resource, action, now);
  }

  /** A replacement succeeds exactly when every rule is added and the save, if there is to be one,
      is reported done; the disk is touched only once every rule is in. */
  lemma ReplaceReports(cfg: Config, codec: Codec, files: Files, s: Snapshot, failAt: nat, fate: SaveFate)
    ensures ReplaceOutcome(cfg, codec, s, failAt, fate).Ok? <==>
            |s.policies| <= failAt && (cfg.snapshotPath == "" || (codec.marshal(s).Some? && fate == Completes(false)))
    ensures failAt < |s.policies| ==>
            ReplaceOutcome(cfg, codec, s, failAt, fate) == Err(AddPolicyFailed)
            && FilesAfterReplace(files, cfg, codec, s, failAt, fate) == files
  {
    SaveReports(cfg.snapshotPath, codec.marshal(s), fate);
  }
}
