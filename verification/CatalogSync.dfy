/** Registration seen from the callers of the checker. */
module CatalogSync {
  import opened Wrappers
  import opened GoTime
  import opened Config
  import opened Policy
  import opened Decisions
  import opened CasbinChecker
  import opened Catalog
  import opened CatalogRuns

  /** A registration that only adds and skips opens and closes nothing: whoever syncs after it
      gives every caller, at every time, the answer a sync before it would have given. Only
      when an operator binds a role does a new catalog entry take effect. */
  lemma AddOnlyRunDecidesAlike(cat: Catalog, before: Store, fates: nat -> CallFate, owner: string,
                               a: seq<RemotePermission>, b: seq<RemotePermission>, modelFilter: string,
                               cfg: Config, km: KeyMatch, cache: Cache, syncedAt: Time,
                               p: Principal, resource: string, action: string, now: Time)
    requires ValidStore(before)
    requires var run := Register(cat, before, false, fates);
             && run.error == None && run.result.updated == 0
             && Enumerates(before, owner, a) && Enumerates(run.perms, owner, b)
    ensures var ra, rb := Rules(a, modelFilter), Rules(b, modelFilter);
            Allowed(cfg, km, Replaced(cache, ra, syncedAt, |ra|), p, resource, action, now)
            <==> Allowed(cfg, km, Replaced(cache, rb, syncedAt, |rb|), p, resource, action, now)
  {
    var ra, rb := Rules(a, modelFilter), Rules(b, modelFilter);
    AddOnlyRunKeepsRules(cat, before, fates, owner, a, b, modelFilter);
    forall r ensures r in ra <==> r in rb {
      assert r in multiset(ra) <==> r in multiset(rb);
    }
    SameRulesDecideAlike(cfg, km, cache, ra, rb, syncedAt, p, resource, action, now);
  }
}
