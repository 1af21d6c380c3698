/** Thresholds and switches of the local decision point (internal/platform/authz/config.go). */
module Config {
  import opened GoTime

  datatype Config = Config(
    healthyAfter: Duration,
    staleAfter: Duration,
    allowReadWhenInvalid: bool,
    denyWritesWhenStale: bool,
    safetyNetRole: string,
    snapshotPath: string,
    syncInterval: Duration,
    owner: string,
    modelFilter: string)

  const DEFAULT_CONFIG := Config(
    5 * MINUTE, 30 * MINUTE, false, false, "admin", "", 30 * SECOND, "default", "default/vpp-rbac")

  /** Config.withDefaults */
  function WithDefaults(c: Config): Config {
    var d := DEFAULT_CONFIG;
    var out := c.(
      healthyAfter := if c.healthyAfter <= 0 then d.healthyAfter else c.healthyAfter,
      staleAfter := if c.staleAfter <= 0 then d.staleAfter else c.staleAfter,
      safetyNetRole := if c.safetyNetRole == "" then d.safetyNetRole else c.safetyNetRole,
      syncInterval := if c.syncInterval <= 0 then d.syncInterval else c.syncInterval,
      owner := if c.owner == "" then d.owner else c.owner);
    if out.staleAfter < out.healthyAfter then out.(staleAfter := out.healthyAfter) else out
  }

  /** What the checker and the syncer rely on. */
  ghost predicate WellFormed(c: Config) {
    0 < c.healthyAfter <= c.staleAfter && 0 < c.syncInterval && c.safetyNetRole != "" && c.owner != ""
  }

  /** withDefaults repairs every configuration, keeps every good field of a bad one, leaves a
      good one alone, and so can be applied again (as the syncer does to the checker's configuration). */
  lemma WithDefaultsRepairs(c: Config)
    ensures WellFormed(WithDefaults(c))
    ensures WithDefaults(c) == c <==> WellFormed(c)
    ensures c.healthyAfter > 0 ==> WithDefaults(c).healthyAfter == c.healthyAfter
    ensures c.staleAfter > 0 && c.staleAfter >= WithDefaults(c).healthyAfter ==>
            WithDefaults(c).staleAfter == c.staleAfter
    ensures c.syncInterval > 0 ==> WithDefaults(c).syncInterval == c.syncInterval
    ensures c.safetyNetRole != "" ==> WithDefaults(c).safetyNetRole == c.safetyNetRole
    ensures c.owner != "" ==> WithDefaults(c).owner == c.owner
    ensures WithDefaults(c) == c.(healthyAfter := WithDefaults(c).healthyAfter,
                                  staleAfter := WithDefaults(c).staleAfter,
                                  safetyNetRole := WithDefaults(c).safetyNetRole,
                                  syncInterval := WithDefaults(c).syncInterval, owner := WithDefaults(c).owner)
    ensures WithDefaults(WithDefaults(c)) == WithDefaults(c)
  {
  }

  /** The defaults, in nanoseconds where they are times. */
  lemma DefaultsSpelled()
    ensures DEFAULT_CONFIG == Config(300_000_000_000, 1_800_000_000_000, false, false, "admin", "",
                                     30_000_000_000, "default", "default/vpp-rbac")
  {
  }

  /** What each bad field becomes: five and thirty minutes, thirty seconds, the role admin and the
      owner default; and a stale threshold never comes before the healthy one. */
  lemma BadFieldsBecome(c: Config)
    ensures c.healthyAfter <= 0 ==> WithDefaults(c).healthyAfter == 300_000_000_000
    ensures var healthy := WithDefaults(c).healthyAfter;
            var stale := if c.staleAfter <= 0 then 1_800_000_000_000 else c.staleAfter;
            WithDefaults(c).staleAfter == if stale < healthy then healthy else stale
    ensures c.syncInterval <= 0 ==> WithDefaults(c).syncInterval == 30_000_000_000
    ensures c.safetyNetRole == "" ==> WithDefaults(c).safetyNetRole == "admin"
    ensures c.owner == "" ==> WithDefaults(c).owner == "default"
  {
  }
}
