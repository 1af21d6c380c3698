/** Whole lives of a service that caches policies: replacements, saves that stop anywhere,
    crashes and restarts, in any order. */
module CheckerRuns {
  import opened Wrappers
  import opened GoTime
  import opened Config
  import opened Policy
  import opened Decisions
  import opened Snapshot
  import opened CasbinChecker

  datatype Process = Down | Up(cache: Cache)

  /** The process, the disk, and two records of the past: source is the replacement the
      process last began or booted from; saved is the last one whose save completed, with
      the cache in force at that moment. */
  datatype World = World(process: Process, files: Files, source: Snapshot, saved: Option<Saved>)

  datatype Saved = Saved(snapshot: Snapshot, cache: Cache)

  datatype Event =
    | Replace(policies: seq<Rule>, syncedAt: Time, failAt: nat, fate: SaveFate)
    | Crash
    | Restart(readFails: bool, addFailsAt: nat)

  const NOTHING := Snapshot(0, [])

  function Step(cfg: Config, codec: Codec, w: World, e: Event): World {
    match e
    case Crash => w.(process := Down)
    case Restart(readFails, failAt) =>
      var boot := Boot(w.files, cfg, codec, readFails, failAt);
      var booted := Loaded(w.files, cfg.snapshotPath, codec, readFails);
      if boot.Err? then w.(process := Down)
      else w.(process := Up(boot.value), source := if booted.value.Some? then booted.value.value else NOTHING)
    case Replace(policies, syncedAt, failAt, fate) =>
      if w.process.Down? then w
      else
        var s := Snapshot(syncedAt, policies);
        var cache := Replaced(w.process.cache, policies, syncedAt, failAt);
        var done := |policies| <= failAt && SaveCompletes(cfg.snapshotPath, codec.marshal(s), fate);
        World(if ReplaceOutcome(cfg, codec, s, failAt, fate) == Err(ProcessCrashed) then Down else Up(cache),
              FilesAfterReplace(w.files, cfg, codec, s, failAt, fate),
              s,
              if done then Some(Saved(s, cache)) else w.saved)
  }

  function Run(cfg: Config, codec: Codec, w: World, events: seq<Event>): World
    decreases |events|
  {
    if events == [] then w else Run(cfg, codec, Step(cfg, codec, w, events[0]), events[1..])
  }

  /** A first start: no process yet, and no file where the snapshot goes. */
  ghost predicate Initial(cfg: Config, w: World) {
    w.process == Down && w.saved == None && cfg.snapshotPath !in w.files
  }

  /** Sync times come from a clock; none is Go's zero time. */
  ghost predicate Clocked(events: seq<Event>) {
    forall e | e in events :: e.Replace? ==> e.syncedAt != 0
  }

  ghost predicate NoAddFailure(events: seq<Event>) {
    forall e | e in events :: e.Replace? ==> |e.policies| <= e.failAt
  }

  // ----- crash and restart -----

  /** The snapshot file is the last completed save, whole, or is not there. */
  ghost predicate DiskHolds(cfg: Config, codec: Codec, w: World) {
    match w.saved
    case None => cfg.snapshotPath !in w.files
    case Some(Saved(s, cache)) =>
      && cfg.snapshotPath in w.files && codec.marshal(s) == Some(w.files[cfg.snapshotPath])
      && s.syncedAt != 0 && cache == Replaced(COLD, s.policies, s.syncedAt, |s.policies|)
  }

  lemma StepKeepsDisk(cfg: Config, codec: Codec, w: World, e: Event)
    requires cfg.snapshotPath != "" && DiskHolds(cfg, codec, w)
    requires e.Replace? ==> e.syncedAt != 0
    ensures DiskHolds(cfg, codec, Step(cfg, codec, w, e))
  {
    if e.Replace? && w.process.Up? && |e.policies| <= e.failAt {
      SaveIsAllOrNothing(w.files, cfg.snapshotPath, codec.marshal(Snapshot(e.syncedAt, e.policies)), e.fate);
    }
  }

  lemma {:induction false} RunKeepsDisk(cfg: Config, codec: Codec, w: World, events: seq<Event>)
    requires cfg.snapshotPath != "" && DiskHolds(cfg, codec, w) && Clocked(events)
    ensures DiskHolds(cfg, codec, Run(cfg, codec, w, events))
    decreases |events|
  {
    if events != [] {
      StepKeepsDisk(cfg, codec, w, events[0]);
      RunKeepsDisk(cfg, codec, Step(cfg, codec, w, events[0]), events[1..]);
    }
  }

  /** After any life, a new process that can read its disk has exactly the cache that was in
      force when the last save completed, or a cold one if none did. */
  lemma {:induction false} RestartRestores(cfg: Config, codec: Codec, w: World, events: seq<Event>, readFails: bool,
                                           failAt: nat)
    requires Faithful(codec) && cfg.snapshotPath != "" && Initial(cfg, w) && Clocked(events)
    ensures var after := Run(cfg, codec, w, events);
            var boot := Boot(after.files, cfg, codec, readFails, failAt);
            if readFails then boot == Err(SnapshotUnreadable)
            else match after.saved
                 case None => boot == Ok(COLD)
                 case Some(Saved(s, cache)) =>
                   if |s.policies| <= failAt then boot == Ok(cache) else boot == Err(AddPolicyFailed)
  {
    RunKeepsDisk(cfg, codec, w, events);
  }

  /** So it answers every request, at every time, as the checker did at that moment. */
  lemma {:induction false} RestartDecidesAlike(cfg: Config, km: KeyMatch, codec: Codec, w: World, events: seq<Event>,
                            p: Principal, resource: string, action: string, now: Time)
    requires Faithful(codec) && cfg.snapshotPath != "" && Initial(cfg, w) && Clocked(events)
    requires Run(cfg, codec, w, events).saved.Some?
    ensures var after := Run(cfg, codec, w, events);
            var saved := after.saved.value;
            var boot := Boot(after.files, cfg, codec, false, |saved.snapshot.policies|);
            && boot.Ok?
            && (Allowed(cfg, km, boot.value, p, resource, action, now) <==>
                Allowed(cfg, km, saved.cache, p, resource, action, now))
  {
    RestartRestores(cfg, codec, w, events, false, |Run(cfg, codec, w, events).saved.value.snapshot.policies|);
  }

  /** The clock assumption is needed: a snapshot saved with the zero time stops the next start. */
  lemma RestartNeedsSyncTime(cfg: Config, codec: Codec, files: Files, s: Snapshot, fate: SaveFate, failAt: nat)
    requires Faithful(codec) && SaveCompletes(cfg.snapshotPath, codec.marshal(s), fate)
    requires |s.policies| <= failAt
    ensures Boot(FilesAfterSave(files, cfg.snapshotPath, codec.marshal(s), fate), cfg, codec, false, failAt).Ok? <==>
            s.syncedAt != 0
  {
    SaveIsAllOrNothing(files, cfg.snapshotPath, codec.marshal(s), fate);
  }

  // ----- every decision has a reason -----

  /** The rules in force come from the replacement last begun or booted from. */
  ghost predicate Sourced(w: World) {
    w.process.Up? ==> forall r | r in w.process.cache.rules :: r in w.source.policies
  }

  /** Without AddPolicy failures, the cache is that replacement, all of it. */
  ghost predicate Exact(w: World) {
    w.process.Up? ==> w.process.cache == Replaced(COLD, w.source.policies, w.source.syncedAt, |w.source.policies|)
  }

  /** The process was started from nothing, or its cache has a sync time. */
  ghost predicate Dated(w: World) {
    w.source == NOTHING || w.source.syncedAt != 0
  }

  lemma StepKeepsSourced(cfg: Config, codec: Codec, w: World, e: Event)
    requires Sourced(w)
    ensures Sourced(Step(cfg, codec, w, e))
  {
    var after := Step(cfg, codec, w, e);
    if after.process.Up? && !e.Crash? {
      var policies := if e.Replace? then e.policies else after.source.policies;
      forall r | r in after.process.cache.rules ensures r in after.source.policies {
        AddAllAdds([], policies, r);
        if e.Replace? && w.process.Up? {
          AddAllAdds([], policies[..if e.failAt < |policies| then e.failAt else |policies|], r);
        }
      }
    }
  }

  lemma StepKeepsExact(cfg: Config, codec: Codec, w: World, e: Event)
    requires Exact(w) && Dated(w)
    requires e.Replace? ==> |e.policies| <= e.failAt && e.syncedAt != 0
    ensures Exact(Step(cfg, codec, w, e)) && Dated(Step(cfg, codec, w, e))
  {
  }

  lemma {:induction false} RunKeepsSourced(cfg: Config, codec: Codec, w: World, events: seq<Event>)
    requires Sourced(w)
    ensures Sourced(Run(cfg, codec, w, events))
    decreases |events|
  {
    if events != [] {
      StepKeepsSourced(cfg, codec, w, events[0]);
      RunKeepsSourced(cfg, codec, Step(cfg, codec, w, events[0]), events[1..]);
    }
  }

  lemma {:induction false} RunKeepsExact(cfg: Config, codec: Codec, w: World, events: seq<Event>)
    requires Exact(w) && Dated(w) && Clocked(events) && NoAddFailure(events)
    ensures Exact(Run(cfg, codec, w, events)) && Dated(Run(cfg, codec, w, events))
    decreases |events|
  {
    if events != [] {
      StepKeepsExact(cfg, codec, w, events[0]);
      RunKeepsExact(cfg, codec, Step(cfg, codec, w, events[0]), events[1..]);
    }
  }

  /** In every reachable state, even after failed AddPolicy calls: whoever is allowed has a
      role matched by a rule of the replacement last begun or booted from, or is the
      safety-net role of a process that counts its cache as empty and out of date. */
  lemma {:induction false} EveryAllowHasAReason(cfg: Config, km: KeyMatch, codec: Codec, w: World, events: seq<Event>,
                             p: Principal, resource: string, action: string, now: Time)
    requires w.process == Down
    requires var after := Run(cfg, codec, w, events);
             after.process.Up? && Allowed(cfg, km, after.process.cache, p, resource, action, now)
    ensures var after := Run(cfg, codec, w, events);
            || (exists role, r ::
                  role in p.roles && r in after.source.policies && Matches(km, r, role, resource, action))
            || (TierAt(cfg, after.process.cache.lastSuccess, now) == TierInvalid
                && !after.process.cache.hasPolicies && cfg.safetyNetRole in p.roles)
  {
    RunKeepsSourced(cfg, codec, w, events);
    var c := Run(cfg, codec, w, events).process.cache;
    if Enforced(km, c.rules, p, resource, action) {
      var role :| role in p.roles && Enforce(km, c.rules, role, resource, action);
      var r :| r in c.rules && Matches(km, r, role, resource, action);
    }
  }

  /** Without AddPolicy failures the flag tells the truth: it is set exactly when rules are
      loaded, loaded rules have a sync time, and they are all of the last replacement. */
  lemma {:induction false} FlagIsTruthful(cfg: Config, codec: Codec, w: World, events: seq<Event>)
    requires w.process == Down && w.source == NOTHING && Clocked(events) && NoAddFailure(events)
    ensures var after := Run(cfg, codec, w, events);
            after.process.Up? ==>
              && (after.process.cache.hasPolicies <==> after.process.cache.rules != [])
              && (after.process.cache.rules != [] ==> after.process.cache.lastSuccess != 0)
              && forall r :: r in after.process.cache.rules <==> r in after.source.policies
  {
    RunKeepsExact(cfg, codec, w, events);
    var after := Run(cfg, codec, w, events);
    if after.process.Up? {
      forall r ensures r in after.process.cache.rules <==> r in after.source.policies {
        AddAllAdds([], after.source.policies, r);
      }
      if after.source.policies != [] {
        assert after.source.policies[0] in after.process.cache.rules;
      }
    }
  }

  /** One failed AddPolicy is enough to break it, and exactly these failures do: one after
      the first rule on a cache counted empty, or one on the first rule of a full cache. */
  lemma FlagBrokenExactly(c: Cache, policies: seq<Rule>, syncedAt: Time, failAt: nat)
    requires c.hasPolicies <==> c.rules != []
    ensures var after := Replaced(c, policies, syncedAt, failAt);
            (after.hasPolicies <==> after.rules != []) <==>
            |policies| <= failAt || (failAt > 0 <==> c.hasPolicies)
  {
    if 0 < failAt < |policies| {
      AddAllAdds([], policies[..failAt], policies[0]);
      assert policies[..failAt][0] == policies[0];
    } else if failAt >= |policies| > 0 {
      AddAllAdds([], policies, policies[0]);
    }
  }

  /** Which replacements are safe whatever AddPolicy does: those with no rules, and those with
      one rule on a cache that is empty. */
  lemma FlagSafeExactly(c: Cache, policies: seq<Rule>, syncedAt: Time)
    requires c.hasPolicies <==> c.rules != []
    ensures (forall failAt: nat ::
              Replaced(c, policies, syncedAt, failAt).hasPolicies <==>
                  Replaced(c, policies, syncedAt, failAt).rules != [])
            <==> policies == [] || (|policies| == 1 && !c.hasPolicies)
  {
    forall failAt: nat
      ensures (Replaced(c, policies, syncedAt, failAt).hasPolicies <==>
               Replaced(c, policies, syncedAt, failAt).rules != [])
              <==> |policies| <= failAt || (failAt > 0 <==> c.hasPolicies)
    {
      FlagBrokenExactly(c, policies, syncedAt, failAt);
    }
    if |policies| > 0 {
      FlagBrokenExactly(c, policies, syncedAt, 0);
      FlagBrokenExactly(c, policies, syncedAt, 1);
      var first, second := Replaced(c, policies, syncedAt, 0), Replaced(c, policies, syncedAt, 1);
    }
  }
}
