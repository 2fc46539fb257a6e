/** The reaper and the tenants in use: when a tenant that was used lately can be removed for idleness. */
module Usage {
  import opened Base
  import opened Tenants
  import opened Registry
  import opened Databases
  import opened Systems
  import opened Operations

  // ----- The latest use -----

  /** The request got past the bucket of an active tenant; its second is what the activity clock is to show. */
  predicate Uses(cfg: Config, scan: Scan, s: System, e: Event, k: ApiKey) {
    && e.Whole? && e.operation.Ask? && e.operation.key == k && k in s.tenants
    && var o := Request(cfg.limits, scan, s.tenants[k], DirOf(cfg, s, k), e.operation.op, e.operation.env);
       Admitted(o.response) && o.tenant.state.Active?
  }

  function UseAfter(cfg: Config, scan: Scan, s: System, e: Event, k: ApiKey, use: Option<int>): Option<int> {
    if Uses(cfg, scan, s, e, k) then Some(e.operation.env.unix)
    else if e.Whole? && e.operation.Provision? && e.operation.key == k && k !in s.tenants then None
    else use
  }

  /** The second of the latest use of a tenant since it was provisioned. */
  function LatestUse(cfg: Config, scan: Scan, events: seq<Event>, k: ApiKey): Option<int> {
    if events == [] then None
    else
      var n := |events| - 1;
      UseAfter(cfg, scan, Run(cfg, scan, events[..n]), events[n], k, LatestUse(cfg, scan, events[..n], k))
  }

  /** The reaper does not remove k at any time, however short maxIdle, unless k has not been used for longer. */
  ghost predicate SafeFromReaper(s: System, k: ApiKey, use: Option<int>) {
    IsActive(s, k) && use.Some? ==>
      forall now, maxIdle :: Idle(s.tenants[k].lastActive, now, maxIdle) ==> Idle(use.value, now, maxIdle)
  }

  predicate NotBefore(clock: int, use: Option<int>) {
    use.Some? ==> use.value <= clock
  }

  lemma SafeMeansNotBefore(s: System, k: ApiKey, use: Option<int>)
    requires IsActive(s, k)
    ensures SafeFromReaper(s, k, use) <==> NotBefore(s.tenants[k].lastActive, use)
  {
    if use.Some? && s.tenants[k].lastActive < use.value {
      assert Idle(s.tenants[k].lastActive, s.tenants[k].lastActive * NANOS + 1, 0);
      assert !Idle(use.value, s.tenants[k].lastActive * NANOS + 1, 0);
    }
  }

  // ----- Restarts forget -----

  /** The disk from which an event starts a new process, if it does. */
  function RestartDisk(cfg: Config, scan: Scan, s: System, e: Event): Option<Disk> {
    match e
    case Cut(o, n, _, _) => Some(CutDisk(cfg, scan, s, o, n))
    case Whole(o) => if o.Restart? then Some(s.disk) else None
  }

  function ClockOf(e: Event, k: ApiKey): Clock
    requires e.Cut? || e.operation.Restart?
  {
    if e.Cut? then e.clocks(k) else e.operation.clocks(k)
  }

  function NotOpened(e: Event): set<ApiKey>
    requires e.Cut? || e.operation.Restart?
  {
    if e.Cut? then e.openFails else e.operation.openFails
  }

  lemma RestartIs(cfg: Config, scan: Scan, s: System, e: Event)
    requires RestartDisk(cfg, scan, s, e).Some?
    ensures var clocks := if e.Cut? then e.clocks else e.operation.clocks;
      After(cfg, scan, s, e) == Restarted(cfg, RestartDisk(cfg, scan, s, e).value, clocks, NotOpened(e))
  {
  }

  /** If the event restarts the server and opens the engine of k, the marker it finds does not lie before the
      latest use of k. */
  ghost predicate Remembers(cfg: Config, scan: Scan, s: System, e: Event, k: ApiKey, use: Option<int>) {
    var d := RestartDisk(cfg, scan, s, e);
    d.Some? && HasTree(cfg, d.value, k) && k !in NotOpened(e) ==>
      var marker := DirAt(d.value.dirs, PathOf(cfg, k)).value.marker;
      marker.Some? ==> NotBefore(marker.value, use)
  }

  /** What the clock in memory promises, for every tenant that is there. */
  ghost predicate Covered(s: System, k: ApiKey, use: Option<int>) {
    k in s.tenants ==> NotBefore(s.tenants[k].lastActive, use)
  }

  /** A restart whose clocks do not lie before the latest use keeps the promise exactly if it remembers. */
  lemma RestartCovered(cfg: Config, scan: Scan, s: System, e: Event, k: ApiKey, use: Option<int>)
    requires RestartDisk(cfg, scan, s, e).Some? && NotBefore(ClockOf(e, k).unix, use)
    ensures Covered(After(cfg, scan, s, e), k, use) <==> Remembers(cfg, scan, s, e, k, use)
    ensures !Remembers(cfg, scan, s, e, k, use) ==> IsActive(After(cfg, scan, s, e), k)
  {
    hide Keys, PathOf, CutDisk, After, NotBefore;
    RestartIs(cfg, scan, s, e);
  }

  /** Any other event keeps it, counting the use that it makes of k. */
  lemma OtherwiseCovered(cfg: Config, scan: Scan, s: System, e: Event, k: ApiKey, use: Option<int>)
    requires RestartDisk(cfg, scan, s, e).None? && Covered(s, k, use)
    ensures Covered(After(cfg, scan, s, e), k, UseAfter(cfg, scan, s, e, k, use))
  {
    hide Keys, PathOf, Appended, Removed, Request, Idle, Admitted;
    var o := e.operation;
    if o.Ask? && o.key in s.tenants {
      OnlyAdmittedRequestsTouch(cfg.limits, scan, s.tenants[o.key], DirOf(cfg, s, o.key), o.op, o.env);
    }
  }

  // ----- Whole runs -----

  /** A new process does not read a time before that of any earlier request. */
  ghost predicate ClocksGoOn(events: seq<Event>) {
    forall i, j, k :: 0 <= i < j < |events| && events[i].operation.Ask?
                      && (events[j].Cut? || events[j].operation.Restart?) ==>
      events[i].operation.env.unix <= ClockOf(events[j], k).unix
  }

  ghost predicate AlwaysRemembers(cfg: Config, scan: Scan, events: seq<Event>) {
    forall i, k :: 0 <= i < |events| ==> RemembersAt(cfg, scan, events, i, k)
  }

  ghost predicate RemembersAt(cfg: Config, scan: Scan, events: seq<Event>, i: nat, k: ApiKey)
    requires i < |events|
  {
    Remembers(cfg, scan, Run(cfg, scan, events[..i]), events[i], k, LatestUse(cfg, scan, events[..i], k))
  }

  /** At every moment of the run, no tenant can be removed that has been used within maxIdle. */
  ghost predicate AlwaysSafe(cfg: Config, scan: Scan, events: seq<Event>) {
    forall i, k :: 0 <= i <= |events| ==> SafeAt(cfg, scan, events, i, k)
  }

  ghost predicate SafeAt(cfg: Config, scan: Scan, events: seq<Event>, i: nat, k: ApiKey)
    requires i <= |events|
  {
    SafeFromReaper(Run(cfg, scan, events[..i]), k, LatestUse(cfg, scan, events[..i], k))
  }

  lemma {:induction false} LatestUseInRun(cfg: Config, scan: Scan, events: seq<Event>, k: ApiKey) returns (i: nat)
    requires LatestUse(cfg, scan, events, k).Some?
    ensures i < |events| && events[i].operation.Ask?
    ensures LatestUse(cfg, scan, events, k) == Some(events[i].operation.env.unix)
  {
    hide Run, Uses;
    var n := |events| - 1;
    if Uses(cfg, scan, Run(cfg, scan, events[..n]), events[n], k) {
      i := n;
      UsesIsAsk(cfg, scan, Run(cfg, scan, events[..n]), events[n], k);
    } else {
      i := LatestUseInRun(cfg, scan, events[..n], k);
    }
  }

  lemma UsesIsAsk(cfg: Config, scan: Scan, s: System, e: Event, k: ApiKey)
    requires Uses(cfg, scan, s, e, k)
    ensures e.operation.Ask?
  {
  }

  /** The clocks of a restart do not lie before the latest use of any tenant. */
  lemma ClockNotBefore(cfg: Config, scan: Scan, events: seq<Event>, i: nat, k: ApiKey)
    requires ClocksGoOn(events) && i < |events| && (events[i].Cut? || events[i].operation.Restart?)
    ensures NotBefore(ClockOf(events[i], k).unix, LatestUse(cfg, scan, events[..i], k))
  {
    hide LatestUse;
    if LatestUse(cfg, scan, events[..i], k).Some? {
      var j := LatestUseInRun(cfg, scan, events[..i], k);
      assert events[..i][j] == events[j];
    }
  }

  lemma {:induction false} RememberingCovers(cfg: Config, scan: Scan, events: seq<Event>, n: nat, k: ApiKey)
    requires ClocksGoOn(events) && n <= |events|
    requires forall i :: 0 <= i < n ==> RemembersAt(cfg, scan, events, i, k)
    ensures Covered(Run(cfg, scan, events[..n]), k, LatestUse(cfg, scan, events[..n], k))
    decreases n
  {
    hide Covered, Remembers, After, ClocksGoOn, Uses;
    if n == 0 {
      EmptyCovers(k, LatestUse(cfg, scan, events[..n], k));
    } else {
      var m := n - 1;
      assert events[..n][..m] == events[..m];
      RememberingCovers(cfg, scan, events, m, k);
      var s, e, use := Run(cfg, scan, events[..m]), events[m], LatestUse(cfg, scan, events[..m], k);
      if RestartDisk(cfg, scan, s, e).Some? {
        assert RemembersAt(cfg, scan, events, m, k);
        ClockNotBefore(cfg, scan, events, m, k);
        RestartCovered(cfg, scan, s, e, k, use);
        RestartsUseNothing(cfg, scan, s, e, k, use);
      } else {
        OtherwiseCovered(cfg, scan, s, e, k, use);
      }
    }
  }

  lemma EmptyCovers(k: ApiKey, use: Option<int>)
    ensures Covered(EMPTY, k, use)
  {
  }

  /** An event that restarts the server is no use of anything. */
  lemma RestartsUseNothing(cfg: Config, scan: Scan, s: System, e: Event, k: ApiKey, use: Option<int>)
    requires RestartDisk(cfg, scan, s, e).Some?
    ensures UseAfter(cfg, scan, s, e, k, use) == use
  {
  }

  /** Over every run, with any failures, crashes and restarts, no tenant used within maxIdle can ever be removed
      for idleness if and only if every restart finds a marker, where it finds one, that does not lie before the
      latest use. */
  lemma {:induction false} UsedTenantsAreSafe(cfg: Config, scan: Scan, events: seq<Event>)
    requires ClocksGoOn(events)
    ensures AlwaysSafe(cfg, scan, events) <==> AlwaysRemembers(cfg, scan, events)
  {
    hide Covered, SafeFromReaper, Remembers, Run, LatestUse, ClocksGoOn;
    if AlwaysRemembers(cfg, scan, events) {
      forall i, k | 0 <= i <= |events|
        ensures SafeAt(cfg, scan, events, i, k)
      {
        assert forall j :: 0 <= j < i ==> RemembersAt(cfg, scan, events, j, k);
        RememberingCovers(cfg, scan, events, i, k);
        CoveredIsSafe(Run(cfg, scan, events[..i]), k, LatestUse(cfg, scan, events[..i], k));
      }
    }
    if i, k :| 0 <= i < |events| && !RemembersAt(cfg, scan, events, i, k) {
      ForgettingEndangers(cfg, scan, events, i, k);
      assert !SafeAt(cfg, scan, events, i + 1, k);
    }
  }

  lemma CoveredIsSafe(s: System, k: ApiKey, use: Option<int>)
    requires Covered(s, k, use)
    ensures SafeFromReaper(s, k, use)
  {
    if IsActive(s, k) {
      SafeMeansNotBefore(s, k, use);
    }
  }

  lemma ForgettingEndangers(cfg: Config, scan: Scan, events: seq<Event>, i: nat, k: ApiKey)
    requires ClocksGoOn(events) && i < |events| && !RemembersAt(cfg, scan, events, i, k)
    ensures !SafeAt(cfg, scan, events, i + 1, k)
  {
    hide Remembers, After, ClocksGoOn, Uses;
    var s, e, use := Run(cfg, scan, events[..i]), events[i], LatestUse(cfg, scan, events[..i], k);
    assert events[..i + 1][..i] == events[..i];
    OnlyRestartsForget(cfg, scan, s, e, k, use);
    ClockNotBefore(cfg, scan, events, i, k);
    RestartCovered(cfg, scan, s, e, k, use);
    RestartsUseNothing(cfg, scan, s, e, k, use);
    SafeMeansNotBefore(After(cfg, scan, s, e), k, use);
  }

  lemma OnlyRestartsForget(cfg: Config, scan: Scan, s: System, e: Event, k: ApiKey, use: Option<int>)
    requires !Remembers(cfg, scan, s, e, k, use)
    ensures RestartDisk(cfg, scan, s, e).Some?
  {
  }

  /** A turn of the reaper that writes the marker makes the next restart remember. */
  lemma FlushRemembers(cfg: Config, scan: Scan, s: System, k: ApiKey, now: int, maxIdle: int, faults: ReapFaults,
                       use: Option<int>)
    requires IsActive(s, k) && DirOf(cfg, s, k).Some? && Covered(s, k, use)
    requires !Idle(s.tenants[k].lastActive, now, maxIdle) && k !in faults.persist
    ensures var dir := DirOf(cfg, Operated(cfg, scan, s, Reap(k, now, maxIdle, faults)), k);
      dir.Some? && dir.value.marker.Some? && NotBefore(dir.value.marker.value, use)
  {
    hide PathOf, Idle, NotBefore;
  }

  /** A run that forgets: the first write opens the engine and writes the marker before it counts as a use, so
      the marker shows the second of the provision. A restart right after a first write that came `late` lets
      the tenant be removed at once, although it was used in this very second. */
  lemma FirstWriteIsForgotten(scan: Scan, k: ApiKey, late: int, maxIdle: int, clocks: ApiKey -> Clock)
    requires IsApiKey(k) && 0 <= maxIdle < late * NANOS
    ensures var cfg := Config("", Limits(1, 1), RateLimiter.RateLimitConfig(1.0, 0.0, 0.0, 0.0, 0.0));
      var provision := Whole(Provision(k, Clock(0.0, 0)));
      var ask := Whole(Ask(k, Op.Put([1], []), Env(0.0, 0.0, late, true, true, true, Some(0), true)));
      var s := Run(cfg, scan, [provision, ask]);
      && Handled(cfg, scan, Run(cfg, scan, [provision]), k, ask.operation.op, ask.operation.env).1 == Ok(Stored)
      && LatestUse(cfg, scan, [provision, ask], k) == Some(late)
      && k !in Victims(s, late * NANOS, maxIdle)
      && k in Victims(Restarted(cfg, s.disk, clocks, {}), late * NANOS, maxIdle)
  {
    hide Run, Handled, LatestUse, Victims, Idle, Restarted, IsApiKey;
    var cfg := Config("", Limits(1, 1), RateLimiter.RateLimitConfig(1.0, 0.0, 0.0, 0.0, 0.0));
    var provision := Whole(Provision(k, Clock(0.0, 0)));
    var ask := Whole(Ask(k, Op.Put([1], []), Env(0.0, 0.0, late, true, true, true, Some(0), true)));
    RunOneMore(cfg, scan, [], provision);
    RunOneMore(cfg, scan, [provision], ask);
    assert [] + [provision] == [provision] && [provision] + [ask] == [provision, ask];
    FirstWrite(cfg, scan, k, late);
    FirstUse(cfg, scan, provision, ask, k);
    OlderMarkerLoses(cfg, Run(cfg, scan, [provision, ask]), k, late, maxIdle, clocks);
  }

  lemma FirstWrite(cfg: Config, scan: Scan, k: ApiKey, late: int)
    requires IsApiKey(k) && cfg.limits.maxStorageBytes > 0
    requires cfg.rateLimit == RateLimiter.RateLimitConfig(1.0, 0.0, 0.0, 0.0, 0.0)
    ensures var p := Operated(cfg, scan, Run(cfg, scan, []), Provision(k, Clock(0.0, 0)));
      var ask := Whole(Ask(k, Op.Put([1], []), Env(0.0, 0.0, late, true, true, true, Some(0), true)));
      var (s, r) := Handled(cfg, scan, p, k, ask.operation.op, ask.operation.env);
      && r == Ok(Stored) && Uses(cfg, scan, p, ask, k)
      && IsActive(s, k) && s.tenants[k].lastActive == late
      && k in Registered(s) && DirOf(cfg, s, k).Some? && DirOf(cfg, s, k).value.marker == Some(0)
  {
    hide Keys, Appended, IsApiKey;
    ApiKeysAreLines(k);
    ReadAfterAppend(None, k);
    assert Run(cfg, scan, []) == EMPTY;
  }

  lemma FirstUse(cfg: Config, scan: Scan, provision: Event, ask: Event, k: ApiKey)
    requires ask.operation.Ask? && Uses(cfg, scan, Run(cfg, scan, [provision]), ask, k)
    ensures LatestUse(cfg, scan, [provision, ask], k) == Some(ask.operation.env.unix)
  {
    hide Run, Uses;
    assert [provision, ask][..1] == [provision];
  }

  lemma OlderMarkerLoses(cfg: Config, s: System, k: ApiKey, late: int, maxIdle: int, clocks: ApiKey -> Clock)
    requires IsActive(s, k) && s.tenants[k].lastActive == late && 0 <= maxIdle < late * NANOS
    requires k in Registered(s) && DirOf(cfg, s, k).Some? && DirOf(cfg, s, k).value.marker == Some(0)
    ensures k !in Victims(s, late * NANOS, maxIdle)
    ensures k in Victims(Restarted(cfg, s.disk, clocks, {}), late * NANOS, maxIdle)
  {
    hide Keys, PathOf;
  }
}
