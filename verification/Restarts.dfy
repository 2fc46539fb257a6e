/** A restart between two ticks of the reaper: when it is noticed, and over which runs it is not. */
module Restarts {
  import opened Base
  import opened Tenants
  import opened Registry
  import opened Databases
  import opened Systems
  import opened Operations

  // ----- The exact condition -----

  /** A new process opens the engine, unless it fails to. */
  predicate WillBeActive(cfg: Config, d: Disk, k: ApiKey, openFails: set<ApiKey>) {
    HasTree(cfg, d, k) && k !in openFails
  }

  /** Whenever the next tick comes and however long it lets tenants idle, it finds the same ones idle with a
      restart as without. */
  ghost predicate RestartUnnoticed(cfg: Config, s: System, clocks: ApiKey -> Clock, openFails: set<ApiKey>) {
    forall now, maxIdle ::
      Victims(Restarted(cfg, s.disk, clocks, openFails), now, maxIdle) == Victims(s, now, maxIdle)
  }

  /** For one key: it is active in memory exactly if it will be, and the clock in memory is the one that will be
      read from the marker, or from the wall if there is no marker. */
  predicate SameAfterRestart(cfg: Config, s: System, k: ApiKey, clocks: ApiKey -> Clock, openFails: set<ApiKey>) {
    && (IsActive(s, k) <==> WillBeActive(cfg, s.disk, k, openFails))
    && (IsActive(s, k) ==> s.tenants[k].lastActive == LoadedTenant(cfg, s.disk, k, clocks(k)).lastActive)
  }

  lemma RestartedActive(cfg: Config, d: Disk, clocks: ApiKey -> Clock, openFails: set<ApiKey>, k: ApiKey)
    ensures var r := Restarted(cfg, d, clocks, openFails);
      && (IsActive(r, k) <==> WillBeActive(cfg, d, k, openFails))
      && (IsActive(r, k) ==> r.tenants[k].lastActive == LoadedTenant(cfg, d, k, clocks(k)).lastActive)
  {
  }

  lemma VictimIs(s: System, k: ApiKey, now: int, maxIdle: int)
    ensures k in Victims(s, now, maxIdle) <==> IsActive(s, k) && Idle(s.tenants[k].lastActive, now, maxIdle)
  {
  }

  /** A restart goes unnoticed if and only if for every key activity and clock are the same after it. */
  lemma RestartInvariance(cfg: Config, s: System, clocks: ApiKey -> Clock, openFails: set<ApiKey>)
    ensures RestartUnnoticed(cfg, s, clocks, openFails)
       <==> forall k :: SameAfterRestart(cfg, s, k, clocks, openFails)
  {
    hide Restarted, Victims, IsActive, WillBeActive, Idle, LoadedTenant;
    var r := Restarted(cfg, s.disk, clocks, openFails);
    forall k
      ensures RestartUnnoticed(cfg, s, clocks, openFails) ==> SameAfterRestart(cfg, s, k, clocks, openFails)
    {
      RestartedActive(cfg, s.disk, clocks, openFails, k);
      if !SameAfterRestart(cfg, s, k, clocks, openFails) {
        DifferenceShows(cfg, s, clocks, openFails, k);
      }
    }
    if forall k :: SameAfterRestart(cfg, s, k, clocks, openFails) {
      forall now, maxIdle
        ensures Victims(r, now, maxIdle) == Victims(s, now, maxIdle)
      {
        SameVictims(cfg, s, clocks, openFails, now, maxIdle);
      }
    }
  }

  lemma SameVictims(cfg: Config, s: System, clocks: ApiKey -> Clock, openFails: set<ApiKey>, now: int, maxIdle: int)
    requires forall k :: SameAfterRestart(cfg, s, k, clocks, openFails)
    ensures Victims(Restarted(cfg, s.disk, clocks, openFails), now, maxIdle) == Victims(s, now, maxIdle)
  {
    hide Restarted, Victims, WillBeActive, Idle, LoadedTenant;
    var r := Restarted(cfg, s.disk, clocks, openFails);
    forall k
      ensures k in Victims(r, now, maxIdle) <==> k in Victims(s, now, maxIdle)
    {
      RestartedActive(cfg, s.disk, clocks, openFails, k);
      VictimIs(r, k, now, maxIdle);
      VictimIs(s, k, now, maxIdle);
      assert SameAfterRestart(cfg, s, k, clocks, openFails);
    }
  }

  /** Who is active on one side only, or has the older clock there, is reaped, some day, on that side only. */
  lemma DifferenceShows(cfg: Config, s: System, clocks: ApiKey -> Clock, openFails: set<ApiKey>, k: ApiKey)
    requires var r := Restarted(cfg, s.disk, clocks, openFails);
      IsActive(s, k) != IsActive(r, k)
      || (IsActive(s, k) && s.tenants[k].lastActive != r.tenants[k].lastActive)
    ensures !RestartUnnoticed(cfg, s, clocks, openFails)
  {
    hide Restarted, Victims;
    var r := Restarted(cfg, s.disk, clocks, openFails);
    var older := if !IsActive(r, k) || (IsActive(s, k) && s.tenants[k].lastActive < r.tenants[k].lastActive)
                 then s.tenants[k].lastActive else r.tenants[k].lastActive;
    var now := older * NANOS + 1;
    VictimIs(s, k, now, 0);
    VictimIs(r, k, now, 0);
    assert Victims(r, now, 0) != Victims(s, now, 0);
  }

  /** A first write whose engine cannot be opened leaves a pending tenant with a directory. The reaper never
      looks at it; after a restart the tenant is active, and some later tick removes it. */
  lemma FailedOpenIsNoticed(cfg: Config, scan: Scan, k: ApiKey, first: int, maxIdle: int, clocks: ApiKey -> Clock)
    requires IsApiKey(k)
    ensures var env := Env(0.0, 0.0, 0, true, false, true, Some(0), true);
      var s := Run(cfg, scan, [Whole(Provision(k, Clock(0.0, 0))), Whole(Ask(k, Op.Put([1], []), env))]);
      && Reaped(cfg, s, s, first, maxIdle, NO_FAULTS)
      && !RestartUnnoticed(cfg, s, clocks, {})
  {
    hide Keys, Appended, IsApiKey, RestartUnnoticed, Reaped;
    var env := Env(0.0, 0.0, 0, true, false, true, Some(0), true);
    var provision, ask := Whole(Provision(k, Clock(0.0, 0))), Whole(Ask(k, Op.Put([1], []), env));
    RunOneMore(cfg, scan, [], provision);
    RunOneMore(cfg, scan, [provision], ask);
    assert [] + [provision] == [provision] && [provision] + [ask] == [provision, ask];
    var s := Run(cfg, scan, [provision, ask]);
    ApiKeysAreLines(k);
    ReadAfterAppend(None, k);
    assert s.tenants == map[k := NewTenant(cfg.rateLimit, 0.0, 0)];
    assert !IsActive(s, k) && WillBeActive(cfg, s.disk, k, {});
    assert !SameAfterRestart(cfg, s, k, clocks, {});
    NobodyReapable(cfg, s, first, maxIdle);
    RestartInvariance(cfg, s, clocks, {});
  }

  lemma NobodyReapable(cfg: Config, s: System, now: int, maxIdle: int)
    requires forall k :: !IsActive(s, k)
    ensures Reaped(cfg, s, s, now, maxIdle, NO_FAULTS)
  {
    assert forall k :: k in Reapable(s) ==> IsActive(s, k);
    assert Reapable(s) == {};
  }

  // ----- One tick -----

  /** Memory and disk agree on who is active. */
  ghost predicate Aligned(cfg: Config, s: System) {
    forall k :: IsActive(s, k) <==> HasTree(cfg, s.disk, k)
  }

  /** The markers of active tenants show their clocks. */
  ghost predicate MarkersShowClocks(cfg: Config, s: System) {
    forall k :: IsActive(s, k) && DirOf(cfg, s, k).Some? ==>
      DirOf(cfg, s, k).value.marker == Some(s.tenants[k].lastActive)
  }

  lemma TickShowsClocks(cfg: Config, start: System, s: System, now: int, maxIdle: int)
    requires Reaped(cfg, start, s, now, maxIdle, NO_FAULTS)
    ensures MarkersShowClocks(cfg, s)
    ensures Aligned(cfg, start) ==> Aligned(cfg, s)
  {
    hide Keys, Reaped, PathOf;
    forall k
      ensures IsActive(s, k) && DirOf(cfg, s, k).Some? ==>
        DirOf(cfg, s, k).value.marker == Some(s.tenants[k].lastActive)
      ensures Aligned(cfg, start) ==> (IsActive(s, k) <==> HasTree(cfg, s.disk, k))
    {
      ReapRemovesExactlyIdle(cfg, start, s, now, maxIdle, k);
      assert StakeOf(cfg, s, k).registered == (k in Registered(s));
      assert StakeOf(cfg, start, k).registered == (k in Registered(start));
      assert Aligned(cfg, start) ==> (IsActive(start, k) <==> HasTree(cfg, start.disk, k));
      if k in s.tenants {
        assert StakeOf(cfg, s, k).tenant == Some(s.tenants[k]);
      }
    }
  }

  /** In agreement, and with markers as a tick leaves them, a restart is noticed exactly if an engine does not
      open. */
  lemma AlignedUnnoticed(cfg: Config, s: System, clocks: ApiKey -> Clock, openFails: set<ApiKey>)
    requires Aligned(cfg, s) && MarkersShowClocks(cfg, s)
    ensures RestartUnnoticed(cfg, s, clocks, openFails) <==> AllOpen(cfg, s.disk, openFails)
  {
    hide RestartUnnoticed, Keys, PathOf;
    RestartInvariance(cfg, s, clocks, openFails);
    forall k
      ensures SameAfterRestart(cfg, s, k, clocks, openFails) <==> !(k in openFails && HasTree(cfg, s.disk, k))
    {
      assert IsActive(s, k) <==> HasTree(cfg, s.disk, k);
    }
  }

  // ----- Runs -----

  /** Nothing happens that sets memory and disk at odds: no engine fails to open in its directory, and no failing
      removal takes the whole directory of an active tenant or leaves one to a pending tenant. */
  ghost predicate Smooth(cfg: Config, scan: Scan, s: System, e: Event) {
    match e
    case Cut(o, n, _, openFails) => AllOpen(cfg, CutDisk(cfg, scan, s, o, n), openFails)
    case Whole(o) => if o.Restart? then AllOpen(cfg, s.disk, o.openFails) else SmoothOperation(cfg, s, o)
  }

  predicate SmoothOperation(cfg: Config, s: System, o: Operation) {
    match o
    case Ask(k, op, env) => k in s.tenants ==> !OpenFails(cfg.limits, s.tenants[k], op, env)
    case Deprovision(k, removal, _) => k in s.tenants && removal.Stuck? ==> (removal.left.Some? <==> IsActive(s, k))
    case Reap(k, now, maxIdle, faults) =>
      IsActive(s, k) && Idle(s.tenants[k].lastActive, now, maxIdle) && k in faults.remove ==> faults.remove[k].Some?
    case _ => true
  }

  /** What an operation on one key does to the others' activity: nothing. */
  lemma OthersStayAligned(cfg: Config, scan: Scan, s: System, o: Operation, j: ApiKey)
    requires Terminated(s.disk.registry) && (o.Provision? ==> IsApiKey(o.key)) && !o.Restart? && j != o.key
    ensures var s' := Operated(cfg, scan, s, o);
      (IsActive(s', j) <==> IsActive(s, j)) && (HasTree(cfg, s'.disk, j) <==> HasTree(cfg, s.disk, j))
  {
    hide Handled, Provisioned, Deprovisioned, ReapedOne, Keys, PathOf, IsApiKey;
    var s' := Operated(cfg, scan, s, o);
    assert StakeOf(cfg, s', j) == StakeOf(cfg, s, j) by {
      match o
      case Ask(k, op, env) => HandledIsolates(cfg, scan, s, k, op, env, j);
      case Provision(k, clock) => if k !in s.tenants { ProvisionedIsolates(cfg, s, k, clock.now, clock.unix, j); }
      case Deprovision(k, removal, writeOk) =>
        if k in s.tenants { DeprovisionedIsolates(cfg, s, k, removal, writeOk, j); }
      case Relimit(k, rl, at) =>
      case Reap(k, now, maxIdle, faults) =>
        if IsActive(s, k) { ReapedOneIsolates(cfg, s, k, now, maxIdle, faults, j); }
    }
    assert StakeOf(cfg, s', j).registered == (j in Registered(s'));
    assert StakeOf(cfg, s, j).registered == (j in Registered(s));
  }

  /** What it does to its own key: an operation keeps memory and disk in agreement exactly if it is smooth. */
  lemma OwnStaysAligned(cfg: Config, scan: Scan, s: System, issued: set<ApiKey>, o: Operation)
    requires Sound(cfg, s, issued) && Fresh(o, issued) && !o.Restart? && Aligned(cfg, s)
    ensures var s' := Operated(cfg, scan, s, o);
      (IsActive(s', o.key) <==> HasTree(cfg, s'.disk, o.key)) <==> SmoothOperation(cfg, s, o)
  {
    hide Keys, PathOf, IsApiKey, WellFormed, Request, OpenFails, Appended, Removed, Terminated, Idle;
    var k := o.key;
    SoundDisk(cfg, s, issued);
    assert IsActive(s, k) <==> HasTree(cfg, s.disk, k);
    RegistryAfter(s.disk, AppendKey(k), k);
    RegistryAfter(s.disk, RewriteWithout(k), k);
    if o.Ask? && k in s.tenants {
      RequestInStep(cfg.limits, scan, s.tenants[k], DirOf(cfg, s, k), o.op, o.env);
    }
  }

  /** From agreement, an event leads to agreement if and only if it is smooth. */
  lemma AlignedAfter(cfg: Config, scan: Scan, s: System, issued: set<ApiKey>, e: Event)
    requires Sound(cfg, s, issued) && Fresh(e.operation, issued) && Aligned(cfg, s)
    ensures Aligned(cfg, After(cfg, scan, s, e)) <==> Smooth(cfg, scan, s, e)
  {
    hide Operated, IsActive, HasTree, CutDisk, SmoothOperation, Restarted, IsApiKey;
    var o := e.operation;
    match e
    case Cut(_, n, clocks, openFails) => RestartAligned(cfg, CutDisk(cfg, scan, s, o, n), clocks, openFails);
    case Whole(_) =>
      if o.Restart? {
        WholeRestart(cfg, scan, s, o);
        RestartAligned(cfg, s.disk, o.clocks, o.openFails);
      } else {
        OwnStaysAligned(cfg, scan, s, issued, o);
        forall j | j != o.key
          ensures var s' := Operated(cfg, scan, s, o); IsActive(s', j) <==> HasTree(cfg, s'.disk, j)
        {
          OthersStayAligned(cfg, scan, s, o, j);
        }
      }
  }

  lemma WholeRestart(cfg: Config, scan: Scan, s: System, o: Operation)
    requires o.Restart?
    ensures Operated(cfg, scan, s, o) == Restarted(cfg, s.disk, o.clocks, o.openFails)
  {
  }

  /** A restart brings about agreement exactly if every directory opens, whatever there was before. */
  lemma RestartAligned(cfg: Config, d: Disk, clocks: ApiKey -> Clock, openFails: set<ApiKey>)
    ensures Aligned(cfg, Restarted(cfg, d, clocks, openFails)) <==> AllOpen(cfg, d, openFails)
  {
    hide Keys, PathOf;
    var s := Restarted(cfg, d, clocks, openFails);
    forall k
      ensures IsActive(s, k) <==> HasTree(cfg, d, k) && k !in openFails
    {
      RestartedActive(cfg, d, clocks, openFails, k);
    }
  }

  ghost predicate SmoothRun(cfg: Config, scan: Scan, events: seq<Event>) {
    forall i :: 0 <= i < |events| ==> Smooth(cfg, scan, Run(cfg, scan, events[..i]), events[i])
  }

  lemma {:induction false} SmoothRunIsAligned(cfg: Config, scan: Scan, events: seq<Event>)
    requires Proper(cfg, scan, events) && SmoothRun(cfg, scan, events)
    ensures Aligned(cfg, Run(cfg, scan, events))
  {
    hide Aligned, Proper, Smooth, After, Sound, Fresh, Sensible;
    if events == [] {
      EmptyIsAligned(cfg);
    } else {
      var n := |events| - 1;
      ProperPrefix(cfg, scan, events, n);
      assert forall i :: 0 <= i < n ==> events[..n][..i] == events[..i];
      SmoothRunIsAligned(cfg, scan, events[..n]);
      EventAt(cfg, scan, events, n);
      AlignedAfter(cfg, scan, Run(cfg, scan, events[..n]), IssuedBy(events[..n]), events[n]);
    }
  }

  lemma EmptyIsAligned(cfg: Config)
    ensures Aligned(cfg, EMPTY)
  {
  }

  /** After every smooth run of requests, provisions, deprovisions, rate-limit changes, reaping, crashes and
      restarts, and a tick without failures, a restart goes unnoticed by every later tick if and only if every
      directory of a registered key opens. */
  lemma RestartAfterTickUnnoticed(cfg: Config, scan: Scan, events: seq<Event>, s: System, first: int, maxIdle: int,
                                  clocks: ApiKey -> Clock, openFails: set<ApiKey>)
    requires Proper(cfg, scan, events) && SmoothRun(cfg, scan, events)
    requires Reaped(cfg, Run(cfg, scan, events), s, first, maxIdle, NO_FAULTS)
    ensures RestartUnnoticed(cfg, s, clocks, openFails) <==> AllOpen(cfg, s.disk, openFails)
  {
    hide Aligned, Proper, SmoothRun, Reaped, MarkersShowClocks, RestartUnnoticed, HasTree;
    SmoothRunIsAligned(cfg, scan, events);
    TickShowsClocks(cfg, Run(cfg, scan, events), s, first, maxIdle);
    AlignedUnnoticed(cfg, s, clocks, openFails);
  }
}
