/** The whole server as a value: the disk and the tenants in memory. */
module Systems {
  import opened Base
  import opened RateLimiter
  import opened Tenants
  import opened Registry
  import opened Databases

  datatype Config = Config(dataRoot: string, limits: Limits, rateLimit: RateLimitConfig)

  datatype System = System(disk: Disk, tenants: map<ApiKey, Tenant>)

  /** Before anything happened. */
  const EMPTY: System := System(Disk(None, map[]), map[])

  /** filepath.Join of a root and a key without separators. */
  function PathOf(cfg: Config, apiKey: ApiKey): string {
    cfg.dataRoot + "/" + apiKey
  }

  lemma PathsDiffer(cfg: Config, j: ApiKey, k: ApiKey)
    requires PathOf(cfg, j) == PathOf(cfg, k)
    ensures j == k
  {
    var n := |cfg.dataRoot + "/"|;
    assert PathOf(cfg, j)[n..] == j && PathOf(cfg, k)[n..] == k;
  }

  function DirOf(cfg: Config, s: System, k: ApiKey): Option<Dir> {
    DirAt(s.disk.dirs, PathOf(cfg, k))
  }

  function Registered(s: System): seq<ApiKey> {
    Keys(s.disk.registry)
  }

  /** The registry is a proper list of keys, knows every tenant in memory, and each tenant fits its directory. */
  ghost predicate Consistent(cfg: Config, s: System) {
    && Terminated(s.disk.registry)
    && Distinct(Registered(s))
    && (forall k :: k in Registered(s) ==> IsApiKey(k))
    && (forall k :: k in s.tenants ==> k in Registered(s))
    && (forall k :: k in s.tenants ==> WellFormed(s.tenants[k], DirOf(cfg, s, k)))
  }

  // ----- Operations -----

  /** A public handler's request: look the key up, then ask that tenant alone. */
  function Handled(cfg: Config, scan: Scan, s: System, k: ApiKey, op: Op, env: Env): (System, Response) {
    if k !in s.tenants then (s, Err(UnknownApiKey))
    else
      var o := Request(cfg.limits, scan, s.tenants[k], DirOf(cfg, s, k), op, env);
      (System(s.disk.(dirs := WithDir(s.disk.dirs, PathOf(cfg, k), o.dir)), s.tenants[k := o.tenant]), o.response)
  }

  function Provisioned(cfg: Config, s: System, k: ApiKey, now: real, unix: int): System {
    System(s.disk.(registry := Appended(s.disk.registry, k)), s.tenants[k := NewTenant(cfg.rateLimit, now, unix)])
  }

  /** Deprovisioning stops at the directory or at the registry if it cannot remove the one or rewrite the other. */
  function Deprovisioned(cfg: Config, s: System, k: ApiKey, removal: Removal, writeOk: bool): System
    requires k in s.tenants
  {
    var dirs := WithDir(s.disk.dirs, PathOf(cfg, k), LeftBy(removal));
    if removal.Stuck? then System(s.disk.(dirs := dirs), s.tenants[k := Closed(s.tenants[k])])
    else System(Disk(if writeOk then Removed(s.disk.registry, k) else s.disk.registry, dirs), s.tenants - {k})
  }

  /** The two stages: the tree, and if that went, the tenant and its key. */
  lemma TreeThenKey(cfg: Config, s: System, k: ApiKey, writeOk: bool)
    requires k in s.tenants
    ensures var t := Deprovisioned(cfg, s, k, Stuck(None), true);
      DirOf(cfg, t, k).None? && k in t.tenants
      && Deprovisioned(cfg, t, k, Cleared, writeOk) == Deprovisioned(cfg, s, k, Cleared, writeOk)
  {
    hide Removed;
  }

  lemma StoppedAtTree(cfg: Config, s: System, k: ApiKey, removal: Removal, writeOk: bool)
    requires k in s.tenants && removal.Stuck?
    ensures Deprovisioned(cfg, s, k, Stuck(LeftBy(removal)), true) == Deprovisioned(cfg, s, k, removal, writeOk)
  {
  }

  function Relimited(s: System, k: ApiKey, rl: RateLimitConfig, now: real): System
    requires k in s.tenants
  {
    s.(tenants := s.tenants[k := Limited(s.tenants[k], rl, now)])
  }

  /** One reading of the time, for a bucket and for an activity clock. */
  datatype Clock = Clock(now: real, unix: int)

  /** What LoadAll makes of one registered key. */
  function LoadedTenant(cfg: Config, disk: Disk, k: ApiKey, clock: Clock): Tenant {
    var fresh' := NewTenant(cfg.rateLimit, clock.now, clock.unix);
    var dir := DirAt(disk.dirs, PathOf(cfg, k));
    if dir.None? then fresh'
    else if dir.value.marker.Some? then Opened(fresh').(lastActive := dir.value.marker.value)
    else Opened(fresh')
  }

  /** A key whose directory is there but whose engine cannot be opened is skipped. */
  predicate Skipped(cfg: Config, disk: Disk, k: ApiKey, openFails: set<ApiKey>) {
    PathOf(cfg, k) in disk.dirs && k in openFails
  }

  function Loaded(cfg: Config, disk: Disk, keys: seq<ApiKey>, clocks: ApiKey -> Clock, openFails: set<ApiKey>)
    : map<ApiKey, Tenant>
  {
    map k | k in keys && !Skipped(cfg, disk, k, openFails) :: LoadedTenant(cfg, disk, k, clocks(k))
  }

  /** LoadAll puts what it loads over what was there. */
  function WithLoaded(cfg: Config, s: System, keys: seq<ApiKey>, clocks: ApiKey -> Clock, openFails: set<ApiKey>)
    : System
  {
    s.(tenants := s.tenants + Loaded(cfg, s.disk, keys, clocks, openFails))
  }

  lemma LoadedNone(cfg: Config, s: System, keys: seq<ApiKey>, clocks: ApiKey -> Clock, openFails: set<ApiKey>)
    ensures WithLoaded(cfg, s, keys[..0], clocks, openFails) == s
  {
  }

  lemma LoadedOneMore(cfg: Config, s: System, keys: seq<ApiKey>, i: nat, clocks: ApiKey -> Clock,
                      openFails: set<ApiKey>)
    requires i < |keys|
    ensures WithLoaded(cfg, s, keys[..i + 1], clocks, openFails) ==
      var before := WithLoaded(cfg, s, keys[..i], clocks, openFails);
      if Skipped(cfg, s.disk, keys[i], openFails) then before
      else before.(tenants := before.tenants[keys[i] := LoadedTenant(cfg, s.disk, keys[i], clocks(keys[i]))])
  {
    hide LoadedTenant, Skipped;
    var k := keys[i];
    var a := Loaded(cfg, s.disk, keys[..i], clocks, openFails);
    var b := Loaded(cfg, s.disk, keys[..i + 1], clocks, openFails);
    assert keys[..i + 1] == keys[..i] + [k];
    if Skipped(cfg, s.disk, k, openFails) {
      assert a == b;
    } else {
      assert b == a[k := LoadedTenant(cfg, s.disk, k, clocks(k))];
      assert s.tenants + b == (s.tenants + a)[k := b[k]];
    }
  }

  /** A new process on an old disk. */
  function Restarted(cfg: Config, disk: Disk, clocks: ApiKey -> Clock, openFails: set<ApiKey>): System {
    System(disk, Loaded(cfg, disk, Keys(disk.registry), clocks, openFails))
  }

  // ----- Reaping -----

  const NANOS: int := 1_000_000_000

  /** `now` and `maxIdle` are nanoseconds, the activity clock counts Unix seconds. */
  predicate Idle(lastActive: int, now: int, maxIdle: int) {
    now - lastActive * NANOS > maxIdle
  }

  /** The tenants whose marker cannot be written, whose directory cannot be removed (and what is left of it),
      for whom the registry cannot be rewritten. */
  datatype ReapFaults = ReapFaults(persist: set<ApiKey>, remove: map<ApiKey, Option<Dir>>, rewrite: set<ApiKey>)

  const NO_FAULTS := ReapFaults({}, map[], {})

  function RemovalOf(faults: ReapFaults, k: ApiKey): Removal {
    if k in faults.remove then Stuck(faults.remove[k]) else Cleared
  }

  function Flushed(cfg: Config, s: System, k: ApiKey, writeOk: bool): System
    requires k in s.tenants
  {
    if writeOk then
      var marked := Marked(DirOf(cfg, s, k), s.tenants[k].lastActive);
      s.(disk := s.disk.(dirs := WithDir(s.disk.dirs, PathOf(cfg, k), marked)))
    else s
  }

  function ReapedOne(cfg: Config, s: System, k: ApiKey, now: int, maxIdle: int, faults: ReapFaults): System
    requires k in s.tenants
  {
    var flushed := Flushed(cfg, s, k, k !in faults.persist);
    if Idle(s.tenants[k].lastActive, now, maxIdle)
    then Deprovisioned(cfg, flushed, k, RemovalOf(faults, k), k !in faults.rewrite)
    else flushed
  }

  function Victims(s: System, now: int, maxIdle: int): set<ApiKey> {
    set k | k in s.tenants && s.tenants[k].state.Active? && Idle(s.tenants[k].lastActive, now, maxIdle)
  }

  // ----- Isolation -----

  /** Everything there is about one key. */
  datatype Stake = Stake(registered: bool, tenant: Option<Tenant>, dir: Option<Dir>)

  function StakeOf(cfg: Config, s: System, k: ApiKey): Stake {
    Stake(k in Registered(s), if k in s.tenants then Some(s.tenants[k]) else None, DirOf(cfg, s, k))
  }

  lemma PathsLieBelowRoot(cfg: Config, k: ApiKey)
    ensures cfg.dataRoot + "/" <= PathOf(cfg, k) && PathOf(cfg, k)[|cfg.dataRoot| + 1..] == k
  {
  }

  lemma OtherDirsStay(cfg: Config, dirs: Dirs, k: ApiKey, dir: Option<Dir>, j: ApiKey)
    requires j != k
    ensures DirAt(WithDir(dirs, PathOf(cfg, k), dir), PathOf(cfg, j)) == DirAt(dirs, PathOf(cfg, j))
  {
    if PathOf(cfg, j) == PathOf(cfg, k) {
      PathsDiffer(cfg, j, k);
    }
  }

  lemma HandledIsolates(cfg: Config, scan: Scan, s: System, k: ApiKey, op: Op, env: Env, j: ApiKey)
    requires j != k
    ensures StakeOf(cfg, Handled(cfg, scan, s, k, op, env).0, j) == StakeOf(cfg, s, j)
  {
    if k in s.tenants {
      var o := Request(cfg.limits, scan, s.tenants[k], DirOf(cfg, s, k), op, env);
      OtherDirsStay(cfg, s.disk.dirs, k, o.dir, j);
    }
  }

  lemma ProvisionedIsolates(cfg: Config, s: System, k: ApiKey, now: real, unix: int, j: ApiKey)
    requires j != k && IsApiKey(k) && Terminated(s.disk.registry)
    ensures StakeOf(cfg, Provisioned(cfg, s, k, now, unix), j) == StakeOf(cfg, s, j)
  {
    ApiKeysAreLines(k);
    ReadAfterAppend(s.disk.registry, k);
  }

  lemma DeprovisionedIsolates(cfg: Config, s: System, k: ApiKey, removal: Removal, writeOk: bool, j: ApiKey)
    requires j != k && k in s.tenants
    ensures StakeOf(cfg, Deprovisioned(cfg, s, k, removal, writeOk), j) == StakeOf(cfg, s, j)
  {
    OtherDirsStay(cfg, s.disk.dirs, k, LeftBy(removal), j);
    ReadAfterRemove(s.disk.registry, k);
  }

  lemma ReapedOneIsolates(cfg: Config, s: System, k: ApiKey, now: int, maxIdle: int, faults: ReapFaults, j: ApiKey)
    requires j != k && k in s.tenants
    ensures StakeOf(cfg, ReapedOne(cfg, s, k, now, maxIdle, faults), j) == StakeOf(cfg, s, j)
  {
    var flushed := Flushed(cfg, s, k, k !in faults.persist);
    OtherDirsStay(cfg, s.disk.dirs, k, Marked(DirOf(cfg, s, k), s.tenants[k].lastActive), j);
    DeprovisionedIsolates(cfg, flushed, k, RemovalOf(faults, k), k !in faults.rewrite, j);
  }

  // ----- Consistency is kept -----

  lemma HandledConsistent(cfg: Config, scan: Scan, s: System, k: ApiKey, op: Op, env: Env)
    requires Consistent(cfg, s)
    ensures Consistent(cfg, Handled(cfg, scan, s, k, op, env).0)
  {
    hide WellFormed, Request;
    var s' := Handled(cfg, scan, s, k, op, env).0;
    if k in s.tenants {
      RequestKeepsWellFormed(cfg.limits, scan, s.tenants[k], DirOf(cfg, s, k), op, env);
    }
    forall j | j in s'.tenants
      ensures WellFormed(s'.tenants[j], DirOf(cfg, s', j))
    {
      if j != k {
        HandledIsolates(cfg, scan, s, k, op, env, j);
        assert StakeOf(cfg, s', j).tenant == Some(s'.tenants[j]);
      }
    }
  }

  /** A key that is neither registered nor has data keeps the server consistent, and only such a key does. */
  lemma ProvisionedConsistent(cfg: Config, s: System, k: ApiKey, now: real, unix: int)
    requires Consistent(cfg, s) && IsApiKey(k)
    ensures Registered(Provisioned(cfg, s, k, now, unix)) == Registered(s) + [k]
    ensures Consistent(cfg, Provisioned(cfg, s, k, now, unix))
       <==> k !in Registered(s) && StoreOf(DirOf(cfg, s, k)) == map[]
  {
    hide Keys, Appended, PathOf, IsApiKey, Terminated;
    var s' := Provisioned(cfg, s, k, now, unix);
    ApiKeysAreLines(k);
    ReadAfterAppend(s.disk.registry, k);
    if i :| 0 <= i < |Registered(s)| && Registered(s)[i] == k {
      assert Registered(s')[i] == Registered(s')[|Registered(s)|];
    }
    assert s'.tenants[k].state.Pending?;
  }

  /** A directory without data leaves none behind. */
  ghost predicate Plausible(t: Tenant, removal: Removal) {
    t.state.Pending? ==> StoreOf(LeftBy(removal)) == map[]
  }

  lemma DeprovisionedConsistent(cfg: Config, s: System, k: ApiKey, removal: Removal, writeOk: bool)
    requires Consistent(cfg, s) && k in s.tenants && Plausible(s.tenants[k], removal)
    ensures Consistent(cfg, Deprovisioned(cfg, s, k, removal, writeOk))
  {
    hide Keys, Appended, Removed, Terminated;
    var s' := Deprovisioned(cfg, s, k, removal, writeOk);
    ReadAfterRemove(s.disk.registry, k);
    WithoutKeepsDistinct(Registered(s), k);
    forall j | j in s'.tenants
      ensures WellFormed(s'.tenants[j], DirOf(cfg, s', j)) && j in Registered(s')
    {
      if j != k {
        DeprovisionedIsolates(cfg, s, k, removal, writeOk, j);
        assert StakeOf(cfg, s', j).tenant == Some(s'.tenants[j]);
      }
    }
  }

  lemma RelimitedConsistent(cfg: Config, s: System, k: ApiKey, rl: RateLimitConfig, now: real)
    requires Consistent(cfg, s) && k in s.tenants
    ensures Consistent(cfg, Relimited(s, k, rl, now))
    ensures forall j :: j != k ==> StakeOf(cfg, Relimited(s, k, rl, now), j) == StakeOf(cfg, s, j)
  {
  }

  lemma RestartedConsistent(cfg: Config, disk: Disk, clocks: ApiKey -> Clock, openFails: set<ApiKey>)
    requires Terminated(disk.registry) && Distinct(Keys(disk.registry))
    requires forall k :: k in Keys(disk.registry) ==> IsApiKey(k)
    ensures Consistent(cfg, Restarted(cfg, disk, clocks, openFails))
  {
    hide Keys, Terminated, IsApiKey, PathOf;
  }

  lemma LoadedOneConsistent(cfg: Config, s: System, k: ApiKey, clock: Clock)
    requires Consistent(cfg, s) && k in Registered(s)
    ensures Consistent(cfg, s.(tenants := s.tenants[k := LoadedTenant(cfg, s.disk, k, clock)]))
  {
  }

  lemma FlushedConsistent(cfg: Config, s: System, k: ApiKey, writeOk: bool)
    requires Consistent(cfg, s) && k in s.tenants
    ensures Consistent(cfg, Flushed(cfg, s, k, writeOk))
  {
    hide Keys, Terminated, IsApiKey;
    var s' := Flushed(cfg, s, k, writeOk);
    forall j | j in s'.tenants
      ensures WellFormed(s'.tenants[j], DirOf(cfg, s', j))
    {
      if j != k {
        OtherDirsStay(cfg, s.disk.dirs, k, Marked(DirOf(cfg, s, k), s.tenants[k].lastActive), j);
      }
    }
  }

  // ----- One tick of the reaper -----

  /** After some tenants have been dealt with, each of them looks as if it alone had been, and every other
      key looks as at the start. */
  ghost predicate ReapedSoFar(cfg: Config, start: System, s: System, dealt: set<ApiKey>, now: int, maxIdle: int,
                              faults: ReapFaults)
  {
    && dealt <= start.tenants.Keys
    && forall k :: StakeOf(cfg, s, k) ==
                   if k in dealt then StakeOf(cfg, ReapedOne(cfg, start, k, now, maxIdle, faults), k)
                   else StakeOf(cfg, start, k)
  }

  /** What happens to a tenant depends on nothing but itself. */
  lemma ReapingIsLocal(cfg: Config, s: System, t: System, k: ApiKey, now: int, maxIdle: int, faults: ReapFaults)
    requires k in s.tenants && StakeOf(cfg, s, k) == StakeOf(cfg, t, k)
    ensures k in t.tenants
    ensures StakeOf(cfg, ReapedOne(cfg, s, k, now, maxIdle, faults), k)
         == StakeOf(cfg, ReapedOne(cfg, t, k, now, maxIdle, faults), k)
  {
    hide Keys, Removed, Without, Idle, PathOf;
    ReadAfterRemove(s.disk.registry, k);
    ReadAfterRemove(t.disk.registry, k);
    RemovedIsAbsent(Registered(s), k);
    RemovedIsAbsent(Registered(t), k);
  }

  lemma RemovedIsAbsent(keys: seq<ApiKey>, k: ApiKey)
    ensures k !in Without(keys, k)
  {
  }

  lemma {:induction false} ReapedOneMore(cfg: Config, start: System, s: System, dealt: set<ApiKey>, k: ApiKey,
                                         now: int, maxIdle: int, faults: ReapFaults)
    requires ReapedSoFar(cfg, start, s, dealt, now, maxIdle, faults)
    requires k in start.tenants && k !in dealt
    ensures k in s.tenants && s.tenants[k] == start.tenants[k]
    ensures ReapedSoFar(cfg, start, ReapedOne(cfg, s, k, now, maxIdle, faults), dealt + {k}, now, maxIdle, faults)
  {
    hide ReapedOne;
    assert StakeOf(cfg, s, k) == StakeOf(cfg, start, k);
    assert s.tenants[k] == start.tenants[k];
    ReapingIsLocal(cfg, s, start, k, now, maxIdle, faults);
    forall j | j != k
      ensures StakeOf(cfg, ReapedOne(cfg, s, k, now, maxIdle, faults), j) == StakeOf(cfg, s, j)
    {
      ReapedOneIsolates(cfg, s, k, now, maxIdle, faults, j);
    }
  }

  /** The tenants a tick looks at. */
  function Reapable(s: System): set<ApiKey> {
    set k | k in s.tenants && s.tenants[k].state.Active?
  }

  lemma NothingReapedYet(cfg: Config, s: System, now: int, maxIdle: int, faults: ReapFaults)
    ensures ReapedSoFar(cfg, s, s, {}, now, maxIdle, faults)
  {
  }

  lemma ReapableAre(s: System, all: set<ApiKey>, now: int, maxIdle: int)
    requires forall k :: k in all <==> k in s.tenants && s.tenants[k].state.Active?
    ensures all == Reapable(s) && all <= s.tenants.Keys
    ensures forall k :: k in all ==> (k in Victims(s, now, maxIdle) <==> Idle(s.tenants[k].lastActive, now, maxIdle))
    ensures Victims(s, now, maxIdle) <= all
  {
  }

  /** A whole tick. */
  ghost predicate Reaped(cfg: Config, start: System, s: System, now: int, maxIdle: int, faults: ReapFaults) {
    ReapedSoFar(cfg, start, s, Reapable(start), now, maxIdle, faults)
  }

  /** A tick without failures removes exactly the active tenants idle for more than maxIdle, with all they
      had; it leaves every other key alone, except that an active tenant's marker now shows its clock. */
  lemma ReapRemovesExactlyIdle(cfg: Config, start: System, s: System, now: int, maxIdle: int, k: ApiKey)
    requires Reaped(cfg, start, s, now, maxIdle, NO_FAULTS)
    ensures k in Victims(start, now, maxIdle) ==> StakeOf(cfg, s, k) == Stake(false, None, None)
    ensures k in Reapable(start) && k !in Victims(start, now, maxIdle) ==>
      StakeOf(cfg, s, k) == StakeOf(cfg, start, k).(dir := Marked(DirOf(cfg, start, k), start.tenants[k].lastActive))
    ensures k !in Reapable(start) ==> StakeOf(cfg, s, k) == StakeOf(cfg, start, k)
    ensures s.tenants.Keys == start.tenants.Keys - Victims(start, now, maxIdle)
  {
    forall j
      ensures j in Victims(start, now, maxIdle) ==> StakeOf(cfg, s, j) == Stake(false, None, None)
      ensures j in Reapable(start) && j !in Victims(start, now, maxIdle) ==>
        StakeOf(cfg, s, j) == StakeOf(cfg, start, j).(dir := Marked(DirOf(cfg, start, j), start.tenants[j].lastActive))
      ensures j !in Reapable(start) ==> StakeOf(cfg, s, j) == StakeOf(cfg, start, j)
    {
      assert StakeOf(cfg, s, j) == if j in Reapable(start)
        then StakeOf(cfg, ReapedOne(cfg, start, j, now, maxIdle, NO_FAULTS), j) else StakeOf(cfg, start, j);
      ReadAfterRemove(start.disk.registry, j);
    }
    forall j
      ensures j in s.tenants <==> j in start.tenants && j !in Victims(start, now, maxIdle)
    {
      assert StakeOf(cfg, s, j).tenant.Some? <==> j in s.tenants;
      assert StakeOf(cfg, start, j).tenant.Some? <==> j in start.tenants;
    }
  }

  /** The same, said with the clocks: activity is known to the second, the tick comes n nanoseconds into a second,
      and maxIdle is a number of seconds. A tick without failures removes an active tenant, with all it had,
      exactly if more than that has passed; it keeps it otherwise, and shows the clock in its marker. Pending
      tenants it leaves alone. */
  lemma TickRemovesByTheClock(cfg: Config, start: System, s: System, sec: int, n: nat, idle: int, k: ApiKey)
    requires n < 1_000_000_000 && k in start.tenants
    requires Reaped(cfg, start, s, sec * 1_000_000_000 + n, idle * 1_000_000_000, NO_FAULTS)
    ensures var unused := sec - start.tenants[k].lastActive;
      k !in s.tenants <==> start.tenants[k].state.Active? && (unused > idle || (unused == idle && n > 0))
    ensures k in s.tenants ==> s.tenants[k] == start.tenants[k] && (k in Registered(s) <==> k in Registered(start))
    ensures k !in s.tenants ==> k !in Registered(s) && DirOf(cfg, s, k).None?
    ensures k in s.tenants && DirOf(cfg, start, k).Some? ==>
      var active, dir := start.tenants[k].state.Active?, DirOf(cfg, start, k).value;
      DirOf(cfg, s, k) == Some(if active then Dir(dir.store, Some(start.tenants[k].lastActive)) else dir)
  {
    hide Keys, PathOf, Reaped;
    var now, maxIdle := sec * 1_000_000_000 + n, idle * 1_000_000_000;
    ReapRemovesExactlyIdle(cfg, start, s, now, maxIdle, k);
    assert StakeOf(cfg, start, k).tenant == Some(start.tenants[k]);
    assert StakeOf(cfg, s, k).registered == (k in Registered(s));
    assert StakeOf(cfg, start, k).registered == (k in Registered(start));
    if k in s.tenants {
      assert StakeOf(cfg, s, k).tenant == Some(s.tenants[k]);
    }
  }
}
