/** Under which rate limit a tenant is, and what its activity clock shows, told from the events of a run. */
module Settings {
  import opened Base
  import opened Tenants
  import opened Registry
  import opened Databases
  import opened Systems
  import opened Operations
  import opened Usage

  // ----- What the events say -----

  predicate StartsProcess(e: Event) {
    e.Cut? || e.operation.Restart?
  }

  predicate MakesTenant(s: System, e: Event, k: ApiKey) {
    e.Whole? && e.operation.Provision? && e.operation.key == k && k !in s.tenants
  }

  predicate SetsLimit(s: System, e: Event, k: ApiKey) {
    e.Whole? && e.operation.Relimit? && e.operation.key == k && k in s.tenants
  }

  function LimitAfter(cfg: Config, s: System, e: Event, k: ApiKey, before: RateLimiter.RateLimitConfig)
    : RateLimiter.RateLimitConfig
  {
    if SetsLimit(s, e, k) then e.operation.rl
    else if StartsProcess(e) || MakesTenant(s, e, k) then cfg.rateLimit
    else before
  }

  /** The limit that the latest event to install one for k names: its own, or the server's for a new tenant and a
      new process. */
  function LatestLimit(cfg: Config, scan: Scan, events: seq<Event>, k: ApiKey): RateLimiter.RateLimitConfig {
    if events == [] then cfg.rateLimit
    else
      var n := |events| - 1;
      LimitAfter(cfg, Run(cfg, scan, events[..n]), events[n], k, LatestLimit(cfg, scan, events[..n], k))
  }

  /** When an event installs a limit for k. */
  function InstallsAt(s: System, e: Event, k: ApiKey): Option<real> {
    if SetsLimit(s, e, k) then Some(e.operation.at)
    else if StartsProcess(e) then Some(ClockOf(e, k).now)
    else if MakesTenant(s, e, k) then Some(e.operation.clock.now)
    else None
  }

  function ClockAfter(cfg: Config, scan: Scan, s: System, e: Event, k: ApiKey, before: Option<int>): Option<int> {
    if Uses(cfg, scan, s, e, k) then Some(e.operation.env.unix)
    else if StartsProcess(e) then
      var marker := MarkerOf(DirAt(RestartDisk(cfg, scan, s, e).value.dirs, PathOf(cfg, k)));
      if marker.Some? then marker else Some(ClockOf(e, k).unix)
    else if MakesTenant(s, e, k) then Some(e.operation.clock.unix)
    else before
  }

  /** The second of the latest use, provision or start of the process, which reads it from the marker if there is
      one. */
  function LatestActivity(cfg: Config, scan: Scan, events: seq<Event>, k: ApiKey): Option<int> {
    if events == [] then None
    else
      var n := |events| - 1;
      ClockAfter(cfg, scan, Run(cfg, scan, events[..n]), events[n], k, LatestActivity(cfg, scan, events[..n], k))
  }

  // ----- What the tenants show -----

  ghost predicate Under(s: System, k: ApiKey, rl: RateLimiter.RateLimitConfig) {
    k in s.tenants ==>
      var t := s.tenants[k];
      t.rateLimit == rl && t.bucket.capacity == rl.capacityBytes && t.bucket.refillPerSec == rl.refillBytesPerSec
  }

  ghost predicate Shows(s: System, k: ApiKey, clock: Option<int>) {
    k in s.tenants ==> clock == Some(s.tenants[k].lastActive)
  }

  lemma EventKeepsLimit(cfg: Config, scan: Scan, s: System, e: Event, k: ApiKey, rl: RateLimiter.RateLimitConfig)
    requires Under(s, k, rl)
    ensures var s', rl' := After(cfg, scan, s, e), LimitAfter(cfg, s, e, k, rl);
      && Under(s', k, rl')
      && (k in s'.tenants && InstallsAt(s, e, k).Some? ==>
            var at := InstallsAt(s, e, k).value;
            s'.tenants[k].bucket
            == RateLimiter.Bucket(rl'.capacityBytes, rl'.capacityBytes, rl'.refillBytesPerSec, at))
  {
    hide Keys, PathOf, Appended, Removed, Request, Idle, CutDisk;
    var o := e.operation;
    if e.Whole? && o.Ask? && o.key in s.tenants {
      RequestKeepsLimit(cfg.limits, scan, s.tenants[o.key], DirOf(cfg, s, o.key), o.op, o.env);
    }
  }

  lemma RequestKeepsLimit(limits: Limits, scan: Scan, t: Tenant, dir: Option<Dir>, op: Op, env: Env)
    ensures var t' := Request(limits, scan, t, dir, op, env).tenant;
      && t'.rateLimit == t.rateLimit
      && t'.bucket.capacity == t.bucket.capacity && t'.bucket.refillPerSec == t.bucket.refillPerSec
  {
  }

  lemma EventKeepsClock(cfg: Config, scan: Scan, s: System, e: Event, k: ApiKey, clock: Option<int>)
    requires Shows(s, k, clock)
    ensures Shows(After(cfg, scan, s, e), k, ClockAfter(cfg, scan, s, e, k, clock))
  {
    hide Keys, PathOf, Appended, Removed, Request, Idle, CutDisk, Admitted;
    var o := e.operation;
    if StartsProcess(e) {
      RestartIs(cfg, scan, s, e);
    } else if o.Ask? && o.key in s.tenants {
      OnlyAdmittedRequestsTouch(cfg.limits, scan, s.tenants[o.key], DirOf(cfg, s, o.key), o.op, o.env);
    }
  }

  /** After every run, with any failures, crashes and restarts, every tenant in memory is under the limit that the
      latest installation named, its bucket has that capacity and refill, and its clock shows its latest
      activity. */
  lemma {:induction false} SettingsAreLatest(cfg: Config, scan: Scan, events: seq<Event>, k: ApiKey)
    ensures Under(Run(cfg, scan, events), k, LatestLimit(cfg, scan, events, k))
    ensures Shows(Run(cfg, scan, events), k, LatestActivity(cfg, scan, events, k))
  {
    hide Under, Shows, After, LimitAfter, ClockAfter;
    if events == [] {
      EmptyUnder(cfg, k);
    } else {
      var n := |events| - 1;
      SettingsAreLatest(cfg, scan, events[..n], k);
      EventKeepsLimit(cfg, scan, Run(cfg, scan, events[..n]), events[n], k, LatestLimit(cfg, scan, events[..n], k));
      EventKeepsClock(cfg, scan, Run(cfg, scan, events[..n]), events[n], k, LatestActivity(cfg, scan, events[..n], k));
    }
  }

  lemma EmptyUnder(cfg: Config, k: ApiKey)
    ensures Under(EMPTY, k, cfg.rateLimit) && Shows(EMPTY, k, None)
  {
  }

  /** Right after an event that installs a limit, the bucket is full, of that limit, from that time on. */
  lemma InstalledFull(cfg: Config, scan: Scan, events: seq<Event>, e: Event, k: ApiKey)
    requires k in Run(cfg, scan, events + [e]).tenants && InstallsAt(Run(cfg, scan, events), e, k).Some?
    ensures var rl, at := LatestLimit(cfg, scan, events + [e], k), InstallsAt(Run(cfg, scan, events), e, k).value;
      Run(cfg, scan, events + [e]).tenants[k].bucket
      == RateLimiter.Bucket(rl.capacityBytes, rl.capacityBytes, rl.refillBytesPerSec, at)
  {
    hide Under, After, LimitAfter;
    SettingsAreLatest(cfg, scan, events, k);
    RunOneMore(cfg, scan, events, e);
    assert (events + [e])[..|events|] == events;
    EventKeepsLimit(cfg, scan, Run(cfg, scan, events), e, k, LatestLimit(cfg, scan, events, k));
  }
}
