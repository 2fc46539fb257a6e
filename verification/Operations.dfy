/** The operations of a server, with what fails in them and how the process may die in them, and their runs. */
module Operations {
  import opened Base
  import opened RateLimiter
  import opened Tenants
  import opened Registry
  import opened Databases
  import opened Systems

  // ----- Operations -----

  /** What can happen to a server. The parameters say what fails: a request's environment, what a removal
      leaves, whether the registry can be rewritten, the reaper's faults, the engines that do not open. */
  datatype Operation =
    | Ask(key: ApiKey, op: Op, env: Env)
    | Provision(key: ApiKey, clock: Clock)
    | Deprovision(key: ApiKey, removal: Removal, writeOk: bool)
    | Relimit(key: ApiKey, rl: RateLimitConfig, at: real)
    | Reap(key: ApiKey, now: int, maxIdle: int, faults: ReapFaults)
    | Restart(clocks: ApiKey -> Clock, openFails: set<ApiKey>)

  predicate About(o: Operation, k: ApiKey) {
    !o.Restart? && o.key == k
  }

  predicate IsActive(s: System, k: ApiKey) {
    k in s.tenants && s.tenants[k].state.Active?
  }

  /** What an operation that runs to its end leaves behind. */
  function Operated(cfg: Config, scan: Scan, s: System, o: Operation): System {
    match o
    case Ask(k, op, env) => Handled(cfg, scan, s, k, op, env).0
    case Provision(k, clock) => if k in s.tenants then s else Provisioned(cfg, s, k, clock.now, clock.unix)
    case Deprovision(k, removal, writeOk) => if k in s.tenants then Deprovisioned(cfg, s, k, removal, writeOk) else s
    case Relimit(k, rl, at) => if k in s.tenants then Relimited(s, k, rl, at) else s
    case Reap(k, now, maxIdle, faults) => if IsActive(s, k) then ReapedOne(cfg, s, k, now, maxIdle, faults) else s
    case Restart(clocks, openFails) => Restarted(cfg, s.disk, clocks, openFails)
  }

  /** A newly issued key has never been issued before. */
  ghost predicate Fresh(o: Operation, issued: set<ApiKey>) {
    o.Provision? ==> IsApiKey(o.key) && o.key !in issued
  }

  function Issued(o: Operation): set<ApiKey> {
    if o.Provision? then {o.key} else {}
  }

  /** A directory without data leaves none behind. */
  ghost predicate Sensible(s: System, o: Operation) {
    o.Deprovision? && o.key in s.tenants ==> Plausible(s.tenants[o.key], o.removal)
  }

  /** A registered key with a directory. */
  predicate HasTree(cfg: Config, d: Disk, k: ApiKey) {
    k in Keys(d.registry) && DirAt(d.dirs, PathOf(cfg, k)).Some?
  }

  /** No engine that a restart opens fails to open. */
  ghost predicate AllOpen(cfg: Config, d: Disk, openFails: set<ApiKey>) {
    forall k :: k in openFails ==> !HasTree(cfg, d, k)
  }

  // ----- Disk steps -----

  /** The steps in which operations change the disk. The registry is rewritten by renaming a finished file
      over it, so that is one step; the temporary file itself is never read. */
  datatype DiskStep =
    | AppendKey(key: ApiKey)
    | MakeDir(key: ApiKey)
    | WriteMarker(key: ApiKey, unix: int)
    | Store(key: ApiKey, op: Op)
    | RemoveTree(key: ApiKey, left: Option<Dir>)
    | RewriteWithout(key: ApiKey)

  function Stepped(cfg: Config, d: Disk, s: DiskStep): Disk {
    var dir := DirAt(d.dirs, PathOf(cfg, s.key));
    match s
    case AppendKey(k) => d.(registry := Appended(d.registry, k))
    case RewriteWithout(k) => d.(registry := Removed(d.registry, k))
    case MakeDir(k) => d.(dirs := WithDir(d.dirs, PathOf(cfg, k), MadeDir(dir)))
    case WriteMarker(k, unix) => d.(dirs := WithDir(d.dirs, PathOf(cfg, k), Marked(dir, unix)))
    case Store(k, op) => d.(dirs := WithDir(d.dirs, PathOf(cfg, k), Holding(dir, MapAfter(StoreOf(dir), op))))
    case RemoveTree(k, left) => d.(dirs := WithDir(d.dirs, PathOf(cfg, k), left))
  }

  function SteppedAll(cfg: Config, d: Disk, steps: seq<DiskStep>): Disk {
    if steps == [] then d else Stepped(cfg, SteppedAll(cfg, d, steps[..|steps| - 1]), steps[|steps| - 1])
  }

  /** The disk steps of an operation, in their order. */
  function DiskSteps(cfg: Config, scan: Scan, s: System, o: Operation): seq<DiskStep> {
    match o
    case Ask(k, op, env) => if k in s.tenants then RequestSteps(cfg, scan, s, k, op, env) else []
    case Provision(k, _) => if k in s.tenants then [] else [AppendKey(k)]
    case Deprovision(k, removal, writeOk) => if k in s.tenants then RemovalSteps(k, removal, writeOk) else []
    case Reap(k, now, maxIdle, faults) => if IsActive(s, k) then ReapSteps(s, k, now, maxIdle, faults) else []
    case _ => []
  }

  function RemovalSteps(k: ApiKey, removal: Removal, writeOk: bool): seq<DiskStep> {
    if removal.Cleared? && writeOk then [RemoveTree(k, None), RewriteWithout(k)] else [RemoveTree(k, LeftBy(removal))]
  }

  function ReapSteps(s: System, k: ApiKey, now: int, maxIdle: int, faults: ReapFaults): seq<DiskStep>
    requires k in s.tenants
  {
    var last := s.tenants[k].lastActive;
    (if k in faults.persist then [] else [WriteMarker(k, last)])
    + (if Idle(last, now, maxIdle) then RemovalSteps(k, RemovalOf(faults, k), k !in faults.rewrite) else [])
  }

  function RequestSteps(cfg: Config, scan: Scan, s: System, k: ApiKey, op: Op, env: Env): seq<DiskStep>
    requires k in s.tenants
  {
    var t := s.tenants[k];
    var o := Request(cfg.limits, scan, t, DirOf(cfg, s, k), op, env);
    var first := op.Put? && t.state.Pending? && Refusal(cfg.limits, op).None? && env.mkdirOk;
    (if first then [MakeDir(k)] else [])
    + (if first && env.openOk && env.markerOk then [WriteMarker(k, t.lastActive)] else [])
    + (if o.response.Ok? && o.tenant.state.Active? && (op.Put? || op.Delete?) then [Store(k, op)] else [])
  }

  // ----- What a step leaves alone -----

  ghost predicate ProperDisk(d: Disk) {
    Terminated(d.registry) && Distinct(Keys(d.registry)) && forall k :: k in Keys(d.registry) ==> IsApiKey(k)
  }

  /** A key is registered as before and has the directory it had. */
  predicate Untouched(cfg: Config, d: Disk, d': Disk, k: ApiKey) {
    && DirAt(d'.dirs, PathOf(cfg, k)) == DirAt(d.dirs, PathOf(cfg, k))
    && (k in Keys(d'.registry) <==> k in Keys(d.registry))
  }

  /** A step leaves every other key alone. */
  lemma StepIsolates(cfg: Config, d: Disk, s: DiskStep, j: ApiKey)
    requires ProperDisk(d) && j != s.key && (s.AppendKey? ==> IsApiKey(s.key))
    ensures Untouched(cfg, d, Stepped(cfg, d, s), j)
  {
    hide PathOf, Keys, Appended, Removed, Terminated, IsApiKey, Without;
    var d' := Stepped(cfg, d, s);
    SameDir(d.dirs, PathOf(cfg, s.key));
    OtherDirsStay(cfg, d.dirs, s.key, DirAt(d'.dirs, PathOf(cfg, s.key)), j);
    RegistryAfter(d, s, s.key);
  }

  lemma StepKeepsProper(cfg: Config, d: Disk, s: DiskStep)
    requires ProperDisk(d) && (s.AppendKey? ==> IsApiKey(s.key) && s.key !in Keys(d.registry))
    ensures ProperDisk(Stepped(cfg, d, s))
  {
    hide PathOf, Keys, Appended, Removed, Terminated, IsApiKey, Without;
    RegistryAfter(d, s, s.key);
  }

  lemma RegistryAfter(d: Disk, s: DiskStep, k: ApiKey)
    requires ProperDisk(d)
    ensures s == AppendKey(k) && IsApiKey(k) ==>
      Keys(Appended(d.registry, k)) == Keys(d.registry) + [k] && Terminated(Appended(d.registry, k))
    ensures s == RewriteWithout(k) ==> Terminated(Removed(d.registry, k)) && Distinct(Keys(Removed(d.registry, k)))
    ensures s == RewriteWithout(k) ==>
      forall j :: j in Keys(Removed(d.registry, k)) <==> j in Keys(d.registry) && j != k
  {
    if IsApiKey(k) {
      ApiKeysAreLines(k);
      ReadAfterAppend(d.registry, k);
    }
    ReadAfterRemove(d.registry, k);
    WithoutKeepsDistinct(Keys(d.registry), k);
  }

  // ----- The steps of a request -----

  /** What the steps of a request do to its own directory. */
  function DirStepped(dir: Option<Dir>, s: DiskStep): Option<Dir> {
    match s
    case MakeDir(_) => MadeDir(dir)
    case WriteMarker(_, unix) => Marked(dir, unix)
    case Store(_, op) => Holding(dir, MapAfter(StoreOf(dir), op))
    case _ => dir
  }

  function DirAfter(dir: Option<Dir>, steps: seq<DiskStep>): Option<Dir> {
    if steps == [] then dir else DirStepped(DirAfter(dir, steps[..|steps| - 1]), steps[|steps| - 1])
  }

  lemma DirAfterOneMore(dir: Option<Dir>, steps: seq<DiskStep>, more: seq<DiskStep>)
    requires |more| <= 1
    ensures DirAfter(dir, steps + more)
         == if more == [] then DirAfter(dir, steps) else DirStepped(DirAfter(dir, steps), more[0])
  {
    if more == [] {
      assert steps + more == steps;
    } else {
      assert (steps + more)[..|steps + more| - 1] == steps;
    }
  }

  ghost predicate OnlyDir(k: ApiKey, steps: seq<DiskStep>) {
    forall i :: 0 <= i < |steps| ==>
      steps[i].key == k && (steps[i].MakeDir? || steps[i].WriteMarker? || steps[i].Store?)
  }

  lemma {:induction false} StepsStayInDir(cfg: Config, d: Disk, k: ApiKey, steps: seq<DiskStep>)
    requires OnlyDir(k, steps)
    ensures var p := PathOf(cfg, k);
      SteppedAll(cfg, d, steps) == d.(dirs := WithDir(d.dirs, p, DirAfter(DirAt(d.dirs, p), steps)))
  {
    hide PathOf;
    SameDir(d.dirs, PathOf(cfg, k));
    if steps != [] {
      StepsStayInDir(cfg, d, k, steps[..|steps| - 1]);
    }
  }

  /** A request's steps amount to what Request does to the directory. */
  lemma RequestStepsAddUp(cfg: Config, scan: Scan, s: System, k: ApiKey, op: Op, env: Env)
    requires k in s.tenants && WellFormed(s.tenants[k], DirOf(cfg, s, k))
    ensures OnlyDir(k, RequestSteps(cfg, scan, s, k, op, env))
    ensures DirAfter(DirOf(cfg, s, k), RequestSteps(cfg, scan, s, k, op, env))
         == Request(cfg.limits, scan, s.tenants[k], DirOf(cfg, s, k), op, env).dir
  {
    hide PathOf, Refusal, UpFrontCost, MapAnswer, Settled, DirAfter;
    var t, dir := s.tenants[k], DirOf(cfg, s, k);
    var o := Request(cfg.limits, scan, t, dir, op, env);
    var first := op.Put? && t.state.Pending? && Refusal(cfg.limits, op).None? && env.mkdirOk;
    var making := if first then [MakeDir(k)] else [];
    var marking := if first && env.openOk && env.markerOk then [WriteMarker(k, t.lastActive)] else [];
    var storing := if o.response.Ok? && o.tenant.state.Active? && (op.Put? || op.Delete?) then [Store(k, op)] else [];
    assert [] + making == making;
    DirAfterNone(dir);
    DirAfterOneMore(dir, [], making);
    DirAfterOneMore(dir, making, marking);
    DirAfterOneMore(dir, making + marking, storing);
    HoldingItself(dir);
  }

  lemma DirAfterNone(dir: Option<Dir>)
    ensures DirAfter(dir, []) == dir
  {
  }

  // ----- Sound states -----

  /** Every data directory belongs to a registered key. */
  ghost predicate NoOrphan(cfg: Config, d: Disk) {
    forall k :: k !in Keys(d.registry) ==> DirAt(d.dirs, PathOf(cfg, k)).None?
  }

  /** A consistent server of which only issued keys are registered and only registered keys have a directory. */
  ghost predicate Sound(cfg: Config, s: System, issued: set<ApiKey>) {
    && Consistent(cfg, s)
    && (forall k :: k in Registered(s) ==> k in issued)
    && NoOrphan(cfg, s.disk)
  }

  lemma SoundDisk(cfg: Config, s: System, issued: set<ApiKey>)
    requires Sound(cfg, s, issued)
    ensures ProperDisk(s.disk) && NoOrphan(cfg, s.disk)
    ensures forall k :: k in s.tenants ==> k in Registered(s)
    ensures forall k :: k in Registered(s) ==> k in issued
  {
  }

  /** All the disk steps of an operation lead to the disk it is said to leave behind. */
  lemma StepsComplete(cfg: Config, scan: Scan, s: System, issued: set<ApiKey>, o: Operation)
    requires Sound(cfg, s, issued)
    ensures SteppedAll(cfg, s.disk, DiskSteps(cfg, scan, s, o)) == Operated(cfg, scan, s, o).disk
  {
    hide PathOf, Keys, Appended, Removed, Request, Terminated, IsApiKey, RequestSteps, SteppedAll, DirAfter, Idle,
      RemovalSteps, ReapSteps, Deprovisioned, ReapedOne;
    var d, steps := s.disk, DiskSteps(cfg, scan, s, o);
    SteppedNone(cfg, d);
    match o
    case Ask(k, op, env) =>
      if k in s.tenants {
        RequestStepsAddUp(cfg, scan, s, k, op, env);
        StepsStayInDir(cfg, d, k, steps);
      }
    case Provision(k, _) => if k !in s.tenants { SteppedFewer(cfg, d, steps); }
    case Deprovision(k, removal, writeOk) => if k in s.tenants { RemovalComplete(cfg, s, k, removal, writeOk); }
    case Reap(k, now, maxIdle, faults) => if IsActive(s, k) { ReapComplete(cfg, s, k, now, maxIdle, faults); }
    case _ =>
  }

  lemma RemovalComplete(cfg: Config, s: System, k: ApiKey, removal: Removal, writeOk: bool)
    requires k in s.tenants
    ensures SteppedAll(cfg, s.disk, RemovalSteps(k, removal, writeOk))
         == Deprovisioned(cfg, s, k, removal, writeOk).disk
  {
    hide PathOf, Removed, SteppedAll;
    SteppedFewer(cfg, s.disk, RemovalSteps(k, removal, writeOk));
  }

  lemma ReapComplete(cfg: Config, s: System, k: ApiKey, now: int, maxIdle: int, faults: ReapFaults)
    requires k in s.tenants
    ensures SteppedAll(cfg, s.disk, ReapSteps(s, k, now, maxIdle, faults))
         == ReapedOne(cfg, s, k, now, maxIdle, faults).disk
  {
    hide PathOf, Removed, SteppedAll, Idle;
    var steps := ReapSteps(s, k, now, maxIdle, faults);
    SteppedNone(cfg, s.disk);
    if steps != [] {
      SteppedFewer(cfg, s.disk, steps);
    }
  }

  lemma SteppedNone(cfg: Config, d: Disk)
    ensures SteppedAll(cfg, d, []) == d
  {
  }

  lemma SteppedFewer(cfg: Config, d: Disk, steps: seq<DiskStep>)
    requires 1 <= |steps| <= 3
    ensures SteppedAll(cfg, d, steps[..1]) == Stepped(cfg, d, steps[0])
    ensures |steps| >= 2 ==> SteppedAll(cfg, d, steps[..2]) == Stepped(cfg, Stepped(cfg, d, steps[0]), steps[1])
    ensures |steps| == 3 ==>
      SteppedAll(cfg, d, steps[..3]) == Stepped(cfg, Stepped(cfg, Stepped(cfg, d, steps[0]), steps[1]), steps[2])
    ensures steps[..|steps|] == steps
  {
    hide Stepped;
    assert steps[..1][..0] == [];
    if |steps| >= 2 { assert steps[..2][..1] == steps[..1]; }
    if |steps| == 3 { assert steps[..3][..2] == steps[..2]; }
  }

  // ----- An operation cut short -----

  /** Steps that concern one key and issue it at most once, at the start. */
  ghost predicate Concern(d: Disk, k: ApiKey, steps: seq<DiskStep>) {
    forall i :: 0 <= i < |steps| ==>
      steps[i].key == k && (steps[i].AppendKey? ==> i == 0 && IsApiKey(k) && k !in Keys(d.registry))
  }

  lemma CutIsConcern(cfg: Config, scan: Scan, s: System, issued: set<ApiKey>, o: Operation, n: nat)
    requires Sound(cfg, s, issued) && Fresh(o, issued) && !o.Restart?
    requires n <= |DiskSteps(cfg, scan, s, o)|
    ensures Concern(s.disk, o.key, DiskSteps(cfg, scan, s, o)[..n])
  {
    hide PathOf, Keys, Request, RequestSteps, IsApiKey;
    if o.Ask? && o.key in s.tenants {
      RequestStepsAddUp(cfg, scan, s, o.key, o.op, o.env);
    }
  }

  lemma {:induction false} StepsIsolate(cfg: Config, d: Disk, k: ApiKey, steps: seq<DiskStep>, j: ApiKey)
    requires ProperDisk(d) && Concern(d, k, steps)
    ensures ProperDisk(SteppedAll(cfg, d, steps))
    ensures j != k ==> Untouched(cfg, d, SteppedAll(cfg, d, steps), j)
  {
    hide PathOf, Keys, ProperDisk, IsApiKey, Stepped;
    if steps != [] {
      var before := steps[..|steps| - 1];
      var d1 := SteppedAll(cfg, d, before);
      StepsIsolate(cfg, d, k, before, j);
      StepKeepsProper(cfg, d1, steps[|steps| - 1]);
      if j != k {
        StepIsolates(cfg, d1, steps[|steps| - 1], j);
      }
    }
  }

  /** The disk that an operation leaves when it is cut after n of its steps. */
  function CutDisk(cfg: Config, scan: Scan, s: System, o: Operation, n: nat): Disk {
    var steps := DiskSteps(cfg, scan, s, o);
    SteppedAll(cfg, s.disk, steps[..if n <= |steps| then n else |steps|])
  }

  /** Wherever an operation is cut, all keys but its own are untouched. */
  lemma CutIsolates(cfg: Config, scan: Scan, s: System, issued: set<ApiKey>, o: Operation, n: nat, j: ApiKey)
    requires Sound(cfg, s, issued) && Fresh(o, issued)
    ensures ProperDisk(CutDisk(cfg, scan, s, o, n))
    ensures !About(o, j) ==> Untouched(cfg, s.disk, CutDisk(cfg, scan, s, o, n), j)
  {
    hide Sound, Fresh, ProperDisk, Keys, PathOf, Concern;
    SoundDisk(cfg, s, issued);
    if o.Restart? {
      SteppedNone(cfg, s.disk);
    } else {
      var steps := DiskSteps(cfg, scan, s, o);
      var m := if n <= |steps| then n else |steps|;
      CutIsConcern(cfg, scan, s, issued, o, m);
      StepsIsolate(cfg, s.disk, o.key, steps[..m], j);
    }
  }

  /** Cut after its last step, it has done all to the disk that it does. */
  lemma CutAtEnd(cfg: Config, scan: Scan, s: System, issued: set<ApiKey>, o: Operation)
    requires Sound(cfg, s, issued)
    ensures CutDisk(cfg, scan, s, o, |DiskSteps(cfg, scan, s, o)|) == Operated(cfg, scan, s, o).disk
  {
    hide Sound, DiskSteps, SteppedAll, Operated;
    var steps := DiskSteps(cfg, scan, s, o);
    assert steps[..|steps|] == steps;
    StepsComplete(cfg, scan, s, issued, o);
  }

  /** Wherever an operation is cut, it leaves no directory without a registered key: the tree goes before the
      key. */
  lemma CutLeavesNoOrphan(cfg: Config, scan: Scan, s: System, issued: set<ApiKey>, o: Operation, n: nat)
    requires Sound(cfg, s, issued) && Fresh(o, issued)
    ensures NoOrphan(cfg, CutDisk(cfg, scan, s, o, n))
  {
    hide Sound, Fresh, CutDisk, PathOf, Keys;
    var d' := CutDisk(cfg, scan, s, o, n);
    SoundDisk(cfg, s, issued);
    forall j | j !in Keys(d'.registry)
      ensures DirAt(d'.dirs, PathOf(cfg, j)).None?
    {
      if About(o, j) {
        TreeBeforeKey(cfg, scan, s, issued, o, n);
      } else {
        CutIsolates(cfg, scan, s, issued, o, n, j);
      }
    }
  }

  lemma TreeBeforeKey(cfg: Config, scan: Scan, s: System, issued: set<ApiKey>, o: Operation, n: nat)
    requires Sound(cfg, s, issued) && Fresh(o, issued) && !o.Restart?
    ensures var d' := CutDisk(cfg, scan, s, o, n);
      o.key !in Keys(d'.registry) ==> DirAt(d'.dirs, PathOf(cfg, o.key)).None?
  {
    hide PathOf, Keys, Appended, Removed, Request, IsApiKey, RequestSteps, SteppedAll, DirAfter, WellFormed, Terminated,
      Idle;
    var k, d, steps := o.key, s.disk, DiskSteps(cfg, scan, s, o);
    var m := if n <= |steps| then n else |steps|;
    SteppedNone(cfg, d);
    if m == 0 {
      assert steps[..m] == [];
    } else if o.Ask? {
      AskKeepsRegistry(cfg, scan, s, k, o.op, o.env, m);
    } else {
      SteppedFewer(cfg, d, steps);
      if o.Provision? { RegistryAfter(d, steps[0], k); }
    }
  }

  lemma AskKeepsRegistry(cfg: Config, scan: Scan, s: System, k: ApiKey, op: Op, env: Env, n: nat)
    requires k in s.tenants && WellFormed(s.tenants[k], DirOf(cfg, s, k))
    requires n <= |RequestSteps(cfg, scan, s, k, op, env)|
    ensures SteppedAll(cfg, s.disk, RequestSteps(cfg, scan, s, k, op, env)[..n]).registry == s.disk.registry
  {
    hide PathOf, Request, RequestSteps, SteppedAll, DirAfter, WellFormed;
    RequestStepsAddUp(cfg, scan, s, k, op, env);
    StepsStayInDir(cfg, s.disk, k, RequestSteps(cfg, scan, s, k, op, env)[..n]);
  }

  // ----- Runs -----

  /** An operation that ran to its end, or one that was cut after some of its disk steps and was followed by a
      restart. */
  datatype Event =
    | Whole(operation: Operation)
    | Cut(operation: Operation, steps: nat, clocks: ApiKey -> Clock, openFails: set<ApiKey>)

  function After(cfg: Config, scan: Scan, s: System, e: Event): System {
    match e
    case Whole(o) => Operated(cfg, scan, s, o)
    case Cut(o, n, clocks, openFails) => Restarted(cfg, CutDisk(cfg, scan, s, o, n), clocks, openFails)
  }

  function Run(cfg: Config, scan: Scan, events: seq<Event>): System {
    if events == [] then EMPTY
    else After(cfg, scan, Run(cfg, scan, events[..|events| - 1]), events[|events| - 1])
  }

  lemma RunOneMore(cfg: Config, scan: Scan, events: seq<Event>, e: Event)
    ensures Run(cfg, scan, events + [e]) == After(cfg, scan, Run(cfg, scan, events), e)
  {
    assert (events + [e])[..|events|] == events;
  }

  function IssuedBy(events: seq<Event>): set<ApiKey> {
    if events == [] then {} else IssuedBy(events[..|events| - 1]) + Issued(events[|events| - 1].operation)
  }

  /** No key is generated twice, and no removal makes data appear. */
  ghost predicate Proper(cfg: Config, scan: Scan, events: seq<Event>) {
    forall i :: 0 <= i < |events| ==>
      Fresh(events[i].operation, IssuedBy(events[..i])) && Sensible(Run(cfg, scan, events[..i]), events[i].operation)
  }

  lemma ProperPrefix(cfg: Config, scan: Scan, events: seq<Event>, n: nat)
    requires Proper(cfg, scan, events) && n <= |events|
    ensures Proper(cfg, scan, events[..n])
  {
    hide Fresh, Sensible;
    assert forall i :: 0 <= i < n ==> events[..n][..i] == events[..i];
  }

  lemma OperatedConsistent(cfg: Config, scan: Scan, s: System, issued: set<ApiKey>, o: Operation)
    requires Sound(cfg, s, issued) && Fresh(o, issued) && Sensible(s, o)
    ensures Consistent(cfg, Operated(cfg, scan, s, o))
  {
    hide Handled, Provisioned, Deprovisioned, Keys, PathOf, IsApiKey, WellFormed;
    match o
    case Ask(k, op, env) => HandledConsistent(cfg, scan, s, k, op, env);
    case Provision(k, clock) => ProvisionedConsistent(cfg, s, k, clock.now, clock.unix);
    case Deprovision(k, removal, writeOk) =>
      if k in s.tenants {
        DeprovisionedConsistent(cfg, s, k, removal, writeOk);
      }
    case Relimit(k, rl, at) =>
      if k in s.tenants {
        RelimitedConsistent(cfg, s, k, rl, at);
      }
    case Reap(k, now, maxIdle, faults) =>
      if IsActive(s, k) {
        var flushed := Flushed(cfg, s, k, k !in faults.persist);
        FlushedConsistent(cfg, s, k, k !in faults.persist);
        DeprovisionedConsistent(cfg, flushed, k, RemovalOf(faults, k), k !in faults.rewrite);
      }
    case Restart(clocks, openFails) => RestartedConsistent(cfg, s.disk, clocks, openFails);
  }

  lemma EventStaysSound(cfg: Config, scan: Scan, s: System, issued: set<ApiKey>, e: Event)
    requires Sound(cfg, s, issued) && Fresh(e.operation, issued) && Sensible(s, e.operation)
    ensures Sound(cfg, After(cfg, scan, s, e), issued + Issued(e.operation))
  {
    hide PathOf, Keys, CutDisk, DiskSteps, Operated, Terminated, IsApiKey, WellFormed, Fresh, Consistent;
    var o, s' := e.operation, After(cfg, scan, s, e);
    var n := if e.Whole? then |DiskSteps(cfg, scan, s, o)| else e.steps;
    CutAtEnd(cfg, scan, s, issued, o);
    assert s'.disk == CutDisk(cfg, scan, s, o, n);
    CutLeavesNoOrphan(cfg, scan, s, issued, o, n);
    forall j | j in Registered(s') && j !in Issued(o)
      ensures j in issued
    {
      OnlyIssuedRegistered(cfg, scan, s, issued, o, n, j);
    }
    match e
    case Whole(_) => OperatedConsistent(cfg, scan, s, issued, o);
    case Cut(_, _, clocks, openFails) =>
      CutIsolates(cfg, scan, s, issued, o, n, "");
      RestartedConsistent(cfg, s'.disk, clocks, openFails);
  }

  lemma OnlyIssuedRegistered(cfg: Config, scan: Scan, s: System, issued: set<ApiKey>, o: Operation, n: nat, j: ApiKey)
    requires Sound(cfg, s, issued) && Fresh(o, issued)
    requires j in Keys(CutDisk(cfg, scan, s, o, n).registry) && j !in Issued(o)
    ensures j in issued
  {
    hide PathOf, Keys, CutDisk, Fresh, Sound;
    SoundDisk(cfg, s, issued);
    if !About(o, j) {
      CutIsolates(cfg, scan, s, issued, o, n, j);
    } else if j !in s.tenants {
      NothingToDo(cfg, scan, s, o, n);
    }
  }

  lemma NothingToDo(cfg: Config, scan: Scan, s: System, o: Operation, n: nat)
    requires !o.Restart? && !o.Provision? && o.key !in s.tenants
    ensures CutDisk(cfg, scan, s, o, n) == s.disk
  {
    SteppedNone(cfg, s.disk);
  }

  /** After every run of operations, failures and crashes the server is sound. */
  lemma {:induction false} RunIsSound(cfg: Config, scan: Scan, events: seq<Event>)
    requires Proper(cfg, scan, events)
    ensures Sound(cfg, Run(cfg, scan, events), IssuedBy(events))
  {
    hide Sound, After, Fresh, Sensible, Proper;
    if events == [] {
      EmptyIsSound(cfg);
    } else {
      var n := |events| - 1;
      ProperPrefix(cfg, scan, events, n);
      RunIsSound(cfg, scan, events[..n]);
      ProperAt(cfg, scan, events, n);
      EventStaysSound(cfg, scan, Run(cfg, scan, events[..n]), IssuedBy(events[..n]), events[n]);
    }
  }

  lemma ProperAt(cfg: Config, scan: Scan, events: seq<Event>, i: nat)
    requires Proper(cfg, scan, events) && i < |events|
    ensures Fresh(events[i].operation, IssuedBy(events[..i]))
    ensures Sensible(Run(cfg, scan, events[..i]), events[i].operation)
  {
  }

  lemma EmptyIsSound(cfg: Config)
    ensures Sound(cfg, EMPTY, {})
  {
  }

  /** What the i-th event finds and what it leaves. */
  lemma EventAt(cfg: Config, scan: Scan, events: seq<Event>, i: nat)
    requires Proper(cfg, scan, events) && i < |events|
    ensures Sound(cfg, Run(cfg, scan, events[..i]), IssuedBy(events[..i]))
    ensures Fresh(events[i].operation, IssuedBy(events[..i]))
    ensures Sensible(Run(cfg, scan, events[..i]), events[i].operation)
    ensures Run(cfg, scan, events[..i + 1]) == After(cfg, scan, Run(cfg, scan, events[..i]), events[i])
    ensures IssuedBy(events[..i + 1]) == IssuedBy(events[..i]) + Issued(events[i].operation)
  {
    hide Sound, After, Fresh, Sensible, Proper;
    ProperPrefix(cfg, scan, events, i);
    RunIsSound(cfg, scan, events[..i]);
    ProperAt(cfg, scan, events, i);
    assert events[..i + 1][..i] == events[..i];
  }
}
