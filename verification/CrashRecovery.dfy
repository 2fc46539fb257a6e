/** What survives when operations fail half way, the process dies between any two disk steps, and is started
    again. */
module CrashRecovery {
  import opened Base
  import opened Tenants
  import opened Registry
  import opened Databases
  import opened Systems
  import opened Operations

  // ----- What the disk holds -----

  /** The data of a registered key; a missing directory is an empty store. */
  function Held(cfg: Config, d: Disk, k: ApiKey): Option<Base.Store> {
    if k in Keys(d.registry) then Some(StoreOf(DirAt(d.dirs, PathOf(cfg, k)))) else None
  }

  // ----- What an operation makes of it -----

  /** The operation removes the tenant: it is there and, if it is the reaper's turn, idle. */
  predicate Removes(s: System, o: Operation) {
    match o
    case Deprovision(k, _, _) => k in s.tenants
    case Reap(k, now, maxIdle, _) => IsActive(s, k) && Idle(s.tenants[k].lastActive, now, maxIdle)
    case _ => false
  }

  function RemovalIn(o: Operation): Removal
    requires o.Deprovision? || o.Reap?
  {
    if o.Deprovision? then o.removal else RemovalOf(o.faults, o.key)
  }

  predicate RewriteOk(o: Operation)
    requires o.Deprovision? || o.Reap?
  {
    if o.Deprovision? then o.writeOk else o.key !in o.faults.rewrite
  }

  /** What the caller can conclude from what it is told: all is done, nothing is, or the removal of a tenant
      failed somewhere. */
  datatype Verdict = Success | NoEffect | Unsure

  function VerdictOn(cfg: Config, scan: Scan, s: System, o: Operation): Verdict {
    match o
    case Ask(k, op, env) => if Handled(cfg, scan, s, k, op, env).1.Ok? then Success else NoEffect
    case Provision(k, _) => if k in s.tenants then NoEffect else Success
    case Deprovision(_, _, _) => RemovalVerdict(s, o)
    case Reap(_, _, _, _) => RemovalVerdict(s, o)
    case _ => NoEffect
  }

  function RemovalVerdict(s: System, o: Operation): Verdict
    requires o.Deprovision? || o.Reap?
  {
    if !Removes(s, o) then NoEffect
    else if RemovalIn(o).Cleared? && RewriteOk(o) then Success
    else Unsure
  }

  /** What an operation makes of what its key held, if it succeeds. */
  function Granted(s: System, o: Operation, before: Option<Base.Store>): Option<Base.Store> {
    match o
    case Provision(_, _) => Some(map[])
    case Ask(_, op, _) => if before.Some? then Some(MapAfter(before.value, op)) else None
    case _ => if Removes(s, o) then None else before
  }

  /** What may be left of the key of an operation that was cut short or failed: what it held before or what it
      would hold after; of a tenant being removed, also an empty store, or what a failing removal left. */
  predicate Partly(s: System, o: Operation, before: Option<Base.Store>, after: Option<Base.Store>) {
    || after == before
    || after == Granted(s, o, before)
    || (Removes(s, o) && before.Some? && after.Some? && Reduces(o, after.value))
  }

  predicate Reduces(o: Operation, left: Base.Store) {
    (o.Deprovision? || o.Reap?) && (left == map[] || left == StoreOf(LeftBy(RemovalIn(o))))
  }

  /** Wherever an operation is cut, its key holds one of the few things it may. */
  lemma CutLeavesPart(cfg: Config, scan: Scan, s: System, issued: set<ApiKey>, o: Operation, n: nat)
    requires Sound(cfg, s, issued) && Fresh(o, issued) && EmptyScansEmpty(scan) && !o.Restart?
    ensures Partly(s, o, Held(cfg, s.disk, o.key), Held(cfg, CutDisk(cfg, scan, s, o, n), o.key))
  {
    hide PathOf, Keys, Appended, Removed, Request, Terminated, IsApiKey, RequestSteps, SteppedAll, DirAfter,
      Idle, WellFormed;
    var k, d, steps := o.key, s.disk, DiskSteps(cfg, scan, s, o);
    var m := if n <= |steps| then n else |steps|;
    SteppedNone(cfg, d);
    SoundDisk(cfg, s, issued);
    if m == 0 {
      assert steps[..m] == [];
    } else if o.Ask? {
      AskLeavesPart(cfg, scan, s, k, o.op, o.env, m);
    } else {
      SteppedFewer(cfg, d, steps);
      StepLeaves(cfg, d, steps[0]);
      if m > 1 { StepLeaves(cfg, Stepped(cfg, d, steps[0]), steps[1]); }
      if m > 2 { StepLeaves(cfg, Stepped(cfg, Stepped(cfg, d, steps[0]), steps[1]), steps[2]); }
    }
  }

  /** What each step makes of what its key holds. */
  lemma StepLeaves(cfg: Config, d: Disk, s: DiskStep)
    requires ProperDisk(d) && !s.Store? && !s.MakeDir?
    requires s.AppendKey? ==> IsApiKey(s.key) && s.key !in Keys(d.registry)
    ensures ProperDisk(Stepped(cfg, d, s))
    ensures var before, after := Held(cfg, d, s.key), Held(cfg, Stepped(cfg, d, s), s.key);
      match s
      case AppendKey(k) => after == Some(StoreOf(DirAt(d.dirs, PathOf(cfg, k))))
      case WriteMarker(_, _) => after == before
      case RemoveTree(_, left) => after == if before.Some? then Some(StoreOf(left)) else None
      case RewriteWithout(_) => after == None
      case _ => true
  {
    hide PathOf, Keys, Terminated, Removed, Appended, IsApiKey;
    StepKeepsProper(cfg, d, s);
    RegistryAfter(d, s, s.key);
    SameDir(d.dirs, PathOf(cfg, s.key));
  }

  /** The only step of a request that changes stored data is its last. */
  lemma AskLeavesPart(cfg: Config, scan: Scan, s: System, k: ApiKey, op: Op, env: Env, n: nat)
    requires k in s.tenants && WellFormed(s.tenants[k], DirOf(cfg, s, k)) && EmptyScansEmpty(scan)
    requires k in Registered(s)
    requires n <= |RequestSteps(cfg, scan, s, k, op, env)|
    ensures var d' := SteppedAll(cfg, s.disk, RequestSteps(cfg, scan, s, k, op, env)[..n]);
      var held := Held(cfg, s.disk, k);
      Held(cfg, d', k) == held || Held(cfg, d', k) == Some(MapAfter(held.value, op))
  {
    hide PathOf, Keys, Request, RequestSteps, SteppedAll, DirAfter, WellFormed;
    var steps := RequestSteps(cfg, scan, s, k, op, env);
    RequestStepsAddUp(cfg, scan, s, k, op, env);
    StepsStayInDir(cfg, s.disk, k, steps[..n]);
    SameDir(s.disk.dirs, PathOf(cfg, k));
    if n == |steps| {
      assert steps[..n] == steps;
      RequestIsMapStep(cfg.limits, scan, s.tenants[k], DirOf(cfg, s, k), op, env);
    } else {
      StoresLast(cfg, scan, s, k, op, env);
      DirWithoutStore(DirOf(cfg, s, k), steps[..n]);
    }
  }

  lemma StoresLast(cfg: Config, scan: Scan, s: System, k: ApiKey, op: Op, env: Env)
    requires k in s.tenants
    ensures var steps := RequestSteps(cfg, scan, s, k, op, env);
      forall i :: 0 <= i < |steps| - 1 ==> !steps[i].Store?
  {
    hide Request, PathOf, Refusal;
  }

  lemma {:induction false} DirWithoutStore(dir: Option<Dir>, steps: seq<DiskStep>)
    requires forall i :: 0 <= i < |steps| ==> !steps[i].Store?
    ensures StoreOf(DirAfter(dir, steps)) == StoreOf(dir)
  {
    if steps != [] {
      DirWithoutStore(dir, steps[..|steps| - 1]);
    }
  }

  // ----- What clients may rely on -----

  /** What callers were told is true of what was held: an answer is the answer of what its key held, a key that
      holds nothing is unknown, and what was newly provisioned or removed had been absent or present. */
  ghost predicate Truthful(cfg: Config, scan: Scan, s: System, o: Operation, before: Option<Base.Store>) {
    match o
    case Provision(_, _) => VerdictOn(cfg, scan, s, o) == Success && before.None?
    case Ask(k, op, env) =>
      var r := Handled(cfg, scan, s, k, op, env).1;
      && (before.None? ==> r == Err(UnknownApiKey))
      && (r == Err(UnknownApiKey) <==> k !in s.tenants)
      && (r.Ok? ==> before.Some? && r.value == MapAnswer(scan, before.value, op))
    case _ => Removes(s, o) ==> before.Some?
  }

  /** What an event may make of what one key held: nothing if it is about another key; exactly what the caller
      can conclude if it ran to the end; a part if it was cut or a removal failed. */
  ghost predicate Allowed(cfg: Config, scan: Scan, s: System, e: Event, k: ApiKey, before: Option<Base.Store>,
                          after: Option<Base.Store>)
  {
    var o := e.operation;
    if !About(o, k) then after == before
    else if e.Cut? then Partly(s, o, before, after)
    else
      && Truthful(cfg, scan, s, o, before)
      && match VerdictOn(cfg, scan, s, o)
         case Success => after == Granted(s, o, before)
         case NoEffect => after == before
         case Unsure => Partly(s, o, before, after)
  }

  lemma {:induction false} EventIsAllowed(cfg: Config, scan: Scan, s: System, issued: set<ApiKey>, e: Event, k: ApiKey)
    requires Sound(cfg, s, issued) && Fresh(e.operation, issued) && EmptyScansEmpty(scan)
    ensures Allowed(cfg, scan, s, e, k, Held(cfg, s.disk, k), Held(cfg, After(cfg, scan, s, e).disk, k))
  {
    hide PathOf, Keys, Sound, Fresh, DiskSteps, CutDisk, Operated, Handled, VerdictOn, Granted, Partly, Truthful;
    var o := e.operation;
    var n := if e.Whole? then |DiskSteps(cfg, scan, s, o)| else e.steps;
    CutAtEnd(cfg, scan, s, issued, o);
    if !About(o, k) {
      CutIsolates(cfg, scan, s, issued, o, n, k);
    } else {
      CutLeavesPart(cfg, scan, s, issued, o, n);
      if e.Whole? {
        WholeIsTold(cfg, scan, s, issued, o);
      }
    }
  }

  lemma WholeIsTold(cfg: Config, scan: Scan, s: System, issued: set<ApiKey>, o: Operation)
    requires Sound(cfg, s, issued) && Fresh(o, issued) && EmptyScansEmpty(scan) && !o.Restart?
    ensures var before, after := Held(cfg, s.disk, o.key), Held(cfg, Operated(cfg, scan, s, o).disk, o.key);
      && Truthful(cfg, scan, s, o, before)
      && (VerdictOn(cfg, scan, s, o) == Success ==> after == Granted(s, o, before))
      && (VerdictOn(cfg, scan, s, o) == NoEffect ==> after == before)
  {
    hide PathOf, Keys, Appended, Removed, Request, Terminated, IsApiKey, WellFormed, Idle;
    var k := o.key;
    SoundDisk(cfg, s, issued);
    RegistryAfter(s.disk, AppendKey(k), k);
    RegistryAfter(s.disk, RewriteWithout(k), k);
    SameDir(s.disk.dirs, PathOf(cfg, k));
    if o.Ask? && k in s.tenants {
      RequestIsMapStep(cfg.limits, scan, s.tenants[k], DirOf(cfg, s, k), o.op, o.env);
      RequestKnowsItsTenant(cfg.limits, scan, s.tenants[k], DirOf(cfg, s, k), o.op, o.env);
    }
  }

  lemma RequestKnowsItsTenant(limits: Limits, scan: Scan, t: Tenant, dir: Option<Dir>, op: Op, env: Env)
    ensures Request(limits, scan, t, dir, op, env).response != Err(UnknownApiKey)
  {
  }

  // ----- Who is served -----

  /** Exactly the registered keys are in memory. */
  ghost predicate Present(s: System) {
    forall k :: k in Registered(s) ==> k in s.tenants
  }

  /** No tenant is forgotten while its key stays registered, and no restart skips a registered key. */
  ghost predicate Calm(cfg: Config, scan: Scan, s: System, e: Event) {
    match e
    case Cut(o, n, _, openFails) => AllOpen(cfg, CutDisk(cfg, scan, s, o, n), openFails)
    case Whole(o) => if o.Restart? then AllOpen(cfg, s.disk, o.openFails) else !Forgets(s, o)
  }

  predicate Forgets(s: System, o: Operation) {
    (o.Deprovision? || o.Reap?) && Removes(s, o) && RemovalIn(o).Cleared? && !RewriteOk(o)
  }

  /** While exactly the registered keys are served, an event keeps it so if and only if it is calm. */
  lemma PresentAfter(cfg: Config, scan: Scan, s: System, issued: set<ApiKey>, e: Event)
    requires Sound(cfg, s, issued) && Fresh(e.operation, issued) && Sensible(s, e.operation) && Present(s)
    ensures Present(After(cfg, scan, s, e)) <==> Calm(cfg, scan, s, e)
  {
    hide PathOf, Keys, Sound, Fresh, CutDisk, Sensible;
    match e
    case Cut(o, n, clocks, openFails) => RestartedPresent(cfg, CutDisk(cfg, scan, s, o, n), clocks, openFails);
    case Whole(o) =>
      if o.Restart? {
        RestartedPresent(cfg, s.disk, o.clocks, o.openFails);
      } else {
        var s' := Operated(cfg, scan, s, o);
        OwnPresent(cfg, scan, s, issued, o);
        forall j | j != o.key
          ensures j in Registered(s') <==> j in Registered(s)
          ensures j in s'.tenants <==> j in s.tenants
        {
          OthersPresent(cfg, scan, s, issued, o, j);
        }
      }
  }

  lemma RestartedPresent(cfg: Config, d: Disk, clocks: ApiKey -> Clock, openFails: set<ApiKey>)
    ensures Present(Restarted(cfg, d, clocks, openFails)) <==> AllOpen(cfg, d, openFails)
  {
    hide Keys, PathOf;
    var s := Restarted(cfg, d, clocks, openFails);
    forall k
      ensures k in Registered(s) && k !in s.tenants
         <==> k in openFails && HasTree(cfg, d, k)
    {
    }
  }

  lemma OwnPresent(cfg: Config, scan: Scan, s: System, issued: set<ApiKey>, o: Operation)
    requires Sound(cfg, s, issued) && Fresh(o, issued) && Present(s) && !o.Restart?
    ensures var s' := Operated(cfg, scan, s, o);
      (o.key in Registered(s') ==> o.key in s'.tenants) <==> Calm(cfg, scan, s, Whole(o))
  {
    hide PathOf, Keys, Appended, Removed, Request, Terminated, IsApiKey, WellFormed, Idle;
    SoundDisk(cfg, s, issued);
    RegistryAfter(s.disk, AppendKey(o.key), o.key);
    RegistryAfter(s.disk, RewriteWithout(o.key), o.key);
  }

  lemma OthersPresent(cfg: Config, scan: Scan, s: System, issued: set<ApiKey>, o: Operation, j: ApiKey)
    requires Sound(cfg, s, issued) && Fresh(o, issued) && !o.Restart? && j != o.key
    ensures var s' := Operated(cfg, scan, s, o);
      (j in Registered(s') <==> j in Registered(s)) && (j in s'.tenants <==> j in s.tenants)
  {
    hide PathOf, Keys, Appended, Removed, Request, Terminated, IsApiKey, WellFormed, Idle;
    SoundDisk(cfg, s, issued);
    RegistryAfter(s.disk, AppendKey(o.key), o.key);
    RegistryAfter(s.disk, RewriteWithout(o.key), o.key);
  }

  ghost predicate CalmRun(cfg: Config, scan: Scan, events: seq<Event>) {
    forall i :: 0 <= i < |events| ==> Calm(cfg, scan, Run(cfg, scan, events[..i]), events[i])
  }

  lemma {:induction false} CalmRunIsPresent(cfg: Config, scan: Scan, events: seq<Event>)
    requires Proper(cfg, scan, events) && CalmRun(cfg, scan, events)
    ensures Present(Run(cfg, scan, events))
  {
    hide Sound, Fresh, Sensible, Calm, After, Proper, Present;
    if events == [] {
      EmptyIsPresent();
    } else {
      var n := |events| - 1;
      ProperPrefix(cfg, scan, events, n);
      assert forall i :: 0 <= i < n ==> events[..n][..i] == events[..i];
      CalmRunIsPresent(cfg, scan, events[..n]);
      EventAt(cfg, scan, events, n);
      PresentAfter(cfg, scan, Run(cfg, scan, events[..n]), IssuedBy(events[..n]), events[n]);
    }
  }

  lemma EmptyIsPresent()
    ensures Present(EMPTY)
  {
  }

  /** Every active tenant holds an engine. */
  ghost predicate Manned(s: System) {
    forall k :: IsActive(s, k) ==> s.tenants[k].engine
  }

  /** A removal that fails at the tree leaves an active tenant without its engine. */
  predicate Strands(s: System, e: Event) {
    var o := e.operation;
    e.Whole? && (o.Deprovision? || o.Reap?) && Removes(s, o) && RemovalIn(o).Stuck? && IsActive(s, o.key)
  }

  /** While every active tenant holds an engine, an event keeps it so if and only if it strands none. */
  lemma MannedAfter(cfg: Config, scan: Scan, s: System, e: Event)
    requires Manned(s)
    ensures Manned(After(cfg, scan, s, e)) <==> !Strands(s, e)
  {
    hide PathOf, Keys, Appended, Removed, Request, CutDisk, Idle;
    var o, s' := e.operation, After(cfg, scan, s, e);
    if e.Whole? && o.Ask? && o.key in s.tenants {
      RequestKeepsEngine(cfg.limits, scan, s.tenants[o.key], DirOf(cfg, s, o.key), o.op, o.env);
    }
    forall k | !Strands(s, e) && IsActive(s', k)
      ensures s'.tenants[k].engine
    {
    }
    if Strands(s, e) {
      assert IsActive(s', o.key) && !s'.tenants[o.key].engine;
    }
  }

  lemma RequestKeepsEngine(limits: Limits, scan: Scan, t: Tenant, dir: Option<Dir>, op: Op, env: Env)
    requires t.state.Active? ==> t.engine
    ensures var t' := Request(limits, scan, t, dir, op, env).tenant; t'.state.Active? ==> t'.engine
  {
  }

  lemma {:induction false} RunIsManned(cfg: Config, scan: Scan, events: seq<Event>)
    requires forall i :: 0 <= i < |events| ==> !Strands(Run(cfg, scan, events[..i]), events[i])
    ensures Manned(Run(cfg, scan, events))
  {
    hide After, Strands, Manned;
    if events == [] {
      EmptyIsManned();
    } else {
      var n := |events| - 1;
      assert forall i :: 0 <= i < n ==> events[..n][..i] == events[..i];
      RunIsManned(cfg, scan, events[..n]);
      MannedAfter(cfg, scan, Run(cfg, scan, events[..n]), events[n]);
    }
  }

  lemma EmptyIsManned()
    ensures Manned(EMPTY)
  {
  }

  // ----- Whole runs -----

  /** The history of what one key held, event by event. */
  function History(cfg: Config, scan: Scan, events: seq<Event>, k: ApiKey): (h: seq<Option<Base.Store>>)
    ensures |h| == |events| + 1
  {
    seq(|events| + 1, i requires 0 <= i <= |events| => Held(cfg, Run(cfg, scan, events[..i]).disk, k))
  }

  /** Over every run, with any failures and any number of crashes at any disk step, every key starts with
      nothing, changes only as allowed, and is served only if it holds something; over calm runs also
      whenever it does. */
  lemma CrashesLoseNothing(cfg: Config, scan: Scan, events: seq<Event>, k: ApiKey)
    requires Proper(cfg, scan, events) && EmptyScansEmpty(scan)
    ensures var h := History(cfg, scan, events, k);
      && h[0] == None
      && (forall i :: 0 <= i < |events| ==>
            Allowed(cfg, scan, Run(cfg, scan, events[..i]), events[i], k, h[i], h[i + 1]))
      && (forall i :: 0 <= i <= |events| && k in Run(cfg, scan, events[..i]).tenants ==> h[i].Some?)
      && (CalmRun(cfg, scan, events) ==>
            forall i :: 0 <= i <= |events| && h[i].Some? ==> k in Run(cfg, scan, events[..i]).tenants)
  {
    hide Proper, CalmRun, Held, Allowed;
    assert events[..0] == [];
    EmptyHoldsNothing(cfg, k);
    forall i | 0 <= i <= |events|
      ensures k in Run(cfg, scan, events[..i]).tenants ==> Held(cfg, Run(cfg, scan, events[..i]).disk, k).Some?
      ensures CalmRun(cfg, scan, events) && Held(cfg, Run(cfg, scan, events[..i]).disk, k).Some? ==>
        k in Run(cfg, scan, events[..i]).tenants
    {
      ServedIfHeld(cfg, scan, events, i, k);
    }
    forall i | 0 <= i < |events|
      ensures Allowed(cfg, scan, Run(cfg, scan, events[..i]), events[i], k,
                      Held(cfg, Run(cfg, scan, events[..i]).disk, k),
                      Held(cfg, Run(cfg, scan, events[..i + 1]).disk, k))
    {
      EventAt(cfg, scan, events, i);
      EventIsAllowed(cfg, scan, Run(cfg, scan, events[..i]), IssuedBy(events[..i]), events[i], k);
    }
  }

  lemma ServedIfHeld(cfg: Config, scan: Scan, events: seq<Event>, i: nat, k: ApiKey)
    requires Proper(cfg, scan, events) && i <= |events|
    ensures var s := Run(cfg, scan, events[..i]);
      && (k in s.tenants ==> Held(cfg, s.disk, k).Some?)
      && (CalmRun(cfg, scan, events) && Held(cfg, s.disk, k).Some? ==> k in s.tenants)
  {
    hide Proper, Run, Calm, Sound;
    ProperPrefix(cfg, scan, events, i);
    RunIsSound(cfg, scan, events[..i]);
    SoundDisk(cfg, Run(cfg, scan, events[..i]), IssuedBy(events[..i]));
    if CalmRun(cfg, scan, events) {
      assert forall j :: 0 <= j < i ==> events[..i][..j] == events[..j];
      CalmRunIsPresent(cfg, scan, events[..i]);
    }
  }

  lemma EmptyHoldsNothing(cfg: Config, k: ApiKey)
    ensures Held(cfg, EMPTY.disk, k) == None
  {
  }

  /** What may have become of an operation that was cut or of a removal that failed: nothing of it shows, all of
      it does, or only that data is gone. */
  datatype Fate = Dropped | Applied | Reduced(left: Base.Store)

  function Met(s: System, o: Operation, f: Fate, before: Option<Base.Store>): Option<Base.Store> {
    match f
    case Dropped => before
    case Applied => Granted(s, o, before)
    case Reduced(left) => if before.Some? then Some(left) else None
  }

  ghost predicate FatesFit(events: seq<Event>, fates: seq<Fate>) {
    && |fates| == |events|
    && forall i :: 0 <= i < |events| && fates[i].Reduced? ==> Reduces(events[i].operation, fates[i].left)
  }

  /** The account of one key that follows from what callers were told and from the fates of the operations on it
      that were cut or left them unsure. */
  function Account(cfg: Config, scan: Scan, events: seq<Event>, fates: seq<Fate>, k: ApiKey): Option<Base.Store>
    requires |fates| == |events|
  {
    if events == [] then None
    else
      var n := |events| - 1;
      var before := Account(cfg, scan, events[..n], fates[..n], k);
      var s, o := Run(cfg, scan, events[..n]), events[n].operation;
      if !About(o, k) then before
      else if events[n].Cut? then Met(s, o, fates[n], before)
      else
        match VerdictOn(cfg, scan, s, o)
        case Success => Granted(s, o, before)
        case NoEffect => before
        case Unsure => Met(s, o, fates[n], before)
  }

  /** However often operations failed and the server crashed and went on, what a key holds is accounted for: by
      what was acknowledged and, for each operation on it that was cut or left its caller unsure, by one fate. */
  lemma {:induction false} AcknowledgedSurvives(cfg: Config, scan: Scan, events: seq<Event>, k: ApiKey)
    returns (fates: seq<Fate>)
    requires Proper(cfg, scan, events) && EmptyScansEmpty(scan)
    ensures FatesFit(events, fates)
    ensures Held(cfg, Run(cfg, scan, events).disk, k) == Account(cfg, scan, events, fates, k)
  {
    hide Sound, Fresh, Sensible, Proper, After, VerdictOn, Granted, Held, Truthful, Partly, Reduces;
    if events == [] {
      EmptyHoldsNothing(cfg, k);
      fates := [];
    } else {
      var n := |events| - 1;
      ProperPrefix(cfg, scan, events, n);
      var earlier := AcknowledgedSurvives(cfg, scan, events[..n], k);
      var s, e := Run(cfg, scan, events[..n]), events[n];
      EventAt(cfg, scan, events, n);
      assert events[..n + 1] == events;
      EventIsAllowed(cfg, scan, s, IssuedBy(events[..n]), e, k);
      var f := FateOf(s, e.operation, Held(cfg, s.disk, k), Held(cfg, After(cfg, scan, s, e).disk, k));
      fates := earlier + [f];
      assert fates[..n] == earlier;
    }
  }

  function FateOf(s: System, o: Operation, before: Option<Base.Store>, after: Option<Base.Store>): (f: Fate)
    ensures Partly(s, o, before, after) ==> Met(s, o, f, before) == after
    ensures f.Reduced? ==> Reduces(o, f.left)
  {
    if after == before then Dropped
    else if after == Granted(s, o, before) then Applied
    else if before.Some? && after.Some? && Reduces(o, after.value) then Reduced(after.value)
    else Applied
  }

  /** A key none of whose own operations was cut or left its caller unsure has only one account: it holds exactly
      what its clients were told. */
  lemma {:induction false} UncutIsExact(cfg: Config, scan: Scan, events: seq<Event>, k: ApiKey, fates: seq<Fate>)
    requires Proper(cfg, scan, events) && EmptyScansEmpty(scan) && |fates| == |events|
    requires forall i :: 0 <= i < |events| && About(events[i].operation, k) ==> Certain(cfg, scan, events, i)
    ensures Held(cfg, Run(cfg, scan, events).disk, k) == Account(cfg, scan, events, fates, k)
  {
    hide Proper, Held, Run;
    var found := AcknowledgedSurvives(cfg, scan, events, k);
    OneAccount(cfg, scan, events, k, fates, found);
  }

  predicate Certain(cfg: Config, scan: Scan, events: seq<Event>, i: nat)
    requires i < |events|
  {
    events[i].Whole? && VerdictOn(cfg, scan, Run(cfg, scan, events[..i]), events[i].operation) != Unsure
  }

  lemma {:induction false} OneAccount(cfg: Config, scan: Scan, events: seq<Event>, k: ApiKey,
                                      f: seq<Fate>, g: seq<Fate>)
    requires |f| == |events| == |g|
    requires forall i :: 0 <= i < |events| && About(events[i].operation, k) ==> Certain(cfg, scan, events, i)
    ensures Account(cfg, scan, events, f, k) == Account(cfg, scan, events, g, k)
    decreases |events|
  {
    hide VerdictOn, Granted, Run;
    if events != [] {
      var n := |events| - 1;
      forall i | 0 <= i < n && About(events[..n][i].operation, k)
        ensures Certain(cfg, scan, events[..n], i)
      {
        assert events[..n][..i] == events[..i] && Certain(cfg, scan, events, i);
      }
      OneAccount(cfg, scan, events[..n], k, f[..n], g[..n]);
      assert About(events[n].operation, k) ==> Certain(cfg, scan, events, n);
    }
  }

  /** A key that was issued and is gone never comes back, and none of its data is left. */
  lemma {:induction false} GoneStaysGone(cfg: Config, scan: Scan, events: seq<Event>, i: nat, k: ApiKey)
    requires Proper(cfg, scan, events) && EmptyScansEmpty(scan) && i <= |events|
    requires k in IssuedBy(events[..i]) && Held(cfg, Run(cfg, scan, events[..i]).disk, k).None?
    ensures k in IssuedBy(events) && Held(cfg, Run(cfg, scan, events).disk, k).None?
    ensures k !in Run(cfg, scan, events).tenants && DirOf(cfg, Run(cfg, scan, events), k).None?
  {
    hide Sound, Sensible, Proper, After, VerdictOn, Truthful, Keys, PathOf;
    RunIsSound(cfg, scan, events);
    SoundDisk(cfg, Run(cfg, scan, events), IssuedBy(events));
    if i == |events| {
      assert events[..i] == events;
    } else {
      var n := |events| - 1;
      assert events[..n][..i] == events[..i] && events[..n + 1] == events;
      ProperPrefix(cfg, scan, events, n);
      GoneStaysGone(cfg, scan, events[..n], i, k);
      EventAt(cfg, scan, events, n);
      EventIsAllowed(cfg, scan, Run(cfg, scan, events[..n]), IssuedBy(events[..n]), events[n], k);
    }
  }

  // ----- Reading back -----

  /** The value of the latest acknowledged write of a key of tenant k, unless an acknowledged delete of it, or
      the provision of the tenant, came after. */
  function LatestValue(cfg: Config, scan: Scan, events: seq<Event>, k: ApiKey, key: Bytes): Option<Bytes> {
    if events == [] then None
    else
      var n := |events| - 1;
      var e, s, before := events[n], Run(cfg, scan, events[..n]), LatestValue(cfg, scan, events[..n], k, key);
      if !e.Whole? || !About(e.operation, k) then before
      else
        match e.operation
        case Ask(_, op, env) =>
          if !Handled(cfg, scan, s, k, op, env).1.Ok? then before
          else if op.Put? && op.key == key then Some(op.value)
          else if op.Delete? && op.key == key then None
          else before
        case Provision(_, _) => None
        case _ => before
  }

  ghost predicate Keeps(held: Option<Base.Store>, key: Bytes, value: Option<Bytes>) {
    held.Some? ==> if value.Some? then key in held.value && held.value[key] == value.value else key !in held.value
  }

  /** What a tenant holds under a key is what was written last, after every run in which none of the operations on
      that tenant was cut or left its caller unsure; other tenants may have met anything. */
  lemma {:induction false} HoldsLatestWrite(cfg: Config, scan: Scan, events: seq<Event>, k: ApiKey, key: Bytes)
    requires Proper(cfg, scan, events) && EmptyScansEmpty(scan)
    requires forall i :: 0 <= i < |events| && About(events[i].operation, k) ==> Certain(cfg, scan, events, i)
    ensures Keeps(Held(cfg, Run(cfg, scan, events).disk, k), key, LatestValue(cfg, scan, events, k, key))
  {
    hide Sound, Fresh, Sensible, Proper, After, VerdictOn, Held, Truthful, Partly, Handled, Granted, Keeps;
    if events == [] {
      EmptyHoldsNothing(cfg, k);
      NothingKeeps(key, None);
    } else {
      var n := |events| - 1;
      ProperPrefix(cfg, scan, events, n);
      forall i | 0 <= i < n && About(events[..n][i].operation, k)
        ensures Certain(cfg, scan, events[..n], i)
      {
        assert events[..n][..i] == events[..i] && Certain(cfg, scan, events, i);
      }
      HoldsLatestWrite(cfg, scan, events[..n], k, key);
      EventAt(cfg, scan, events, n);
      assert events[..n + 1] == events;
      var s, e := Run(cfg, scan, events[..n]), events[n];
      EventIsAllowed(cfg, scan, s, IssuedBy(events[..n]), e, k);
      if About(e.operation, k) {
        assert Certain(cfg, scan, events, n);
        CertainKeeps(cfg, scan, s, e, k, key, LatestValue(cfg, scan, events[..n], k, key));
      }
    }
  }

  lemma NothingKeeps(key: Bytes, value: Option<Bytes>)
    ensures Keeps(None, key, value)
  {
  }

  lemma CertainKeeps(cfg: Config, scan: Scan, s: System, e: Event, k: ApiKey, key: Bytes, value: Option<Bytes>)
    requires e.Whole? && About(e.operation, k) && VerdictOn(cfg, scan, s, e.operation) != Unsure
    requires Keeps(Held(cfg, s.disk, k), key, value)
    requires Allowed(cfg, scan, s, e, k, Held(cfg, s.disk, k), Held(cfg, After(cfg, scan, s, e).disk, k))
    ensures var later :=
        match e.operation
        case Ask(_, op, env) =>
          if !Handled(cfg, scan, s, k, op, env).1.Ok? then value
          else if op.Put? && op.key == key then Some(op.value)
          else if op.Delete? && op.key == key then None
          else value
        case Provision(_, _) => None
        case _ => value;
      Keeps(Held(cfg, After(cfg, scan, s, e).disk, k), key, later)
  {
    hide Held, After, Handled, Removes, Partly;
  }

  /** So an answered read after such a run returns the value of the latest acknowledged write, or nothing if
      there was none or a delete came after. */
  lemma ReadsSeeLatestWrite(cfg: Config, scan: Scan, events: seq<Event>, k: ApiKey, key: Bytes, env: Env)
    requires Proper(cfg, scan, events) && EmptyScansEmpty(scan)
    requires forall i :: 0 <= i < |events| && About(events[i].operation, k) ==> Certain(cfg, scan, events, i)
    ensures var r := Handled(cfg, scan, Run(cfg, scan, events), k, Op.Get(key), env).1;
      var latest := LatestValue(cfg, scan, events, k, key);
      r.Ok? ==> r.value == if latest.Some? then Found(latest.value) else Miss
  {
    hide Sound, Proper, LatestValue, Handled, Run;
    var s := Run(cfg, scan, events);
    HoldsLatestWrite(cfg, scan, events, k, key);
    RunIsSound(cfg, scan, events);
    WholeIsTold(cfg, scan, s, IssuedBy(events), Ask(k, Op.Get(key), env));
  }
}
