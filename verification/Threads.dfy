/** One Database under any number of concurrent requests. Each action is one step that the code performs
    under a lock, or one call of the engine; a request is one thread. */
module Threads {
  import opened Base
  import opened RateLimiter
  import opened Tenants

  type Tid = nat

  /** What a request copies out of the database while it holds its lock. Engines and buckets are numbered in
      the order in which they were made. */
  datatype Snapshot = Snapshot(state: TenantState, engine: Option<nat>, bucket: nat, rl: RateLimitConfig)

  /** How far a request has come. */
  datatype Pc =
    | Begun
    | Looked(snap: Snapshot)
    | Paid(snap: Snapshot)
    | Weighed(snap: Snapshot)
    | Served(snap: Snapshot, answer: Answer)
    | Done(response: Response)

  datatype Thread = Thread(op: Op, pc: Pc)

  datatype World = World(
    state: TenantState,
    engine: Option<nat>,
    bucket: nat,
    rl: RateLimitConfig,
    buckets: seq<Bucket>,
    installed: seq<RateLimitConfig>,
    store: Store,
    size: nat,
    opens: nat,
    closings: seq<nat>,
    threads: map<Tid, Thread>)

  datatype Action =
    | Invoke(t: Tid, op: Op)
    | Look(t: Tid, mkdirOk: bool, openOk: bool, freshSize: nat)
    | Spend(t: Tid, at: real)
    | Weigh(t: Tid, ok: bool)
    | Call(t: Tid, ok: bool, size: nat)
    | Charge(t: Tid, at: real)
    | Destroy(removal: Removal, size: nat)
    | SetRateLimit(rl: RateLimitConfig, at: real)

  /** Where a Database object comes from: a provision, or a directory that LoadAll found, with its contents and
      their size. */
  datatype Origin = New | Restored(store: Store, size: nat)

  function StoreFrom(from: Origin): Store {
    if from.New? then map[] else from.store
  }

  function SizeFrom(from: Origin): nat {
    if from.New? then 0 else from.size
  }

  /** A new database is pending; a restored one is active and has opened its engine. */
  function Start(from: Origin, rl: RateLimitConfig, now: real): World {
    var bucket := FullBucket(rl, now);
    if from.New? then World(Pending, None, 0, rl, [bucket], [rl], map[], 0, 0, [], map[])
    else World(Active, Some(0), 0, rl, [bucket], [rl], from.store, from.size, 1, [], map[])
  }

  function Stepped(w: World, t: Tid, pc: Pc): World
    requires t in w.threads
  {
    w.(threads := w.threads[t := w.threads[t].(pc := pc)])
  }

  // ----- When an action can happen -----

  /** A call on an engine that has been closed under the request is not part of this model. */
  predicate EngineUsable(w: World, snap: Snapshot) {
    snap.engine.Some? && snap.engine.value !in w.closings
  }

  predicate Enabled(w: World, a: Action) {
    match a
    case Invoke(t, _) => t !in w.threads
    case Look(t, _, _, _) => t in w.threads && w.threads[t].pc.Begun?
    case Spend(t, _) => t in w.threads && w.threads[t].pc.Looked? && w.threads[t].pc.snap.bucket < |w.buckets|
    case Weigh(t, _) =>
      t in w.threads && w.threads[t].op.Put? && w.threads[t].pc.Paid? && EngineUsable(w, w.threads[t].pc.snap)
    case Call(t, _, _) =>
      && t in w.threads
      && (if w.threads[t].op.Put? then w.threads[t].pc.Weighed? else w.threads[t].pc.Paid?)
      && EngineUsable(w, w.threads[t].pc.snap)
    case Charge(t, _) => t in w.threads && w.threads[t].pc.Served? && w.threads[t].pc.snap.bucket < |w.buckets|
    case Destroy(_, _) => true
    case SetRateLimit(_, _) => true
  }

  // ----- What it does -----

  function SnapshotOf(w: World): Snapshot {
    Snapshot(w.state, w.engine, w.bucket, w.rl)
  }

  /** The database opens its engine in a directory it has just made. */
  function Materialize(w: World, freshSize: nat): World {
    w.(state := Active, engine := Some(w.opens), opens := w.opens + 1, size := freshSize)
  }

  function AfterLook(w: World, a: Action): World
    requires a.Look? && Enabled(w, a)
  {
    if w.threads[a.t].op.Put? && w.state.Pending? then
      if !a.mkdirOk || !a.openOk then Stepped(w, a.t, Done(Err(Internal)))
      else
        var active := Materialize(w, a.freshSize);
        Stepped(active, a.t, Looked(SnapshotOf(active)))
    else Stepped(w, a.t, Looked(SnapshotOf(w)))
  }

  function AfterSpend(w: World, a: Action): World
    requires a.Spend? && Enabled(w, a)
  {
    var th := w.threads[a.t];
    var snap := th.pc.snap;
    var b := w.buckets[snap.bucket];
    var cost := UpFrontCost(snap.rl, th.op);
    var spent := w.(buckets := w.buckets[snap.bucket := b.Consumed(a.at, cost)]);
    Stepped(spent, a.t,
      if !b.Admits(a.at, cost) then Done(Err(RateLimited))
      else if snap.state.Pending? then Done(Ok(PendingAnswer(th.op)))
      else if snap.engine.None? then Done(Err(Gone))
      else Paid(snap))
  }

  function AfterWeigh(limits: Limits, w: World, a: Action): World
    requires a.Weigh? && Enabled(w, a)
  {
    Stepped(w, a.t,
      if !a.ok then Done(Err(Unavailable))
      else if w.size >= limits.maxStorageBytes then Done(Err(StorageFull))
      else Weighed(w.threads[a.t].pc.snap))
  }

  /** The engine call is atomic; one that fails stores nothing. */
  function AfterCall(scan: Scan, w: World, a: Action): World
    requires a.Call? && Enabled(w, a)
  {
    var th := w.threads[a.t];
    var sized := w.(size := a.size);
    if !a.ok then Stepped(sized, a.t, Done(Err(Unavailable)))
    else
      var answer := MapAnswer(scan, w.store, th.op);
      Stepped(sized.(store := MapAfter(w.store, th.op)), a.t,
        if answer.Found? || answer.Pairs? then Served(th.pc.snap, answer) else Done(Ok(answer)))
  }

  function AfterCharge(w: World, a: Action): World
    requires a.Charge? && Enabled(w, a)
  {
    var Served(snap, answer) := w.threads[a.t].pc;
    var b := w.buckets[snap.bucket].Charged(a.at, snap.rl.ReadCost(ReadBytes(answer)));
    Stepped(w.(buckets := w.buckets[snap.bucket := b]), a.t, Done(Ok(answer)))
  }

  function AfterDestroy(w: World, removal: Removal, size: nat): World {
    w.(engine := None,
       closings := if w.engine.Some? then w.closings + [w.engine.value] else w.closings,
       store := StoreOf(LeftBy(removal)),
       size := if removal.Stuck? then size else 0)
  }

  function Next(limits: Limits, scan: Scan, w: World, a: Action): World
    requires Enabled(w, a)
  {
    match a
    case Invoke(t, op) =>
      var refused := Refusal(limits, op);
      w.(threads := w.threads[t := Thread(op, if refused.Some? then Done(Err(refused.value)) else Begun)])
    case Look(_, _, _, _) => AfterLook(w, a)
    case Spend(_, _) => AfterSpend(w, a)
    case Weigh(_, _) => AfterWeigh(limits, w, a)
    case Call(_, _, _) => AfterCall(scan, w, a)
    case Charge(_, _) => AfterCharge(w, a)
    case Destroy(removal, size) => AfterDestroy(w, removal, size)
    case SetRateLimit(rl, at) =>
      w.(rl := rl, bucket := |w.buckets|, buckets := w.buckets + [FullBucket(rl, at)], installed := w.installed + [rl])
  }

  // ----- Runs -----

  ghost predicate Possible(limits: Limits, scan: Scan, w: World, run: seq<Action>) {
    run == [] ||
    (var before := run[..|run| - 1];
     Possible(limits, scan, w, before) && Enabled(Reached(limits, scan, w, before), run[|run| - 1]))
  }

  ghost function Reached(limits: Limits, scan: Scan, w: World, run: seq<Action>): World {
    if run == [] then w
    else
      var w' := Reached(limits, scan, w, run[..|run| - 1]);
      if Enabled(w', run[|run| - 1]) then Next(limits, scan, w', run[|run| - 1]) else w'
  }

  lemma {:induction false} PossiblePrefix(limits: Limits, scan: Scan, w: World, run: seq<Action>, i: nat)
    requires Possible(limits, scan, w, run) && i <= |run|
    ensures Possible(limits, scan, w, run[..i])
    decreases |run|
  {
    if i == |run| {
      assert run[..i] == run;
    } else {
      assert run[..|run| - 1][..i] == run[..i];
      PossiblePrefix(limits, scan, w, run[..|run| - 1], i);
    }
  }

  /** The step at position i leads from the i-th state to the next. */
  lemma StepAt(limits: Limits, scan: Scan, w: World, run: seq<Action>, i: nat)
    requires Possible(limits, scan, w, run) && i < |run|
    ensures Possible(limits, scan, w, run[..i]) && Possible(limits, scan, w, run[..i + 1])
    ensures Enabled(Reached(limits, scan, w, run[..i]), run[i])
    ensures Reached(limits, scan, w, run[..i + 1]) == Next(limits, scan, Reached(limits, scan, w, run[..i]), run[i])
  {
    PossiblePrefix(limits, scan, w, run, i);
    PossiblePrefix(limits, scan, w, run, i + 1);
    assert run[..i + 1][..i] == run[..i];
  }
}
