/** The step model and the sequential one agree: a request whose steps are not interleaved with others does
    what Request says. */
module Solo {
  import opened Base
  import opened RateLimiter
  import opened Tenants
  import opened Threads

  /** Takes the step if the request has come to it. */
  function Attempt(limits: Limits, scan: Scan, w: World, a: Action): World {
    if Enabled(w, a) then Next(limits, scan, w, a) else w
  }

  /** All the steps a request can take, one after the other, with nothing in between. */
  function Alone(limits: Limits, scan: Scan, w: World, t: Tid, op: Op, env: Env): World {
    var size := if env.size.Some? then env.size.value else 0;
    var called := Attempt(limits, scan, w, Invoke(t, op));
    var looked := Attempt(limits, scan, called, Look(t, env.mkdirOk, env.openOk, size));
    Finished(limits, scan, looked, t, env)
  }

  function Finished(limits: Limits, scan: Scan, looked: World, t: Tid, env: Env): World {
    Answered(limits, scan, Attempt(limits, scan, looked, Action.Spend(t, env.now)), t, env)
  }

  function Answered(limits: Limits, scan: Scan, spent: World, t: Tid, env: Env): World {
    var weighed := Attempt(limits, scan, spent, Weigh(t, env.size.Some?));
    var answered := Attempt(limits, scan, weighed, Call(t, env.callOk, weighed.size));
    Attempt(limits, scan, answered, Action.Charge(t, env.later))
  }

  /** The database's part of the world, as one tenant; its activity clock is not part of the step model. */
  function TenantOf(w: World): Tenant
    requires w.bucket < |w.buckets|
  {
    Tenant(w.state, w.engine.Some?, w.buckets[w.bucket], w.rl, 0)
  }

  function DirOf(w: World): Option<Dir> {
    if w.state.Pending? then None else Some(Dir(w.store, None))
  }

  /** No engine that is still held has been closed, and a pending database is empty. */
  ghost predicate Sane(w: World) {
    && w.bucket < |w.buckets|
    && (w.engine.Some? ==> w.engine.value !in w.closings)
    && (forall c :: c in w.closings ==> c < w.opens)
    && (w.state.Pending? ==> w.store == map[] && w.engine.None?)
  }

  /** The response, the contents, the bucket and the state that Request computes. */
  ghost predicate Agrees(w: World, t: Tid, o: Outcome) {
    && t in w.threads && w.threads[t].pc == Done(o.response)
    && w.bucket < |w.buckets|
    && TenantOf(w) == o.tenant.(lastActive := 0)
    && w.store == StoreOf(o.dir)
  }

  lemma FinishedIsPaid(limits: Limits, scan: Scan, w: World, t: Tid, op: Op, env: Env)
    requires Sane(w) && t in w.threads && w.threads[t] == Thread(op, Looked(SnapshotOf(w)))
    requires op.Put? ==> w.state.Active?
    requires op.Put? && env.size.Some? ==> env.size.value == w.size
    ensures Agrees(Finished(limits, scan, w, t, env), t, Tenants.Paid(limits, scan, TenantOf(w), DirOf(w), op, env))
  {
    hide MapAnswer, MapAfter, UpFrontCost, ReadBytes, Min, Answered, Tenants.Served;
    var spent := Attempt(limits, scan, w, Action.Spend(t, env.now));
    if spent.threads[t].pc.Done? {
      NothingLeft(limits, scan, spent, t, env);
    } else {
      AnsweredIsServed(limits, scan, spent, t, op, env);
      ClockIgnored(limits, scan, TenantOf(spent), env.unix, DirOf(w), op, env);
    }
  }

  /** A request that has spent and holds an engine. */
  lemma AnsweredIsServed(limits: Limits, scan: Scan, w: World, t: Tid, op: Op, env: Env)
    requires Sane(w) && w.state.Active? && w.engine.Some?
    requires t in w.threads && w.threads[t] == Thread(op, Pc.Paid(SnapshotOf(w)))
    requires op.Put? && env.size.Some? ==> env.size.value == w.size
    ensures Agrees(Answered(limits, scan, w, t, env), t, Tenants.Served(limits, scan, TenantOf(w), DirOf(w), op, env))
  {
    hide MapAnswer, MapAfter, UpFrontCost, ReadBytes, Min;
  }

  lemma NothingLeft(limits: Limits, scan: Scan, w: World, t: Tid, env: Env)
    requires t in w.threads && w.threads[t].pc.Done?
    ensures Answered(limits, scan, w, t, env) == w
  {
  }

  lemma ClockIgnored(limits: Limits, scan: Scan, t: Tenant, unix: int, dir: Option<Dir>, op: Op, env: Env)
    ensures
      var a, b := Tenants.Served(limits, scan, t, dir, op, env),
                  Tenants.Served(limits, scan, t.(lastActive := unix), dir, op, env);
      b == a.(tenant := a.tenant.(lastActive := unix))
  {
    hide MapAnswer, MapAfter, ReadBytes, Min;
  }

  lemma MarkerIgnored(limits: Limits, scan: Scan, t: Tenant, dir: Option<Dir>, other: Option<Dir>, op: Op, env: Env)
    requires dir.Some? && other.Some? && dir.value.store == other.value.store
    ensures var a, b := Tenants.Paid(limits, scan, t, dir, op, env), Tenants.Paid(limits, scan, t, other, op, env);
      a.tenant == b.tenant && a.response == b.response && StoreOf(a.dir) == StoreOf(b.dir)
  {
    hide MapAnswer, MapAfter, UpFrontCost, ReadBytes;
  }

  /** Looking opens the database's engine as Materialized does. */
  lemma LookMaterializes(w: World, t: Tid, op: Op, env: Env, freshSize: nat)
    requires Sane(w) && t in w.threads && w.threads[t] == Thread(op, Begun) && op.Put? && w.state.Pending?
    ensures var looked := AfterLook(w, Look(t, env.mkdirOk, env.openOk, freshSize));
            var (active, made, ok) := Materialized(TenantOf(w), None, env);
      && TenantOf(looked) == active
      && looked.store == StoreOf(made) == map[]
      && (if ok then Sane(looked) && looked.threads[t] == Thread(op, Looked(SnapshotOf(looked)))
                     && looked.size == freshSize && looked.state.Active? && made.Some?
          else looked.threads[t].pc == Done(Err(Internal)))
  {
  }

  /** Run alone, a request's steps have the outcome of the sequential request. */
  lemma {:induction false} AloneIsRequest(limits: Limits, scan: Scan, w: World, t: Tid, op: Op, env: Env)
    requires Sane(w) && t !in w.threads
    requires w.state.Active? && env.size.Some? ==> env.size.value == w.size
    ensures Agrees(Alone(limits, scan, w, t, op, env), t, Request(limits, scan, TenantOf(w), DirOf(w), op, env))
  {
    hide Tenants.Paid, Refusal, Finished, Materialized, AfterSpend, AfterWeigh, AfterCall, AfterCharge;
    var size := if env.size.Some? then env.size.value else 0;
    var called := Attempt(limits, scan, w, Invoke(t, op));
    var looked := Attempt(limits, scan, called, Look(t, env.mkdirOk, env.openOk, size));
    if Refusal(limits, op).Some? {
      DoneStays(limits, scan, looked, t, env);
    } else if op.Put? && w.state.Pending? {
      LookMaterializes(called, t, op, env, size);
      var (active, made, ok) := Materialized(TenantOf(w), None, env);
      if ok {
        FinishedIsPaid(limits, scan, looked, t, op, env);
        MarkerIgnored(limits, scan, active, made, DirOf(looked), op, env);
      } else {
        DoneStays(limits, scan, looked, t, env);
      }
    } else {
      FinishedIsPaid(limits, scan, looked, t, op, env);
    }
  }

  /** A request that has returned takes no further step. */
  lemma DoneStays(limits: Limits, scan: Scan, w: World, t: Tid, env: Env)
    requires t in w.threads && w.threads[t].pc.Done?
    ensures Finished(limits, scan, w, t, env) == w
  {
  }

  lemma AttemptRun(limits: Limits, scan: Scan, w: World, run: seq<Action>, a: Action) returns (longer: seq<Action>)
    requires Possible(limits, scan, w, run)
    ensures Possible(limits, scan, w, longer)
    ensures Reached(limits, scan, w, longer) == Attempt(limits, scan, Reached(limits, scan, w, run), a)
  {
    hide Next;
    if Enabled(Reached(limits, scan, w, run), a) {
      longer := run + [a];
      assert longer[..|run|] == run;
    } else {
      longer := run;
    }
  }

  /** Such a request is one of the runs of the step model. */
  lemma AloneIsARun(limits: Limits, scan: Scan, w: World, t: Tid, op: Op, env: Env) returns (run: seq<Action>)
    ensures Possible(limits, scan, w, run)
    ensures Reached(limits, scan, w, run) == Alone(limits, scan, w, t, op, env)
  {
    hide Attempt, Possible, Reached;
    var size := if env.size.Some? then env.size.value else 0;
    NoSteps(limits, scan, w);
    run := AttemptRun(limits, scan, w, [], Invoke(t, op));
    run := AttemptRun(limits, scan, w, run, Look(t, env.mkdirOk, env.openOk, size));
    run := AttemptRun(limits, scan, w, run, Action.Spend(t, env.now));
    run := AttemptRun(limits, scan, w, run, Weigh(t, env.size.Some?));
    run := AttemptRun(limits, scan, w, run, Action.Call(t, env.callOk, Reached(limits, scan, w, run).size));
    run := AttemptRun(limits, scan, w, run, Action.Charge(t, env.later));
  }

  lemma NoSteps(limits: Limits, scan: Scan, w: World)
    ensures Possible(limits, scan, w, []) && Reached(limits, scan, w, []) == w
  {
  }
}
