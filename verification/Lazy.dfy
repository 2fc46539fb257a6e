/** Opening the engine only at the first write: when it can be noticed, and that otherwise it cannot. */
module Lazy {
  import opened Base
  import opened RateLimiter
  import opened Tenants
  import opened Runs

  /** No rate limit drains a bucket. */
  ghost predicate NeverDrains(steps: seq<Step>) {
    forall i :: 0 <= i < |steps| && steps[i].SetRateLimit? ==> steps[i].rl.refillBytesPerSec >= 0.0
  }

  /** A request that finds the tenant pending, and gets past its checks and its bucket, does not depend on
      an engine call that fails: a write can open the engine, anything else would have been served. */
  predicate EngineServes(limits: Limits, t: Tenant, s: Step) {
    s.Ask? && t.state.Pending? && Refusal(limits, s.op).None? ==>
      if s.op.Put? then s.env.mkdirOk && s.env.openOk
      else s.env.callOk || !t.bucket.Admits(s.env.now, t.rateLimit.FlatCost())
  }

  /** This holds at every step of the lazy database's run. */
  ghost predicate EngineAlwaysServes(limits: Limits, scan: Scan, lazy: Whole, steps: seq<Step>)
    decreases |steps|
  {
    steps == [] ||
    (&& EngineServes(limits, lazy.tenant, steps[0])
     && EngineAlwaysServes(limits, scan, WholeAfter(limits, scan, lazy, steps[0]), steps[1..]))
  }

  function LazyTenant(rl: RateLimitConfig, now: real, unix: int): Whole {
    Whole(NewTenant(rl, now, unix), None)
  }

  /** The same database with its directory made and its engine opened at once. */
  function EagerTenant(rl: RateLimitConfig, now: real, unix: int): Whole {
    Whole(Opened(NewTenant(rl, now, unix)), MadeDir(None))
  }

  /** What ties the two together at time t: equal contents, buckets nobody can tell apart. */
  ghost predicate Alike(t: real, lazy: Whole, eager: Whole) {
    && WellFormed(lazy.tenant, lazy.dir) && WellFormed(eager.tenant, eager.dir)
    && eager.tenant.state.Active? && eager.tenant.engine
    && (lazy.tenant.state.Active? ==> lazy.tenant.engine)
    && StoreOf(lazy.dir) == StoreOf(eager.dir)
    && lazy.tenant.rateLimit == eager.tenant.rateLimit
    && lazy.tenant.rateLimit.refillBytesPerSec >= 0.0
    && SameFrom(t, lazy.tenant.bucket, eager.tenant.bucket)
  }

  /** The one difference a pending tenant makes to its bucket, not charging for the nothing it read, is no
      difference. */
  lemma ChargeOfNothing(b: Bucket, rl: RateLimitConfig, answer: Answer, later: real, t: real)
    requires b.refillPerSec >= 0.0 && b.last <= later <= t && ReadBytes(answer) == 0
    ensures SameFrom(t, b, Settled(b, rl, answer, later))
  {
    assert rl.ReadCost(0) == 0.0;
    ScaleNonNegative(t - later, b.refillPerSec);
    RefillTwice(b, later, t);
    RefillTwice(b, t, t);
  }

  lemma SpendAlike(t: real, now: real, b: Bucket, c: Bucket, cost: real)
    requires SameFrom(t, b, c) && t <= now && b.refillPerSec >= 0.0
    ensures b.Admits(now, cost) == c.Admits(now, cost)
    ensures b.Consumed(now, cost) == c.Consumed(now, cost)
  {
    SameLater(t, now, b, c);
  }

  lemma SameAtOnce(t: real, b: Bucket)
    ensures SameFrom(t, b, b)
  {
  }

  /** One step is answered alike exactly if the engine serves, and then keeps the two alike. */
  lemma {:induction false} StepStaysAlike(limits: Limits, scan: Scan, t: real, lazy: Whole, eager: Whole, s: Step)
    requires Alike(t, lazy, eager) && EmptyScansEmpty(scan)
    requires t <= Begin(s) <= End(s) && NeverDrains([s])
    ensures Told(limits, scan, lazy, s) == Told(limits, scan, eager, s) <==> EngineServes(limits, lazy.tenant, s)
    ensures EngineServes(limits, lazy.tenant, s) ==>
      Alike(End(s), WholeAfter(limits, scan, lazy, s), WholeAfter(limits, scan, eager, s))
  {
    if s.Ask? {
      var op, env := s.op, s.env;
      RequestKeepsWellFormed(limits, scan, lazy.tenant, lazy.dir, op, env);
      RequestKeepsWellFormed(limits, scan, eager.tenant, eager.dir, op, env);
      if Refusal(limits, op).Some? {
        SameLater(t, env.later, lazy.tenant.bucket, eager.tenant.bucket);
      } else if EngineServes(limits, lazy.tenant, s) {
        AskStaysAlike(limits, scan, t, lazy, eager, op, env);
      } else {
        AskIsNoticed(limits, scan, t, lazy, eager, op, env);
      }
    } else {
      assert [s][0] == s;
    }
  }

  lemma {:induction false} AskStaysAlike(limits: Limits, scan: Scan, t: real, lazy: Whole, eager: Whole,
                                         op: Op, env: Env)
    requires Alike(t, lazy, eager) && EmptyScansEmpty(scan)
    requires t <= env.now <= env.later && Refusal(limits, op).None?
    requires EngineServes(limits, lazy.tenant, Ask(op, env))
    ensures var l := Request(limits, scan, lazy.tenant, lazy.dir, op, env);
            var e := Request(limits, scan, eager.tenant, eager.dir, op, env);
      && l.response == e.response
      && StoreOf(l.dir) == StoreOf(e.dir)
      && SameFrom(env.later, l.tenant.bucket, e.tenant.bucket)
      && l.tenant.rateLimit == e.tenant.rateLimit == lazy.tenant.rateLimit
      && e.tenant.state.Active? && e.tenant.engine
      && (l.tenant.state.Active? ==> l.tenant.engine)
  {
    hide SameFrom, EmptyScansEmpty;
    var cost := UpFrontCost(lazy.tenant.rateLimit, op);
    SpendAlike(t, env.now, lazy.tenant.bucket, eager.tenant.bucket, cost);
    var b := lazy.tenant.bucket.Consumed(env.now, cost);
    SameAtOnce(env.later, b);
    if lazy.tenant.state.Pending? && !op.Put? {
      EmptyAnswer(scan, op);
      ChargeOfNothing(b, lazy.tenant.rateLimit, PendingAnswer(op), env.later, env.later);
    } else {
      SameAtOnce(env.later, Request(limits, scan, lazy.tenant, lazy.dir, op, env).tenant.bucket);
    }
  }

  /** Where the engine does not serve, the two databases answer differently. */
  lemma AskIsNoticed(limits: Limits, scan: Scan, t: real, lazy: Whole, eager: Whole, op: Op, env: Env)
    requires Alike(t, lazy, eager) && t <= env.now && Refusal(limits, op).None?
    requires !EngineServes(limits, lazy.tenant, Ask(op, env))
    ensures Request(limits, scan, lazy.tenant, lazy.dir, op, env).response
         != Request(limits, scan, eager.tenant, eager.dir, op, env).response
  {
    hide SameFrom, MapAnswer, MapAfter;
    SpendAlike(t, env.now, lazy.tenant.bucket, eager.tenant.bucket, UpFrontCost(lazy.tenant.rateLimit, op));
  }

  lemma EmptyAnswer(scan: Scan, op: Op)
    requires EmptyScansEmpty(scan) && !op.Put?
    ensures MapAnswer(scan, map[], op) == PendingAnswer(op)
    ensures MapAfter(map[], op) == map[]
    ensures ReadBytes(PendingAnswer(op)) == 0
  {
  }

  /** For every run of requests and rate-limit changes on a new tenant, the lazy database and the eager one
      give the same responses if and only if the engine serves whenever only the eager one asks it; they then
      show the same token level at every time from the end of the run on. */
  lemma {:induction false} LazinessIsInvisible(limits: Limits, scan: Scan, rl: RateLimitConfig, start: real, unix: int,
                                               steps: seq<Step>, at: real)
    requires EmptyScansEmpty(scan) && rl.refillBytesPerSec >= 0.0 && NeverDrains(steps)
    requires InOrder(start, steps) && EndOf(start, steps) <= at
    ensures var lazy, eager := LazyTenant(rl, start, unix), EagerTenant(rl, start, unix);
      && (Responses(limits, scan, lazy, steps) == Responses(limits, scan, eager, steps)
          <==> EngineAlwaysServes(limits, scan, lazy, steps))
      && (EngineAlwaysServes(limits, scan, lazy, steps) ==>
            WholeAfterAll(limits, scan, lazy, steps).tenant.bucket.Level(at)
            == WholeAfterAll(limits, scan, eager, steps).tenant.bucket.Level(at))
  {
    var lazy, eager := LazyTenant(rl, start, unix), EagerTenant(rl, start, unix);
    RunStaysAlike(limits, scan, start, lazy, eager, steps);
    if EngineAlwaysServes(limits, scan, lazy, steps) {
      SameLater(EndOf(start, steps), at, WholeAfterAll(limits, scan, lazy, steps).tenant.bucket,
                WholeAfterAll(limits, scan, eager, steps).tenant.bucket);
    }
  }

  lemma {:induction false} RunStaysAlike(limits: Limits, scan: Scan, t: real, lazy: Whole, eager: Whole,
                                         steps: seq<Step>)
    requires Alike(t, lazy, eager) && EmptyScansEmpty(scan)
    requires InOrder(t, steps) && NeverDrains(steps)
    ensures Responses(limits, scan, lazy, steps) == Responses(limits, scan, eager, steps)
       <==> EngineAlwaysServes(limits, scan, lazy, steps)
    ensures EngineAlwaysServes(limits, scan, lazy, steps) ==>
      Alike(EndOf(t, steps), WholeAfterAll(limits, scan, lazy, steps), WholeAfterAll(limits, scan, eager, steps))
    decreases |steps|
  {
    hide Alike, WholeAfter, EngineServes, Request;
    if steps != [] {
      var s := steps[0];
      StepStaysAlike(limits, scan, t, lazy, eager, s);
      EndOfRest(t, steps);
      var l, e := WholeAfter(limits, scan, lazy, s), WholeAfter(limits, scan, eager, s);
      FirstAndRest(Told(limits, scan, lazy, s), Responses(limits, scan, l, steps[1..]),
                   Told(limits, scan, eager, s), Responses(limits, scan, e, steps[1..]));
      if EngineServes(limits, lazy.tenant, s) {
        RunStaysAlike(limits, scan, End(s), l, e, steps[1..]);
      }
    }
  }

  lemma FirstAndRest<T>(a: seq<T>, b: seq<T>, c: seq<T>, d: seq<T>)
    requires |a| == |c|
    ensures a + b == c + d <==> a == c && b == d
  {
    if a + b == c + d {
      assert a == (a + b)[..|a|] && b == (a + b)[|a|..];
      assert c == (c + d)[..|c|] && d == (c + d)[|c|..];
    }
  }

  /** A run in which the engine does not serve: a read's engine call fails. The lazy database, still pending,
      answers that there is nothing; the eager one that its engine is unavailable. */
  lemma FailingEngineIsNoticed(limits: Limits, scan: Scan, unix: int)
    ensures var rl := RateLimitConfig(1.0, 0.0, 1.0, 0.0, 0.0);
      var steps := [Ask(Op.Get([1]), Env(0.0, 0.0, unix, true, true, true, Some(0), false))];
      && Responses(limits, scan, LazyTenant(rl, 0.0, unix), steps) == [Ok(Miss)]
      && Responses(limits, scan, EagerTenant(rl, 0.0, unix), steps) == [Err(Unavailable)]
  {
    var rl := RateLimitConfig(1.0, 0.0, 1.0, 0.0, 0.0);
    var s := Ask(Op.Get([1]), Env(0.0, 0.0, unix, true, true, true, Some(0), false));
    assert [s][1..] == [];
    assert Told(limits, scan, LazyTenant(rl, 0.0, unix), s) == [Ok(Miss)];
    assert Told(limits, scan, EagerTenant(rl, 0.0, unix), s) == [Err(Unavailable)];
  }
}
