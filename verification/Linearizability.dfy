/** Concurrent requests on a lazily opened database answer as if each had happened at one instant. */
module Linearizability {
  import opened Base
  import opened RateLimiter
  import opened Tenants
  import opened Threads

  /** A request taking effect: with what answer, at which position of the run, and whether already when it
      saw the tenant pending. */
  datatype Point = Point(t: Tid, op: Op, answer: Answer, at: nat, early: bool)

  /** A request takes effect at its engine call, or when it looks and finds the tenant pending. */
  ghost function PointOf(scan: Scan, w: World, a: Action, at: nat): Option<Point>
    requires Enabled(w, a)
  {
    if a.Look? && w.state.Pending? && !w.threads[a.t].op.Put? then
      Some(Point(a.t, w.threads[a.t].op, PendingAnswer(w.threads[a.t].op), at, true))
    else if a.Call? && a.ok then
      Some(Point(a.t, w.threads[a.t].op, MapAnswer(scan, w.store, w.threads[a.t].op), at, false))
    else None
  }

  ghost function Points(limits: Limits, scan: Scan, w: World, run: seq<Action>): seq<Point>
    requires Possible(limits, scan, w, run)
  {
    if run == [] then []
    else
      var before := run[..|run| - 1];
      var p := PointOf(scan, Reached(limits, scan, w, before), run[|run| - 1], |before|);
      if p.Some? then Points(limits, scan, w, before) + [p.value] else Points(limits, scan, w, before)
  }

  // ----- Sequential histories -----

  /** What the points make of contents that were there before them. */
  function Replay(m: Store, h: seq<Point>): Store {
    if h == [] then m else MapAfter(Replay(m, h[..|h| - 1]), h[|h| - 1].op)
  }

  /** Every answer is the one a map gives after the points before it. */
  ghost predicate Legal(scan: Scan, m: Store, h: seq<Point>) {
    forall i :: 0 <= i < |h| ==> h[i].answer == MapAnswer(scan, Replay(m, h[..i]), h[i].op)
  }

  lemma LegalAppend(scan: Scan, m: Store, h: seq<Point>, p: Point)
    requires Legal(scan, m, h) && p.answer == MapAnswer(scan, Replay(m, h), p.op)
    ensures Legal(scan, m, h + [p]) && Replay(m, h + [p]) == MapAfter(Replay(m, h), p.op)
  {
    hide Replay, MapAnswer;
    var h' := h + [p];
    forall i | 0 <= i < |h'|
      ensures h'[i].answer == MapAnswer(scan, Replay(m, h'[..i]), h'[i].op)
    {
      assert h'[..i] == if i < |h| then h[..i] else h;
    }
    ReplayAppend(m, h, p);
  }

  lemma ReplayAppend(m: Store, h: seq<Point>, p: Point)
    ensures Replay(m, h + [p]) == MapAfter(Replay(m, h), p.op)
  {
    assert (h + [p])[..|h|] == h;
  }

  lemma LegalPrefix(scan: Scan, m: Store, h: seq<Point>, n: nat)
    requires Legal(scan, m, h) && n <= |h|
    ensures Legal(scan, m, h[..n])
  {
    forall i | 0 <= i < n
      ensures h[..n][..i] == h[..i]
    {
    }
  }

  /** Points that change nothing where they stand can be left out. */
  lemma {:induction false} LegalWithout(scan: Scan, m: Store, h: seq<Point>, keep: Point -> bool)
    requires Legal(scan, m, h)
    requires forall i :: 0 <= i < |h| && !keep(h[i]) ==> MapAfter(Replay(m, h[..i]), h[i].op) == Replay(m, h[..i])
    ensures Legal(scan, m, Filter(h, keep)) && Replay(m, Filter(h, keep)) == Replay(m, h)
  {
    if h != [] {
      var n := |h| - 1;
      forall i | 0 <= i < n
        ensures h[..n][..i] == h[..i]
      {
      }
      LegalPrefix(scan, m, h, n);
      LegalWithout(scan, m, h[..n], keep);
      if keep(h[n]) {
        LegalAppend(scan, m, Filter(h[..n], keep), h[n]);
      }
    }
  }

  // ----- Each request has at most one point -----

  function PointFor(h: seq<Point>, t: Tid): (p: Option<Point>)
    ensures p.Some? ==> p.value in h && p.value.t == t
    ensures p.None? ==> forall q :: q in h ==> q.t != t
  {
    if h == [] then None
    else if h[|h| - 1].t == t then Some(h[|h| - 1])
    else PointFor(h[..|h| - 1], t)
  }

  ghost predicate OnePointEach(h: seq<Point>) {
    forall i, j :: 0 <= i < j < |h| ==> h[i].t != h[j].t && h[i].at < h[j].at
  }

  lemma {:induction false} FilterKeepsOrder(h: seq<Point>, keep: Point -> bool)
    requires OnePointEach(h)
    ensures OnePointEach(Filter(h, keep))
  {
    if h != [] {
      var n := |h| - 1;
      FilterKeepsOrder(h[..n], keep);
      assert forall p :: p in h[..n] ==> p.t != h[n].t && p.at < h[n].at;
    }
  }

  // ----- The invariant -----

  /** What the points so far know about a request that has come this far. */
  ghost predicate Recorded(h: seq<Point>, t: Tid, th: Thread) {
    var p := PointFor(h, t);
    && (p.Some? ==> p.value.op == th.op)
    && match th.pc
       case Begun => p.None?
       case Looked(snap) =>
         && (snap.state.Active? <==> snap.engine.Some?)
         && (th.op.Put? ==> snap.state.Active?)
         && (if snap.state.Pending? then p.Some? && p.value.early && p.value.answer == PendingAnswer(th.op)
             else p.None?)
       case Paid(_) => p.None?
       case Weighed(_) => p.None?
       case Served(_, answer) => p.Some? && p.value.answer == answer
       case Done(Ok(answer)) => p.Some? && p.value.answer == answer
       case Done(Err(_)) => p.Some? ==> p.value.early
  }

  /** Points made while the tenant was pending stand on an empty store and write nothing. */
  ghost predicate EarlyOnesHarmless(m: Store, h: seq<Point>) {
    forall i :: 0 <= i < |h| && h[i].early ==> !h[i].op.Put? && Replay(m, h[..i]) == map[]
  }

  predicate HoldsEngine(pc: Pc) {
    match pc
    case Looked(snap) => snap.engine.Some?
    case Paid(snap) => snap.engine.Some?
    case Weighed(snap) => snap.engine.Some?
    case _ => false
  }

  ghost predicate InLine(scan: Scan, m: Store, w: World, h: seq<Point>, n: nat) {
    && (w.state.Pending? ==> w.engine.None? && w.store == map[])
    && (w.state.Active? ==> w.engine.Some?)
    && (forall t :: t in w.threads && HoldsEngine(w.threads[t].pc) ==> w.state.Active?)
    && Legal(scan, m, h) && Replay(m, h) == w.store
    && OnePointEach(h) && EarlyOnesHarmless(m, h)
    && (forall p :: p in h ==> p.at < n && p.t in w.threads)
    && (forall t :: t in w.threads ==> Recorded(h, t, w.threads[t]))
  }

  lemma HarmlessAppend(m: Store, h: seq<Point>, p: Point)
    requires EarlyOnesHarmless(m, h) && (p.early ==> !p.op.Put? && Replay(m, h) == map[])
    ensures EarlyOnesHarmless(m, h + [p])
  {
    hide Replay;
    var h' := h + [p];
    forall i | 0 <= i < |h'| && h'[i].early
      ensures !h'[i].op.Put? && Replay(m, h'[..i]) == map[]
    {
      assert h'[..i] == if i < |h| then h[..i] else h;
    }
  }

  lemma PointForAppend(h: seq<Point>, p: Point, t: Tid)
    ensures PointFor(h + [p], t) == if p.t == t then Some(p) else PointFor(h, t)
  {
    assert (h + [p])[..|h|] == h;
  }

  /** A step that makes no point. */
  lemma QuietStep(limits: Limits, scan: Scan, m: Store, w: World, h: seq<Point>, n: nat, a: Action)
    requires InLine(scan, m, w, h, n) && Enabled(w, a) && !a.Destroy? && PointOf(scan, w, a, n).None?
    ensures InLine(scan, m, Next(limits, scan, w, a), h, n + 1)
  {
    hide Legal, Replay, OnePointEach, EarlyOnesHarmless, PointFor, MapAnswer, MapAfter, UpFrontCost, Refusal;
    var w' := Next(limits, scan, w, a);
    if a.Invoke? {
      AbsentHasNoPoint(w, h, a.t);
    }
    forall t | t in w'.threads
      ensures Recorded(h, t, w'.threads[t])
    {
      if t in w.threads {
        assert Recorded(h, t, w.threads[t]);
      }
    }
  }

  lemma AbsentHasNoPoint(w: World, h: seq<Point>, t: Tid)
    requires t !in w.threads && forall p :: p in h ==> p.t in w.threads
    ensures PointFor(h, t).None?
  {
  }

  /** A step that makes one. */
  lemma PointStep(limits: Limits, scan: Scan, m: Store, w: World, h: seq<Point>, n: nat, a: Action)
    requires InLine(scan, m, w, h, n) && Enabled(w, a) && !a.Destroy? && PointOf(scan, w, a, n).Some?
    requires EmptyScansEmpty(scan)
    ensures InLine(scan, m, Next(limits, scan, w, a), h + [PointOf(scan, w, a, n).value], n + 1)
  {
    hide Legal, Replay, OnePointEach, EarlyOnesHarmless, PointFor, MapAnswer, MapAfter, EmptyScansEmpty;
    var p := PointOf(scan, w, a, n).value;
    var w' := Next(limits, scan, w, a);
    assert Recorded(h, a.t, w.threads[a.t]);
    if p.early {
      PendingIsEmptyMap(scan, p.op);
    }
    LegalAppend(scan, m, h, p);
    HarmlessAppend(m, h, p);
    LatestPoint(h, p);
    forall t | t in w'.threads
      ensures Recorded(h + [p], t, w'.threads[t])
    {
      PointForAppend(h, p, t);
      assert Recorded(h, t, w.threads[t]);
    }
  }

  lemma PendingIsEmptyMap(scan: Scan, op: Op)
    requires EmptyScansEmpty(scan) && !op.Put?
    ensures MapAnswer(scan, map[], op) == PendingAnswer(op) && MapAfter(map[], op) == map[]
  {
  }

  lemma LatestPoint(h: seq<Point>, p: Point)
    requires OnePointEach(h) && PointFor(h, p.t).None? && forall q :: q in h ==> q.at < p.at
    ensures OnePointEach(h + [p])
  {
    hide PointFor;
  }

  ghost predicate NoDestroy(run: seq<Action>) {
    forall a :: a in run ==> !a.Destroy?
  }

  lemma {:induction false} RunStaysInLine(limits: Limits, scan: Scan, from: Origin, rl: RateLimitConfig,
                                          now: real, run: seq<Action>)
    requires EmptyScansEmpty(scan) && NoDestroy(run)
    requires Possible(limits, scan, Start(from, rl, now), run)
    ensures InLine(scan, StoreFrom(from), Reached(limits, scan, Start(from, rl, now), run),
                   Points(limits, scan, Start(from, rl, now), run), |run|)
  {
    hide InLine, PointOf;
    var w0, m := Start(from, rl, now), StoreFrom(from);
    if run == [] {
      FreshInLine(scan, from, rl, now);
    } else {
      var before, a := run[..|run| - 1], run[|run| - 1];
      assert a in run;
      RunStaysInLine(limits, scan, from, rl, now, before);
      var w, h := Reached(limits, scan, w0, before), Points(limits, scan, w0, before);
      if PointOf(scan, w, a, |before|).None? {
        QuietStep(limits, scan, m, w, h, |before|, a);
      } else {
        PointStep(limits, scan, m, w, h, |before|, a);
      }
    }
  }

  lemma FreshInLine(scan: Scan, from: Origin, rl: RateLimitConfig, now: real)
    ensures InLine(scan, StoreFrom(from), Start(from, rl, now), [], 0)
  {
  }

  // ----- A request's point lies between its call and its return -----

  ghost predicate UnderWay(w: World, t: Tid) {
    t in w.threads && !w.threads[t].pc.Done?
  }

  lemma {:induction false} PointsWithinRequests(limits: Limits, scan: Scan, w: World, run: seq<Action>)
    requires Possible(limits, scan, w, run)
    ensures forall p :: p in Points(limits, scan, w, run) ==>
      p.at < |run| && UnderWay(Reached(limits, scan, w, run[..p.at]), p.t)
  {
    if run != [] {
      var n := |run| - 1;
      PointsWithinRequests(limits, scan, w, run[..n]);
      forall p | p in Points(limits, scan, w, run)
        ensures p.at < |run| && UnderWay(Reached(limits, scan, w, run[..p.at]), p.t)
      {
        if p in Points(limits, scan, w, run[..n]) {
          assert run[..n][..p.at] == run[..p.at];
        }
      }
    }
  }

  /** Requests that were called stay called, and what they answered stays answered. */
  lemma {:induction false} ThreadsPersist(limits: Limits, scan: Scan, w: World, run: seq<Action>,
                                          i: nat, j: nat, t: Tid)
    requires Possible(limits, scan, w, run) && i <= j <= |run|
    requires t in Reached(limits, scan, w, run[..i]).threads
    ensures t in Reached(limits, scan, w, run[..j]).threads
    ensures
      var before, later := Reached(limits, scan, w, run[..i]).threads[t], Reached(limits, scan, w, run[..j]).threads[t];
      before.pc.Done? ==> later == before
    decreases j
  {
    if i < j {
      ThreadsPersist(limits, scan, w, run, i, j - 1, t);
      StepAt(limits, scan, w, run, j - 1);
      StepKeepsThread(limits, scan, Reached(limits, scan, w, run[..j - 1]), run[j - 1], t);
    }
  }

  lemma StepKeepsThread(limits: Limits, scan: Scan, w: World, a: Action, t: Tid)
    requires Enabled(w, a) && t in w.threads
    ensures t in Next(limits, scan, w, a).threads
    ensures w.threads[t].pc.Done? ==> Next(limits, scan, w, a).threads[t] == w.threads[t]
  {
    hide MapAnswer, MapAfter, Refusal, UpFrontCost;
  }

  // ----- The theorem -----

  /** h explains the run: a legal sequential history, one point for every request that was answered and none
      for one that failed, each point between the request's call and its return. */
  ghost predicate Explains(limits: Limits, scan: Scan, w: World, run: seq<Action>, h: seq<Point>) {
    var end := Reached(limits, scan, w, run);
    && Legal(scan, w.store, h) && Replay(w.store, h) == end.store
    && OnePointEach(h)
    && (forall p :: p in h ==> p.at < |run| && UnderWay(Reached(limits, scan, w, run[..p.at]), p.t))
    && (forall p :: p in h ==> p.t in end.threads && p.op == end.threads[p.t].op)
    && (forall t :: t in end.threads && end.threads[t].pc.Done? ==>
          match end.threads[t].pc.response
          case Ok(answer) => exists p :: p in h && p.t == t && p.answer == answer
          case Err(_) => forall p :: p in h ==> p.t != t)
  }

  predicate Failed(w: World, t: Tid) {
    t in w.threads && w.threads[t].pc.Done? && w.threads[t].pc.response.Err?
  }

  /** The points of failed requests wrote nothing: the others alone are a legal history. */
  lemma InLineWithoutFailed(scan: Scan, m: Store, w: World, h: seq<Point>, n: nat)
    requires InLine(scan, m, w, h, n) && EmptyScansEmpty(scan)
    ensures var k := Filter(h, (p: Point) => !Failed(w, p.t));
      Legal(scan, m, k) && Replay(m, k) == w.store && OnePointEach(k)
  {
    hide Legal, Replay, MapAnswer, MapAfter, EmptyScansEmpty;
    var keep := (p: Point) => !Failed(w, p.t);
    forall i | 0 <= i < |h| && !keep(h[i])
      ensures MapAfter(Replay(m, h[..i]), h[i].op) == Replay(m, h[..i])
    {
      OnlyPoint(h, h[i]);
      assert Recorded(h, h[i].t, w.threads[h[i].t]);
      PendingIsEmptyMap(scan, h[i].op);
    }
    LegalWithout(scan, m, h, keep);
    FilterKeepsOrder(h, keep);
  }

  lemma InLineExplains(scan: Scan, m: Store, w: World, h: seq<Point>, n: nat)
    requires InLine(scan, m, w, h, n) && EmptyScansEmpty(scan)
    ensures var k := Filter(h, (p: Point) => !Failed(w, p.t));
      && (forall p :: p in k ==> p.t in w.threads && p.op == w.threads[p.t].op)
      && (forall t :: t in w.threads && w.threads[t].pc.Done? ==>
            match w.threads[t].pc.response
            case Ok(answer) => exists p :: p in k && p.t == t && p.answer == answer
            case Err(_) => forall p :: p in k ==> p.t != t)
  {
    hide Legal, Replay, EmptyScansEmpty, EarlyOnesHarmless;
    var keep := (p: Point) => !Failed(w, p.t);
    forall p | p in h
      ensures p.op == w.threads[p.t].op
    {
      OnlyPoint(h, p);
      assert Recorded(h, p.t, w.threads[p.t]);
    }
    forall t | t in w.threads && w.threads[t].pc.Done? && w.threads[t].pc.response.Ok?
      ensures exists p :: p in Filter(h, keep) && p.t == t && p.answer == w.threads[t].pc.response.value
    {
      assert Recorded(h, t, w.threads[t]);
      var p := PointFor(h, t).value;
      assert p in h && keep(p);
    }
  }

  lemma OnlyPoint(h: seq<Point>, p: Point)
    requires OnePointEach(h) && p in h
    ensures PointFor(h, p.t) == Some(p)
  {
  }

  /** The points of the requests that did not fail. */
  ghost function Linearization(limits: Limits, scan: Scan, w: World, run: seq<Action>): seq<Point>
    requires Possible(limits, scan, w, run)
  {
    var end := Reached(limits, scan, w, run);
    Filter(Points(limits, scan, w, run), (p: Point) => !Failed(end, p.t))
  }

  /** Every interleaving of requests and rate-limit changes, without a Destroy, on a new database or on one
      restored with its contents, is explained by a sequential history of a map with those contents. */
  lemma {:induction false} LazyDatabaseIsLinearizable(limits: Limits, scan: Scan, from: Origin, rl: RateLimitConfig,
                                                      now: real, run: seq<Action>)
    requires EmptyScansEmpty(scan) && NoDestroy(run)
    requires Possible(limits, scan, Start(from, rl, now), run)
    ensures Explains(limits, scan, Start(from, rl, now), run, Linearization(limits, scan, Start(from, rl, now), run))
  {
    hide InLine, Points, Reached, Legal, Replay, OnePointEach, EmptyScansEmpty;
    var w, m := Start(from, rl, now), StoreFrom(from);
    RunStaysInLine(limits, scan, from, rl, now, run);
    InLineWithoutFailed(scan, m, Reached(limits, scan, w, run), Points(limits, scan, w, run), |run|);
    InLineExplains(scan, m, Reached(limits, scan, w, run), Points(limits, scan, w, run), |run|);
    PointsWithinRequests(limits, scan, w, run);
  }

  /** The history respects real time: a request that had returned before another was called comes first. */
  lemma {:induction false} RealTimeOrder(limits: Limits, scan: Scan, w: World, run: seq<Action>, h: seq<Point>,
                                         i: nat, p: Point, q: Point)
    requires Possible(limits, scan, w, run) && Explains(limits, scan, w, run, h) && i <= |run|
    requires p in h && q in h
    requires p.t in Reached(limits, scan, w, run[..i]).threads && !UnderWay(Reached(limits, scan, w, run[..i]), p.t)
    requires q.t !in Reached(limits, scan, w, run[..i]).threads
    ensures p.at < i <= q.at
  {
    hide Reached;
    if i <= p.at {
      ThreadsPersist(limits, scan, w, run, i, p.at, p.t);
    }
    if q.at < i {
      ThreadsPersist(limits, scan, w, run, q.at, i, q.t);
    }
  }
}
