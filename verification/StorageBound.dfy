/** The storage limit is checked before the write, not with it: how far writers can overshoot together. */
module StorageBound {
  import opened Base
  import opened RateLimiter
  import opened Tenants
  import opened Threads

  /** Writers that have passed the check and have not yet written. */
  function InFlight(w: World): set<Tid> {
    set t | t in w.threads && w.threads[t].pc.Weighed?
  }

  function Writers(w: World): set<Tid> {
    set t | t in w.threads && w.threads[t].op.Put? && !w.threads[t].pc.Done?
  }

  /** A directory just made starts below the limit, a write adds at most `growth`, nothing else adds anything. */
  predicate Frugal(limits: Limits, growth: nat, w: World, a: Action) {
    match a
    case Look(_, _, _, freshSize) => freshSize < limits.maxStorageBytes
    case Call(t, _, size) => size <= w.size + (if t in w.threads && w.threads[t].op.Put? then growth else 0)
    case Destroy(_, size) => size <= w.size
    case _ => true
  }

  /** Every step of the run is frugal and no state of it has more than `most` writers. */
  ghost predicate FrugalRun(limits: Limits, scan: Scan, growth: nat, most: nat, w: World, run: seq<Action>) {
    && (forall i :: 0 <= i < |run| ==> Frugal(limits, growth, Reached(limits, scan, w, run[..i]), run[i]))
    && (forall i :: 0 <= i <= |run| ==> |Writers(Reached(limits, scan, w, run[..i]))| <= most)
  }

  /** What is stored plus what the writers in flight may still add. */
  ghost predicate Bounded(limits: Limits, growth: nat, most: nat, w: World) {
    && w.size + |InFlight(w)| * growth <= limits.maxStorageBytes - 1 + most * growth
    && (forall t :: t in w.threads && w.threads[t].pc.Weighed? ==> w.threads[t].op.Put?)
  }

  lemma Times(a: nat, b: nat, growth: nat)
    requires a <= b
    ensures a * growth <= b * growth
  {
    assert (b - a) * growth >= 0;
  }

  /** How a step changes the set of writers in flight. */
  lemma InFlightAfter(limits: Limits, scan: Scan, w: World, a: Action)
    requires Enabled(w, a)
    ensures var before, later := InFlight(w), InFlight(Next(limits, scan, w, a));
      match a
      case Weigh(t, ok) =>
        t !in before && (later == before || (later == before + {t} && w.size < limits.maxStorageBytes))
      case Call(t, _, _) => later == before - {t} && (t in before <==> w.threads[t].op.Put?)
      case _ => later == before
  {
    hide MapAnswer, MapAfter, Refusal, UpFrontCost;
    var w' := Next(limits, scan, w, a);
    assert forall t :: t in InFlight(w') <==> t in w'.threads && w'.threads[t].pc.Weighed?;
  }

  lemma StepKeepsPuts(limits: Limits, scan: Scan, growth: nat, most: nat, w: World, a: Action)
    requires Enabled(w, a) && Bounded(limits, growth, most, w)
    ensures forall t :: t in InFlight(Next(limits, scan, w, a)) ==> Next(limits, scan, w, a).threads[t].op.Put?
  {
    hide MapAnswer, MapAfter, Refusal, UpFrontCost;
  }

  lemma StepBounded(limits: Limits, scan: Scan, growth: nat, most: nat, w: World, a: Action)
    requires Enabled(w, a) && Frugal(limits, growth, w, a) && Bounded(limits, growth, most, w)
    requires |Writers(Next(limits, scan, w, a))| <= most && limits.maxStorageBytes > 0
    ensures Bounded(limits, growth, most, Next(limits, scan, w, a))
  {
    var w' := Next(limits, scan, w, a);
    StepKeepsPuts(limits, scan, growth, most, w, a);
    InFlightAfter(limits, scan, w, a);
    SizeAfter(limits, scan, w, a);
    hide Next, Enabled, InFlight;
    var before, later := InFlight(w), InFlight(w');
    InFlightFits(w', most);
    Times(|later|, most, growth);
    match a
    case Call(t, _, _) =>
      if t in before {
        assert |later| == |before| - 1;
        assert |before| * growth == |later| * growth + growth;
      } else {
        assert later == before;
      }
    case _ =>
  }

  lemma InFlightFits(w: World, most: nat)
    requires |Writers(w)| <= most && forall t :: t in InFlight(w) ==> w.threads[t].op.Put?
    ensures |InFlight(w)| <= most
    ensures forall t :: t in w.threads && w.threads[t].pc.Weighed? ==> w.threads[t].op.Put?
  {
    assert forall t :: t in w.threads && w.threads[t].pc.Weighed? ==> t in InFlight(w);
    SubsetSize(InFlight(w), Writers(w));
  }

  lemma SizeAfter(limits: Limits, scan: Scan, w: World, a: Action)
    requires Enabled(w, a)
    ensures var w' := Next(limits, scan, w, a);
      match a
      case Look(_, _, _, freshSize) => w'.size == w.size || w'.size == freshSize
      case Call(_, _, size) => w'.size == size
      case Destroy(_, size) => w'.size == size || w'.size == 0
      case _ => w'.size <= w.size
  {
    hide MapAnswer, MapAfter, Refusal, UpFrontCost;
  }

  /** A restored database may begin above the limit; while it is, nobody passes the check. */
  ghost predicate Settled(from: Origin, w: World) {
    InFlight(w) == {} && w.size <= SizeFrom(from)
  }

  lemma SettledBelow(limits: Limits, growth: nat, most: nat, w: World)
    requires InFlight(w) == {} && w.size < limits.maxStorageBytes
    ensures Bounded(limits, growth, most, w)
  {
    Times(0, most, growth);
    assert forall t :: t in w.threads && w.threads[t].pc.Weighed? ==> t in InFlight(w);
  }

  lemma StepSettled(limits: Limits, scan: Scan, growth: nat, from: Origin, w: World, a: Action)
    requires Enabled(w, a) && Frugal(limits, growth, w, a) && Settled(from, w)
    requires limits.maxStorageBytes <= w.size
    ensures Settled(from, Next(limits, scan, w, a))
  {
    InFlightAfter(limits, scan, w, a);
    SizeAfter(limits, scan, w, a);
  }

  /** With at most `most` writers at a time, the size never exceeds the last byte under the limit by more
      than one write for each of them, in any state of any run, unless it began above and has never been
      higher than then. */
  lemma {:induction false} StorageOvershoot(limits: Limits, scan: Scan, growth: nat, most: nat, from: Origin,
                                            rl: RateLimitConfig, now: real, run: seq<Action>)
    requires limits.maxStorageBytes > 0
    requires Possible(limits, scan, Start(from, rl, now), run)
    requires FrugalRun(limits, scan, growth, most, Start(from, rl, now), run)
    ensures var w := Reached(limits, scan, Start(from, rl, now), run);
      && (Bounded(limits, growth, most, w) || Settled(from, w))
      && (w.size <= limits.maxStorageBytes - 1 + most * growth || w.size <= SizeFrom(from))
  {
    hide Next, Enabled, Frugal, Settled, Bounded;
    var w0 := Start(from, rl, now);
    if run == [] {
      StartSettled(from, rl, now);
    } else {
      var n := |run| - 1;
      var before := run[..n];
      forall i | 0 <= i <= n
        ensures before[..i] == run[..i]
      {
      }
      assert run[..n + 1] == run && before[..n] == before;
      StepAt(limits, scan, w0, run, n);
      StorageOvershoot(limits, scan, growth, most, from, rl, now, before);
      StepStaysBounded(limits, scan, growth, most, from, Reached(limits, scan, w0, before), run[n]);
    }
    BoundedSize(limits, growth, most, from, Reached(limits, scan, w0, run));
  }

  lemma StartSettled(from: Origin, rl: RateLimitConfig, now: real)
    ensures Settled(from, Start(from, rl, now))
  {
  }

  lemma StepStaysBounded(limits: Limits, scan: Scan, growth: nat, most: nat, from: Origin, w: World, a: Action)
    requires Enabled(w, a) && Frugal(limits, growth, w, a) && (Bounded(limits, growth, most, w) || Settled(from, w))
    requires |Writers(Next(limits, scan, w, a))| <= most && limits.maxStorageBytes > 0
    ensures var w' := Next(limits, scan, w, a); Bounded(limits, growth, most, w') || Settled(from, w')
  {
    hide Next, Enabled, Frugal, Bounded, InFlight;
    if Settled(from, w) && limits.maxStorageBytes <= w.size {
      StepSettled(limits, scan, growth, from, w, a);
    } else {
      if Settled(from, w) {
        SettledBelow(limits, growth, most, w);
      }
      StepBounded(limits, scan, growth, most, w, a);
    }
  }

  lemma BoundedSize(limits: Limits, growth: nat, most: nat, from: Origin, w: World)
    requires Bounded(limits, growth, most, w) || Settled(from, w)
    ensures w.size <= limits.maxStorageBytes - 1 + most * growth || w.size <= SizeFrom(from)
  {
    Times(0, |InFlight(w)|, growth);
  }
}
