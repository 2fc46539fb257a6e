/** How far concurrent requests can overdraw a bucket together: reads are paid for after they were served. */
module Overdraft {
  import opened Base
  import opened RateLimiter
  import opened Tenants
  import opened Threads
  import Lifetime
  import Spending

  // ----- The books of one bucket -----

  /** When the bucket was installed, all that was taken from it, and what was charged for reads since it last
      admitted a request. */
  datatype Ledger = Ledger(since: real, spent: real, charges: seq<real>)

  function Sum(costs: seq<real>): real {
    if costs == [] then 0.0 else Sum(costs[..|costs| - 1]) + costs[|costs| - 1]
  }

  lemma SumOneMore(costs: seq<real>, c: real)
    ensures Sum(costs + [c]) == Sum(costs) + c
  {
    assert (costs + [c])[..|costs|] == costs;
  }

  function Taken(l: Ledger, cost: real): Ledger {
    Ledger(l.since, l.spent + cost, [])
  }

  function ChargedFor(l: Ledger, cost: real): Ledger {
    Ledger(l.since, l.spent + cost, l.charges + [cost])
  }

  /** What was taken and what is left never exceed what was granted, and the debt is at most what was charged
      since the last admission. */
  ghost predicate Even(b: Bucket, rl: RateLimitConfig, l: Ledger) {
    && b.capacity == rl.capacityBytes && b.refillPerSec == rl.refillBytesPerSec
    && l.spent + b.tokens <= rl.capacityBytes + rl.refillBytesPerSec * (b.last - l.since)
    && 0.0 <= b.tokens + Sum(l.charges)
    && b.tokens <= b.capacity
  }

  lemma EvenFull(rl: RateLimitConfig, at: real)
    requires Spending.FairPrices(rl)
    ensures Even(FullBucket(rl, at), rl, Ledger(at, 0.0, []))
  {
  }

  lemma EvenAfterConsume(b: Bucket, rl: RateLimitConfig, l: Ledger, at: real, cost: real)
    requires Even(b, rl, l) && Spending.FairPrices(rl) && b.last <= at && cost >= 0.0
    ensures Even(b.Consumed(at, cost), rl, if b.Admits(at, cost) then Taken(l, cost) else l)
  {
    Granted(b, rl, l.since, at);
  }

  /** What a refill adds, in terms of the installation. */
  lemma Granted(b: Bucket, rl: RateLimitConfig, since: real, at: real)
    requires b.refillPerSec == rl.refillBytesPerSec && Spending.FairPrices(rl)
    requires b.last <= at && b.tokens <= b.capacity
    ensures var before, later := rl.refillBytesPerSec * (b.last - since), rl.refillBytesPerSec * (at - since);
      b.Level(at) - b.tokens <= later - before && b.tokens <= b.Level(at) <= b.capacity
  {
    Spending.RefillGrants(b, since, at);
  }

  lemma EvenAfterCharge(b: Bucket, rl: RateLimitConfig, l: Ledger, at: real, cost: real)
    requires Even(b, rl, l) && Spending.FairPrices(rl) && b.last <= at && cost >= 0.0
    ensures Even(b.Charged(at, cost), rl, ChargedFor(l, cost))
  {
    hide Sum, Spending.FairPrices, Min;
    Granted(b, rl, l.since, at);
    SumOneMore(l.charges, cost);
  }

  // ----- Booking the steps of a run -----

  function Booked(w: World, a: Action, b: nat, l: Ledger): Ledger
    requires Enabled(w, a)
  {
    match a
    case Spend(t, at) =>
      var snap := w.threads[t].pc.snap;
      var cost := snap.rl.flatOverheadBytes + Spending.WriteCost(snap.rl, w.threads[t].op);
      if snap.bucket == b && w.buckets[b].Admits(at, cost) then Taken(l, cost) else l
    case Charge(t, at) =>
      var Served(snap, answer) := w.threads[t].pc;
      if snap.bucket == b then ChargedFor(l, Spending.WeightedRead(snap.rl, answer)) else l
    case SetRateLimit(_, at) => if b == |w.buckets| then Ledger(at, 0.0, []) else l
    case _ => l
  }

  ghost function BookedAll(limits: Limits, scan: Scan, w: World, run: seq<Action>, now: real, b: nat): Ledger
    requires Possible(limits, scan, w, run)
  {
    if run == [] then Ledger(now, 0.0, [])
    else
      var before := run[..|run| - 1];
      Booked(Reached(limits, scan, w, before), run[|run| - 1], b, BookedAll(limits, scan, w, before, now, b))
  }

  /** The reads that bucket b has admitted and that have not been charged yet. */
  function Readers(w: World, b: nat): set<Tid> {
    set t | t in w.threads && IsReader(w.threads[t], b)
  }

  predicate IsReader(th: Thread, b: nat) {
    match th.pc
    case Paid(snap) => (th.op.Get? || th.op.Range?) && snap.bucket == b
    case Served(snap, _) => snap.bucket == b
    case _ => false
  }

  /** A bucket is not asked about a time before the last one. */
  predicate Punctual(w: World, a: Action)
    requires Enabled(w, a)
  {
    match a
    case Spend(t, at) => w.buckets[w.threads[t].pc.snap.bucket].last <= at
    case Charge(t, at) => w.buckets[w.threads[t].pc.snap.bucket].last <= at
    case _ => true
  }

  // ----- One step -----

  ghost predicate FairlyPriced(w: World) {
    forall i :: 0 <= i < |w.installed| ==> Spending.FairPrices(w.installed[i])
  }

  lemma StepStaysEven(limits: Limits, scan: Scan, w: World, a: Action, b: nat, l: Ledger)
    requires Enabled(w, a) && Punctual(w, a) && Lifetime.Sound(w) && FairlyPriced(w)
    requires a.SetRateLimit? ==> Spending.FairPrices(a.rl)
    requires b < |w.buckets| ==> Even(w.buckets[b], w.installed[b], l)
    ensures var w' := Next(limits, scan, w, a);
      && |w'.buckets| == |w'.installed| && FairlyPriced(w')
      && (b < |w'.buckets| ==> Even(w'.buckets[b], w'.installed[b], Booked(w, a, b, l)))
  {
    hide Even, UpFrontCost, ReadBytes, MapAnswer, MapAfter, Refusal, Spending.FairPrices, Min,
      Spending.WriteCost, Spending.WeightedRead;
    match a
    case Spend(t, at) =>
      var snap, op := w.threads[t].pc.snap, w.threads[t].op;
      assert Lifetime.SoundSnapshot(w, snap);
      if snap.bucket == b {
        Spending.UpFrontIs(snap.rl, op);
        Spending.CostsNotNegative(snap.rl, op, Ok(Stored));
        EvenAfterConsume(w.buckets[b], snap.rl, l, at, UpFrontCost(snap.rl, op));
      }
    case Charge(t, at) =>
      var Served(snap, answer) := w.threads[t].pc;
      assert Lifetime.SoundSnapshot(w, snap);
      if snap.bucket == b {
        Spending.ReadsAreWeighed(snap.rl, answer);
        Spending.WeightNotNegative(snap.rl, answer);
        EvenAfterCharge(w.buckets[b], snap.rl, l, at, snap.rl.ReadCost(ReadBytes(answer)));
      }
    case SetRateLimit(rl, at) => EvenFull(rl, at);
    case _ =>
  }

  /** How a step changes the readers of a bucket: only an admission adds one, and a charge takes one away. */
  lemma ReadersAfter(limits: Limits, scan: Scan, w: World, a: Action, b: nat)
    requires Enabled(w, a)
    ensures var before, later := Readers(w, b), Readers(Next(limits, scan, w, a), b);
      match a
      case Spend(t, at) =>
        var snap := w.threads[t].pc.snap;
        later <= before
        || (snap.bucket == b
            && w.buckets[b].Admits(at, snap.rl.flatOverheadBytes + Spending.WriteCost(snap.rl, w.threads[t].op)))
      case Charge(t, _) => later == before - {t} && (t in before <==> w.threads[t].pc.snap.bucket == b)
      case _ => later <= before
  {
    hide MapAfter, Refusal, Min, ReadBytes;
  }

  lemma StepKeepsReaders(limits: Limits, scan: Scan, w: World, a: Action, b: nat, l: Ledger, most: nat)
    requires Enabled(w, a) && |l.charges| + |Readers(w, b)| <= most
    requires |Readers(Next(limits, scan, w, a), b)| <= most
    ensures |Booked(w, a, b, l).charges| + |Readers(Next(limits, scan, w, a), b)| <= most
  {
    hide Next, Readers, UpFrontCost, ReadBytes;
    var before, later := Readers(w, b), Readers(Next(limits, scan, w, a), b);
    ReadersAfter(limits, scan, w, a, b);
    if later <= before {
      SubsetSize(later, before);
    }
    if a.Charge? && a.t in before {
      assert |later| == |before| - 1;
    }
  }

  // ----- Whole runs -----

  /** Every step is punctual, every price list is fair, and no state has more than `most` readers of b. */
  ghost predicate FairRun(limits: Limits, scan: Scan, w: World, run: seq<Action>, b: nat, most: nat)
    requires Possible(limits, scan, w, run)
  {
    && (forall i :: 0 <= i < |run| && run[i].SetRateLimit? ==> Spending.FairPrices(run[i].rl))
    && (forall i :: 0 <= i < |run| ==> PunctualAt(limits, scan, w, run, i))
    && (forall i :: 0 <= i <= |run| ==> |Readers(Reached(limits, scan, w, run[..i]), b)| <= most)
  }

  ghost predicate PunctualAt(limits: Limits, scan: Scan, w: World, run: seq<Action>, i: nat)
    requires i < |run|
  {
    Enabled(Reached(limits, scan, w, run[..i]), run[i]) && Punctual(Reached(limits, scan, w, run[..i]), run[i])
  }

  lemma {:induction false} RunStaysEven(limits: Limits, scan: Scan, from: Origin, rl: RateLimitConfig, now: real,
                                        run: seq<Action>, b: nat, most: nat)
    requires Spending.FairPrices(rl) && Possible(limits, scan, Start(from, rl, now), run)
    requires FairRun(limits, scan, Start(from, rl, now), run, b, most)
    ensures var w := Reached(limits, scan, Start(from, rl, now), run);
      var l := BookedAll(limits, scan, Start(from, rl, now), run, now, b);
      && |w.buckets| == |w.installed| && FairlyPriced(w)
      && (b < |w.buckets| ==> Even(w.buckets[b], w.installed[b], l))
      && |l.charges| + |Readers(w, b)| <= most
  {
    hide Even, Next, Enabled, Punctual, Readers, Booked, Spending.FairPrices, Lifetime.Sound;
    var w0 := Start(from, rl, now);
    if run == [] {
      assert run[..0] == run;
      EvenFull(rl, now);
    } else {
      var n := |run| - 1;
      var before := run[..n];
      forall i | 0 <= i <= n
        ensures before[..i] == run[..i]
      {
      }
      forall i | 0 <= i < n
        ensures PunctualAt(limits, scan, w0, before, i)
      {
        assert PunctualAt(limits, scan, w0, run, i);
      }
      assert run[..n + 1] == run;
      StepAt(limits, scan, w0, run, n);
      RunStaysEven(limits, scan, from, rl, now, before, b, most);
      Lifetime.RunSound(limits, scan, from, rl, now, before);
      assert PunctualAt(limits, scan, w0, run, n);
      var w, l := Reached(limits, scan, w0, before), BookedAll(limits, scan, w0, before, now, b);
      StepStaysEven(limits, scan, w, run[n], b, l);
      StepKeepsReaders(limits, scan, w, run[n], b, l, most);
    }
  }

  /** Over every interleaving, on a new or restored database, with at most `most` reads at a time: what is taken
      from any bucket stays within its capacity, its refill since its installation, and what was charged for
      reads since it last admitted a request; and those charges are at most `most`. */
  lemma {:induction false} OverdraftBound(limits: Limits, scan: Scan, from: Origin, rl: RateLimitConfig, now: real,
                                          run: seq<Action>, b: nat, most: nat, at: real)
    requires Spending.FairPrices(rl) && Possible(limits, scan, Start(from, rl, now), run)
    requires FairRun(limits, scan, Start(from, rl, now), run, b, most)
    requires var w := Reached(limits, scan, Start(from, rl, now), run); b < |w.buckets| && w.buckets[b].last <= at
    ensures var w := Reached(limits, scan, Start(from, rl, now), run);
      var l := BookedAll(limits, scan, Start(from, rl, now), run, now, b);
      && b < |w.installed| && |l.charges| <= most
      && l.spent <= w.installed[b].capacityBytes + w.installed[b].refillBytesPerSec * (at - l.since) + Sum(l.charges)
  {
    hide Even, FairRun, BookedAll, Readers, Spending.FairPrices;
    RunStaysEven(limits, scan, from, rl, now, run, b, most);
    var w := Reached(limits, scan, Start(from, rl, now), run);
    EvenBound(w.buckets[b], w.installed[b], BookedAll(limits, scan, Start(from, rl, now), run, now, b), at);
  }

  lemma EvenBound(b: Bucket, rl: RateLimitConfig, l: Ledger, at: real)
    requires Even(b, rl, l) && Spending.FairPrices(rl) && b.last <= at
    ensures l.spent <= rl.capacityBytes + rl.refillBytesPerSec * (at - l.since) + Sum(l.charges)
  {
    Spending.ElapsedGrows(rl.refillBytesPerSec, l.since, b.last, at);
  }
}
