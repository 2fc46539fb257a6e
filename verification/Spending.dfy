/** What a tenant can spend, although reads are paid for only after they were served. */
module Spending {
  import opened Base
  import opened RateLimiter
  import opened Tenants
  import opened Runs

  /** Nothing in the price list is negative, so the bucket does not drain. */
  ghost predicate FairPrices(rl: RateLimitConfig) {
    && rl.capacityBytes >= 0.0
    && rl.refillBytesPerSec >= 0.0
    && rl.flatOverheadBytes >= 0.0
    && rl.writeByteWeight >= 0.0
    && rl.readByteWeight >= 0.0
  }

  ghost predicate FairLimits(steps: seq<Step>) {
    forall i :: 0 <= i < |steps| && steps[i].SetRateLimit? ==> FairPrices(steps[i].rl)
  }

  /** The weighted bytes of the value a request carries. */
  function WriteCost(rl: RateLimitConfig, op: Op): real {
    if op.Put? then |op.value| as real * rl.writeByteWeight else 0.0
  }

  function PairBytes(pairs: seq<KV>): nat {
    if pairs == [] then 0 else |pairs[0].key| + |pairs[0].value| + PairBytes(pairs[1..])
  }

  /** The weighted bytes of an answer: a value's, or the keys' and values' of a range. */
  function WeightedRead(rl: RateLimitConfig, answer: Answer): real {
    match answer
    case Found(value) => |value| as real * rl.readByteWeight
    case Pairs(pairs) => PairBytes(pairs) as real * rl.readByteWeight
    case _ => 0.0
  }

  function ReadCostOf(rl: RateLimitConfig, r: Response): real {
    if r.Ok? then WeightedRead(rl, r.value) else 0.0
  }

  /** This is what is charged. */
  lemma ReadsAreWeighed(rl: RateLimitConfig, answer: Answer)
    ensures rl.ReadCost(ReadBytes(answer)) == WeightedRead(rl, answer)
  {
    if answer.Pairs? {
      TotalIsPairBytes(answer.pairs);
    }
  }

  lemma {:induction false} TotalIsPairBytes(pairs: seq<KV>)
    ensures TotalBytes(pairs) == PairBytes(pairs)
  {
    if pairs != [] {
      PairBytesAppend(pairs[..|pairs| - 1], pairs[|pairs| - 1]);
      TotalIsPairBytes(pairs[..|pairs| - 1]);
      assert pairs == pairs[..|pairs| - 1] + [pairs[|pairs| - 1]];
    }
  }

  lemma {:induction false} PairBytesAppend(pairs: seq<KV>, kv: KV)
    ensures PairBytes(pairs + [kv]) == PairBytes(pairs) + |kv.key| + |kv.value|
  {
    if pairs == [] {
      assert [kv][1..] == [];
    } else {
      assert (pairs + [kv])[1..] == pairs[1..] + [kv];
      PairBytesAppend(pairs[1..], kv);
    }
  }

  /** What one request was worth, judged by its response alone. */
  function Worth(rl: RateLimitConfig, op: Op, r: Response): real {
    if Admitted(r) then rl.flatOverheadBytes + WriteCost(rl, op) + ReadCostOf(rl, r) else 0.0
  }

  /** The bookkeeping of a run: the tenant and its directory now, when its bucket was installed, everything
      spent from that bucket so far, the read cost of the last request it admitted. */
  datatype Ledger = Ledger(whole: Whole, since: real, spent: real, lastRead: real)

  /** The books are opened when a bucket is installed: by a provision, a restart or a rate-limit change. */
  function Opening(w: Whole, since: real): Ledger {
    Ledger(w, since, 0.0, 0.0)
  }

  function Booked(limits: Limits, scan: Scan, l: Ledger, s: Step): Ledger {
    var w := WholeAfter(limits, scan, l.whole, s);
    match s
    case SetRateLimit(_, at) => Opening(w, at)
    case Ask(op, env) =>
      var rl := l.whole.tenant.rateLimit;
      var r := Request(limits, scan, l.whole.tenant, l.whole.dir, op, env).response;
      Ledger(w, l.since, l.spent + Worth(rl, op, r), if Admitted(r) then ReadCostOf(rl, r) else l.lastRead)
  }

  function BookedAll(limits: Limits, scan: Scan, l: Ledger, steps: seq<Step>): Ledger
    decreases |steps|
  {
    if steps == [] then l else BookedAll(limits, scan, Booked(limits, scan, l, steps[0]), steps[1..])
  }

  /** The books balance: what was spent and what is left never exceed what was granted, and the only debt
      is the last answer. */
  ghost predicate Balanced(l: Ledger) {
    var b, rl := l.whole.tenant.bucket, l.whole.tenant.rateLimit;
    && FairPrices(rl)
    && b.capacity == rl.capacityBytes && b.refillPerSec == rl.refillBytesPerSec
    && l.spent + b.tokens <= rl.capacityBytes + rl.refillBytesPerSec * (b.last - l.since)
    && 0.0 <= b.tokens + l.lastRead
    && b.tokens <= b.capacity
    && 0.0 <= l.lastRead
  }

  /** Refilling grants at most the elapsed time's share. */
  lemma RefillGrants(b: Bucket, created: real, now: real)
    requires b.last <= now && b.refillPerSec >= 0.0 && b.tokens <= b.capacity
    ensures b.Level(now) - b.tokens <= b.refillPerSec * (now - created) - b.refillPerSec * (b.last - created)
    ensures b.tokens <= b.Level(now) <= b.capacity
  {
    var granted := (now - b.last) * b.refillPerSec;
    ScaleNonNegative(now - b.last, b.refillPerSec);
    assert b.refillPerSec * (now - created) == b.refillPerSec * (b.last - created) + granted;
  }

  lemma CostsNotNegative(rl: RateLimitConfig, op: Op, r: Response)
    requires FairPrices(rl)
    ensures WriteCost(rl, op) >= 0.0 && rl.flatOverheadBytes >= 0.0 && ReadCostOf(rl, r) >= 0.0
  {
    if op.Put? {
      ScaleNonNegative(|op.value| as real, rl.writeByteWeight);
    }
    if r.Ok? {
      WeightNotNegative(rl, r.value);
    }
  }

  lemma UpFrontIs(rl: RateLimitConfig, op: Op)
    ensures UpFrontCost(rl, op) == rl.flatOverheadBytes + WriteCost(rl, op)
  {
  }

  lemma WeightNotNegative(rl: RateLimitConfig, answer: Answer)
    requires FairPrices(rl)
    ensures WeightedRead(rl, answer) >= 0.0
  {
    match answer
    case Found(value) => ScaleNonNegative(|value| as real, rl.readByteWeight);
    case Pairs(pairs) => ScaleNonNegative(PairBytes(pairs) as real, rl.readByteWeight);
    case _ =>
  }

  /** What a request does to the bucket, told from its response. */
  ghost predicate BucketTells(t: Tenant, op: Op, env: Env, o: Outcome) {
    var rl, b, b' := t.rateLimit, t.bucket, o.tenant.bucket;
    var cost, read := rl.flatOverheadBytes + WriteCost(rl, op), ReadCostOf(rl, o.response);
    && o.tenant.rateLimit == rl
    && (Admitted(o.response) ==>
          && b.Admits(env.now, cost)
          && (b' == b.Charged(env.now, cost).Charged(env.later, read)
              || (b' == b.Charged(env.now, cost) && read == 0.0)))
    && (!Admitted(o.response) ==> b' == b || b' == b.Refilled(env.now))
  }

  lemma PaidTells(limits: Limits, scan: Scan, t: Tenant, dir: Option<Dir>, op: Op, env: Env)
    ensures BucketTells(t, op, env, Paid(limits, scan, t, dir, op, env))
  {
    hide MapAnswer, MapAfter, Holding, TotalBytes;
    assert t.rateLimit.ReadCost(0) == 0.0;
    UpFrontIs(t.rateLimit, op);
    var r := Paid(limits, scan, t, dir, op, env).response;
    if r.Ok? {
      ReadsAreWeighed(t.rateLimit, r.value);
    }
  }

  lemma BucketAfterRequest(limits: Limits, scan: Scan, t: Tenant, dir: Option<Dir>, op: Op, env: Env)
    ensures BucketTells(t, op, env, Request(limits, scan, t, dir, op, env))
  {
    hide Paid, MadeDir, Marked;
    PaidTells(limits, scan, t, dir, op, env);
    PaidTells(limits, scan, Opened(t), Materialized(t, dir, env).1, op, env);
  }

  lemma BookedStaysBalanced(limits: Limits, scan: Scan, l: Ledger, s: Step)
    requires Balanced(l) && (s.SetRateLimit? ==> FairPrices(s.rl))
    requires l.whole.tenant.bucket.last <= Begin(s) <= End(s)
    ensures var l' := Booked(limits, scan, l, s); Balanced(l') && l'.whole.tenant.bucket.last <= End(s)
  {
    hide Request, Balanced, Admitted, Worth, BucketTells;
    match s
    case SetRateLimit(rl, at) => InstalledBalanced(WholeAfter(limits, scan, l.whole, s), at);
    case Ask(op, env) =>
      var t := l.whole.tenant;
      var r := Request(limits, scan, t, l.whole.dir, op, env).response;
      BucketAfterRequest(limits, scan, t, l.whole.dir, op, env);
      if Admitted(r) {
        AdmittedBalanced(limits, scan, l, op, env);
      } else {
        RefusedBalanced(limits, scan, l, op, env);
      }
  }

  lemma InstalledBalanced(w: Whole, since: real)
    requires FairPrices(w.tenant.rateLimit) && w.tenant.bucket == FullBucket(w.tenant.rateLimit, since)
    ensures Balanced(Opening(w, since))
  {
  }

  lemma RefusedBalanced(limits: Limits, scan: Scan, l: Ledger, op: Op, env: Env)
    requires Balanced(l) && l.whole.tenant.bucket.last <= env.now <= env.later
    requires BucketTells(l.whole.tenant, op, env, Request(limits, scan, l.whole.tenant, l.whole.dir, op, env))
    requires !Admitted(Request(limits, scan, l.whole.tenant, l.whole.dir, op, env).response)
    ensures var l' := Booked(limits, scan, l, Ask(op, env)); Balanced(l') && l'.whole.tenant.bucket.last <= env.later
  {
    hide Request, Admitted, ReadCostOf, WriteCost;
    RefillGrants(l.whole.tenant.bucket, l.since, env.now);
  }

  lemma AdmittedBalanced(limits: Limits, scan: Scan, l: Ledger, op: Op, env: Env)
    requires Balanced(l) && l.whole.tenant.bucket.last <= env.now <= env.later
    requires BucketTells(l.whole.tenant, op, env, Request(limits, scan, l.whole.tenant, l.whole.dir, op, env))
    requires Admitted(Request(limits, scan, l.whole.tenant, l.whole.dir, op, env).response)
    ensures var l' := Booked(limits, scan, l, Ask(op, env)); Balanced(l') && l'.whole.tenant.bucket.last <= env.later
  {
    hide Request, Admitted, ReadCostOf, WriteCost;
    var b, rl := l.whole.tenant.bucket, l.whole.tenant.rateLimit;
    var r := Request(limits, scan, l.whole.tenant, l.whole.dir, op, env).response;
    CostsNotNegative(rl, op, r);
    RefillGrants(b, l.since, env.now);
    RefillGrants(b.Charged(env.now, rl.flatOverheadBytes + WriteCost(rl, op)), l.since, env.later);
  }

  lemma {:induction false} RunStaysBalanced(limits: Limits, scan: Scan, l: Ledger, steps: seq<Step>)
    requires Balanced(l) && FairLimits(steps) && InOrder(l.whole.tenant.bucket.last, steps)
    ensures var l' := BookedAll(limits, scan, l, steps);
      && Balanced(l')
      && l'.whole.tenant.bucket.last <= EndOf(l.whole.tenant.bucket.last, steps)
      && l'.whole == WholeAfterAll(limits, scan, l.whole, steps)
    decreases |steps|
  {
    hide Booked, Balanced;
    if steps != [] {
      var s := steps[0];
      var next := Booked(limits, scan, l, s);
      BookedStaysBalanced(limits, scan, l, s);
      BooksFollow(limits, scan, l, s);
      EndOfRest(l.whole.tenant.bucket.last, steps);
      InOrderFrom(End(s), next.whole.tenant.bucket.last, steps[1..]);
      RunStaysBalanced(limits, scan, next, steps[1..]);
    }
  }

  lemma BooksFollow(limits: Limits, scan: Scan, l: Ledger, s: Step)
    ensures Booked(limits, scan, l, s).whole == WholeAfter(limits, scan, l.whole, s)
  {
  }

  lemma InOrderFrom(from: real, before: real, steps: seq<Step>)
    requires InOrder(from, steps) && before <= from
    ensures InOrder(before, steps) && EndOf(before, steps) <= EndOf(from, steps)
  {
  }

  lemma ElapsedGrows(rate: real, from: real, t: real, u: real)
    requires rate >= 0.0 && t <= u
    ensures rate * (t - from) <= rate * (u - from)
  {
    ScaleNonNegative(u - t, rate);
    assert rate * (u - from) == rate * (t - from) + (u - t) * rate;
  }

  /** From any tenant whose bucket has just been installed, pending or active, with any contents, over any run
      of requests and rate-limit changes: the flat costs, weighted written bytes and weighted read bytes
      spent since the latest installation of a bucket stay within its capacity, its refill since then, and
      the read cost of the last request it admitted. */
  lemma SpendingBound(limits: Limits, scan: Scan, w: Whole, since: real, steps: seq<Step>, at: real)
    requires FairPrices(w.tenant.rateLimit) && w.tenant.bucket == FullBucket(w.tenant.rateLimit, since)
    requires FairLimits(steps) && InOrder(since, steps) && EndOf(since, steps) <= at
    ensures var l := BookedAll(limits, scan, Opening(w, since), steps);
      var rl := l.whole.tenant.rateLimit;
      && l.whole == WholeAfterAll(limits, scan, w, steps)
      && l.spent <= rl.capacityBytes + rl.refillBytesPerSec * (at - l.since) + l.lastRead
  {
    hide Booked, BookedAll, Balanced, InOrder, FairLimits, EndOf, WholeAfterAll;
    InstalledBalanced(w, since);
    RunStaysBalanced(limits, scan, Opening(w, since), steps);
    BalancedBound(BookedAll(limits, scan, Opening(w, since), steps), at);
  }

  lemma BalancedBound(l: Ledger, at: real)
    requires Balanced(l) && l.whole.tenant.bucket.last <= at
    ensures var rl := l.whole.tenant.rateLimit;
      l.spent <= rl.capacityBytes + rl.refillBytesPerSec * (at - l.since) + l.lastRead
  {
    var rate, last := l.whole.tenant.rateLimit.refillBytesPerSec, l.whole.tenant.bucket.last;
    ElapsedGrows(rate, l.since, last, at);
    var soFar, now := rate * (last - l.since), rate * (at - l.since);
    assert l.spent + l.whole.tenant.bucket.tokens <= l.whole.tenant.rateLimit.capacityBytes + soFar;
  }
}
