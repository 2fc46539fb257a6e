/** The per-tenant token bucket. Tokens and costs are reals, time is a real number of seconds. */
module RateLimiter {

  datatype RateLimitConfig = RateLimitConfig(
    capacityBytes: real,
    refillBytesPerSec: real,
    flatOverheadBytes: real,
    writeByteWeight: real,
    readByteWeight: real)
  {
    function PutCost(valueLen: nat): real {
      flatOverheadBytes + valueLen as real * writeByteWeight
    }

    function FlatCost(): real {
      flatOverheadBytes
    }

    function ReadCost(n: nat): real {
      n as real * readByteWeight
    }
  }

  /** The value of a bucket. `tokens` may be negative: a charge is never refused. */
  datatype Bucket = Bucket(tokens: real, capacity: real, refillPerSec: real, last: real)
  {
    function Refilled(now: real): Bucket {
      this.(tokens := Min(capacity, tokens + (now - last) * refillPerSec), last := now)
    }

    /** The tokens the bucket would show at time `now`. */
    function Level(now: real): real {
      Refilled(now).tokens
    }

    predicate Admits(now: real, cost: real) {
      cost <= Level(now)
    }

    function Consumed(now: real, cost: real): Bucket {
      if Admits(now, cost) then Charged(now, cost) else Refilled(now)
    }

    function Charged(now: real, cost: real): Bucket {
      Refilled(now).(tokens := Level(now) - cost)
    }
  }

  function Min(a: real, b: real): real {
    if b < a then b else a
  }

  function FullBucket(rl: RateLimitConfig, now: real): Bucket {
    Bucket(rl.capacityBytes, rl.capacityBytes, rl.refillBytesPerSec, now)
  }

  /** The bucket object; every method holds its mutex throughout, so each is one step. */
  class TokenBucket {
    var tokens: real
    var capacity: real
    var refillPerSec: real
    var last: real

    function Value(): Bucket
      reads this
    {
      Bucket(tokens, capacity, refillPerSec, last)
    }

    constructor (rl: RateLimitConfig, now: real)
      ensures Value() == FullBucket(rl, now)
    {
      tokens := rl.capacityBytes;
      capacity := rl.capacityBytes;
      refillPerSec := rl.refillBytesPerSec;
      last := now;
    }

    method Refill(now: real)
      modifies this
      ensures Value() == old(Value()).Refilled(now)
    {
      var elapsed := now - last;
      tokens := Min(capacity, tokens + elapsed * refillPerSec);
      last := now;
    }

    method Consume(now: real, cost: real) returns (admitted: bool)
      modifies this
      ensures admitted == old(Value()).Admits(now, cost)
      ensures Value() == old(Value()).Consumed(now, cost)
    {
      Refill(now);
      if tokens < cost {
        return false;
      }
      tokens := tokens - cost;
      return true;
    }

    method Charge(now: real, cost: real)
      modifies this
      ensures Value() == old(Value()).Charged(now, cost)
    {
      Refill(now);
      tokens := tokens - cost;
    }
  }

  // ----- Runs of calls on one bucket -----

  datatype Call = Consume(at: real, cost: real) | Charge(at: real, cost: real)

  predicate Accepts(b: Bucket, c: Call) {
    c.Charge? || b.Admits(c.at, c.cost)
  }

  function After(b: Bucket, c: Call): Bucket {
    if c.Charge? then b.Charged(c.at, c.cost) else b.Consumed(c.at, c.cost)
  }

  function AfterAll(b: Bucket, calls: seq<Call>): Bucket
    decreases |calls|
  {
    if calls == [] then b else AfterAll(After(b, calls[0]), calls[1..])
  }

  function Outcomes(b: Bucket, calls: seq<Call>): (r: seq<bool>)
    ensures |r| == |calls|
    decreases |calls|
  {
    if calls == [] then [] else [Accepts(b, calls[0])] + Outcomes(After(b, calls[0]), calls[1..])
  }

  predicate NonDecreasing(from: real, calls: seq<Call>)
    decreases |calls|
  {
    calls == [] || (from <= calls[0].at && NonDecreasing(calls[0].at, calls[1..]))
  }

  lemma {:induction false} RunsCompose(b: Bucket, first: seq<Call>, second: seq<Call>)
    ensures AfterAll(b, first + second) == AfterAll(AfterAll(b, first), second)
    ensures Outcomes(b, first + second) == Outcomes(b, first) + Outcomes(AfterAll(b, first), second)
    decreases |first|
  {
    if first == [] {
      assert first + second == second;
    } else {
      assert (first + second)[1..] == first[1..] + second;
      RunsCompose(After(b, first[0]), first[1..], second);
    }
  }

  // ----- The bucket is an exact sliding-window limiter -----

  /** What a window limiter would have to remember: when each call came and what it spent. */
  datatype Spend = Spend(at: real, cost: real)

  /** What the calls from the i-th on have spent. */
  function SpentSince(h: seq<Spend>, i: nat): real
    requires i <= |h|
  {
    if i == |h| then 0.0 else SpentSince(h[..|h| - 1], i) + h[|h| - 1].cost
  }

  /** What is left at time `now` of the window that the i-th call opened: a full bucket then, plus the
      refill since, less everything spent since. */
  function Room(capacity: real, rate: real, h: seq<Spend>, now: real, i: nat): real
    requires i < |h|
  {
    capacity + rate * (now - h[i].at) - SpentSince(h, i)
  }

  /** No window that ends now, opened by any call so far or by this one, would be overspent. */
  ghost predicate EveryWindowFits(capacity: real, rate: real, h: seq<Spend>, now: real, cost: real) {
    && cost <= capacity
    && forall i :: 0 <= i < |h| ==> cost <= Room(capacity, rate, h, now, i)
  }

  /** The limiter that keeps the whole history and checks every window. */
  ghost function WindowOutcomes(capacity: real, rate: real, h: seq<Spend>, calls: seq<Call>): seq<bool>
    decreases |calls|
  {
    if calls == [] then []
    else
      var c := calls[0];
      var ok := c.Charge? || EveryWindowFits(capacity, rate, h, c.at, c.cost);
      [ok] + WindowOutcomes(capacity, rate, h + [Spend(c.at, if ok then c.cost else 0.0)], calls[1..])
  }

  /** What one bucket value says about the history: its level is the room left in the tightest window. */
  ghost predicate TightestWindow(b: Bucket, h: seq<Spend>) {
    && (forall i :: 0 <= i < |h| ==> b.tokens <= Room(b.capacity, b.refillPerSec, h, b.last, i))
    && (exists i :: 0 <= i < |h| && b.tokens == Room(b.capacity, b.refillPerSec, h, b.last, i))
  }

  lemma RoomAdvances(capacity: real, rate: real, h: seq<Spend>, last: real, now: real, i: nat)
    requires i < |h|
    ensures Room(capacity, rate, h, now, i) == Room(capacity, rate, h, last, i) + (now - last) * rate
  {
    var at := h[i].at;
    assert rate * (now - at) == rate * (last - at) + (now - last) * rate;
  }

  lemma RoomShrinks(capacity: real, rate: real, h: seq<Spend>, e: Spend, now: real, i: nat)
    requires i < |h|
    ensures Room(capacity, rate, h + [e], now, i) == Room(capacity, rate, h, now, i) - e.cost
  {
    assert (h + [e])[..|h|] == h;
  }

  lemma NewWindow(capacity: real, rate: real, h: seq<Spend>, e: Spend)
    ensures Room(capacity, rate, h + [e], e.at, |h|) == capacity - e.cost
  {
    var h' := h + [e];
    assert h'[..|h|] == h && h'[|h|] == e;
    assert SpentSince(h, |h|) == 0.0;
  }

  /** A bucket that tracks the tightest window, or is full when nothing happened yet, decides as the windows do. */
  lemma AdmitsWhenEveryWindowFits(b: Bucket, h: seq<Spend>, now: real, cost: real)
    requires TightestWindow(b, h) || (h == [] && b.Level(now) == b.capacity)
    ensures b.Admits(now, cost) <==> EveryWindowFits(b.capacity, b.refillPerSec, h, now, cost)
  {
    forall i | 0 <= i < |h|
      ensures Room(b.capacity, b.refillPerSec, h, now, i)
           == Room(b.capacity, b.refillPerSec, h, b.last, i) + (now - b.last) * b.refillPerSec
    {
      RoomAdvances(b.capacity, b.refillPerSec, h, b.last, now, i);
    }
  }

  lemma TightestWindowStep(b: Bucket, h: seq<Spend>, now: real, cost: real)
    requires TightestWindow(b, h) || (h == [] && b.Level(now) == b.capacity)
    ensures TightestWindow(b.Charged(now, cost), h + [Spend(now, cost)])
  {
    var e, b', n := Spend(now, cost), b.Charged(now, cost), |h|;
    var h' := h + [e];
    forall i | 0 <= i < n
      ensures Room(b.capacity, b.refillPerSec, h', now, i)
           == Room(b.capacity, b.refillPerSec, h, b.last, i) + (now - b.last) * b.refillPerSec - cost
    {
      RoomAdvances(b.capacity, b.refillPerSec, h, b.last, now, i);
      RoomShrinks(b.capacity, b.refillPerSec, h, e, now, i);
    }
    NewWindow(b.capacity, b.refillPerSec, h, e);
    if b.Level(now) == b.capacity {
      assert b'.tokens == Room(b'.capacity, b'.refillPerSec, h', b'.last, n);
    } else {
      var i :| 0 <= i < n && b.tokens == Room(b.capacity, b.refillPerSec, h, b.last, i);
      assert b'.tokens == Room(b'.capacity, b'.refillPerSec, h', b'.last, i);
    }
  }

  lemma {:induction false} OutcomesAreWindowOutcomes(b: Bucket, h: seq<Spend>, calls: seq<Call>)
    requires TightestWindow(b, h) || (h == [] && calls != [] && b.Level(calls[0].at) == b.capacity)
    ensures Outcomes(b, calls) == WindowOutcomes(b.capacity, b.refillPerSec, h, calls)
    decreases |calls|
  {
    if calls != [] {
      var c := calls[0];
      AdmitsWhenEveryWindowFits(b, h, c.at, c.cost);
      var spent := if Accepts(b, c) then c.cost else 0.0;
      TightestWindowStep(b, h, c.at, spent);
      assert After(b, c) == b.Charged(c.at, spent);
      OutcomesAreWindowOutcomes(After(b, c), h + [Spend(c.at, spent)], calls[1..]);
    }
  }

  /** For every run on a new bucket, whatever its parameters, costs and times, a request is admitted
      exactly when no window since the creation of the bucket would be overspent. */
  lemma BucketIsWindowLimiter(rl: RateLimitConfig, created: real, calls: seq<Call>)
    ensures Outcomes(FullBucket(rl, created), calls)
         == WindowOutcomes(rl.capacityBytes, rl.refillBytesPerSec, [Spend(created, 0.0)], calls)
  {
    var b, h := FullBucket(rl, created), [Spend(created, 0.0)];
    NewWindow(b.capacity, b.refillPerSec, [], h[0]);
    assert [] + h == h;
    assert b.tokens == Room(b.capacity, b.refillPerSec, h, b.last, 0);
    OutcomesAreWindowOutcomes(b, h, calls);
  }

  /** When the bucket refills and the first call does not precede its creation, the windows opened by the
      calls themselves decide: the window opened at creation adds nothing. */
  lemma WindowsOpenedByCallsDecide(rl: RateLimitConfig, created: real, calls: seq<Call>)
    requires rl.refillBytesPerSec >= 0.0
    requires NonDecreasing(created, calls)
    ensures Outcomes(FullBucket(rl, created), calls)
         == WindowOutcomes(rl.capacityBytes, rl.refillBytesPerSec, [], calls)
  {
    if calls != [] {
      var b := FullBucket(rl, created);
      assert 0.0 <= (calls[0].at - created) * rl.refillBytesPerSec;
      OutcomesAreWindowOutcomes(b, [], calls);
    }
  }

  // ----- Refused calls leave no trace -----

  /** Refilling in two goes is refilling once, exactly unless the bucket was overfull at a draining rate. */
  lemma RefillTwice(b: Bucket, t: real, u: real)
    ensures b.Refilled(t).Refilled(u) == b.Refilled(u)
       <==> (0.0 <= (u - t) * b.refillPerSec || b.tokens + (t - b.last) * b.refillPerSec <= b.capacity)
  {
    assert (u - b.last) * b.refillPerSec == (t - b.last) * b.refillPerSec + (u - t) * b.refillPerSec;
  }

  lemma ScaleNonNegative(d: real, rate: real)
    requires 0.0 <= d && 0.0 <= rate
    ensures 0.0 <= d * rate
  {
  }

  /** Two buckets no later call can tell apart. */
  ghost predicate SameFrom(t: real, b: Bucket, c: Bucket) {
    && b.capacity == c.capacity
    && b.refillPerSec == c.refillPerSec
    && b.Refilled(t) == c.Refilled(t)
  }

  lemma SameLater(t: real, u: real, b: Bucket, c: Bucket)
    requires SameFrom(t, b, c) && t <= u && b.refillPerSec >= 0.0
    ensures SameFrom(u, b, c)
  {
    ScaleNonNegative(u - t, b.refillPerSec);
    RefillTwice(b, t, u);
    RefillTwice(c, t, u);
  }

  lemma {:induction false} SameOutcomes(t: real, b: Bucket, c: Bucket, calls: seq<Call>)
    requires SameFrom(t, b, c) && NonDecreasing(t, calls) && b.refillPerSec >= 0.0
    ensures Outcomes(b, calls) == Outcomes(c, calls)
    ensures if calls == [] then SameFrom(t, AfterAll(b, calls), AfterAll(c, calls))
            else AfterAll(b, calls) == AfterAll(c, calls)
  {
    if calls != [] {
      SameLater(t, calls[0].at, b, c);
      assert After(b, calls[0]) == After(c, calls[0]);
    }
  }

  /** Asking and being refused at one moment changes no later outcome and no later level, wherever in a
      run it happens. */
  lemma {:induction false} RefusalIsInvisible(b: Bucket, before: seq<Call>, now: real, cost: real, later: seq<Call>)
    requires b.refillPerSec >= 0.0
    requires NonDecreasing(now, later)
    requires !AfterAll(b, before).Admits(now, cost)
    ensures Outcomes(b, before + [Consume(now, cost)] + later)
         == Outcomes(b, before) + [false] + Outcomes(AfterAll(b, before), later)
    ensures SameFrom(if later == [] then now else later[|later| - 1].at,
                     AfterAll(b, before + [Consume(now, cost)] + later), AfterAll(b, before + later))
  {
    var mid := AfterAll(b, before);
    var c := Consume(now, cost);
    ParametersNeverChange(b, before);
    RunsCompose(b, before + [c], later);
    RunsCompose(b, before, [c]);
    RunsCompose(b, before, later);
    assert AfterAll(mid, [c]) == After(mid, c) by { assert [c][1..] == []; }
    assert Outcomes(mid, [c]) == [false];
    assert SameFrom(now, After(mid, c), mid) by {
      RefillTwice(mid, now, now);
    }
    SameOutcomes(now, After(mid, c), mid, later);
  }

  lemma {:induction false} ParametersNeverChange(b: Bucket, calls: seq<Call>)
    ensures AfterAll(b, calls).capacity == b.capacity
    ensures AfterAll(b, calls).refillPerSec == b.refillPerSec
    decreases |calls|
  {
    if calls != [] {
      ParametersNeverChange(After(b, calls[0]), calls[1..]);
    }
  }

  /** The calls of a run that were not refused. */
  function Accepted(b: Bucket, calls: seq<Call>): seq<Call>
    decreases |calls|
  {
    if calls == [] then []
    else (if Accepts(b, calls[0]) then [calls[0]] else []) + Accepted(After(b, calls[0]), calls[1..])
  }

  lemma {:induction false} AcceptedKeepOrder(b: Bucket, from: real, calls: seq<Call>)
    requires NonDecreasing(from, calls)
    ensures NonDecreasing(from, Accepted(b, calls))
    decreases |calls|
  {
    if calls != [] {
      var rest := Accepted(After(b, calls[0]), calls[1..]);
      AcceptedKeepOrder(After(b, calls[0]), calls[0].at, calls[1..]);
      if Accepts(b, calls[0]) {
        assert Accepted(b, calls)[1..] == rest;
      } else {
        assert Accepted(b, calls) == rest;
        assert rest == [] || calls[0].at <= rest[0].at;
      }
    }
  }

  /** Erasing every refused call of a run leaves a run in which nothing is refused, ending at the same level. */
  lemma {:induction false} RefusalsCanBeErased(b: Bucket, from: real, calls: seq<Call>, end: real)
    requires b.refillPerSec >= 0.0
    requires NonDecreasing(from, calls + [Charge(end, 0.0)])
    ensures forall ok :: ok in Outcomes(b, Accepted(b, calls)) ==> ok
    ensures AfterAll(b, Accepted(b, calls)).Level(end) == AfterAll(b, calls).Level(end)
    decreases |calls|
  {
    if calls != [] {
      var c := calls[0];
      var b' := After(b, c);
      var rest := Accepted(b', calls[1..]);
      assert (calls + [Charge(end, 0.0)])[1..] == calls[1..] + [Charge(end, 0.0)];
      RefusalsCanBeErased(b', c.at, calls[1..], end);
      LastIsLatest(c.at, calls[1..], end);
      AcceptedKeepOrder(b', c.at, calls[1..]);
      if Accepts(b, c) {
        assert ([c] + rest)[1..] == rest;
      } else {
        assert Accepted(b, calls) == rest;
        RefillTwice(b, c.at, c.at);
        SameOutcomes(c.at, b', b, rest);
        if rest == [] {
          SameLater(c.at, end, b', b);
        }
      }
    }
  }

  lemma {:induction false} LastIsLatest(from: real, calls: seq<Call>, end: real)
    requires NonDecreasing(from, calls + [Charge(end, 0.0)])
    ensures NonDecreasing(from, calls) && from <= end
    decreases |calls|
  {
    if calls != [] {
      assert (calls + [Charge(end, 0.0)])[1..] == calls[1..] + [Charge(end, 0.0)];
      LastIsLatest(calls[0].at, calls[1..], end);
    }
  }

  /** A refused cost that fits the capacity is admitted exactly from the moment its deficit has been refilled. */
  lemma RecoveryTimeIsExact(b: Bucket, now: real, cost: real, later: real)
    requires b.refillPerSec > 0.0
    requires !b.Admits(now, cost) && cost <= b.capacity
    ensures b.Consumed(now, cost).Admits(later, cost)
       <==> later >= now + (cost - b.Level(now)) / b.refillPerSec
  {
    var b' := b.Consumed(now, cost);
    var wait := (cost - b.Level(now)) / b.refillPerSec;
    assert wait * b.refillPerSec == cost - b.Level(now);
    Monotone(later - now, wait, b.refillPerSec);
  }

  lemma Monotone(x: real, y: real, k: real)
    requires k > 0.0
    ensures x >= y <==> x * k >= y * k
  {
    if x >= y {
      ScaleNonNegative(x - y, k);
    } else {
      assert (y - x) * k > 0.0;
    }
  }

  /** No run of calls ever makes room for a cost above the capacity. */
  lemma OversizeIsAlwaysRefused(b: Bucket, calls: seq<Call>, now: real, cost: real)
    requires cost > b.capacity
    ensures !AfterAll(b, calls).Admits(now, cost)
  {
    ParametersNeverChange(b, calls);
  }
}
