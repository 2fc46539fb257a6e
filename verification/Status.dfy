/** The status sampler: latency rings, the feed of recent operations, the operation counters. */
module Status {

  /** Nanoseconds. */
  type Duration = int

  const FEED_SIZE: nat := 12

  function Newest<T>(s: seq<T>, n: nat): (r: seq<T>)
    ensures |r| == if |s| <= n then |s| else n
  {
    if |s| <= n then s else s[|s| - n..]
  }

  // ----- Sorting -----

  ghost predicate Sorted(s: seq<int>) {
    forall i, j :: 0 <= i < j < |s| ==> s[i] <= s[j]
  }

  function Insert(x: int, s: seq<int>): (r: seq<int>)
    ensures |r| == |s| + 1
  {
    if s == [] || x <= s[0] then [x] + s else [s[0]] + Insert(x, s[1..])
  }

  /** What slices.Sort leaves behind: the same elements in ascending order. */
  function Sort(s: seq<int>): (r: seq<int>)
    ensures |r| == |s|
  {
    if s == [] then [] else Insert(s[0], Sort(s[1..]))
  }

  lemma SortedCons(x: int, s: seq<int>)
    requires Sorted(s) && (forall y :: y in multiset(s) ==> x <= y)
    ensures Sorted([x] + s)
  {
    forall i | 0 <= i < |s|
      ensures x <= s[i]
    {
      assert s[i] in multiset(s);
    }
  }

  lemma SortedTail(s: seq<int>)
    requires Sorted(s) && s != []
    ensures Sorted(s[1..]) && forall y :: y in multiset(s) ==> s[0] <= y
  {
  }

  lemma SortedShort(x: int)
    ensures Sorted([x])
  {
  }

  lemma {:induction false} InsertSorts(x: int, s: seq<int>)
    requires Sorted(s)
    ensures Sorted(Insert(x, s)) && multiset(Insert(x, s)) == multiset{x} + multiset(s)
  {
    hide Sorted;
    SortedShort(x);
    if s == [] {
      assert [x] + s == [x];
    } else if x <= s[0] {
      SortedTail(s);
      SortedCons(x, s);
    } else {
      var r := Insert(x, s[1..]);
      assert s == [s[0]] + s[1..];
      SortedTail(s);
      InsertSorts(x, s[1..]);
      forall y | y in multiset(r)
        ensures s[0] <= y
      {
        if y != x {
          assert y in multiset(s);
        }
      }
      SortedCons(s[0], r);
    }
  }

  lemma {:induction false} SortSorts(s: seq<int>)
    ensures Sorted(Sort(s)) && multiset(Sort(s)) == multiset(s)
  {
    if s != [] {
      SortSorts(s[1..]);
      InsertSorts(s[0], Sort(s[1..]));
      assert s == [s[0]] + s[1..];
    }
  }

  // ----- Order statistics -----

  function CountBelow(s: seq<int>, v: int): (n: nat)
    ensures n <= |s|
  {
    if s == [] then 0 else (if s[0] < v then 1 else 0) + CountBelow(s[1..], v)
  }

  /** v is an element of s with at most k elements below it and more than k not above it: the element that
      belongs at position k in ascending order. */
  ghost predicate IsOrderStatistic(s: seq<int>, k: nat, v: int) {
    v in s && CountBelow(s, v) <= k < CountBelow(s, v + 1)
  }

  lemma {:induction false} CountBelowMonotone(s: seq<int>, v: int, w: int)
    requires v <= w
    ensures CountBelow(s, v) <= CountBelow(s, w)
  {
    if s != [] {
      CountBelowMonotone(s[1..], v, w);
    }
  }

  /** There is only one, and a later position has no smaller one. */
  lemma OrderStatisticsAscend(s: seq<int>, j: nat, k: nat, v: int, w: int)
    requires j <= k && IsOrderStatistic(s, j, v) && IsOrderStatistic(s, k, w)
    ensures v <= w
  {
    if w < v {
      CountBelowMonotone(s, w + 1, v);
    }
  }

  lemma {:induction false} CountBelowInsert(x: int, s: seq<int>, v: int)
    ensures CountBelow(Insert(x, s), v) == CountBelow([x] + s, v)
  {
    assert ([x] + s)[1..] == s;
    if s != [] && s[0] < x {
      CountBelowInsert(x, s[1..], v);
      assert ([x] + s[1..])[1..] == s[1..];
      assert ([s[0]] + Insert(x, s[1..]))[1..] == Insert(x, s[1..]);
    }
  }

  lemma {:induction false} CountBelowSort(s: seq<int>, v: int)
    ensures CountBelow(Sort(s), v) == CountBelow(s, v)
  {
    if s != [] {
      CountBelowSort(s[1..], v);
      CountBelowInsert(s[0], Sort(s[1..]), v);
      assert ([s[0]] + Sort(s[1..]))[1..] == Sort(s[1..]);
    }
  }

  lemma {:induction false} CountBelowSorted(s: seq<int>, k: nat)
    requires Sorted(s) && k < |s|
    ensures CountBelow(s, s[k]) <= k < CountBelow(s, s[k] + 1)
  {
    if k == 0 {
      NoneBelow(s, s[0]);
    } else {
      CountBelowSorted(s[1..], k - 1);
    }
  }

  lemma {:induction false} NoneBelow(s: seq<int>, v: int)
    requires forall i :: 0 <= i < |s| ==> v <= s[i]
    ensures CountBelow(s, v) == 0
  {
    if s != [] {
      NoneBelow(s[1..], v);
    }
  }

  lemma SortedPositionIsOrderStatistic(s: seq<int>, k: nat)
    requires k < |s|
    ensures IsOrderStatistic(s, k, Sort(s)[k])
  {
    hide CountBelow, Sort, Sorted;
    var t := Sort(s);
    SortSorts(s);
    CountBelowSorted(t, k);
    CountBelowSort(s, t[k]);
    CountBelowSort(s, t[k] + 1);
    assert t[k] in multiset(t);
  }

  lemma {:induction false} CountBelowAppend(a: seq<int>, b: seq<int>, v: int)
    ensures CountBelow(a + b, v) == CountBelow(a, v) + CountBelow(b, v)
  {
    if a == [] {
      assert a + b == b;
    } else {
      assert (a + b)[1..] == a[1..] + b;
      CountBelowAppend(a[1..], b, v);
    }
  }

  /** Two lists of the same samples have the same order statistics. */
  lemma {:induction false} CountBelowSame(a: seq<int>, b: seq<int>, v: int)
    requires multiset(a) == multiset(b)
    ensures CountBelow(a, v) == CountBelow(b, v)
    decreases |a|
  {
    if a == [] {
      assert |multiset(b)| == |b|;
    } else {
      var x := a[0];
      assert x in multiset(a);
      var i :| 0 <= i < |b| && b[i] == x;
      var front, back := b[..i], b[i + 1..];
      assert a == [x] + a[1..] && b == front + ([x] + back);
      SameRest(x, a[1..], front, back);
      CountBelowSame(a[1..], front + back, v);
      CountBelowAppend(front, [x] + back, v);
      CountBelowAppend(front, back, v);
      assert ([x] + back)[1..] == back;
    }
  }

  lemma SameRest(x: int, rest: seq<int>, front: seq<int>, back: seq<int>)
    requires multiset([x] + rest) == multiset(front + ([x] + back))
    ensures multiset(rest) == multiset(front + back)
  {
    assert multiset([x] + rest) == multiset([x]) + multiset(rest);
    assert multiset(front + ([x] + back)) == multiset(front) + multiset([x]) + multiset(back);
    assert multiset(front + back) == multiset(front) + multiset(back);
    assert multiset(rest) == multiset([x] + rest) - multiset([x]);
    assert multiset(front + back) == multiset(front + ([x] + back)) - multiset([x]);
  }

  /** The order statistic at k is the element at k of the samples in ascending order. */
  lemma OrderStatisticIsSortedPosition(s: seq<int>, k: nat, v: int)
    ensures IsOrderStatistic(s, k, v)
       <==> exists t: seq<int> :: Sorted(t) && multiset(t) == multiset(s) && k < |t| && t[k] == v
  {
    hide CountBelow, Sort, Sorted;
    if IsOrderStatistic(s, k, v) {
      SortSorts(s);
      SortedPositionIsOrderStatistic(s, k);
      OrderStatisticsAscend(s, k, k, v, Sort(s)[k]);
      OrderStatisticsAscend(s, k, k, Sort(s)[k], v);
    }
    if t: seq<int> :| Sorted(t) && multiset(t) == multiset(s) && k < |t| && t[k] == v {
      CountBelowSorted(t, k);
      CountBelowSame(t, s, v);
      CountBelowSame(t, s, v + 1);
      assert t[k] in multiset(t);
    }
  }

  // ----- The latency ring -----

  /** The position percentile p asks for among n samples. */
  function Rank(p: real, n: nat): (k: int)
    requires n > 0 && 0.0 <= p <= 100.0
    ensures 0 <= k < n
  {
    RankInRange(p, n);
    (p / 100.0 * (n - 1) as real).Floor
  }

  lemma RankInRange(p: real, n: nat)
    requires n > 0 && 0.0 <= p <= 100.0
    ensures 0.0 <= p / 100.0 * (n - 1) as real <= (n - 1) as real
  {
    var f, m := p / 100.0, (n - 1) as real;
    assert 0.0 <= f <= 1.0;
    assert 0.0 <= f * m && (1.0 - f) * m >= 0.0;
  }

  /** It is the p-th hundredth of the last position, rounded down. */
  lemma RankRoundsDown(p: real, n: nat)
    requires n > 0 && 0.0 <= p <= 100.0
    ensures Rank(p, n) as real * 100.0 <= p * (n - 1) as real < (Rank(p, n) + 1) as real * 100.0
  {
    var f, m := p / 100.0, (n - 1) as real;
    assert f * 100.0 == p;
    assert f * m * 100.0 == p * m;
  }

  /** Sorting any arrangement of the window and taking the position gives the percentile. */
  lemma PercentileOf(live: seq<int>, w: seq<int>, p: real)
    returns (k: nat)
    requires live != [] && multiset(live) == multiset(w) && 0.0 <= p <= 100.0
    ensures IsOrderStatistic(w, k, Sort(live)[Rank(p, |live|)])
    ensures k as real * 100.0 <= p * (|w| - 1) as real < (k + 1) as real * 100.0
  {
    hide IsOrderStatistic, Sort, Rank, Sorted;
    SameLength(live, w);
    k := Rank(p, |w|);
    RankRoundsDown(p, |w|);
    SortSorts(live);
    OrderStatisticIsSortedPosition(w, k, Sort(live)[k]);
  }

  lemma SameLength(a: seq<int>, b: seq<int>)
    requires multiset(a) == multiset(b)
    ensures |a| == |b|
  {
    assert |multiset(a)| == |a| && |multiset(b)| == |b|;
  }

  /** Before the cursor lie the newest samples, behind it (once the ring is full) the older ones. */
  ghost predicate RingHolds(buf: seq<Duration>, next: nat, full: bool, samples: seq<Duration>) {
    var k, n := |samples|, |buf|;
    && next < n
    && next <= k
    && buf[..next] == samples[k - next..]
    && (full <==> n <= k)
    && (full ==> buf[next..] == samples[k - n..k - next])
    && (!full ==> next == k)
  }

  function Wrap(i: nat, n: nat): nat {
    if i + 1 == n then 0 else i + 1
  }

  lemma WrapIsRemainder(i: nat, n: nat)
    requires i < n
    ensures (i + 1) % n == Wrap(i, n)
  {
  }

  lemma RingAdds(buf: seq<Duration>, next: nat, full: bool, samples: seq<Duration>, d: Duration)
    requires RingHolds(buf, next, full, samples)
    ensures next < |buf|
    ensures RingHolds(buf[next := d], Wrap(next, |buf|), full || next + 1 == |buf|, samples + [d])
  {
    var buf', samples', n := buf[next := d], samples + [d], |buf|;
    FrontAdds(buf, next, samples, d);
    if next + 1 == n {
      assert buf'[0..] == buf'[..n] && samples'[|samples'|..] == [];
    } else if full {
      BackAdds(buf, next, samples, d);
    }
  }

  lemma FrontAdds(buf: seq<Duration>, next: nat, samples: seq<Duration>, d: Duration)
    requires next < |buf| && next <= |samples| && buf[..next] == samples[|samples| - next..]
    ensures buf[next := d][..next + 1] == (samples + [d])[|samples| - next..]
  {
    assert buf[next := d][..next + 1] == buf[..next] + [d];
  }

  lemma BackAdds(buf: seq<Duration>, next: nat, samples: seq<Duration>, d: Duration)
    requires next < |buf| <= |samples| && buf[next..] == samples[|samples| - |buf|..|samples| - next]
    ensures buf[next := d][next + 1..] == (samples + [d])[|samples| + 1 - |buf|..|samples| - next]
  {
    assert buf[next := d][next + 1..] == buf[next..][1..];
  }

  class LatRing {
    var buf: array<Duration>
    var next: nat
    var full: bool
    /** Every sample ever added, oldest first. */
    ghost var samples: seq<Duration>

    ghost predicate Valid()
      reads this, buf
    {
      RingHolds(buf[..], next, full, samples)
    }

    /** The part of the buffer that holds samples. */
    function Live(): seq<Duration>
      reads this, buf
      requires next <= buf.Length
    {
      if full then buf[..] else buf[..next]
    }

    constructor (n: nat)
      requires n > 0
      ensures Valid() && fresh(buf) && buf.Length == n && samples == []
    {
      buf := new Duration[n];
      next := 0;
      full := false;
      samples := [];
    }

    method Add(d: Duration)
      requires Valid()
      modifies this, buf
      ensures Valid() && buf == old(buf) && samples == old(samples) + [d]
    {
      hide RingHolds;
      RingAdds(buf[..], next, full, samples, d);
      WrapIsRemainder(next, buf.Length);
      buf[next] := d;
      samples := samples + [d];
      assert buf[..] == old(buf[..])[next := d];
      next := (next + 1) % buf.Length;
      if next == 0 {
        full := true;
      }
    }

    /** The live part holds exactly the last min(k, N) of the k samples added, in ring order. */
    lemma LiveIsWindow()
      requires Valid()
      ensures multiset(Live()) == multiset(Newest(samples, buf.Length))
      ensures forall v :: CountBelow(Live(), v) == CountBelow(Newest(samples, buf.Length), v)
    {
      var k, n := |samples|, buf.Length;
      if full {
        var older, newer := samples[k - n..k - next], samples[k - next..];
        assert Newest(samples, n) == older + newer;
        assert Live() == newer + older by { assert buf[..] == buf[..next] + buf[next..]; }
      } else {
        assert Live() == samples == Newest(samples, n);
      }
      forall v
        ensures CountBelow(Live(), v) == CountBelow(Newest(samples, n), v)
      {
        CountBelowSame(Live(), Newest(samples, n), v);
      }
    }

    lemma LiveSize()
      requires Valid()
      ensures next < buf.Length && (full ==> buf.Length > 0)
      ensures |Live()| == 0 <==> samples == []
    {
    }

    /** The order statistic at p(n-1)/100, rounded down, of the n samples of the window; none when nothing was
        added. */
    method Percentile(p: real) returns (d: Duration, ok: bool)
      requires Valid() && 0.0 <= p <= 100.0
      ensures ok <==> samples != []
      ensures ok ==> var w := Newest(samples, buf.Length);
        exists k: nat ::
          IsOrderStatistic(w, k, d) && k as real * 100.0 <= p * (|w| - 1) as real < (k + 1) as real * 100.0
    {
      hide Rank, CountBelow, Sort, IsOrderStatistic, Newest, RingHolds, Valid;
      LiveSize();
      var n := next;
      if full {
        n := buf.Length;
      }
      if n == 0 {
        return 0, false;
      }
      var s := buf[..n];
      assert s == Live();
      LiveIsWindow();
      ghost var w := Newest(samples, buf.Length);
      ghost var k := PercentileOf(s, w, p);
      s := Sort(s);
      d := s[Rank(p, n)];
      ok := true;
      assert IsOrderStatistic(w, k, d);
    }
  }

  /** Whatever the window, a higher percentile is no smaller. */
  lemma PercentilesAscend(window: seq<int>, p: real, q: real, j: nat, k: nat, d: Duration, e: Duration)
    requires window != [] && p <= q
    requires j as real * 100.0 <= p * (|window| - 1) as real < (j + 1) as real * 100.0
    requires k as real * 100.0 <= q * (|window| - 1) as real < (k + 1) as real * 100.0
    requires IsOrderStatistic(window, j, d) && IsOrderStatistic(window, k, e)
    ensures d <= e
  {
    PositionsAscend(p, q, (|window| - 1) as real, j, k);
    OrderStatisticsAscend(window, j, k, d, e);
  }

  lemma PositionsAscend(p: real, q: real, m: real, j: nat, k: nat)
    requires p <= q && m >= 0.0 && j as real * 100.0 <= p * m && q * m < (k + 1) as real * 100.0
    ensures j <= k
  {
    var x, y := p * m, q * m;
    assert (q - p) * m == y - x && (q - p) * m >= 0.0;
  }

  /** The 0th percentile is the smallest sample, the 100th the largest. */
  lemma ExtremePercentiles(window: seq<int>, j: nat, k: nat, d: Duration, e: Duration)
    requires window != []
    requires j as real * 100.0 <= 0.0 * (|window| - 1) as real < (j + 1) as real * 100.0
    requires k as real * 100.0 <= 100.0 * (|window| - 1) as real < (k + 1) as real * 100.0
    requires IsOrderStatistic(window, j, d) && IsOrderStatistic(window, k, e)
    ensures d in window && e in window && forall x :: x in window ==> d <= x <= e
  {
    hide CountBelow;
    assert j == 0 && k == |window| - 1;
    var t := Sort(window);
    SortSorts(window);
    SortedPositionIsOrderStatistic(window, 0);
    SortedPositionIsOrderStatistic(window, k);
    OrderStatisticsAscend(window, 0, 0, d, t[0]);
    OrderStatisticsAscend(window, k, k, t[k], e);
    forall x | x in window
      ensures t[0] <= x <= t[k]
    {
      assert x in multiset(t);
    }
  }
}
