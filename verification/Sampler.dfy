/** The sampler around the rings: counters, the feed of recent operations, the reported rate. */
module Sampler {
  import opened Base
  import opened Status

  const WINDOW: nat := 4096

  datatype OpRecord = OpRecord(when: real, op: string, latency: Duration, ok: bool)

  /** What can happen to a sampler. A health sample carries the disk footprint if it could be read. */
  datatype Event =
    | Record(op: string, isWrite: bool, latency: Duration, ok: bool, now: real)
    | SampleHealth(diskUsed: Option<nat>, now: real)

  /** A sampler's state; `writeLats` and `readLats` are all samples ever added to the two rings. */
  datatype State = State(
    writeLats: seq<Duration>,
    readLats: seq<Duration>,
    totalOps: nat,
    recentOps: seq<OpRecord>,
    lastOK: bool,
    diskUsed: nat,
    opsPerSec: real,
    lastOpsTime: real,
    lastOpsCnt: nat)

  function Fresh(now: real): State {
    State([], [], 0, [], true, 0, 0.0, now, 0)
  }

  function Recorded(s: State, e: Event): State
    requires e.Record?
  {
    s.(writeLats := if e.isWrite then s.writeLats + [e.latency] else s.writeLats,
       readLats := if e.isWrite then s.readLats else s.readLats + [e.latency],
       totalOps := s.totalOps + 1,
       recentOps := Pushed(s.recentOps, OpRecord(e.now, e.op, e.latency, e.ok)),
       lastOK := e.ok)
  }

  /** The feed after one more record: a full feed loses its oldest. */
  function Pushed(feed: seq<OpRecord>, r: OpRecord): seq<OpRecord> {
    if |feed| < FEED_SIZE then feed + [r] else feed[1..] + [r]
  }

  function Sampled(s: State, e: Event): State
    requires e.SampleHealth? && s.lastOpsCnt <= s.totalOps
  {
    var t := if e.diskUsed.Some? then s.(diskUsed := e.diskUsed.value) else s;
    var elapsed := e.now - s.lastOpsTime;
    if elapsed > 0.0 then
      t.(opsPerSec := Rate(s.totalOps - s.lastOpsCnt, elapsed), lastOpsCnt := s.totalOps, lastOpsTime := e.now)
    else t
  }

  function Rate(ops: nat, elapsed: real): real
    requires elapsed > 0.0
  {
    ops as real / elapsed
  }

  class StatusSampler {
    const writeLat: LatRing
    const readLat: LatRing
    var totalOps: nat
    const recentOps: array<OpRecord>
    var recentLen: nat
    var lastOK: bool
    var diskUsed: nat
    var opsPerSec: real
    var lastOpsTime: real
    var lastOpsCnt: nat

    ghost predicate Valid()
      reads this, writeLat, writeLat.buf, readLat, readLat.buf
    {
      && writeLat != readLat && writeLat.buf != readLat.buf
      && writeLat.Valid() && readLat.Valid()
      && writeLat.buf.Length == readLat.buf.Length == WINDOW
      && recentOps.Length == FEED_SIZE && recentLen <= FEED_SIZE
      && lastOpsCnt <= totalOps
    }

    ghost function Value(): State
      requires Valid()
      reads this, writeLat, writeLat.buf, readLat, readLat.buf, recentOps
    {
      State(writeLat.samples, readLat.samples, totalOps, recentOps[..recentLen], lastOK, diskUsed, opsPerSec,
            lastOpsTime, lastOpsCnt)
    }

    constructor (now: real)
      ensures Valid() && Value() == Fresh(now) && writeLat.buf.Length == readLat.buf.Length == 4096
      ensures fresh(writeLat) && fresh(writeLat.buf) && fresh(readLat) && fresh(readLat.buf) && fresh(recentOps)
    {
      hide RingHolds;
      var w := new LatRing(WINDOW);
      var r := new LatRing(WINDOW);
      writeLat := w;
      readLat := r;
      var none := OpRecord(0.0, "", 0, false);
      recentOps := new OpRecord[FEED_SIZE](_ => none);
      totalOps, recentLen, lastOK, diskUsed := 0, 0, true, 0;
      opsPerSec, lastOpsTime, lastOpsCnt := 0.0, now, 0;
    }

    method RecordOp(op: string, isWrite: bool, d: Duration, ok: bool, now: real)
      requires Valid()
      modifies this, writeLat, writeLat.buf, readLat, readLat.buf, recentOps
      ensures Valid() && writeLat.buf == old(writeLat.buf) && readLat.buf == old(readLat.buf)
      ensures Value() == Recorded(old(Value()), Record(op, isWrite, d, ok, now))
    {
      hide RingHolds, Pushed;
      if isWrite {
        writeLat.Add(d);
      } else {
        readLat.Add(d);
      }
      totalOps := totalOps + 1;
      lastOK := ok;
      Push(OpRecord(now, op, d, ok));
    }

    /** Appends to the feed while there is room, and otherwise shifts it left in place. */
    method Push(rec: OpRecord)
      requires recentOps.Length == FEED_SIZE && recentLen <= FEED_SIZE
      modifies this`recentLen, recentOps
      ensures recentLen <= FEED_SIZE
      ensures recentOps[..recentLen] == Pushed(old(recentOps[..recentLen]), rec)
    {
      ghost var feed := recentOps[..recentLen];
      if recentLen < FEED_SIZE {
        recentOps[recentLen] := rec;
        recentLen := recentLen + 1;
        assert recentOps[..recentLen] == feed + [rec];
      } else {
        for i := 0 to FEED_SIZE - 1
          invariant recentLen == FEED_SIZE
          invariant forall j :: 0 <= j < i ==> recentOps[j] == feed[j + 1]
          invariant forall j :: i <= j < FEED_SIZE ==> recentOps[j] == feed[j]
        {
          recentOps[i] := recentOps[i + 1];
        }
        recentOps[recentLen - 1] := rec;
        assert recentOps[..recentLen] == feed[1..] + [rec];
      }
    }

    method Sample(stats: Option<nat>, now: real)
      requires Valid()
      modifies this
      ensures Valid() && Value() == Sampled(old(Value()), SampleHealth(stats, now))
    {
      hide RingHolds, Rate;
      if stats.Some? {
        diskUsed := stats.value;
      }
      var elapsed := now - lastOpsTime;
      if elapsed > 0.0 {
        opsPerSec := Rate(totalOps - lastOpsCnt, elapsed);
        lastOpsCnt := totalOps;
        lastOpsTime := now;
      }
    }

    /** The operations a status view lists: the feed, newest first. */
    method RecentView() returns (ops: seq<OpRecord>)
      requires Valid()
      ensures ops == Reversed(Value().recentOps)
    {
      ops := [];
      var i := recentLen;
      while i > 0
        invariant 0 <= i <= recentLen
        invariant ops == Reversed(recentOps[i..recentLen])
      {
        i := i - 1;
        ReversedAppendsFirst(recentOps[i..recentLen]);
        assert recentOps[i..recentLen][1..] == recentOps[i + 1..recentLen];
        ops := ops + [recentOps[i]];
      }
      assert recentOps[0..recentLen] == recentOps[..recentLen];
    }
  }

  function Reversed<T>(s: seq<T>): (r: seq<T>)
    ensures |r| == |s| && forall i :: 0 <= i < |s| ==> r[i] == s[|s| - 1 - i]
  {
    seq(|s|, i requires 0 <= i < |s| => s[|s| - 1 - i])
  }

  lemma ReversedAppendsFirst<T>(s: seq<T>)
    requires s != []
    ensures Reversed(s) == Reversed(s[1..]) + [s[0]]
  {
  }

  // ----- Whole runs -----

  function After(s: State, events: seq<Event>): (t: State)
    requires s.lastOpsCnt <= s.totalOps
    ensures t.lastOpsCnt <= t.totalOps
  {
    if events == [] then s
    else
      var t := After(s, events[..|events| - 1]);
      var e := events[|events| - 1];
      if e.Record? then Recorded(t, e) else Sampled(t, e)
  }

  /** The operations recorded in a run, oldest first. */
  function Records(events: seq<Event>): seq<OpRecord> {
    if events == [] then []
    else
      var e := events[|events| - 1];
      var before := Records(events[..|events| - 1]);
      if e.Record? then before + [OpRecord(e.now, e.op, e.latency, e.ok)] else before
  }

  function Latencies(events: seq<Event>, isWrite: bool): seq<Duration> {
    if events == [] then []
    else
      var e := events[|events| - 1];
      var before := Latencies(events[..|events| - 1], isWrite);
      if e.Record? && e.isWrite == isWrite then before + [e.latency] else before
  }

  /** Whether the latest operation went well. */
  function LatestOk(events: seq<Event>): bool {
    if events == [] then true
    else
      var e := events[|events| - 1];
      if e.Record? then e.ok else LatestOk(events[..|events| - 1])
  }

  /** The latest footprint that could be read. */
  function LatestFootprint(events: seq<Event>): nat {
    if events == [] then 0
    else
      var e := events[|events| - 1];
      if e.SampleHealth? && e.diskUsed.Some? then e.diskUsed.value else LatestFootprint(events[..|events| - 1])
  }

  /** The latest time at which time had gone on since a rate was reported. */
  function LatestReport(start: real, events: seq<Event>): real {
    if events == [] then start
    else
      var before, e := LatestReport(start, events[..|events| - 1]), events[|events| - 1];
      if e.SampleHealth? && e.now > before then e.now else before
  }

  /** What the reported rates amount to: each rate that a sample sets, times the time it stands for. */
  function ReportedOps(start: real, events: seq<Event>): real {
    if events == [] then 0.0
    else
      var before := events[..|events| - 1];
      var e := events[|events| - 1];
      var s := After(Fresh(start), before);
      if e.SampleHealth? && e.now - s.lastOpsTime > 0.0
      then ReportedOps(start, before) + Sampled(s, e).opsPerSec * (e.now - s.lastOpsTime)
      else ReportedOps(start, before)
  }

  lemma PushedIsNewest(feed: seq<OpRecord>, all: seq<OpRecord>, r: OpRecord)
    requires feed == Newest(all, FEED_SIZE)
    ensures Pushed(feed, r) == Newest(all + [r], FEED_SIZE)
  {
  }

  /** What a run and the state it ends in have to do with each other. */
  ghost predicate Accounted(start: real, events: seq<Event>, s: State) {
    && s.recentOps == Newest(Records(events), 12)
    && s.lastOK == LatestOk(events) && s.diskUsed == LatestFootprint(events)
    && s.lastOpsTime == LatestReport(start, events)
    && s.writeLats == Latencies(events, true)
    && s.readLats == Latencies(events, false)
    && |s.writeLats| + |s.readLats| == s.totalOps == |Records(events)|
    && ReportedOps(start, events) == s.lastOpsCnt as real
    && s.lastOpsCnt <= s.totalOps
  }

  lemma RecordAccounted(start: real, before: seq<Event>, e: Event, s: State)
    requires e.Record? && Accounted(start, before, s)
    ensures Accounted(start, before + [e], Recorded(s, e))
  {
    hide After, Newest, Sampled;
    assert (before + [e])[..|before|] == before;
    PushedIsNewest(s.recentOps, Records(before), OpRecord(e.now, e.op, e.latency, e.ok));
  }

  lemma SampleAccounted(start: real, before: seq<Event>, e: Event, s: State)
    requires e.SampleHealth? && Accounted(start, before, s) && s == After(Fresh(start), before)
    ensures Accounted(start, before + [e], Sampled(s, e))
  {
    hide After, Newest, Rate;
    assert (before + [e])[..|before|] == before;
    var elapsed := e.now - s.lastOpsTime;
    if elapsed > 0.0 {
      RateTimesElapsed(s.totalOps - s.lastOpsCnt, elapsed);
    }
  }

  lemma RateTimesElapsed(ops: nat, elapsed: real)
    requires elapsed > 0.0
    ensures Rate(ops, elapsed) * elapsed == ops as real
  {
  }

  /** After any run: the feed is the last twelve records in order, the rings together have seen every
      operation once, the reported rates add up to the operations counted at the last sample, and the other
      fields show the latest outcome, footprint and report. */
  lemma {:induction false} SamplerConserves(start: real, events: seq<Event>)
    ensures Accounted(start, events, After(Fresh(start), events))
  {
    if events != [] {
      var before, e := events[..|events| - 1], events[|events| - 1];
      assert events == before + [e];
      SamplerConserves(start, before);
      var s := After(Fresh(start), before);
      if e.Record? {
        RecordAccounted(start, before, e, s);
      } else {
        SampleAccounted(start, before, e, s);
      }
    }
  }
}
