/** How many engines a Database opens and closes, who can get hold of one, and what a request pays with:
    over every interleaving, Destroy and SetRateLimitConfig included. */
module Lifetime {
  import opened RateLimiter
  import opened Tenants
  import opened Threads

  predicate HasSnapshot(pc: Pc) {
    pc.Looked? || pc.Paid? || pc.Weighed? || pc.Served?
  }

  /** The bucket a request will spend from was installed together with the prices it will use, and if it
      has an engine it is the only one there ever was. */
  predicate SoundSnapshot(w: World, snap: Snapshot) {
    && snap.bucket < |w.installed| && w.installed[snap.bucket] == snap.rl
    && (snap.engine.Some? ==> snap.engine.value == 0 && snap.state.Active? && w.opens == 1)
    && (snap.state.Pending? ==> snap.engine.None?)
  }

  ghost predicate Sound(w: World) {
    && (w.state.Pending? ==> w.engine.None? && w.opens == 0 && w.closings == [])
    && (w.state.Active? ==> w.opens == 1)
    && (w.state.Active? && w.engine.Some? ==> w.engine.value == 0 && w.closings == [])
    && (w.state.Active? && w.engine.None? ==> w.closings == [0])
    && |w.buckets| == |w.installed| && w.bucket < |w.installed| && w.installed[w.bucket] == w.rl
    && (forall i :: 0 <= i < |w.buckets| ==> Belongs(w.buckets[i], w.installed[i]))
    && (forall t :: t in w.threads && HasSnapshot(w.threads[t].pc) ==> SoundSnapshot(w, w.threads[t].pc.snap))
  }

  predicate Belongs(b: Bucket, rl: RateLimitConfig) {
    b.capacity == rl.capacityBytes && b.refillPerSec == rl.refillBytesPerSec
  }

  /** What no step undoes. */
  predicate Preserved(w: World, w': World) {
    && (w.state.Active? ==> w'.state.Active?)
    && (w.state.Active? && w.engine.None? ==> w'.engine.None?)
    && w.closings <= w'.closings && w.installed <= w'.installed && w.opens <= w'.opens
  }

  /** The fields of the database itself. */
  lemma StepSoundFields(limits: Limits, scan: Scan, w: World, a: Action)
    requires Sound(w) && Enabled(w, a)
    ensures Preserved(w, Next(limits, scan, w, a))
    ensures var w' := Next(limits, scan, w, a);
      && (w'.state.Pending? ==> w'.engine.None? && w'.opens == 0 && w'.closings == [])
      && (w'.state.Active? ==> w'.opens == 1)
      && (w'.state.Active? && w'.engine.Some? ==> w'.engine.value == 0 && w'.closings == [])
      && (w'.state.Active? && w'.engine.None? ==> w'.closings == [0])
  {
    hide MapAnswer, MapAfter, Refusal, UpFrontCost, Min, SoundSnapshot, Belongs;
  }

  lemma StepSoundBuckets(limits: Limits, scan: Scan, w: World, a: Action)
    requires Sound(w) && Enabled(w, a)
    ensures var w' := Next(limits, scan, w, a);
      && |w'.buckets| == |w'.installed| && w'.bucket < |w'.installed| && w'.installed[w'.bucket] == w'.rl
      && (forall i :: 0 <= i < |w'.buckets| ==> Belongs(w'.buckets[i], w'.installed[i]))
  {
    hide Next, Enabled, SoundSnapshot;
    StepKeepsParameters(limits, scan, w, a);
  }

  /** A bucket keeps its parameters; a new one comes with its configuration. */
  lemma StepKeepsParameters(limits: Limits, scan: Scan, w: World, a: Action)
    requires Enabled(w, a)
    ensures var w' := Next(limits, scan, w, a);
      && |w.buckets| <= |w'.buckets|
      && (forall i :: 0 <= i < |w.buckets| ==> w'.buckets[i].capacity == w.buckets[i].capacity
                                               && w'.buckets[i].refillPerSec == w.buckets[i].refillPerSec)
      && if a.SetRateLimit?
         then |w'.buckets| == |w.buckets| + 1 && Belongs(w'.buckets[|w.buckets|], a.rl) && w'.bucket == |w.buckets|
              && w'.installed == w.installed + [a.rl] && w'.rl == a.rl
         else |w'.buckets| == |w.buckets| && w'.installed == w.installed && w'.bucket == w.bucket && w'.rl == w.rl
  {
    hide MapAnswer, MapAfter, Refusal, UpFrontCost, Min, SoundSnapshot;
  }

  /** Threads get their snapshot from a look and keep it. */
  lemma StepSoundThread(limits: Limits, scan: Scan, w: World, a: Action, t: Tid)
    requires Enabled(w, a)
    requires t in Next(limits, scan, w, a).threads && HasSnapshot(Next(limits, scan, w, a).threads[t].pc)
    ensures var w' := Next(limits, scan, w, a);
      w'.threads[t].pc.snap == SnapshotOf(w')
      || (t in w.threads && HasSnapshot(w.threads[t].pc) && w'.threads[t].pc.snap == w.threads[t].pc.snap)
  {
    hide MapAnswer, MapAfter, Refusal, UpFrontCost, Min, SoundSnapshot, Belongs;
  }

  lemma StepSound(limits: Limits, scan: Scan, w: World, a: Action)
    requires Sound(w) && Enabled(w, a)
    ensures Sound(Next(limits, scan, w, a)) && Preserved(w, Next(limits, scan, w, a))
  {
    hide Next, Enabled;
    StepSoundFields(limits, scan, w, a);
    StepSoundBuckets(limits, scan, w, a);
    var w' := Next(limits, scan, w, a);
    forall t | t in w'.threads && HasSnapshot(w'.threads[t].pc)
      ensures SoundSnapshot(w', w'.threads[t].pc.snap)
    {
      StepSoundThread(limits, scan, w, a, t);
    }
  }

  lemma {:induction false} RunSound(limits: Limits, scan: Scan, from: Origin, rl: RateLimitConfig,
                                    now: real, run: seq<Action>)
    requires Possible(limits, scan, Start(from, rl, now), run)
    ensures Sound(Reached(limits, scan, Start(from, rl, now), run))
  {
    hide Sound;
    if run == [] {
      StartSound(from, rl, now);
    } else {
      var before := run[..|run| - 1];
      RunSound(limits, scan, from, rl, now, before);
      StepSound(limits, scan, Reached(limits, scan, Start(from, rl, now), before), run[|run| - 1]);
    }
  }

  lemma StartSound(from: Origin, rl: RateLimitConfig, now: real)
    ensures Sound(Start(from, rl, now))
  {
  }

  lemma {:induction false} RunPreserves(limits: Limits, scan: Scan, from: Origin, rl: RateLimitConfig,
                                        now: real, run: seq<Action>, i: nat, j: nat)
    requires Possible(limits, scan, Start(from, rl, now), run) && i <= j <= |run|
    ensures Preserved(Reached(limits, scan, Start(from, rl, now), run[..i]),
                      Reached(limits, scan, Start(from, rl, now), run[..j]))
    decreases j
  {
    hide Sound, Reached, Next;
    if i < j {
      var w := Start(from, rl, now);
      RunPreserves(limits, scan, from, rl, now, run, i, j - 1);
      StepAt(limits, scan, w, run, j - 1);
      RunSound(limits, scan, from, rl, now, run[..j - 1]);
      StepSound(limits, scan, Reached(limits, scan, w, run[..j - 1]), run[j - 1]);
    }
  }

  /** In every interleaving a database, provisioned or restored, opens at most one engine and closes only that
      one, once; a pending one has none; and every request that has looked will price and spend with a bucket
      and a configuration that were installed together. */
  lemma EngineLifetime(limits: Limits, scan: Scan, from: Origin, rl: RateLimitConfig,
                       now: real, run: seq<Action>)
    requires Possible(limits, scan, Start(from, rl, now), run)
    ensures var w := Reached(limits, scan, Start(from, rl, now), run);
      && w.opens <= 1
      && |w.closings| <= w.opens && (w.closings != [] ==> w.closings == [0] && w.engine.None?)
      && (w.state.Pending? ==> w.engine.None? && w.opens == 0)
      && (forall t :: t in w.threads && HasSnapshot(w.threads[t].pc) ==>
            var snap := w.threads[t].pc.snap;
            snap.bucket < |w.buckets| && snap.bucket < |w.installed| && w.installed[snap.bucket] == snap.rl
            && Belongs(w.buckets[snap.bucket], snap.rl))
  {
    RunSound(limits, scan, from, rl, now, run);
  }

  /** Once active, always active; and once an active database has been destroyed, no request that looks
      afterwards gets an engine: it will be told that the database is gone. */
  lemma DestructionIsFinal(limits: Limits, scan: Scan, from: Origin, rl: RateLimitConfig,
                           now: real, run: seq<Action>, i: nat, j: nat, t: Tid)
    requires Possible(limits, scan, Start(from, rl, now), run) && i <= j < |run|
    requires var w := Reached(limits, scan, Start(from, rl, now), run[..i]); w.state.Active? && w.engine.None?
    requires run[j].Look? && run[j].t == t
    ensures var th := Reached(limits, scan, Start(from, rl, now), run[..j + 1]).threads;
      t in th && th[t].pc.Looked? && th[t].pc.snap.state.Active? && th[t].pc.snap.engine.None?
  {
    RunPreserves(limits, scan, from, rl, now, run, i, j);
    StepAt(limits, scan, Start(from, rl, now), run, j);
  }

  /** The limit that the latest change named. */
  function LatestLimit(rl: RateLimitConfig, run: seq<Action>): RateLimitConfig {
    if run == [] then rl
    else if run[|run| - 1].SetRateLimit? then run[|run| - 1].rl
    else LatestLimit(rl, run[..|run| - 1])
  }

  /** In every interleaving a request that looks now gets the prices of the latest limit and a bucket of that
      capacity and refill. */
  lemma {:induction false} LatestLimitHolds(limits: Limits, scan: Scan, from: Origin, rl: RateLimitConfig,
                                            now: real, run: seq<Action>)
    requires Possible(limits, scan, Start(from, rl, now), run)
    ensures var w, latest := Reached(limits, scan, Start(from, rl, now), run), LatestLimit(rl, run);
      && SnapshotOf(w).rl == latest && SnapshotOf(w).bucket < |w.buckets|
      && w.buckets[SnapshotOf(w).bucket].capacity == latest.capacityBytes
      && w.buckets[SnapshotOf(w).bucket].refillPerSec == latest.refillBytesPerSec
  {
    RunSound(limits, scan, from, rl, now, run);
    if run != [] {
      var before := run[..|run| - 1];
      LatestLimitHolds(limits, scan, from, rl, now, before);
      StepKeepsParameters(limits, scan, Reached(limits, scan, Start(from, rl, now), before), run[|run| - 1]);
    }
  }

  /** A change installs a full bucket of its limit, and leaves the buckets that requests already hold alone. */
  lemma RelimitInstalls(limits: Limits, scan: Scan, w: World, rl: RateLimitConfig, at: real)
    ensures var w' := Next(limits, scan, w, SetRateLimit(rl, at));
      && SnapshotOf(w').rl == rl && SnapshotOf(w').bucket < |w'.buckets|
      && w'.buckets[SnapshotOf(w').bucket] == Bucket(rl.capacityBytes, rl.capacityBytes, rl.refillBytesPerSec, at)
      && w.buckets <= w'.buckets
  {
  }

  /** A Destroy takes the engine away and leaves of the contents what the removal leaves of the directory. */
  lemma DestroyLeaves(limits: Limits, scan: Scan, w: World, removal: Removal, size: nat)
    ensures var w' := Next(limits, scan, w, Destroy(removal, size));
      && w'.engine.None? && w'.threads == w.threads
      && (removal.Cleared? ==> w'.store == map[] && w'.size == 0)
      && (removal.Stuck? ==>
            w'.size == size && w'.store == if removal.left.Some? then removal.left.value.store else map[])
  {
  }
}
