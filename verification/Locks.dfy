/** The locks a server operation takes and gives back, in order, and why nobody waits for ever. */
module Locks {
  import opened Registry

  type Tid = nat

  datatype Lock = ManagerLock | DatabaseLock(key: ApiKey) | BucketLock(id: nat)

  /** What a thread does next with a lock; Work is anything that takes none, or nothing at all. */
  datatype Act = RLock(lock: Lock) | RUnlock(lock: Lock) | WLock(lock: Lock) | WUnlock(lock: Lock) | Work

  // ----- The operations, as the code takes the locks -----

  /** How far a deprovisioning gets: there is no such tenant, the tree cannot be removed, the registry's turn. */
  datatype Course = Absent | StuckAtTree | Through

  /** Which way an operation goes where that depends on data. Rejected requests have the wrong method or no
      readable body; invalid ones are looked up before their key, bounds or value are refused. */
  datatype Request =
    | Rejected
    | UnknownKey
    | Invalid
    | Read(key: ApiKey, bucket: nat, charges: bool)
    | Write(key: ApiKey, bucket: nat, opens: bool)
    | FailedOpen(key: ApiKey)
    | Relimit(key: ApiKey)
    | Provision(draws: nat)
    | NoKey(draws: nat)
    | Deprovision(key: ApiKey, course: Course)
    | Reap(tenants: seq<ApiKey>, active: seq<ApiKey>, victims: map<ApiKey, Course>)
    | Load
    | Count

  function Lookup(): seq<Act> {
    [RLock(ManagerLock), RUnlock(ManagerLock)]
  }

  function Guarded(l: Lock, works: bool): seq<Act> {
    if works then [WLock(l), Work, WUnlock(l)] else [WLock(l), WUnlock(l)]
  }

  function BucketCall(id: nat): seq<Act> {
    Guarded(BucketLock(id), true)
  }

  /** Deprovision keeps the manager's lock while it destroys the database under that one's own. */
  function DeprovisionActs(key: ApiKey, course: Course): seq<Act> {
    match course
    case Absent => Guarded(ManagerLock, false)
    case StuckAtTree => [WLock(ManagerLock)] + (Guarded(DatabaseLock(key), true) + [WUnlock(ManagerLock)])
    case Through => [WLock(ManagerLock)] + (Guarded(DatabaseLock(key), true) + [Work, WUnlock(ManagerLock)])
  }

  /** The reaper asks every tenant, under the manager's read lock, whether it is pending. */
  function PendingChecks(keys: seq<ApiKey>): seq<Act> {
    if keys == [] then []
    else [RLock(DatabaseLock(keys[0])), RUnlock(DatabaseLock(keys[0]))] + PendingChecks(keys[1..])
  }

  /** By its turn a victim may have been deprovisioned by somebody else. */
  function ReapActs(active: seq<ApiKey>, victims: map<ApiKey, Course>): seq<Act> {
    if active == [] then []
    else
      [Work] + (if active[0] in victims then DeprovisionActs(active[0], victims[active[0]]) else [])
      + ReapActs(active[1..], victims)
  }

  function Repeat(acts: seq<Act>, n: nat): seq<Act> {
    if n == 0 then [] else acts + Repeat(acts, n - 1)
  }

  function Program(r: Request): seq<Act> {
    match r
    case Rejected => [Work]
    case UnknownKey => Lookup()
    case Invalid => Lookup() + [Work]
    case Read(key, bucket, charges) =>
      Lookup() + [RLock(DatabaseLock(key)), RUnlock(DatabaseLock(key))] + BucketCall(bucket) + [Work]
      + (if charges then BucketCall(bucket) else [])
    case Write(key, bucket, opens) =>
      Lookup() + Guarded(DatabaseLock(key), opens) + BucketCall(bucket) + [Work]
    case FailedOpen(key) => Lookup() + Guarded(DatabaseLock(key), true)
    case Relimit(key) => Lookup() + Guarded(DatabaseLock(key), true)
    case Provision(draws) => Repeat(Lookup(), draws) + Guarded(ManagerLock, true)
    case NoKey(draws) => Repeat(Lookup(), draws)
    case Deprovision(key, course) => DeprovisionActs(key, course)
    case Reap(tenants, active, victims) =>
      [RLock(ManagerLock)] + PendingChecks(tenants) + [RUnlock(ManagerLock)] + ReapActs(active, victims)
    case Load => Guarded(ManagerLock, true)
    case Count => Lookup()
  }

  // ----- The order -----

  function Rank(l: Lock): nat {
    match l
    case ManagerLock => 0
    case DatabaseLock(_) => 1
    case BucketLock(_) => 2
  }

  /** What remains to be done takes locks only above all those held, gives back what it holds, and in the end
      holds nothing. */
  ghost predicate Ordered(rest: seq<Act>, reading: set<Lock>, writing: set<Lock>) {
    if rest == [] then reading == {} && writing == {}
    else
      match rest[0]
      case RLock(l) => Above(l, reading + writing) && Ordered(rest[1..], reading + {l}, writing)
      case WLock(l) => Above(l, reading + writing) && Ordered(rest[1..], reading, writing + {l})
      case RUnlock(l) => l in reading && Ordered(rest[1..], reading - {l}, writing)
      case WUnlock(l) => l in writing && Ordered(rest[1..], reading, writing - {l})
      case Work => Ordered(rest[1..], reading, writing)
  }

  ghost predicate Above(l: Lock, held: set<Lock>) {
    forall m :: m in held ==> Rank(m) < Rank(l)
  }

  // ----- Threads and locks -----

  /** A thread has these acts left and these locks in hand; `announced` once it has begun to wait for a
      write lock, from when on new readers are kept out. */
  datatype Thread = Thread(rest: seq<Act>, reading: set<Lock>, writing: set<Lock>, announced: bool)

  type World = map<Tid, Thread>

  predicate Announced(th: Thread, l: Lock) {
    th.announced && th.rest != [] && th.rest[0] == WLock(l)
  }

  ghost predicate CanMove(w: World, t: Tid)
  {
    && t in w && w[t].rest != []
    && match w[t].rest[0]
       case RLock(l) => forall u :: u in w ==> l !in w[u].writing && !Announced(w[u], l)
       case WLock(l) =>
         if w[t].announced then forall u :: u in w ==> l !in w[u].reading && l !in w[u].writing
         else forall u :: u in w ==> l !in w[u].writing && !Announced(w[u], l)
       case _ => true
  }

  function Moved(th: Thread): Thread
    requires th.rest != []
  {
    match th.rest[0]
    case RLock(l) => th.(rest := th.rest[1..], reading := th.reading + {l})
    case RUnlock(l) => th.(rest := th.rest[1..], reading := th.reading - {l})
    case WLock(l) =>
      if th.announced then th.(rest := th.rest[1..], writing := th.writing + {l}, announced := false)
      else th.(announced := true)
    case WUnlock(l) => th.(rest := th.rest[1..], writing := th.writing - {l})
    case Work => th.(rest := th.rest[1..])
  }

  datatype Event = Arrive(t: Tid, request: Request) | Move(t: Tid)

  ghost predicate Possible(w: World, e: Event) {
    match e
    case Arrive(t, _) => t !in w
    case Move(t) => CanMove(w, t)
  }

  ghost function After(w: World, e: Event): World
    requires Possible(w, e)
  {
    match e
    case Arrive(t, r) => w[t := Thread(Program(r), {}, {}, false)]
    case Move(t) => w[t := Moved(w[t])]
  }

  /** What a sequence of events leads to; an event that is not possible when its turn comes does not happen. */
  ghost function Run(events: seq<Event>): World {
    if events == [] then map[]
    else
      var w := Run(events[..|events| - 1]);
      if Possible(w, Last(events)) then After(w, Last(events)) else w
  }

  ghost predicate Orderly(w: World) {
    forall t :: t in w ==> Ordered(w[t].rest, w[t].reading, w[t].writing)
                           && (w[t].announced ==> w[t].rest != [] && w[t].rest[0].WLock?)
  }

  // ----- Every program is ordered -----

  lemma {:induction false} OrderedThen(first: seq<Act>, second: seq<Act>, reading: set<Lock>, writing: set<Lock>)
    requires Ordered(first, reading, writing) && Ordered(second, {}, {})
    ensures Ordered(first + second, reading, writing)
    decreases |first|
  {
    if first == [] {
      assert first + second == second;
    } else {
      assert (first + second)[1..] == first[1..] + second;
      match first[0]
      case RLock(l) => OrderedThen(first[1..], second, reading + {l}, writing);
      case WLock(l) => OrderedThen(first[1..], second, reading, writing + {l});
      case RUnlock(l) => OrderedThen(first[1..], second, reading - {l}, writing);
      case WUnlock(l) => OrderedThen(first[1..], second, reading, writing - {l});
      case Work => OrderedThen(first[1..], second, reading, writing);
    }
  }

  lemma ReadSection(l: Lock, rest: seq<Act>, reading: set<Lock>, writing: set<Lock>)
    requires Above(l, reading + writing) && Ordered(rest, reading, writing)
    ensures Ordered([RLock(l), RUnlock(l)] + rest, reading, writing)
  {
    var all := [RLock(l), RUnlock(l)] + rest;
    assert all[1..][1..] == rest && all[1..][0] == RUnlock(l);
    assert reading + {l} - {l} == reading;
  }

  lemma WriteSection(l: Lock, works: bool, rest: seq<Act>, reading: set<Lock>, writing: set<Lock>)
    requires Above(l, reading + writing) && Ordered(rest, reading, writing)
    ensures Ordered(Guarded(l, works) + rest, reading, writing)
  {
    var all := Guarded(l, works) + rest;
    assert writing + {l} - {l} == writing;
    if works {
      assert all[1..][1..][1..] == rest && all[1..][0] == Work && all[1..][1..][0] == WUnlock(l);
    } else {
      assert all[1..][1..] == rest && all[1..][0] == WUnlock(l);
    }
  }

  lemma Alone(l: Lock, works: bool)
    ensures Ordered(Guarded(l, works), {}, {})
    ensures Ordered([RLock(l), RUnlock(l)], {}, {})
    ensures Ordered([Work], {}, {})
  {
    WriteSection(l, works, [], {}, {});
    ReadSection(l, [], {}, {});
    assert Guarded(l, works) + [] == Guarded(l, works);
    assert [RLock(l), RUnlock(l)] + [] == [RLock(l), RUnlock(l)];
    assert [Work][1..] == [];
  }

  lemma {:induction false} RepeatOrdered(acts: seq<Act>, n: nat)
    requires Ordered(acts, {}, {})
    ensures Ordered(Repeat(acts, n), {}, {})
  {
    if n > 0 {
      RepeatOrdered(acts, n - 1);
      OrderedThen(acts, Repeat(acts, n - 1), {}, {});
    }
  }

  lemma {:induction false} PendingChecksOrdered(keys: seq<ApiKey>, rest: seq<Act>, reading: set<Lock>)
    requires reading <= {ManagerLock} && Ordered(rest, reading, {})
    ensures Ordered(PendingChecks(keys) + rest, reading, {})
  {
    if keys == [] {
      assert [] + rest == rest;
    } else {
      var l := DatabaseLock(keys[0]);
      PendingChecksOrdered(keys[1..], rest, reading);
      ReadSection(l, PendingChecks(keys[1..]) + rest, reading, {});
      assert PendingChecks(keys) + rest == [RLock(l), RUnlock(l)] + (PendingChecks(keys[1..]) + rest);
    }
  }

  lemma DeprovisionOrdered(key: ApiKey, course: Course)
    ensures Ordered(DeprovisionActs(key, course), {}, {})
  {
    Alone(ManagerLock, false);
    assert {} + {ManagerLock} == {ManagerLock} && {ManagerLock} - {ManagerLock} == {};
    var last := [WUnlock(ManagerLock)];
    assert last[0] == WUnlock(ManagerLock) && last[1..] == [];
    assert Ordered(last, {}, {ManagerLock});
    match course
    case Absent =>
    case StuckAtTree => TreeThenOrdered(key, last);
    case Through =>
      assert ([Work] + last)[1..] == last;
      assert [Work] + last == [Work, WUnlock(ManagerLock)];
      TreeThenOrdered(key, [Work, WUnlock(ManagerLock)]);
  }

  lemma TreeThenOrdered(key: ApiKey, tail: seq<Act>)
    requires Ordered(tail, {}, {ManagerLock})
    ensures Ordered([WLock(ManagerLock)] + (Guarded(DatabaseLock(key), true) + tail), {}, {})
  {
    WriteSection(DatabaseLock(key), true, tail, {}, {ManagerLock});
    var inner := Guarded(DatabaseLock(key), true) + tail;
    assert ([WLock(ManagerLock)] + inner)[1..] == inner;
    assert {} + {ManagerLock} == {ManagerLock};
  }

  lemma {:induction false} ReapOrdered(active: seq<ApiKey>, victims: map<ApiKey, Course>)
    ensures Ordered(ReapActs(active, victims), {}, {})
  {
    if active != [] {
      var k, rest := active[0], ReapActs(active[1..], victims);
      ReapOrdered(active[1..], victims);
      Alone(ManagerLock, true);
      if k in victims {
        DeprovisionOrdered(k, victims[k]);
        OrderedThen([Work], DeprovisionActs(k, victims[k]), {}, {});
        OrderedThen([Work] + DeprovisionActs(k, victims[k]), rest, {}, {});
      } else {
        assert [Work] + [] == [Work];
        OrderedThen([Work], rest, {}, {});
      }
    }
  }

  lemma TakeRead(l: Lock, rest: seq<Act>, reading: set<Lock>)
    requires Above(l, reading) && Ordered(rest, reading + {l}, {})
    ensures Ordered([RLock(l)] + rest, reading, {})
  {
    assert ([RLock(l)] + rest)[1..] == rest && reading + {} == reading;
  }

  lemma GiveRead(l: Lock, rest: seq<Act>, reading: set<Lock>)
    requires l in reading && Ordered(rest, reading - {l}, {})
    ensures Ordered([RUnlock(l)] + rest, reading, {})
  {
    assert ([RUnlock(l)] + rest)[1..] == rest;
  }

  lemma ReapProgramOrdered(tenants: seq<ApiKey>, active: seq<ApiKey>, victims: map<ApiKey, Course>)
    ensures Ordered(Program(Reap(tenants, active, victims)), {}, {})
  {
    hide Ordered, PendingChecks, ReapActs;
    var checks, rest := PendingChecks(tenants), [RUnlock(ManagerLock)] + ReapActs(active, victims);
    ReapOrdered(active, victims);
    assert {ManagerLock} - {ManagerLock} == {} && {} + {ManagerLock} == {ManagerLock};
    GiveRead(ManagerLock, ReapActs(active, victims), {ManagerLock});
    PendingChecksOrdered(tenants, rest, {ManagerLock});
    TakeRead(ManagerLock, checks + rest, {});
    assert Program(Reap(tenants, active, victims)) == [RLock(ManagerLock)] + (checks + rest);
  }

  /** Locks are only ever taken in the order manager, database, bucket, and every operation gives back all it took. */
  lemma ProgramsAreOrdered(r: Request)
    ensures Ordered(Program(r), {}, {})
  {
    hide Ordered, Guarded;
    Alone(ManagerLock, true);
    match r
    case Rejected =>
    case UnknownKey =>
    case Invalid => OrderedThen(Lookup(), [Work], {}, {});
    case Read(key, bucket, charges) =>
      Alone(DatabaseLock(key), true);
      Alone(BucketLock(bucket), true);
      var looked := Lookup() + [RLock(DatabaseLock(key)), RUnlock(DatabaseLock(key))];
      OrderedThen(Lookup(), [RLock(DatabaseLock(key)), RUnlock(DatabaseLock(key))], {}, {});
      OrderedThen(looked, BucketCall(bucket), {}, {});
      OrderedThen(looked + BucketCall(bucket), [Work], {}, {});
      var served := looked + BucketCall(bucket) + [Work];
      if charges {
        OrderedThen(served, BucketCall(bucket), {}, {});
      } else {
        assert served + [] == served;
      }
    case Write(key, bucket, opens) =>
      Alone(DatabaseLock(key), opens);
      Alone(BucketLock(bucket), true);
      OrderedThen(Lookup(), Guarded(DatabaseLock(key), opens), {}, {});
      OrderedThen(Lookup() + Guarded(DatabaseLock(key), opens), BucketCall(bucket), {}, {});
      OrderedThen(Lookup() + Guarded(DatabaseLock(key), opens) + BucketCall(bucket), [Work], {}, {});
    case FailedOpen(key) =>
      Alone(DatabaseLock(key), true);
      OrderedThen(Lookup(), Guarded(DatabaseLock(key), true), {}, {});
    case Relimit(key) =>
      Alone(DatabaseLock(key), true);
      OrderedThen(Lookup(), Guarded(DatabaseLock(key), true), {}, {});
    case Provision(draws) =>
      RepeatOrdered(Lookup(), draws);
      OrderedThen(Repeat(Lookup(), draws), Guarded(ManagerLock, true), {}, {});
    case NoKey(draws) => RepeatOrdered(Lookup(), draws);
    case Deprovision(key, course) => DeprovisionOrdered(key, course);
    case Reap(tenants, active, victims) => ReapProgramOrdered(tenants, active, victims);
    case Load =>
    case Count =>
  }

  // ----- Nobody waits for ever -----

  lemma StepOrderly(w: World, e: Event)
    requires Orderly(w) && Possible(w, e)
    ensures Orderly(After(w, e))
  {
    if e.Arrive? {
      ProgramsAreOrdered(e.request);
    }
  }

  lemma {:induction false} RunOrderly(events: seq<Event>)
    ensures Orderly(Run(events))
  {
    hide Orderly, After, Possible;
    if events == [] {
      NobodyOrderly();
    } else {
      RunOrderly(events[..|events| - 1]);
      if Possible(Run(events[..|events| - 1]), Last(events)) {
        StepOrderly(Run(events[..|events| - 1]), Last(events));
      }
    }
  }

  lemma NobodyOrderly()
    ensures Orderly(map[])
  {
  }

  predicate Unfinished(w: World, t: Tid) {
    t in w && w[t].rest != []
  }

  predicate WantsLock(w: World, t: Tid) {
    Unfinished(w, t) && (w[t].rest[0].RLock? || w[t].rest[0].WLock?)
  }

  function Wanted(w: World, t: Tid): nat
    requires WantsLock(w, t)
  {
    Rank(w[t].rest[0].lock)
  }

  /** Of the threads that want a lock, one that wants a highest. */
  lemma {:induction false} HighestWanted(w: World, ts: set<Tid>, t: Tid) returns (top: Tid)
    requires t in ts && forall u :: u in ts ==> WantsLock(w, u)
    ensures top in ts && forall u :: u in ts ==> Wanted(w, u) <= Wanted(w, top)
    decreases |ts|
  {
    top := t;
    if u :| u in ts && u != t {
      top := HighestWanted(w, ts - {t}, u);
      if Wanted(w, top) < Wanted(w, t) {
        top := t;
      }
    }
  }

  /** Whoever holds a lock is unfinished and wants only higher ones. */
  lemma HolderWantsHigher(w: World, h: Tid, l: Lock)
    requires Orderly(w) && h in w && (l in w[h].reading || l in w[h].writing)
    ensures Unfinished(w, h)
    ensures WantsLock(w, h) ==> Rank(l) < Wanted(w, h)
  {
    assert Ordered(w[h].rest, w[h].reading, w[h].writing);
    assert l in w[h].reading + w[h].writing;
  }

  /** A holder of a lock of the highest rank anyone wants is not itself waiting for a lock. */
  lemma HolderIsFree(w: World, h: Tid, l: Lock, top: Tid)
    requires Orderly(w) && h in w && (l in w[h].reading || l in w[h].writing)
    requires WantsLock(w, top) && Wanted(w, top) == Rank(l)
    requires forall u :: WantsLock(w, u) ==> Wanted(w, u) <= Wanted(w, top)
    ensures CanMove(w, h)
  {
    hide Ordered, Orderly, Wanted;
    HolderWantsHigher(w, h, l);
    assert !WantsLock(w, h);
  }

  /** Whatever has happened, while some operation is unfinished some operation can go on. */
  lemma NoDeadlock(events: seq<Event>, t: Tid)
    requires Unfinished(Run(events), t)
    ensures exists u :: CanMove(Run(events), u)
  {
    var w := Run(events);
    RunOrderly(events);
    SomeoneCanMove(w, t);
  }

  lemma SomeoneCanMove(w: World, t: Tid)
    requires Orderly(w) && Unfinished(w, t)
    ensures exists u :: CanMove(w, u)
  {
    hide Ordered, Rank;
    if WantsLock(w, t) {
      var wanting := set u | u in w && WantsLock(w, u);
      var top := HighestWanted(w, wanting, t);
      assert forall u :: WantsLock(w, u) ==> u in wanting;
      var l := w[top].rest[0].lock;
      if h :| h in w && (l in w[h].reading || l in w[h].writing) {
        HolderIsFree(w, h, l, top);
      } else if u :| u in w && Announced(w[u], l) {
        assert CanMove(w, u);
      } else {
        assert CanMove(w, top);
      }
    } else {
      assert CanMove(w, t);
    }
  }

  // ----- Everybody can finish -----

  /** How many moves a thread has left. */
  function MovesLeft(th: Thread): nat {
    if th.rest == [] then 0 else 2 * |th.rest| - (if th.announced then 1 else 0)
  }

  ghost function TotalLeft(w: World, ts: set<Tid>): nat
    requires ts <= w.Keys
  {
    if ts == {} then 0
    else
      var t :| t in ts;
      MovesLeft(w[t]) + TotalLeft(w, ts - {t})
  }

  lemma {:induction false} TotalWithout(w: World, ts: set<Tid>, t: Tid)
    requires ts <= w.Keys && t in ts
    ensures TotalLeft(w, ts) == MovesLeft(w[t]) + TotalLeft(w, ts - {t})
    decreases |ts|
  {
    var u :| u in ts && TotalLeft(w, ts) == MovesLeft(w[u]) + TotalLeft(w, ts - {u});
    if u != t {
      TotalWithout(w, ts - {u}, t);
      TotalWithout(w, ts - {t}, u);
      assert ts - {u} - {t} == ts - {t} - {u};
    }
  }

  lemma {:induction false} TotalSame(v: World, w: World, ts: set<Tid>)
    requires ts <= v.Keys && ts <= w.Keys && forall t :: t in ts ==> v[t] == w[t]
    ensures TotalLeft(v, ts) == TotalLeft(w, ts)
    decreases |ts|
  {
    if ts != {} {
      var u :| u in ts && TotalLeft(v, ts) == MovesLeft(v[u]) + TotalLeft(v, ts - {u});
      TotalSame(v, w, ts - {u});
      TotalWithout(w, ts, u);
    }
  }

  lemma MoveReduces(w: World, t: Tid)
    requires Orderly(w) && CanMove(w, t)
    ensures var w' := After(w, Move(t)); w'.Keys == w.Keys && TotalLeft(w', w'.Keys) < TotalLeft(w, w.Keys)
  {
    hide Ordered;
    var w' := After(w, Move(t));
    assert w'.Keys == w.Keys;
    TotalWithout(w, w.Keys, t);
    TotalWithout(w', w'.Keys, t);
    TotalSame(w, w', w.Keys - {t});
    assert MovesLeft(w'[t]) < MovesLeft(w[t]);
  }

  /** From every reachable state the operations under way can all be brought to their end. */
  lemma {:induction false} EveryoneCanFinish(events: seq<Event>) returns (all: seq<Event>)
    ensures events <= all && forall i :: |events| <= i < |all| ==> all[i].Move?
    ensures forall t :: !Unfinished(Run(all), t)
    decreases TotalLeft(Run(events), Run(events).Keys)
  {
    hide CanMove, Orderly, Unfinished, After;
    var w := Run(events);
    if t :| Unfinished(w, t) {
      NoDeadlock(events, t);
      var u :| CanMove(w, u);
      RunOrderly(events);
      MoveReduces(w, u);
      var next := events + [Move(u)];
      assert next[..|events|] == events && Last(next) == Move(u);
      all := EveryoneCanFinish(next);
    } else {
      all := events;
    }
  }
}
