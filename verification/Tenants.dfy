/** One tenant as a value: what a request, run alone, does to its database and its data directory. */
module Tenants {
  import opened Base
  import opened RateLimiter

  // ----- What a client sees -----

  datatype Op =
    | Get(key: Bytes)
    | Put(key: Bytes, value: Bytes)
    | Delete(key: Bytes)
    | Range(start: Bytes, end: Bytes)

  datatype Answer = Found(value: Bytes) | Miss | Stored | Deleted | Pairs(pairs: seq<KV>)

  datatype StoreError =
    | EmptyKey
    | EmptyRangeBounds
    | TooLarge
    | RateLimited
    | StorageFull
    | Gone
    | Unavailable
    | Internal
    | UnknownApiKey
    | NotProvisioned

  type Response = Result<Answer, StoreError>

  /** How the engine lists a range: some function of its contents and the two bounds. */
  type Scan = (Store, Bytes, Bytes) -> seq<KV>

  /** An empty engine lists nothing. */
  ghost predicate EmptyScansEmpty(scan: Scan) {
    forall s, e :: scan(map[], s, e) == []
  }

  /** A plain map, the meaning of a store. */
  function MapAnswer(scan: Scan, m: Store, op: Op): Answer {
    match op
    case Get(key) => if key in m then Found(m[key]) else Miss
    case Put(_, _) => Stored
    case Delete(_) => Deleted
    case Range(start, end) => Pairs(scan(m, start, end))
  }

  function MapAfter(m: Store, op: Op): Store {
    match op
    case Put(key, value) => m[key := value]
    case Delete(key) => m - {key}
    case _ => m
  }

  // ----- The state of one tenant -----

  datatype TenantState = Pending | Active

  /** The fields of a Database; `engine` says whether it holds an open engine. */
  datatype Tenant = Tenant(
    state: TenantState,
    engine: bool,
    bucket: Bucket,
    rateLimit: RateLimitConfig,
    lastActive: int)

  /** A data directory: the engine's durable contents and the time of the activity marker. */
  datatype Dir = Dir(store: Store, marker: Option<int>)

  function StoreOf(dir: Option<Dir>): Store {
    if dir.Some? then dir.value.store else map[]
  }

  datatype Limits = Limits(maxValueBytes: nat, maxStorageBytes: nat)

  /** What a request meets: the times at which it spends and charges, the Unix second, whether making
      the directory, opening the engine and writing the marker work, the size the engine reports, whether
      the engine call works. */
  datatype Env = Env(
    now: real,
    later: real,
    unix: int,
    mkdirOk: bool,
    openOk: bool,
    markerOk: bool,
    size: Option<nat>,
    callOk: bool)

  function NewTenant(rl: RateLimitConfig, now: real, unix: int): Tenant {
    Tenant(Pending, false, FullBucket(rl, now), rl, unix)
  }

  ghost predicate WellFormed(t: Tenant, dir: Option<Dir>) {
    && (t.state.Pending? ==> !t.engine && StoreOf(dir) == map[])
    && (t.engine ==> dir.Some?)
    && t.bucket.capacity == t.rateLimit.capacityBytes
    && t.bucket.refillPerSec == t.rateLimit.refillBytesPerSec
  }

  // ----- The lazy open -----

  function MadeDir(dir: Option<Dir>): Option<Dir> {
    if dir.None? then Some(Dir(map[], None)) else dir
  }

  function Marked(dir: Option<Dir>, unix: int): Option<Dir> {
    if dir.Some? then Some(dir.value.(marker := Some(unix))) else dir
  }

  function Opened(t: Tenant): Tenant {
    t.(engine := true, state := Active)
  }

  /** A pending tenant's first write makes the directory, opens the engine and tries to write the marker. */
  function Materialized(t: Tenant, dir: Option<Dir>, env: Env): (Tenant, Option<Dir>, bool) {
    if !env.mkdirOk then (t, dir, false)
    else if !env.openOk then (t, MadeDir(dir), false)
    else (Opened(t), if env.markerOk then Marked(MadeDir(dir), t.lastActive) else MadeDir(dir), true)
  }

  // ----- Requests -----

  datatype Outcome = Outcome(tenant: Tenant, dir: Option<Dir>, response: Response)

  /** What a request asks of the bucket before anything else. */
  function UpFrontCost(rl: RateLimitConfig, op: Op): real {
    if op.Put? then rl.PutCost(|op.value|) else rl.FlatCost()
  }

  /** What is charged afterwards for the bytes that were read. */
  function ReadBytes(answer: Answer): nat {
    match answer
    case Found(value) => |value|
    case Pairs(pairs) => TotalBytes(pairs)
    case _ => 0
  }

  function TotalBytes(pairs: seq<KV>): nat {
    if pairs == [] then 0
    else TotalBytes(pairs[..|pairs| - 1]) + (|pairs[|pairs| - 1].key| + |pairs[|pairs| - 1].value|)
  }

  /** The bucket once an answer has been given. */
  function Settled(b: Bucket, rl: RateLimitConfig, answer: Answer, later: real): Bucket {
    if answer.Found? || answer.Pairs? then b.Charged(later, rl.ReadCost(ReadBytes(answer))) else b
  }

  /** The refusals decided before the database is looked at. */
  function Refusal(limits: Limits, op: Op): Option<StoreError> {
    match op
    case Range(start, end) => if start == [] || end == [] then Some(EmptyRangeBounds) else None
    case Put(key, value) =>
      if key == [] then Some(EmptyKey)
      else if |value| > limits.maxValueBytes then Some(TooLarge)
      else None
    case _ => if op.key == [] then Some(EmptyKey) else None
  }

  /** A request that starts and finishes alone. */
  function Request(limits: Limits, scan: Scan, t: Tenant, dir: Option<Dir>, op: Op, env: Env): Outcome {
    if Refusal(limits, op).Some? then Outcome(t, dir, Err(Refusal(limits, op).value))
    else if op.Put? && t.state.Pending? then
      var (active, made, ok) := Materialized(t, dir, env);
      if ok then Paid(limits, scan, active, made, op, env) else Outcome(active, made, Err(Internal))
    else Paid(limits, scan, t, dir, op, env)
  }

  /** From the bucket on: a pending tenant answers from nothing, an active one asks its engine. */
  function Paid(limits: Limits, scan: Scan, t: Tenant, dir: Option<Dir>, op: Op, env: Env): Outcome {
    var cost := UpFrontCost(t.rateLimit, op);
    var spent := t.(bucket := t.bucket.Consumed(env.now, cost));
    if !t.bucket.Admits(env.now, cost) then Outcome(spent, dir, Err(RateLimited))
    else if t.state.Pending? then Outcome(spent, dir, Ok(PendingAnswer(op)))
    else
      var touched := spent.(lastActive := env.unix);
      if !t.engine then Outcome(touched, dir, Err(Gone)) else Served(limits, scan, touched, dir, op, env)
  }

  /** What a request other than a write is told while the tenant is pending. */
  function PendingAnswer(op: Op): Answer {
    match op
    case Get(_) => Miss
    case Range(_, _) => Pairs([])
    case _ => Deleted
  }

  function Served(limits: Limits, scan: Scan, t: Tenant, dir: Option<Dir>, op: Op, env: Env): Outcome {
    if op.Put? && env.size.None? then Outcome(t, dir, Err(Unavailable))
    else if op.Put? && env.size.value >= limits.maxStorageBytes then Outcome(t, dir, Err(StorageFull))
    else if !env.callOk then Outcome(t, dir, Err(Unavailable))
    else
      var m := StoreOf(dir);
      var answer := MapAnswer(scan, m, op);
      var settled := t.(bucket := Settled(t.bucket, t.rateLimit, answer, env.later));
      Outcome(settled, Holding(dir, MapAfter(m, op)), Ok(answer))
  }

  function Holding(dir: Option<Dir>, m: Store): Option<Dir> {
    if dir.Some? then Some(dir.value.(store := m)) else dir
  }

  lemma RequestKeepsWellFormed(limits: Limits, scan: Scan, t: Tenant, dir: Option<Dir>, op: Op, env: Env)
    requires WellFormed(t, dir)
    ensures var o := Request(limits, scan, t, dir, op, env); WellFormed(o.tenant, o.dir)
  {
  }

  /** The engine of a first write cannot be opened in the directory just made for it. */
  predicate OpenFails(limits: Limits, t: Tenant, op: Op, env: Env) {
    t.state.Pending? && op.Put? && Refusal(limits, op).None? && env.mkdirOk && !env.openOk
  }

  /** Active tenants have a directory and pending ones have none: a request keeps that up exactly if it is not
      one whose engine cannot be opened. */
  lemma RequestInStep(limits: Limits, scan: Scan, t: Tenant, dir: Option<Dir>, op: Op, env: Env)
    requires t.state.Active? <==> dir.Some?
    ensures var o := Request(limits, scan, t, dir, op, env);
      (o.tenant.state.Active? <==> o.dir.Some?) <==> !OpenFails(limits, t, op, env)
  {
  }

  /** On a well-formed tenant a request that is answered is answered as by a map, and changes the stored
      contents as it changes a map; one that fails changes nothing stored. */
  lemma RequestIsMapStep(limits: Limits, scan: Scan, t: Tenant, dir: Option<Dir>, op: Op, env: Env)
    requires WellFormed(t, dir) && EmptyScansEmpty(scan)
    ensures var o := Request(limits, scan, t, dir, op, env); var m := StoreOf(dir);
      match o.response
      case Ok(answer) => answer == MapAnswer(scan, m, op) && StoreOf(o.dir) == MapAfter(m, op)
      case Err(_) => StoreOf(o.dir) == m
  {
  }

  /** The request got past the bucket. */
  predicate Admitted(r: Response) {
    r.Ok? || r.error in {StorageFull, Gone, Unavailable}
  }

  /** A request keeps a tenant from being idle exactly if it got past the bucket of an active tenant. */
  lemma OnlyAdmittedRequestsTouch(limits: Limits, scan: Scan, t: Tenant, dir: Option<Dir>, op: Op, env: Env)
    ensures var o := Request(limits, scan, t, dir, op, env);
      o.tenant.lastActive == if Admitted(o.response) && o.tenant.state.Active? then env.unix else t.lastActive
  {
  }

  // ----- What a request does, said of the stored contents themselves -----

  /** Only an answered write or delete changes the contents, and it changes them at its key alone. */
  lemma RequestChangesStore(limits: Limits, scan: Scan, t: Tenant, dir: Option<Dir>, op: Op, env: Env)
    requires WellFormed(t, dir)
    ensures var o, m := Request(limits, scan, t, dir, op, env), StoreOf(dir);
      StoreOf(o.dir) ==
        if o.response.Ok? && op.Put? then m[op.key := op.value]
        else if o.response.Ok? && op.Delete? then m - {op.key}
        else m
  {
  }

  /** An answer is what the contents before the request say. */
  lemma RequestAnswersFromStore(limits: Limits, scan: Scan, t: Tenant, dir: Option<Dir>, op: Op, env: Env)
    requires WellFormed(t, dir) && EmptyScansEmpty(scan)
    requires Request(limits, scan, t, dir, op, env).response.Ok?
    ensures var answer, m := Request(limits, scan, t, dir, op, env).response.value, StoreOf(dir);
      match op
      case Get(key) => if key in m then answer == Found(m[key]) else answer == Miss
      case Put(_, _) => answer == Stored
      case Delete(_) => answer == Deleted
      case Range(start, end) => answer == Pairs(scan(m, start, end))
  {
  }

  /** When a write is answered, and with which error it fails otherwise. */
  lemma PutResponses(limits: Limits, scan: Scan, t: Tenant, dir: Option<Dir>, key: Bytes, value: Bytes, env: Env)
    ensures var r := Request(limits, scan, t, dir, Put(key, value), env).response;
      var price := t.rateLimit.flatOverheadBytes + |value| as real * t.rateLimit.writeByteWeight;
      var allowed := key != [] && |value| <= limits.maxValueBytes;
      var begun := allowed && (t.state.Active? || (env.mkdirOk && env.openOk));
      var paid := begun && price <= t.bucket.Level(env.now);
      var served := paid && (t.state.Pending? || t.engine);
      && (r == Err(EmptyKey) <==> key == [])
      && (r == Err(TooLarge) <==> key != [] && |value| > limits.maxValueBytes)
      && (r == Err(Internal) <==> allowed && !begun)
      && (r == Err(RateLimited) <==> begun && !paid)
      && (r == Err(Gone) <==> paid && !served)
      && (r == Err(StorageFull) <==> served && env.size.Some? && env.size.value >= limits.maxStorageBytes)
      && (r == Err(Unavailable) <==>
            served && (env.size.None? || (env.size.value < limits.maxStorageBytes && !env.callOk)))
      && (r.Ok? <==> served && env.size.Some? && env.size.value < limits.maxStorageBytes && env.callOk)
  {
  }

  /** The same for the other requests. */
  lemma OtherResponses(limits: Limits, scan: Scan, t: Tenant, dir: Option<Dir>, op: Op, env: Env)
    requires !op.Put?
    ensures var r := Request(limits, scan, t, dir, op, env).response;
      var allowed := if op.Range? then op.start != [] && op.end != [] else op.key != [];
      var paid := allowed && t.rateLimit.flatOverheadBytes <= t.bucket.Level(env.now);
      && (r == Err(EmptyKey) <==> !op.Range? && !allowed)
      && (r == Err(EmptyRangeBounds) <==> op.Range? && !allowed)
      && (r == Err(RateLimited) <==> allowed && !paid)
      && (r == Err(Gone) <==> paid && t.state.Active? && !t.engine)
      && (r == Err(Unavailable) <==> paid && t.state.Active? && t.engine && !env.callOk)
      && (r.Ok? <==> paid && (t.state.Pending? || (t.engine && env.callOk)))
  {
  }

  function MarkerOf(dir: Option<Dir>): Option<int> {
    if dir.Some? then dir.value.marker else None
  }

  /** Only a first write that opens the engine writes the marker, and it writes the clock as it was. */
  lemma RequestMarks(limits: Limits, scan: Scan, t: Tenant, dir: Option<Dir>, op: Op, env: Env)
    ensures var o := Request(limits, scan, t, dir, op, env);
      var opens := t.state.Pending? && o.tenant.state.Active?;
      && (opens ==> op.Put? && o.dir.Some? && o.tenant.engine)
      && MarkerOf(o.dir) == if opens && env.markerOk then Some(t.lastActive) else MarkerOf(dir)
  {
  }

  // ----- Changes from outside -----

  function Limited(t: Tenant, rl: RateLimitConfig, now: real): Tenant {
    t.(rateLimit := rl, bucket := FullBucket(rl, now))
  }

  /** What RemoveAll makes of a directory: nothing is left, or it fails and leaves whatever it has not got to. */
  datatype Removal = Cleared | Stuck(left: Option<Dir>)

  function LeftBy(r: Removal): Option<Dir> {
    if r.Stuck? then r.left else None
  }

  /** Destroy closes the engine whether or not the directory can be removed. */
  function Closed(t: Tenant): Tenant {
    t.(engine := false)
  }
}
