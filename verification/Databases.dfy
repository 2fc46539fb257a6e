/** The Database object: a pending or active tenant whose engine's contents live in its data directory. */
module Databases {
  import opened Base
  import opened RateLimiter
  import opened Tenants
  import opened Registry

  // ----- The file system -----

  type Dirs = map<string, Dir>

  function DirAt(dirs: Dirs, path: string): Option<Dir> {
    if path in dirs then Some(dirs[path]) else None
  }

  function WithDir(dirs: Dirs, path: string, dir: Option<Dir>): Dirs {
    if dir.Some? then dirs[path := dir.value] else dirs - {path}
  }

  /** Everything that survives the process: the registry file and the data directories. */
  datatype Disk = Disk(registry: File, dirs: Dirs)

  class FileSystem {
    var registry: File
    var dirs: Dirs

    function Value(): Disk
      reads this
    {
      Disk(registry, dirs)
    }

    constructor (disk: Disk)
      ensures Value() == disk
    {
      registry, dirs := disk.registry, disk.dirs;
    }

    // The engine is a durable map in its directory.

    method EnginePut(path: string, key: Bytes, value: Bytes)
      modifies this`dirs
      ensures dirs == WithDir(old(dirs), path,
                              Holding(old(DirAt(dirs, path)), StoreOf(old(DirAt(dirs, path)))[key := value]))
    {
      if path in dirs {
        dirs := dirs[path := dirs[path].(store := dirs[path].store[key := value])];
      }
    }

    method EngineDelete(path: string, key: Bytes)
      modifies this`dirs
      ensures dirs == WithDir(old(dirs), path, Holding(old(DirAt(dirs, path)), StoreOf(old(DirAt(dirs, path))) - {key}))
    {
      if path in dirs {
        dirs := dirs[path := dirs[path].(store := dirs[path].store - {key})];
      }
    }
  }

  /** Putting back the directory that is there changes nothing. */
  lemma SameDir(dirs: Dirs, path: string)
    ensures WithDir(dirs, path, DirAt(dirs, path)) == dirs
  {
  }

  // ----- The database -----

  class Database {
    const apiKey: ApiKey
    const dataDirPath: string
    const limits: Limits
    var bucket: TokenBucket
    var state: TenantState
    var lastActive: int
    var rateLimit: RateLimitConfig
    /** The directory the open engine works in. */
    var engine: Option<string>

    ghost predicate Valid()
      reads this
    {
      engine.Some? ==> engine.value == dataDirPath
    }

    function Value(): Tenant
      reads this, bucket
    {
      Tenant(state, engine.Some?, bucket.Value(), rateLimit, lastActive)
    }

    constructor (apiKey: ApiKey, dataDirPath: string, limits: Limits, rl: RateLimitConfig, now: real, unix: int)
      ensures Valid() && Value() == NewTenant(rl, now, unix)
      ensures this.apiKey == apiKey && this.dataDirPath == dataDirPath && this.limits == limits
      ensures fresh(bucket)
    {
      this.apiKey := apiKey;
      this.dataDirPath := dataDirPath;
      this.limits := limits;
      var b := new TokenBucket(rl, now);
      bucket := b;
      rateLimit := rl;
      state := Pending;
      engine := None;
      lastActive := unix;
    }

    method TouchActivity(unix: int)
      modifies this`lastActive
      ensures lastActive == unix
    {
      lastActive := unix;
    }

    /** Opens the engine; it makes no directory. */
    method InitializeEngine(openOk: bool) returns (ok: bool)
      modifies this`engine, this`state
      ensures ok == openOk
      ensures Value() == if ok then Opened(old(Value())) else old(Value())
      ensures engine == if ok then Some(dataDirPath) else old(engine)
    {
      if !openOk {
        return false;
      }
      engine := Some(dataDirPath);
      state := Active;
      return true;
    }

    /** Writes the in-memory clock to the marker file; there is nowhere to write it without a directory. */
    method PersistActivity(fs: FileSystem, writeOk: bool) returns (ok: bool)
      modifies fs`dirs
      ensures ok == (writeOk && old(DirAt(fs.dirs, dataDirPath)).Some?)
      ensures fs.dirs ==
        if ok then WithDir(old(fs.dirs), dataDirPath, Marked(old(DirAt(fs.dirs, dataDirPath)), lastActive))
        else old(fs.dirs)
    {
      if !writeOk || dataDirPath !in fs.dirs {
        return false;
      }
      fs.dirs := fs.dirs[dataDirPath := fs.dirs[dataDirPath].(marker := Some(lastActive))];
      return true;
    }

    method Materialize(fs: FileSystem, env: Env) returns (ok: bool)
      requires Valid()
      modifies this`engine, this`state, fs`dirs
      ensures Valid()
      ensures (Value(), DirAt(fs.dirs, dataDirPath), ok)
           == Materialized(old(Value()), old(DirAt(fs.dirs, dataDirPath)), env)
      ensures fs.dirs == WithDir(old(fs.dirs), dataDirPath, DirAt(fs.dirs, dataDirPath))
    {
      SameDir(fs.dirs, dataDirPath);
      if !env.mkdirOk {
        return false;
      }
      if dataDirPath !in fs.dirs {
        fs.dirs := fs.dirs[dataDirPath := Dir(map[], None)];
      }
      var active := InitializeEngine(env.openOk);
      if !active {
        return false;
      }
      var persisted := PersistActivity(fs, env.markerOk);
      return true;
    }

    /** Closes the engine, if any, and then removes the directory; the engine stays closed if that fails, and
        any part of the directory may be gone then. */
    method Destroy(fs: FileSystem, removal: Removal) returns (ok: bool)
      requires Valid()
      modifies this`engine, fs`dirs
      ensures Valid() && ok == removal.Cleared?
      ensures Value() == Closed(old(Value()))
      ensures fs.dirs == WithDir(old(fs.dirs), dataDirPath, LeftBy(removal))
    {
      if engine.Some? {
        engine := None;
      }
      fs.dirs := fs.dirs - {dataDirPath};
      if removal.Stuck? && removal.left.Some? {
        fs.dirs := fs.dirs[dataDirPath := removal.left.value];
      }
      return removal.Cleared?;
    }

    method SetRateLimitConfig(rl: RateLimitConfig, now: real)
      requires Valid()
      modifies this`rateLimit, this`bucket
      ensures Valid() && Value() == Limited(old(Value()), rl, now)
      ensures fresh(bucket)
    {
      rateLimit := rl;
      bucket := new TokenBucket(rl, now);
    }

    // Each request method does to the object and its directory what Request does to their values.

    /** What the handlers of the four verbs do with the database they looked up. */
    method Serve(fs: FileSystem, scan: Scan, op: Op, env: Env) returns (r: Response)
      requires Valid()
      modifies this`lastActive, this`engine, this`state, bucket, fs`dirs
      ensures Valid()
      ensures Outcome(Value(), DirAt(fs.dirs, dataDirPath), r)
           == Request(limits, scan, old(Value()), old(DirAt(fs.dirs, dataDirPath)), op, env)
      ensures fs.dirs == WithDir(old(fs.dirs), dataDirPath, DirAt(fs.dirs, dataDirPath))
    {
      hide Request;
      SameDir(fs.dirs, dataDirPath);
      match op {
        case Get(key) => r := Get(fs, scan, key, env);
        case Put(key, value) => r := Put(fs, scan, key, value, env);
        case Delete(key) => r := Delete(fs, scan, key, env);
        case Range(start, end) => r := Range(fs, scan, start, end, env);
      }
    }

    method Get(fs: FileSystem, scan: Scan, key: Bytes, env: Env) returns (r: Response)
      requires Valid()
      modifies this`lastActive, bucket
      ensures Valid()
      ensures Outcome(Value(), DirAt(fs.dirs, dataDirPath), r)
           == Request(limits, scan, old(Value()), DirAt(fs.dirs, dataDirPath), Op.Get(key), env)
    {
      if key == [] {
        return Err(EmptyKey);
      }
      var admitted := bucket.Consume(env.now, rateLimit.FlatCost());
      if !admitted {
        return Err(RateLimited);
      }
      if state == Pending {
        return Ok(Miss);
      }
      TouchActivity(env.unix);
      if engine.None? {
        return Err(Gone);
      }
      if !env.callOk {
        return Err(Unavailable);
      }
      var m := StoreOf(DirAt(fs.dirs, engine.value));
      HoldingItself(DirAt(fs.dirs, dataDirPath));
      if key !in m {
        return Ok(Miss);
      }
      bucket.Charge(env.later, rateLimit.ReadCost(|m[key]|));
      return Ok(Found(m[key]));
    }

    method Put(fs: FileSystem, scan: Scan, key: Bytes, value: Bytes, env: Env) returns (r: Response)
      requires Valid()
      modifies this`lastActive, this`engine, this`state, bucket, fs`dirs
      ensures Valid()
      ensures Outcome(Value(), DirAt(fs.dirs, dataDirPath), r)
           == Request(limits, scan, old(Value()), old(DirAt(fs.dirs, dataDirPath)), Op.Put(key, value), env)
      ensures fs.dirs == WithDir(old(fs.dirs), dataDirPath, DirAt(fs.dirs, dataDirPath))
    {
      SameDir(fs.dirs, dataDirPath);
      if key == [] {
        return Err(EmptyKey);
      }
      if |value| > limits.maxValueBytes {
        return Err(TooLarge);
      }
      if state == Pending {
        var ok := Materialize(fs, env);
        if !ok {
          return Err(Internal);
        }
      }
      r := FinishPut(fs, scan, key, value, env);
    }

    /** What Put does once the tenant is active. */
    method FinishPut(fs: FileSystem, scan: Scan, key: Bytes, value: Bytes, env: Env) returns (r: Response)
      requires Valid() && state == Active
      modifies this`lastActive, bucket, fs`dirs
      ensures Valid()
      ensures Outcome(Value(), DirAt(fs.dirs, dataDirPath), r)
           == Paid(limits, scan, old(Value()), old(DirAt(fs.dirs, dataDirPath)), Op.Put(key, value), env)
      ensures fs.dirs == WithDir(old(fs.dirs), dataDirPath, DirAt(fs.dirs, dataDirPath))
    {
      SameDir(fs.dirs, dataDirPath);
      var admitted := bucket.Consume(env.now, rateLimit.PutCost(|value|));
      if !admitted {
        return Err(RateLimited);
      }
      TouchActivity(env.unix);
      if engine.None? {
        return Err(Gone);
      }
      if env.size.None? {
        return Err(Unavailable);
      }
      if env.size.value >= limits.maxStorageBytes {
        return Err(StorageFull);
      }
      if !env.callOk {
        return Err(Unavailable);
      }
      fs.EnginePut(engine.value, key, value);
      return Ok(Stored);
    }

    method Delete(fs: FileSystem, scan: Scan, key: Bytes, env: Env) returns (r: Response)
      requires Valid()
      modifies this`lastActive, bucket, fs`dirs
      ensures Valid()
      ensures Outcome(Value(), DirAt(fs.dirs, dataDirPath), r)
           == Request(limits, scan, old(Value()), old(DirAt(fs.dirs, dataDirPath)), Op.Delete(key), env)
      ensures fs.dirs == WithDir(old(fs.dirs), dataDirPath, DirAt(fs.dirs, dataDirPath))
    {
      SameDir(fs.dirs, dataDirPath);
      if key == [] {
        return Err(EmptyKey);
      }
      var admitted := bucket.Consume(env.now, rateLimit.FlatCost());
      if !admitted {
        return Err(RateLimited);
      }
      if state == Pending {
        return Ok(Deleted);
      }
      TouchActivity(env.unix);
      if engine.None? {
        return Err(Gone);
      }
      if !env.callOk {
        return Err(Unavailable);
      }
      fs.EngineDelete(engine.value, key);
      return Ok(Deleted);
    }

    method Range(fs: FileSystem, scan: Scan, start: Bytes, end: Bytes, env: Env) returns (r: Response)
      requires Valid()
      modifies this`lastActive, bucket
      ensures Valid()
      ensures Outcome(Value(), DirAt(fs.dirs, dataDirPath), r)
           == Request(limits, scan, old(Value()), DirAt(fs.dirs, dataDirPath), Op.Range(start, end), env)
    {
      if start == [] || end == [] {
        return Err(EmptyRangeBounds);
      }
      var admitted := bucket.Consume(env.now, rateLimit.FlatCost());
      if !admitted {
        return Err(RateLimited);
      }
      if state == Pending {
        return Ok(Pairs([]));
      }
      TouchActivity(env.unix);
      if engine.None? {
        return Err(Gone);
      }
      if !env.callOk {
        return Err(Unavailable);
      }
      var pairs := scan(StoreOf(DirAt(fs.dirs, engine.value)), start, end);
      HoldingItself(DirAt(fs.dirs, dataDirPath));
      var total := 0;
      for i := 0 to |pairs|
        invariant total == TotalBytes(pairs[..i])
      {
        assert pairs[..i + 1][..i] == pairs[..i];
        total := total + (|pairs[i].key| + |pairs[i].value|);
      }
      assert pairs[..|pairs|] == pairs;
      bucket.Charge(env.later, rateLimit.ReadCost(total));
      return Ok(Pairs(pairs));
    }
  }

  lemma HoldingItself(dir: Option<Dir>)
    ensures Holding(dir, StoreOf(dir)) == dir
  {
  }
}
