/** The DatabaseManager object: which Database object serves which key. */
module Managers {
  import opened Base
  import opened RateLimiter
  import opened Tenants
  import opened Registry
  import opened Databases
  import opened Systems

  datatype ProvisionError = NoKey(why: KeyError) | RootError | AppendError

  class DatabaseManager {
    const cfg: Config
    const fs: FileSystem
    var tenants: map<ApiKey, Database>

    /** No two keys share a database or a bucket, every database is the one for its key and directory,
        and the values are consistent with the disk. */
    ghost predicate Valid()
      reads this, fs, tenants.Values, set db | db in tenants.Values :: db.bucket
    {
      && (forall k :: k in tenants ==> Serves(tenants[k], k))
      && (forall j, k :: j in tenants && k in tenants && j != k ==> Apart(tenants[j], tenants[k]))
      && Consistent(cfg, Value())
    }

    ghost predicate Serves(db: Database, k: ApiKey)
      reads db
    {
      db.Valid() && db.apiKey == k && db.dataDirPath == PathOf(cfg, k) && db.limits == cfg.limits
    }

    ghost predicate Apart(a: Database, b: Database)
      reads a, b
    {
      a != b && a.bucket != b.bucket
    }

    ghost function Value(): System
      reads this, fs, tenants.Values, set db | db in tenants.Values :: db.bucket
    {
      System(fs.Value(), map k | k in tenants :: tenants[k].Value())
    }

    /** The two objects a request for this key may change. */
    ghost function Own(k: ApiKey): set<object>
      reads this, tenants.Values
    {
      if k in tenants then {tenants[k], tenants[k].bucket} else {}
    }

    // Four views of Valid and Value, so that the methods below need not look inside them.

    lemma ValueOfKeys()
      ensures Value().tenants.Keys == tenants.Keys && Value().disk == fs.Value()
      ensures forall k :: k in tenants ==> Value().tenants[k] == tenants[k].Value()
    {
    }

    lemma ValidGives(k: ApiKey)
      requires Valid()
      ensures Consistent(cfg, Value())
      ensures k in tenants ==>
        Serves(tenants[k], k) && forall j :: j in tenants && j != k ==> Apart(tenants[j], tenants[k])
    {
    }

    /** Only k's objects changed: the others read as before, and everything is still in place if k's are. */
    twostate lemma OneTenantChanged(k: ApiKey)
      requires tenants == old(tenants) && k in tenants
      requires forall j :: j in tenants && j != k ==> unchanged(tenants[j]) && unchanged(tenants[j].bucket)
      ensures Value() == System(fs.Value(), old(Value()).tenants[k := tenants[k].Value()])
    {
    }

    twostate lemma OneTenantKept(k: ApiKey)
      requires old(Valid()) && tenants == old(tenants) && k in tenants
      requires forall j :: j in tenants && j != k ==> unchanged(tenants[j])
      requires Serves(tenants[k], k) && (tenants[k].bucket == old(tenants[k].bucket) || fresh(tenants[k].bucket))
      requires Consistent(cfg, Value())
      ensures Valid()
    {
    }

    constructor (cfg: Config, fs: FileSystem)
      requires Consistent(cfg, System(fs.Value(), map[]))
      ensures Valid() && this.cfg == cfg && this.fs == fs
      ensures Value() == System(fs.Value(), map[])
    {
      this.cfg := cfg;
      this.fs := fs;
      tenants := map[];
    }

    /** A public handler: looks the key up and passes the request on. */
    method Handle(scan: Scan, apiKey: ApiKey, op: Op, env: Env) returns (r: Response)
      requires Valid()
      modifies fs`dirs, Own(apiKey)
      ensures Valid() && tenants == old(tenants)
      ensures (Value(), r) == Handled(cfg, scan, old(Value()), apiKey, op, env)
      ensures apiKey in tenants ==> tenants[apiKey].bucket == old(tenants[apiKey].bucket)
    {
      hide Consistent, Request, Value, Valid;
      ValueOfKeys();
      ValidGives(apiKey);
      HandledConsistent(cfg, scan, Value(), apiKey, op, env);
      if apiKey !in tenants {
        return Err(UnknownApiKey);
      }
      var db := tenants[apiKey];
      r := db.Serve(fs, scan, op, env);
      OneTenantChanged(apiKey);
      OneTenantKept(apiKey);
    }

    /** The admin handler that replaces a tenant's rate limit, and with it its bucket. */
    method SetRateLimit(apiKey: ApiKey, rl: RateLimitConfig, now: real) returns (r: Result<(), StoreError>)
      requires Valid()
      modifies Own(apiKey)
      ensures Valid() && tenants == old(tenants)
      ensures r == if apiKey in tenants then Ok(()) else Err(NotProvisioned)
      ensures Value() == if apiKey in tenants then Relimited(old(Value()), apiKey, rl, now) else old(Value())
    {
      hide Consistent, Value, Valid;
      ValueOfKeys();
      ValidGives(apiKey);
      if apiKey !in tenants {
        return Err(NotProvisioned);
      }
      RelimitedConsistent(cfg, Value(), apiKey, rl, now);
      tenants[apiKey].SetRateLimitConfig(rl, now);
      OneTenantChanged(apiKey);
      OneTenantKept(apiKey);
      return Ok(());
    }

    /** Generates a key, appends it to the registry, and only then makes the tenant, pending. All is well
        afterwards exactly if the key was new to the registry and had no data: no other check is made. */
    method RequestProvision(draws: seq<Draw>, rootsOk: bool, appendOk: bool, now: real, unix: int)
      returns (r: Result<ApiKey, ProvisionError>)
      requires Valid() && |draws| == 5
      modifies this`tenants, fs`registry
      ensures r.Err? ==> Valid()
      ensures r.Ok? ==> (Valid() <==> r.value !in old(Keys(fs.registry))
                                      && StoreOf(DirAt(fs.dirs, PathOf(cfg, r.value))) == map[])
      ensures match r
        case Err(NoKey(NoFreshKey)) => (forall d :: d in draws ==> Taken(d, tenants.Keys)) && Value() == old(Value())
        case Err(NoKey(NoRandomness)) => None in draws && Value() == old(Value())
        case Err(RootError) => !rootsOk && Value() == old(Value())
        case Err(AppendError) => !appendOk && Value() == old(Value())
        case Ok(k) => IsApiKey(k) && k !in old(tenants) && Value() == Provisioned(cfg, old(Value()), k, now, unix)
      ensures r.Ok? ==> r.value in tenants && fresh(tenants[r.value]) && fresh(tenants[r.value].bucket)
      ensures r.Ok? ==> tenants == old(tenants)[r.value := tenants[r.value]]
      ensures r.Err? ==> tenants == old(tenants)
    {
      hide Consistent, Value, Valid, HexEncode, Keys, IsApiKey, Appended, Taken, PathOf;
      ValueOfKeys();
      var generated := GenerateApiKey(draws, tenants.Keys);
      if generated.Err? {
        return Err(NoKey(generated.error));
      }
      if !rootsOk {
        return Err(RootError);
      }
      if !appendOk {
        return Err(AppendError);
      }
      Register(generated.value, now, unix);
      return Ok(generated.value);
    }

    /** Appends the key to the registry and makes its tenant. */
    method Register(apiKey: ApiKey, now: real, unix: int)
      requires Valid() && IsApiKey(apiKey) && apiKey !in tenants
      modifies this`tenants, fs`registry
      ensures Valid() <==> apiKey !in old(Keys(fs.registry)) && StoreOf(DirAt(fs.dirs, PathOf(cfg, apiKey))) == map[]
      ensures Value() == Provisioned(cfg, old(Value()), apiKey, now, unix)
      ensures apiKey in tenants && tenants == old(tenants)[apiKey := tenants[apiKey]]
      ensures fresh(tenants[apiKey]) && fresh(tenants[apiKey].bucket)
    {
      hide Consistent, Value, Valid, HexEncode, Keys, IsApiKey, Appended, PathOf;
      ValueOfKeys();
      ValidGives(apiKey);
      ProvisionedConsistent(cfg, Value(), apiKey, now, unix);
      fs.registry := Appended(fs.registry, apiKey);
      var db := new Database(apiKey, PathOf(cfg, apiKey), cfg.limits, cfg.rateLimit, now, unix);
      tenants := tenants[apiKey := db];
      OneTenantAdded(apiKey);
      AddedStaysValid(apiKey);
    }

    /** A key, new or not, got new objects. */
    twostate lemma OneTenantAdded(k: ApiKey)
      requires k in tenants && tenants == old(tenants)[k := tenants[k]]
      requires forall j :: j in old(tenants) && j != k ==> unchanged(tenants[j]) && unchanged(tenants[j].bucket)
      ensures Value() == System(fs.Value(), old(Value()).tenants[k := tenants[k].Value()])
    {
    }

    twostate lemma AddedStaysValid(k: ApiKey)
      requires old(Valid()) && k in tenants
      requires tenants == old(tenants)[k := tenants[k]] && fresh(tenants[k]) && fresh(tenants[k].bucket)
      requires forall j :: j in old(tenants) && j != k ==> unchanged(tenants[j])
      requires Serves(tenants[k], k)
      ensures Valid() <==> Consistent(cfg, Value())
    {
      hide Consistent, Value;
    }

    /** Destroys the database, forgets the tenant, rewrites the registry; stops where one of these fails. */
    method Deprovision(apiKey: ApiKey, removal: Removal, writeOk: bool) returns (r: Result<(), StoreError>)
      requires Valid() && (apiKey in tenants ==> Plausible(tenants[apiKey].Value(), removal))
      modifies this`tenants, fs, Own(apiKey)
      ensures Valid()
      ensures r == if apiKey !in old(tenants) then Err(NotProvisioned)
                   else if removal.Cleared? && writeOk then Ok(()) else Err(Internal)
      ensures Value() == if apiKey in old(tenants) then Deprovisioned(cfg, old(Value()), apiKey, removal, writeOk)
                         else old(Value())
      ensures tenants == if apiKey in old(tenants) && removal.Cleared? then old(tenants) - {apiKey} else old(tenants)
    {
      hide Consistent, Value, Valid, Plausible, Deprovisioned;
      ValueOfKeys();
      if apiKey !in tenants {
        return Err(NotProvisioned);
      }
      var destroyed := DestroyTenant(apiKey, removal);
      if !destroyed {
        StoppedAtTree(cfg, old(Value()), apiKey, removal, writeOk);
        return Err(Internal);
      }
      TreeThenKey(cfg, old(Value()), apiKey, writeOk);
      ValueOfKeys();
      var forgotten := Forget(apiKey, writeOk);
      return if forgotten then Ok(()) else Err(Internal);
    }

    method DestroyTenant(apiKey: ApiKey, removal: Removal) returns (ok: bool)
      requires Valid() && apiKey in tenants && Plausible(tenants[apiKey].Value(), removal)
      modifies fs`dirs, Own(apiKey)
      ensures Valid() && ok == removal.Cleared? && tenants == old(tenants)
      ensures Value() == Deprovisioned(cfg, old(Value()), apiKey, Stuck(LeftBy(removal)), true)
      ensures tenants[apiKey].bucket == old(tenants[apiKey].bucket)
    {
      hide Consistent, Value, Valid, Keys, PathOf, Removed;
      ValueOfKeys();
      ValidGives(apiKey);
      DeprovisionedConsistent(cfg, Value(), apiKey, Stuck(LeftBy(removal)), true);
      ok := tenants[apiKey].Destroy(fs, removal);
      OneTenantChanged(apiKey);
      OneTenantKept(apiKey);
    }

    /** Drops a tenant whose directory is gone, from memory and from the registry. */
    method Forget(apiKey: ApiKey, writeOk: bool) returns (ok: bool)
      requires Valid() && apiKey in tenants && DirOf(cfg, Value(), apiKey).None?
      modifies this`tenants, fs`registry
      ensures Valid() && ok == writeOk && tenants == old(tenants) - {apiKey}
      ensures Value() == Deprovisioned(cfg, old(Value()), apiKey, Cleared, writeOk)
    {
      hide Consistent, Value, Valid, Keys, PathOf, Removed;
      ValueOfKeys();
      ValidGives(apiKey);
      DeprovisionedConsistent(cfg, Value(), apiKey, Cleared, writeOk);
      tenants := tenants - {apiKey};
      ok := RemoveFromRegistry(apiKey, writeOk);
      OneTenantForgotten(apiKey);
      SameDir(fs.dirs, PathOf(cfg, apiKey));
      assert Value() == Deprovisioned(cfg, old(Value()), apiKey, Cleared, writeOk);
    }

    method RemoveFromRegistry(apiKey: ApiKey, writeOk: bool) returns (ok: bool)
      modifies fs`registry
      ensures ok == writeOk
      ensures fs.registry == if ok then Removed(old(fs.registry), apiKey) else old(fs.registry)
    {
      if !writeOk {
        return false;
      }
      var content := RemovalText(fs.registry, apiKey);
      fs.registry := Some(content);
      return true;
    }

    /** A key was dropped. */
    twostate lemma OneTenantForgotten(k: ApiKey)
      requires old(Valid()) && tenants == old(tenants) - {k}
      requires forall j :: j in tenants ==> unchanged(tenants[j]) && unchanged(tenants[j].bucket)
      ensures Value() == System(fs.Value(), old(Value()).tenants - {k})
      ensures Consistent(cfg, Value()) ==> Valid()
    {
      hide Consistent;
    }

    /** Rebuilds the tenants from the registry and the directories. */
    method LoadAll(rootsOk: bool, readOk: bool, openFails: set<ApiKey>, clocks: ApiKey -> Clock) returns (ok: bool)
      requires Valid()
      modifies this`tenants
      ensures Valid() && ok == (rootsOk && readOk)
      ensures Value() ==
        if ok then WithLoaded(cfg, old(Value()), Keys(fs.registry), clocks, openFails) else old(Value())
    {
      hide Consistent, Value, Valid, Keys, WithLoaded;
      if !rootsOk || !readOk {
        return false;
      }
      ghost var start := Value();
      ValueOfKeys();
      var keys := ReadRegistry(fs.registry);
      LoadedNone(cfg, start, keys, clocks, openFails);
      for i := 0 to |keys|
        invariant Valid()
        invariant Value() == WithLoaded(cfg, start, keys[..i], clocks, openFails)
        invariant forall k :: k in tenants ==> allocated(tenants[k])
      {
        LoadedOneMore(cfg, start, keys, i, clocks, openFails);
        LoadOne(keys[i], keys[i] in openFails, clocks(keys[i]));
      }
      assert keys[..|keys|] == keys;
      return true;
    }

    /** One turn of LoadAll's loop. */
    method LoadOne(apiKey: ApiKey, openFails: bool, clock: Clock)
      requires Valid() && apiKey in Keys(fs.registry)
      modifies this`tenants
      ensures Valid()
      ensures var s := old(Value());
        Value() == if PathOf(cfg, apiKey) in fs.dirs && openFails then s
                   else s.(tenants := s.tenants[apiKey := LoadedTenant(cfg, fs.Value(), apiKey, clock)])
    {
      hide Consistent, Value, Valid, Keys;
      ValueOfKeys();
      ValidGives(apiKey);
      LoadedOneConsistent(cfg, Value(), apiKey, clock);
      var dataDirPath := PathOf(cfg, apiKey);
      var db := new Database(apiKey, dataDirPath, cfg.limits, cfg.rateLimit, clock.now, clock.unix);
      if dataDirPath in fs.dirs {
        var ok := db.InitializeEngine(!openFails);
        if !ok {
          return;
        }
        var marker := fs.dirs[dataDirPath].marker;
        if marker.Some? {
          db.TouchActivity(marker.value);
        }
      }
      tenants := tenants[apiKey := db];
      OneTenantAdded(apiKey);
      AddedStaysValid(apiKey);
    }

    method Flush(apiKey: ApiKey, writeOk: bool)
      requires Valid() && apiKey in tenants
      modifies fs`dirs
      ensures Valid() && Value() == Flushed(cfg, old(Value()), apiKey, writeOk)
    {
      hide Consistent, Value, Valid;
      ValueOfKeys();
      ValidGives(apiKey);
      FlushedConsistent(cfg, Value(), apiKey, writeOk);
      SameDir(fs.dirs, tenants[apiKey].dataDirPath);
      var persisted := tenants[apiKey].PersistActivity(fs, writeOk);
      OneTenantChanged(apiKey);
      assert Value() == Flushed(cfg, old(Value()), apiKey, writeOk);
      OneTenantKept(apiKey);
    }

    /** One turn of the reaper's loop: read the clock, flush it to the marker, deprovision if it is too old. */
    method ReapTenant(apiKey: ApiKey, now: int, maxIdle: int, faults: ReapFaults,
                      ghost todo: set<ApiKey>, ghost objects: set<object>)
      returns (reaped: bool)
      requires Valid() && apiKey in tenants && tenants[apiKey].state == Active && Holding(todo, objects)
      modifies this`tenants, fs, Own(apiKey)
      ensures Valid()
      ensures Value() == ReapedOne(cfg, old(Value()), apiKey, now, maxIdle, faults)
      ensures reaped == (Idle(old(tenants[apiKey].lastActive), now, maxIdle)
                         && apiKey !in faults.remove && apiKey !in faults.rewrite)
      ensures Holding(todo - {apiKey}, objects)
    {
      hide Consistent, Value, Valid, Idle;
      ValueOfKeys();
      ValidGives(apiKey);
      var db := tenants[apiKey];
      var last := db.lastActive;
      Flush(apiKey, apiKey !in faults.persist);
      reaped := false;
      if Idle(last, now, maxIdle) {
        var r := Deprovision(apiKey, RemovalOf(faults, apiKey), apiKey !in faults.rewrite);
        reaped := r.Ok?;
      }
      forall k | k in todo - {apiKey}
        ensures k in tenants && tenants[k] in objects && tenants[k].bucket in objects
      {
        assert k in old(tenants) && old(Apart(tenants[k], tenants[apiKey]));
      }
    }

    /** Looks at every tenant that is active when the tick begins. */
    method ReapInactive(now: int, maxIdle: int, faults: ReapFaults) returns (reaped: set<ApiKey>)
      requires Valid()
      modifies this`tenants, fs, OwnedObjects()
      ensures Valid()
      ensures Reaped(cfg, old(Value()), Value(), now, maxIdle, faults)
      ensures reaped == Victims(old(Value()), now, maxIdle) - faults.remove.Keys - faults.rewrite
    {
      hide Consistent, Value, Valid, ReapedSoFar, ReapedOne, Idle, Victims, Reapable, Own, OwnedObjects, Holding;
      ValueOfKeys();
      ghost var start, objects := Value(), OwnedObjects();
      var todo := set k | k in tenants && tenants[k].state == Active;
      ghost var all := todo;
      NothingReapedYet(cfg, start, now, maxIdle, faults);
      ReapableAre(start, all, now, maxIdle);
      reaped := {};
      OwnedIsHeld(todo);
      assert all - todo == {};
      while todo != {}
        invariant Valid() && todo <= all
        invariant ReapedSoFar(cfg, start, Value(), all - todo, now, maxIdle, faults)
        invariant forall k :: k in reaped <==> k in all - todo && k in Victims(start, now, maxIdle)
                                               && k !in faults.remove && k !in faults.rewrite
        invariant Holding(todo, objects)
        decreases todo
      {
        var key :| key in todo;
        ValueOfKeys();
        ValidGives(key);
        ReapedOneMore(cfg, start, Value(), all - todo, key, now, maxIdle, faults);
        OwnIsHeld(key, todo, objects);
        var gone := ReapTenant(key, now, maxIdle, faults, todo, objects);
        if gone {
          reaped := reaped + {key};
        }
        OneLess(all, todo, key);
        todo := todo - {key};
      }
      assert all - {} == all;
    }

    /** These tenants are present, with objects among the given ones. */
    ghost predicate Holding(keys: set<ApiKey>, objects: set<object>)
      reads this, tenants.Values
    {
      forall k :: k in keys ==> k in tenants && tenants[k] in objects && tenants[k].bucket in objects
    }

    lemma OwnedIsHeld(keys: set<ApiKey>)
      requires keys <= tenants.Keys
      ensures Holding(keys, OwnedObjects())
    {
    }

    lemma OwnIsHeld(k: ApiKey, keys: set<ApiKey>, objects: set<object>)
      requires k in keys && Holding(keys, objects)
      ensures k in tenants && Own(k) <= objects
    {
    }

    ghost function OwnedObjects(): set<object>
      reads this, tenants.Values
    {
      tenants.Values + set db | db in tenants.Values :: db.bucket
    }
  }

  lemma OneLess<T>(all: set<T>, todo: set<T>, x: T)
    requires x in todo && todo <= all
    ensures all - (todo - {x}) == all - todo + {x}
  {
  }
}
