# fredb server: a verified model

The server half of `fredb` keeps one key/value database per tenant. A tenant is provisioned by adding a line to a
registry file and stays *pending*, without directory or engine, until its first write. It can be rate limited,
deprovisioned, reaped when idle, and rebuilt from disk when the server starts.

The project has three layers, and beside the theorems that relate them, laws that say what the basic functions compute in
terms of stored bytes, numbers and events alone: what a write stores and a read returns, when each error is given, what
is charged, when a tenant is removed, which limit a tenant is under, where a percentile lies, how bytes are laid out.

- **Objects** (`RateLimiter`, `Databases`, `Managers`, `Registry`, `RangeCodec`, `Status`, `Sampler`): the classes and
  loops of the source, with their fields and their in-place updates. Each method is proved equal to a function on values
  (`Request`, `Provisioned`, `Decode`, ...).
- **Values** (`Tenants`, `Systems`, `Operations`): what one request does to one tenant and its directory, what one
  operation, with whatever fails in it, does to the whole server and in which disk steps. Isolation, consistency,
  invisibility of laziness (`Lazy`), the spending bound (`Spending`), reaping, restarts (`Restarts`), the safety of tenants
  in use (`Usage`), the settings of tenants (`Settings`) and crash recovery (`CrashRecovery`) are proved here, for all
  runs: `Operations` has the runs of a server, with failures, crashes and restarts, `Runs` those of one tenant.
- **Steps** (`Threads`, `Locks`): any number of concurrent requests, one step for each section under a lock and each
  engine call, on a new database or on one that a restart found. Linearizability, the lifetime of engines (`Lifetime`),
  the storage overshoot (`StorageBound`), the overdraft of a bucket (`Overdraft`) and freedom from deadlock are proved
  over every interleaving. `Solo` proves that the step model, run without interleaving, is the value model, so the layers
  describe one program.

What the outside world contributes is a parameter: time (a real number of seconds for buckets, Unix seconds for the
activity clock, nanoseconds for the reaper), the drawn random bytes, whether each file-system or engine call works, what
a failing removal leaves, the size the engine reports, and how the engine lists a range (`Scan`, any function of contents
and bounds that lists nothing when the engine is empty).

Four properties that one might expect do not hold of the code without a condition. The model gives an input and the
exact condition for each:

- a restart between two ticks of the reaper can be noticed (`Restarts.FailedOpenIsNoticed`, `Restarts.RestartInvariance`);
- a tenant used a moment ago can be reaped after a restart (`Usage.FirstWriteIsForgotten`, `Usage.UsedTenantsAreSafe`);
- laziness can be noticed when an engine call fails (`Lazy.FailingEngineIsNoticed`, `Lazy.LazinessIsInvisible`);
- the range decoder rejects some encodings of 2^32 bytes or more (`RangeCodec.LongEncodingRejected`,
  `RangeCodec.DecodeOfEncoding`).

## Model

| member | source | states |
|---|---|---|
| RateLimiter.TokenBucket.constructor | server/rate-limiter.go:36-43 | a new bucket is full |
| RateLimiter.TokenBucket.Refill | server/rate-limiter.go:45-50 | whole new state after a refill at a given time |
| RateLimiter.TokenBucket.Consume | server/rate-limiter.go:52-62 | admits exactly when the refilled level covers the cost; whole new state, also after a refusal |
| RateLimiter.TokenBucket.Charge | server/rate-limiter.go:64-70 | always takes the cost, into debt if need be |
| RateLimiter.BucketIsWindowLimiter | server/rate-limiter.go:36-70 | for every run on a new bucket, with any parameters, costs and times, the outcomes are those of a limiter that remembers every call and checks every window |
| RateLimiter.WindowsOpenedByCallsDecide | server/rate-limiter.go:36-70 | with refill not negative and times in order, the windows opened by the calls themselves suffice |
| RateLimiter.OutcomesAreWindowOutcomes | server/rate-limiter.go:45-70 | the constant-size state refines the full history from any bucket that tracks its tightest window |
| RateLimiter.RefillTwice | server/rate-limiter.go:45-50 | refilling in two goes equals refilling once if and only if the refill in between was not capped away or the rate does not drain |
| RateLimiter.SameOutcomes | server/rate-limiter.go:45-70 | buckets equal when refilled now answer every later run alike |
| RateLimiter.RefusalIsInvisible | server/rate-limiter.go:52-62 | a refused request, anywhere in a run, changes no later outcome and no later level |
| RateLimiter.RefusalsCanBeErased | server/rate-limiter.go:52-70 | dropping all refused calls of a run leaves a run without refusals that ends at the same level |
| RateLimiter.RecoveryTimeIsExact | server/rate-limiter.go:45-62 | a refused cost within capacity is admitted exactly from (cost - level) / refill later on |
| RateLimiter.OversizeIsAlwaysRefused | server/rate-limiter.go:45-62 | no run makes room for a cost above the capacity |
| RangeCodec.DecodeRangeBuf | server/engine_cgo.go:103-137 | the loop ends with an answer on every input, no slice leaves the buffer, and the answer is that of the recursive decoder |
| RangeCodec.Uint32IsRemainder | server/engine_cgo.go:117-128 | the length conversion is reduction modulo 2^32 |
| RangeCodec.Le32Value | server/engine_cgo.go:139-141 | the number read is the one composed with shifts |
| RangeCodec.Le32OfBytes32 | server/engine_cgo.go:139-141 | reading four bytes inverts writing a number below 2^32 |
| RangeCodec.DecodeOfEncoding | server/engine_cgo.go:103-137 | an encoding of any length, with anything after it, decodes to its list if and only if every truncated length check passes, and is rejected otherwise |
| RangeCodec.RoundTrip | server/engine_cgo.go:103-137 | below 2^32 bytes decoding inverts encoding and ignores what follows |
| RangeCodec.LongEncodingRejected | server/engine_cgo.go:117-119 | a list whose encoding of 2^32 + 8 bytes is rejected: the length bound cannot be dropped |
| RangeCodec.DecodeReencodes | server/engine_cgo.go:103-137 | whatever decodes, at any length, begins with exactly the encoding of its answer |
| RangeCodec.RejectsExactlyIncomplete | server/engine_cgo.go:104-130 | below 2^32 bytes an input is rejected if and only if no complete encoding begins it |
| RangeCodec.StrictPrefixRejected | server/engine_cgo.go:104-130 | every strict prefix of an encoding is rejected |
| RangeCodec.CountLayout | server/engine_cgo.go:103-110 | an input begins with a four-byte count, least significant byte first; it is too short exactly if it does not; the answer has that many pairs |
| RangeCodec.PairLayout | server/engine_cgo.go:111-135 | byte by byte: key length, key, value length, value; which error each missing part gives, with lengths compared modulo 2^32; and how the input goes on behind a pair |
| Registry.HexInjective | server/database-manager.go:174 | different random bytes give different keys |
| Registry.HexValue | server/database-manager.go:174 | each byte is two digits, 0 to 9 and a to f, the higher first |
| Registry.ApiKeysAreLines | server/database-manager.go:168-185 | generated keys are nonempty and hold no newline |
| Registry.GenerateApiKey | server/database-manager.go:168-185 | the first of five draws that no tenant has; fails with the random source, or when every draw is taken, and only then |
| Registry.ReadRegistry | server/database-manager.go:82-97 | the loop collects the nonempty lines |
| Registry.CompactInPlace | server/database-manager.go:115-120 | compacting the slice over its own memory leaves the order-preserving filter of the original |
| Registry.RemovalText | server/database-manager.go:110-129 | the text written for a removal is the print of that filter |
| Registry.PrintIsJoin | server/database-manager.go:121-124 | joining with newlines and closing with one prints one line per key |
| Registry.SplitAppend | server/database-manager.go:91 | splitting two texts put together merges only the pieces at the seam |
| Registry.ReadAfterAppend | server/database-manager.go:99-107 | reading after an append gives the old keys and the new one if and only if the file was empty or newline-terminated, and the file is terminated afterwards |
| Registry.ReadAfterRemove | server/database-manager.go:110-130 | reading after a removal gives the other keys in order, whatever the file looked like |
| Registry.ReadPrinted | server/database-manager.go:82-130 | reading inverts printing |
| Registry.KeysAreLines | server/database-manager.go:82-97 | nothing read from any file is empty or holds a newline |
| Registry.RegistryFollowsIntent | server/database-manager.go:82-130 | over every run of appends and removals the file stays terminated and reads back as the intended list |
| Registry.NoDuplicates | server/database-manager.go:82-130 | no duplicates arise when each appended key was absent |
| Tenants.RequestIsMapStep | server/database.go:135-262 | a request that is answered is answered as by a map and changes the contents as it changes a map, pending or not; one that fails changes nothing stored |
| Tenants.RequestChangesStore | server/database.go:164-225 | after an answered write the contents are those before with the value under its key, after an answered delete without the key, after anything else the same |
| Tenants.RequestAnswersFromStore | server/database.go:135-262 | an answered read is the stored value, or a miss exactly if there is none; an answered range is what the engine lists for its bounds |
| Tenants.PutResponses | server/database.go:164-201 | for each error of a write, and for success, exactly when it is given: empty key, value too large, directory or engine not opened, price above the level, engine gone, storage full, engine failing |
| Tenants.OtherResponses | server/database.go:135-262 | the same for reads, deletes and ranges, pending tenants included |
| Tenants.RequestMarks | server/database.go:105-116 | only a first write that opens the engine writes the marker, with the clock as it was |
| Tenants.RequestKeepsWellFormed | server/database.go:135-262 | pending means no engine and no data, the bucket fits the configuration: kept by every request, also failing ones |
| Tenants.RequestInStep | server/database.go:86-116 | active tenants have a directory and pending ones none: a request keeps that up if and only if it is not a first write whose engine cannot be opened in the directory just made |
| Tenants.OnlyAdmittedRequestsTouch | server/database.go:143-186 | the activity clock moves exactly if the request got past the bucket of an active tenant: refused, rate-limited and pending requests keep nobody from being reaped |
| Lazy.LazinessIsInvisible | server/database.go:143-149 | over any run of requests and rate-limit changes the responses are those of an engine opened at provision if and only if no request of a pending tenant, past its checks and its bucket, meets a failing engine call or open; the token level is then the same at every later time |
| Lazy.StepStaysAlike | server/database.go:135-262 | one step is answered alike if and only if the engine serves, and then keeps the lazy and the eager database alike |
| Lazy.FailingEngineIsNoticed | server/database.go:146-157 | a run where they differ: a read whose engine call fails, answered with nothing by the one and with an error by the other |
| Lazy.ChargeOfNothing | server/database.go:254-260 | charging for an empty range is not noticed at any later time |
| Spending.SpendingBound | server/database.go:135-262 | from any tenant whose bucket was just installed (by a provision, a restart or a rate-limit change), over any run of requests and rate-limit changes: flat costs, written bytes and read bytes (of the value, or of all keys and values of a range) by their weights, since the latest installation, stay within capacity, refill since then, and the weighted bytes of the last admitted answer |
| Spending.BucketAfterRequest | server/database.go:143-260 | what a request took can be told from its response: the flat cost and the weighted bytes of the value at once, the weighted bytes of the answer afterwards |
| Spending.BookedStaysBalanced | server/rate-limiter.go:24-70 | spent plus remaining never exceeds what was granted, and the only debt is the last answer: kept by every request and rate-limit change |
| Spending.ReadsAreWeighed | server/rate-limiter.go:32-34 | what is charged for an answer is the weight of its bytes: of the value, or of all keys and values of a range |
| Spending.UpFrontIs | server/rate-limiter.go:24-30 | the price of a request is the flat cost, and for a write the weighted bytes of its value on top |
| Overdraft.OverdraftBound | server/rate-limiter.go:52-70 | over every interleaving of requests, rate-limit changes and a Destroy, with at most K reads at a time: what is taken from any bucket stays within its capacity, its refill since its installation, and the weighted bytes of the at most K answers charged since it last admitted a request |
| Overdraft.StepStaysEven | server/database.go:143-260 | every step of every thread keeps the books of every bucket even |
| Overdraft.StepKeepsReaders | server/database.go:143-160 | the charges since the last admission and the reads still to be charged are together at most K |
| Databases.Database.constructor | server/database.go:57-69 | a new database is pending, without engine, with a full bucket of its own |
| Databases.Database.TouchActivity | server/database.go:71-73 | only the activity clock changes |
| Databases.Database.InitializeEngine | server/database.go:86-94 | active with an engine on its own directory, or unchanged if the open fails |
| Databases.Database.PersistActivity | server/database.go:96-103 | the marker shows the clock; nothing else on disk changes |
| Databases.Database.Materialize | server/database.go:105-116 | each failure leaves exactly what had been done by then; a marker that cannot be written is not a failure |
| Databases.Database.Destroy | server/database.go:118-126 | the engine is closed even if the directory cannot be removed; whatever part of the directory that leaves |
| Databases.Database.SetRateLimitConfig | server/database.go:128-133 | configuration and a new full bucket are installed together |
| Databases.Database.Get | server/database.go:135-162 | the object, its directory and the response are those of `Request`; no directory changes |
| Databases.Database.Put | server/database.go:164-201 | the same for a write, including the lazy open and every refusal in its order; other directories stay |
| Databases.Database.Delete | server/database.go:203-225 | the same for a delete |
| Databases.Database.Range | server/database.go:232-262 | the same for a range, with the total summed by the loop |
| Databases.Database.Serve | server/public.go:37-113 | the four verbs reach the four methods |
| Managers.DatabaseManager.constructor | server/database-manager.go:40-48 | a manager without tenants over a disk |
| Managers.DatabaseManager.Handle | server/database-manager.go:58-66 | a request touches only the objects and the directory of the key it was looked up by; an unknown key touches nothing |
| Managers.DatabaseManager.SetRateLimit | server/admin.go:59-73 | only that tenant's configuration and bucket change |
| Managers.DatabaseManager.RequestProvision | server/database-manager.go:187-208 | on success a fresh pending tenant with fresh objects, registered, and everything in order exactly if the drawn key was new to the registry and had no data; on every error nothing changed |
| Managers.DatabaseManager.Register | server/database-manager.go:202-206 | the last three steps of a provision |
| Managers.DatabaseManager.Deprovision | server/database-manager.go:210-226 | the whole new state for each way it can stop: unknown key, directory not or only partly removed, registry not rewritten, done |
| Managers.DatabaseManager.DestroyTenant | server/database-manager.go:218-220 | its first stage, whatever the removal leaves |
| Managers.DatabaseManager.Forget | server/database-manager.go:221-225 | its second stage |
| Managers.DatabaseManager.RemoveFromRegistry | server/database-manager.go:110-130 | the registry is rewritten without the key or stays as it was |
| Managers.DatabaseManager.LoadAll | server/database-manager.go:136-166 | tenants become what registry, directories and markers say, each by its own reading of the clock; keys whose engine does not open are skipped |
| Managers.DatabaseManager.LoadOne | server/database-manager.go:147-164 | one key of that loop |
| Managers.DatabaseManager.Flush | server/database-manager.go:242-244 | one tenant's marker shows its clock, or nothing changed |
| Managers.DatabaseManager.ReapTenant | server/database-manager.go:240-252 | one turn of the reaper with its failures |
| Managers.DatabaseManager.ReapInactive | server/database-manager.go:228-254 | a tick, with any failures, treats each active tenant by its own clock alone; reports exactly the idle ones it could remove |
| Systems.PathsDiffer | server/database-manager.go:148 | different keys have different data directories |
| Systems.PathsLieBelowRoot | server/database-manager.go:148 | and lies below the data root under its key |
| Systems.HandledIsolates | server/database.go:135-262 | a request leaves registration, tenant and directory of every other key unchanged |
| Systems.ProvisionedIsolates | server/database-manager.go:187-208 | so does provisioning |
| Systems.DeprovisionedIsolates | server/database-manager.go:210-226 | so does deprovisioning, wherever it stops |
| Systems.ReapedOneIsolates | server/database-manager.go:240-252 | so does reaping |
| Systems.HandledConsistent | server/database.go:135-262 | registry terminated, free of duplicates and knowing every tenant, tenants fitting their directories: kept by requests |
| Systems.ProvisionedConsistent | server/database-manager.go:193-207 | provisioning adds the key at the end and keeps this if and only if the key was neither registered nor had data |
| Systems.DeprovisionedConsistent | server/database-manager.go:210-226 | kept by deprovisioning on every return |
| Systems.TreeThenKey | server/database-manager.go:218-225 | deprovisioning is its two stages one after the other |
| Systems.FlushedConsistent | server/database-manager.go:242-244 | kept by flushing the activity clock |
| Systems.LoadedOneConsistent | server/database-manager.go:147-164 | kept by loading a registered key |
| Systems.RelimitedConsistent | server/admin.go:59-73 | kept by a rate-limit change, which no other key notices |
| Systems.RestartedConsistent | server/database-manager.go:136-166 | established by a restart from any proper registry |
| Systems.LoadedOneMore | server/database-manager.go:147-164 | LoadAll's result grows key by key |
| Systems.ReapedOneMore | server/database-manager.go:240-252 | the order in which tenants are dealt with does not matter |
| Systems.ReapRemovesExactlyIdle | server/database-manager.go:228-254 | a tick without failures removes exactly the active tenants idle for more than maxIdle with all they had, and leaves the others with the marker equal to the clock |
| Systems.TickRemovesByTheClock | server/database-manager.go:238-252 | in seconds and nanoseconds: a tick without failures removes an active tenant exactly if more than maxIdle has passed since the second its clock shows, with all it had; otherwise it keeps it and the marker shows the clock; pending tenants it leaves alone |
| Operations.StepsComplete | server/database-manager.go:187-254 | the disk steps of an operation, with whatever fails in it, together are the operation |
| Operations.RequestStepsAddUp | server/database.go:105-116 | a request's disk steps together do what the request does to its directory |
| Operations.StepIsolates | server/database-manager.go:99-130 | a single disk step touches no other key |
| Operations.CutIsolates | server/database-manager.go:187-226 | wherever an operation is cut, no other key has been touched |
| Operations.CutLeavesNoOrphan | server/database-manager.go:218-222 | no cut and no failure leaves a directory without a registered key, because the tree goes before the key |
| Operations.OperatedConsistent | server/database-manager.go:136-254 | consistency is kept by every operation with any failures, given new keys |
| Operations.RunIsSound | server/database-manager.go:136-254 | after every run of operations, failures, crashes and restarts the server is consistent, only issued keys are registered, and no directory is orphaned |
| Restarts.RestartInvariance | server/database-manager.go:147-164 | in every state, and whatever engines do not open: every later tick finds the same tenants idle with a restart as without if and only if for every key it is active exactly if it is registered with a directory that opens, and its clock is then the one that will be read back |
| Restarts.FailedOpenIsNoticed | server/database.go:105-111 | a run after which it does not, though every engine opens: a first write made the directory and could not open the engine; the tenant stays pending, is never reaped, and is active and reaped after a restart |
| Restarts.TickShowsClocks | server/database-manager.go:228-254 | a tick without failures leaves the markers showing the clocks, and leaves memory and disk in agreement if they were |
| Restarts.AlignedUnnoticed | server/database-manager.go:155-163 | where memory and disk agree on who is active and markers show clocks, a restart is noticed if and only if the engine of a registered directory does not open |
| Restarts.AlignedAfter | server/database-manager.go:136-254 | from agreement of memory and disk, any operation with any failures, also one cut by a crash and followed by a restart, leads to agreement if and only if it is smooth: a condition on the event and the state before it |
| Restarts.RestartAligned | server/database-manager.go:136-166 | a restart brings about agreement, whatever was before, if and only if every directory of a registered key opens |
| Restarts.SmoothRunIsAligned | server/database-manager.go:136-254 | after every run of smooth operations, crashes and restarts memory and disk agree |
| Restarts.RestartAfterTickUnnoticed | server/database-manager.go:228-254 | after every such run and a tick without failures, with no traffic since, a restart goes unnoticed by every later tick if and only if every directory of a registered key opens |
| Usage.UsedTenantsAreSafe | server/database-manager.go:160-163 | over every run, with any failures, crashes and restarts, no tenant used within maxIdle can ever be removed for idleness if and only if no restart opens an engine whose marker lies before the latest use |
| Usage.FirstWriteIsForgotten | server/database.go:112-186 | a run where one can: the first write writes the marker before it touches the clock, so after a restart the tenant counts as unused since its provision |
| Usage.FlushRemembers | server/database-manager.go:241-244 | a turn of the reaper that writes the marker makes the next restart remember the latest use |
| Usage.RestartCovered | server/database-manager.go:160-163 | one restart keeps the clock from lying before the latest use if and only if its marker does not |
| Usage.OtherwiseCovered | server/database.go:71-73 | every other operation, with any failure, keeps it |
| Settings.SettingsAreLatest | server/database-manager.go:136-208 | over every run, with any failures, crashes and restarts: a tenant is under the limit that the latest installation named (its own change, or the server's limit at its provision and at every start of the process), its bucket has that capacity and refill, and its clock shows its latest use, provision or start, read from the marker where there is one |
| Settings.InstalledFull | server/database.go:128-133 | right after a provision, a restart, a crash or a rate-limit change the bucket is full, of that limit, from that time on |
| CrashRecovery.CrashesLoseNothing | server/database-manager.go:136-254 | over every run of provisions, requests, deprovisions, rate-limit changes, reaping and restarts, with any failures and any number of crashes at any disk step, each key starts empty, changes only by what was acknowledged or by part of what was cut or of a removal that failed, every answer is true of what was held, and a key is served only if it holds something; over calm runs also whenever it does |
| CrashRecovery.AcknowledgedSurvives | server/database-manager.go:136-254 | after every such run what a key holds is the replay of what was acknowledged and, for each operation on it that was cut or left its caller unsure, of one choice: dropped, applied or, for a removal, reduced to nothing or to what the failing removal left |
| CrashRecovery.UncutIsExact | server/database-manager.go:136-254 | a key none of whose own operations was cut or left its caller unsure holds exactly what was acknowledged, whatever is chosen |
| CrashRecovery.ReadsSeeLatestWrite | server/database.go:135-225 | after every run, restarts included, an answered read returns the value of the latest acknowledged write of its key, or nothing if there was none or an acknowledged delete came after, if no operation on the tenant was cut or left its caller unsure |
| CrashRecovery.HoldsLatestWrite | server/database.go:164-225 | the tenant holds that value under that key |
| CrashRecovery.GoneStaysGone | server/database-manager.go:210-226 | a key that was issued and is gone never comes back, and leaves no directory |
| CrashRecovery.EventIsAllowed | server/database-manager.go:136-226 | the same for one command, whole or cut and followed by a restart |
| CrashRecovery.PresentAfter | server/database-manager.go:155-225 | while exactly the registered keys are in memory, an event keeps it so if and only if no rewrite of the registry fails after the tree is gone and no restart skips a registered directory |
| CrashRecovery.CalmRunIsPresent | server/database-manager.go:136-254 | after every run of such events exactly the registered keys are in memory |
| CrashRecovery.MannedAfter | server/database.go:118-126 | while every active tenant holds an engine, an event keeps it so if and only if it is not a removal that fails at an active tenant's tree |
| CrashRecovery.RunIsManned | server/database-manager.go:136-254 | after every run without such removals every active tenant holds an engine |
| CrashRecovery.CutLeavesPart | server/database.go:105-126 | wherever an operation is cut, its key holds what it held before or would hold after; a half-done removal leaves it whole, empty, or as the failing removal left it |
| Linearizability.LazyDatabaseIsLinearizable | server/database.go:135-262 | every interleaving of requests and rate-limit changes without a Destroy, on a new database or one restored with any contents, has a legal sequential history of a map with those contents: one point for each answered request, none for a failed one, each between call and return |
| Linearizability.RealTimeOrder | server/database.go:135-262 | that history respects real time |
| Linearizability.PointsWithinRequests | server/database.go:139-149 | the point is the engine call, or the look that found the tenant pending |
| Linearizability.RunStaysInLine | server/database.go:135-262 | at every moment the points so far are a legal history that leads from the first contents to the stored ones |
| Linearizability.LegalWithout | server/database.go:143-149 | points that changed nothing can be left out: a request that looked early and was then refused for its rate |
| Lifetime.EngineLifetime | server/database.go:86-133 | over every interleaving, Destroy included, of a provisioned or restored database: at most one engine opened, closed at most once, none while pending, and every request prices and spends with what was installed together |
| Lifetime.DestructionIsFinal | server/database.go:118-126 | active is for ever, and no request that looks after the destruction of an active database, provisioned or restored, gets an engine |
| Lifetime.LatestLimitHolds | server/database.go:128-141 | over every interleaving a request that looks gets the prices of the latest limit and a bucket of that capacity and refill |
| Lifetime.RelimitInstalls | server/database.go:128-133 | a change installs a full bucket of its limit and leaves the buckets that requests hold alone |
| Lifetime.DestroyLeaves | server/database.go:118-126 | a Destroy takes the engine away and leaves of the contents what the removal leaves of the directory |
| Lifetime.StepSound | server/database.go:86-133 | the invariant behind both, step by step |
| StorageBound.StorageOvershoot | server/database.go:190-199 | with at most K writers at a time and at most g bytes of growth a write, in any state of any run the size is at most maxStorageBytes - 1 + K g, or at most what a restored database began with |
| StorageBound.StepBounded | server/database.go:190-199 | the size plus what the writers in flight may still add stays within that bound |
| StorageBound.StepSettled | server/database.go:190-196 | a database restored above the limit lets no write through and does not grow while it is above |
| Solo.AloneIsRequest | server/database.go:135-262 | the steps of a request without interleaving have the outcome of the sequential request |
| Solo.AloneIsARun | server/database.go:135-262 | and they are one of the runs of the step model |
| Locks.ProgramsAreOrdered | server/database-manager.go:168-254 | every operation, on every path through it, takes locks in the order manager, database, bucket and gives back all of them |
| Locks.NoDeadlock | server/database-manager.go:176-236 | in every reachable state with an unfinished operation some operation can go on, although a waiting writer keeps new readers out |
| Locks.EveryoneCanFinish | server/database-manager.go:176-236 | from every reachable state all operations can be brought to their end |
| Status.LatRing.constructor | server/status.go:29 | an empty ring of the given size |
| Status.LatRing.Add | server/status.go:31-37 | the ring holds one more sample, in place |
| Status.LatRing.LiveIsWindow | server/status.go:39-48 | the live part is, as a multiset, the last min(k, N) samples |
| Status.LatRing.Percentile | server/status.go:39-52 | the order statistic at k of the window, where k is p (n - 1) / 100 rounded down; nothing exactly when no sample came; the ring is unchanged |
| Status.PercentilesAscend | server/status.go:39-52 | a higher percentile is no smaller |
| Status.ExtremePercentiles | server/status.go:39-52 | the 0th percentile is the smallest sample of the window, the 100th the largest |
| Status.OrderStatisticIsSortedPosition | server/status.go:47-51 | an order statistic is the element at its position of the samples in ascending order, and only that |
| Status.OrderStatisticsAscend | server/status.go:49-51 | order statistics are unique and ascend with the position |
| Status.SortedPositionIsOrderStatistic | server/status.go:47-51 | the sorted copy holds at each position the order statistic of the unsorted samples |
| Status.RingAdds | server/status.go:31-37 | overwriting the cursor's slot moves the window on by one |
| Sampler.StatusSampler.constructor | server/status.go:79-88 | a fresh sampler with two separate rings of 4096 |
| Sampler.StatusSampler.RecordOp | server/status.go:145-162 | whole new state after one operation |
| Sampler.StatusSampler.Push | server/status.go:156-161 | the in-place shift drops the oldest record and appends the new one |
| Sampler.StatusSampler.Sample | server/status.go:164-181 | whole new state after a health sample, also with no time elapsed or no footprint |
| Sampler.StatusSampler.RecentView | server/status.go:196-205 | the view lists the feed newest first |
| Sampler.SamplerConserves | server/status.go:145-181 | after any run the feed is the last twelve records, the rings together saw every operation once, writes and reads each their own, the reported rates times their spans add up to the operations counted, never more than there were, and outcome, footprint and time of report are the latest |
| Sampler.RecordAccounted | server/status.go:145-162 | the accounts stay right over a record |
| Sampler.SampleAccounted | server/status.go:164-181 | and over a health sample |

## Left out

- The engine behind cgo (`server/engine_cgo.go:23-101`): a durable map in its directory whose calls are atomic, whose size is any number and which may fail; a failed call stores nothing. `Scan` is any function with the empty-engine property.
- HTTP routing, JSON, CORS, logging, flags, admin authentication, the website and the text formatting of the status view; a pending range is compared with an empty one at the level of `Database`.
- `DiskFootprint` and `StorageStats`: system calls; a health sample gets the footprint, or its absence, as a parameter.
- Floating point: tokens, costs, rates and the percentile's position are reals, so rounding is not modelled.
- Integer widths other than the decoder's: `totalOps`, sizes and clocks do not wrap, durations do not saturate.
- `make([]KV, 0, count)` of the decoder: allocation by an untrusted count is not modelled.
- The second look at the tenants under the write lock (`server/database-manager.go:196-198`) can only find what another provision put there in between; `RequestProvision` runs alone, so it never does.
- Operations.Proper: runs assume that a newly drawn key has never been drawn before; `RequestProvision` itself has no such condition. A provision that fails changes nothing and is not among the operations.
- Managers.DatabaseManager.constructor: a registry file with repeated lines, with lines that are no generated keys, or without a final newline is excluded, though the source reads it; two lines could then name one directory (`filepath.Join` resolves dots and separators), or one engine would be opened twice.
- Managers.DatabaseManager.LoadAll: excludes the same registry files, which no run of the server writes.
- `bucket != nil`: every database has a bucket, so the nil tests are left out.
- Threads.Enabled: a call on an engine that was closed under the request has no step; the source gives no promise there.
- A `Put` that looked its database up before the tenant was deprovisioned while pending can make the directory again (`server/database.go:173-179`). `Threads` has that step; `Managers` and `Operations` run theirs one after the other.
- Managers.DatabaseManager.ReapInactive: time stands still and nobody else acts between reading a tenant's clock and deprovisioning it; the source does not look again either.
- Databases.Database.PersistActivity: creating the marker and setting its time are one step.
- Managers.DatabaseManager.Deprovision: a removal that fails may leave anything of an active tenant's directory, but makes no data appear in the directory of a pending one, which never had an engine.
- CrashRecovery.CrashesLoseNothing: under a crash, appending a line, renaming a file, removing a tree and each engine operation are atomic; a removal that fails without a crash may leave anything. The temporary file of a registry rewrite is never read.
- Usage.UsedTenantsAreSafe: a new process does not read a time before that of an earlier request.
- Lazy.LazinessIsInvisible: rates do not drain, and time does not go back.
- Spending.SpendingBound, Overdraft.OverdraftBound: prices, refill and capacity are not negative, here and in later rate limits; the source accepts any.
- StorageBound.StorageOvershoot: a directory just made starts below the limit, and only writes make the engine grow.
- Status sampler mutex and view snapshot: each sampler method is one step; `Measure`, `classifyRequest` and the publishing loop are plumbing.
- Locks: the status sampler's mutex is taken alone and is not part of the lock model.
