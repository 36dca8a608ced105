# c5t demo core, modelled in Dafny

A model of the runtime core of the `c5t_april2024_demo` C++ server, with
proofs about the model. The components are:

- **Lifetime manager** (`lib_c5t_lifetime_manager.{h,cc}`). It has a one-way termination flag. Callbacks subscribe to termination, and each runs at most once. A registry tracks the live instances, and a list holds the threads to join. `DoExit` decides between `exit` and `abort`. The header's helpers bracket work with `TrackingAdd`/`TrackingRemove`: tracked threads, tracked singleton instances and tracked child processes.
- **Actor-model event bus** (`lib_c5t_actor_model.{h,cc}`). It has topic keys, and a worker queue per subscriber. Publishing goes through links from topics to workers. Registration and cleanup work by id.
- **Storage field accessor** (`lib_c5t_storage.{h,cc}`). It covers declared fields, the one active storage instance and its persisted file system, and the `Has`/`Get`/`Set`/`Del` accessor with its lazily loaded cache.
- **Dynamic library manager** (`lib_c5t_dlib.{h,cc}`). Symbol lookup is memoised, including absent symbols. The call helpers are built on it. Libraries are loaded and reloaded by file identity, through uniquely named symlinks.
- **HTML form builder** (`lib_c5t_htmlform.{h,cc}`). It covers the builders and the page that `FormAsHTML` prints.
- **WebSocket bridge** (`wss.cc`). It covers `BasePathOf`, the handler for the lines the WebSocket helper prints, and the dispatcher that greets, relays and says `dying`.
- **`msgreplier` extension** (`dlib_ext_msgreplier.cc`). It greets once, answers `a+b`, and keeps `C`.

Each component is a Dafny module of immutable datatypes and pure functions.
Each thread's action is one atomic step. Waiting, clocks, the file system,
`dlopen`/`dlsym` and JSON are parameters (oracles).
Shared helpers:

- `Wrappers`: `Option` and `Result`.
- `Words`: wrap-around unsigned integers.
- `CText`: C strings cut at NUL.
- `Texts`: scanning up to a delimiter.
- `Decimal`: `ToString` and `sscanf("%d")`.
- `Ordered`: `std::map`/`std::set` as strictly ascending lists.

## Model

| member | source | states |
|---|---|---|
| LifetimeTracking.BaseNameStart | src/lib_c5t_lifetime_manager.cc:9-14 | the scan stops one past the last separator that has another character after it |
| LifetimeTracking.BaseName | src/lib_c5t_lifetime_manager.cc:8-16 | the base name is a suffix of the C string, preceded by a separator unless it is all of it, with no separator before its last character |
| LifetimeTracking.BaseNameKeepsTrailingSeparator | src/lib_c5t_lifetime_manager.cc:8-16 | a trailing separator never counts: `a/b/` gives `b/` and `/` gives `/` |
| LifetimeTracking.BaseNameDropsDirectory | src/lib_c5t_lifetime_manager.cc:8-16 | `a/b` gives `b`; the empty name gives the empty name |
| LifetimeTracking.MakeInstance | src/lib_c5t_lifetime_manager.cc:18-27 | the entry keeps the description, the full name as a C string, its base name and the line (exact below 2^32) |
| LifetimeTracking.ToShortString | src/lib_c5t_lifetime_manager.cc:29-31 | the text is the description, ` @ `, the base name, `:` and the line, each at its place, and the line reads back with `%d` from the end |
| LifetimeTracking.TrackingAdd | src/lib_c5t_lifetime_manager.cc:85-93 | as written: returns `next_id_desc` before the wrapping post-decrement and stores the entry under it, leaving every other id unchanged |
| LifetimeTracking.TrackingAddNewestFirst | src/lib_c5t_lifetime_manager.cc:38-41 | corrected: decrements first and returns the new value, stores the entry under it, leaves every other id unchanged |
| LifetimeTracking.TrackingRemove | src/lib_c5t_lifetime_manager.cc:95-97 | the id is gone afterwards, every other id is unchanged, and an unknown id changes nothing |
| LifetimeTracking.TrackingAddFresh | src/lib_c5t_lifetime_manager.cc:85-93 | as written, until 2^64 ids have been issued, the new id is not live, the registry grows by one, and the id invariant is kept |
| LifetimeTracking.TrackingRemoveKeepsIdsBehind | src/lib_c5t_lifetime_manager.cc:95-97 | removal keeps the as-written id invariant |
| LifetimeTracking.IssuedIds | src/lib_c5t_lifetime_manager.cc:88-89 | n successive calls return n ids |
| LifetimeTracking.IssuedIdsFormula | src/lib_c5t_lifetime_manager.cc:88-89 | the j-th id is `next - j` modulo 2^64 |
| LifetimeTracking.IssuedIdsDistinct | src/lib_c5t_lifetime_manager.cc:88-89 | from a fresh registry the ids are 0, 2^64-1, 2^64-2, …, pairwise distinct for up to 2^64 calls |
| LifetimeTracking.AsWrittenOldestFirst | src/lib_c5t_lifetime_manager.cc:38-41 | as written, after two adds the iteration order is ids `[0, 2^64-1]`, so the oldest entry comes first, against the comment |
| LifetimeTracking.NewestFirst | src/lib_c5t_lifetime_manager.cc:38-41 | with decrement-first ids, the newest entry is first in iteration order and the registry grows by exactly that entry |
| LifetimeTracking.TrackingRemoveKeepsIdsAtOrAboveNext | src/lib_c5t_lifetime_manager.cc:95-97 | removal keeps the corrected id invariant |
| LifetimeManager.Fire | src/lib_c5t_lifetime_manager.cc:116-132 | the user callback runs exactly when termination has begun and it has not run before; a spurious wake-up does nothing |
| LifetimeManager.WaitUntilTimeToDieFor | src/lib_c5t_lifetime_manager.cc:160-164 | the answer is `false` exactly when the manager is shutting down |
| LifetimeManager.EmplaceThread | src/lib_c5t_lifetime_manager.cc:102-111 | corrected: before termination the thread is queued for joining; once terminating nothing changes; nothing else changes |
| LifetimeManager.EmplaceThreadAsWritten | src/lib_c5t_lifetime_manager.cc:102-111 | as written: succeeds and queues the thread exactly when not terminating, otherwise the process ends in `std::terminate` |
| LifetimeManager.EmplaceAfterExitCrashes | src/lib_c5t_lifetime_manager.cc:102-111 | after `Exit`, emplacing crashes as written, while the corrected version leaves the manager unchanged |
| LifetimeManager.SubscribeToTerminationEvent | src/lib_c5t_lifetime_manager.cc:113-140 | adds one live subscription under the next handle; its callback runs at once exactly when termination has already begun; nothing else changes |
| LifetimeManager.Unsubscribe | src/lib_c5t_lifetime_manager.cc:133-139 | only the given subscription becomes inactive, so its wrapper is never run again |
| LifetimeManager.Notify | src/lib_c5t_lifetime_manager.cc:116-132 | one wake-up of one subscription runs its callback exactly when it is live, termination has begun and it has not run; other subscriptions are untouched |
| LifetimeManager.NotifyAll | src/lib_c5t_lifetime_manager.cc:251-255 | on setting the flag, every live subscription is marked called; the callbacks run are exactly the live ones not yet called, each once |
| LifetimeManager.Terminate | src/lib_c5t_lifetime_manager.cc:250-263 | sets the flag, records the request and the log lines, and marks every live subscription called, keeping the registry and threads |
| LifetimeManager.Exit | src/lib_c5t_lifetime_manager.cc:250-263 | only the call that flips the flag runs `DoExit` with its code and delay and logs the initiating line; later calls only log the ignoring line |
| LifetimeManager.Destroy | src/lib_c5t_lifetime_manager.cc:265-277 | the destructor runs `DoExit` with the defaults exactly when nobody called `Exit`, after logging the organic-termination lines, and otherwise changes nothing |
| LifetimeManager.ApplyKeepsFlag | src/lib_c5t_lifetime_manager.cc:250-277 | once terminating, any step keeps the flag, the threads to join and the exit request |
| LifetimeManager.ApplySetsFlag | src/lib_c5t_lifetime_manager.cc:250-277 | from a running manager, a step sets the flag exactly when it is the `Exit` or destructor call that starts `DoExit` |
| LifetimeManager.FlagNeverReverts | src/lib_c5t_lifetime_manager.cc:250-277 | over any run after termination began, the flag stays set, the thread list and the exit request are frozen, and the wait says "die" |
| LifetimeManager.DoExitAtMostOnce | src/lib_c5t_lifetime_manager.cc:250-277 | any run starts `DoExit` at most once, and never after termination began |
| LifetimeManager.DoExitRanIffFlagSet | src/lib_c5t_lifetime_manager.cc:250-277 | a run from a running manager starts `DoExit` exactly when it ends terminating |
| LifetimeManager.InitialCallbacksOnce | src/lib_c5t_lifetime_manager.cc:66-69 | the fresh manager satisfies the once-only-callback invariant |
| LifetimeManager.SubscribeKeepsCallbacksOnce | src/lib_c5t_lifetime_manager.cc:113-140 | subscribing keeps the once-only-callback invariant |
| LifetimeManager.UnsubscribeKeepsCallbacksOnce | src/lib_c5t_lifetime_manager.cc:133-139 | ending a subscriber scope keeps the invariant |
| LifetimeManager.NotifyKeepsCallbacksOnce | src/lib_c5t_lifetime_manager.cc:116-132 | a wake-up, spurious or not, keeps the invariant |
| LifetimeManager.TerminateKeepsCallbacksOnce | src/lib_c5t_lifetime_manager.cc:250-263 | starting termination keeps the invariant |
| LifetimeManager.ApplyKeepsCallbacksOnce | src/lib_c5t_lifetime_manager.cc:85-277 | every step keeps the invariant |
| LifetimeManager.RunKeepsCallbacksOnce | src/lib_c5t_lifetime_manager.cc:85-277 | every run keeps the invariant |
| LifetimeManager.CalledOnceAndOnlyOnce | src/lib_c5t_lifetime_manager.h:42-43 | whatever the interleaving, every callback runs at most once, none before termination, and once terminating every still-subscribed callback has run |
| LifetimeManager.ApplyRunsOnlyLiveCallbacks | src/lib_c5t_lifetime_manager.cc:113-140 | no step runs the callback of a subscriber whose scope is gone, and only `Unsubscribe` ends a scope |
| LifetimeManager.ApplyKeepsAlive | src/lib_c5t_lifetime_manager.cc:85-97 | a step keeps a live registry entry alive unless it removes that id |
| LifetimeManager.OffenderLines | src/lib_c5t_lifetime_manager.cc:239-243 | one `Offender:` line per live entry, in iteration order, with its short string |
| LifetimeManager.DoExit | src/lib_c5t_lifetime_manager.cc:166-248 | `exit(code)` exactly when the registry drained and the threads joined within the grace periods, else `abort`; the log holds the fixed lines of the path taken and, when the registry did not drain, one `Offender:` line per entry still alive, in registry order; the `Gone after` lines are omitted |
| LifetimeManager.FlagFlipStep | src/lib_c5t_lifetime_manager.cc:250-277 | in a run that sets the flag, exactly one step starts `DoExit`, the first `Exit` or destructor call, and the run ends holding the request that step made |
| LifetimeManager.ExitCodeIsTheFirstRequests | src/lib_c5t_lifetime_manager.cc:250-277 | in any run from a running manager that terminates, `DoExit` ran once, started by the first `Exit` or destructor step and no other; the run keeps that step's request (its code and delay, or the defaults for the destructor), and `DoExit` exits with that code exactly when both grace periods were met |
| LifetimeScopes.RunKeepsAlive | src/lib_c5t_lifetime_manager.cc:95-97 | steps that never remove an id keep it alive at every point of the run |
| LifetimeScopes.TrackedThreadSteps | src/lib_c5t_lifetime_manager.h:131-144 | a tracked thread registers under the header's file and line, is emplaced, runs its body, then removes its id |
| LifetimeScopes.TrackedThreadBracket | src/lib_c5t_lifetime_manager.h:131-144 | the id is live from `TrackingAdd` through every step of the body and gone after; the thread is queued exactly when not terminating |
| LifetimeScopes.InstanceStep | src/lib_c5t_lifetime_manager.h:100-121 | the instance thread registers (releasing the creator), is destroyed only once terminating, and is unregistered only after destruction |
| LifetimeScopes.InstanceStepKeepsRegistered | src/lib_c5t_lifetime_manager.h:100-121 | the instance's own steps keep it registered from construction until after its destruction, which happens only after termination began |
| LifetimeScopes.OtherStepKeepsRegistered | src/lib_c5t_lifetime_manager.h:100-121 | other threads' steps keep that invariant |
| LifetimeScopes.KillsDuring | src/lib_c5t_lifetime_manager.h:177-182 | a step sends at most one `Kill()`, exactly when it runs the subscription's callback while `popen2_done` is unset |
| LifetimeScopes.Popen2Advance | src/lib_c5t_lifetime_manager.h:158-189 | the child registers, subscribes, runs the user code, drops the scope, sets `popen2_done` and unregisters, in that order |
| LifetimeScopes.Popen2Other | src/lib_c5t_lifetime_manager.h:174-182 | another thread's step does not move the child's phase or `popen2_done` |
| LifetimeScopes.Popen2StartOk | src/lib_c5t_lifetime_manager.h:158-189 | a child process not yet started satisfies the kill invariant |
| LifetimeScopes.Popen2AdvanceOk | src/lib_c5t_lifetime_manager.h:158-189 | the child's own steps keep the kill invariant; subscribing when already terminating kills at once; the last step unregisters |
| LifetimeScopes.Popen2OtherOk | src/lib_c5t_lifetime_manager.h:174-182 | other threads' steps keep the kill invariant |
| LifetimeScopes.Popen2KillsAtMostOnce | src/lib_c5t_lifetime_manager.h:146-154 | SIGTERM goes out at most once, only after termination began, and always by then while the user code runs |
| Topics.Uninitialized | src/lib_c5t_actor_model.h:47 | a key of the given type whose id is the all-ones 64-bit value |
| Topics.AssignOnce | src/lib_c5t_actor_model.h:49-56 | the assignment succeeds exactly when the key is unassigned and the right-hand side is not, and then takes its id; otherwise it aborts |
| Topics.AssignOnceAtMostOnce | src/lib_c5t_actor_model.h:49-56 | a key assigned once aborts on any second assignment |
| Topics.Single | src/lib_c5t_actor_model.h:61-65 | unary `+key` lists one type holding exactly the key's id |
| Topics.KeyPlusKey | src/lib_c5t_actor_model.h:67-81 | two keys of one type give one type with both ids; of two types, the two types in operand order, one id each |
| Topics.KeysPlusKey | src/lib_c5t_actor_model.h:306-320 | adding a key keeps the type list if its type is listed, else appends the type; only that type's id set grows, by the key's id |
| Topics.KeyPlusKeyIsSinglePlusKey | src/lib_c5t_actor_model.h:61-81 | `a + b` equals `(+a) + b` |
| Topics.SumTypes | src/lib_c5t_actor_model.h:306-320 | the type list of a left-to-right sum holds each key type once, ordered by first appearance |
| Topics.SumIds | src/lib_c5t_actor_model.h:300-320 | under each type, a sum holds exactly the ids of that type's keys |
| Topics.TypeOrderExamples | src/test_c5t_actor_model.cc:111-118 | `a1 + b1 + a2 + a3` lists `<A, B>` with all three `A` ids; `b1 + a1` lists `<B, A>`; `a1 + a2 + a3 + b1` lists `<A, B>` |
| ActorQueue.Enqueue | src/lib_c5t_actor_model.h:221-228 | one closure goes to the back of the queue and `num_queued` grows by one; nothing else changes |
| ActorQueue.Wake | src/lib_c5t_actor_model.h:170-201 | with `done` set the worker calls `OnShutdown` and leaves; otherwise it drains the whole queue, calls `OnEvent` per event in order, counts only non-throwing calls as processed, then calls `OnBatchDone` |
| ActorQueue.SetDone | src/lib_c5t_actor_model.h:166 | the destructor sets `done` and leaves the queue and the calls alone |
| ActorQueue.StepKeepsAccounting | src/lib_c5t_actor_model.h:140-228 | any producer, worker or destructor step keeps processed at most queued and the handled events a prefix of the enqueued ones; after `done` nothing more is handled |
| ActorQueue.QueueGuarantees | src/lib_c5t_actor_model.h:140-207 | from a fresh queue, under any interleaving, `num_processed` never exceeds `num_queued`, events are handled in enqueue order, and `OnShutdown` runs at most once |
| ActorQueue.DoneDiscardsPending | src/lib_c5t_actor_model.h:174-186 | once `done` is set, no pending event is ever handed to the worker |
| ActorQueue.ReleasedIsStable | src/lib_c5t_actor_model.h:205-207 | once `WaitUntilNumProcessedIsAtLeast(c)` may return, it may return forever after |
| ActorRegistry.AllocateNextID | src/lib_c5t_actor_model.cc:14 | the next id is the pre-incremented 64-bit counter, which is stored |
| ActorRegistry.AllocatedIdsFromZero | src/lib_c5t_actor_model.cc:12-14 | from a fresh counter, consecutive ids are 1, 2, 3, …: never 0 and strictly increasing |
| ActorRegistry.RegisterType | src/lib_c5t_actor_model.cc:16-25 | the first handler registered for a type is kept; the type joins the subscriber's type set; other subscribers are untouched |
| ActorRegistry.RegisterTypeIdempotent | src/lib_c5t_actor_model.cc:16-25 | registering the same type for the same subscriber again, with any handler, changes nothing |
| ActorRegistry.CleanupSubscriberByID | src/lib_c5t_actor_model.cc:27-32 | one call of each of the subscriber's types' handlers, with the subscriber's id; none for an unknown id; the registry keeps its sets |
| ActorRegistry.CleanupRepeats | src/lib_c5t_actor_model.cc:27-32 | cleaning the same subscriber up twice repeats exactly the same calls, since the type sets are not erased |
| ActorBus.NewScope | src/lib_c5t_actor_model.h:253-255 | a scope takes the next id, starts a fresh worker and is added as a tracker; the links stay |
| ActorBus.SubscribeAll | src/lib_c5t_actor_model.h:266-291 | linking a scope to its keys keeps the bus valid: every link belongs to a live worker whose registered types include the link's type |
| ActorBus.SubscribePair | src/lib_c5t_actor_model.h:322-327 | subscribing to `x + y` of one type adds exactly the two links of that scope |
| ActorBus.LinkAll | src/lib_c5t_actor_model.h:266-285 | linking a scope for a list of types keeps the bus valid and adds exactly the links from that scope to each listed type's topic ids; workers, trackers and used ids stay |
| ActorBus.Publish | src/lib_c5t_actor_model.h:270-281 | publishing never fails: exactly the workers linked to the topic for the event's own type get the event enqueued, and every other worker, the links, the trackers and the registry are unchanged |
| ActorBus.PublishAllReaches | src/lib_c5t_actor_model.h:410-418 | after a run of publications, a worker's queue and its record of enqueued events have grown by exactly the events it is linked for, topic and type both, in publication order; it has handled nothing and its running state is unchanged |
| ActorBus.PublishAllDelivers | src/lib_c5t_actor_model.h:410-418 | the same, for every worker at once |
| ActorBus.SharedTopicId | src/lib_c5t_actor_model.h:270-281 | two types may share a topic id: an event of one type reaches the scope linked for that type and not the one linked only for the other |
| ActorBus.WakeWorker | src/lib_c5t_actor_model.h:170-201 | one pass of a worker's loop changes that worker only and keeps the bus valid |
| ActorBus.DropLinks | src/lib_c5t_actor_model.cc:27-32 | a link survives exactly when no cleanup call names its type and subscriber |
| ActorBus.Teardown | src/lib_c5t_actor_model.h:163-168 | the destructor removes the tracker and every link of the scope, then the worker calls `OnShutdown` once and stops, having handled nothing more; other workers are unchanged |
| ActorBus.PublishMissesTornDownScope | src/lib_c5t_actor_model.h:163-168 | after teardown, no publication reaches that scope's worker |
| ActorBus.PublishThreeWakeOne | src/lib_c5t_actor_model.h:170-228 | a worker linked to the first two of three topics, once woken, has handled exactly those two events, in order, with an empty queue |
| ActorBus.PublishThreeMisses | src/lib_c5t_actor_model.h:266-281 | events on topics a worker is not linked to leave that worker unchanged |
| ActorBus.SmokeScenario | src/test_c5t_actor_model.cc:138-169 | scope on `a1 + a2` handles 101 and 102 but not 103; `b` events before any `b` subscriber reach nobody; a later scope on `b1 + b2` handles 301 and 302 but not 303; the shared stream reads `a101a102b301b302` |
| StorageBackend.DeclareField | src/lib_c5t_storage.h:65-73 | a name declared before aborts; otherwise the field is appended and its name recorded |
| StorageBackend.DeclareAll | src/lib_c5t_storage.h:209 | declaring fields one by one, when none repeats, keeps them in declaration order |
| StorageBackend.IndexFields | src/lib_c5t_storage.cc:30-31 | the constructor's name index is sorted and holds exactly the declared names |
| StorageBackend.IndexFieldsFinds | src/lib_c5t_storage.cc:30-31 | with distinct names, each declared field is found under its own name |
| StorageBackend.CreateInstance | src/lib_c5t_storage.cc:24-33 | creating an instance aborts exactly when one is active; otherwise the new instance on the path becomes active with no field started fresh |
| StorageBackend.DestroyInstance | src/lib_c5t_storage.cc:34-41 | destruction aborts unless this instance is the active one, and otherwise only clears the pointer |
| StorageBackend.SingleActiveInstance | src/lib_c5t_storage.cc:24-41 | a second instance aborts while the first lives and can be created once the first is destroyed |
| StorageBackend.Inject | src/lib_c5t_storage.h:272-277 | injection makes the given instance active, unconditionally, leaving the disk alone |
| StorageBackend.ActiveInstance | src/lib_c5t_storage.h:261-268 | the active instance, or `StorageNotInitializedException` exactly when there is none |
| StorageBackend.ListFieldsOfCreated | src/lib_c5t_storage.cc:43-49 | a new instance counts and lists each declared name exactly once, in strictly increasing order |
| StorageBackend.ListFieldsExample | src/test_c5t_storage.cc:56-60 | three fields declared as `kv2`, `kv3`, `kv1` are listed as `kv1`, `kv2`, `kv3` |
| StorageBackend.UseFieldTypeErased | src/lib_c5t_storage.cc:104-107 | null exactly when no field of that name is indexed; otherwise the indexed field |
| StorageBackend.NeedToStartFresh | src/lib_c5t_storage.cc:51-59 | true exactly on the first call for a field; the field is then marked |
| StorageBackend.StartFreshOnlyOnce | src/lib_c5t_storage.cc:51-59 | a second call for the same field answers false |
| StorageBackend.DoSave | src/lib_c5t_storage.cc:61-72 | a write puts the value into the key's file; a failed write is swallowed and leaves the disk as it was |
| StorageBackend.DoLoad | src/lib_c5t_storage.cc:74-89 | a load gives the file's text exactly when the file exists and is not the tombstone |
| StorageBackend.DoDelete | src/lib_c5t_storage.cc:91-102 | a delete writes the tombstone over the key's file, or nothing when the write fails |
| StorageBackend.SaveThenLoad | src/lib_c5t_storage.cc:61-89 | a saved value loads back, unless it is the tombstone text itself |
| StorageBackend.DeleteThenLoad | src/lib_c5t_storage.cc:74-102 | a deleted key loads as absent |
| StorageBackend.WritesAreKeyed | src/lib_c5t_storage.cc:61-102 | saves and deletes leave every other (directory, field, key) loading as before |
| StorageAccessor.InnerGet | src/lib_c5t_storage.h:101-127 | a key not yet loaded is loaded once and decoded, a failed parse or a missing file leaving it absent; a loaded key answers from the cache with no backend call |
| StorageAccessor.LoadsOnce | src/lib_c5t_storage.h:101-127 | a second access answers the same and calls the backend no more; the first makes at most one call |
| StorageAccessor.Has | src/lib_c5t_storage.h:157 | touches neither disk nor instance and makes at most one backend call, a load of the key; through a cache that agrees with the disk, true exactly when the key's file decodes to a value, the cache staying in agreement |
| StorageAccessor.Get | src/lib_c5t_storage.h:178-185 | the same frame; through a cache that agrees with the disk, exactly what the key's file decodes to, or null |
| StorageAccessor.GetOrDefault | src/lib_c5t_storage.h:159-166 | the same frame; through a cache that agrees with the disk, the decoded file's value when there is one, else the default |
| StorageAccessor.GetOrThrow | src/lib_c5t_storage.h:168-176 | the same frame; the only exception is `StorageKeyNotFoundException`, and through a cache that agrees with the disk it is thrown exactly when the key's file does not decode, the decoded value being returned otherwise |
| StorageAccessor.AbsentKey | src/lib_c5t_storage.h:157-185 | on an absent key `Has` is false, `Get` is null, `GetOrDefault` is the default and `GetOrThrow` throws |
| StorageAccessor.Set | src/lib_c5t_storage.h:129-138 | the serialised value is saved through the backend, then the slot is loaded with the new value |
| StorageAccessor.SetThenGet | src/lib_c5t_storage.h:129-190 | after `Set(k, v)`, `Has(k)` holds and `Get(k)` is `v` with no reload, whether or not the write reached the disk |
| StorageAccessor.Del | src/lib_c5t_storage.h:140-145 | the key is looked up first; only a present value is nulled in the cache and deleted in the backend |
| StorageAccessor.DelThenHas | src/lib_c5t_storage.h:140-192 | after `Del(k)` the key is absent, and a delete reached the backend exactly when the key was present |
| StorageAccessor.Open | src/lib_c5t_storage.h:148-155 | the field's cache is cleared exactly on the instance's first use of the field |
| StorageAccessor.Release | src/lib_c5t_storage.h:148-155 | the instance and the disk as the accessor left them become the storage's; declarations and the instance counter are untouched |
| StorageAccessor.ReleaseThenReuse | src/lib_c5t_storage.h:148-155 | the accessor works on the instance's own map: using the field again through the same instance does not start it fresh and sees the cache and disk the accessor left |
| StorageAccessor.UseField | src/lib_c5t_storage.h:280-292 | `StorageNotInitializedException` with no active instance, `StorageFieldDeclaredAndNotDefinedException` for an unknown name, `StorageInternalErrorException` for a type mismatch, else an accessor |
| StorageAccessor.CoherentReads | src/lib_c5t_storage.h:101-127 | an accessor whose cache agrees with the disk answers what reading the disk directly would, and stays in agreement |
| StorageAccessor.OpenCoherent | src/lib_c5t_storage.h:152-154 | a field's first use through an instance starts in agreement with the disk |
| StorageAccessor.SetKeepsCoherent | src/lib_c5t_storage.h:129-138 | with a codec that reads back what it writes, a successful `Set` keeps the cache in agreement with the disk |
| StorageAccessor.DelKeepsCoherent | src/lib_c5t_storage.h:140-145 | a successful `Del` keeps the cache in agreement with the disk |
| StorageAccessor.FirstUseReadsDisk | src/lib_c5t_storage.h:148-155 | the first use of a field through an instance reads the instance's directory, not a stale cache |
| StorageAccessor.PersistsAcrossInstances | src/test_c5t_storage.cc:126-152 | a value set through an instance on one directory reads back through a later instance on the same directory, and is absent through one on another directory |
| DLibSymbols.GetRawPF | src/lib_c5t_dlib.cc:32-54 | a found address is answered from the memo; a name once found absent, by null or by exception, is answered null without another lookup; otherwise `dlsym` is asked once and its answer memoised; no other name's slot changes |
| DLibSymbols.GetRawPFAnswersTable | src/lib_c5t_dlib.cc:32-54 | through a memo that agrees with the library, every lookup answers what `dlsym` would, and the memo keeps agreeing |
| DLibSymbols.GetRawPFKeepsMemoised | src/lib_c5t_dlib.cc:32-54 | a name is passed to `dlsym` only while it is unsettled, and is settled afterwards, so the record of lookups never repeats a name |
| DLibSymbols.LookUpAllAnswersTable | src/lib_c5t_dlib.cc:32-54 | through a memo that agrees with the library, a sequence of lookups answers, at each position, what `dlsym` would for that name, and the memo keeps agreeing |
| DLibSymbols.NoSymbolsFaithful | src/lib_c5t_dlib.cc:24-28 | a freshly opened library's empty memo agrees with any symbol table |
| DLibSymbols.LookedUpAtMostOnce | src/lib_c5t_dlib.cc:32-54 | asking for a name twice passes it to `dlsym` at most once and answers the same both times |
| DLibSymbols.Has | src/lib_c5t_dlib.h:40 | through a memo that agrees with the library, true exactly when the library exports the name, the memo still agreeing; at most that name is passed to `dlsym` |
| DLibSymbols.CallOrDefault | src/lib_c5t_dlib.h:42-53 | through a memo that agrees with the library, the exported function applied to the argument when the library exports the name, else the value-initialised default; at most that name is passed to `dlsym` |
| DLibSymbols.CallOrDefaultVoid | src/lib_c5t_dlib.h:55-64 | through a memo that agrees with the library, the exported function is the one called, exactly when the library exports the name |
| DLibSymbols.CallReturningOptional | src/lib_c5t_dlib.h:66-77 | through a memo that agrees with the library, null exactly when the library does not export the name, else the exported function's result |
| DLibSymbols.CallVoid | src/lib_c5t_dlib.h:79-91 | reports true exactly when a function was called, and through a memo that agrees with the library that happens exactly when the library exports the name |
| DLibSymbols.CallHelpersAgree | src/lib_c5t_dlib.h:40-91 | `Has`, `CallVoid` and `CallReturningOptional` see the same symbol, and `CallOrDefault` falls back exactly when they see none |
| DLibSymbols.MissingIntSymbolIsZero | src/test_c5t_actor_model.cc:171-176 | `CallOrDefault<int()>("NonExistent")` on a library without it is 0 |
| DLibSymbols.Use | src/lib_c5t_dlib.h:110-120 | `f`'s result exactly when the object implements the interface, else null |
| DLibSymbols.UseVoid | src/lib_c5t_dlib.h:100-108 | `f` is invoked exactly when the object implements the interface |
| DLibSymbols.UseOrDefault | src/lib_c5t_dlib.h:122-132 | `f` when the object implements the interface, else `g` |
| DLibSymbols.UseOrDefaultIsUse | src/lib_c5t_dlib.h:110-132 | `UseOrDefault` is `Use` with `g` as the fallback |
| DLibManager.NewManager | src/lib_c5t_dlib.cc:80-87 | a new manager has base directory `.`, no libraries, no symlinks |
| DLibManager.SetBaseDir | src/lib_c5t_dlib.cc:105 | only the base directory changes |
| DLibManager.Store | src/lib_c5t_dlib.cc:119-125 | writing a name's slot of the table keeps it sorted, finds the new entry under the name and leaves every other name's entry as it was |
| DLibManager.Detach | src/lib_c5t_dlib.cc:119-125 | the entry takes the new key with no library; the dropped library's destruction adds its `OnUnload` call, looked up in that library's own symbols; other entries stay |
| DLibManager.UnloadHooks | src/lib_c5t_dlib.cc:62-65 | destroying an open library calls `OnUnload` exactly when that library exports it; nothing for an empty slot |
| DLibManager.Attach | src/lib_c5t_dlib.cc:57-61 | the library opened through the symlink is stored as the next generation after its `OnLoad` ran, if present |
| DLibManager.Reload | src/lib_c5t_dlib.cc:122-141 | the entry ends with the new key; the result is `Fail` with no library, or the new generation, `Reloaded` exactly when a library was open before, else `Loaded` |
| DLibManager.Load | src/lib_c5t_dlib.cc:107-142 | a file that cannot be `stat`-ed fails without touching the table; `UpToDate` exactly when a library is open under an unchanged key, handing it back unchanged; never `InternalError`; a library exactly unless `Fail`; other names untouched |
| DLibManager.LoadAgainIsUpToDate | src/lib_c5t_dlib.cc:119-121 | a successful load repeated with the file unchanged is `UpToDate` with the same library and changes nothing |
| DLibManager.FailedOpenIsSticky | src/lib_c5t_dlib.cc:123-133 | a version whose symlink exists but which did not open keeps failing while the file is unchanged |
| DLibManager.LibkeyToStringInjective | src/lib_c5t_dlib.cc:99-103 | distinct stat keys print distinct key strings |
| DLibManager.LinkNamesDistinct | src/lib_c5t_dlib.cc:126-129 | each new stat key of a library gets a symlink name no other version of it used |
| DLibManager.UseDLib | src/lib_c5t_dlib.cc:144-157 | the success callback gets the library exactly when the load did not fail |
| DLibManager.DoLoadOrReload | src/lib_c5t_dlib.cc:159-162 | never `InternalError`, a library exactly unless `Fail`, and a library it hands out is the one a following `UseDLib` of the same name passes to its callback |
| DLibManager.ListDLibs | src/lib_c5t_dlib.cc:164-169 | every name in the table, once each, in increasing order |
| DLibManager.LoadListsName | src/lib_c5t_dlib.cc:111-119 | a load lists the name exactly when it was listed or its file could be `stat`-ed; other names stay as they were |
| DLibManager.DLibCall | src/lib_c5t_dlib.h:220-230 | `f` of the library when it is available, `g()` otherwise |
| DLibManager.ManagerInstance | src/lib_c5t_dlib.cc:176-183 | the installed manager, or an abort exactly when none was installed |
| DLibManager.InstallWithBaseDir | src/lib_c5t_dlib.cc:185-189 | the given manager is installed with the given base directory |
| DLibManager.InstalledDoesNotAbort | src/lib_c5t_dlib.cc:176-189 | once installed, the subsystem no longer aborts |
| DLibManager.UnloadAll | src/lib_c5t_dlib.cc:62-65 | destroying the table calls at most one `OnUnload` per entry, and nothing else |
| DLibManager.UnloadAllHooks | src/lib_c5t_dlib.cc:62-65 | destroying the table calls `OnUnload` of exactly the open libraries that export it, each under its own generation |
| DLibManager.Destroy | src/lib_c5t_dlib.cc:89-97 | destruction removes exactly the symlinks made, then unloads the open libraries: `OnUnload` runs for exactly those that export it, at most once per entry |
| HtmlForm.Msg | src/lib_c5t_htmlform.h:13-16 | sets the alert message and keeps the forward path |
| HtmlForm.Fwd | src/lib_c5t_htmlform.h:17-20 | sets the forward path and keeps the alert message |
| HtmlForm.MsgFwdCommute | src/lib_c5t_htmlform.h:13-20 | the two response setters commute and set both parts |
| HtmlForm.NewField | src/lib_c5t_htmlform.h:30 | a field with the given id and every optional part unset |
| HtmlForm.Text | src/lib_c5t_htmlform.h:32-35 | sets the label text; the other parts stay |
| HtmlForm.Placeholder | src/lib_c5t_htmlform.h:36-39 | sets the placeholder; the other parts stay |
| HtmlForm.Value | src/lib_c5t_htmlform.h:40-43 | sets the value; the other parts stay |
| HtmlForm.Readonly | src/lib_c5t_htmlform.h:44-47 | sets the type to `readonly`; the other parts stay |
| HtmlForm.PasswordProtected | src/lib_c5t_htmlform.h:48-51 | sets the type to `password`; the other parts stay |
| HtmlForm.LaterTypeWins | src/lib_c5t_htmlform.h:44-51 | of `Readonly` and `PasswordProtected`, the later call decides the type |
| HtmlForm.FieldSettersCommute | src/lib_c5t_htmlform.h:32-51 | setters of different parts commute |
| HtmlForm.Add | src/lib_c5t_htmlform.h:61-64 | appends the field after the earlier ones; nothing else changes |
| HtmlForm.Title | src/lib_c5t_htmlform.h:65-68 | sets the title; nothing else changes |
| HtmlForm.Caption | src/lib_c5t_htmlform.h:69-72 | sets the caption; nothing else changes |
| HtmlForm.ButtonText | src/lib_c5t_htmlform.h:73-76 | sets the button text; nothing else changes |
| HtmlForm.OnSubmit | src/lib_c5t_htmlform.h:77-80 | sets the submit transform; nothing else changes |
| HtmlForm.FormSettersCommute | src/lib_c5t_htmlform.h:61-80 | setters of different parts commute, a later title wins, and adding a field commutes with setting the title |
| HtmlForm.CaptionHTML | src/lib_c5t_htmlform.cc:13-17 | the caption block is empty exactly when there is no caption |
| HtmlForm.Label | src/lib_c5t_htmlform.cc:23 | a field's label is its text, or its id when it has none |
| HtmlForm.Attr | src/lib_c5t_htmlform.cc:29-38 | an optional attribute prints nothing exactly when it is unset |
| HtmlForm.FormAsHTML | src/lib_c5t_htmlform.cc:5-100 | the page starts with the head carrying the title and ends with the fixed closing script and tags |
| HtmlForm.EndsWithHtmlClose | src/lib_c5t_htmlform.cc:95-98 | every page ends with `</html>` and a newline |
| HtmlForm.TitleRoundTrip | src/lib_c5t_htmlform.cc:8-12 | a title without `<` reads back from the page's `<title>` element |
| HtmlForm.TitleIsNotEscaped | src/lib_c5t_htmlform.cc:11 | a title holding `<` is cut there when read back, since the title is not escaped |
| HtmlForm.CaptionShownIff | src/lib_c5t_htmlform.cc:13-19 | right after the head, an `<h2>` block appears exactly when there is a caption, and it holds the caption |
| HtmlForm.AddAppendsBlock | src/lib_c5t_htmlform.cc:20-58 | adding a field appends its block after the earlier fields' blocks, and its id line after theirs in `e_fields` |
| HtmlForm.LabelShown | src/lib_c5t_htmlform.cc:21-23 | a field's block opens with its text, or its id when it has none |
| HtmlForm.OptionalAttributesShownIff | src/lib_c5t_htmlform.cc:29-38 | a field's block changes with the placeholder exactly when it is set, and likewise for the value |
| HtmlForm.TypeNotPrinted | src/lib_c5t_htmlform.cc:20-58 | fields differing only in type print the same blocks and id lines |
| HtmlForm.InputTypeInvisible | src/lib_c5t_htmlform.cc:24-25 | making a field read-only or a password leaves the page unchanged: every input is printed as `type="text"` |
| HtmlForm.IdsOf | src/lib_c5t_htmlform.cc:54-58 | the field ids, one per field, in order |
| HtmlForm.IdsRoundTrip | src/lib_c5t_htmlform.cc:54-58 | with ids free of `:`, the `e_fields` lines read back as exactly the field ids, in order |
| MsgReplier.ScanSum | src/dlib_ext_msgreplier.cc:16 | a match of `%d+%d` starts with a number, which is the first value read |
| MsgReplier.ScanSet | src/dlib_ext_msgreplier.cc:22 | a match of `c=%d` starts with the characters `c=` |
| MsgReplier.SumIsNotSet | src/dlib_ext_msgreplier.cc:16-22 | a message read as a sum is never also read as `c=N` |
| MsgReplier.ScanSumOfPrinted | src/dlib_ext_msgreplier.cc:16 | `a+b` printed in decimal reads back as `a` and `b` |
| MsgReplier.ScanSetOfPrinted | src/dlib_ext_msgreplier.cc:22 | `c=N` printed in decimal reads back as `N` |
| MsgReplier.OnBroadcast | src/dlib_ext_msgreplier.cc:6-32 | nothing at all unless the host implements `IMsgReplier`; otherwise the welcome lines come first, and only while not yet sent; `C` changes only on a `c=N` message that is not a sum, and then to `N` |
| MsgReplier.NoSecondWelcome | src/dlib_ext_msgreplier.cc:8-13 | once the welcome was sent, no session sends it again, and each message gets at most one reply |
| MsgReplier.WelcomeOnce | src/dlib_ext_msgreplier.cc:8-13 | a session from the start sends the three welcome lines first, exactly once |
| MsgReplier.AnswersSum | src/dlib_ext_msgreplier.cc:16-21 | `a+b` is answered `a+b=s`, or `a+b+C=s` with the stored `C` added when it is non-zero; `C` is kept |
| MsgReplier.StoresC | src/dlib_ext_msgreplier.cc:22-29 | `c=N` stores `N` and answers the reset line when `N` is 0, else the set line |
| MsgReplier.SetThenSum | src/dlib_ext_msgreplier.cc:16-29 | after `c=N`, a sum is answered with `N` added, in the `+C=` form unless `N` is 0 |
| WssBridge.Split | src/wss.cc:22 | the parts are non-empty and free of `/`, and there are none for an empty path |
| WssBridge.SplitJoin | src/wss.cc:22-24 | splitting a join of parts gives the parts back |
| WssBridge.SplitTrailingSep | src/wss.cc:22 | a trailing `/` adds no part |
| WssBridge.BasePathOf | src/wss.cc:21-26 | undefined exactly when the path has no part to drop; the result is absolute exactly when the path is |
| WssBridge.BasePathOfPath | src/wss.cc:21-26 | the base path of `dirs/last`, absolute or not, is `dirs` with the same leading `/` |
| WssBridge.TrailingSepIgnored | src/wss.cc:21-26 | a trailing `/` does not change the base path |
| WssBridge.FromString | src/wss.cc:220 | the leading decimal number of the text, or 0 when there is none |
| WssBridge.SscanfCount | src/wss.cc:234 | `sscanf`'s count is 1 exactly when a number was converted |
| WssBridge.ParseAsWritten | src/wss.cc:218-246 | `+id` opens and `-id` closes; any other line is a message whose text starts at `sscanf`'s count plus one; every branch reads the line up to its first NUL; only a line whose C string is one digit reads past its end |
| WssBridge.Parse | src/wss.cc:218-246 | `+id` opens and `-id` closes; any other line is a message from the number it starts with, whose text starts after that number and one separator; a line with no number is dropped; the line is read up to its first NUL |
| WssBridge.NulEndsLine | src/wss.cc:219-233 | whatever follows a NUL in a line changes neither reading |
| WssBridge.ParseConnectLines | src/wss.cc:219-230 | `+id` and `-id` read back as that connection, both as written and corrected |
| WssBridge.ParseMessageLine | src/wss.cc:232-235 | `id<TAB>text` reads back as that message |
| WssBridge.AsWrittenOneDigit | src/wss.cc:232-235 | for a one-digit sender the as-written offset happens to land on the text |
| WssBridge.AsWrittenManyDigits | src/wss.cc:232-235 | for a sender of two or more digits the as-written text starts inside the number, not after the separator |
| WssBridge.AsWrittenMisreadsStop | src/wss.cc:232-238 | `12<TAB>stop` is not taken as `stop` as written, but is once corrected |
| WssBridge.NewBridge | src/wss.cc:191-196 | a new bridge is valid |
| WssBridge.Insert | src/wss.cc:222-223 | `std::set` insert: the set gains exactly the element |
| WssBridge.Remove | src/wss.cc:228-229 | `std::set` erase: the set loses exactly the element |
| WssBridge.FromServer | src/wss.cc:203-205 | every reply is queued from sender 0, in order |
| WssBridge.Apply | src/wss.cc:218-246 | a connection joins or leaves both sets; `stop` queues `stopping` from the server and raises the flag; other text is queued from its sender, followed by any replies of the `msgreplier` library; only `stop` raises the flag |
| WssBridge.Handle | src/wss.cc:218-246 | a line that does not parse leaves the bridge unchanged; every line keeps it valid |
| WssBridge.HandleAsWritten | src/wss.cc:218-246 | the as-written handler keeps the bridge valid and is undefined exactly on a line whose C string is a single digit |
| WssBridge.OpenThenClose | src/wss.cc:219-230 | a new connection that opens and then closes leaves the bridge as it was |
| WssBridge.SumAnswered | src/wss.cc:239-244 | a sum from a client is queued, followed by the library's answer from the server |
| WssBridge.ReadFrameOfFrame | src/wss.cc:264-277 | a write to the helper reads back as its client index and text |
| WssBridge.ShortCommit | src/wss.cc:270 | the first seven characters of the commit, or all of it when shorter |
| WssBridge.GreetWrites | src/wss.cc:269-272 | each client to greet gets the two greeting lines, in order |
| WssBridge.Relay | src/wss.cc:275-279 | a broadcast goes to exactly the connections other than its sender |
| WssBridge.RelayCount | src/wss.cc:275-279 | one write per connection, less one when the sender is connected |
| WssBridge.SenderNeverEchoed | src/wss.cc:276 | no relayed write is addressed to the broadcast's sender |
| WssBridge.BroadcastWritesAppend | src/wss.cc:274-280 | relaying a concatenation of broadcasts is relaying each part in turn |
| WssBridge.DyingWrites | src/wss.cc:262-265 | each connection, in order, is told `dying` |
| WssBridge.Dispatch | src/wss.cc:254-281 | a round waits exactly when not dying and nothing is queued; otherwise it takes both queues, and kills the helper exactly when dying |
| WssBridge.ConnectThenGreet | src/wss.cc:219-224 | on an idle bridge, a new connection gets exactly its greeting in the next round |
| WssBridge.MessageRelayed | src/wss.cc:239-280 | without the library, an idle bridge relays a message to every other client and writes nothing else |
| WssBridge.StopLine | src/wss.cc:236-238 | `stop` from any client queues `stopping` from the server and raises the stop flag, whatever else is pending |
| WssBridge.StopLineAsWritten | src/wss.cc:232-238 | as written, `stop` from a client with a one-digit index queues `stopping` and raises the stop flag |
| WssBridge.UnnumberedLineAsWritten | src/wss.cc:232-235 | a line that starts with no number leaves the bridge unchanged once corrected, but as written is queued from the uninitialised id without its first character |
| WssBridge.DyingRound | src/wss.cc:262-267 | once dying, the next round tells each connection `dying`, in order, and kills the helper |

## Left out

- Threads, mutexes, condition variables and `WaitableAtomic` waits: each thread's action is one atomic step on an immutable state, and a wait is the order of those steps.
- Clocks: the grace periods are boolean parameters (in time or not). The "Gone after" timings, `t_added`, the `%.3lfs` durations and the dlib start time are not modelled; the start time is a string parameter.
- `SetLogger`, `EnsureHasLogger`, the log sinks and `DumpActive`: these are logging I/O. The model keeps the logged lines as a list in the manager, not where they go.
- LifetimeManager.Apply: the step machine (`Apply`, `Run` and every lemma over runs, with `LifetimeScopes.NextId`) uses the corrected `TrackingAddNewestFirst` and `EmplaceThread` listed under Findings. As written, ids are handed out oldest first, so a run's `Offender:` lines would list id 0 first, and an `Emplace` step after termination began would end the process in `std::terminate`. The as-written behaviour is stated for single calls only, by `LifetimeTracking.TrackingAdd` and `LifetimeManager.EmplaceThreadAsWritten`.
- TrackedThreadBracket: it is proved over the corrected `EmplaceThread`. As written, a tracked thread created after termination began ends the process in `std::terminate` at `EmplaceThreadImpl`, so the half "nothing is queued once terminating" holds only for the corrected program.
- LifetimeManager.DoExit: the `Gone after %.3lfs` lines (src/lib_c5t_lifetime_manager.cc:178-188), logged as entries leave the registry during the grace period, are not in the modelled log, because they depend on timing.
- LifetimeScopes.TrackedThreadSteps: this fixes one interleaving, the thread's `TrackingAdd` before the creator's `EmplaceThreadImpl`. The other order is not modelled.
- `Popen2`: the child process, its pipes and its output are not modelled. Only its start, its lines as given, and `Kill` are modelled as steps. The WebSocket helper script (`python_wss.py`) is not part of this model, and each line it writes is one string.
- The per-type publisher (`HandlerPerType`, `AddGenericLink`, `PublishGenericEvent`, and the per-type `CleanupSubscriberByID`): `TopicsSubcribersAllTypesSingleton` (src/lib_c5t_actor_model.cc:3-33) defines no `HandlerPerType`, so the per-type handler is modelled as a set of links, each keyed by type, subscriber and topic id. Two things about it are assumed. First, every `AddGenericLink` for a subscriber also registers the type for that subscriber through `InternalRegisterTypeForSubscriber` (src/lib_c5t_actor_model.cc:16-25), which nothing in the repository calls. Second, a handler's `CleanupSubscriberByID` drops exactly that subscriber's links of its type. `ActorBus.Valid`, `ActorBus.Teardown` and `ActorBus.PublishMissesTornDownScope` rest on both. A publication of type `T` consults only `T`'s links, so the `dynamic_pointer_cast` in the link's callback always succeeds and its abort branch is unreachable. Because links are a set, the iteration order of the `unordered_set` of topic ids is not modelled.
- ActorRegistry.CleanupSubscriberByID: the source visits a subscriber's types in the order of an `unordered_set<std::type_index>` (src/lib_c5t_actor_model.cc:9, 29-31), which is unspecified. The model lists the calls in ascending type order, so only which handlers are called, once each, is the source's promise; their order is not.
- `GetNextUniqueTopicID`: topic ids are parameters.
- DLibManager.UnloadAll: the order in which destroying `loaded_libs` destroys its libraries is not relied on, so the `OnUnload` calls are promised as a set, one per open library that exports it.
- JSON: this is an abstract `Codec` whose only promise is that decoding an encoded value gives the value back.
- The file system: it is a map keyed by (directory, field, key). `JoinPath`, `MkDir` and two strings naming the same file are not modelled. A failed write is a boolean parameter.
- `dlopen`, `dlsym`, `stat` and the symlink calls: these are parameters. Only the Linux `.so` suffix is modelled; the Apple `.dylib` branch and `DynamicLibrary::CrossPlatform` are not.
- WssBridge.Apply: whether the `msgreplier` library answers is fixed when the bridge is made (`NewBridge`'s `replier`). The source calls `C5T_DLIB_USE("msgreplier", ...)` for every message (src/wss.cc:242-244), so the library may appear later, fail to load, or be reloaded with fresh globals between two messages. The model keeps one replier state for the bridge's whole life.
- WssBridge.Handle: `Handle`, `MessageRelayed` and `StopLine` are stated over the corrected `Parse` listed under Findings. As written, they hold only for a sender whose index has one digit (`AsWrittenOneDigit`, `StopLineAsWritten`); client 12's `stop` is read as `\tstop` and is relayed instead (`AsWrittenMisreadsStop`). `Parse` also drops a line that starts with no number, which the source relays from the uninitialised id with its first character cut (`UnnumberedLineAsWritten`); the helper prints such a line when a message holds a newline.
- WssBridge.StopLine: proved over the corrected `Parse`; as written it holds for a one-digit sender only, as `WssBridge.StopLineAsWritten` states.
- WssBridge.MessageRelayed: proved over the corrected `Parse`; as written it holds for a one-digit sender only (`WssBridge.AsWrittenOneDigit`).
- `current::FromString<int>`: this is modelled as the leading decimal number, or 0. That library is not part of this model.
- `current::strings::Split` and `Join`: these are assumed to skip empty fields. That library is not part of this model.
- `GitCommit`: this is a parameter.
- WssBridge.ParseAsWritten: the `id` left uninitialised when `sscanf` reads nothing is the `junk` parameter.
- The `dying` flag: the model assumes the termination thread sets it. `time_to_stop_http_server_and_die.SetValue(true)` is the bridge's `stop` flag.
- The HTTP servers, their routes and the programs' entry points: these are not modelled.
- MsgReplier.OnBroadcast: the model uses unbounded integers, so `%d` and the 32-bit overflow of `a+b+c` are not modelled. Its lemmas assume `SumFits` or `IsInt32`.
- Decimal.ScanInt: `%d` overflow is not modelled, because integers are unbounded.
- The actor smoke test the bus lemmas follow: it is commented out in the source (src/test_c5t_actor_model.cc:138-169).

## Findings

| source | as written | input that shows it | evidently intended | confidence | as-written member | corrected member |
|---|---|---|---|---|---|---|
| src/lib_c5t_lifetime_manager.cc:88-89 | the id is read before `next_id_desc` is decremented, so ids run 0, 2^64-1, 2^64-2, … and the oldest entry (id 0) sorts first, against the comment at line 39 | two `TrackingAdd` calls on a fresh registry | decrement first, so the newest entry sorts first | not executed | LifetimeTracking.AsWrittenOldestFirst | LifetimeTracking.NewestFirst |
| src/lib_c5t_lifetime_manager.cc:102-111 | when termination has already started, the `std::thread` argument is dropped while still joinable, and its destructor calls `std::terminate` | `EmplaceThreadImpl` with a running thread after `Exit` | detach or join the thread, and carry on with the shutdown | not executed | LifetimeManager.EmplaceAfterExitCrashes | LifetimeManager.EmplaceThread |
| src/wss.cc:232-235 | the text offset is the count `sscanf` returns, plus one: always 2, whatever the number's length | `12\tstop` gives the text `\tstop`, so the stop is not seen | the text starts right after the number and the tab | not executed | WssBridge.AsWrittenMisreadsStop | WssBridge.ParseMessageLine |
| src/wss.cc:232-240 | a line that starts with no number leaves `id` uninitialised (`sscanf` returns 0), and the line is still queued from that `id`, its text from offset 1 | `hello` is queued as `ello` from an indeterminate sender | a line with no sender is not relayed | not executed | WssBridge.UnnumberedLineAsWritten | WssBridge.Handle |
