# KEngine scheduler and asset manager, in Dafny

This project models the bookkeeping core of the KEngine game engine and proves properties of it.

- **The frame-tick task scheduler** (`MappedTaskScheduler`, `ScheduledTask`).
  - Tasks live in a map from `int` id to task. The ids come from one shared counter: positive for synchronous tasks, negative for asynchronous ones.
  - Once per tick the game loop drains the map against one clock reading. The drain collects the due tasks' programs, rearms repeating tasks in place and removes one-shot tasks.
  - An asynchronous task submits its work to the worker pool. It then registers a repeating poll that, once the work is finished, runs the completion closure and removes itself.
- **The asset manager** (`GameAssetManager`).
  - A cache maps each requested path to a decoded asset. Factories are looked up by the asset type they produce.
  - Operations: single and batch loads, unloads, lookups, and a batch of background loads joined by a counter and a repeating checker task.
  - Reconciliation unloads what is no longer required and loads what is missing.
- **Two pure helpers:** resource-path normalisation (`PathUtils`) and the `Color` record's constructors and `normalize`.

Layout, one module per file:

| file | module | contents |
|---|---|---|
| `wrappers.dfy` | `Wrappers` | `Option` (Java's `Optional` and nullable references) |
| `java_int.dfy` | `JavaInt` | the range of a Java `int` and the wrap-around of `++` |
| `path_utils.dfy` | `PathUtils` | `normalizeResourcePath` and its properties |
| `color.dfy` | `Colors` | the `Color` constructors, `normalize`, and packing as the inverse of unpacking |
| `executor.dfy` | `Executor` | the worker pool as a list of submitted work with completion flags |
| `scheduled_task.dfy` | `Tasks` | task programs, the six-field task record, the `ScheduledTask` class |
| `collections.dfy` | `Collections` | picking from and listing a hash set; set and map facts |
| `mapped_task_scheduler.dfy` | `Scheduler` | id generation, the drain on values, the `MappedTaskScheduler` class |
| `asset_cache.dfy` | `AssetCache` | load, lookup, unload and reconciliation as functions on the cache |
| `game_asset_manager.dfy` | `AssetManager` | the `GameAssetManager` and `BatchJoin` classes, proved against `AssetCache` |

Design points:

- **Scheduler state.** The scheduler is a class whose `waitingTasks` map holds `ScheduledTask` objects. The drain changes those objects in place through their two setters. `Tasks()` reads the registry as a map of six-field records; every method's postcondition gives the new registry in terms of the old one.
- **Programs.** A task's program is either a caller's closure (an opaque value of the type parameter `C`) or one of the scheduler's own two closures: the completion poll and the deferred submission.
- **Asset manager closures.** The asset manager instantiates `C` with `AssetClosure`, which names the closures it hands to the scheduler. Its methods `RunLoadItem`, `BatchJoin.GetAndDecrement`, `RunCheckBatch` and `UnloadResource` are the bodies of those closures.
- **Clock, pool and classpath.** The clock reading is the parameter `now`. The worker pool finishing a piece of work is the explicit step `SystemResourceManager.FinishWork`. Classpath resources are a map from location to bytes.
- **Decoders.** A factory's decoder is a finite table from file contents to assets. Calls of `readResource` and `unloadResource` are recorded in the ghost logs `readCalls` and `unloadCalls`, so "never decodes" and "unloads exactly once" can be stated.

## Model

All source paths are relative to the repository root.

| member | source | states |
|---|---|---|
| JavaInt.Increment | KEngine-core/src/main/java/me/kyledulce/kengine/scheduler/MappedTaskScheduler.java:170 | `x++` on an `int` adds one below `Integer.MAX_VALUE` and wraps `MAX_VALUE` to `MIN_VALUE` |
| PathUtils.ReplaceBackslashes | KEngine-core/src/main/java/me/kyledulce/kengine/utils/PathUtils.java:12 | same length, each backslash becomes `/` and every other character is kept in place, and no backslash is left |
| PathUtils.NormalizeResourcePath | KEngine-core/src/main/java/me/kyledulce/kengine/utils/PathUtils.java:11-19 | no backslash in the result; a path starting with either separator loses exactly its first character and keeps the rest, converted, in order; any other path keeps its length and only has its backslashes converted |
| PathUtils.NormalizedPathUnchanged | KEngine-core/src/main/java/me/kyledulce/kengine/utils/PathUtils.java:11-19 | a path without backslashes and without a leading `/` is returned unchanged |
| PathUtils.LeadingSlashSurvivesOnlyDoubleSeparator | KEngine-core/src/main/java/me/kyledulce/kengine/utils/PathUtils.java:6-7 | the documented "no leading slash" holds exactly when the input does not start with two separators (both directions) |
| PathUtils.DoubleSlashKeepsOneSlash | KEngine-core/src/main/java/me/kyledulce/kengine/utils/PathUtils.java:14-16 | `//a` normalises to `/a` |
| PathUtils.NormalizeIdempotentWithoutLeadingSlash | KEngine-core/src/main/java/me/kyledulce/kengine/utils/PathUtils.java:11-19 | normalising twice equals normalising once, for inputs not starting with two separators |
| Colors.Rgb | KEngine-core/src/main/java/me/kyledulce/kengine/types/Color.java:10-12 | the three-argument constructor keeps red, green and blue and sets alpha to 255 |
| Colors.FromArgb | KEngine-core/src/main/java/me/kyledulce/kengine/types/Color.java:14-21 | every channel unpacked from any 32-bit word, negative ones included, is in 0..255 |
| Colors.ArgbRoundTrip | KEngine-core/src/main/java/me/kyledulce/kengine/types/Color.java:14-21 | packing the unpacked channels back at bits 24-31, 16-23, 8-15 and 0-7 gives the original word, so alpha, red, green and blue come from exactly those bits |
| Colors.ChannelsRoundTrip | KEngine-core/src/main/java/me/kyledulce/kengine/types/Color.java:14-21 | every colour with channels in range is the unpacking of its packed word (unpacking is onto) |
| Colors.MinusOneIsOpaqueWhite | KEngine-core/src/main/java/me/kyledulce/kengine/types/Color.java:14-21 | the word `0xFFFFFFFF` (Java's `-1`) unpacks to (255, 255, 255, 255) |
| Colors.Clamp | KEngine-core/src/main/java/me/kyledulce/kengine/types/Color.java:25-28 | `Math.clamp(v, 0, 255)` lies in [0, 255], is `v` when `v` is in range, and is the in-range value nearest to `v` |
| Colors.Normalize | KEngine-core/src/main/java/me/kyledulce/kengine/types/Color.java:23-30 | every channel of the result is in [0, 255] and is its channel clamped; a colour already in range is returned unchanged |
| Colors.NormalizeIdempotent | KEngine-core/src/main/java/me/kyledulce/kengine/types/Color.java:23-30 | normalising twice equals normalising once |
| Colors.NormalizeFromArgb | KEngine-core/src/main/java/me/kyledulce/kengine/types/Color.java:14-30 | normalising a colour unpacked from a word returns it unchanged |
| Executor.SystemResourceManager.constructor | KEngine/src/main/java/me/kyledulce/kengine/resource/SystemResourceManager.java:20-27 | a new pool has no submitted work |
| Executor.SystemResourceManager.SubmitTask | KEngine/src/main/java/me/kyledulce/kengine/resource/SystemResourceManager.java:29-33 | the work is queued after all earlier work, and its new handle is unfinished |
| Executor.SystemResourceManager.FinishWork | KEngine-core/src/main/java/me/kyledulce/kengine/resource/TaskFuture.java:11-13 | the pool's step: the handle's work becomes finished and nothing else changes |
| Tasks.ScheduledTask.constructor | KEngine-core/src/main/java/me/kyledulce/kengine/scheduler/ScheduledTask.java:10-18 | the all-arguments constructor takes the fields in the order id, program, delayMillis, intervalMillis, scheduledTime, repeating; the four without setters are `const` |
| Tasks.ScheduledTask.SetDelayMillis | KEngine-core/src/main/java/me/kyledulce/kengine/scheduler/ScheduledTask.java:15 | only `delayMillis` changes |
| Tasks.ScheduledTask.SetScheduledTime | KEngine-core/src/main/java/me/kyledulce/kengine/scheduler/ScheduledTask.java:17 | only `scheduledTime` changes |
| Tasks.ScheduledTask.Equals | KEngine-core/src/main/java/me/kyledulce/kengine/scheduler/ScheduledTask.java:11 | the generated `equals` holds exactly when the two tasks' six-field snapshots are equal |
| Collections.AnyOf | KEngine-core/src/main/java/me/kyledulce/kengine/scheduler/MappedTaskScheduler.java:138 | some element of a non-empty hash set; which one is left open |
| Collections.ToSequence | KEngine/src/main/java/me/kyledulce/kengine/resource/GameAssetManager.java:258-259 | `toArray` lists every element of the set exactly once, in an order left open |
| Scheduler.NextCounter | KEngine-core/src/main/java/me/kyledulce/kengine/scheduler/MappedTaskScheduler.java:170-173 | the counter after handing out magnitude `m` is `m + 1`, or 1 after `Integer.MAX_VALUE` |
| Scheduler.FreeMagnitudeExists | KEngine-core/src/main/java/me/kyledulce/kengine/scheduler/MappedTaskScheduler.java:168-176 | with fewer than `Integer.MAX_VALUE` registered ids, some id of each sign is free, so the retry loop ends |
| Scheduler.FirstDrawIsCounter | KEngine-core/src/main/java/me/kyledulce/kengine/scheduler/MappedTaskScheduler.java:166-177 | when the counter's own magnitude is free, that magnitude, with the sign of the kind, is the id handed out, and the counter steps once |
| Scheduler.FirstIdOfFreshScheduler | KEngine-core/src/main/java/me/kyledulce/kengine/scheduler/MappedTaskScheduler.java:29 | on an empty scheduler with the counter at its initial 1, the first id is 1 (synchronous) or -1 (asynchronous) and the counter becomes 2 |
| Scheduler.CounterWrapsToOne | KEngine-core/src/main/java/me/kyledulce/kengine/scheduler/MappedTaskScheduler.java:170-173 | from a counter at `Integer.MAX_VALUE`, a free synchronous id is `MAX_VALUE` and the counter returns to 1 |
| Scheduler.Rearm | KEngine-core/src/main/java/me/kyledulce/kengine/scheduler/MappedTaskScheduler.java:149-152 | a rearmed repeating task is next due one interval after `now` |
| Scheduler.DrainStep | KEngine-core/src/main/java/me/kyledulce/kengine/scheduler/MappedTaskScheduler.java:141-155 | visiting one more task leaves it if not due, rearms it if due and repeating, and removes it if due and one-shot |
| Scheduler.Drain | KEngine-core/src/main/java/me/kyledulce/kengine/scheduler/MappedTaskScheduler.java:135-158 | after a drain at `now`: no id is added; tasks not due are unchanged; due repeating tasks have `scheduledTime = now` and `delayMillis = intervalMillis` and nothing else changed; due one-shot tasks are gone |
| Scheduler.OneShotGoneAtDueTime | KEngine-core/src/main/java/me/kyledulce/kengine/scheduler/MappedTaskScheduler.java:142-154 | a one-shot task survives a drain one millisecond before `scheduledTime + delayMillis` and is gone after a drain at that time |
| Scheduler.DrainLeavesNothingOverdue | KEngine-core/src/main/java/me/kyledulce/kengine/scheduler/MappedTaskScheduler.java:142-152 | with non-negative intervals, no task left after a drain at `now` is due before `now` |
| Scheduler.DelayedTaskScenario | KEngine-core/src/test/java/me/kyledulce/kengine/scheduler/MappedTaskSchedulerTest.java:271-330 | a one-shot task with delay 1000 armed at 0 is not collected at 500 and is collected and removed at 1000 |
| Scheduler.CollectOne | KEngine-core/src/main/java/me/kyledulce/kengine/scheduler/MappedTaskScheduler.java:147 | pushing a due task's program to the front keeps the collected list exactly the due tasks visited, each once |
| Scheduler.MappedTaskScheduler.constructor | KEngine-core/src/main/java/me/kyledulce/kengine/scheduler/MappedTaskScheduler.java:26-38 | a new scheduler has no tasks and its counter at 1 |
| Scheduler.MappedTaskScheduler.GenerateTaskId | KEngine-core/src/main/java/me/kyledulce/kengine/scheduler/MappedTaskScheduler.java:166-177 | the id has the sign of its kind and is not registered; the counter stands one step past its magnitude; every magnitude skipped on the way was registered |
| Scheduler.MappedTaskScheduler.PutTask | KEngine-core/src/main/java/me/kyledulce/kengine/scheduler/MappedTaskScheduler.java:80-90 | the registry gains, or has replaced, the task under `id`, armed at `now`; nothing else changes |
| Scheduler.MappedTaskScheduler.ScheduleNewSynchronousTask | KEngine-core/src/main/java/me/kyledulce/kengine/scheduler/MappedTaskScheduler.java:65-69 | a fresh positive id, one more task, and exactly the new record added |
| Scheduler.MappedTaskScheduler.ScheduleSynchronousTask | KEngine-core/src/main/java/me/kyledulce/kengine/scheduler/MappedTaskScheduler.java:40-42 | as above, one-shot, with delay and interval 0 |
| Scheduler.MappedTaskScheduler.ScheduleDelayedSynchronousTask | KEngine-core/src/main/java/me/kyledulce/kengine/scheduler/MappedTaskScheduler.java:44-46 | as above, one-shot, with the given delay and interval 0 |
| Scheduler.MappedTaskScheduler.ScheduleRepeatingSynchronousTask | KEngine-core/src/main/java/me/kyledulce/kengine/scheduler/MappedTaskScheduler.java:48-50 | as above, repeating, with the given interval and delay 0 |
| Scheduler.MappedTaskScheduler.ScheduleDelayedRepeatingSynchronousTask | KEngine-core/src/main/java/me/kyledulce/kengine/scheduler/MappedTaskScheduler.java:52-54 | as above, repeating, with the given interval and delay |
| Scheduler.MappedTaskScheduler.SubmitAndPoll | KEngine-core/src/main/java/me/kyledulce/kengine/scheduler/MappedTaskScheduler.java:111-122 | the work is submitted to the pool, and a repeating poll with delay and interval 0 is registered under `id` for the new handle |
| Scheduler.MappedTaskScheduler.ScheduleAsynchronousTask | KEngine-core/src/main/java/me/kyledulce/kengine/scheduler/MappedTaskScheduler.java:92-96 | a fresh negative id, the work submitted, and its poll registered under that id |
| Scheduler.MappedTaskScheduler.ScheduleDelayedAsynchronousTask | KEngine-core/src/main/java/me/kyledulce/kengine/scheduler/MappedTaskScheduler.java:98-102 | a fresh negative id, nothing submitted yet, and a one-shot deferred submission under that id with the given delay |
| Scheduler.MappedTaskScheduler.RunPollCompletion | KEngine-core/src/main/java/me/kyledulce/kengine/scheduler/MappedTaskScheduler.java:114-118 | the poll registered under `id` for `taskFuture` reports finished exactly when the work is done, and hands back its completion closure only then; the poll is still registered while that closure runs |
| Scheduler.MappedTaskScheduler.EndPollCompletion | KEngine-core/src/main/java/me/kyledulce/kengine/scheduler/MappedTaskScheduler.java:119 | after the completion closure of a finished poll has returned, exactly the poll's own id is removed |
| Scheduler.MappedTaskScheduler.CancelTask | KEngine-core/src/main/java/me/kyledulce/kengine/scheduler/MappedTaskScheduler.java:124-129 | a negative id changes nothing; any other id is removed and no other entry changes |
| Scheduler.MappedTaskScheduler.IsTaskInProgress | KEngine-core/src/main/java/me/kyledulce/kengine/scheduler/MappedTaskScheduler.java:131-133 | true exactly when the id is registered |
| Scheduler.MappedTaskScheduler.RearmTask | KEngine-core/src/main/java/me/kyledulce/kengine/scheduler/MappedTaskScheduler.java:149-152 | the two setters rearm the one task in place; no other task changes |
| Scheduler.MappedTaskScheduler.VisitTask | KEngine-core/src/main/java/me/kyledulce/kengine/scheduler/MappedTaskScheduler.java:141-155 | one loop turn: the program is returned exactly when the task is due, and the registry advances by one `DrainStep` |
| Scheduler.MappedTaskScheduler.GetTasksToRunAndUpdate | KEngine-core/src/main/java/me/kyledulce/kengine/scheduler/MappedTaskScheduler.java:135-158 | the new registry is `Drain(old registry, now)`; the returned programs are exactly those of the due tasks, each once |
| AssetCache.FactoryFor | KEngine/src/main/java/me/kyledulce/kengine/resource/GameAssetManager.java:43-51 | none exactly when no factory has the type; otherwise the first factory in list order with that type |
| AssetCache.AssetLocation | KEngine/src/main/java/me/kyledulce/kengine/resource/GameAssetManager.java:78-79 | the lookup location is `/assets/` followed by the normalised path, with no backslash |
| AssetCache.SpellingsShareOneFile | KEngine/src/main/java/me/kyledulce/kengine/resource/GameAssetManager.java:78-81 | a leading `/` or `\` and backslash separators do not change the file read |
| AssetCache.Load | KEngine/src/main/java/me/kyledulce/kengine/resource/GameAssetManager.java:61-98 | the failure ladder. No factory: empty, cache unchanged, no decode, even for a cached path. Cached path: no decode and cache unchanged; the cached asset exactly when the factory accepts it. Uncached path: decode exactly when the file exists; success exactly when it decodes, storing the asset under the raw path; otherwise empty with nothing stored |
| AssetCache.LoadOnlyAdds | KEngine/src/main/java/me/kyledulce/kengine/resource/GameAssetManager.java:96 | a load never evicts or replaces an entry; at most the requested path is added |
| AssetCache.LoadAll | KEngine/src/main/java/me/kyledulce/kengine/resource/GameAssetManager.java:129-139 | one result per path, with `resourceId = paths[i]`; cached entries are kept |
| AssetCache.LoadAllWithoutFactory | KEngine/src/main/java/me/kyledulce/kengine/resource/GameAssetManager.java:129-139 | with no factory every result is empty and the cache is unchanged |
| AssetCache.LoadAllCached | KEngine/src/main/java/me/kyledulce/kengine/resource/GameAssetManager.java:129-139 | a batch of cached paths of an accepted type returns the cached assets and changes nothing |
| AssetCache.Lookup | KEngine/src/main/java/me/kyledulce/kengine/resource/GameAssetManager.java:263-272 | the cached asset exactly when the path is cached, a factory for the type exists, and it accepts the asset; otherwise empty |
| AssetCache.LoadThenLookup | KEngine/src/main/java/me/kyledulce/kengine/resource/GameAssetManager.java:263-272 | after a successful load with a well-typed factory, `getResource` returns what the load returned |
| AssetCache.Unload | KEngine/src/main/java/me/kyledulce/kengine/resource/GameAssetManager.java:186-202 | uncached path: no-op; no factory for the asset's class: entry kept and no unload call; otherwise one unload call for that asset and only that entry removed |
| AssetCache.UnloadAllRemovesExactly | KEngine/src/main/java/me/kyledulce/kengine/resource/GameAssetManager.java:215-219 | after unloading a list, exactly the named entries that have a factory are gone; there is one unload call per removed entry, every call unloads the asset of a removed entry with its own factory type, and every removed entry's asset is unloaded |
| AssetCache.Reconcile | KEngine/src/main/java/me/kyledulce/kengine/resource/GameAssetManager.java:243-256 | the loop as written; the unload set is within the cached paths, and there are no more loads than requests |
| AssetCache.ReconcileUnloadsUnrequested | KEngine/src/main/java/me/kyledulce/kengine/resource/GameAssetManager.java:244-256 | the unload set is exactly the cached paths that no request names |
| AssetCache.ReconcileLoadsExactly | KEngine/src/main/java/me/kyledulce/kengine/resource/GameAssetManager.java:247-256 | a request is loaded exactly when its path is not cached or an earlier request already named it |
| AssetCache.KeptPathIsLeftAlone | KEngine/src/main/java/me/kyledulce/kengine/resource/GameAssetManager.java:248-252 | a cached path requested once is neither unloaded nor loaded |
| AssetCache.RepeatedCachedRequestIsLoaded | KEngine/src/main/java/me/kyledulce/kengine/resource/GameAssetManager.java:251-254 | a second request for the same path lands in the load set |
| AssetCache.ReconcileByPath | KEngine/src/main/java/me/kyledulce/kengine/resource/GameAssetManager.java:251 | the loop with a test that really looks for the path among the requests to load; its unload set is within the cached paths |
| AssetCache.ContainsTestIsRedundant | KEngine/src/main/java/me/kyledulce/kengine/resource/GameAssetManager.java:251 | the `Set<ResourceRequest>.contains(String)` test, always false, decides nothing: the path-based test gives the same two sets, and no path to load is also a path to unload |
| AssetCache.ReconcileScenario | KEngine/src/test/java/me/kyledulce/kengine/resource/GameAssetManagerTest.java:374-401 | cached {A, B} with requests [B, C] unloads A, loads C and keeps B |
| AssetManager.LoadWork | KEngine/src/main/java/me/kyledulce/kengine/resource/GameAssetManager.java:162-172 | the background loads of a batch, one per request, in request order |
| AssetManager.UnloadWork | KEngine/src/main/java/me/kyledulce/kengine/resource/GameAssetManager.java:228-230 | the background unloads, one per path, in order |
| AssetManager.BatchJoin.constructor | KEngine/src/main/java/me/kyledulce/kengine/resource/GameAssetManager.java:158-161 | the counter starts at the number of requests, and every result slot is empty |
| AssetManager.BatchJoin.GetAndDecrement | KEngine/src/main/java/me/kyledulce/kengine/resource/GameAssetManager.java:170 | returns the old counter, decrements it once and counts one more completion; `counter = n - completions` is kept |
| AssetManager.GameAssetManager.constructor | KEngine/src/main/java/me/kyledulce/kengine/resource/GameAssetManager.java:29-34 | an empty cache over the given factories and scheduler |
| AssetManager.GameAssetManager.GetResourceFactory | KEngine/src/main/java/me/kyledulce/kengine/resource/GameAssetManager.java:43-51 | the linear search returns `FactoryFor(factories, type)` |
| AssetManager.GameAssetManager.LoadResourceWith | KEngine/src/main/java/me/kyledulce/kengine/resource/GameAssetManager.java:61-98 | the returned asset and the new cache are those of `Load`; a decode is logged exactly when `Load` reads the file |
| AssetManager.GameAssetManager.LoadResource | KEngine/src/main/java/me/kyledulce/kengine/resource/GameAssetManager.java:100-103 | the factory check comes first: as `Load` with the factory found for the type |
| AssetManager.GameAssetManager.LoadResources | KEngine/src/main/java/me/kyledulce/kengine/resource/GameAssetManager.java:129-139 | a fresh array equal to `LoadAll`'s results, with one factory lookup; cache and decode log as `LoadAll` |
| AssetManager.GameAssetManager.UnloadResource | KEngine/src/main/java/me/kyledulce/kengine/resource/GameAssetManager.java:186-202 | the new cache and the unload calls made are those of `Unload` |
| AssetManager.GameAssetManager.UnloadResources | KEngine/src/main/java/me/kyledulce/kengine/resource/GameAssetManager.java:215-219 | the new cache and the unload calls made are those of `UnloadAll` |
| AssetManager.GameAssetManager.GetResource | KEngine/src/main/java/me/kyledulce/kengine/resource/GameAssetManager.java:263-272 | returns `Lookup`, and changes nothing |
| AssetManager.GameAssetManager.UnloadResourcesAsync | KEngine/src/main/java/me/kyledulce/kengine/resource/GameAssetManager.java:227-231 | one background unload per path is submitted, in order; the i-th is polled under a fresh negative id of its own for the i-th new future, with no completion closure; exactly one task per path is added, the pool's earlier completion flags are kept and every new future is unfinished; no registered task changes |
| AssetManager.GameAssetManager.SchedulePolled | KEngine/src/main/java/me/kyledulce/kengine/resource/GameAssetManager.java:162-172 | each piece of work is submitted, in order, and the i-th is polled under a fresh negative id of its own for the i-th new future with the given completion closure; exactly one task per piece of work is added, the pool's earlier completion flags are kept and every new future is unfinished; no registered task changes |
| AssetManager.GameAssetManager.ScheduleChecker | KEngine/src/main/java/me/kyledulce/kengine/resource/GameAssetManager.java:174-182 | the checker is registered as a repeating task with interval 0 under a fresh positive id, which is stored in the join |
| AssetManager.GameAssetManager.LoadResourcesAsync | KEngine/src/main/java/me/kyledulce/kengine/resource/GameAssetManager.java:157-183 | the counter starts at n and every result slot is empty; n loads are submitted, each polled with the count-down; one repeating checker is added; exactly n + 1 tasks are added, the pool's earlier completion flags are kept and the n new futures are unfinished; no earlier task changes |
| AssetManager.GameAssetManager.RunLoadItem | KEngine/src/main/java/me/kyledulce/kengine/resource/GameAssetManager.java:165-169 | item `i` of a batch is loaded as `Load` with its own type's factory, and only result slot `i` is filled |
| AssetManager.GameAssetManager.RunCheckBatch | KEngine/src/main/java/me/kyledulce/kengine/resource/GameAssetManager.java:176-181 | fires exactly when all n items have counted down; a check before that changes nothing; on firing, the caller's `onComplete` is returned and the checker's own id is removed, so it cannot fire again |
| AssetManager.GameAssetManager.SplitRequests | KEngine/src/main/java/me/kyledulce/kengine/resource/GameAssetManager.java:244-256 | the loop over the requests computes exactly `Reconcile`'s unload set and load set |
| AssetManager.GameAssetManager.UnloadThenLoadAsync | KEngine/src/main/java/me/kyledulce/kengine/resource/GameAssetManager.java:258-259 | both sets are listed each element once; the unloads are submitted and polled before the loads; every unload and load poll, and the batch's checker, is registered under a fresh id of its own; nothing else is registered; the pool's earlier completion flags are kept, followed by unfinished flags for the unloads and then the loads; every result slot is empty; no earlier task changes |
| AssetManager.GameAssetManager.LoadAndClearResourcesTask | KEngine/src/main/java/me/kyledulce/kengine/resource/GameAssetManager.java:243-260 | the paths unloaded and the requests loaded list exactly the two sets of `Reconcile`, each once; the unloads are submitted before the loads; each unload and each load is polled under a fresh id of its own, the loads counting the batch down, and the batch's checker is registered; nothing else is registered; the pool's earlier completion flags are kept, followed by unfinished flags for the unloads and then the loads; every result slot is empty; no earlier task changes |

## Left out

- Logging, thread safety (`Collections.synchronizedMap`, `AtomicInteger`, `synchronized`) and real concurrency are not modelled. Every closure runs to completion before the next starts. Background work finishing is the explicit step `FinishWork`.
- Clock and pool are parameters. The game clock is the `now` parameter. The thread pool and `Future.isDone` are a list of completion flags.
- Classpath streams and decoders are values. `getResourceAsStream` is a map from location to bytes, and a factory's `readResource` is a finite decoding table. Which concrete asset classes exist, and the factories' own unloading of GPU resources, are not part of this model.
- The stream-close and exception paths of the decoders are not modelled; a decode either yields an asset or fails.
- The thin scheduling wrappers (`loadResourceSync`, `loadResourceAsync`, `loadResourcesSync`, `unloadResourceSync`, `unloadResourceAsync`, `unloadResourcesSync`, `loadAndClearResourcesAsync`) are not modelled. `loadResourceAsync` hands `scheduleAsynchronousTask` two closures: the background load, and a completion closure that reads the cache again through `getResource` (modelled by `GetResource`) on the game thread, so a path unloaded between the load and the completion is reported as empty. Each of the other wrappers hands the scheduler operations modelled here one closure.
- The game loop that runs drained programs is not modelled. Running a program is a call of the method that models its body (`RunPollCompletion` followed by `EndPollCompletion`, `SubmitAndPoll`, `RunLoadItem`, `BatchJoin.GetAndDecrement`, `RunCheckBatch`, `UnloadResource`).
- Callers' closures and the `onComplete` of a batch are opaque tokens. Handing the result array to `onComplete`, and the wrapper `loadAndClearResourcesTask` puts around its `Runnable`, are not modelled.
- A batch started by `loadAndClearResourcesTask` does not wait for its unloads. Only the loads count the batch down (`LoadAndClearResourcesTask`'s `BatchesStarted` gives the unload polls no completion closure), so `onComplete` can run while unloads are still pending, and with nothing to load it runs on the first tick. The model keeps this behaviour of the source rather than a completion that waits for both.
- Hash-set and hash-map iteration order is left open. The drain may visit tasks in any order; each collected program goes to the front of the list, as `LinkedList.push` does.
- Scheduler.MappedTaskScheduler.GenerateTaskId: requires fewer than `Integer.MAX_VALUE` registered tasks. With every id of one sign taken, the source's retry loop never ends. The scheduling methods, `UnloadResourcesAsync`, `LoadResourcesAsync` and `LoadAndClearResourcesTask` carry the matching bound.
- `long` arithmetic is not modelled. Delays, intervals and times are unbounded integers, so the `long` overflow of `scheduledTime + delayMillis` is not captured. Only the `int` id counter's wrap-around is.
- `Color.darken` and `Color.lighten` (floating point) and `toString` are not modelled.
- Scheduler.MappedTaskScheduler.RunPollCompletion: a completion closure that throws is not modelled. In Java the poll then stays registered and fires again on the next tick; in the model that is the caller not taking the `EndPollCompletion` step.
- The factory list is taken as fixed when the manager is built. Java keeps a reference to the caller's list, so factories the caller adds or removes later are seen by the manager; that aliasing is not modelled.
- AssetCache.LoadThenLookup: holds only for well-behaved factories (`Factory.WellTyped`), whose `isResourceInstanceOfType` accepts their own type and everything they decode. Each factory implements that test itself, so the model assumes it rather than deriving it.
- Two factories are compared by their type tag. Java compares `Class` objects by reference, and a `Class` object is unique per class.
