/**
 * `GameAssetManager`: the asset cache as an object, with the factory search,
 * single and batch loads, unloads, lookups, and the asynchronous batch load
 * joined by a counter and a repeating checker task.
 *
 * Each operation is proved against the value semantics in `AssetCache`. Calls
 * of a factory's `readResource` and `unloadResource` are recorded in ghost
 * logs, so that "decoded" and "unloaded exactly once" can be stated. Work handed
 * to the scheduler is a closure value of `AssetClosure`; running it is the
 * method of the same name below.
 */
module AssetManager {
  import opened Wrappers
  import opened JavaInt
  import opened Executor
  import opened Tasks
  import opened Scheduler
  import opened Collections
  import opened PathUtils
  import opened AssetCache

  /** The closures the asset manager gives the scheduler. */
  datatype AssetClosure =
    | LoadItem(join: BatchJoin, index: nat)   // background load of one request of a batch
    | CountDown(join: BatchJoin)              // `value::getAndDecrement`, run when an item's load has finished
    | CheckBatch(join: BatchJoin)             // the repeating checker of a batch
    | UnloadPath(path: Path)                  // background `unloadResource(path)`

  /** The background loads of a batch, in request order. */
  function LoadWork(join: BatchJoin, n: nat): (work: seq<AssetClosure>)
    ensures |work| == n
    ensures forall i :: 0 <= i < n ==> work[i] == LoadItem(join, i)
  {
    if n == 0 then [] else LoadWork(join, n - 1) + [LoadItem(join, n - 1)]
  }

  /** The background unloads of `paths`, in order. */
  function UnloadWork(paths: seq<Path>): (work: seq<AssetClosure>)
    ensures |work| == |paths|
    ensures forall i :: 0 <= i < |paths| ==> work[i] == UnloadPath(paths[i])
  {
    if |paths| == 0 then [] else UnloadWork(paths[..|paths| - 1]) + [UnloadPath(paths[|paths| - 1])]
  }

  /**
   * `added` holds, for the i-th item of a batch, a completion poll of the i-th
   * future submitted after handle `base`, under the i-th of `itemIds`, with
   * `completion` as its completion closure.
   */
  ghost predicate ItemsRecorded(added: map<int, TaskRecord<AssetClosure>>, itemIds: seq<int>, base: nat,
                                completion: Option<AssetClosure>, now: int)
  {
    forall i :: 0 <= i < |itemIds| ==>
      && itemIds[i] < 0
      && itemIds[i] in added
      && added[itemIds[i]] == PollRecord(itemIds[i], TaskFuture(base + i), completion, now)
  }

  /** Recording one more item under a fresh negative id keeps the earlier items. */
  lemma RecordItem(added: map<int, TaskRecord<AssetClosure>>, itemIds: seq<int>, base: nat,
                   completion: Option<AssetClosure>, now: int, id: int, handle: nat)
    requires ItemsRecorded(added, itemIds, base, completion, now)
    requires id < 0 && id !in added && handle == base + |itemIds|
    ensures ItemsRecorded(added[id := PollRecord(id, TaskFuture(handle), completion, now)], itemIds + [id], base, completion, now)
  {
    var ids := itemIds + [id];
    forall i | 0 <= i < |ids|
      ensures ids[i] in added[id := PollRecord(id, TaskFuture(handle), completion, now)]
    {
      if i < |itemIds| {
        assert ids[i] == itemIds[i];
      }
    }
  }

  /** Recorded items stay recorded in any registry that extends theirs. */
  lemma ItemsStayRecorded(added: map<int, TaskRecord<AssetClosure>>, tasks: map<int, TaskRecord<AssetClosure>>,
                          itemIds: seq<int>, base: nat, completion: Option<AssetClosure>, now: int)
    requires ItemsRecorded(added, itemIds, base, completion, now) && Extends(added, tasks)
    ensures ItemsRecorded(tasks, itemIds, base, completion, now)
  {
    forall i | 0 <= i < |itemIds|
      ensures itemIds[i] in tasks && tasks[itemIds[i]] == added[itemIds[i]]
    {
      assert itemIds[i] in added;
    }
  }

  /**
   * What `loadAndClearResourcesTask` adds to the registry `before`, giving
   * `after`: no earlier task changes; each unload is polled under a fresh id of
   * `unloadIds` for the futures from `base` on, with no completion closure;
   * each load under a fresh id of `loadIds` for the futures after those,
   * counting `join` down; and the batch's checker runs on every tick under
   * the fresh positive `checkerId`.
   */
  ghost predicate BatchesStarted(before: map<int, TaskRecord<AssetClosure>>, after: map<int, TaskRecord<AssetClosure>>,
                                 base: nat, unloadIds: seq<int>, join: BatchJoin, loadIds: seq<int>, checkerId: int, now: int)
  {
    && Extends(before, after)
    && (forall i :: 0 <= i < |unloadIds| ==> unloadIds[i] !in before)
    && (forall i :: 0 <= i < |loadIds| ==> loadIds[i] !in before)
    && ItemsRecorded(after, unloadIds, base, None, now)
    && ItemsRecorded(after, loadIds, base + |unloadIds|, Some(CountDown(join)), now)
    && checkerId > 0 && checkerId !in before && checkerId in after
    && after[checkerId] == TaskRecord(checkerId, Run(CheckBatch(join)), 0, 0, now, true)
  }

  /** Starting the unloads (`before` to `middle`), then the loads (`middle` to `after`), starts both batches. */
  lemma UnloadsThenLoads(before: map<int, TaskRecord<AssetClosure>>, middle: map<int, TaskRecord<AssetClosure>>,
                         after: map<int, TaskRecord<AssetClosure>>, base: nat, loadBase: nat,
                         unloadIds: seq<int>, join: BatchJoin, loadIds: seq<int>, checkerId: int, now: int)
    requires Extends(before, middle) && Extends(middle, after)
    requires forall i :: 0 <= i < |unloadIds| ==> unloadIds[i] !in before
    requires ItemsRecorded(middle, unloadIds, base, None, now)
    requires forall i :: 0 <= i < |loadIds| ==> loadIds[i] !in middle
    requires ItemsRecorded(after, loadIds, loadBase, Some(CountDown(join)), now) && loadBase == base + |unloadIds|
    requires checkerId > 0 && checkerId !in middle && checkerId in after
    requires after[checkerId] == TaskRecord(checkerId, Run(CheckBatch(join)), 0, 0, now, true)
    ensures BatchesStarted(before, after, base, unloadIds, join, loadIds, checkerId, now)
  {
    ItemsStayRecorded(middle, after, unloadIds, base, None, now);
    forall i | 0 <= i < |loadIds|
      ensures loadIds[i] !in before
    {
      assert loadIds[i] !in middle;
    }
  }

  /**
   * The state one `loadResourcesAsync` call shares between its closures: the
   * requests, the result array the loads fill in, the `AtomicInteger` counter
   * `value`, and the `AtomicInteger` holding the checker's task id.
   */
  class BatchJoin {
    const requests: seq<ResourceRequest>
    const result: array<Option<LoadedResource>>
    /** The caller's `onComplete`, an opaque token. */
    const onComplete: nat
    var value: int
    var taskId: int
    /** How many items have reported completion. */
    ghost var completions: nat

    ghost predicate Valid()
      reads this
    {
      && result.Length == |requests|
      && value == |requests| - completions
      && taskId >= 0
    }

    constructor (requests: seq<ResourceRequest>, onComplete: nat)
      ensures Valid()
      ensures this.requests == requests && this.onComplete == onComplete
      ensures completions == 0 && value == |requests| && taskId == 0
      ensures fresh(result) && forall i :: 0 <= i < result.Length ==> result[i].None?
    {
      this.requests := requests;
      this.onComplete := onComplete;
      result := new Option<LoadedResource>[|requests|](_ => None);
      value := |requests|;
      taskId := 0;
      completions := 0;
    }

    /** `value.getAndDecrement()`: one more item has finished. */
    method GetAndDecrement() returns (previous: int)
      requires Valid()
      modifies this
      ensures Valid()
      ensures previous == old(value) && value == old(value) - 1
      ensures completions == old(completions) + 1 && taskId == old(taskId)
    {
      previous := value;
      value := value - 1;
      completions := completions + 1;
    }
  }

  class GameAssetManager {
    var loadedResources: map<Path, Asset>
    const resourceFactories: seq<Factory>
    const taskScheduler: MappedTaskScheduler<AssetClosure>
    /** The bundled files, by location. */
    const assetFiles: map<string, Bytes>
    /** The locations handed to a factory's `readResource`, in call order. */
    ghost var readCalls: seq<string>
    /** The calls of a factory's `unloadResource`, in call order. */
    ghost var unloadCalls: seq<UnloadEvent>

    ghost predicate Valid()
      reads taskScheduler, taskScheduler.systemResourceManager
    {
      taskScheduler.Valid()
    }

    constructor (factories: seq<Factory>, taskScheduler: MappedTaskScheduler<AssetClosure>, assetFiles: map<string, Bytes>)
      requires taskScheduler.Valid()
      ensures Valid()
      ensures resourceFactories == factories && this.taskScheduler == taskScheduler && this.assetFiles == assetFiles
      ensures loadedResources == map[] && readCalls == [] && unloadCalls == []
    {
      loadedResources := map[];
      resourceFactories := factories;
      this.taskScheduler := taskScheduler;
      this.assetFiles := assetFiles;
      readCalls := [];
      unloadCalls := [];
    }

    /** `getResourceFactory(type)`: search the factories in order. */
    method GetResourceFactory(t: AssetType) returns (factory: Option<Factory>)
      ensures factory == FactoryFor(resourceFactories, t)
    {
      for i := 0 to |resourceFactories|
        invariant FactoryFor(resourceFactories[i..], t) == FactoryFor(resourceFactories, t)
      {
        if resourceFactories[i].resourceType == t {
          return Some(resourceFactories[i]);
        }
        assert resourceFactories[i..][1..] == resourceFactories[i + 1..];
      }
      return None;
    }

    /** The private `loadResource(path, factory)`. */
    method LoadResourceWith(resourcePath: Path, factory: Option<Factory>) returns (resource: Option<Asset>)
      modifies this`loadedResources, this`readCalls
      ensures var o := Load(old(loadedResources), assetFiles, factory, resourcePath);
        && resource == o.result
        && loadedResources == o.cache
        && readCalls == old(readCalls) + ReadLocations(o, resourcePath)
    {
      if factory.None? {
        return None;
      }
      if resourcePath in loadedResources {
        var cached := loadedResources[resourcePath];
        if factory.value.IsResourceInstanceOfType(cached) {
          return Some(cached);
        } else {
          return None;
        }
      }
      var normalizedResourcePath := NormalizeResourcePath(resourcePath);
      normalizedResourcePath := "/assets/" + normalizedResourcePath;
      if normalizedResourcePath !in assetFiles {
        return None;
      }
      readCalls := readCalls + [normalizedResourcePath];
      resource := factory.value.ReadResource(assetFiles[normalizedResourcePath]);
      if resource.None? {
        return None;
      }
      loadedResources := loadedResources[resourcePath := resource.value];
    }

    /** `loadResource(type, path)`: load with the factory for `type`. */
    method LoadResource(t: AssetType, resourcePath: Path) returns (resource: Option<Asset>)
      modifies this`loadedResources, this`readCalls
      ensures var o := Load(old(loadedResources), assetFiles, FactoryFor(resourceFactories, t), resourcePath);
        && resource == o.result
        && loadedResources == o.cache
        && readCalls == old(readCalls) + ReadLocations(o, resourcePath)
    {
      var factory := GetResourceFactory(t);
      resource := LoadResourceWith(resourcePath, factory);
    }

    /** `loadResources(type, paths)`: one factory search, then each path in order into a fresh array. */
    method LoadResources(t: AssetType, resourcePaths: seq<Path>) returns (result: array<LoadedResource>)
      modifies this`loadedResources, this`readCalls
      ensures fresh(result)
      ensures var b := LoadAll(old(loadedResources), assetFiles, FactoryFor(resourceFactories, t), resourcePaths);
        && result[..] == b.results
        && loadedResources == b.cache
        && readCalls == old(readCalls) + b.readLocations
    {
      var factory := GetResourceFactory(t);
      result := new LoadedResource[|resourcePaths|];
      for x := 0 to |resourcePaths|
        invariant var b := LoadAll(old(loadedResources), assetFiles, factory, resourcePaths[..x]);
          && result[..x] == b.results
          && loadedResources == b.cache
          && readCalls == old(readCalls) + b.readLocations
      {
        LoadAllStep(old(loadedResources), assetFiles, factory, resourcePaths, x, old(readCalls));
        var loadedResource := LoadResourceWith(resourcePaths[x], factory);
        result[x] := LoadedResource(resourcePaths[x], loadedResource);
        assert result[..x + 1] == result[..x] + [result[x]];
      }
      assert resourcePaths[..|resourcePaths|] == resourcePaths;
    }

    /** `unloadResource(path)`. */
    method UnloadResource(resourcePath: Path)
      modifies this`loadedResources, this`unloadCalls
      ensures var o := Unload(old(loadedResources), resourceFactories, resourcePath);
        && loadedResources == o.cache
        && unloadCalls == old(unloadCalls) + o.Calls()
    {
      if resourcePath !in loadedResources {
        return;
      }
      var resource := loadedResources[resourcePath];
      var factory := GetResourceFactory(resource.kind);
      if factory.None? {
        return;
      }
      unloadCalls := unloadCalls + [UnloadEvent(factory.value.resourceType, resource)];
      loadedResources := loadedResources - {resourcePath};
    }

    /** `unloadResources(paths)`: unload each path in order. */
    method UnloadResources(resourcePaths: seq<Path>)
      modifies this`loadedResources, this`unloadCalls
      ensures loadedResources == UnloadAll(old(loadedResources), resourceFactories, resourcePaths).0
      ensures unloadCalls == old(unloadCalls) + UnloadAll(old(loadedResources), resourceFactories, resourcePaths).1
    {
      for i := 0 to |resourcePaths|
        invariant loadedResources == UnloadAll(old(loadedResources), resourceFactories, resourcePaths[..i]).0
        invariant unloadCalls == old(unloadCalls) + UnloadAll(old(loadedResources), resourceFactories, resourcePaths[..i]).1
      {
        assert resourcePaths[..i + 1][..i] == resourcePaths[..i];
        UnloadResource(resourcePaths[i]);
      }
      assert resourcePaths[..|resourcePaths|] == resourcePaths;
    }

    /** `getResource(type, path)`. */
    method GetResource(t: AssetType, resourcePath: Path) returns (resource: Option<Asset>)
      ensures resource == Lookup(loadedResources, resourceFactories, t, resourcePath)
    {
      if resourcePath in loadedResources {
        var factory := GetResourceFactory(t);
        var cached := loadedResources[resourcePath];
        if factory.Some? && factory.value.IsResourceInstanceOfType(cached) {
          return Some(cached);
        }
      }
      return None;
    }

    /**
     * The loop `loadResourcesAsync` and `unloadResourcesAsync` share: each of
     * `work`, in order, goes to `scheduleAsynchronousTask` with `completion` as
     * its completion closure. `itemIds` are the ids the polls were given.
     */
    method SchedulePolled(work: seq<AssetClosure>, completion: Option<AssetClosure>, now: int)
      returns (ghost itemIds: seq<int>)
      requires Valid()
      requires |taskScheduler.waitingTasks| + |work| < INT_MAX
      modifies taskScheduler, taskScheduler.systemResourceManager
      ensures Valid()
      ensures |taskScheduler.waitingTasks| == old(|taskScheduler.waitingTasks|) + |work|
      ensures Extends(old(taskScheduler.Tasks()), taskScheduler.Tasks())
      ensures taskScheduler.systemResourceManager.submitted == old(taskScheduler.systemResourceManager.submitted) + work
      ensures taskScheduler.systemResourceManager.completed
           == old(taskScheduler.systemResourceManager.completed) + Unfinished(|work|)
      ensures |itemIds| == |work|
      ensures forall i :: 0 <= i < |itemIds| ==> itemIds[i] !in old(taskScheduler.Tasks())
      ensures ItemsRecorded(taskScheduler.Tasks(), itemIds, old(|taskScheduler.systemResourceManager.completed|), completion, now)
    {
      ghost var base := |taskScheduler.systemResourceManager.completed|;
      ghost var queued := taskScheduler.systemResourceManager.submitted;
      ghost var done := taskScheduler.systemResourceManager.completed;
      ghost var tasks0 := taskScheduler.Tasks();
      ghost var added: map<int, TaskRecord<AssetClosure>> := map[];
      itemIds := [];
      for x := 0 to |work|
        invariant Valid()
        invariant |taskScheduler.waitingTasks| == old(|taskScheduler.waitingTasks|) + x
        invariant taskScheduler.Tasks() == tasks0 + added
        invariant forall id :: id in added ==> id !in tasks0
        invariant taskScheduler.systemResourceManager.submitted == queued + work[..x]
        invariant taskScheduler.systemResourceManager.completed == done + Unfinished(x)
        invariant |itemIds| == x
        invariant ItemsRecorded(added, itemIds, base, completion, now)
      {
        ghost var tasks := taskScheduler.Tasks();
        ghost var handle := |taskScheduler.systemResourceManager.completed|;
        var id := taskScheduler.ScheduleAsynchronousTask(work[x], completion, now);
        ghost var record := PollRecord(id, TaskFuture(handle), completion, now);
        ghost var after := taskScheduler.Tasks();
        assert after == tasks[id := record];
        assert id !in tasks0 && id !in added;
        UpdateUnion(tasks0, added, id, record);
        RecordItem(added, itemIds, base, completion, now, id, handle);
        added := added[id := record];
        itemIds := itemIds + [id];
        AppendNext(queued, work, x);
        UnfinishedAppend(done, x);
      }
      assert work[..|work|] == work;
      ItemsStayRecorded(added, tasks0 + added, itemIds, base, completion, now);
      forall i | 0 <= i < |itemIds|
        ensures itemIds[i] !in tasks0
      {
        assert itemIds[i] in added;
      }
    }

    /**
     * `unloadResourcesAsync(paths)`: one background unload per path, in order,
     * each polled under a fresh negative id of its own with no completion closure.
     */
    method UnloadResourcesAsync(resourcePaths: seq<Path>, now: int) returns (ghost itemIds: seq<int>)
      requires Valid()
      requires |taskScheduler.waitingTasks| + |resourcePaths| < INT_MAX
      modifies taskScheduler, taskScheduler.systemResourceManager
      ensures Valid()
      ensures |taskScheduler.waitingTasks| == old(|taskScheduler.waitingTasks|) + |resourcePaths|
      ensures Extends(old(taskScheduler.Tasks()), taskScheduler.Tasks())
      ensures taskScheduler.systemResourceManager.submitted
           == old(taskScheduler.systemResourceManager.submitted) + UnloadWork(resourcePaths)
      ensures taskScheduler.systemResourceManager.completed
           == old(taskScheduler.systemResourceManager.completed) + Unfinished(|resourcePaths|)
      ensures |itemIds| == |resourcePaths|
      ensures forall i :: 0 <= i < |itemIds| ==> itemIds[i] !in old(taskScheduler.Tasks())
      ensures ItemsRecorded(taskScheduler.Tasks(), itemIds, old(|taskScheduler.systemResourceManager.completed|), None, now)
    {
      itemIds := SchedulePolled(UnloadWork(resourcePaths), None, now);
    }

    /** The checker of a batch, repeating on every tick; its id goes into `join.taskId`. */
    method ScheduleChecker(join: BatchJoin, now: int)
      requires Valid() && join.Valid()
      requires |taskScheduler.waitingTasks| < INT_MAX
      modifies taskScheduler, join`taskId
      ensures Valid() && join.Valid()
      ensures |taskScheduler.waitingTasks| == old(|taskScheduler.waitingTasks|) + 1
      ensures join.taskId > 0 && join.taskId !in old(taskScheduler.Tasks())
      ensures taskScheduler.Tasks()
           == old(taskScheduler.Tasks())[join.taskId := TaskRecord(join.taskId, Run(CheckBatch(join)), 0, 0, now, true)]
    {
      var checkerId := taskScheduler.ScheduleRepeatingSynchronousTask(CheckBatch(join), 0, now);
      join.taskId := checkerId;
    }

    /**
     * `loadResourcesAsync(requests, onComplete)`: a counter set to the number of
     * requests, one background load per request whose completion counts the
     * counter down, and a checker that repeats on every tick.
     */
    method LoadResourcesAsync(resourcePaths: seq<ResourceRequest>, onComplete: nat, now: int)
      returns (join: BatchJoin, ghost itemIds: seq<int>)
      requires Valid()
      requires |taskScheduler.waitingTasks| + |resourcePaths| < INT_MAX
      modifies taskScheduler, taskScheduler.systemResourceManager
      ensures Valid()
      ensures fresh(join) && fresh(join.result)
      ensures join.Valid() && join.requests == resourcePaths && join.onComplete == onComplete
      ensures join.completions == 0 && forall i :: 0 <= i < join.result.Length ==> join.result[i].None?
      ensures taskScheduler.systemResourceManager.submitted
           == old(taskScheduler.systemResourceManager.submitted) + LoadWork(join, |resourcePaths|)
      ensures |itemIds| == |resourcePaths|
      ensures forall i :: 0 <= i < |itemIds| ==> itemIds[i] !in old(taskScheduler.Tasks())
      ensures ItemsRecorded(taskScheduler.Tasks(), itemIds, old(|taskScheduler.systemResourceManager.completed|), Some(CountDown(join)), now)
      ensures taskScheduler.systemResourceManager.completed
           == old(taskScheduler.systemResourceManager.completed) + Unfinished(|resourcePaths|)
      ensures Extends(old(taskScheduler.Tasks()), taskScheduler.Tasks())
      ensures join.taskId > 0 && join.taskId !in old(taskScheduler.Tasks()) && join.taskId in taskScheduler.Tasks()
      ensures taskScheduler.Tasks()[join.taskId] == TaskRecord(join.taskId, Run(CheckBatch(join)), 0, 0, now, true)
      ensures |taskScheduler.waitingTasks| == old(|taskScheduler.waitingTasks|) + |resourcePaths| + 1
    {
      ghost var base := |taskScheduler.systemResourceManager.completed|;
      join := new BatchJoin(resourcePaths, onComplete);
      itemIds := SchedulePolled(LoadWork(join, |resourcePaths|), Some(CountDown(join)), now);
      ghost var loaded := taskScheduler.Tasks();
      ScheduleChecker(join, now);
      ghost var checked := taskScheduler.Tasks();
      assert Extends(loaded, checked);
      ItemsStayRecorded(loaded, checked, itemIds, base, Some(CountDown(join)), now);
    }

    /** The background load of item `index` of a batch: search, load, and fill in its result slot. */
    method RunLoadItem(join: BatchJoin, index: nat)
      requires join.Valid() && index < |join.requests|
      modifies this`loadedResources, this`readCalls, join.result
      ensures var request := join.requests[index];
        var o := Load(old(loadedResources), assetFiles, FactoryFor(resourceFactories, request.resourceType), request.resourceId);
        && loadedResources == o.cache
        && readCalls == old(readCalls) + ReadLocations(o, request.resourceId)
        && join.result[..] == old(join.result[..])[index := Some(LoadedResource(request.resourceId, o.result))]
    {
      var factory := GetResourceFactory(join.requests[index].resourceType);
      var loadedResource := LoadResourceWith(join.requests[index].resourceId, factory);
      join.result[index] := Some(LoadedResource(join.requests[index].resourceId, loadedResource));
    }

    /**
     * The checker of a batch: once every item has counted down, cancel its own
     * task and hand back the caller's `onComplete`; before that, do nothing.
     */
    method RunCheckBatch(join: BatchJoin) returns (callback: Option<nat>)
      requires Valid() && join.Valid()
      modifies taskScheduler
      ensures Valid()
      ensures taskScheduler.nextTaskId == old(taskScheduler.nextTaskId)
      ensures callback.Some? <==> join.completions >= |join.requests|
      ensures callback.Some? ==>
        && callback.value == join.onComplete
        && taskScheduler.Tasks() == old(taskScheduler.Tasks()) - {join.taskId}
        && join.taskId !in taskScheduler.Tasks()
      ensures callback.None? ==> taskScheduler.Tasks() == old(taskScheduler.Tasks())
    {
      if join.value <= 0 {
        taskScheduler.CancelTask(join.taskId);
        callback := Some(join.onComplete);
      } else {
        callback := None;
      }
    }

    /**
     * The loop of `loadAndClearResourcesTask`: every cached path starts in the
     * unload set; a request for one still there, not already among the loads,
     * keeps it, and every other request is loaded.
     */
    method SplitRequests(requiredResourcePaths: seq<ResourceRequest>)
      returns (resourcesToDelete: set<Path>, resourcesToLoad: set<ResourceRequest>)
      ensures (resourcesToDelete, resourcesToLoad) == Reconcile(loadedResources.Keys, requiredResourcePaths)
    {
      resourcesToDelete := loadedResources.Keys;
      resourcesToLoad := {};
      for i := 0 to |requiredResourcePaths|
        invariant (resourcesToDelete, resourcesToLoad) == Reconcile(loadedResources.Keys, requiredResourcePaths[..i])
      {
        assert requiredResourcePaths[..i + 1][..i] == requiredResourcePaths[..i];
        var resourceRequest := requiredResourcePaths[i];
        if resourceRequest.resourceId in resourcesToDelete
          && !RequestSetContains(resourcesToLoad, StringRef(resourceRequest.resourceId))
        {
          resourcesToDelete := resourcesToDelete - {resourceRequest.resourceId};
        } else {
          resourcesToLoad := resourcesToLoad + {resourceRequest};
        }
      }
      assert requiredResourcePaths[..|requiredResourcePaths|] == requiredResourcePaths;
    }

    /**
     * The last two statements of `loadAndClearResourcesTask`: both sets are
     * listed, the unloads are started first, then the batch of loads.
     */
    method UnloadThenLoadAsync(resourcesToDelete: set<Path>, resourcesToLoad: set<ResourceRequest>, onComplete: nat, now: int)
      returns (ghost deleted: seq<Path>, ghost unloadIds: seq<int>, join: BatchJoin, ghost loadIds: seq<int>)
      requires Valid()
      requires |taskScheduler.waitingTasks| + |resourcesToDelete| + |resourcesToLoad| < INT_MAX
      modifies taskScheduler, taskScheduler.systemResourceManager
      ensures Valid()
      ensures (forall p :: p in deleted <==> p in resourcesToDelete) && Distinct(deleted)
      ensures (forall q :: q in join.requests <==> q in resourcesToLoad) && Distinct(join.requests)
      ensures fresh(join) && join.Valid() && join.onComplete == onComplete && join.completions == 0
      ensures taskScheduler.systemResourceManager.submitted
           == old(taskScheduler.systemResourceManager.submitted) + UnloadWork(deleted) + LoadWork(join, |join.requests|)
      ensures fresh(join.result) && forall i :: 0 <= i < join.result.Length ==> join.result[i].None?
      ensures taskScheduler.systemResourceManager.completed
           == old(taskScheduler.systemResourceManager.completed) + Unfinished(|deleted|) + Unfinished(|join.requests|)
      ensures |taskScheduler.waitingTasks| == old(|taskScheduler.waitingTasks|) + |deleted| + |join.requests| + 1
      ensures |unloadIds| == |deleted| && |loadIds| == |join.requests|
      ensures BatchesStarted(old(taskScheduler.Tasks()), taskScheduler.Tasks(), old(|taskScheduler.systemResourceManager.completed|),
                             unloadIds, join, loadIds, join.taskId, now)
    {
      ghost var base := |taskScheduler.systemResourceManager.completed|;
      ghost var before := taskScheduler.Tasks();
      var toDelete := ToSequence(resourcesToDelete);
      var toLoad := ToSequence(resourcesToLoad);
      deleted := toDelete;
      unloadIds := UnloadResourcesAsync(toDelete, now);
      ghost var loadBase := |taskScheduler.systemResourceManager.completed|;
      ghost var middle := taskScheduler.Tasks();
      join, loadIds := LoadResourcesAsync(toLoad, onComplete, now);
      ghost var after := taskScheduler.Tasks();
      UnloadsThenLoads(before, middle, after, base, loadBase, unloadIds, join, loadIds, join.taskId, now);
    }

    /**
     * `loadAndClearResourcesTask(requests, onComplete)`: split the requests into
     * cached paths to unload and requests to load, then start both in the
     * background. `deleted` is the order the unload set was listed in;
     * `unloadIds` and `loadIds` are the ids the two kinds of polls were given.
     */
    method LoadAndClearResourcesTask(requiredResourcePaths: seq<ResourceRequest>, onComplete: nat, now: int)
      returns (ghost deleted: seq<Path>, ghost unloadIds: seq<int>, join: BatchJoin, ghost loadIds: seq<int>)
      requires Valid()
      requires |taskScheduler.waitingTasks| + |loadedResources| + |requiredResourcePaths| < INT_MAX
      modifies taskScheduler, taskScheduler.systemResourceManager
      ensures Valid()
      ensures (forall p :: p in deleted <==> p in Reconcile(loadedResources.Keys, requiredResourcePaths).0) && Distinct(deleted)
      ensures (forall q :: q in join.requests <==> q in Reconcile(loadedResources.Keys, requiredResourcePaths).1) && Distinct(join.requests)
      ensures fresh(join) && join.Valid() && join.onComplete == onComplete && join.completions == 0
      ensures taskScheduler.systemResourceManager.submitted
           == old(taskScheduler.systemResourceManager.submitted) + UnloadWork(deleted) + LoadWork(join, |join.requests|)
      ensures fresh(join.result) && forall i :: 0 <= i < join.result.Length ==> join.result[i].None?
      ensures taskScheduler.systemResourceManager.completed
           == old(taskScheduler.systemResourceManager.completed) + Unfinished(|deleted|) + Unfinished(|join.requests|)
      ensures |taskScheduler.waitingTasks| == old(|taskScheduler.waitingTasks|) + |deleted| + |join.requests| + 1
      ensures |unloadIds| == |deleted| && |loadIds| == |join.requests|
      ensures BatchesStarted(old(taskScheduler.Tasks()), taskScheduler.Tasks(), old(|taskScheduler.systemResourceManager.completed|),
                             unloadIds, join, loadIds, join.taskId, now)
    {
      var resourcesToDelete, resourcesToLoad := SplitRequests(requiredResourcePaths);
      SubsetSize(resourcesToDelete, loadedResources.Keys);
      deleted, unloadIds, join, loadIds := UnloadThenLoadAsync(resourcesToDelete, resourcesToLoad, onComplete, now);
    }
  }

}
