/**
 * What `GameAssetManager` does to its cache, on values.
 *
 * The cache maps the path a caller asked for to the asset that was decoded for
 * it. Factories are searched by the type they produce; each one decides which
 * assets count as instances of its type and how a file's bytes decode. The
 * game's bundled files are a map from their location ("/assets/...") to their
 * bytes. The class in `AssetManager` is proved against these functions.
 */
module AssetCache {
  import opened Wrappers
  import opened PathUtils

  type Path = string
  type Bytes = seq<bv8>

  /** The Java class of an asset. */
  datatype AssetType = AssetType(className: string)

  /** A decoded asset: its concrete class, and which decoded object it is. */
  datatype Asset = Asset(kind: AssetType, instance: nat)

  /**
   * A `GameAssetFactory`: the type it produces, the classes its
   * `isResourceInstanceOfType` accepts, and its `readResource` as a finite
   * table from file contents to the decoded asset (contents not in the table
   * fail to decode).
   */
  datatype Factory = Factory(resourceType: AssetType, accepts: set<AssetType>, decoding: map<Bytes, Asset>)
  {
    predicate IsResourceInstanceOfType(a: Asset)
    {
      a.kind in accepts
    }

    function ReadResource(content: Bytes): Option<Asset>
    {
      if content in decoding then Some(decoding[content]) else None
    }

    /**
     * A well-behaved factory: its `isResourceInstanceOfType` accepts its own
     * type and everything its `readResource` decodes. Each factory implements
     * that test itself, so this is an assumption about factories, not
     * something the language enforces.
     */
    ghost predicate WellTyped()
    {
      && resourceType in accepts
      && forall content :: content in decoding ==> IsResourceInstanceOfType(decoding[content])
    }
  }

  /** `ResourceRequest(resourceType, resourceId)`: a path together with the type to load it as. */
  datatype ResourceRequest = ResourceRequest(resourceType: AssetType, resourceId: Path)

  /** `LoadedResource(resourceId, resource)`: one entry of a batch load's result. */
  datatype LoadedResource = LoadedResource(resourceId: Path, resource: Option<Asset>)

  // ---------------------------------------------------------------------------
  // Factory lookup
  // ---------------------------------------------------------------------------

  /** `getResourceFactory`: the first factory, in list order, whose type is `t`. */
  function FactoryFor(factories: seq<Factory>, t: AssetType): (r: Option<Factory>)
    ensures r.None? <==> forall i :: 0 <= i < |factories| ==> factories[i].resourceType != t
    ensures r.Some? ==> exists i :: (0 <= i < |factories| && factories[i] == r.value
      && forall j :: 0 <= j < i ==> factories[j].resourceType != t)
    ensures r.Some? ==> r.value.resourceType == t
  {
    if |factories| == 0 then None
    else if factories[0].resourceType == t then Some(factories[0])
    else
      var rest := FactoryFor(factories[1..], t);
      assert forall i :: 1 <= i < |factories| ==> factories[i] == factories[1..][i - 1];
      rest
  }

  // ---------------------------------------------------------------------------
  // Loading
  // ---------------------------------------------------------------------------

  /** Where the bundled file for `path` is looked up: `"/assets/" + normalizeResourcePath(path)`. */
  function AssetLocation(path: Path): (location: string)
    ensures |location| >= 8 && location[..8] == "/assets/"
    ensures location[8..] == NormalizeResourcePath(path)
    ensures '\\' !in location[8..]
  {
    var normalized := NormalizeResourcePath(path);
    assert ("/assets/" + normalized)[8..] == normalized;
    "/assets/" + normalized
  }

  /**
   * One leading separator of either kind, and backslashes in place of slashes,
   * do not change which file is read, although each spelling is its own cache key.
   */
  lemma SpellingsShareOneFile(p: Path)
    requires |p| == 0 || !IsSeparator(p[0])
    ensures AssetLocation("/" + p) == AssetLocation(p)
    ensures AssetLocation("\\" + p) == AssetLocation(p)
    ensures AssetLocation(ReplaceBackslashes(p)) == AssetLocation(p)
  {
    NormalizeSkipsOneSeparator('/', p);
    NormalizeSkipsOneSeparator('\\', p);
    NormalizeAfterReplace(p);
  }

  lemma NormalizeSkipsOneSeparator(c: char, p: Path)
    requires IsSeparator(c)
    requires |p| == 0 || !IsSeparator(p[0])
    ensures NormalizeResourcePath([c] + p) == NormalizeResourcePath(p)
  {
    var s := [c] + p;
    var a, b := NormalizeResourcePath(s), NormalizeResourcePath(p);
    forall i | 0 <= i < |a|
      ensures a[i] == b[i]
    {
      assert s[i + 1] == p[i];
    }
  }

  lemma NormalizeAfterReplace(p: Path)
    requires |p| == 0 || !IsSeparator(p[0])
    ensures NormalizeResourcePath(ReplaceBackslashes(p)) == NormalizeResourcePath(p)
  {
    var q := ReplaceBackslashes(p);
    var a, b := NormalizeResourcePath(q), NormalizeResourcePath(p);
    assert |q| == 0 || !IsSeparator(q[0]);
    forall i | 0 <= i < |a|
      ensures a[i] == b[i]
    {
      assert q[i] == Forward(p[i]);
    }
  }

  /** The outcome of one `loadResource(path, factory)` call. */
  datatype LoadOutcome = LoadOutcome(result: Option<Asset>, cache: map<Path, Asset>, readCalled: bool)

  /**
   * The ladder of `loadResource(path, factory)`: no factory; already cached (as
   * an accepted type or not); no bundled file; the file does not decode; and
   * success, which caches the asset under the path as given.
   */
  function Load(cache: map<Path, Asset>, files: map<string, Bytes>, factory: Option<Factory>, path: Path): (o: LoadOutcome)
    ensures factory.None? ==> o.result.None? && o.cache == cache && !o.readCalled
    ensures factory.Some? && path in cache ==>
      && o.cache == cache && !o.readCalled
      && (o.result.Some? <==> factory.value.IsResourceInstanceOfType(cache[path]))
      && (o.result.Some? ==> o.result.value == cache[path])
    ensures factory.Some? && path !in cache ==>
      && (o.readCalled <==> AssetLocation(path) in files)
      && (o.result.Some? <==> o.readCalled && factory.value.ReadResource(files[AssetLocation(path)]).Some?)
      && (o.result.Some? ==> o.cache == cache[path := o.result.value]
                             && o.result == factory.value.ReadResource(files[AssetLocation(path)]))
      && (o.result.None? ==> o.cache == cache)
  {
    if factory.None? then LoadOutcome(None, cache, false)
    else if path in cache then
      var resource := cache[path];
      if factory.value.IsResourceInstanceOfType(resource) then LoadOutcome(Some(resource), cache, false)
      else LoadOutcome(None, cache, false)
    else
      var location := AssetLocation(path);
      if location !in files then LoadOutcome(None, cache, false)
      else
        var resource := factory.value.ReadResource(files[location]);
        if resource.None? then LoadOutcome(None, cache, true)
        else LoadOutcome(resource, cache[path := resource.value], true)
  }

  /** Loading never evicts or replaces a cached entry; at most the requested path is added. */
  lemma LoadOnlyAdds(cache: map<Path, Asset>, files: map<string, Bytes>, factory: Option<Factory>, path: Path)
    ensures var o := Load(cache, files, factory, path);
      && cache.Keys <= o.cache.Keys <= cache.Keys + {path}
      && forall p :: p in cache ==> o.cache[p] == cache[p]
  {
  }

  /** The locations handed to `readResource` by one load. */
  function ReadLocations(o: LoadOutcome, path: Path): seq<string>
  {
    if o.readCalled then [AssetLocation(path)] else []
  }

  /** The outcome of `loadResources`: one entry per path, the cache afterwards, and the locations read. */
  datatype BatchOutcome = BatchOutcome(results: seq<LoadedResource>, cache: map<Path, Asset>, readLocations: seq<string>)

  /** `loadResources(type, paths)`: load the paths in order with one factory. */
  function LoadAll(cache: map<Path, Asset>, files: map<string, Bytes>, factory: Option<Factory>, paths: seq<Path>): (b: BatchOutcome)
    ensures |b.results| == |paths|
    ensures forall i :: 0 <= i < |paths| ==> b.results[i].resourceId == paths[i]
    ensures cache.Keys <= b.cache.Keys
    ensures forall p :: p in cache ==> b.cache[p] == cache[p]
  {
    if |paths| == 0 then BatchOutcome([], cache, [])
    else
      var before := LoadAll(cache, files, factory, paths[..|paths| - 1]);
      var last := paths[|paths| - 1];
      var o := Load(before.cache, files, factory, last);
      LoadOnlyAdds(before.cache, files, factory, last);
      assert forall i :: 0 <= i < |paths| - 1 ==> paths[..|paths| - 1][i] == paths[i];
      BatchOutcome(before.results + [LoadedResource(last, o.result)], o.cache, before.readLocations + ReadLocations(o, last))
  }

  /** One more path extends a batch by that path's load, after whatever was read before the batch. */
  lemma LoadAllStep(cache: map<Path, Asset>, files: map<string, Bytes>, factory: Option<Factory>, paths: seq<Path>, x: nat,
                    readBefore: seq<string>)
    requires x < |paths|
    ensures var b := LoadAll(cache, files, factory, paths[..x]);
      var o := Load(b.cache, files, factory, paths[x]);
      var next := LoadAll(cache, files, factory, paths[..x + 1]);
      && next.results == b.results + [LoadedResource(paths[x], o.result)]
      && next.cache == o.cache
      && readBefore + next.readLocations == (readBefore + b.readLocations) + ReadLocations(o, paths[x])
  {
    assert paths[..x + 1][..x] == paths[..x];
  }

  /** Without a factory nothing loads and the cache is untouched. */
  lemma {:induction false} LoadAllWithoutFactory(cache: map<Path, Asset>, files: map<string, Bytes>, paths: seq<Path>)
    ensures LoadAll(cache, files, None, paths).cache == cache
    ensures forall i :: 0 <= i < |paths| ==> LoadAll(cache, files, None, paths).results[i].resource.None?
  {
    if |paths| > 0 {
      LoadAllWithoutFactory(cache, files, paths[..|paths| - 1]);
    }
  }

  /** A batch of already cached paths of an accepted type returns the cached assets and changes nothing. */
  lemma {:induction false} LoadAllCached(cache: map<Path, Asset>, files: map<string, Bytes>, factory: Factory, paths: seq<Path>)
    requires forall i :: 0 <= i < |paths| ==> paths[i] in cache && factory.IsResourceInstanceOfType(cache[paths[i]])
    ensures LoadAll(cache, files, Some(factory), paths).cache == cache
    ensures forall i :: 0 <= i < |paths| ==> LoadAll(cache, files, Some(factory), paths).results[i].resource == Some(cache[paths[i]])
  {
    if |paths| > 0 {
      LoadAllCached(cache, files, factory, paths[..|paths| - 1]);
    }
  }

  // ---------------------------------------------------------------------------
  // Lookup
  // ---------------------------------------------------------------------------

  /** `getResource(type, path)`: the cached asset, when a factory for the type accepts it. */
  function Lookup(cache: map<Path, Asset>, factories: seq<Factory>, t: AssetType, path: Path): (r: Option<Asset>)
    ensures r.Some? <==> path in cache && FactoryFor(factories, t).Some?
                         && FactoryFor(factories, t).value.IsResourceInstanceOfType(cache[path])
    ensures r.Some? ==> r.value == cache[path]
  {
    if path in cache then
      var factory := FactoryFor(factories, t);
      var resource := cache[path];
      if factory.Some? && factory.value.IsResourceInstanceOfType(resource) then Some(resource) else None
    else None
  }

  /** What a successful load returned is what `getResource` then finds, for a well-typed factory. */
  lemma LoadThenLookup(cache: map<Path, Asset>, files: map<string, Bytes>, factories: seq<Factory>, t: AssetType, path: Path)
    requires FactoryFor(factories, t).Some? && FactoryFor(factories, t).value.WellTyped()
    requires Load(cache, files, FactoryFor(factories, t), path).result.Some?
    ensures Lookup(Load(cache, files, FactoryFor(factories, t), path).cache, factories, t, path)
         == Load(cache, files, FactoryFor(factories, t), path).result
  {
    var factory := FactoryFor(factories, t).value;
    if path !in cache {
      var content := files[AssetLocation(path)];
      assert content in factory.decoding;
    }
  }

  // ---------------------------------------------------------------------------
  // Unloading
  // ---------------------------------------------------------------------------

  /** A call of a factory's `unloadResource`. */
  datatype UnloadEvent = UnloadEvent(factoryType: AssetType, asset: Asset)

  datatype UnloadOutcome = UnloadOutcome(cache: map<Path, Asset>, unloaded: Option<UnloadEvent>)
  {
    /** The factory calls made: none, or the one unload. */
    function Calls(): seq<UnloadEvent>
    {
      if unloaded.Some? then [unloaded.value] else []
    }
  }

  /**
   * `unloadResource(path)`: nothing for an uncached path; nothing when no
   * factory is registered for the asset's concrete class; otherwise that
   * factory unloads the asset and the entry goes.
   */
  function Unload(cache: map<Path, Asset>, factories: seq<Factory>, path: Path): (o: UnloadOutcome)
    ensures path !in cache ==> o == UnloadOutcome(cache, None)
    ensures path in cache && FactoryFor(factories, cache[path].kind).None? ==> o == UnloadOutcome(cache, None)
    ensures path in cache && FactoryFor(factories, cache[path].kind).Some? ==>
      && o.cache == cache - {path}
      && o.unloaded == Some(UnloadEvent(cache[path].kind, cache[path]))
  {
    if path !in cache then UnloadOutcome(cache, None)
    else
      var resource := cache[path];
      var factory := FactoryFor(factories, resource.kind);
      if factory.None? then UnloadOutcome(cache, None)
      else UnloadOutcome(cache - {path}, Some(UnloadEvent(factory.value.resourceType, resource)))
  }

  /** Whether `unloadResource` can remove the entry under `path`. */
  predicate Unloadable(cache: map<Path, Asset>, factories: seq<Factory>, path: Path)
  {
    path in cache && FactoryFor(factories, cache[path].kind).Some?
  }

  /** `unloadResources(paths)`: unload the paths in order; the cache afterwards and the factory calls made. */
  function UnloadAll(cache: map<Path, Asset>, factories: seq<Factory>, paths: seq<Path>): (r: (map<Path, Asset>, seq<UnloadEvent>))
  {
    if |paths| == 0 then (cache, [])
    else
      var before := UnloadAll(cache, factories, paths[..|paths| - 1]);
      var o := Unload(before.0, factories, paths[|paths| - 1]);
      (o.cache, before.1 + o.Calls())
  }

  /** The cached paths among `paths` that `unloadResource` can remove. */
  ghost function Removable(cache: map<Path, Asset>, factories: seq<Factory>, paths: seq<Path>): set<Path>
  {
    set p | p in cache && p in paths && Unloadable(cache, factories, p)
  }

  /**
   * After `unloadResources(paths)` exactly the entries named by some path and
   * with a factory for their class are gone; the others are untouched, and the
   * factories were called once per removed entry, each call unloading the
   * asset of a removed entry and every removed entry's asset unloaded.
   */
  lemma {:induction false} UnloadAllRemovesExactly(cache: map<Path, Asset>, factories: seq<Factory>, paths: seq<Path>)
    ensures UnloadAll(cache, factories, paths).0 == cache - Removable(cache, factories, paths)
    ensures |UnloadAll(cache, factories, paths).1| == |Removable(cache, factories, paths)|
    ensures forall e :: e in UnloadAll(cache, factories, paths).1 ==>
      exists p :: p in Removable(cache, factories, paths) && e == UnloadEvent(cache[p].kind, cache[p])
    ensures forall p :: p in Removable(cache, factories, paths) ==>
      UnloadEvent(cache[p].kind, cache[p]) in UnloadAll(cache, factories, paths).1
  {
    if |paths| > 0 {
      var init := paths[..|paths| - 1];
      var last := paths[|paths| - 1];
      UnloadAllRemovesExactly(cache, factories, init);
      var gone := Removable(cache, factories, init);
      var before := UnloadAll(cache, factories, init);
      var o := Unload(before.0, factories, last);
      var calls := before.1 + o.Calls();
      assert UnloadAll(cache, factories, paths) == (o.cache, calls);
      assert paths == init + [last];
      RemovableStep(cache, factories, init, last);
      if Unloadable(before.0, factories, last) {
        var event := UnloadEvent(cache[last].kind, cache[last]);
        assert o.cache == before.0 - {last} == cache - (gone + {last});
        assert o.Calls() == [event];
        assert |gone + {last}| == |gone| + 1;
        forall e | e in calls
          ensures exists p :: p in gone + {last} && e == UnloadEvent(cache[p].kind, cache[p])
        {
          if e !in before.1 {
            assert e == event;
          }
        }
        assert event in calls;
      } else {
        assert o.cache == before.0 && o.Calls() == [] && calls == before.1;
      }
    }
  }

  /** One more path adds itself to the removable set exactly when it can still be unloaded. */
  lemma RemovableStep(cache: map<Path, Asset>, factories: seq<Factory>, init: seq<Path>, last: Path)
    requires UnloadAll(cache, factories, init).0 == cache - Removable(cache, factories, init)
    ensures var gone := Removable(cache, factories, init);
      if Unloadable(UnloadAll(cache, factories, init).0, factories, last)
      then last !in gone && Removable(cache, factories, init + [last]) == gone + {last}
      else Removable(cache, factories, init + [last]) == gone
  {
    var gone := Removable(cache, factories, init);
    var before := UnloadAll(cache, factories, init).0;
    assert forall p :: p in init + [last] <==> p in init || p == last;
    if Unloadable(before, factories, last) {
      assert last !in gone && before[last] == cache[last];
    }
  }

  // ---------------------------------------------------------------------------
  // Reconciliation
  // ---------------------------------------------------------------------------

  /** A Java reference compared by `Collection.contains(Object)`: a request, or a string. */
  datatype Ref = RequestRef(request: ResourceRequest) | StringRef(text: string)

  /**
   * `Set<ResourceRequest>.contains(o)`: some element equals `o`. A request never
   * equals a string, so asked about a resource id the answer is always no.
   */
  predicate RequestSetContains(toLoad: set<ResourceRequest>, o: Ref)
  {
    o.RequestRef? && o.request in toLoad
  }

  /** One turn of the loop of `loadAndClearResourcesTask`, as written. */
  function ReconcileStep(toDelete: set<Path>, toLoad: set<ResourceRequest>, request: ResourceRequest): (set<Path>, set<ResourceRequest>)
  {
    if request.resourceId in toDelete && !RequestSetContains(toLoad, StringRef(request.resourceId)) then
      (toDelete - {request.resourceId}, toLoad)
    else
      (toDelete, toLoad + {request})
  }

  /**
   * `loadAndClearResourcesTask`: starting from every cached path to delete and
   * nothing to load, visit the requests in order; a request whose path is still
   * to be deleted is kept, any other is to be loaded.
   */
  function Reconcile(cached: set<Path>, requests: seq<ResourceRequest>): (r: (set<Path>, set<ResourceRequest>))
    ensures r.0 <= cached
    ensures |r.1| <= |requests|
  {
    if |requests| == 0 then (cached, {})
    else
      var before := Reconcile(cached, requests[..|requests| - 1]);
      ReconcileStep(before.0, before.1, requests[|requests| - 1])
  }

  /** The paths named by some request. */
  ghost function RequestedPaths(requests: seq<ResourceRequest>): set<Path>
  {
    set i | 0 <= i < |requests| :: requests[i].resourceId
  }

  /** Request `k` is to be loaded: its path was not cached, or an earlier request already named it. */
  ghost predicate LoadsAt(cached: set<Path>, requests: seq<ResourceRequest>, k: int)
    requires 0 <= k < |requests|
  {
    requests[k].resourceId !in cached || exists j :: 0 <= j < k && requests[j].resourceId == requests[k].resourceId
  }

  /** The unload set is the cached paths that no request names. */
  lemma {:induction false} ReconcileUnloadsUnrequested(cached: set<Path>, requests: seq<ResourceRequest>)
    ensures Reconcile(cached, requests).0 == cached - RequestedPaths(requests)
  {
    if |requests| > 0 {
      var init := requests[..|requests| - 1];
      ReconcileUnloadsUnrequested(cached, init);
      assert RequestedPaths(requests) == RequestedPaths(init) + {requests[|requests| - 1].resourceId} by {
        assert forall i :: 0 <= i < |init| ==> init[i] == requests[i];
      }
    }
  }

  /** The load set holds exactly the requests at positions where `LoadsAt` holds. */
  lemma {:induction false} ReconcileLoadsExactly(cached: set<Path>, requests: seq<ResourceRequest>)
    ensures forall r :: r in Reconcile(cached, requests).1 <==>
      exists k :: 0 <= k < |requests| && requests[k] == r && LoadsAt(cached, requests, k)
  {
    if |requests| > 0 {
      var n := |requests| - 1;
      var init, last := requests[..n], requests[n];
      var before := Reconcile(cached, init);
      ReconcileLoadsExactly(cached, init);
      LastRequestLoads(cached, requests);
      assert Reconcile(cached, requests).1 == if last.resourceId in before.0 then before.1 else before.1 + {last};
      forall r
        ensures r in Reconcile(cached, requests).1 <==>
          exists k :: 0 <= k < |requests| && requests[k] == r && LoadsAt(cached, requests, k)
      {
        if r in before.1 {
          var k :| 0 <= k < n && init[k] == r && LoadsAt(cached, init, k);
          PrefixLoadsAt(cached, requests, n, k);
        }
        if exists k :: 0 <= k < |requests| && requests[k] == r && LoadsAt(cached, requests, k) {
          var k :| 0 <= k < |requests| && requests[k] == r && LoadsAt(cached, requests, k);
          if k < n {
            PrefixLoadsAt(cached, requests, n, k);
            assert init[k] == r;
          }
        }
      }
    }
  }

  /** Whether request `k` loads depends only on the requests up to `k`. */
  lemma PrefixLoadsAt(cached: set<Path>, requests: seq<ResourceRequest>, n: int, k: int)
    requires 0 <= k < n <= |requests|
    ensures requests[..n][k] == requests[k]
    ensures LoadsAt(cached, requests[..n], k) <==> LoadsAt(cached, requests, k)
  {
    var init := requests[..n];
    if LoadsAt(cached, requests, k) && requests[k].resourceId in cached {
      var j :| 0 <= j < k && requests[j].resourceId == requests[k].resourceId;
      assert init[j] == requests[j];
    }
  }

  /** The last request loads exactly when its path is no longer among those to delete. */
  lemma LastRequestLoads(cached: set<Path>, requests: seq<ResourceRequest>)
    requires |requests| > 0
    ensures var n := |requests| - 1;
      LoadsAt(cached, requests, n) <==> requests[n].resourceId !in Reconcile(cached, requests[..n]).0
  {
    var n := |requests| - 1;
    var init, last := requests[..n], requests[n];
    ReconcileUnloadsUnrequested(cached, init);
    if last.resourceId in RequestedPaths(init) {
      var j :| 0 <= j < |init| && init[j].resourceId == last.resourceId;
      assert requests[j].resourceId == last.resourceId;
    }
    if exists j :: 0 <= j < n && requests[j].resourceId == last.resourceId {
      var j :| 0 <= j < n && requests[j].resourceId == last.resourceId;
      assert init[j].resourceId == last.resourceId;
    }
  }

  /** A path that is cached and requested exactly once is neither unloaded nor loaded again. */
  lemma KeptPathIsLeftAlone(cached: set<Path>, requests: seq<ResourceRequest>, k: int)
    requires 0 <= k < |requests| && requests[k].resourceId in cached
    requires forall j :: 0 <= j < |requests| && j != k ==> requests[j].resourceId != requests[k].resourceId
    ensures requests[k].resourceId !in Reconcile(cached, requests).0
    ensures forall r :: r in Reconcile(cached, requests).1 ==> r.resourceId != requests[k].resourceId
  {
    ReconcileUnloadsUnrequested(cached, requests);
    ReconcileLoadsExactly(cached, requests);
    forall r | r in Reconcile(cached, requests).1
      ensures r.resourceId != requests[k].resourceId
    {
      var i :| 0 <= i < |requests| && requests[i] == r && LoadsAt(cached, requests, i);
      assert i != k;
    }
  }

  /** A second request for a cached path lands in the load set. */
  lemma RepeatedCachedRequestIsLoaded(cached: set<Path>, requests: seq<ResourceRequest>, j: int, k: int)
    requires 0 <= j < k < |requests| && requests[j].resourceId == requests[k].resourceId
    ensures requests[k] in Reconcile(cached, requests).1
  {
    ReconcileLoadsExactly(cached, requests);
    assert LoadsAt(cached, requests, k);
  }

  /** The same loop with a test that really looks for the path among the requests to load. */
  function ReconcileByPath(cached: set<Path>, requests: seq<ResourceRequest>): (r: (set<Path>, set<ResourceRequest>))
    ensures r.0 <= cached
  {
    if |requests| == 0 then (cached, {})
    else
      var before := ReconcileByPath(cached, requests[..|requests| - 1]);
      var request := requests[|requests| - 1];
      if request.resourceId in before.0 && !(exists q :: q in before.1 && q.resourceId == request.resourceId) then
        (before.0 - {request.resourceId}, before.1)
      else
        (before.0, before.1 + {request})
  }

  /**
   * The test on the load set at line 251 never decides anything: a path still
   * to be deleted is never the path of a request to load, so looking for the
   * path properly gives the same two sets.
   */
  lemma {:induction false} ContainsTestIsRedundant(cached: set<Path>, requests: seq<ResourceRequest>)
    ensures ReconcileByPath(cached, requests) == Reconcile(cached, requests)
    ensures forall q :: q in Reconcile(cached, requests).1 ==> q.resourceId !in Reconcile(cached, requests).0
  {
    if |requests| > 0 {
      ContainsTestIsRedundant(cached, requests[..|requests| - 1]);
    }
  }

  /** Cached {A, B}, requests [B, C]: A is unloaded, C is loaded, B is kept. */
  lemma ReconcileScenario(t: AssetType)
    ensures Reconcile({"A", "B"}, [ResourceRequest(t, "B"), ResourceRequest(t, "C")])
         == ({"A"}, {ResourceRequest(t, "C")})
  {
    var b, c := ResourceRequest(t, "B"), ResourceRequest(t, "C");
    assert [b, c][..1] == [b] && [b][..0] == [];
    assert Reconcile({"A", "B"}, []) == ({"A", "B"}, {});
    assert Reconcile({"A", "B"}, [b]) == ReconcileStep({"A", "B"}, {}, b);
    assert {"A", "B"} - {"B"} == {"A"};
    assert Reconcile({"A", "B"}, [b, c]) == ReconcileStep({"A"}, {}, c);
    assert c.resourceId !in {"A"};
    assert ReconcileStep({"A"}, {}, c) == ({"A"}, {} + {c});
    assert {} + {c} == {c};
  }
}
