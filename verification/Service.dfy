/**
 The authorization service as the object it is: stores that are created on first use, a schema
 cache and a check cache.  Every method is proved to answer as if it had no caches.
 */
module Service {
  import opened Common
  import opened Tuples
  import opened Schemas
  import opened Checking
  import opened Expansion
  import opened Store
  import opened Memory
  import opened Isolation
  import opened StoreReaders
  import opened CheckEngines
  import opened ExpandEngines
  import opened Sorting
  import opened Parser
  import opened Validation
  import opened Gc
  import opened Lookup
  import opened ServiceSpec
  import opened ServiceRuns

  class InMemoryStoreFactory {
    var stores: map<TenantId, InMemoryStore>

    /** Every store is valid and no two tenants share one. */
    ghost predicate Valid()
      reads this, stores.Values
    {
      && (forall t :: t in stores ==> stores[t].Valid())
      && (forall t, u :: t in stores && u in stores && t != u ==> stores[t] != stores[u])
    }

    function States(): World
      reads this, stores.Values
    {
      map t | t in stores :: stores[t].State()
    }

    constructor ()
      ensures Valid() && stores == map[]
    {
      stores := map[];
    }

    method ForTenant(t: TenantId) returns (store: InMemoryStore)
      requires Valid()
      modifies this
      ensures Valid() && t in stores && store == stores[t]
      ensures t in old(stores) ==> stores == old(stores)
      ensures t !in old(stores) ==> fresh(store) && stores == old(stores)[t := store]
      ensures Get(States(), t) == Get(old(States()), t) && store.State() == Get(States(), t)
      ensures States() == old(States())[t := Get(old(States()), t)]
    {
      hide WellFormed, Represents;
      if t !in stores {
        var created := new InMemoryStore();
        stores := stores[t := created];
      }
      store := stores[t];
    }
  }

  // ----- What a cache entry promises, as facts about one store -----

  ghost predicate SchemaEntryHolds(config: Config, st: StoreState, schema: Schema) {
    LoadSchema(config, st) == Ok(schema)
  }

  ghost predicate CheckEntryHolds(config: Config, st: StoreState, k: CheckCacheKey, allowed: bool) {
    && st.currentTx < U64_MAX && k.snapshot <= st.currentTx && LoadSchema(config, st).Ok?
    && Check(EngineAt(config, st, LoadSchema(config, st).value, Some(k.snapshot)), k.goal, k.who) == Ok(allowed)
  }

  /** Writes to the tuples alone, by whatever route, leave the entries true. */
  lemma EntriesSurvive(config: Config, a: StoreState, b: StoreState, k: CheckCacheKey, allowed: bool)
    requires Later(a, b) && b.schema == a.schema && b.currentTx < U64_MAX
    requires CheckEntryHolds(config, a, k, allowed)
    ensures CheckEntryHolds(config, b, k, allowed)
  {
    PinnedCheckIsFrozen(a, b, Some(k.snapshot), LoadSchema(config, a).value, config.maxDepth, k.goal, k.who);
  }

  /** Both caches hold only what the stores would answer. */
  ghost predicate CachesHold(config: Config, w: World, schemas: map<TenantId, Schema>, checks: map<CheckCacheKey, bool>) {
    && (forall t :: t in schemas ==> SchemaEntryHolds(config, Get(w, t), schemas[t]))
    && (forall k :: k in checks ==> CheckEntryHolds(config, Get(w, k.tenant), k, checks[k]))
  }

  ghost predicate Same(a: World, b: World) {
    forall t :: Get(a, t) == Get(b, t)
  }

  lemma CachesSame(config: Config, a: World, b: World, schemas: map<TenantId, Schema>, checks: map<CheckCacheKey, bool>)
    requires Same(a, b) && CachesHold(config, a, schemas, checks)
    ensures CachesHold(config, b, schemas, checks)
  {
    hide CheckEntryHolds, SchemaEntryHolds;
  }

  /** A change of one store's tuples leaves all cached schemas true. */
  lemma SchemasSurvive(config: Config, w: World, t: TenantId, st: StoreState, schemas: map<TenantId, Schema>, checks: map<CheckCacheKey, bool>)
    requires CachesHold(config, w, schemas, checks) && st.schema == Get(w, t).schema
    ensures CachesHold(config, w[t := st], schemas, map[])
  {
    hide SchemaOf, CheckEntryHolds;
    forall u | u in schemas ensures SchemaEntryHolds(config, Get(w[t := st], u), schemas[u]) {
      assert SchemaEntryHolds(config, Get(w, u), schemas[u]);
    }
  }

  /** A new schema text is harmless once the tenant's cached schema and all cached checks are gone. */
  lemma ForgettingHolds(config: Config, w: World, t: TenantId, st: StoreState, schemas: map<TenantId, Schema>, checks: map<CheckCacheKey, bool>)
    requires CachesHold(config, w, schemas, checks)
    ensures CachesHold(config, w[t := st], schemas - {t}, map[])
  {
    hide SchemaEntryHolds, CheckEntryHolds;
  }

  /** Later versions of one store's tuples leave both caches true. */
  lemma CachesSurvive(config: Config, w: World, t: TenantId, st: StoreState, schemas: map<TenantId, Schema>, checks: map<CheckCacheKey, bool>)
    requires CachesHold(config, w, schemas, checks)
    requires Later(Get(w, t), st) && st.schema == Get(w, t).schema && st.currentTx < U64_MAX
    ensures CachesHold(config, w[t := st], schemas, checks)
  {
    hide CheckEntryHolds, Later;
    SchemasSurvive(config, w, t, st, schemas, checks);
    forall k | k in checks ensures CheckEntryHolds(config, Get(w[t := st], k.tenant), k, checks[k]) {
      if k.tenant == t { EntriesSurvive(config, Get(w, t), st, k, checks[k]); }
    }
  }

  lemma StoreStaysInRange(store: InMemoryStore)
    requires store.Valid()
    ensures store.currentTx < U64_MAX
  {
  }

  /** A check without any cache. */
  function Compute(config: Config, st: StoreState, snapshot: Option<nat>, goal: Key, who: Principal): Result<bool, ApiError> {
    match LoadSchema(config, st)
    case Err(x) => Err(x)
    case Ok(schema) =>
      match Check(EngineAt(config, st, schema, snapshot), goal, who)
      case Err(x) => Err(CheckFailed(x))
      case Ok(allowed) => Ok(allowed)
  }

  lemma ComputeIsAnswer(config: Config, st: StoreState, goal: Key, who: Principal, consistency: Consistency)
    ensures AnswerCheck(config, st, goal, who, consistency) ==
              match Compute(config, st, ResolveSnapshot(st, consistency), goal, who)
              case Ok(allowed) => Checked(allowed, ResolveSnapshot(st, consistency))
              case Err(x) => Failed(x)
  {
    hide Check, LoadSchema;
  }

  /** A cached answer is the one that would be computed. */
  lemma EntryIsAnswer(config: Config, st: StoreState, k: CheckCacheKey, allowed: bool)
    requires CheckEntryHolds(config, st, k, allowed)
    ensures Compute(config, st, Some(k.snapshot), k.goal, k.who) == Ok(allowed)
  {
    hide Check, LoadSchema;
  }

  /** A successful check at an explicit snapshot may be cached under that snapshot. */
  lemma AnswerMayBeCached(config: Config, st: StoreState, k: CheckCacheKey, allowed: bool)
    requires WellFormed(st) && Compute(config, st, Some(k.snapshot), k.goal, k.who) == Ok(allowed)
    ensures CheckEntryHolds(config, st, k, allowed)
  {
    hide Check, LoadSchema;
    LoadedSchemasAreGood(config, st);
    if k.snapshot > st.currentTx { FutureSnapshotsAreRefused(config, st, LoadSchema(config, st).value, k.snapshot, k.goal, k.who); }
  }

  class AuthzService {
    const config: Config
    const factory: InMemoryStoreFactory
    var schemaCache: map<TenantId, Schema>
    var checkCache: map<CheckCacheKey, bool>

    constructor (config: Config, factory: InMemoryStoreFactory)
      requires factory.Valid()
      ensures Valid() && this.config == config && this.factory == factory
    {
      this.config, this.factory := config, factory;
      schemaCache, checkCache := map[], map[];
    }

    ghost function Repr(): set<object>
      reads this, factory
    {
      {this, factory} + factory.stores.Values
    }

    ghost predicate Valid()
      reads this, factory, factory.stores.Values
    {
      && factory.Valid()
      && CachesHold(config, factory.States(), schemaCache, checkCache)
    }

    /** What a request of tenant `t` leaves behind: its store in state `st`, all others as they were, and caches that hold. */
    twostate predicate Leaves(new t: TenantId, new st: StoreState)
      reads this, factory, factory.stores.Values
    {
      && Valid()
      && (forall o | o in Repr() :: o in old(Repr()) || fresh(o))
      && Same(factory.States(), old(factory.States())[t := st])
    }

    /** The snapshot that a consistency asks for; only full consistency has to ask the store. */
    method SnapshotFor(store: InMemoryStore, consistency: Consistency) returns (snapshot: Option<nat>)
      requires store.Valid()
      ensures snapshot == ResolveSnapshot(store.State(), consistency)
      ensures consistency == FullConsistency ==> snapshot == Some(|store.history| - 1)
    {
      hide WellFormed, Represents;
      match consistency
      case FullConsistency =>
        var token := store.Snapshot();
        snapshot := Some(token);
      case MinimizeLatency => snapshot := None;
      case AtLeastAsFresh(token) => snapshot := Some(token);
      case AtExactSnapshot(token) => snapshot := Some(token);
    }

    /** The tenant's store, created on first use; caches and answers are untouched by that. */
    method StoreOf(t: TenantId) returns (store: InMemoryStore)
      requires Valid()
      modifies factory
      ensures Leaves(t, Get(old(factory.States()), t))
      ensures t in factory.stores && store == factory.stores[t] && store in Repr()
      ensures store.State() == Get(old(factory.States()), t)
      ensures factory.States() == old(factory.States())[t := store.State()]
    {
      hide CheckEntryHolds, SchemaEntryHolds, WellFormed, Represents;
      ghost var w := factory.States();
      store := factory.ForTenant(t);
      CachesSame(config, w, factory.States(), schemaCache, checkCache);
    }

    method LoadSchemaCached(t: TenantId, store: InMemoryStore, ghost w: World) returns (r: Result<Schema, ApiError>)
      requires CachesHold(config, w, schemaCache, checkCache) && Get(w, t) == store.State()
      modifies this`schemaCache
      ensures r == LoadSchema(config, store.State())
      ensures CachesHold(config, w, schemaCache, checkCache)
    {
      hide SchemaOf, CheckEntryHolds;
      if t in schemaCache {
        return Ok(schemaCache[t]);
      }
      var text := store.ReadSchema();
      if text.None? { return Err(SchemaNotFound); }
      var parsed := ParseSchema(config.grammar(text.value));
      if parsed.Err? { return Err(ParseFailed(parsed.error)); }
      schemaCache := schemaCache[t := parsed.value];
      r := Ok(parsed.value);
    }

    method CheckPermission(t: TenantId, goal: Key, who: Principal, consistency: Consistency) returns (r: Response)
      requires Valid()
      modifies Repr()
      ensures Leaves(t, Get(old(factory.States()), t))
      ensures r == AnswerCheck(config, Get(old(factory.States()), t), goal, who, consistency)
    {
      hide CachesHold, Check, LoadSchema, AnswerCheck, CheckEntryHolds, SchemaEntryHolds, WellFormed, Represents;
      var store := StoreOf(t);
      r := CheckStore(t, store, goal, who, consistency);
    }

    /** The body of `CheckPermission` once the store is known. */
    method CheckStore(t: TenantId, store: InMemoryStore, goal: Key, who: Principal, consistency: Consistency) returns (r: Response)
      requires Valid() && t in factory.stores && store == factory.stores[t]
      modifies this`schemaCache, this`checkCache, store
      ensures Valid() && factory.States() == old(factory.States())
      ensures r == AnswerCheck(config, old(store.State()), goal, who, consistency)
    {
      hide CachesHold, Check, LoadSchema, WellFormed, Represents, Compute;
      var snapshot := SnapshotFor(store, consistency);
      ComputeIsAnswer(config, store.State(), goal, who, consistency);
      var result;
      // A check of the present is computed afresh: its snapshot has no name to cache it under.
      if snapshot.Some? {
        result := CheckAtSnapshot(t, store, snapshot.value, goal, who);
      } else {
        result := ComputeCheck(t, store, snapshot, goal, who);
      }
      r := match result case Ok(allowed) => Checked(allowed, snapshot) case Err(x) => Failed(x);
    }

    /** The cached path: look the answer up, or compute and remember it. */
    method CheckAtSnapshot(t: TenantId, store: InMemoryStore, snapshot: nat, goal: Key, who: Principal) returns (r: Result<bool, ApiError>)
      requires Valid() && t in factory.stores && store == factory.stores[t]
      modifies this`schemaCache, this`checkCache, store
      ensures Valid() && factory.States() == old(factory.States()) && store.State() == old(store.State())
      ensures r == Compute(config, store.State(), Some(snapshot), goal, who)
    {
      hide Check, LoadSchema, CheckEntryHolds, SchemaEntryHolds, WellFormed, Represents, Compute;
      assert Get(factory.States(), t) == store.State();
      var key := CheckCacheKey(t, goal, who, snapshot);
      if key in checkCache {
        EntryIsAnswer(config, store.State(), key, checkCache[key]);
        return Ok(checkCache[key]);
      }
      r := ComputeCheck(t, store, Some(snapshot), goal, who);
      if r.Ok? {
        AnswerMayBeCached(config, store.State(), key, r.value);
        checkCache := checkCache[key := r.value];
      }
    }

    /** Load the schema and run the engine: what a cache miss costs. */
    method ComputeCheck(t: TenantId, store: InMemoryStore, snapshot: Option<nat>, goal: Key, who: Principal) returns (r: Result<bool, ApiError>)
      requires Valid() && t in factory.stores && store == factory.stores[t]
      modifies this`schemaCache, store
      ensures Valid() && factory.States() == old(factory.States()) && store.State() == old(store.State())
      ensures r == Compute(config, store.State(), snapshot, goal, who)
    {
      hide CachesHold, Check, LoadSchema, CheckEntryHolds, SchemaEntryHolds, WellFormed, Represents;
      ghost var w := factory.States();
      assert Get(w, t) == store.State();
      var schema := LoadSchemaCached(t, store, w);
      if schema.Err? { return Err(schema.error); }
      var result := RunCheck(store, schema.value, snapshot, goal, who);
      r := match result case Ok(allowed) => Ok(allowed) case Err(x) => Err(CheckFailed(x));
    }

    /** One uninterrupted check: it leaves every store as it is. */
    method RunCheck(store: InMemoryStore, schema: Schema, snapshot: Option<nat>, goal: Key, who: Principal) returns (r: Outcome)
      requires factory.Valid() && store in factory.stores.Values
      modifies store
      ensures factory.Valid() && factory.States() == old(factory.States()) && store.State() == old(store.State())
      ensures r == Check(EngineAt(config, store.State(), schema, snapshot), goal, who)
    {
      var reader := new StoreTupleReader(store, snapshot, false);
      var engine := new CheckEngine(reader, schema, config.maxDepth);
      r := engine.Check(goal, who);
      assert store.State() == old(store.State());
      assert factory.States() == old(factory.States());
    }

    method ExpandPermissionTree(t: TenantId, goal: Key, consistency: Consistency) returns (r: Response)
      requires Valid()
      modifies Repr()
      ensures Leaves(t, Get(old(factory.States()), t))
      ensures r == AnswerExpand(config, Get(old(factory.States()), t), goal, consistency)
    {
      hide CachesHold, Expand, LoadSchema, AnswerExpand, CheckEntryHolds, SchemaEntryHolds, WellFormed, Represents;
      var store := StoreOf(t);
      r := ExpandStore(t, store, goal, consistency);
    }

    method ExpandStore(t: TenantId, store: InMemoryStore, goal: Key, consistency: Consistency) returns (r: Response)
      requires Valid() && t in factory.stores && store == factory.stores[t]
      modifies this`schemaCache, store
      ensures Valid() && factory.States() == old(factory.States())
      ensures r == AnswerExpand(config, old(store.State()), goal, consistency)
    {
      hide CachesHold, Expand, LoadSchema, WellFormed, Represents, CheckEntryHolds, SchemaEntryHolds;
      ghost var w := factory.States();
      assert Get(w, t) == store.State();
      var snapshot := SnapshotFor(store, consistency);
      var schema := LoadSchemaCached(t, store, w);
      if schema.Err? { return Failed(schema.error); }
      var tree := RunExpand(store, schema.value, snapshot, goal);
      r := match tree case Ok(root) => Expanded(root, snapshot) case Err(x) => Failed(CheckFailed(x));
    }

    /** One uninterrupted expansion: it leaves every store as it is. */
    method RunExpand(store: InMemoryStore, schema: Schema, snapshot: Option<nat>, goal: Key) returns (r: TreeOutcome)
      requires factory.Valid() && store in factory.stores.Values
      modifies store
      ensures factory.Valid() && factory.States() == old(factory.States()) && store.State() == old(store.State())
      ensures r == Expand(EngineAt(config, store.State(), schema, snapshot), goal)
    {
      var reader := new StoreTupleReader(store, snapshot, false);
      var engine := new ExpandEngine(reader, schema, config.maxDepth);
      r := engine.Expand(goal);
      assert store.State() == old(store.State());
      assert factory.States() == old(factory.States());
    }

    method LookupSubjects(t: TenantId, goal: Key, subjectType: string, consistency: Consistency) returns (r: Response)
      requires Valid()
      modifies Repr()
      ensures Leaves(t, Get(old(factory.States()), t))
      ensures r == match AnswerExpand(config, Get(old(factory.States()), t), goal, consistency)
                case Expanded(tree, snapshot) => SubjectsFound(SubjectList(tree, subjectType), snapshot)
                case other => other
    {
      hide CachesHold, AnswerExpand, CheckEntryHolds, SchemaEntryHolds, WellFormed, Represents, Sort, Dedup, CollectSubjects;
      var expanded := ExpandPermissionTree(t, goal, consistency);
      match expanded
      case Expanded(tree, snapshot) =>
        var subjects := CollectSubjectsInto(tree, subjectType, []);
        assert [] + CollectSubjects(tree, subjectType) == CollectSubjects(tree, subjectType);
        subjects := Sort(subjects, SubjectAtMost);
        subjects := Dedup(subjects);
        r := SubjectsFound(subjects, snapshot);
      case other => r := other;
    }

    method LookupResources(t: TenantId, resourceType: string, permission: string, who: Principal, consistency: Consistency, limit: Option<nat>)
      returns (r: Response)
      requires Valid()
      modifies Repr()
      ensures Leaves(t, Get(old(factory.States()), t))
      ensures r == AnswerLookupResources(config, Get(old(factory.States()), t), resourceType, permission, who, consistency, limit)
    {
      hide CachesHold, LoadSchema, AnswerLookupResources, CheckEntryHolds, SchemaEntryHolds, WellFormed, Represents;
      var store := StoreOf(t);
      r := LookupStore(t, store, resourceType, permission, who, consistency, limit);
    }

    method LookupStore(t: TenantId, store: InMemoryStore, resourceType: string, permission: string, who: Principal,
                       consistency: Consistency, limit: Option<nat>) returns (r: Response)
      requires Valid() && t in factory.stores && store == factory.stores[t]
      modifies this`schemaCache, store
      ensures Valid() && factory.States() == old(factory.States())
      ensures r == AnswerLookupResources(config, old(store.State()), resourceType, permission, who, consistency, limit)
    {
      hide CachesHold, LoadSchema, CheckEntryHolds, SchemaEntryHolds, WellFormed, Represents, Check, ObjectIds.ListObjectIds, Gather,
           ResolveSnapshot, LimitOr;
      var snapshot := SnapshotFor(store, consistency);
      var ids := store.ListObjectIds(resourceType, snapshot, None);
      if ids.Err? { return Failed(StorageFailed(ids.error)); }
      var found := GatherLoaded(t, store, snapshot, resourceType, permission, who, ids.value, LimitOr(limit));
      if found.Err? { return Failed(found.error); }
      r := ResourcesFound(found.value, snapshot);
    }

    /** Once the objects are listed: load the schema and check them. */
    method GatherLoaded(t: TenantId, store: InMemoryStore, snapshot: Option<nat>, resourceType: string, permission: string,
                        who: Principal, ids: seq<string>, limit: nat) returns (r: Result<seq<string>, ApiError>)
      requires Valid() && t in factory.stores && store == factory.stores[t]
      modifies this`schemaCache, store
      ensures Valid() && factory.States() == old(factory.States()) && store.State() == old(store.State())
      ensures r == match LoadSchema(config, store.State())
                case Err(x) => Err(x)
                case Ok(schema) =>
                  match Gather(EngineAt(config, store.State(), schema, snapshot), resourceType, permission, who, ids, limit)
                  case Err(x) => Err(CheckFailed(x))
                  case Ok(found) => Ok(found)
    {
      hide CachesHold, LoadSchema, CheckEntryHolds, SchemaEntryHolds, WellFormed, Represents, Check, Gather;
      ghost var w := factory.States();
      assert Get(w, t) == store.State();
      var schema := LoadSchemaCached(t, store, w);
      if schema.Err? { return Err(schema.error); }
      var found := GatherAllowed(store, schema.value, snapshot, resourceType, permission, who, ids, limit);
      r := match found case Ok(results) => Ok(results) case Err(x) => Err(CheckFailed(x));
    }

    /** The loop that checks one object after the other until enough are found. */
    method GatherAllowed(store: InMemoryStore, schema: Schema, snapshot: Option<nat>, resourceType: string, permission: string,
                         who: Principal, ids: seq<string>, limit: nat) returns (r: Result<seq<string>, CheckError>)
      requires factory.Valid() && store in factory.stores.Values
      modifies store
      ensures factory.Valid() && factory.States() == old(factory.States()) && store.State() == old(store.State())
      ensures r == Gather(EngineAt(config, store.State(), schema, snapshot), resourceType, permission, who, ids, limit)
    {
      hide Check, WellFormed, Represents;
      ghost var e := EngineAt(config, store.State(), schema, snapshot);
      var results: seq<string> := [];
      for i := 0 to |ids|
        invariant factory.Valid() && factory.States() == old(factory.States()) && store.State() == old(store.State())
        invariant Gather(e, resourceType, permission, who, ids[..i], limit) == Ok(results)
      {
        if |results| >= limit {
          GatherErrorSticks(e, resourceType, permission, who, ids, limit, i);
          return Ok(results);
        }
        assert ids[..i + 1][..i] == ids[..i];
        var result := RunCheck(store, schema, snapshot, Key(resourceType, ids[i], permission), who);
        if result.Err? {
          GatherErrorSticks(e, resourceType, permission, who, ids, limit, i + 1);
          return Err(result.error);
        }
        if result.value {
          results := results + [ids[i]];
        }
      }
      assert ids[..|ids|] == ids;
      r := Ok(results);
    }

    method ReadRelationships(t: TenantId, filter: TupleFilter, consistency: Consistency, limit: Option<nat>) returns (r: Response)
      requires Valid()
      modifies Repr()
      ensures Leaves(t, Get(old(factory.States()), t))
      ensures var st := Get(old(factory.States()), t);
              r == match Store.Read(st, filter, ResolveSnapshot(st, consistency), limit)
                case Ok(rows) => TuplesRead(rows, ResolveSnapshot(st, consistency)) case Err(x) => Failed(StorageFailed(x))
    {
      hide CachesHold, CheckEntryHolds, SchemaEntryHolds, WellFormed, Represents, Store.Read;
      var store := StoreOf(t);
      var snapshot := SnapshotFor(store, consistency);
      var rows := store.Read(filter, snapshot, limit);
      r := match rows case Ok(tuples) => TuplesRead(tuples, snapshot) case Err(x) => Failed(StorageFailed(x));
    }

    method ReadSchema(t: TenantId) returns (r: Response)
      requires Valid()
      modifies Repr()
      ensures Leaves(t, Get(old(factory.States()), t))
      ensures r == SchemaText(Get(old(factory.States()), t).schema)
    {
      hide CachesHold, CheckEntryHolds, SchemaEntryHolds, WellFormed, Represents;
      var store := StoreOf(t);
      var text := store.ReadSchema();
      r := SchemaText(text);
    }

    method WriteRelationships(t: TenantId, writes: seq<Tuple>, deletes: seq<TupleFilter>) returns (r: Response)
      requires Valid() && Get(factory.States(), t).currentTx + 1 < U64_MAX
      modifies Repr()
      ensures Leaves(t, Store.Write(Get(old(factory.States()), t), writes, deletes).0)
      ensures r == match Store.Write(Get(old(factory.States()), t), writes, deletes).1
                case Ok(token) => Written(token) case Err(x) => Failed(StorageFailed(x))
    {
      hide CachesHold, Same, CheckEntryHolds, SchemaEntryHolds, WellFormed, Represents, Store.Write;
      ghost var w := factory.States();
      var store := StoreOf(t);
      ghost var w1 := factory.States();
      r := WriteStore(t, store, writes, deletes);
      SameWhenUpdatedTwice(w, t, w1[t], factory.States()[t]);
    }

    method WriteStore(t: TenantId, store: InMemoryStore, writes: seq<Tuple>, deletes: seq<TupleFilter>) returns (r: Response)
      requires Valid() && t in factory.stores && store == factory.stores[t] && store.currentTx + 1 < U64_MAX
      modifies this`checkCache, store
      ensures Valid()
      ensures factory.States() == old(factory.States())[t := Store.Write(old(store.State()), writes, deletes).0]
      ensures r == match Store.Write(old(store.State()), writes, deletes).1
                case Ok(token) => Written(token) case Err(x) => Failed(StorageFailed(x))
    {
      hide CachesHold, CheckEntryHolds, SchemaEntryHolds, WellFormed, Represents, Store.Write, After, Later;
      ghost var w := factory.States();
      assert Get(w, t) == store.State();
      var token := RunWrite(t, store, writes, deletes);
      match token
      case Err(x) =>
        CachesSame(config, w, factory.States(), schemaCache, checkCache);
        r := Failed(StorageFailed(x));
      case Ok(tx) =>
        SchemasSurvive(config, w, t, store.State(), schemaCache, checkCache);
        checkCache := map[];
        r := Written(tx);
    }

    /** One transaction on one store: every other store stays as it is. */
    method RunWrite(t: TenantId, store: InMemoryStore, writes: seq<Tuple>, deletes: seq<TupleFilter>) returns (r: Result<nat, StorageError>)
      requires factory.Valid() && t in factory.stores && store == factory.stores[t] && store.currentTx + 1 < U64_MAX
      modifies store
      ensures factory.Valid() && factory.States() == old(factory.States())[t := store.State()]
      ensures (store.State(), r) == Store.Write(old(store.State()), writes, deletes)
      ensures store.schema == old(store.schema)
      ensures r.Err? ==> store.State() == old(store.State())
    {
      hide WellFormed, Represents, Store.Write, After, Later;
      r := store.Write(writes, deletes);
      assert factory.States() == old(factory.States())[t := store.State()];
    }

    /** The checks that need no store: the text must parse and stay within the limits. */
    method ParseWithinLimits(definition: string) returns (r: Result<Schema, ApiError>)
      ensures r.Ok? ==> SchemaOf(config.grammar(definition)) == Ok(r.value) && LimitErrors(r.value, config.limits) == []
      ensures r.Err? ==> forall st, force :: AnswerWriteSchema(config, st, definition, force) == (st, Failed(r.error))
    {
      hide SchemaOf, LimitErrors, WithinLimits;
      var parsed := ParseSchema(config.grammar(definition));
      if parsed.Err? { return Err(ParseFailed(parsed.error)); }
      var valid := ValidateSchemaLimits(parsed.value, config.limits);
      if valid.Err? { return Err(ValidationFailed(valid.error)); }
      r := Ok(parsed.value);
    }

    method WriteSchema(t: TenantId, definition: string, force: bool) returns (r: Response)
      requires Valid()
      modifies Repr()
      ensures Leaves(t, AnswerWriteSchema(config, Get(old(factory.States()), t), definition, force).0)
      ensures r == AnswerWriteSchema(config, Get(old(factory.States()), t), definition, force).1
    {
      hide CachesHold, Same, CheckEntryHolds, SchemaEntryHolds, WellFormed, Represents, SchemaOf, LimitErrors, AnswerWriteSchema;
      var schema := ParseWithinLimits(definition);
      match schema
      case Err(x) =>
        SameWithItself(factory.States(), t);
        r := Failed(x);
      case Ok(parsed) =>
        r := WriteParsedSchema(t, definition, parsed, force);
    }

    method WriteParsedSchema(t: TenantId, definition: string, schema: Schema, force: bool) returns (r: Response)
      requires Valid() && SchemaOf(config.grammar(definition)) == Ok(schema) && LimitErrors(schema, config.limits) == []
      modifies Repr()
      ensures Leaves(t, AnswerWriteSchema(config, Get(old(factory.States()), t), definition, force).0)
      ensures r == AnswerWriteSchema(config, Get(old(factory.States()), t), definition, force).1
    {
      hide CachesHold, Same, CheckEntryHolds, SchemaEntryHolds, WellFormed, Represents, SchemaOf, LimitErrors, AnswerWriteSchema;
      ghost var w := factory.States();
      var store := StoreOf(t);
      ghost var w1 := factory.States();
      r := ReplaceSchema(t, store, definition, schema, force);
      SameWhenUpdatedTwice(w, t, w1[t], factory.States()[t]);
    }

    /** The part of a schema write that needs the store: compare, store the text, drop what it makes stale. */
    method ReplaceSchema(t: TenantId, store: InMemoryStore, definition: string, schema: Schema, force: bool) returns (r: Response)
      requires Valid() && t in factory.stores && store == factory.stores[t]
      requires SchemaOf(config.grammar(definition)) == Ok(schema) && LimitErrors(schema, config.limits) == []
      modifies this`schemaCache, this`checkCache, store
      ensures Valid()
      ensures factory.States() == old(factory.States())[t := AnswerWriteSchema(config, old(store.State()), definition, force).0]
      ensures r == AnswerWriteSchema(config, old(store.State()), definition, force).1
    {
      hide CachesHold, CheckEntryHolds, SchemaEntryHolds, WellFormed, Represents, SchemaOf, LimitErrors, AnswerWriteSchema, LoadSchema;
      SameEntry(factory.States(), t);
      var existingText := store.ReadSchema();
      var overridden := CompareSchemas(existingText, definition, schema, force, store.State());
      if overridden.Err? { return Failed(overridden.error); }
      StoreSchema(t, store, definition);
      r := SchemaWritten(overridden.value);
    }

    /** What stands in the way of replacing the stored text, or whether force is what removes it. */
    method CompareSchemas(existingText: Option<string>, definition: string, schema: Schema, force: bool, ghost st: StoreState)
      returns (overridden: Result<bool, ApiError>)
      requires SchemaOf(config.grammar(definition)) == Ok(schema) && LimitErrors(schema, config.limits) == []
      requires st.schema == existingText
      ensures AnswerWriteSchema(config, st, definition, force)
           == match overridden case Ok(b) => (st.(schema := Some(definition)), SchemaWritten(b)) case Err(x) => (st, Failed(x))
    {
      hide SchemaOf, LimitErrors, TypeChanges, Happened;
      if existingText.None? { return Ok(false); }
      var oldSchema := ParseSchema(config.grammar(existingText.value));
      if oldSchema.Err? { return Err(ParseFailed(oldSchema.error)); }
      var breaking := DetectBreakingChanges(oldSchema.value, schema);
      if breaking != [] && !force { return Err(BreakingChangesFound(breaking)); }
      overridden := Ok(breaking != []);
    }

    /** The last steps of a schema write: store the text, then drop what it makes stale. */
    method StoreSchema(t: TenantId, store: InMemoryStore, definition: string)
      requires Valid() && t in factory.stores && store == factory.stores[t]
      modifies this`schemaCache, this`checkCache, store
      ensures Valid()
      ensures factory.States() == old(factory.States())[t := old(store.State()).(schema := Some(definition))]
    {
      hide CachesHold, CheckEntryHolds, SchemaEntryHolds, WellFormed, Represents;
      ghost var w := factory.States();
      store.WriteSchema(definition);
      assert factory.States() == w[t := store.State()];
      ForgettingHolds(config, w, t, store.State(), schemaCache, checkCache);
      schemaCache := schemaCache - {t};
      checkCache := map[];
    }

    /** Garbage collection goes straight to the store: nobody tells the caches. */
    method CollectGarbage(t: TenantId, schema: Schema) returns (r: Response)
      requires Valid() && Get(factory.States(), t).currentTx + 1 < U64_MAX
      modifies Repr()
      ensures Leaves(t, Cycle(Get(old(factory.States()), t), schema).0)
      ensures r == Collected(Cycle(Get(old(factory.States()), t), schema).1)
    {
      hide CachesHold, Same, CheckEntryHolds, SchemaEntryHolds, WellFormed, Represents, Cycle;
      ghost var w := factory.States();
      var store := StoreOf(t);
      ghost var w1 := factory.States();
      r := CollectStore(t, store, schema);
      SameWhenUpdatedTwice(w, t, w1[t], factory.States()[t]);
    }

    method CollectStore(t: TenantId, store: InMemoryStore, schema: Schema) returns (r: Response)
      requires Valid() && t in factory.stores && store == factory.stores[t] && store.currentTx + 1 < U64_MAX
      modifies store
      ensures Valid()
      ensures factory.States() == old(factory.States())[t := Cycle(old(store.State()), schema).0]
      ensures r == Collected(Cycle(old(store.State()), schema).1)
    {
      hide CachesHold, CheckEntryHolds, SchemaEntryHolds, WellFormed, Represents, Cycle, Later, IsOrphan;
      ghost var w := factory.States();
      assert Get(w, t) == store.State();
      var count, _ := RunGcCycle(store, schema, false);
      assert factory.States() == w[t := store.State()];
      StoreStaysInRange(store);
      CachesSurvive(config, w, t, store.State(), schemaCache, checkCache);
      r := Collected(count);
    }

    /** Time-outs and capacity may drop any entries at any time. */
    method Evict(tenants: set<TenantId>, keys: set<CheckCacheKey>)
      requires Valid()
      modifies this`schemaCache, this`checkCache
      ensures Valid()
    {
      hide CheckEntryHolds, SchemaEntryHolds, WellFormed, Represents;
      schemaCache := schemaCache - tenants;
      checkCache := checkCache - keys;
    }

    /** Any one request, as the handlers dispatch it. */
    method Handle(t: TenantId, request: Request) returns (r: Response)
      requires Valid() && Get(factory.States(), t).currentTx + 1 < U64_MAX
      modifies Repr()
      ensures Leaves(t, Answer(config, Get(old(factory.States()), t), request).0)
      ensures r == Answer(config, Get(old(factory.States()), t), request).1
    {
      hide CachesHold, CheckEntryHolds, SchemaEntryHolds, WellFormed, Represents,
           AnswerCheck, AnswerExpand, AnswerLookupResources, AnswerWriteSchema, Store.Write, Store.Read, Cycle, SubjectList;
      match request
      case CheckPermission(goal, who, consistency) => r := CheckPermission(t, goal, who, consistency);
      case ExpandPermissionTree(goal, consistency) => r := ExpandPermissionTree(t, goal, consistency);
      case WriteRelationships(writes, deletes) => r := WriteRelationships(t, writes, deletes);
      case ReadRelationships(filter, consistency, limit) => r := ReadRelationships(t, filter, consistency, limit);
      case WriteSchema(definition, force) => r := WriteSchema(t, definition, force);
      case ReadSchema => r := ReadSchema(t);
      case LookupSubjects(goal, subjectType, consistency) => r := LookupSubjects(t, goal, subjectType, consistency);
      case LookupResources(resourceType, permission, who, consistency, limit) =>
        r := LookupResources(t, resourceType, permission, who, consistency, limit);
      case CollectGarbage(schema) => r := CollectGarbage(t, schema);
    }

    /** One event, against a world that shows the same stores. */
    method ServeOne(event: Event, ghost w: World) returns (r: Response)
      requires Valid() && Same(factory.States(), w) && (event.Call? ==> Get(w, event.tenant).currentTx + 1 < U64_MAX)
      modifies Repr()
      ensures Valid() && forall o | o in Repr() :: o in old(Repr()) || fresh(o)
      ensures r == Step(config, w, event).1 && Same(factory.States(), Step(config, w, event).0)
    {
      hide CachesHold, CheckEntryHolds, SchemaEntryHolds, WellFormed, Represents, Answer;
      match event
      case Call(t, request) =>
        assert Get(factory.States(), t) == Get(w, t);
        r := Handle(t, request);
        SameAfterUpdate(old(factory.States()), factory.States(), w, t, Answer(config, Get(w, t), request).0);
      case EvictSchemas(tenants) =>
        Evict(tenants, {});
        r := Evicted;
      case EvictChecks(keys) =>
        Evict({}, keys);
        r := Evicted;
    }

    /**
     The main result about caches: over any run, with evictions at any point, every response is the uncached
     one.  So a tenant gets the responses, and is left with the store, of a service that it has to itself.
     */
    method Serve(events: seq<Event>) returns (responses: seq<Response>)
      requires Valid() && HasRoom(factory.States(), |events|)
      modifies Repr()
      ensures Valid()
      ensures responses == RunAll(config, old(factory.States()), events).1
      ensures Same(factory.States(), RunAll(config, old(factory.States()), events).0)
      ensures |responses| == |events|
      ensures forall t :: ResponsesTo(t, events, responses) == RunAll(config, old(factory.States()), Only(t, events)).1
      ensures forall t :: Get(factory.States(), t) == Get(RunAll(config, old(factory.States()), Only(t, events)).0, t)
    {
      hide CachesHold, CheckEntryHolds, SchemaEntryHolds, WellFormed, Represents, Step, RunAll, Only, ResponsesTo;
      ghost var w := factory.States();
      ghost var all := RunAll(config, w, events);
      responses := [];
      assert events[0..] == events;
      assert [] + all.1 == all.1;
      for i := 0 to |events|
        invariant Valid() && (forall o | o in Repr() :: o in old(Repr()) || fresh(o))
        invariant Same(factory.States(), w) && HasRoom(w, |events| - i)
        invariant all.0 == RunAll(config, w, events[i..]).0
        invariant all.1 == responses + RunAll(config, w, events[i..]).1
      {
        RunAllStep(config, w, events, i);
        StepKeepsRoom(config, w, events[i], |events| - i);
        var r := ServeOne(events[i], w);
        w := Step(config, w, events[i]).0;
        assert all.1 == (responses + [r]) + RunAll(config, w, events[i + 1..]).1;
        responses := responses + [r];
      }
      RunAllDone(config, w, events[|events|..]);
      assert responses + [] == responses;
      EachTenantAlone(config, old(factory.States()), events, responses, factory.States());
    }
  }

  lemma EachTenantAlone(config: Config, w: World, events: seq<Event>, responses: seq<Response>, after: World)
    requires responses == RunAll(config, w, events).1 && Same(after, RunAll(config, w, events).0)
    ensures |responses| == |events|
    ensures forall t :: ResponsesTo(t, events, responses) == RunAll(config, w, Only(t, events)).1
    ensures forall t :: Get(after, t) == Get(RunAll(config, w, Only(t, events)).0, t)
  {
    hide RunAll, Only, ResponsesTo;
    OneResponseEach(config, w, events);
    forall t
      ensures ResponsesTo(t, events, responses) == RunAll(config, w, Only(t, events)).1
      ensures Get(after, t) == Get(RunAll(config, w, Only(t, events)).0, t)
    {
      TenantsAreIndependent(config, w, w, t, events);
    }
  }

  /** Every tenant's store can take `n` more transactions. */
  ghost predicate HasRoom(w: World, n: nat) {
    forall t :: Get(w, t).currentTx + n < U64_MAX
  }

  lemma AnswerTakesOne(config: Config, st: StoreState, request: Request)
    ensures Answer(config, st, request).0.currentTx <= st.currentTx + 1
  {
    hide AnswerCheck, AnswerExpand, AnswerLookupResources, Store.Read, SubjectList, SchemaOf, LimitErrors, TypeChanges,
         InsertAll, MarkDeleted, Scan, Orphans, Filters;
    match request
    case WriteRelationships(_, _) =>
    case WriteSchema(_, _) =>
    case CollectGarbage(_) =>
    case _ =>
  }

  lemma StepKeepsRoom(config: Config, w: World, event: Event, n: nat)
    requires HasRoom(w, n) && n > 0
    ensures HasRoom(Step(config, w, event).0, n - 1)
    ensures event.Call? ==> Get(w, event.tenant).currentTx + 1 < U64_MAX
  {
    hide Answer;
    var w' := Step(config, w, event).0;
    forall t ensures Get(w', t).currentTx + (n - 1) < U64_MAX {
      assert Get(w, t).currentTx + n < U64_MAX;
      if event.Call? && t == event.tenant { AnswerTakesOne(config, Get(w, t), event.request); }
    }
    if event.Call? { assert Get(w, event.tenant).currentTx + n < U64_MAX; }
  }

  lemma SameEntry(w: World, t: TenantId)
    requires t in w
    ensures w[t := w[t]] == w
  {
  }

  lemma SameWithItself(w: World, t: TenantId)
    ensures Same(w, w[t := Get(w, t)])
  {
  }

  lemma SameWhenUpdatedTwice(w: World, t: TenantId, a: StoreState, b: StoreState)
    ensures Same(w[t := a][t := b], w[t := b])
  {
  }

  lemma SameAfterUpdate(a: World, b: World, w: World, t: TenantId, st: StoreState)
    requires Same(a, w) && Same(b, a[t := st])
    ensures Same(b, w[t := st])
  {
    forall u ensures Get(b, u) == Get(w[t := st], u) {
      assert Get(a, u) == Get(w, u) && Get(b, u) == Get(a[t := st], u);
    }
  }

  lemma RunAllDone(config: Config, w: World, none: seq<Event>)
    requires none == []
    ensures RunAll(config, w, none) == (w, [])
  {
  }

  lemma RunAllStep(config: Config, w: World, events: seq<Event>, i: nat)
    requires i < |events|
    ensures var (w', r) := Step(config, w, events[i]);
            && RunAll(config, w, events[i..]).0 == RunAll(config, w', events[i + 1..]).0
            && RunAll(config, w, events[i..]).1 == [r] + RunAll(config, w', events[i + 1..]).1
  {
    hide Step;
    assert events[i..][0] == events[i] && events[i..][1..] == events[i + 1..];
  }
}
