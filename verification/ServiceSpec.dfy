/** What the service answers, as a function of one tenant's store and nothing else: no caches. */
module ServiceSpec {
  import opened Common
  import opened Tuples
  import opened Schemas
  import opened Checking
  import opened Expansion
  import opened Store
  import opened ObjectIds
  import opened Isolation
  import opened Parser
  import opened Validation
  import opened Gc
  import opened Lookup

  /** The grammar turns a schema text into a parse tree or a message; nothing else is assumed of it. */
  datatype Config = Config(grammar: string -> Result<seq<Pair>, string>, limits: SchemaLimits, maxDepth: nat)

  datatype Consistency =
    | FullConsistency
    | MinimizeLatency
    | AtLeastAsFresh(token: nat)
    | AtExactSnapshot(token: nat)

  datatype ApiError =
    | CheckFailed(check: CheckError)
    | StorageFailed(storage: StorageError)
    | ParseFailed(parse: ParseError)
    | ValidationFailed(errors: seq<ValidationError>)
    | BreakingChangesFound(changes: seq<BreakingChange>)
    | SchemaNotFound

  datatype Request =
    | CheckPermission(goal: Key, who: Principal, consistency: Consistency)
    | ExpandPermissionTree(goal: Key, consistency: Consistency)
    | WriteRelationships(writes: seq<Tuple>, deletes: seq<TupleFilter>)
    | ReadRelationships(filter: TupleFilter, consistency: Consistency, limit: Option<nat>)
    | WriteSchema(definition: string, force: bool)
    | ReadSchema
    | LookupSubjects(goal: Key, subjectType: string, consistency: Consistency)
    | LookupResources(resourceType: string, permission: string, who: Principal, consistency: Consistency, limit: Option<nat>)
    | CollectGarbage(schema: Schema)

  datatype Response =
    | Failed(error: ApiError)
    | Checked(allowed: bool, snapshot: Option<nat>)
    | Expanded(tree: ExpandTree, snapshot: Option<nat>)
    | Written(token: nat)
    | TuplesRead(tuples: seq<Tuple>, snapshot: Option<nat>)
    | SchemaWritten(breakingChangesOverridden: bool)
    | SchemaText(text: Option<string>)
    | SubjectsFound(subjects: seq<SubjectRef>, snapshot: Option<nat>)
    | ResourcesFound(ids: seq<string>, snapshot: Option<nat>)
    | Collected(count: nat)
    | Evicted

  const DEFAULT_RESOURCE_LIMIT: nat := 1000

  function ResolveSnapshot(st: StoreState, consistency: Consistency): Option<nat> {
    match consistency
    case FullConsistency => Some(st.currentTx)
    case MinimizeLatency => None
    case AtLeastAsFresh(token) => Some(token)
    case AtExactSnapshot(token) => Some(token)
  }

  function LoadSchema(config: Config, st: StoreState): Result<Schema, ApiError> {
    match st.schema
    case None => Err(SchemaNotFound)
    case Some(text) =>
      match SchemaOf(config.grammar(text))
      case Ok(schema) => Ok(schema)
      case Err(x) => Err(ParseFailed(x))
  }

  function EngineAt(config: Config, st: StoreState, schema: Schema, snapshot: Option<nat>): Engine {
    Engine(ReaderOf(st, snapshot), schema, config.maxDepth)
  }

  function AnswerCheck(config: Config, st: StoreState, goal: Key, who: Principal, consistency: Consistency): Response {
    var snapshot := ResolveSnapshot(st, consistency);
    match LoadSchema(config, st)
    case Err(x) => Failed(x)
    case Ok(schema) =>
      match Check(EngineAt(config, st, schema, snapshot), goal, who)
      case Err(x) => Failed(CheckFailed(x))
      case Ok(allowed) => Checked(allowed, snapshot)
  }

  function AnswerExpand(config: Config, st: StoreState, goal: Key, consistency: Consistency): Response {
    var snapshot := ResolveSnapshot(st, consistency);
    match LoadSchema(config, st)
    case Err(x) => Failed(x)
    case Ok(schema) =>
      match Expand(EngineAt(config, st, schema, snapshot), goal)
      case Err(x) => Failed(CheckFailed(x))
      case Ok(tree) => Expanded(tree, snapshot)
  }

  function AnswerLookupResources(config: Config, st: StoreState, resourceType: string, permission: string, who: Principal,
                                 consistency: Consistency, limit: Option<nat>): Response
  {
    var snapshot := ResolveSnapshot(st, consistency);
    match ListObjectIds(st, resourceType, snapshot, None)
    case Err(x) => Failed(StorageFailed(x))
    case Ok(ids) =>
      match LoadSchema(config, st)
      case Err(x) => Failed(x)
      case Ok(schema) =>
        match Gather(EngineAt(config, st, schema, snapshot), resourceType, permission, who, ids, LimitOr(limit))
        case Err(x) => Failed(CheckFailed(x))
        case Ok(found) => ResourcesFound(found, snapshot)
  }

  function LimitOr(limit: Option<nat>): nat {
    if limit.Some? then limit.value else DEFAULT_RESOURCE_LIMIT
  }

  function AnswerWriteSchema(config: Config, st: StoreState, definition: string, force: bool): (StoreState, Response) {
    match SchemaOf(config.grammar(definition))
    case Err(x) => (st, Failed(ParseFailed(x)))
    case Ok(schema) =>
      if LimitErrors(schema, config.limits) != [] then (st, Failed(ValidationFailed(LimitErrors(schema, config.limits))))
      else
        match st.schema
        case None => (st.(schema := Some(definition)), SchemaWritten(false))
        case Some(oldText) =>
          match SchemaOf(config.grammar(oldText))
          case Err(x) => (st, Failed(ParseFailed(x)))
          case Ok(oldSchema) =>
            var breaking := TypeChanges(oldSchema.types, schema);
            if breaking != [] && !force then (st, Failed(BreakingChangesFound(breaking)))
            else (st.(schema := Some(definition)), SchemaWritten(breaking != []))
  }

  /** One request of one tenant. */
  function Answer(config: Config, st: StoreState, request: Request): (StoreState, Response) {
    match request
    case CheckPermission(goal, who, consistency) => (st, AnswerCheck(config, st, goal, who, consistency))
    case ExpandPermissionTree(goal, consistency) => (st, AnswerExpand(config, st, goal, consistency))
    case WriteRelationships(writes, deletes) =>
      var (st', r) := Write(st, writes, deletes);
      (st', match r case Ok(token) => Written(token) case Err(x) => Failed(StorageFailed(x)))
    case ReadRelationships(filter, consistency, limit) =>
      var snapshot := ResolveSnapshot(st, consistency);
      (st, match Read(st, filter, snapshot, limit) case Ok(rows) => TuplesRead(rows, snapshot) case Err(x) => Failed(StorageFailed(x)))
    case WriteSchema(definition, force) => AnswerWriteSchema(config, st, definition, force)
    case ReadSchema => (st, SchemaText(st.schema))
    case LookupSubjects(goal, subjectType, consistency) =>
      (st, match AnswerExpand(config, st, goal, consistency)
        case Expanded(tree, snapshot) => SubjectsFound(SubjectList(tree, subjectType), snapshot)
        case other => other)
    case LookupResources(resourceType, permission, who, consistency, limit) =>
      (st, AnswerLookupResources(config, st, resourceType, permission, who, consistency, limit))
    case CollectGarbage(schema) =>
      var (st', count) := Cycle(st, schema);
      (st', Collected(count))
  }

  // ----- Many tenants -----

  datatype TenantId = TenantId(uuid: nat)

  /** One store per tenant; a tenant that was never seen has an empty one. */
  type World = map<TenantId, StoreState>

  function Get(w: World, t: TenantId): StoreState {
    if t in w then w[t] else EMPTY_STORE
  }

  datatype CheckCacheKey = CheckCacheKey(tenant: TenantId, goal: Key, who: Principal, snapshot: nat)

  /** A request of a tenant, or the loss of arbitrary cache entries. */
  datatype Event =
    | Call(tenant: TenantId, request: Request)
    | EvictSchemas(tenants: set<TenantId>)
    | EvictChecks(keys: set<CheckCacheKey>)

  function Step(config: Config, w: World, event: Event): (World, Response) {
    match event
    case Call(t, request) =>
      var (st, r) := Answer(config, Get(w, t), request);
      (w[t := st], r)
    case _ => (w, Evicted)
  }

  function RunAll(config: Config, w: World, events: seq<Event>): (World, seq<Response>)
    decreases |events|
  {
    if events == [] then (w, [])
    else
      var (w', r) := Step(config, w, events[0]);
      var (w'', rs) := RunAll(config, w', events[1..]);
      (w'', [r] + rs)
  }
}
