/** What every run of the service keeps, and what its lookups promise. */
module ServiceRuns {
  import opened Common
  import opened Tuples
  import opened Schemas
  import opened Checking
  import opened Expansion
  import opened Store
  import opened ObjectIds
  import opened Isolation
  import opened StoreReaders
  import opened Sorting
  import opened Parser
  import opened Validation
  import opened Gc
  import opened Lookup
  import opened ServiceSpec

  /** What holds of every tenant's store: sound versions, and a schema text that parses within the limits. */
  ghost predicate Sound(config: Config, st: StoreState) {
    WellFormed(st) && SchemaSound(config, st)
  }

  ghost predicate SchemaSound(config: Config, st: StoreState) {
    st.schema.Some? ==> LoadSchema(config, st).Ok? && WithinLimits(LoadSchema(config, st).value, config.limits)
  }

  lemma SameVersions(st: StoreState, definition: string)
    requires WellFormed(st)
    ensures var st' := st.(schema := Some(definition)); WellFormed(st') && Later(st, st')
  {
  }

  lemma WriteSchemaKeepsSound(config: Config, st: StoreState, definition: string, force: bool)
    requires Sound(config, st)
    ensures var st' := AnswerWriteSchema(config, st, definition, force).0;
            Sound(config, st') && Later(st, st') && st'.currentTx == st.currentTx
  {
    SameVersions(st, definition);
    var schema := SchemaOf(config.grammar(definition));
    if schema.Ok? { NoLimitErrors(schema.value, config.limits); }
  }

  lemma WriteKeepsSound(config: Config, st: StoreState, writes: seq<Tuple>, deletes: seq<TupleFilter>)
    requires Sound(config, st) && st.currentTx + 1 < U64_MAX
    ensures var st' := Write(st, writes, deletes).0;
            Sound(config, st') && Later(st, st') && st'.currentTx <= st.currentTx + 1 && st'.schema == st.schema
  {
    WriteKeepsWellFormed(st, writes, deletes);
    WriteIsLater(st, writes, deletes);
  }

  lemma CycleKeepsSound(config: Config, st: StoreState, schema: Schema)
    requires Sound(config, st) && st.currentTx + 1 < U64_MAX
    ensures var st' := Cycle(st, schema).0;
            Sound(config, st') && Later(st, st') && st'.currentTx <= st.currentTx + 1 && st'.schema == st.schema
  {
    WriteKeepsSound(config, st, [], Filters(Orphans(Scan(st.tuples, st.currentTx, ANY_TUPLE), schema)));
  }

  /** Any request keeps the store sound, changes the past of no tuple, and takes at most one transaction. */
  lemma AnswerKeepsSound(config: Config, st: StoreState, request: Request)
    requires Sound(config, st) && st.currentTx + 1 < U64_MAX
    ensures var st' := Answer(config, st, request).0;
            Sound(config, st') && Later(st, st') && st'.currentTx <= st.currentTx + 1
  {
    hide SchemaSound, Write, Cycle, AnswerWriteSchema, AnswerCheck, AnswerExpand, AnswerLookupResources, Read, SubjectList;
    if request.WriteRelationships? {
      WriteKeepsSound(config, st, request.writes, request.deletes);
    } else if request.WriteSchema? {
      WriteSchemaKeepsSound(config, st, request.definition, request.force);
    } else if request.CollectGarbage? {
      CycleKeepsSound(config, st, request.schema);
    }
  }

  /** Every store of the world is sound and has room for `n` more transactions. */
  ghost predicate SoundWorld(config: Config, w: World, n: nat) {
    (forall t :: t in w ==> Sound(config, w[t]) && w[t].currentTx + n < U64_MAX) && n < U64_MAX
  }

  lemma StepKeepsSoundWorld(config: Config, w: World, event: Event, n: nat)
    requires SoundWorld(config, w, n + 1)
    ensures SoundWorld(config, Step(config, w, event).0, n)
  {
    if event.Call? {
      AnswerKeepsSound(config, Get(w, event.tenant), event.request);
    }
  }

  /** The schema text of every tenant parses within the limits, after any run. */
  lemma {:induction false} RunKeepsSoundWorld(config: Config, w: World, events: seq<Event>)
    requires SoundWorld(config, w, |events|)
    ensures SoundWorld(config, RunAll(config, w, events).0, 0)
    decreases |events|
  {
    if events != [] {
      StepKeepsSoundWorld(config, w, events[0], |events| - 1);
      RunKeepsSoundWorld(config, Step(config, w, events[0]).0, events[1..]);
    }
  }

  // ----- Tenants do not influence each other -----

  /** The calls of one tenant, with everything else erased. */
  function Only(t: TenantId, events: seq<Event>): seq<Event> {
    if events == [] then []
    else (if events[0].Call? && events[0].tenant == t then [events[0]] else []) + Only(t, events[1..])
  }

  /** The responses to the calls of one tenant. */
  function ResponsesTo(t: TenantId, events: seq<Event>, responses: seq<Response>): seq<Response>
    requires |responses| == |events|
  {
    if events == [] then []
    else (if events[0].Call? && events[0].tenant == t then [responses[0]] else []) + ResponsesTo(t, events[1..], responses[1..])
  }

  lemma {:induction false} OneResponseEach(config: Config, w: World, events: seq<Event>)
    ensures |RunAll(config, w, events).1| == |events|
    decreases |events|
  {
    if events != [] { OneResponseEach(config, Step(config, w, events[0]).0, events[1..]); }
  }

  /** The main result: erasing all other tenants changes neither a tenant's responses nor its store. */
  lemma {:induction false} TenantsAreIndependent(config: Config, w: World, v: World, t: TenantId, events: seq<Event>)
    requires Get(w, t) == Get(v, t)
    ensures |RunAll(config, w, events).1| == |events|
    ensures ResponsesTo(t, events, RunAll(config, w, events).1) == RunAll(config, v, Only(t, events)).1
    ensures Get(RunAll(config, w, events).0, t) == Get(RunAll(config, v, Only(t, events)).0, t)
    decreases |events|
  {
    hide Answer;
    OneResponseEach(config, w, events);
    if events != [] {
      var (w', r) := Step(config, w, events[0]);
      var rest := events[1..];
      if events[0].Call? && events[0].tenant == t {
        var v' := Step(config, v, events[0]).0;
        TenantsAreIndependent(config, w', v', t, rest);
        assert Only(t, events) == [events[0]] + Only(t, rest);
        assert Only(t, events)[1..] == Only(t, rest);
      } else {
        TenantsAreIndependent(config, w', v, t, rest);
        assert Only(t, events) == Only(t, rest);
      }
      assert RunAll(config, w, events).1 == [r] + RunAll(config, w', rest).1;
      assert RunAll(config, w, events).1[1..] == RunAll(config, w', rest).1;
    }
  }

  // ----- Unforced schema histories keep places -----

  predicate Unforced(events: seq<Event>) {
    forall e | e in events :: e.Call? && e.request.WriteSchema? ==> !e.request.force
  }

  /** The tuple has a place in the tenant's current schema. */
  ghost predicate Placed(config: Config, st: StoreState, t: Tuple) {
    LoadSchema(config, st).Ok? && !IsOrphan(LoadSchema(config, st).value, t)
  }

  lemma AnswerKeepsPlaces(config: Config, st: StoreState, request: Request, t: Tuple)
    requires Sound(config, st) && (request.WriteSchema? ==> !request.force)
    requires Placed(config, st, t)
    ensures Placed(config, Answer(config, st, request).0, t)
  {
    hide WellFormed, IsOrphan, TypeChanges, LimitErrors, SchemaOf, InsertAll, MarkDeleted, Scan, Orphans, Filters;
    if request.WriteSchema? {
      var new_ := SchemaOf(config.grammar(request.definition));
      if new_.Ok? {
        var old_ := LoadSchema(config, st).value;
        if TypeChanges(old_.types, new_.value) == [] { UnbrokenKeepsTuples(old_, new_.value, t); }
      }
    }
  }

  /** No run without forced schema writes turns a tuple into an orphan. */
  lemma {:induction false} UnforcedRunKeepsPlaces(config: Config, w: World, events: seq<Event>, tenant: TenantId, t: Tuple)
    requires SoundWorld(config, w, |events|) && Unforced(events)
    requires Placed(config, Get(w, tenant), t)
    ensures Placed(config, Get(RunAll(config, w, events).0, tenant), t)
    decreases |events|
  {
    if events != [] {
      var e := events[0];
      assert e in events;
      StepKeepsSoundWorld(config, w, e, |events| - 1);
      if e.Call? && e.tenant == tenant { AnswerKeepsPlaces(config, Get(w, tenant), e.request, t); }
      UnforcedRunKeepsPlaces(config, Step(config, w, e).0, events[1..], tenant, t);
    }
  }

  // ----- Unforced runs keep data -----

  ghost predicate Shown(st: StoreState, t: Tuple) {
    t in VisibleSet(st.tuples, st.currentTx)
  }

  /** The request does not ask for the tuple to go: no delete for it, no forced schema, no collection under a foreign schema. */
  ghost predicate Spares(config: Config, st: StoreState, request: Request, t: Tuple) {
    match request
    case WriteRelationships(writes, deletes) => t in writes || !MatchedBy(deletes, t)
    case WriteSchema(_, force) => !force
    case CollectGarbage(schema) => LoadSchema(config, st) == Ok(schema)
    case _ => true
  }

  /** No request of the tenant asks for the tuple to go, each seen in the state it finds. */
  ghost predicate RunSpares(config: Config, w: World, events: seq<Event>, tenant: TenantId, t: Tuple)
    decreases |events|
  {
    events == []
    || ((events[0].Call? && events[0].tenant == tenant ==> Spares(config, Get(w, tenant), events[0].request, t))
        && RunSpares(config, Step(config, w, events[0]).0, events[1..], tenant, t))
  }

  lemma WriteKeepsData(st: StoreState, writes: seq<Tuple>, deletes: seq<TupleFilter>, t: Tuple)
    requires WellFormed(st) && st.currentTx + 1 < U64_MAX
    requires Shown(st, t) && (t in writes || !MatchedBy(deletes, t))
    ensures Shown(Write(st, writes, deletes).0, t)
  {
    if Write(st, writes, deletes).1.Ok? { NewSnapshot(st, writes, deletes); }
  }

  lemma AnswerKeepsData(config: Config, st: StoreState, request: Request, t: Tuple)
    requires Sound(config, st) && st.currentTx + 1 < U64_MAX
    requires Shown(st, t) && Placed(config, st, t) && Spares(config, st, request, t)
    ensures Shown(Answer(config, st, request).0, t) && Placed(config, Answer(config, st, request).0, t)
  {
    hide Write, Cycle, IsOrphan, WellFormed, VisibleSet;
    AnswerKeepsPlaces(config, st, request, t);
    match request
    case WriteRelationships(writes, deletes) => WriteKeepsData(st, writes, deletes, t);
    case CollectGarbage(schema) => CycleIsExact(st, schema);
    case _ =>
  }

  /** The main result: what is shown and has a place stays shown and placed, until a request asks for it to go. */
  lemma {:induction false} UnforcedRunKeepsData(config: Config, w: World, events: seq<Event>, tenant: TenantId, t: Tuple)
    requires SoundWorld(config, w, |events|) && RunSpares(config, w, events, tenant, t)
    requires Shown(Get(w, tenant), t) && Placed(config, Get(w, tenant), t)
    ensures Shown(Get(RunAll(config, w, events).0, tenant), t) && Placed(config, Get(RunAll(config, w, events).0, tenant), t)
    decreases |events|
  {
    hide Sound, Answer, Spares, Shown, Placed;
    if events != [] {
      var e := events[0];
      StepKeepsSoundWorld(config, w, e, |events| - 1);
      if e.Call? && e.tenant == tenant {
        EmptyStoreIsSound(config);
        AnswerKeepsData(config, Get(w, tenant), e.request, t);
      }
      UnforcedRunKeepsData(config, Step(config, w, e).0, events[1..], tenant, t);
    }
  }

  lemma EmptyStoreIsSound(config: Config)
    ensures Sound(config, EMPTY_STORE)
  {
  }

  // ----- Lookups -----

  lemma LoadedSchemasAreGood(config: Config, st: StoreState)
    ensures LoadSchema(config, st).Ok? ==> GoodSchema(LoadSchema(config, st).value)
  {
    if st.schema.Some? { AcceptedSchemasAreGood(config.grammar(st.schema.value)); }
  }

  /** Found ids are ascending and allowed, at most `limit` of them, and all of them when fewer. */
  lemma LookupResourcesIsExact(config: Config, st: StoreState, resourceType: string, permission: string, who: Principal,
                               consistency: Consistency, limit: Option<nat>)
    requires WellFormed(st)
    requires AnswerLookupResources(config, st, resourceType, permission, who, consistency, limit).ResourcesFound?
    ensures LoadSchema(config, st).Ok?
    ensures var found := AnswerLookupResources(config, st, resourceType, permission, who, consistency, limit).ids;
            var e := EngineAt(config, st, LoadSchema(config, st).value, ResolveSnapshot(st, consistency));
            var most := match limit case Some(n) => n case None => 1000;
            && Ascending(found) && |found| <= most
            && (forall id | id in found :: Check(e, Key(resourceType, id, permission), who) == Ok(true))
            && (forall id, later | later in found && id !in found && AtMost(id, later) :: Check(e, Key(resourceType, id, permission), who) != Ok(true))
            && (|found| < most ==> forall id :: id in found <==> Check(e, Key(resourceType, id, permission), who) == Ok(true))
  {
    var snapshot := ResolveSnapshot(st, consistency);
    var schema := LoadSchema(config, st).value;
    var e := EngineAt(config, st, schema, snapshot);
    var ids := ListObjectIds(st, resourceType, snapshot, None).value;
    LoadedSchemasAreGood(config, st);
    ListedIdsCover(st, resourceType, snapshot, e);
    GatherIsExact(e, resourceType, permission, who, ids, LimitOr(limit));
    var k := GatherCuts(e, resourceType, permission, who, ids, LimitOr(limit));
    var found := AnswerLookupResources(config, st, resourceType, permission, who, consistency, limit).ids;
    PrefixIsAscending(ids, k);
    AllowedIsAscending(e, resourceType, permission, who, ids[..k]);
    forall id, later | later in found && id !in found && AtMost(id, later) ensures Check(e, Key(resourceType, id, permission), who) != Ok(true) {
      EarlierIdsWereChecked(ids, k, id, later);
      if id !in ids && Check(e, Key(resourceType, id, permission), who).Ok? {
        GoodRule(schema, resourceType, permission);
        NothingWithoutRows(e, schema.RuleOf(resourceType, permission).value, resourceType, id, Context(who, 0, {}));
      }
    }
  }

  lemma NoMembers<T(!new)>(xs: seq<T>)
    ensures xs == [] <==> forall x :: x !in xs
  {
    assert xs != [] ==> xs[0] in xs;
  }

  lemma NoTuplesNoRows(st: StoreState, history: seq<set<Tuple>>, snapshot: Option<nat>, ot: string, oi: string, relation: string)
    requires WellFormed(st) && Represents(st, history) && Resolve(st, snapshot).Ok?
    requires forall t | t in history[Resolve(st, snapshot).value] :: t.resource != ObjectRef(ot, oi)
    ensures ReaderOf(st, snapshot)(RowsOf(ot, oi, relation)) == Ok([])
  {
    StoreReaderReads(st, history, snapshot, RowsOf(ot, oi, relation));
    NoMembers(ReaderOf(st, snapshot)(RowsOf(ot, oi, relation)).value);
  }

  lemma ListedIdsCover(st: StoreState, resourceType: string, snapshot: Option<nat>, e: Engine)
    requires WellFormed(st) && ListObjectIds(st, resourceType, snapshot, None).Ok?
    requires e.read == ReaderOf(st, snapshot)
    ensures Ascending(ListObjectIds(st, resourceType, snapshot, None).value)
    ensures forall id :: id !in ListObjectIds(st, resourceType, snapshot, None).value ==> NoRows(e, resourceType, id)
  {
    var history := seq(st.currentTx + 1, i requires 0 <= i <= st.currentTx => VisibleSet(st.tuples, i));
    ListObjectIdsIsExact(st, history, resourceType, Resolve(st, snapshot).value);
    forall id, relation | id !in ListObjectIds(st, resourceType, snapshot, None).value
      ensures e.read(RowsOf(resourceType, id, relation)) == Ok([])
    {
      NoTuplesNoRows(st, history, snapshot, resourceType, id, relation);
    }
  }

  lemma PrefixIsAscending(ids: seq<string>, k: nat)
    requires Ascending(ids) && k <= |ids|
    ensures Ascending(ids[..k])
  {
  }

  lemma {:induction false} AllowedIsAscending(e: Engine, objectType: string, permission: string, who: Principal, ids: seq<string>)
    requires Ascending(ids)
    ensures Ascending(Allowed(e, objectType, permission, who, ids))
  {
    if ids != [] {
      var n := |ids| - 1;
      var before := Allowed(e, objectType, permission, who, ids[..n]);
      AllowedIsAscending(e, objectType, permission, who, ids[..n]);
      forall i | 0 <= i < |before| ensures before[i] != ids[n] && AtMost(before[i], ids[n]) {
        assert before[i] in ids[..n];
        var j :| 0 <= j < n && ids[j] == before[i];
      }
    }
  }

  /** In an ascending list, whatever comes before a member of a prefix is in that prefix. */
  lemma EarlierIdsWereChecked(ids: seq<string>, k: nat, id: string, later: string)
    requires Ascending(ids) && k <= |ids| && later in ids[..k] && AtMost(id, later)
    ensures id in ids ==> id in ids[..k]
  {
    if id in ids {
      var i :| 0 <= i < |ids| && ids[i] == id;
      var j :| 0 <= j < k && ids[j] == later;
      if i > j {
        assert AtMost(ids[j], ids[i]);
        AtMostAntisymmetric(id, later);
      }
      assert ids[..k][i] == id;
    }
  }

  /** Every allowed subject of the type is found, and expansions made of unions find nobody else. */
  lemma LookupSubjectsIsComplete(config: Config, st: StoreState, goal: Key, who: Principal, consistency: Consistency)
    requires WellFormed(st)
    requires Answer(config, st, LookupSubjects(goal, who.subjectType, consistency)).1.SubjectsFound?
    ensures LoadSchema(config, st).Ok?
    ensures var subjects := Answer(config, st, LookupSubjects(goal, who.subjectType, consistency)).1.subjects;
            var e := EngineAt(config, st, LoadSchema(config, st).value, ResolveSnapshot(st, consistency));
            && (forall i, j | 0 <= i < j < |subjects| :: AtMost(subjects[i].subjectId, subjects[j].subjectId))
            && (forall i | 0 < i < |subjects| :: subjects[i - 1] != subjects[i])
            && (Check(e, goal, who) == Ok(true) ==> who.AsSubject() in subjects)
            && Expand(e, goal).Ok?
            && (forall s :: s in subjects <==> s.subjectType == who.subjectType && Visible(Expand(e, goal).value, s))
            && (UnionsOnly(Expand(e, goal).value) ==> (who.AsSubject() in subjects <==> Check(e, goal, who) == Ok(true)))
  {
    var e := EngineAt(config, st, LoadSchema(config, st).value, ResolveSnapshot(st, consistency));
    LoadedSchemasAreGood(config, st);
    StoreReaderIsCoherent(st, ResolveSnapshot(st, consistency));
    SubjectListIsComplete(e, goal, who);
    SubjectListShape(Expand(e, goal).value, who.subjectType);
    forall s ensures s in SubjectList(Expand(e, goal).value, who.subjectType) <==> s.subjectType == who.subjectType && Visible(Expand(e, goal).value, s) {
      SubjectListIsExact(Expand(e, goal).value, who.subjectType, s);
    }
  }

  // ----- Snapshots that do not exist yet -----

  /** When no read succeeds, a parsed rule has no answer: each of its paths reads before it answers. */
  lemma {:induction false} NoAnswerWithoutReads(e: Engine, rule: RewriteRule, ot: string, oi: string, ctx: Context)
    requires GoodSchema(e.schema) && FlatRule(rule) && forall f :: e.read(f).Err?
    ensures EvaluateRule(e, rule, ot, oi, ctx).Err?
    decreases 2 * Fuel(e.maxDepth, ctx.depth), rule
  {
    if ctx.depth <= e.maxDepth {
      match rule
      case This(name) =>
        if e.schema.RuleOf(ot, name).Some? {
          GoodRule(e.schema, ot, name);
          NoAnswerWithoutReads(e, e.schema.RuleOf(ot, name).value, ot, oi, ctx.(depth := ctx.depth + 1));
        }
      case Union(children) =>
        assert Atom(children[0]);
        NoAnswerWithoutReads(e, children[0], ot, oi, ctx);
        AnyOfStopsAt(EvaluateEach(e, children, ot, oi, ctx), 0);
      case Intersection(children) =>
        assert Atom(children[0]);
        NoAnswerWithoutReads(e, children[0], ot, oi, ctx);
        AllOfStopsAt(EvaluateEach(e, children, ot, oi, ctx), 0);
      case Exclusion(base, _) => NoAnswerWithoutReads(e, base, ot, oi, ctx);
      case Arrow(_, _) =>
    }
  }

  /** A check at a snapshot from the future fails; it cannot be cached and become wrong later. */
  lemma FutureSnapshotsAreRefused(config: Config, st: StoreState, schema: Schema, snapshot: nat, goal: Key, who: Principal)
    requires GoodSchema(schema) && snapshot > st.currentTx
    ensures Check(EngineAt(config, st, schema, Some(snapshot)), goal, who).Err?
  {
    var e := EngineAt(config, st, schema, Some(snapshot));
    var rule := schema.RuleOf(goal.objectType, goal.permission);
    if rule.Some? {
      GoodRule(schema, goal.objectType, goal.permission);
      NoAnswerWithoutReads(e, rule.value, goal.objectType, goal.objectId, Context(who, 0, {}));
    }
  }
}
