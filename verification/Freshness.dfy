/**
 Which tuples each consistency sees, in terms of the history that the tenant's store stands for: what every
 read of the service answers over, what it reports, and that callers read their own writes.
 */
module Freshness {
  import opened Common
  import opened Tuples
  import opened Schemas
  import opened Checking
  import opened Expansion
  import opened Semantics
  import opened LeafCounts
  import opened Store
  import opened ObjectIds
  import opened StoreReaders
  import opened Parser
  import opened SchemaTrees
  import opened Validation
  import opened Outcomes
  import opened Lookup
  import opened ServiceSpec
  import opened ServiceRuns

  /** The history has the set that the consistency asks for; only a token can ask for more than there is. */
  predicate Reached(history: seq<set<Tuple>>, c: Consistency) {
    match c
    case FullConsistency => history != []
    case MinimizeLatency => history != []
    case AtLeastAsFresh(token) => token < |history|
    case AtExactSnapshot(token) => token < |history|
  }

  /** The set of tuples to answer over. */
  function Seen(history: seq<set<Tuple>>, c: Consistency): set<Tuple>
    requires Reached(history, c)
  {
    match c
    case FullConsistency => history[|history| - 1]
    case MinimizeLatency => history[|history| - 1]
    case AtLeastAsFresh(token) => history[token]
    case AtExactSnapshot(token) => history[token]
  }

  /** The token to report with the answer: none for the answer of least latency. */
  function Reported(history: seq<set<Tuple>>, c: Consistency): Option<nat>
    requires history != []
  {
    match c
    case FullConsistency => Some(|history| - 1)
    case MinimizeLatency => None
    case AtLeastAsFresh(token) => Some(token)
    case AtExactSnapshot(token) => Some(token)
  }

  lemma ResolvesAsAsked(st: StoreState, history: seq<set<Tuple>>, c: Consistency)
    requires Represents(st, history)
    ensures ResolveSnapshot(st, c) == Reported(history, c)
    ensures Resolve(st, ResolveSnapshot(st, c)).Ok? <==> Reached(history, c)
    ensures Reached(history, c) ==> history[Resolve(st, ResolveSnapshot(st, c)).value] == Seen(history, c)
    ensures !Reached(history, c) ==> ResolveSnapshot(st, c).Some? && ResolveSnapshot(st, c).value > st.currentTx
  {
  }

  // ----- Check -----

  /** The main result about check: an answer reports the asked token, and for a settled permission it is the meaning over the asked tuples. */
  lemma ServedCheckIsExact(config: Config, st: StoreState, history: seq<set<Tuple>>, goal: Key, who: Principal, c: Consistency)
    requires WellFormed(st) && Represents(st, history)
    requires AnswerCheck(config, st, goal, who, c).Checked?
    ensures Reached(history, c) && LoadSchema(config, st).Ok?
    ensures AnswerCheck(config, st, goal, who, c).snapshot == Reported(history, c)
    ensures var f := Facts(LoadSchema(config, st).value, Seen(history, c), who.AsSubject());
            Decided(f, goal) ==> (AnswerCheck(config, st, goal, who, c).allowed <==> Holds(f, goal))
  {
    hide Check, Decided, Holds, WellFormed, Represents;
    var schema := LoadSchema(config, st).value;
    LoadedSchemasAreGood(config, st);
    ResolvesAsAsked(st, history, c);
    if !Reached(history, c) { FutureSnapshotsAreRefused(config, st, schema, ResolveSnapshot(st, c).value, goal, who); }
    if Decided(Facts(schema, Seen(history, c), who.AsSubject()), goal) {
      StoredCheckIsExact(st, history, ResolveSnapshot(st, c), schema, config.maxDepth, goal, who);
    }
  }

  /** An error of check is about the schema, the configured limit, or a token that the store has not reached. */
  lemma ServedErrorsAreTrue(config: Config, st: StoreState, history: seq<set<Tuple>>, goal: Key, who: Principal, c: Consistency)
    requires WellFormed(st) && Represents(st, history)
    requires AnswerCheck(config, st, goal, who, c).Failed? && LoadSchema(config, st).Ok?
    ensures AnswerCheck(config, st, goal, who, c).error.CheckFailed?
    ensures match AnswerCheck(config, st, goal, who, c).error.check
            case MaxDepthExceeded(depth) => depth == config.maxDepth + 1
            case StorageFailure(x) => !Reached(history, c) && x == SnapshotAhead(Reported(history, c).value, |history| - 1)
            case TypeNotFound(t) => LoadSchema(config, st).value.GetType(t).None?
            case _ => true
  {
    hide Check, WellFormed;
    var e := EngineAt(config, st, LoadSchema(config, st).value, ResolveSnapshot(st, c));
    ResolvesAsAsked(st, history, c);
    forall f | e.read(f).Err? ensures !Reached(history, c) && e.read(f) == Err(StorageFailure(SnapshotAhead(Reported(history, c).value, st.currentTx))) {
      StoreReaderReads(st, history, ResolveSnapshot(st, c), f);
    }
    CheckErrorsAreTrue(e, goal, who);
  }

  // ----- Expand and subjects -----

  /** An expansion reports the asked token, and its tree stands for the asked tuples: every subject, and how often. */
  lemma ServedExpandIsExact(config: Config, st: StoreState, history: seq<set<Tuple>>, goal: Key, c: Consistency, s: SubjectRef)
    requires WellFormed(st) && Represents(st, history)
    requires AnswerExpand(config, st, goal, c).Expanded?
    ensures Reached(history, c) && LoadSchema(config, st).Ok?
    ensures AnswerExpand(config, st, goal, c).snapshot == Reported(history, c)
    ensures LoadSchema(config, st).value.RuleOf(goal.objectType, goal.permission).Some?
    ensures var schema := LoadSchema(config, st).value;
            var tree := AnswerExpand(config, st, goal, c).tree;
            var db := Seen(history, c);
            && (Decided(Facts(schema, db, s), goal) ==> (Member(tree, s) <==> Holds(Facts(schema, db, s), goal)))
            && Copies(tree, s) == Ways(schema, db, config.maxDepth + 1, schema.RuleOf(goal.objectType, goal.permission).value, goal.objectType, goal.objectId, {}, s)
  {
    hide Expand, Decided, Holds, WellFormed, Represents, Member, Copies, Ways;
    var schema := LoadSchema(config, st).value;
    LoadedSchemasAreGood(config, st);
    ResolvesAsAsked(st, history, c);
    if !Reached(history, c) { ExpandingTheFutureFails(config, st, schema, ResolveSnapshot(st, c), goal); }
    StoredExpandIsExact(st, history, ResolveSnapshot(st, c), schema, config.maxDepth, goal, s);
  }

  lemma ExpandingTheFutureFails(config: Config, st: StoreState, schema: Schema, snapshot: Option<nat>, goal: Key)
    requires WellFormed(st) && GoodSchema(schema) && snapshot.Some? && snapshot.value > st.currentTx
    ensures Expand(EngineAt(config, st, schema, snapshot), goal).Err?
  {
    hide Check, Expand, WellFormed;
    if Expand(EngineAt(config, st, schema, snapshot), goal).Ok? {
      var anyone := Principal("", "");
      FutureSnapshotsAreRefused(config, st, schema, snapshot.value, goal, anyone);
      StoredCheckAgreesWithExpand(st, snapshot, schema, config.maxDepth, goal, anyone);
    }
  }

  /** A list of subjects reports the asked token; it holds every subject, userset or not, whose permission is settled as holding over the asked tuples. */
  lemma ServedSubjectsAreComplete(config: Config, st: StoreState, history: seq<set<Tuple>>, goal: Key, c: Consistency, s: SubjectRef)
    requires WellFormed(st) && Represents(st, history)
    requires Answer(config, st, LookupSubjects(goal, s.subjectType, c)).1.SubjectsFound?
    ensures Reached(history, c) && LoadSchema(config, st).Ok?
    ensures Answer(config, st, LookupSubjects(goal, s.subjectType, c)).1.snapshot == Reported(history, c)
    ensures var f := Facts(LoadSchema(config, st).value, Seen(history, c), s);
            Decided(f, goal) && Holds(f, goal) ==> s in Answer(config, st, LookupSubjects(goal, s.subjectType, c)).1.subjects
  {
    hide Expand, Decided, Holds, WellFormed, Represents, Member, Copies, Ways, SubjectList;
    var schema := LoadSchema(config, st).value;
    var e := EngineAt(config, st, schema, ResolveSnapshot(st, c));
    var tree := Expand(e, goal).value;
    ServedExpandIsExact(config, st, history, goal, c, s);
    LoadedSchemasAreGood(config, st);
    SubjectListShape(tree, s.subjectType);
    if Member(tree, s) {
      ExpansionIsSpelledOut(e, goal);
      MembersAreCollected(tree, s);
    }
  }

  lemma ExpansionIsSpelledOut(e: Engine, goal: Key)
    requires GoodSchema(e.schema) && Expand(e, goal).Ok?
    ensures NoEmptyIntersection(Expand(e, goal).value)
  {
    var rule := e.schema.RuleOf(goal.objectType, goal.permission).value;
    GoodRule(e.schema, goal.objectType, goal.permission);
    ExpansionShape(e, rule, goal.objectType, goal.objectId, 0, {});
  }

  // ----- Tuples -----

  /** A read lists the asked tuples that the filter selects, each once; a limit cuts that list; a token ahead of the store is refused. */
  lemma ServedReadIsExact(config: Config, st: StoreState, history: seq<set<Tuple>>, filter: TupleFilter, c: Consistency, limit: Option<nat>)
    requires WellFormed(st) && Represents(st, history)
    ensures var r := Answer(config, st, ReadRelationships(filter, c, limit)).1;
            if !Reached(history, c) then r == Failed(StorageFailed(SnapshotAhead(Reported(history, c).value, |history| - 1)))
            else
              && r.TuplesRead? && r.snapshot == Reported(history, c)
              && (forall i, j | 0 <= i < j < |r.tuples| :: r.tuples[i] != r.tuples[j])
              && (forall t | t in r.tuples :: t in Seen(history, c) && filter.Matches(t))
              && (limit.None? || |r.tuples| < limit.value ==> forall t | t in Seen(history, c) && filter.Matches(t) :: t in r.tuples)
              && (limit.Some? ==> |r.tuples| <= limit.value)
  {
    hide TupleFilter.Matches, WellFormed, Scan, Represents;
    ResolvesAsAsked(st, history, c);
    TokenOfHistory(st, history);
    if Reached(history, c) {
      var s := Resolve(st, ResolveSnapshot(st, c)).value;
      ReadListsHistory(st, history, filter, s);
      PrefixMembers(Scan(st.tuples, s, filter), Answer(config, st, ReadRelationships(filter, c, limit)).1.tuples);
    }
  }

  lemma PrefixMembers<T>(all: seq<T>, rows: seq<T>)
    requires rows <= all
    ensures forall t | t in rows :: t in all
  {
    forall t | t in rows ensures t in all {
      var i :| 0 <= i < |rows| && rows[i] == t;
      assert all[i] == t;
    }
  }

  // ----- Resources -----

  /** Where no tuple of the object is stored, nothing holds of it under parsed rules. */
  lemma {:induction false} NothingStoredNothingDerived(v: View, n: nat, rule: RewriteRule, ot: string, oi: string)
    requires GoodSchema(v.facts.schema) && FlatRule(rule) && forall t | t in v.facts.db :: t.resource != ObjectRef(ot, oi)
    ensures !Derives(v, n, rule, ot, oi)
    decreases n, rule
  {
    hide GoodSchema;
    match rule
    case This(name) =>
      if v.facts.schema.RuleOf(ot, name).Some? && n > 0 {
        GoodRule(v.facts.schema, ot, name);
        NothingStoredNothingDerived(v, n - 1, v.facts.schema.RuleOf(ot, name).value, ot, oi);
      }
    case Union(children) =>
      forall c | c in children ensures !Derives(v, n, c, ot, oi) {
        assert Atom(c);
        NothingStoredNothingDerived(v, n, c, ot, oi);
      }
    case Intersection(children) =>
      assert children[0] in children && Atom(children[0]);
      NothingStoredNothingDerived(v, n, children[0], ot, oi);
    case Exclusion(base, _) => NothingStoredNothingDerived(v, n, base, ot, oi);
    case Arrow(_, _) =>
  }

  lemma NothingStoredNothingHolds(f: Facts, k: Key)
    requires GoodSchema(f.schema) && forall t | t in f.db :: t.resource != ObjectRef(k.objectType, k.objectId)
    ensures !Holds(f, k)
  {
    hide GoodSchema, Derives;
    if j: nat :| Sure(f, {}, j, k) {
      var v := SureView(f, {}, j - 1);
      var n: nat :| GoalDerives(v, n, k);
      GoodRule(f.schema, k.objectType, k.permission);
      NothingStoredNothingDerived(v, n, v.RuleOf(k).value, k.objectType, k.objectId);
    }
  }

  /** Found ids hold over the asked tuples, and a list that stays under the limit has every id that does, wherever the permission is settled. */
  lemma ServedResourcesAreExact(config: Config, st: StoreState, history: seq<set<Tuple>>, resourceType: string, permission: string, who: Principal,
                                c: Consistency, limit: Option<nat>, id: string)
    requires WellFormed(st) && Represents(st, history)
    requires AnswerLookupResources(config, st, resourceType, permission, who, c, limit).ResourcesFound?
    ensures Reached(history, c) && LoadSchema(config, st).Ok?
    ensures AnswerLookupResources(config, st, resourceType, permission, who, c, limit).snapshot == Reported(history, c)
    ensures var found := AnswerLookupResources(config, st, resourceType, permission, who, c, limit).ids;
            var f := Facts(LoadSchema(config, st).value, Seen(history, c), who.AsSubject());
            var goal := Key(resourceType, id, permission);
            && |found| <= (match limit case Some(n) => n case None => 1000)
            && (Decided(f, goal) && id in found ==> Holds(f, goal))
            && (Decided(f, goal) && |found| < (match limit case Some(n) => n case None => 1000) && Holds(f, goal) ==> id in found)
  {
    hide Check, Decided, Holds, WellFormed, Represents, Gather, ObjectIds.ListObjectIds;
    var snapshot := ResolveSnapshot(st, c);
    var schema := LoadSchema(config, st).value;
    var e := EngineAt(config, st, schema, snapshot);
    var goal := Key(resourceType, id, permission);
    ResolvesAsAsked(st, history, c);
    ListingNeedsTheSnapshot(st, resourceType, snapshot);
    var f := Facts(schema, Seen(history, c), who.AsSubject());
    LookupResourcesIsExact(config, st, resourceType, permission, who, c, limit);
    var ids := ObjectIds.ListObjectIds(st, resourceType, snapshot, None).value;
    var k := GatherCuts(e, resourceType, permission, who, ids, LimitOr(limit));
    if Decided(f, goal) && Check(e, goal, who).Ok? {
      StoredCheckIsExact(st, history, snapshot, schema, config.maxDepth, goal, who);
    }
    if id !in ids {
      LoadedSchemasAreGood(config, st);
      UnlistedHasNoTuples(st, history, resourceType, snapshot, id);
      NothingStoredNothingHolds(f, goal);
    } else if |Gather(e, resourceType, permission, who, ids, LimitOr(limit)).value| < LimitOr(limit) {
      assert ids[..k] == ids;
    }
  }

  lemma ListingNeedsTheSnapshot(st: StoreState, objectType: string, snapshot: Option<nat>)
    ensures ObjectIds.ListObjectIds(st, objectType, snapshot, None).Ok? <==> Resolve(st, snapshot).Ok?
  {
  }

  lemma UnlistedHasNoTuples(st: StoreState, history: seq<set<Tuple>>, objectType: string, snapshot: Option<nat>, id: string)
    requires WellFormed(st) && Represents(st, history) && Resolve(st, snapshot).Ok?
    requires id !in ObjectIds.ListObjectIds(st, objectType, snapshot, None).value
    ensures forall t | t in history[Resolve(st, snapshot).value] :: t.resource != ObjectRef(objectType, id)
  {
    ListObjectIdsIsExact(st, history, objectType, Resolve(st, snapshot).value);
  }

  // ----- Reading one's own writes -----

  /** An accepted write reports the token of the set it appends. */
  lemma WriteReportsItsSet(config: Config, st: StoreState, history: seq<set<Tuple>>, writes: seq<Tuple>, deletes: seq<TupleFilter>)
    requires WellFormed(st) && Represents(st, history) && st.currentTx + 1 < U64_MAX
    ensures var (st', r) := Answer(config, st, WriteRelationships(writes, deletes));
            && st'.schema == st.schema
            && (r.Written? <==> forall f | f in deletes :: f.HasAnyField())
            && (r.Written? ==>
                  && r.token == |history| && WellFormed(st')
                  && Represents(st', history + [After(history[|history| - 1], writes, deletes)]))
  {
    hide WellFormed, Represents;
    WriteKeepsWellFormed(st, writes, deletes);
    assert st.currentTx == |history| - 1 by { TokenOfHistory(st, history); }
    if Write(st, writes, deletes).1.Ok? { WriteRefinesHistory(st, history, writes, deletes); }
  }

  lemma TokenOfHistory(st: StoreState, history: seq<set<Tuple>>)
    requires Represents(st, history)
    ensures |history| == st.currentTx + 1
  {
  }

  /** The main result about freshness: after an accepted write answered with token n, a check at full consistency, and one at token n, is over what that write left. */
  lemma ReadYourWrites(config: Config, st: StoreState, history: seq<set<Tuple>>, writes: seq<Tuple>, deletes: seq<TupleFilter>,
                       goal: Key, who: Principal, c: Consistency)
    requires WellFormed(st) && Represents(st, history) && st.currentTx + 1 < U64_MAX
    requires Answer(config, st, WriteRelationships(writes, deletes)).1.Written?
    requires var n := Answer(config, st, WriteRelationships(writes, deletes)).1.token;
             c == FullConsistency || c == AtLeastAsFresh(n) || c == AtExactSnapshot(n)
    requires AnswerCheck(config, Answer(config, st, WriteRelationships(writes, deletes)).0, goal, who, c).Checked?
    ensures LoadSchema(config, st).Ok?
    ensures var (st', w) := Answer(config, st, WriteRelationships(writes, deletes));
            var r := AnswerCheck(config, st', goal, who, c);
            var f := Facts(LoadSchema(config, st).value, After(history[|history| - 1], writes, deletes), who.AsSubject());
            r.snapshot == Some(w.token) && (Decided(f, goal) ==> (r.allowed <==> Holds(f, goal)))
  {
    hide Check, Decided, Holds, WellFormed, Represents, Write, After;
    var (st', w) := Answer(config, st, WriteRelationships(writes, deletes));
    WriteReportsItsSet(config, st, history, writes, deletes);
    TokenOfHistory(st, history);
    var after := history + [After(history[|history| - 1], writes, deletes)];
    ServedCheckIsExact(config, st', after, goal, who, c);
  }

  /** A run of the service keeps what every reached token shows. */
  lemma {:induction false} RunKeepsTokens(config: Config, w: World, events: seq<Event>, tenant: TenantId)
    requires SoundWorld(config, w, |events|)
    ensures WellFormed(Get(RunAll(config, w, events).0, tenant))
    ensures Later(Get(w, tenant), Get(RunAll(config, w, events).0, tenant))
    decreases |events|
  {
    hide WellFormed, Later, Answer;
    EmptyStoreIsSound(config);
    if events == [] {
      LaterThanItself(Get(w, tenant));
    } else {
      var w' := Step(config, w, events[0]).0;
      StepKeepsSoundWorld(config, w, events[0], |events| - 1);
      RunKeepsTokens(config, w', events[1..], tenant);
      if events[0].Call? && events[0].tenant == tenant {
        AnswerKeepsSound(config, Get(w, tenant), events[0].request);
      } else {
        LaterThanItself(Get(w, tenant));
      }
      LaterTransitive(Get(w, tenant), Get(w', tenant), Get(RunAll(config, w, events).0, tenant));
    }
  }

  lemma LaterThanItself(st: StoreState)
    ensures Later(st, st)
  {
  }

  /** And the token stays good: after any further run of all tenants, a check at it is still over what the write left, under the schema of the day. */
  lemma ReadYourWritesLater(config: Config, w: World, history: seq<set<Tuple>>, events: seq<Event>, tenant: TenantId, token: nat,
                            goal: Key, who: Principal, c: Consistency)
    requires SoundWorld(config, w, |events|) && Represents(Get(w, tenant), history) && token < |history|
    requires c == AtLeastAsFresh(token) || c == AtExactSnapshot(token)
    requires AnswerCheck(config, Get(RunAll(config, w, events).0, tenant), goal, who, c).Checked?
    ensures var st := Get(RunAll(config, w, events).0, tenant);
            var r := AnswerCheck(config, st, goal, who, c);
            && LoadSchema(config, st).Ok? && r.snapshot == Some(token)
            && var f := Facts(LoadSchema(config, st).value, history[token], who.AsSubject());
               (Decided(f, goal) ==> (r.allowed <==> Holds(f, goal)))
  {
    hide Check, Decided, Holds, WellFormed, Later, RunAll, VisibleSet;
    var before, st := Get(w, tenant), Get(RunAll(config, w, events).0, tenant);
    RunKeepsTokens(config, w, events, tenant);
    var now := seq(st.currentTx + 1, i requires 0 <= i <= st.currentTx => VisibleSet(st.tuples, i));
    TokensGrow(before, st);
    VisibleSetIsFrozen(before, st, token);
    ServedCheckIsExact(config, st, now, goal, who, c);
  }

  lemma TokensGrow(a: StoreState, b: StoreState)
    requires Later(a, b) && WellFormed(b)
    ensures a.currentTx <= b.currentTx < U64_MAX
  {
  }

  // ----- Schemas that are written are served -----

  /** The text of a good schema, once accepted, is read back as it was written and loaded as that schema. */
  lemma WrittenSchemaIsServed(config: Config, st: StoreState, definition: string, force: bool, schema: Schema)
    requires GoodSchema(schema) && config.grammar(definition) == Ok(TreeOf(schema))
    requires Answer(config, st, WriteSchema(definition, force)).1.SchemaWritten?
    ensures var st' := Answer(config, st, WriteSchema(definition, force)).0;
            && LoadSchema(config, st') == Ok(schema)
            && Answer(config, st', ReadSchema).1 == SchemaText(Some(definition))
            && st'.tuples == st.tuples && st'.currentTx == st.currentTx
  {
    hide SchemaOf, GoodSchema, LimitErrors, TypeChanges;
    SchemaRoundTrip(schema);
  }

  /** How a schema write ends: the first of syntax, limits, an unreadable old text, and unforced breaking changes, or else stored. */
  lemma WriteSchemaIsExact(config: Config, st: StoreState, definition: string, force: bool)
    ensures var (st', r) := Answer(config, st, WriteSchema(definition, force));
            var parsed := SchemaOf(config.grammar(definition));
            if parsed.Err? then st' == st && r == Failed(ParseFailed(parsed.error))
            else if !WithinLimits(parsed.value, config.limits) then
              && st' == st && r.Failed? && r.error.ValidationFailed?
              && forall x :: x in r.error.errors <==> x in LimitErrors(parsed.value, config.limits)
            else if st.schema.None? then st' == st.(schema := Some(definition)) && r == SchemaWritten(false)
            else if LoadSchema(config, st).Err? then st' == st && r == Failed(LoadSchema(config, st).error)
            else
              var breaks := exists c :: Happened(LoadSchema(config, st).value, parsed.value, c);
              if breaks && !force then
                && st' == st && r.Failed? && r.error.BreakingChangesFound?
                && forall c :: c in r.error.changes <==> Happened(LoadSchema(config, st).value, parsed.value, c)
              else
                st' == st.(schema := Some(definition)) && r == SchemaWritten(breaks)
  {
    hide SchemaOf, LimitErrors, TypeChanges, WithinLimits, HappenedTo;
    var parsed := SchemaOf(config.grammar(definition));
    if parsed.Ok? {
      NoLimitErrors(parsed.value, config.limits);
      if st.schema.Some? && LoadSchema(config, st).Ok? {
        var old_ := LoadSchema(config, st).value;
        var changes := TypeChanges(old_.types, parsed.value);
        forall c ensures c in changes <==> Happened(old_, parsed.value, c) { TypeChangesHappened(old_.types, parsed.value, c); }
        if changes != [] { assert changes[0] in changes; }
      }
    }
  }
}
