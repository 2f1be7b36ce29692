/** When the engines answer at all: names resolve, stored targets have the asked permission, the limit suffices. */
module Answers {
  import opened Common
  import opened Tuples
  import opened Schemas
  import opened Checking
  import opened Expansion
  import opened ExpandAgreement
  import opened DepthAndOrder
  import opened DepthBound
  import opened ExpandDepthBound
  import opened Exactness

  /** The names of the rule exist on its type, and every stored tuple that an arrow can follow leads to a permission. */
  ghost predicate Resolves(schema: Schema, db: set<Tuple>, rule: RewriteRule, ot: string) {
    match rule
    case This(name) => schema.RuleOf(ot, name).Some? || schema.IsRelation(ot, name)
    case Union(children) => forall c | c in children :: Resolves(schema, db, c, ot)
    case Intersection(children) => forall c | c in children :: Resolves(schema, db, c, ot)
    case Exclusion(base, excluded) => Resolves(schema, db, base, ot) && Resolves(schema, db, excluded, ot)
    case Arrow(tupleset, computed) =>
      forall t | t in db && t.resource.objectType == ot && t.relation == tupleset :: schema.RuleOf(t.subject.subjectType, computed).Some?
  }

  ghost predicate AllResolve(schema: Schema, db: set<Tuple>) {
    forall ot, p :: schema.RuleOf(ot, p).Some? ==> Resolves(schema, db, schema.RuleOf(ot, p).value, ot)
  }

  ghost predicate Answering(read: Reader, db: set<Tuple>) {
    Reads(read, db) && forall f :: read(f).Ok?
  }

  /** Reading a userset whole and reading it for one subject agree, because both reads list the same set. */
  lemma AnsweringIsCoherent(read: Reader, db: set<Tuple>)
    requires Answering(read, db)
    ensures Coherent(read)
  {
    forall u: SubjectRef, who: Principal | u.subjectRelation.Some?
      ensures read(UsersetMember(u, who)).value != []
         <==> exists t | t in read(RowsOf(u.subjectType, u.subjectId, u.subjectRelation.value)).value :: t.subject == who.AsSubject()
    {
      var broad, narrow := RowsOf(u.subjectType, u.subjectId, u.subjectRelation.value), UsersetMember(u, who);
      forall t: Tuple ensures narrow.Matches(t) <==> broad.Matches(t) && t.subject == who.AsSubject() {}
      var one := read(narrow).value;
      if one != [] { assert one[0] in one; }
    }
  }

  ghost predicate OkOrTooDeep<T>(r: Result<T, CheckError>) { r.Ok? || TooDeep(r) }

  lemma CollectAnswers<T>(rs: seq<Result<T, CheckError>>)
    requires forall i | 0 <= i < |rs| :: OkOrTooDeep(rs[i])
    ensures OkOrTooDeep(Collect(rs))
  {
  }

  lemma {:induction false} RuleAnswers(e: Engine, db: set<Tuple>, rule: RewriteRule, ot: string, oi: string, depth: nat, visited: set<Key>)
    requires Answering(e.read, db) && AllResolve(e.schema, db) && Resolves(e.schema, db, rule, ot)
    ensures OkOrTooDeep(ExpandRule(e, rule, ot, oi, depth, visited))
    decreases 2 * Fuel(e.maxDepth, depth), rule
  {
    hide ExpandTarget, Subjects;
    if depth <= e.maxDepth {
      match rule
      case This(name) =>
        var p := e.schema.RuleOf(ot, name);
        if p.Some? {
          RuleAnswers(e, db, p.value, ot, oi, depth + 1, visited);
        } else {
          SubjectsAnswer(e, db, e.read(RowsOf(ot, oi, name)).value);
        }
      case Union(children) => ChildrenAnswer(e, db, children, ot, oi, depth, visited);
      case Intersection(children) => ChildrenAnswer(e, db, children, ot, oi, depth, visited);
      case Exclusion(base, excluded) =>
        RuleAnswers(e, db, base, ot, oi, depth, visited);
        RuleAnswers(e, db, excluded, ot, oi, depth, visited);
      case Arrow(tupleset, computed) =>
        var rows := e.read(RowsOf(ot, oi, tupleset)).value;
        var rs := ExpandTargets(e, rows, computed, depth, visited);
        forall i | 0 <= i < |rs| ensures OkOrTooDeep(rs[i]) {
          assert rows[i] in rows;
          TargetAnswers(e, db, rows[i], computed, depth, visited);
        }
        CollectAnswers(rs);
    }
  }

  lemma SubjectsAnswer(e: Engine, db: set<Tuple>, rows: seq<Tuple>)
    requires Answering(e.read, db)
    ensures Collect(SubjectsEach(e, rows)).Ok?
  {
    var rs := SubjectsEach(e, rows);
    forall i | 0 <= i < |rs| ensures rs[i].Ok? {
      var u := rows[i].subject;
      if u.subjectRelation.Some? { assert e.read(RowsOf(u.subjectType, u.subjectId, u.subjectRelation.value)).Ok?; }
    }
  }

  lemma {:induction false} ChildrenAnswer(e: Engine, db: set<Tuple>, children: seq<RewriteRule>, ot: string, oi: string, depth: nat, visited: set<Key>)
    requires Answering(e.read, db) && AllResolve(e.schema, db) && forall c | c in children :: Resolves(e.schema, db, c, ot)
    ensures OkOrTooDeep(Collect(ExpandEach(e, children, ot, oi, depth, visited)))
    decreases 2 * Fuel(e.maxDepth, depth), children
  {
    var rs := ExpandEach(e, children, ot, oi, depth, visited);
    forall i | 0 <= i < |rs| ensures OkOrTooDeep(rs[i]) { RuleAnswers(e, db, children[i], ot, oi, depth, visited); }
    CollectAnswers(rs);
  }

  lemma {:induction false} TargetAnswers(e: Engine, db: set<Tuple>, t: Tuple, computed: string, depth: nat, visited: set<Key>)
    requires Answering(e.read, db) && AllResolve(e.schema, db) && depth <= e.maxDepth
    requires e.schema.RuleOf(t.subject.subjectType, computed).Some?
    ensures OkOrTooDeep(ExpandTarget(e, t, computed, depth, visited))
    decreases 2 * Fuel(e.maxDepth, depth) - 1, 0
  {
    var k := Target(t, computed);
    if k !in visited {
      RuleAnswers(e, db, e.schema.RuleOf(k.objectType, computed).value, k.objectType, k.objectId, depth + 1, visited + {k});
    }
  }

  /** The main result: under these conditions both engines return an answer and no error, and the same one. */
  lemma BothEnginesAnswer(e: Engine, db: set<Tuple>, level: (string, string) -> nat, r: nat, goal: Key, who: Principal)
    requires Answering(e.read, db) && AllResolve(e.schema, db)
    requires e.schema.RuleOf(goal.objectType, goal.permission).Some?
    requires Levels(e.schema, level, r) && e.maxDepth >= |ArrowKeys(e.schema, db)| * (r + 1) + r
    ensures Expand(e, goal).Ok?
    ensures Check(e, goal, who) == Ok(Member(Expand(e, goal).value, who.AsSubject()))
  {
    RuleAnswers(e, db, e.schema.RuleOf(goal.objectType, goal.permission).value, goal.objectType, goal.objectId, 0, {});
    PruningBoundsExpansion(e, db, level, r, goal);
    AnsweringIsCoherent(e.read, db);
    CheckAgreesWithExpand(e, goal, who);
  }

  // ----- A tuple that leads nowhere -----

  const PARENT_VIEW := Arrow("parent", "view")
  const FOLDER := TypeDefinition("doc", [RelationDef("parent", [SubjectTypeRef("doc", None)])], [PermissionDef("view", PARENT_VIEW)])
  const STRAY := Tuple(ObjectRef("doc", "1"), "parent", SubjectRef("user", "a", None))

  /** Where a rule follows a tuple to a type without the permission, check never denies: it allows or fails. */
  lemma StrayTupleIsNeverDenied(e: Engine, db: set<Tuple>, goal: Key, who: Principal, tupleset: string, computed: string, t: Tuple)
    requires Answering(e.read, db) && e.schema.RuleOf(goal.objectType, goal.permission) == Some(Arrow(tupleset, computed))
    requires t in db && t.resource == ObjectRef(goal.objectType, goal.objectId) && t.relation == tupleset
    requires e.schema.RuleOf(t.subject.subjectType, computed).None?
    ensures Check(e, goal, who) != Ok(false)
  {
    hide AnyOf, EvaluateTarget;
    var rows := e.read(RowsOf(goal.objectType, goal.objectId, tupleset)).value;
    assert t in rows;
    var i :| 0 <= i < |rows| && rows[i] == t;
    var ctx := Context(who, 0, {});
    StrayTargetFails(e, t, computed, ctx);
    assert EvaluateTargets(e, rows, computed, ctx)[i].Err?;
    assert EvaluateRule(e, Arrow(tupleset, computed), goal.objectType, goal.objectId, ctx) == EvaluateArrow(e, tupleset, computed, goal.objectType, goal.objectId, ctx);
  }

  lemma StrayTargetFails(e: Engine, t: Tuple, computed: string, ctx: Context)
    requires ctx.depth <= e.maxDepth && Target(t, computed) !in ctx.visited
    requires e.schema.RuleOf(t.subject.subjectType, computed).None?
    ensures EvaluateTarget(e, t, computed, ctx).Err?
  {
  }

  /** The store accepts tuples that the schema has no place for; with this one alone, check fails at every limit. */
  lemma StrayTupleFails(e: Engine, who: Principal)
    requires e.schema == Schema([FOLDER]) && Answering(e.read, {STRAY})
    ensures Check(e, Key("doc", "1", "view"), who) == Err(TypeNotFound("user"))
  {
    var ctx := Context(who, 0, {});
    assert e.schema.GetType("doc") == Some(FOLDER) && e.schema.GetType("user").None?;
    assert FOLDER.GetPermission("view") == Some(PermissionDef("view", PARENT_VIEW));
    var rows := e.read(RowsOf("doc", "1", "parent")).value;
    assert STRAY in rows;
    forall i | 0 <= i < |rows| ensures rows[i] == STRAY { assert rows[i] in rows; }
    assert EvaluateTarget(e, STRAY, "view", ctx) == Err(TypeNotFound("user"));
    AnyOfStopsAt(EvaluateTargets(e, rows, "view", ctx), 0);
    assert EvaluateRule(e, PARENT_VIEW, "doc", "1", ctx) == Err(TypeNotFound("user"));
  }
}
