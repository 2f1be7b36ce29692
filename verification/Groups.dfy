/** Nested groups: what following a userset one level only misses, and when it misses nothing. */
module Groups {
  import opened Common
  import opened Tuples
  import opened Schemas
  import opened Checking
  import opened Semantics
  import opened Exactness
  import opened Answers

  /** The subject is reached from the relation through at most `n` usersets, each stored in the one before. */
  ghost predicate MemberWithin(db: set<Tuple>, who: Principal, n: nat, name: string, ot: string, oi: string) {
    exists t | t in db && t.resource == ObjectRef(ot, oi) && t.relation == name ::
      || t.subject == who.AsSubject()
      || (n > 0 && t.subject.subjectRelation.Some?
          && MemberWithin(db, who, n - 1, t.subject.subjectRelation.value, t.subject.subjectType, t.subject.subjectId))
  }

  /** The reading in which nested groups work: any number of usersets. */
  ghost predicate TransitiveMember(db: set<Tuple>, who: Principal, name: string, ot: string, oi: string) {
    exists n: nat :: MemberWithin(db, who, n, name, ot, oi)
  }

  /** What a relation read computes is membership within one userset. */
  lemma StoredIsOneLevel(db: set<Tuple>, who: Principal, name: string, ot: string, oi: string)
    ensures StoredIn(db, who.AsSubject(), name, ot, oi) <==> MemberWithin(db, who, 1, name, ot, oi)
  {
    forall t | t in db && t.resource == ObjectRef(ot, oi) && t.relation == name && t.subject.subjectRelation.Some?
      ensures UsersetRow(t.subject, who.AsSubject()) in db
         <==> MemberWithin(db, who, 0, t.subject.subjectRelation.value, t.subject.subjectType, t.subject.subjectId)
    {
    }
  }

  lemma StoredIsTransitive(db: set<Tuple>, who: Principal, name: string, ot: string, oi: string)
    requires StoredIn(db, who.AsSubject(), name, ot, oi)
    ensures TransitiveMember(db, who, name, ot, oi)
  {
    StoredIsOneLevel(db, who, name, ot, oi);
  }

  // ----- One relation -----

  /** Each userset that is named inside a userset of the relation is itself stored in the relation. */
  ghost predicate Flattened(db: set<Tuple>, name: string, ot: string, oi: string) {
    forall t, u |
      && t in db && t.resource == ObjectRef(ot, oi) && t.relation == name && t.subject.subjectRelation.Some?
      && u in db && u.resource == ObjectRef(t.subject.subjectType, t.subject.subjectId) && u.relation == t.subject.subjectRelation.value
      && u.subject.subjectRelation.Some?
      :: Tuple(ObjectRef(ot, oi), name, u.subject) in db
  }

  lemma {:induction false} FlattenedMember(db: set<Tuple>, who: Principal, n: nat, name: string, ot: string, oi: string)
    requires Flattened(db, name, ot, oi) && MemberWithin(db, who, n, name, ot, oi)
    ensures StoredIn(db, who.AsSubject(), name, ot, oi)
  {
    var t :| t in db && t.resource == ObjectRef(ot, oi) && t.relation == name
      && (t.subject == who.AsSubject()
          || (n > 0 && t.subject.subjectRelation.Some?
              && MemberWithin(db, who, n - 1, t.subject.subjectRelation.value, t.subject.subjectType, t.subject.subjectId)));
    if t.subject != who.AsSubject() {
      var group := t.subject;
      var u :| u in db && u.resource == ObjectRef(group.subjectType, group.subjectId) && u.relation == group.subjectRelation.value
        && (u.subject == who.AsSubject()
            || (n > 1 && u.subject.subjectRelation.Some?
                && MemberWithin(db, who, n - 2, u.subject.subjectRelation.value, u.subject.subjectType, u.subject.subjectId)));
      if u.subject == who.AsSubject() {
        assert UsersetRow(group, who.AsSubject()) == u;
      } else {
        assert Tuple(ObjectRef(ot, oi), name, u.subject) in db;
        FlattenedMember(db, who, n - 1, name, ot, oi);
      }
    }
  }

  /** For a flattened relation one level is the transitive reading, for every subject. */
  lemma FlatteningSuffices(db: set<Tuple>, who: Principal, name: string, ot: string, oi: string)
    requires Flattened(db, name, ot, oi)
    ensures StoredIn(db, who.AsSubject(), name, ot, oi) <==> TransitiveMember(db, who, name, ot, oi)
  {
    if StoredIn(db, who.AsSubject(), name, ot, oi) { StoredIsTransitive(db, who, name, ot, oi); }
    if n: nat :| MemberWithin(db, who, n, name, ot, oi) { FlattenedMember(db, who, n, name, ot, oi); }
  }

  // ----- All relations -----

  /** In no relation do two levels of usersets admit anyone whom one level does not. */
  ghost predicate TwoLevelsAddNothing(db: set<Tuple>) {
    forall who: Principal, name, ot, oi :: MemberWithin(db, who, 2, name, ot, oi) ==> StoredIn(db, who.AsSubject(), name, ot, oi)
  }

  ghost predicate NestedGroupsWork(db: set<Tuple>) {
    forall who: Principal, name, ot, oi :: StoredIn(db, who.AsSubject(), name, ot, oi) <==> TransitiveMember(db, who, name, ot, oi)
  }

  lemma {:induction false} LevelsCollapse(db: set<Tuple>, who: Principal, n: nat, name: string, ot: string, oi: string)
    requires TwoLevelsAddNothing(db) && MemberWithin(db, who, n, name, ot, oi)
    ensures StoredIn(db, who.AsSubject(), name, ot, oi)
  {
    var t :| t in db && t.resource == ObjectRef(ot, oi) && t.relation == name
      && (t.subject == who.AsSubject()
          || (n > 0 && t.subject.subjectRelation.Some?
              && MemberWithin(db, who, n - 1, t.subject.subjectRelation.value, t.subject.subjectType, t.subject.subjectId)));
    if t.subject != who.AsSubject() {
      var group := t.subject;
      LevelsCollapse(db, who, n - 1, group.subjectRelation.value, group.subjectType, group.subjectId);
      StoredIsOneLevel(db, who, group.subjectRelation.value, group.subjectType, group.subjectId);
      assert MemberWithin(db, who, 2, name, ot, oi);
    }
  }

  /** The exact condition: nested groups work for a store if and only if a second level adds nothing to any relation of it. */
  lemma WhenNestedGroupsWork(db: set<Tuple>)
    ensures NestedGroupsWork(db) <==> TwoLevelsAddNothing(db)
  {
    if NestedGroupsWork(db) {
      forall who: Principal, name, ot, oi | MemberWithin(db, who, 2, name, ot, oi) ensures StoredIn(db, who.AsSubject(), name, ot, oi) {
        assert TransitiveMember(db, who, name, ot, oi);
      }
    }
    if TwoLevelsAddNothing(db) {
      forall who: Principal, name, ot, oi ensures StoredIn(db, who.AsSubject(), name, ot, oi) <==> TransitiveMember(db, who, name, ot, oi) {
        if StoredIn(db, who.AsSubject(), name, ot, oi) { StoredIsTransitive(db, who, name, ot, oi); }
        if n: nat :| MemberWithin(db, who, n, name, ot, oi) { LevelsCollapse(db, who, n, name, ot, oi); }
      }
    }
  }

  // ----- Check -----

  /** A permission that is a stored relation: check answers, and its answer is membership within one level. */
  lemma RelationCheckIsOneLevel(e: Engine, db: set<Tuple>, goal: Key, name: string, who: Principal)
    requires Answering(e.read, db) && e.schema.IsRelation(goal.objectType, name)
    requires e.schema.RuleOf(goal.objectType, goal.permission) == Some(This(name))
    ensures Check(e, goal, who) == Ok(StoredIn(db, who.AsSubject(), name, goal.objectType, goal.objectId))
  {
    var f := Facts(e.schema, db, who.AsSubject());
    var rs := AdmitsEach(e, e.read(RowsOf(goal.objectType, goal.objectId, name)).value, who);
    assert forall i | 0 <= i < |rs| :: rs[i].Ok?;
    RelationIsExact(e, f, name, goal.objectType, goal.objectId, who);
    assert EvaluateRule(e, This(name), goal.objectType, goal.objectId, Context(who, 0, {})) == AnyOf(rs);
  }

  /** Under either condition check answers the transitive reading. */
  lemma NestedGroupsInCheck(e: Engine, db: set<Tuple>, goal: Key, name: string, who: Principal)
    requires Answering(e.read, db) && e.schema.IsRelation(goal.objectType, name)
    requires e.schema.RuleOf(goal.objectType, goal.permission) == Some(This(name))
    requires Flattened(db, name, goal.objectType, goal.objectId) || TwoLevelsAddNothing(db)
    ensures Check(e, goal, who) == Ok(TransitiveMember(db, who, name, goal.objectType, goal.objectId))
  {
    RelationCheckIsOneLevel(e, db, goal, name, who);
    if TwoLevelsAddNothing(db) {
      WhenNestedGroupsWork(db);
    } else {
      FlatteningSuffices(db, who, name, goal.objectType, goal.objectId);
    }
  }

  // ----- A group in a group -----

  const ALICE := Principal("user", "alice")
  const GROUP_A := SubjectRef("group", "a", Some("member"))
  const GROUP_B := SubjectRef("group", "b", Some("member"))
  const NESTED := {
    Tuple(ObjectRef("doc", "1"), "viewer", GROUP_A),
    Tuple(ObjectRef("group", "a"), "member", GROUP_B),
    Tuple(ObjectRef("group", "b"), "member", ALICE.AsSubject())
  }
  const VIEWER := RelationDef("viewer", [SubjectTypeRef("user", None), SubjectTypeRef("group", Some("member"))])
  const DOC := TypeDefinition("doc", [VIEWER], [PermissionDef("view", This("viewer"))])

  /** Alice is in a group of a group of viewers, and check denies her. */
  lemma NestedGroupIsDenied(e: Engine)
    requires e.schema == Schema([DOC]) && Answering(e.read, NESTED)
    ensures TransitiveMember(NESTED, ALICE, "viewer", "doc", "1")
    ensures Check(e, Key("doc", "1", "view"), ALICE) == Ok(false)
  {
    var inB := Tuple(ObjectRef("group", "b"), "member", ALICE.AsSubject());
    var inA := Tuple(ObjectRef("group", "a"), "member", GROUP_B);
    assert inB in NESTED && inA in NESTED;
    assert MemberWithin(NESTED, ALICE, 0, "member", "group", "b");
    assert MemberWithin(NESTED, ALICE, 1, "member", "group", "a");
    assert MemberWithin(NESTED, ALICE, 2, "viewer", "doc", "1");
    assert DOC.GetPermission("view") == Some(PermissionDef("view", This("viewer")));
    assert DOC.GetPermission("viewer").None? && DOC.GetRelation("viewer") == Some(VIEWER);
    assert e.schema.GetType("doc") == Some(DOC);
    RelationCheckIsOneLevel(e, NESTED, Key("doc", "1", "view"), "viewer", ALICE);
    assert UsersetRow(GROUP_A, ALICE.AsSubject()) !in NESTED;
  }
}
