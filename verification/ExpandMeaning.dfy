/** Expansion respects the meaning of permissions too, for every subject: a tree holds usersets as well as direct subjects. */
module ExpandExactness {
  import opened Common
  import opened Tuples
  import opened Schemas
  import opened Checking
  import opened Expansion
  import opened ExpandAgreement
  import opened Semantics
  import opened Estimates
  import opened Exactness

  /** The main result: a subject, direct or userset, with a settled permission is a member of the tree exactly when it holds. */
  lemma ExpandIsExact(e: Engine, f: Facts, goal: Key)
    requires e.schema == f.schema && Reads(e.read, f.db)
    requires Decided(f, goal)
    requires Expand(e, goal).Ok?
    ensures Member(Expand(e, goal).value, f.who) <==> Holds(f, goal)
  {
    var j: nat :| Sure(f, {}, j, goal) || !Possible(f, {}, j, goal);
    ExpandRespectsEstimates(e, f, goal, j);
    if Sure(f, {}, j, goal) {
      SureHolds(f, j, goal);
    } else if i: nat :| Sure(f, {}, i, goal) {
      EstimatesAreConsistent(f, {}, i, j, goal);
    }
  }

  /** After any number of improvements: a member has not been ruled out, a subject that is no member has not been established. */
  lemma ExpandRespectsEstimates(e: Engine, f: Facts, goal: Key, j: nat)
    requires e.schema == f.schema && Reads(e.read, f.db)
    requires Expand(e, goal).Ok?
    ensures Member(Expand(e, goal).value, f.who) ==> Possible(f, {}, j, goal)
    ensures !Member(Expand(e, goal).value, f.who) ==> !Sure(f, {}, j, goal)
  {
    if j > 0 {
      var rule := f.schema.RuleOf(goal.objectType, goal.permission).value;
      ExpansionIsExact(e, f, rule, goal.objectType, goal.objectId, 0, {});
      VerdictOnGoal(f, {}, j - 1, goal, Member(Expand(e, goal).value, f.who));
    }
  }

  lemma {:induction false} ExpansionIsExact(e: Engine, f: Facts, rule: RewriteRule, ot: string, oi: string, depth: nat, visited: set<Key>)
    requires e.schema == f.schema && Reads(e.read, f.db)
    requires ExpandRule(e, rule, ot, oi, depth, visited).Ok?
    ensures Respects(Ok(Member(ExpandRule(e, rule, ot, oi, depth, visited).value, f.who)), f, visited, rule, ot, oi)
    decreases 2 * Fuel(e.maxDepth, depth), rule
  {
    hide Respects, ExpandThis, ExpandArrow, ExpandEach, Collect, AnyOf, AllOf;
    match rule
    case This(name) => NameIsExact(e, f, name, ot, oi, depth, visited);
    case Union(children) => ChildrenAreExact(e, f, children, ot, oi, depth, visited);
    case Intersection(children) => ChildrenAreExact(e, f, children, ot, oi, depth, visited);
    case Exclusion(base, excluded) =>
      ExpansionIsExact(e, f, base, ot, oi, depth, visited);
      ExpansionIsExact(e, f, excluded, ot, oi, depth, visited);
      var b, x := ExpandRule(e, base, ot, oi, depth, visited).value, ExpandRule(e, excluded, ot, oi, depth, visited).value;
      ExclusionIsExact(f, Ok(Member(b, f.who)), Ok(Member(x, f.who)), base, excluded, ot, oi, visited);
    case Arrow(tupleset, computed) => BranchesAreExact(e, f, tupleset, computed, ot, oi, depth, visited);
  }

  function Verdicts(trees: seq<ExpandTree>, s: SubjectRef): (rs: seq<Outcome>)
    ensures |rs| == |trees| && forall i | 0 <= i < |rs| :: rs[i] == Ok(Member(trees[i], s))
  {
    seq(|trees|, i requires 0 <= i < |trees| => Ok(Member(trees[i], s)))
  }

  lemma VerdictsFold(trees: seq<ExpandTree>, s: SubjectRef)
    ensures AnyOf(Verdicts(trees, s)) == Ok(exists t | t in trees :: Member(t, s))
    ensures AllOf(Verdicts(trees, s)) == Ok(forall t | t in trees :: Member(t, s))
  {
    var rs := Verdicts(trees, s);
    if i :| 0 <= i < |trees| && Member(trees[i], s) { assert trees[i] in trees && rs[i] != Ok(false); }
    if i :| 0 <= i < |trees| && !Member(trees[i], s) { assert trees[i] in trees && rs[i] != Ok(true); }
  }

  lemma {:induction false} ChildrenAreExact(e: Engine, f: Facts, children: seq<RewriteRule>, ot: string, oi: string, depth: nat, visited: set<Key>)
    requires e.schema == f.schema && Reads(e.read, f.db)
    requires Collect(ExpandEach(e, children, ot, oi, depth, visited)).Ok?
    ensures var trees := Collect(ExpandEach(e, children, ot, oi, depth, visited)).value;
            && Respects(Ok(exists t | t in trees :: Member(t, f.who)), f, visited, Union(children), ot, oi)
            && Respects(Ok(forall t | t in trees :: Member(t, f.who)), f, visited, Intersection(children), ot, oi)
    decreases 2 * Fuel(e.maxDepth, depth), children
  {
    hide Respects, ExpandRule, Collect, AnyOf, AllOf;
    var ts := ExpandEach(e, children, ot, oi, depth, visited);
    var trees := Collect(ts).value;
    var rs := Verdicts(trees, f.who);
    forall i | 0 <= i < |children| ensures Respects(rs[i], f, visited, children[i], ot, oi) {
      assert ts[i] == Ok(trees[i]);
      ExpansionIsExact(e, f, children[i], ot, oi, depth, visited);
    }
    VerdictsFold(trees, f.who);
    UnionIsExact(f, rs, children, ot, oi, visited);
    IntersectionIsExact(f, rs, children, ot, oi, visited);
  }

  // ----- Relation nodes -----

  lemma {:induction false} NameIsExact(e: Engine, f: Facts, name: string, ot: string, oi: string, depth: nat, visited: set<Key>)
    requires e.schema == f.schema && Reads(e.read, f.db) && depth <= e.maxDepth
    requires ExpandThis(e, name, ot, oi, depth, visited).Ok?
    ensures Respects(Ok(Member(ExpandThis(e, name, ot, oi, depth, visited).value, f.who)), f, visited, This(name), ot, oi)
    decreases 2 * Fuel(e.maxDepth, depth) - 1, 0
  {
    hide Collect, Flatten;
    var p := f.schema.RuleOf(ot, name);
    var tree := ExpandThis(e, name, ot, oi, depth, visited).value;
    if p.Some? {
      ExpansionIsExact(e, f, p.value, ot, oi, depth + 1, visited);
      NameIsItsRule(f, visited, name, ot, oi, Member(tree, f.who));
    } else {
      RelationNodeIsExact(e, f.db, f.who, name, ot, oi);
      StoredVerdict(f, visited, name, ot, oi);
    }
  }

  /** A stored relation needs no estimate. */
  lemma StoredVerdict(f: Facts, visited: set<Key>, name: string, ot: string, oi: string)
    requires f.schema.IsRelation(ot, name)
    ensures Respects(Ok(Stored(f, name, ot, oi)), f, visited, This(name), ot, oi)
  {
    forall v: View, n: nat | v.facts == f ensures Derives(v, n, This(name), ot, oi) == Stored(f, name, ot, oi) {}
    forall j: nat ensures Derived(PossibleView(f, visited, j), This(name), ot, oi) == Stored(f, name, ot, oi) {
      assert Derives(PossibleView(f, visited, j), 0, This(name), ot, oi) == Stored(f, name, ot, oi);
    }
  }

  /** The members of a relation node: direct subjects stored in it, and whatever is stored in the usersets stored in it. */
  lemma RelationNodeIsExact(e: Engine, db: set<Tuple>, s: SubjectRef, name: string, ot: string, oi: string)
    requires Reads(e.read, db) && e.schema.IsRelation(ot, name)
    requires e.read(RowsOf(ot, oi, name)).Ok? && Collect(SubjectsEach(e, e.read(RowsOf(ot, oi, name)).value)).Ok?
    ensures var subjects := Flatten(Collect(SubjectsEach(e, e.read(RowsOf(ot, oi, name)).value)).value);
            Member(Relation(name, Leaves(subjects)), s) <==> StoredIn(db, s, name, ot, oi)
  {
    hide Collect, Flatten;
    var rows := e.read(RowsOf(ot, oi, name)).value;
    var lists := Collect(SubjectsEach(e, rows)).value;
    forall i | 0 <= i < |rows| ensures s in lists[i] <==> Contributes(db, s, rows[i]) {
      assert SubjectsEach(e, rows)[i] == Ok(lists[i]);
      RowIsExact(e, db, s, rows[i]);
    }
    LeavesHold(Flatten(lists), s);
    if i :| 0 <= i < |lists| && s in lists[i] { assert rows[i] in rows; }
    if t :| t in db && t.resource == ObjectRef(ot, oi) && t.relation == name && Contributes(db, s, t) {
      assert t in rows;
      var i :| 0 <= i < |rows| && rows[i] == t;
      assert s in lists[i];
    }
  }

  /** The row stands for the subject: it names it directly, or names a userset that it is stored in. */
  ghost predicate Contributes(db: set<Tuple>, s: SubjectRef, t: Tuple) {
    || (t.subject == s && s.subjectRelation.None?)
    || (t.subject.subjectRelation.Some? && UsersetRow(t.subject, s) in db)
  }

  /** A row with a userset stands for the subjects stored in that userset, and not for the userset itself. */
  lemma RowIsExact(e: Engine, db: set<Tuple>, s: SubjectRef, t: Tuple)
    requires Reads(e.read, db) && Subjects(e, t).Ok?
    ensures s in Subjects(e, t).value <==> Contributes(db, s, t)
  {
    var u := t.subject;
    if u.subjectRelation.Some? {
      var members := e.read(RowsOf(u.subjectType, u.subjectId, u.subjectRelation.value)).value;
      var ss := SubjectsOf(members);
      if s in ss {
        var i :| 0 <= i < |ss| && ss[i] == s;
        assert members[i] in members && members[i] == UsersetRow(u, s);
      }
      if UsersetRow(u, s) in db {
        assert UsersetRow(u, s) in members;
        var i :| 0 <= i < |members| && members[i] == UsersetRow(u, s);
        assert ss[i] == s;
      }
    }
  }

  // ----- Arrows -----

  lemma {:induction false} BranchesAreExact(e: Engine, f: Facts, tupleset: string, computed: string, ot: string, oi: string, depth: nat, visited: set<Key>)
    requires e.schema == f.schema && Reads(e.read, f.db) && depth <= e.maxDepth
    requires ExpandArrow(e, tupleset, computed, ot, oi, depth, visited).Ok?
    ensures Respects(Ok(Member(ExpandArrow(e, tupleset, computed, ot, oi, depth, visited).value, f.who)), f, visited, Arrow(tupleset, computed), ot, oi)
    decreases 2 * Fuel(e.maxDepth, depth) - 1, 1
  {
    hide ExpandTarget, Derived, Derivable, Flatten, Collect;
    var rule := Arrow(tupleset, computed);
    var rows := e.read(RowsOf(ot, oi, tupleset)).value;
    var ts := ExpandTargets(e, rows, computed, depth, visited);
    var lists := Collect(ts).value;
    var tree := ExpandArrow(e, tupleset, computed, ot, oi, depth, visited).value;
    forall i | 0 <= i < |rows| ensures ts[i] == Ok(lists[i]) {}
    if Member(tree, f.who) {
      assert tree == ArrowNode(tupleset, computed, Flatten(lists));
      var c :| c in Flatten(lists) && Member(c, f.who);
      var k :| 0 <= k < |lists| && c in lists[k];
      var t := rows[k];
      BranchIsExact(e, f, computed, t, depth, visited);
      assert t in rows && Follows(f, t, ot, oi, tupleset, computed);
      forall j: nat ensures Derived(PossibleView(f, visited, j), rule, ot, oi) {
        TargetGivesArrow(PossibleView(f, visited, j), tupleset, computed, ot, oi, t);
      }
    } else {
      forall t, j: nat | Follows(f, t, ot, oi, tupleset, computed) && Target(t, computed) !in visited
        ensures !Derivable(SureView(f, visited, j), Target(t, computed))
      {
        assert t in rows;
        var k :| 0 <= k < |rows| && rows[k] == t;
        BranchIsExact(e, f, computed, t, depth, visited);
        forall c | c in lists[k] ensures !Member(c, f.who) { assert c in Flatten(lists); }
      }
      forall j: nat ensures !Derived(SureView(f, visited, j), rule, ot, oi) {
        NoTargetNoArrow(SureView(f, visited, j), tupleset, computed, ot, oi);
      }
    }
  }

  lemma {:induction false} BranchIsExact(e: Engine, f: Facts, computed: string, t: Tuple, depth: nat, visited: set<Key>)
    requires e.schema == f.schema && Reads(e.read, f.db) && depth <= e.maxDepth
    requires ExpandTarget(e, t, computed, depth, visited).Ok?
    ensures (exists c | c in ExpandTarget(e, t, computed, depth, visited).value :: Member(c, f.who)) ==>
              && Target(t, computed) !in visited && f.schema.RuleOf(t.subject.subjectType, computed).Some?
              && forall j: nat :: Derivable(PossibleView(f, visited, j), Target(t, computed))
    ensures (forall c | c in ExpandTarget(e, t, computed, depth, visited).value :: !Member(c, f.who)) && Target(t, computed) !in visited ==>
              forall j: nat :: !Derivable(SureView(f, visited, j), Target(t, computed))
    decreases 2 * Fuel(e.maxDepth, depth) - 1, 0
  {
    hide Respects, Derivable, ExpandRule;
    var k := Target(t, computed);
    if k !in visited {
      var rule := f.schema.RuleOf(k.objectType, computed).value;
      ExpansionIsExact(e, f, rule, k.objectType, k.objectId, depth + 1, visited + {k});
      var tree := ExpandRule(e, rule, k.objectType, k.objectId, depth + 1, visited + {k}).value;
      assert ExpandTarget(e, t, computed, depth, visited).value == [tree];
      VerdictStands(f, visited, k, Member(tree, f.who));
      assert tree in [tree];
    }
  }
}
