/** Check respects the meaning of permissions: any schema, any tuple graph, cycles and exclusions included. */
module Exactness {
  import opened Common
  import opened Tuples
  import opened Schemas
  import opened Checking
  import opened Semantics
  import opened Estimates

  /** Every successful read returns exactly the matching tuples of `db`, in any order and multiplicity. */
  ghost predicate Reads(read: Reader, db: set<Tuple>) {
    forall f | read(f).Ok? :: forall t :: t in read(f).value <==> t in db && f.Matches(t)
  }

  /** The main result: whatever is settled, check answers as settled. */
  lemma CheckIsExact(e: Engine, f: Facts, goal: Key, who: Principal)
    requires e.schema == f.schema && Reads(e.read, f.db) && f.who == who.AsSubject()
    requires Decided(f, goal)
    requires Check(e, goal, who).Ok?
    ensures Check(e, goal, who).value <==> Holds(f, goal)
  {
    var j: nat :| Sure(f, {}, j, goal) || !Possible(f, {}, j, goal);
    CheckRespectsEstimates(e, f, goal, who, j);
    if Sure(f, {}, j, goal) {
      SureHolds(f, j, goal);
    } else if i: nat :| Sure(f, {}, i, goal) {
      EstimatesAreConsistent(f, {}, i, j, goal);
    }
  }

  lemma SureHolds(f: Facts, j: nat, k: Key)
    requires Sure(f, {}, j, k)
    ensures Holds(f, k)
  {
  }

  /** After any number of improvements: `true` has not been ruled out, `false` has not been settled as holding. */
  lemma CheckRespectsEstimates(e: Engine, f: Facts, goal: Key, who: Principal, j: nat)
    requires e.schema == f.schema && Reads(e.read, f.db) && f.who == who.AsSubject()
    requires Check(e, goal, who).Ok?
    ensures Check(e, goal, who).value ==> Possible(f, {}, j, goal)
    ensures !Check(e, goal, who).value ==> !Sure(f, {}, j, goal)
  {
    hide Respects, Derives;
    if j > 0 {
      var rule := f.schema.RuleOf(goal.objectType, goal.permission).value;
      RuleIsExact(e, f, rule, goal.objectType, goal.objectId, Context(who, 0, {}));
      var b := Check(e, goal, who).value;
      assert Respects(Ok(b), f, {}, rule, goal.objectType, goal.objectId);
      VerdictOnGoal(f, {}, j - 1, goal, b);
    }
  }

  /** A `true` is possible in every pair of estimates with the visited arrows cut; a `false` is sure in none. */
  ghost predicate Respects(r: Outcome, f: Facts, visited: set<Key>, rule: RewriteRule, ot: string, oi: string) {
    && (r == Ok(true) ==> forall j: nat :: Derived(PossibleView(f, visited, j), rule, ot, oi))
    && (r == Ok(false) ==> forall j: nat :: !Derived(SureView(f, visited, j), rule, ot, oi))
  }

  lemma VerdictOnGoal(f: Facts, visited: set<Key>, j: nat, k: Key, b: bool)
    requires f.schema.RuleOf(k.objectType, k.permission).Some?
    requires Respects(Ok(b), f, visited, f.schema.RuleOf(k.objectType, k.permission).value, k.objectType, k.objectId)
    ensures b ==> Derivable(PossibleView(f, visited, j), k)
    ensures !b ==> !Derivable(SureView(f, visited, j), k)
  {
    var rule := f.schema.RuleOf(k.objectType, k.permission).value;
    if b {
      var v := PossibleView(f, visited, j);
      assert Derived(v, rule, k.objectType, k.objectId);
      var n: nat :| Derives(v, n, rule, k.objectType, k.objectId);
      assert GoalDerives(v, n, k);
    } else {
      var v := SureView(f, visited, j);
      assert !Derived(v, rule, k.objectType, k.objectId);
      forall n: nat ensures !GoalDerives(v, n, k) { assert !Derives(v, n, rule, k.objectType, k.objectId); }
    }
  }

  lemma {:induction false} RuleIsExact(e: Engine, f: Facts, rule: RewriteRule, ot: string, oi: string, ctx: Context)
    requires e.schema == f.schema && Reads(e.read, f.db) && ctx.who.AsSubject() == f.who
    ensures Respects(EvaluateRule(e, rule, ot, oi, ctx), f, ctx.visited, rule, ot, oi)
    decreases 2 * Fuel(e.maxDepth, ctx.depth), rule
  {
    hide Respects, EvaluateThis, EvaluateArrow;
    if ctx.depth > e.maxDepth {
      ErrorsRespect(EvaluateRule(e, rule, ot, oi, ctx), f, ctx.visited, rule, ot, oi);
    } else {
      match rule
      case This(name) => ThisIsExact(e, f, name, ot, oi, ctx);
      case Union(children) =>
        var rs := EvaluateEach(e, children, ot, oi, ctx);
        forall i | 0 <= i < |children| ensures Respects(rs[i], f, ctx.visited, children[i], ot, oi) {
          RuleIsExact(e, f, children[i], ot, oi, ctx);
        }
        UnionIsExact(f, rs, children, ot, oi, ctx.visited);
      case Intersection(children) =>
        var rs := EvaluateEach(e, children, ot, oi, ctx);
        forall i | 0 <= i < |children| ensures Respects(rs[i], f, ctx.visited, children[i], ot, oi) {
          RuleIsExact(e, f, children[i], ot, oi, ctx);
        }
        IntersectionIsExact(f, rs, children, ot, oi, ctx.visited);
      case Exclusion(base, excluded) =>
        RuleIsExact(e, f, base, ot, oi, ctx);
        RuleIsExact(e, f, excluded, ot, oi, ctx);
        ExclusionIsExact(f, EvaluateRule(e, base, ot, oi, ctx), EvaluateRule(e, excluded, ot, oi, ctx), base, excluded, ot, oi, ctx.visited);
      case Arrow(tupleset, computed) => ArrowIsExact(e, f, tupleset, computed, ot, oi, ctx);
    }
  }

  lemma ErrorsRespect(r: Outcome, f: Facts, visited: set<Key>, rule: RewriteRule, ot: string, oi: string)
    requires r.Err?
    ensures Respects(r, f, visited, rule, ot, oi)
  {
  }

  // ----- The connectives, over outcomes already known to respect the estimates -----

  lemma UnionIsExact(f: Facts, rs: seq<Outcome>, children: seq<RewriteRule>, ot: string, oi: string, visited: set<Key>)
    requires |rs| == |children| && forall i | 0 <= i < |rs| :: Respects(rs[i], f, visited, children[i], ot, oi)
    ensures Respects(AnyOf(rs), f, visited, Union(children), ot, oi)
  {
    var rule := Union(children);
    if AnyOf(rs) == Ok(true) {
      var k :| 0 <= k < |rs| && rs[k] == Ok(true);
      forall j: nat ensures Derived(PossibleView(f, visited, j), rule, ot, oi) {
        var v := PossibleView(f, visited, j);
        assert Respects(rs[k], f, visited, children[k], ot, oi) && Derived(v, children[k], ot, oi);
        var n: nat :| Derives(v, n, children[k], ot, oi);
        assert Derives(v, n, rule, ot, oi);
      }
    }
    if AnyOf(rs) == Ok(false) {
      forall j: nat ensures !Derived(SureView(f, visited, j), rule, ot, oi) {
        var v := SureView(f, visited, j);
        forall n: nat, c | c in children ensures !Derives(v, n, c, ot, oi) {
          var i :| 0 <= i < |children| && children[i] == c;
          assert Respects(rs[i], f, visited, c, ot, oi) && rs[i] == Ok(false) && !Derived(v, c, ot, oi);
        }
        forall n: nat ensures !Derives(v, n, rule, ot, oi) {}
      }
    }
  }

  lemma IntersectionIsExact(f: Facts, rs: seq<Outcome>, children: seq<RewriteRule>, ot: string, oi: string, visited: set<Key>)
    requires |rs| == |children| && forall i | 0 <= i < |rs| :: Respects(rs[i], f, visited, children[i], ot, oi)
    ensures Respects(AllOf(rs), f, visited, Intersection(children), ot, oi)
  {
    var rule := Intersection(children);
    if AllOf(rs) == Ok(true) {
      forall j: nat ensures Derived(PossibleView(f, visited, j), rule, ot, oi) {
        var v := PossibleView(f, visited, j);
        forall c | c in children ensures Derived(v, c, ot, oi) {
          var i :| 0 <= i < |children| && children[i] == c;
          assert Respects(rs[i], f, visited, c, ot, oi) && rs[i] == Ok(true);
        }
        var n := CommonHeight(v, children, ot, oi);
        assert Derives(v, n, rule, ot, oi);
      }
    }
    if AllOf(rs) == Ok(false) {
      var k :| 0 <= k < |rs| && rs[k] == Ok(false);
      assert Respects(rs[k], f, visited, children[k], ot, oi);
      forall j: nat ensures !Derived(SureView(f, visited, j), rule, ot, oi) {
        var v := SureView(f, visited, j);
        assert !Derived(v, children[k], ot, oi);
        forall n: nat ensures !Derives(v, n, rule, ot, oi) { assert !Derives(v, n, children[k], ot, oi); }
      }
    }
  }

  /** What is sure as a formula has a sure derivation. */
  lemma {:induction false} SureFormulaIsDerived(f: Facts, visited: set<Key>, j: nat, rule: RewriteRule, ot: string, oi: string) returns (n: nat)
    requires Satisfied(PossibleView(f, visited, j), rule, ot, oi)
    ensures Derives(SureView(f, visited, j), n, rule, ot, oi)
  {
    var p, s := PossibleView(f, visited, j), SureView(f, visited, j);
    match rule
    case This(name) =>
      n := 0;
      var key := Key(ot, oi, name);
      if f.schema.RuleOf(ot, name).Some? {
        assert Sure(f, visited, j, key);
        Improves(f, visited, j);
        assert Sure(f, visited, j + 1, key);
        var h: nat :| GoalDerives(s, h, key);
        n := h + 1;
      }
    case Union(children) =>
      var c :| c in children && Satisfied(p, c, ot, oi);
      n := SureFormulaIsDerived(f, visited, j, c, ot, oi);
    case Intersection(children) =>
      forall c | c in children ensures Derived(s, c, ot, oi) { var _ := SureFormulaIsDerived(f, visited, j, c, ot, oi); }
      n := CommonHeight(s, children, ot, oi);
    case Exclusion(base, excluded) =>
      n := SureFormulaIsDerived(f, visited, j, base, ot, oi);
      assert p.Flip() == s;
    case Arrow(tupleset, computed) =>
      var t :| Follows(f, t, ot, oi, tupleset, computed) && Target(t, computed) !in visited && p.taken(Target(t, computed));
      assert Sure(f, visited, j, Target(t, computed));
      Improves(f, visited, j);
      assert Sure(f, visited, j + 1, Target(t, computed));
      var h: nat :| GoalDerives(s, h, Target(t, computed));
      n := h + 1;
  }

  /** What has a possible derivation is possible as a formula. */
  lemma {:induction false} PossiblyDerivedFormula(f: Facts, visited: set<Key>, j: nat, n: nat, rule: RewriteRule, ot: string, oi: string)
    requires Derives(PossibleView(f, visited, j), n, rule, ot, oi)
    ensures Satisfied(SureView(f, visited, j), rule, ot, oi)
  {
    var p, s := PossibleView(f, visited, j), SureView(f, visited, j);
    match rule
    case This(name) =>
      var key := Key(ot, oi, name);
      if f.schema.RuleOf(ot, name).Some? {
        assert GoalDerives(p, n - 1, key);
        assert Possible(f, visited, j + 1, key);
        Improves(f, visited, j);
        assert s.taken(key) == Possible(f, visited, j, key);
      }
    case Union(children) =>
      var c :| c in children && Derives(p, n, c, ot, oi);
      PossiblyDerivedFormula(f, visited, j, n, c, ot, oi);
    case Intersection(children) => forall c | c in children { PossiblyDerivedFormula(f, visited, j, n, c, ot, oi); }
    case Exclusion(base, _) =>
      PossiblyDerivedFormula(f, visited, j, n, base, ot, oi);
      assert s.Flip() == p;
    case Arrow(tupleset, computed) =>
      var t :| Follows(f, t, ot, oi, tupleset, computed) && Target(t, computed) !in visited && GoalDerives(p, n - 1, Target(t, computed));
      assert Possible(f, visited, j + 1, Target(t, computed));
      Improves(f, visited, j);
      assert s.taken(Target(t, computed)) == Possible(f, visited, j, Target(t, computed));
  }

  lemma ExclusionIsExact(f: Facts, b: Outcome, x: Outcome, base: RewriteRule, excluded: RewriteRule, ot: string, oi: string, visited: set<Key>)
    requires Respects(b, f, visited, base, ot, oi) && Respects(x, f, visited, excluded, ot, oi)
    ensures Respects(if b != Ok(true) then b else if x.Err? then x else Ok(!x.value), f, visited, Exclusion(base, excluded), ot, oi)
  {
    var rule := Exclusion(base, excluded);
    forall j: nat ensures b == Ok(false) ==> !Derived(SureView(f, visited, j), rule, ot, oi) {
      var v := SureView(f, visited, j);
      forall n: nat | Derives(v, n, rule, ot, oi) ensures Derived(v, base, ot, oi) { assert Derives(v, n, base, ot, oi); }
    }
    if b == Ok(true) && x == Ok(true) {
      forall j: nat ensures !Derived(SureView(f, visited, j), rule, ot, oi) {
        var p := PossibleView(f, visited, j);
        assert Derived(p, excluded, ot, oi);
        var n: nat :| Derives(p, n, excluded, ot, oi);
        PossiblyDerivedFormula(f, visited, j, n, excluded, ot, oi);
      }
    }
    if b == Ok(true) && x == Ok(false) {
      forall j: nat ensures Derived(PossibleView(f, visited, j), rule, ot, oi) {
        var p := PossibleView(f, visited, j);
        assert !Derived(SureView(f, visited, j), excluded, ot, oi);
        if Satisfied(p, excluded, ot, oi) { var _ := SureFormulaIsDerived(f, visited, j, excluded, ot, oi); }
        assert Derived(p, base, ot, oi);
        var n: nat :| Derives(p, n, base, ot, oi);
        assert Derives(p, n, rule, ot, oi);
      }
    }
  }

  // ----- Names and arrows -----

  lemma {:induction false} ThisIsExact(e: Engine, f: Facts, name: string, ot: string, oi: string, ctx: Context)
    requires e.schema == f.schema && Reads(e.read, f.db) && ctx.who.AsSubject() == f.who && ctx.depth <= e.maxDepth
    ensures Respects(EvaluateThis(e, name, ot, oi, ctx), f, ctx.visited, This(name), ot, oi)
    decreases 2 * Fuel(e.maxDepth, ctx.depth) - 1, 0
  {
    var r := EvaluateThis(e, name, ot, oi, ctx);
    var p := f.schema.RuleOf(ot, name);
    if p.Some? {
      RuleIsExact(e, f, p.value, ot, oi, ctx.(depth := ctx.depth + 1));
      if r.Ok? { NameIsItsRule(f, ctx.visited, name, ot, oi, r.value); }
    } else if r.Ok? {
      RelationIsExact(e, f, name, ot, oi, ctx.who);
      forall v: View, n: nat | v.facts == f ensures Derives(v, n, This(name), ot, oi) == Stored(f, name, ot, oi) {}
      forall j: nat ensures Derived(PossibleView(f, ctx.visited, j), This(name), ot, oi) == Stored(f, name, ot, oi) {
        assert Derives(PossibleView(f, ctx.visited, j), 0, This(name), ot, oi) == Stored(f, name, ot, oi);
      }
    }
  }

  lemma NameIsItsRule(f: Facts, visited: set<Key>, name: string, ot: string, oi: string, b: bool)
    requires f.schema.RuleOf(ot, name).Some?
    requires Respects(Ok(b), f, visited, f.schema.RuleOf(ot, name).value, ot, oi)
    ensures Respects(Ok(b), f, visited, This(name), ot, oi)
  {
    var k := Key(ot, oi, name);
    forall j: nat
      ensures b ==> Derived(PossibleView(f, visited, j), This(name), ot, oi)
      ensures !b ==> !Derived(SureView(f, visited, j), This(name), ot, oi)
    {
      VerdictOnGoal(f, visited, j, k, b);
      if b {
        var v := PossibleView(f, visited, j);
        var n: nat :| GoalDerives(v, n, k);
        assert Derives(v, n + 1, This(name), ot, oi);
      } else {
        var v := SureView(f, visited, j);
        forall n: nat ensures !Derives(v, n, This(name), ot, oi) {
          if n > 0 { assert !GoalDerives(v, n - 1, k); }
        }
      }
    }
  }

  lemma RelationIsExact(e: Engine, f: Facts, name: string, ot: string, oi: string, who: Principal)
    requires e.schema == f.schema && Reads(e.read, f.db) && f.schema.IsRelation(ot, name) && f.who == who.AsSubject()
    requires e.read(RowsOf(ot, oi, name)).Ok? && AnyOf(AdmitsEach(e, e.read(RowsOf(ot, oi, name)).value, who)).Ok?
    ensures AnyOf(AdmitsEach(e, e.read(RowsOf(ot, oi, name)).value, who)).value <==> Stored(f, name, ot, oi)
  {
    var rows := e.read(RowsOf(ot, oi, name)).value;
    var rs := AdmitsEach(e, rows, who);
    forall i | 0 <= i < |rows| && rs[i].Ok?
      ensures rs[i].value <==> rows[i].subject == f.who || (rows[i].subject.subjectRelation.Some? && UsersetRow(rows[i].subject, f.who) in f.db)
    {
      if rows[i].subject.subjectRelation.Some? { UsersetIsExact(e, f, rows[i].subject, who); }
    }
    if AnyOf(rs).value {
      var k :| 0 <= k < |rs| && rs[k] == AnyOf(rs);
      assert rows[k] in rows;
    } else {
      assert AnyOf(rs) == Ok(false);
      forall t | t in f.db && t.resource == ObjectRef(ot, oi) && t.relation == name
        ensures t.subject != f.who && !(t.subject.subjectRelation.Some? && UsersetRow(t.subject, f.who) in f.db)
      {
        assert t in rows;
        var k :| 0 <= k < |rows| && rows[k] == t;
        assert rs[k] == Ok(false);
      }
    }
  }

  lemma UsersetIsExact(e: Engine, f: Facts, u: SubjectRef, who: Principal)
    requires Reads(e.read, f.db) && f.who == who.AsSubject() && u.subjectRelation.Some? && e.read(UsersetMember(u, who)).Ok?
    ensures e.read(UsersetMember(u, who)).value != [] <==> UsersetRow(u, f.who) in f.db
  {
    var filter := UsersetMember(u, who);
    var members := e.read(filter).value;
    assert forall t :: filter.Matches(t) <==> t == UsersetRow(u, f.who);
    assert UsersetRow(u, f.who) in members <==> UsersetRow(u, f.who) in f.db;
    if members != [] { assert members[0] in members; }
  }

  lemma {:induction false} ArrowIsExact(e: Engine, f: Facts, tupleset: string, computed: string, ot: string, oi: string, ctx: Context)
    requires e.schema == f.schema && Reads(e.read, f.db) && ctx.who.AsSubject() == f.who && ctx.depth <= e.maxDepth
    ensures Respects(EvaluateArrow(e, tupleset, computed, ot, oi, ctx), f, ctx.visited, Arrow(tupleset, computed), ot, oi)
    decreases 2 * Fuel(e.maxDepth, ctx.depth) - 1, 1
  {
    hide EvaluateTarget, Derived, Derivable;
    var rule := Arrow(tupleset, computed);
    var read := e.read(RowsOf(ot, oi, tupleset));
    if read.Ok? {
      var rows := read.value;
      var rs := EvaluateTargets(e, rows, computed, ctx);
      if AnyOf(rs) == Ok(true) {
        var k :| 0 <= k < |rs| && rs[k] == Ok(true);
        var t := rows[k];
        TargetIsExact(e, f, computed, t, ctx);
        assert t in rows && Follows(f, t, ot, oi, tupleset, computed);
        forall j: nat ensures Derived(PossibleView(f, ctx.visited, j), rule, ot, oi) {
          TargetGivesArrow(PossibleView(f, ctx.visited, j), tupleset, computed, ot, oi, t);
        }
      }
      if AnyOf(rs) == Ok(false) {
        forall t, j: nat | Follows(f, t, ot, oi, tupleset, computed) && Target(t, computed) !in ctx.visited
          ensures !Derivable(SureView(f, ctx.visited, j), Target(t, computed))
        {
          assert t in rows;
          var k :| 0 <= k < |rows| && rows[k] == t;
          assert rs[k] == Ok(false);
          TargetIsExact(e, f, computed, t, ctx);
        }
        forall j: nat ensures !Derived(SureView(f, ctx.visited, j), rule, ot, oi) {
          NoTargetNoArrow(SureView(f, ctx.visited, j), tupleset, computed, ot, oi);
        }
      }
    }
  }

  lemma TargetGivesArrow(v: View, tupleset: string, computed: string, ot: string, oi: string, t: Tuple)
    requires Follows(v.facts, t, ot, oi, tupleset, computed) && Target(t, computed) !in v.avoid && Derivable(v, Target(t, computed))
    ensures Derived(v, Arrow(tupleset, computed), ot, oi)
  {
    var n: nat :| GoalDerives(v, n, Target(t, computed));
    assert Derives(v, n + 1, Arrow(tupleset, computed), ot, oi);
  }

  lemma NoTargetNoArrow(v: View, tupleset: string, computed: string, ot: string, oi: string)
    requires forall t | Follows(v.facts, t, ot, oi, tupleset, computed) && Target(t, computed) !in v.avoid :: !Derivable(v, Target(t, computed))
    ensures !Derived(v, Arrow(tupleset, computed), ot, oi)
  {
    forall n: nat ensures !Derives(v, n, Arrow(tupleset, computed), ot, oi) {
      if n > 0 {
        forall t | Follows(v.facts, t, ot, oi, tupleset, computed) && Target(t, computed) !in v.avoid ensures !GoalDerives(v, n - 1, Target(t, computed)) {
          assert !Derivable(v, Target(t, computed));
        }
      }
    }
  }

  /** The target is evaluated with the arrows to it cut; its verdict also stands with them in place. */
  lemma {:induction false} TargetIsExact(e: Engine, f: Facts, computed: string, t: Tuple, ctx: Context)
    requires e.schema == f.schema && Reads(e.read, f.db) && ctx.who.AsSubject() == f.who && ctx.depth <= e.maxDepth
    ensures EvaluateTarget(e, t, computed, ctx) == Ok(true) ==>
              && Target(t, computed) !in ctx.visited && f.schema.RuleOf(t.subject.subjectType, computed).Some?
              && forall j: nat :: Derivable(PossibleView(f, ctx.visited, j), Target(t, computed))
    ensures EvaluateTarget(e, t, computed, ctx) == Ok(false) && Target(t, computed) !in ctx.visited ==>
              forall j: nat :: !Derivable(SureView(f, ctx.visited, j), Target(t, computed))
    decreases 2 * Fuel(e.maxDepth, ctx.depth) - 1, 0
  {
    hide Respects, Derivable, EvaluateRule;
    var k := Target(t, computed);
    var rule := f.schema.RuleOf(k.objectType, computed);
    var r := EvaluateTarget(e, t, computed, ctx);
    if k !in ctx.visited && rule.Some? {
      var next := Context(ctx.who, ctx.depth + 1, ctx.visited + {k});
      RuleIsExact(e, f, rule.value, k.objectType, k.objectId, next);
      if r.Ok? { VerdictStands(f, ctx.visited, k, r.value); }
    }
  }

  lemma VerdictStands(f: Facts, visited: set<Key>, k: Key, b: bool)
    requires f.schema.RuleOf(k.objectType, k.permission).Some?
    requires Respects(Ok(b), f, visited + {k}, f.schema.RuleOf(k.objectType, k.permission).value, k.objectType, k.objectId)
    ensures b ==> forall j: nat :: Derivable(PossibleView(f, visited, j), k)
    ensures !b ==> forall j: nat :: !Derivable(SureView(f, visited, j), k)
  {
    hide Respects;
    forall j: nat
      ensures b ==> Derivable(PossibleView(f, visited, j), k)
      ensures !b ==> !Derivable(SureView(f, visited, j), k)
    {
      VerdictOnGoal(f, visited + {k}, j, k, b);
      if b {
        if !Derivable(PossibleView(f, visited, j), k) { CuttingKeepsRuledOut(f, visited, k, j); }
      } else if Derivable(SureView(f, visited, j), k) {
        var i := CuttingKeepsSure(f, visited, k, j);
        VerdictOnGoal(f, visited + {k}, i, k, b);
      }
    }
  }
}
