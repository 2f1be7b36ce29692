/** What the depth limit and the order of rows can and cannot change. */
module DepthAndOrder {
  import opened Common
  import opened Tuples
  import opened Schemas
  import opened Checking
  import opened Expansion

  /** `b` is `a` with the same or a larger depth limit. */
  ghost predicate Deeper(a: Engine, b: Engine) {
    a.schema == b.schema && a.maxDepth <= b.maxDepth && forall f :: a.read(f) == b.read(f)
  }

  predicate TooDeep<T>(r: Result<T, CheckError>) { r.Err? && r.error.MaxDepthExceeded? }

  /** The reader never reports a depth error of its own. */
  ghost predicate DepthFree(read: Reader) {
    forall f :: !TooDeep(read(f))
  }

  // ----- Check: outcomes other than the depth error survive a larger limit -----

  lemma CheckDeeper(a: Engine, b: Engine, goal: Key, who: Principal)
    requires Deeper(a, b) && DepthFree(a.read)
    ensures TooDeep(Check(a, goal, who)) ==> Check(a, goal, who) == Err(MaxDepthExceeded(a.maxDepth + 1))
    ensures !TooDeep(Check(a, goal, who)) ==> Check(b, goal, who) == Check(a, goal, who)
  {
    var rule := a.schema.RuleOf(goal.objectType, goal.permission);
    if rule.Some? {
      RuleDeeper(a, b, rule.value, goal.objectType, goal.objectId, Context(who, 0, {}));
    }
  }

  /** The statement carried through the recursion, for one pair of results. */
  ghost predicate Grows<T(!new)>(a: Engine, ra: Result<T, CheckError>, rb: Result<T, CheckError>) {
    if TooDeep(ra) then ra.error.depth == a.maxDepth + 1 else rb == ra
  }

  lemma {:induction false} RuleDeeper(a: Engine, b: Engine, rule: RewriteRule, ot: string, oi: string, ctx: Context)
    requires Deeper(a, b) && DepthFree(a.read) && ctx.depth <= a.maxDepth + 1
    ensures Grows(a, EvaluateRule(a, rule, ot, oi, ctx), EvaluateRule(b, rule, ot, oi, ctx))
    decreases 2 * Fuel(a.maxDepth, ctx.depth), rule
  {
    if ctx.depth <= a.maxDepth {
      match rule
      case This(name) =>
        var td := a.schema.GetType(ot);
        if td.Some? {
          match td.value.GetPermission(name)
          case Some(p) => RuleDeeper(a, b, p.rule, ot, oi, ctx.(depth := ctx.depth + 1));
          case None =>
            var rows := a.read(RowsOf(ot, oi, name));
            if rows.Ok? { RowsDeeper(a, b, rows.value, ctx.who); }
        }
      case Union(children) =>
        EachDeeper(a, b, children, ot, oi, ctx);
        AnyOfGrows(a, EvaluateEach(a, children, ot, oi, ctx), EvaluateEach(b, children, ot, oi, ctx));
      case Intersection(children) =>
        EachDeeper(a, b, children, ot, oi, ctx);
        AllOfGrows(a, EvaluateEach(a, children, ot, oi, ctx), EvaluateEach(b, children, ot, oi, ctx));
      case Exclusion(base, excluded) =>
        RuleDeeper(a, b, base, ot, oi, ctx);
        RuleDeeper(a, b, excluded, ot, oi, ctx);
      case Arrow(tupleset, computed) =>
        var rows := a.read(RowsOf(ot, oi, tupleset));
        if rows.Ok? { TargetsDeeper(a, b, rows.value, computed, ctx); }
    }
  }

  lemma {:induction false} EachDeeper(a: Engine, b: Engine, children: seq<RewriteRule>, ot: string, oi: string, ctx: Context)
    requires Deeper(a, b) && DepthFree(a.read) && ctx.depth <= a.maxDepth + 1
    ensures forall i | 0 <= i < |children| ::
              Grows(a, EvaluateEach(a, children, ot, oi, ctx)[i], EvaluateEach(b, children, ot, oi, ctx)[i])
    decreases 2 * Fuel(a.maxDepth, ctx.depth), children
  {
    hide EvaluateRule;
    forall i | 0 <= i < |children|
      ensures Grows(a, EvaluateEach(a, children, ot, oi, ctx)[i], EvaluateEach(b, children, ot, oi, ctx)[i])
    {
      RuleDeeper(a, b, children[i], ot, oi, ctx);
    }
  }

  lemma RowsDeeper(a: Engine, b: Engine, rows: seq<Tuple>, who: Principal)
    requires Deeper(a, b) && DepthFree(a.read)
    ensures Grows(a, AnyOf(AdmitsEach(a, rows, who)), AnyOf(AdmitsEach(b, rows, who)))
  {
    assert AdmitsEach(a, rows, who) == AdmitsEach(b, rows, who);
    forall i | 0 <= i < |rows| ensures !TooDeep(AdmitsEach(a, rows, who)[i]) {
      if rows[i].subject.subjectRelation.Some? {
        assert !TooDeep(a.read(UsersetMember(rows[i].subject, who)));
      }
    }
  }

  lemma {:induction false} TargetsDeeper(a: Engine, b: Engine, rows: seq<Tuple>, computed: string, ctx: Context)
    requires Deeper(a, b) && DepthFree(a.read) && ctx.depth <= a.maxDepth
    ensures Grows(a, AnyOf(EvaluateTargets(a, rows, computed, ctx)), AnyOf(EvaluateTargets(b, rows, computed, ctx)))
    decreases 2 * Fuel(a.maxDepth, ctx.depth) - 1, 0
  {
    var ra, rb := EvaluateTargets(a, rows, computed, ctx), EvaluateTargets(b, rows, computed, ctx);
    forall i | 0 <= i < |rows| ensures Grows(a, ra[i], rb[i]) {
      var key := Target(rows[i], computed);
      var rule := a.schema.RuleOf(key.objectType, computed);
      if key !in ctx.visited && rule.Some? {
        RuleDeeper(a, b, rule.value, key.objectType, key.objectId, Context(ctx.who, ctx.depth + 1, ctx.visited + {key}));
      }
    }
    AnyOfGrows(a, ra, rb);
  }

  lemma AnyOfGrows(a: Engine, ra: seq<Outcome>, rb: seq<Outcome>)
    requires |ra| == |rb| && forall i | 0 <= i < |ra| :: Grows(a, ra[i], rb[i])
    ensures Grows(a, AnyOf(ra), AnyOf(rb))
  {
    if ra != [] {
      assert Grows(a, ra[0], rb[0]);
      forall i | 0 <= i < |ra[1..]| ensures Grows(a, ra[1..][i], rb[1..][i]) { assert Grows(a, ra[i + 1], rb[i + 1]); }
      AnyOfGrows(a, ra[1..], rb[1..]);
    }
  }

  lemma AllOfGrows(a: Engine, ra: seq<Outcome>, rb: seq<Outcome>)
    requires |ra| == |rb| && forall i | 0 <= i < |ra| :: Grows(a, ra[i], rb[i])
    ensures Grows(a, AllOf(ra), AllOf(rb))
  {
    if ra != [] {
      assert Grows(a, ra[0], rb[0]);
      forall i | 0 <= i < |ra[1..]| ensures Grows(a, ra[1..][i], rb[1..][i]) { assert Grows(a, ra[i + 1], rb[i + 1]); }
      AllOfGrows(a, ra[1..], rb[1..]);
    }
  }

  /** Two readers that answer every filter alike are interchangeable, errors included. */
  lemma CheckCongruent(a: Engine, b: Engine, goal: Key, who: Principal)
    requires Deeper(a, b) && Deeper(b, a) && DepthFree(a.read)
    ensures Check(a, goal, who) == Check(b, goal, who)
  {
    CheckDeeper(a, b, goal, who);
    CheckDeeper(b, a, goal, who);
  }

  // ----- Expand: the same for trees -----

  lemma ExpandDeeper(a: Engine, b: Engine, goal: Key)
    requires Deeper(a, b) && DepthFree(a.read)
    ensures TooDeep(Expand(a, goal)) ==> Expand(a, goal) == Err(MaxDepthExceeded(a.maxDepth + 1))
    ensures !TooDeep(Expand(a, goal)) ==> Expand(b, goal) == Expand(a, goal)
  {
    var rule := a.schema.RuleOf(goal.objectType, goal.permission);
    if rule.Some? {
      TreeDeeper(a, b, rule.value, goal.objectType, goal.objectId, 0, {});
    }
  }

  lemma {:induction false} TreeDeeper(a: Engine, b: Engine, rule: RewriteRule, ot: string, oi: string, depth: nat, visited: set<Key>)
    requires Deeper(a, b) && DepthFree(a.read) && depth <= a.maxDepth + 1
    ensures Grows(a, ExpandRule(a, rule, ot, oi, depth, visited), ExpandRule(b, rule, ot, oi, depth, visited))
    decreases 2 * Fuel(a.maxDepth, depth), rule
  {
    if depth <= a.maxDepth {
      match rule
      case This(name) =>
        var td := a.schema.GetType(ot);
        if td.Some? {
          match td.value.GetPermission(name)
          case Some(p) => TreeDeeper(a, b, p.rule, ot, oi, depth + 1, visited);
          case None =>
            var rows := a.read(RowsOf(ot, oi, name));
            if rows.Ok? { SubjectsDeeper(a, b, rows.value); }
        }
      case Union(children) => TreesDeeper(a, b, children, ot, oi, depth, visited);
      case Intersection(children) => TreesDeeper(a, b, children, ot, oi, depth, visited);
      case Exclusion(base, excluded) =>
        TreeDeeper(a, b, base, ot, oi, depth, visited);
        TreeDeeper(a, b, excluded, ot, oi, depth, visited);
      case Arrow(tupleset, computed) =>
        var rows := a.read(RowsOf(ot, oi, tupleset));
        if rows.Ok? { BranchesDeeper(a, b, rows.value, computed, depth, visited); }
    }
  }

  lemma {:induction false} TreesDeeper(a: Engine, b: Engine, children: seq<RewriteRule>, ot: string, oi: string, depth: nat, visited: set<Key>)
    requires Deeper(a, b) && DepthFree(a.read) && depth <= a.maxDepth + 1
    ensures Grows(a, Collect(ExpandEach(a, children, ot, oi, depth, visited)), Collect(ExpandEach(b, children, ot, oi, depth, visited)))
    decreases 2 * Fuel(a.maxDepth, depth), children
  {
    var ra, rb := ExpandEach(a, children, ot, oi, depth, visited), ExpandEach(b, children, ot, oi, depth, visited);
    forall i | 0 <= i < |children| ensures Grows(a, ra[i], rb[i]) {
      TreeDeeper(a, b, children[i], ot, oi, depth, visited);
    }
    CollectGrows(a, ra, rb);
  }

  lemma SubjectsDeeper(a: Engine, b: Engine, rows: seq<Tuple>)
    requires Deeper(a, b) && DepthFree(a.read)
    ensures Grows(a, Collect(SubjectsEach(a, rows)), Collect(SubjectsEach(b, rows)))
  {
    var ra, rb := SubjectsEach(a, rows), SubjectsEach(b, rows);
    forall i | 0 <= i < |rows| ensures Grows(a, ra[i], rb[i]) {
      var u := rows[i].subject;
      if u.subjectRelation.Some? {
        assert !TooDeep(a.read(RowsOf(u.subjectType, u.subjectId, u.subjectRelation.value)));
      }
    }
    CollectGrows(a, ra, rb);
  }

  lemma {:induction false} BranchesDeeper(a: Engine, b: Engine, rows: seq<Tuple>, computed: string, depth: nat, visited: set<Key>)
    requires Deeper(a, b) && DepthFree(a.read) && depth <= a.maxDepth
    ensures Grows(a, Collect(ExpandTargets(a, rows, computed, depth, visited)), Collect(ExpandTargets(b, rows, computed, depth, visited)))
    decreases 2 * Fuel(a.maxDepth, depth) - 1, 0
  {
    var ra, rb := ExpandTargets(a, rows, computed, depth, visited), ExpandTargets(b, rows, computed, depth, visited);
    forall i | 0 <= i < |rows| ensures Grows(a, ra[i], rb[i]) {
      var key := Target(rows[i], computed);
      var rule := a.schema.RuleOf(key.objectType, computed);
      if key !in visited && rule.Some? {
        TreeDeeper(a, b, rule.value, key.objectType, key.objectId, depth + 1, visited + {key});
      }
    }
    CollectGrows(a, ra, rb);
  }

  lemma CollectGrows<T(!new)>(a: Engine, ra: seq<Result<T, CheckError>>, rb: seq<Result<T, CheckError>>)
    requires |ra| == |rb| && forall i | 0 <= i < |ra| :: Grows(a, ra[i], rb[i])
    ensures Grows(a, Collect(ra), Collect(rb))
  {
    if ra != [] {
      var n := |ra| - 1;
      CollectGrows(a, ra[..n], rb[..n]);
      assert Grows(a, ra[n], rb[n]);
    }
  }

  /** Two readers that answer every filter alike give the same expansion, errors included. */
  lemma ExpandCongruent(a: Engine, b: Engine, goal: Key)
    requires Deeper(a, b) && Deeper(b, a) && DepthFree(a.read)
    ensures Expand(a, goal) == Expand(b, goal)
  {
    ExpandDeeper(a, b, goal);
    ExpandDeeper(b, a, goal);
  }

  // ----- Order and multiplicity of rows -----

  /** Whenever both readers answer a filter, they answer with the same set of tuples. */
  ghost predicate SameRows(a: Reader, b: Reader) {
    forall f | a(f).Ok? && b(f).Ok? :: forall t :: t in a(f).value <==> t in b(f).value
  }

  /** For all rules, Exclusion included: two answers over the same rows are equal. */
  lemma AnswersIgnoreOrder(a: Engine, b: Engine, goal: Key, who: Principal)
    requires a.schema == b.schema && SameRows(a.read, b.read)
    requires Check(a, goal, who).Ok? && Check(b, goal, who).Ok?
    ensures Check(a, goal, who) == Check(b, goal, who)
  {
    RuleIgnoresOrder(a, b, a.schema.RuleOf(goal.objectType, goal.permission).value, goal.objectType, goal.objectId, Context(who, 0, {}));
  }

  ghost predicate Compatible(ra: Outcome, rb: Outcome) { ra.Ok? && rb.Ok? ==> ra == rb }

  lemma {:induction false} RuleIgnoresOrder(a: Engine, b: Engine, rule: RewriteRule, ot: string, oi: string, ctx: Context)
    requires a.schema == b.schema && SameRows(a.read, b.read)
    ensures Compatible(EvaluateRule(a, rule, ot, oi, ctx), EvaluateRule(b, rule, ot, oi, ctx))
    decreases 2 * Fuel(a.maxDepth, ctx.depth), rule
  {
    if ctx.depth <= a.maxDepth && ctx.depth <= b.maxDepth {
      match rule
      case This(name) =>
        var td := a.schema.GetType(ot);
        if td.Some? {
          match td.value.GetPermission(name)
          case Some(p) => RuleIgnoresOrder(a, b, p.rule, ot, oi, ctx.(depth := ctx.depth + 1));
          case None =>
            var rows, rows' := a.read(RowsOf(ot, oi, name)), b.read(RowsOf(ot, oi, name));
            if rows.Ok? && rows'.Ok? { RowsIgnoreOrder(a, b, rows.value, rows'.value, ctx.who); }
        }
      case Union(children) => EachIgnoresOrder(a, b, children, ot, oi, ctx);
      case Intersection(children) => EachIgnoresOrder(a, b, children, ot, oi, ctx);
      case Exclusion(base, excluded) =>
        RuleIgnoresOrder(a, b, base, ot, oi, ctx);
        RuleIgnoresOrder(a, b, excluded, ot, oi, ctx);
      case Arrow(tupleset, computed) =>
        var rows, rows' := a.read(RowsOf(ot, oi, tupleset)), b.read(RowsOf(ot, oi, tupleset));
        if rows.Ok? && rows'.Ok? { TargetsIgnoreOrder(a, b, rows.value, rows'.value, computed, ctx); }
    }
  }

  lemma {:induction false} EachIgnoresOrder(a: Engine, b: Engine, children: seq<RewriteRule>, ot: string, oi: string, ctx: Context)
    requires a.schema == b.schema && SameRows(a.read, b.read)
    ensures Compatible(AnyOf(EvaluateEach(a, children, ot, oi, ctx)), AnyOf(EvaluateEach(b, children, ot, oi, ctx)))
    ensures Compatible(AllOf(EvaluateEach(a, children, ot, oi, ctx)), AllOf(EvaluateEach(b, children, ot, oi, ctx)))
    decreases 2 * Fuel(a.maxDepth, ctx.depth), children
  {
    hide EvaluateRule;
    var ra, rb := EvaluateEach(a, children, ot, oi, ctx), EvaluateEach(b, children, ot, oi, ctx);
    forall i | 0 <= i < |children| ensures Compatible(ra[i], rb[i]) {
      RuleIgnoresOrder(a, b, children[i], ot, oi, ctx);
    }
    FoldsAreCompatible(ra, rb);
  }

  lemma FoldsAreCompatible(ra: seq<Outcome>, rb: seq<Outcome>)
    requires |ra| == |rb| && forall i | 0 <= i < |ra| :: Compatible(ra[i], rb[i])
    ensures Compatible(AnyOf(ra), AnyOf(rb)) && Compatible(AllOf(ra), AllOf(rb))
  {
    if ra != [] {
      assert Compatible(ra[0], rb[0]);
      forall i | 0 <= i < |ra[1..]| ensures Compatible(ra[1..][i], rb[1..][i]) { assert Compatible(ra[i + 1], rb[i + 1]); }
      FoldsAreCompatible(ra[1..], rb[1..]);
    }
  }

  /** If every `true` on one side has a partner on the other, the folds cannot disagree. */
  lemma AnyOfMatched(ra: seq<Outcome>, rb: seq<Outcome>)
    requires forall i | 0 <= i < |ra| && ra[i] == Ok(true) :: exists j :: 0 <= j < |rb| && Compatible(ra[i], rb[j])
    requires forall j | 0 <= j < |rb| && rb[j] == Ok(true) :: exists i :: 0 <= i < |ra| && Compatible(ra[i], rb[j])
    ensures Compatible(AnyOf(ra), AnyOf(rb))
  {
    var x, y := AnyOf(ra), AnyOf(rb);
    if x.Ok? { assert if x.value then x == Ok(true) else x == Ok(false); }
    if y.Ok? { assert if y.value then y == Ok(true) else y == Ok(false); }
  }

  lemma RowsIgnoreOrder(a: Engine, b: Engine, rows: seq<Tuple>, rows': seq<Tuple>, who: Principal)
    requires SameRows(a.read, b.read)
    requires forall t :: t in rows <==> t in rows'
    ensures Compatible(AnyOf(AdmitsEach(a, rows, who)), AnyOf(AdmitsEach(b, rows', who)))
  {
    var ra, rb := AdmitsEach(a, rows, who), AdmitsEach(b, rows', who);
    forall i, j | 0 <= i < |rows| && 0 <= j < |rows'| && rows[i] == rows'[j] ensures Compatible(ra[i], rb[j]) {
      var t := rows[i];
      if t.subject.subjectRelation.Some? {
        var f := UsersetMember(t.subject, who);
        if a.read(f).Ok? && b.read(f).Ok? { SameEmptiness(a.read(f).value, b.read(f).value); }
      }
    }
    forall i | 0 <= i < |ra| ensures exists j :: 0 <= j < |rb| && Compatible(ra[i], rb[j]) {
      assert rows[i] in rows';
      var j :| 0 <= j < |rows'| && rows'[j] == rows[i];
      assert Compatible(ra[i], rb[j]);
    }
    forall j | 0 <= j < |rb| ensures exists i :: 0 <= i < |ra| && Compatible(ra[i], rb[j]) {
      assert rows'[j] in rows;
      var i :| 0 <= i < |rows| && rows[i] == rows'[j];
      assert Compatible(ra[i], rb[j]);
    }
    AnyOfMatched(ra, rb);
  }

  lemma SameEmptiness(xs: seq<Tuple>, ys: seq<Tuple>)
    requires forall t :: t in xs <==> t in ys
    ensures xs == [] <==> ys == []
  {
    if xs != [] { assert xs[0] in ys; }
    if ys != [] { assert ys[0] in xs; }
  }

  lemma {:induction false} TargetsIgnoreOrder(a: Engine, b: Engine, rows: seq<Tuple>, rows': seq<Tuple>, computed: string, ctx: Context)
    requires a.schema == b.schema && SameRows(a.read, b.read) && ctx.depth <= a.maxDepth && ctx.depth <= b.maxDepth
    requires forall t :: t in rows <==> t in rows'
    ensures Compatible(AnyOf(EvaluateTargets(a, rows, computed, ctx)), AnyOf(EvaluateTargets(b, rows', computed, ctx)))
    decreases 2 * Fuel(a.maxDepth, ctx.depth) - 1, 1
  {
    var ra, rb := EvaluateTargets(a, rows, computed, ctx), EvaluateTargets(b, rows', computed, ctx);
    forall i | 0 <= i < |ra| ensures exists j :: 0 <= j < |rb| && Compatible(ra[i], rb[j]) {
      assert rows[i] in rows';
      var j :| 0 <= j < |rows'| && rows'[j] == rows[i];
      TargetIgnoresOrder(a, b, rows[i], computed, ctx);
      assert Compatible(ra[i], rb[j]);
    }
    forall j | 0 <= j < |rb| ensures exists i :: 0 <= i < |ra| && Compatible(ra[i], rb[j]) {
      assert rows'[j] in rows;
      var i :| 0 <= i < |rows| && rows[i] == rows'[j];
      TargetIgnoresOrder(a, b, rows[i], computed, ctx);
      assert Compatible(ra[i], rb[j]);
    }
    AnyOfMatched(ra, rb);
  }

  lemma {:induction false} TargetIgnoresOrder(a: Engine, b: Engine, t: Tuple, computed: string, ctx: Context)
    requires a.schema == b.schema && SameRows(a.read, b.read) && ctx.depth <= a.maxDepth && ctx.depth <= b.maxDepth
    ensures Compatible(EvaluateTarget(a, t, computed, ctx), EvaluateTarget(b, t, computed, ctx))
    decreases 2 * Fuel(a.maxDepth, ctx.depth) - 1, 0
  {
    var key := Target(t, computed);
    var rule := a.schema.RuleOf(key.objectType, computed);
    if key !in ctx.visited && rule.Some? {
      RuleIgnoresOrder(a, b, rule.value, key.objectType, key.objectId, Context(ctx.who, ctx.depth + 1, ctx.visited + {key}));
    }
  }
}
