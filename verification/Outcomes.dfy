/** Which part of a rule decides its outcome, and what an error says about the schema, the limit and the reads. */
module Outcomes {
  import opened Common
  import opened Tuples
  import opened Schemas
  import opened Checking
  import opened Expansion
  import opened Lookup

  // ----- What is decided is not looked at again -----

  /** A child that grants, after children that deny, decides a union: whatever follows, errors included, plays no part. */
  lemma GrantDecidesUnion(e: Engine, before: seq<RewriteRule>, child: RewriteRule, after: seq<RewriteRule>, ot: string, oi: string, ctx: Context)
    requires forall c | c in before :: EvaluateRule(e, c, ot, oi, ctx) == Ok(false)
    requires EvaluateRule(e, child, ot, oi, ctx) != Ok(false)
    ensures EvaluateRule(e, Union(before + [child] + after), ot, oi, ctx) == EvaluateRule(e, child, ot, oi, ctx)
  {
    hide AnyOf;
    var children := before + [child] + after;
    var rs := EvaluateEach(e, children, ot, oi, ctx);
    forall i | 0 <= i < |before| ensures rs[i] == Ok(false) { assert children[i] == before[i] && before[i] in before; }
    assert children[|before|] == child;
    AnyOfStopsAt(rs, |before|);
    LimitFirst(e, child, ot, oi, ctx);
  }

  /** A child that denies, or fails, after children that grant, decides an intersection. */
  lemma DenialDecidesIntersection(e: Engine, before: seq<RewriteRule>, child: RewriteRule, after: seq<RewriteRule>, ot: string, oi: string, ctx: Context)
    requires forall c | c in before :: EvaluateRule(e, c, ot, oi, ctx) == Ok(true)
    requires EvaluateRule(e, child, ot, oi, ctx) != Ok(true)
    ensures EvaluateRule(e, Intersection(before + [child] + after), ot, oi, ctx) == EvaluateRule(e, child, ot, oi, ctx)
  {
    hide AllOf;
    var children := before + [child] + after;
    var rs := EvaluateEach(e, children, ot, oi, ctx);
    forall i | 0 <= i < |before| ensures rs[i] == Ok(true) { assert children[i] == before[i] && before[i] in before; }
    assert children[|before|] == child;
    AllOfStopsAt(rs, |before|);
    LimitFirst(e, child, ot, oi, ctx);
  }

  /** A base that denies or fails decides an exclusion, whatever is excluded and whether or not that would fail. */
  lemma BaseDecidesExclusion(e: Engine, base: RewriteRule, excluded: RewriteRule, ot: string, oi: string, ctx: Context)
    requires EvaluateRule(e, base, ot, oi, ctx) != Ok(true)
    ensures EvaluateRule(e, Exclusion(base, excluded), ot, oi, ctx) == EvaluateRule(e, base, ot, oi, ctx)
  {
    LimitFirst(e, base, ot, oi, ctx);
  }

  /** Beyond the limit every rule has the same outcome. */
  lemma LimitFirst(e: Engine, rule: RewriteRule, ot: string, oi: string, ctx: Context)
    ensures ctx.depth > e.maxDepth ==> EvaluateRule(e, rule, ot, oi, ctx) == Err(MaxDepthExceeded(ctx.depth))
  {
  }

  // ----- What is missing is reported as what it was asked for -----

  /** A name of a rule that is neither a permission nor a relation is a missing relation, in both engines. */
  lemma MissingNameIsReported(e: Engine, name: string, ot: string, oi: string, ctx: Context)
    requires ctx.depth <= e.maxDepth
    requires e.schema.RuleOf(ot, name).None? && !e.schema.IsRelation(ot, name)
    ensures var x := if e.schema.GetType(ot).None? then TypeNotFound(ot) else RelationNotFound(ot, name);
            && EvaluateRule(e, This(name), ot, oi, ctx) == Err(x)
            && ExpandRule(e, This(name), ot, oi, ctx.depth, ctx.visited) == Err(x)
  {
  }

  /** A goal, or the target of an arrow, that is not a permission is a missing permission, in both engines. */
  lemma MissingPermissionIsReported(e: Engine, goal: Key, who: Principal, t: Tuple, computed: string, ctx: Context)
    requires ctx.depth <= e.maxDepth && Target(t, computed) == goal && goal !in ctx.visited
    requires e.schema.RuleOf(goal.objectType, goal.permission).None?
    ensures var x := if e.schema.GetType(goal.objectType).None? then TypeNotFound(goal.objectType) else PermissionNotFound(goal.objectType, goal.permission);
            && Check(e, goal, who) == Err(x) && Expand(e, goal) == Err(x)
            && EvaluateTarget(e, t, computed, ctx) == Err(x) && ExpandTarget(e, t, computed, ctx.depth, ctx.visited) == Err(x)
  {
  }

  // ----- Errors tell the truth -----

  ghost predicate Truthful(e: Engine, x: CheckError) {
    match x
    case TypeNotFound(t) => e.schema.GetType(t).None?
    case PermissionNotFound(t, p) => e.schema.GetType(t).Some? && e.schema.GetType(t).value.GetPermission(p).None?
    case RelationNotFound(t, r) =>
      && e.schema.GetType(t).Some?
      && e.schema.GetType(t).value.GetPermission(r).None? && e.schema.GetType(t).value.GetRelation(r).None?
    case MaxDepthExceeded(depth) => depth == e.maxDepth + 1
    case StorageFailure(_) => exists f :: e.read(f) == Err(x)
  }

  ghost predicate OkOrTruthful<T(!new)>(e: Engine, r: Result<T, CheckError>) {
    r.Err? ==> Truthful(e, r.error)
  }

  /** Reads fail only with storage errors. */
  ghost predicate FailsInStorage(read: Reader) {
    forall f :: read(f).Err? ==> read(f).error.StorageFailure?
  }

  /** The main result about errors of check: each names something that is indeed missing, the limit, or a read that failed. */
  lemma CheckErrorsAreTrue(e: Engine, goal: Key, who: Principal)
    requires FailsInStorage(e.read)
    ensures OkOrTruthful(e, Check(e, goal, who))
  {
    var rule := e.schema.RuleOf(goal.objectType, goal.permission);
    if rule.Some? { RuleErrorsAreTrue(e, rule.value, goal.objectType, goal.objectId, Context(who, 0, {})); }
  }

  lemma FoldErrors(e: Engine, rs: seq<Outcome>)
    requires forall i | 0 <= i < |rs| :: OkOrTruthful(e, rs[i])
    ensures OkOrTruthful(e, AnyOf(rs)) && OkOrTruthful(e, AllOf(rs))
  {
    hide Truthful;
  }

  lemma CollectErrors<T(!new)>(e: Engine, rs: seq<Result<T, CheckError>>)
    requires forall i | 0 <= i < |rs| :: OkOrTruthful(e, rs[i])
    ensures OkOrTruthful(e, Collect(rs))
  {
    hide Truthful;
  }

  lemma {:induction false} RuleErrorsAreTrue(e: Engine, rule: RewriteRule, ot: string, oi: string, ctx: Context)
    requires FailsInStorage(e.read) && ctx.depth <= e.maxDepth + 1
    ensures OkOrTruthful(e, EvaluateRule(e, rule, ot, oi, ctx))
    decreases 2 * Fuel(e.maxDepth, ctx.depth), rule
  {
    hide EvaluateTarget, Admits, AnyOf, AllOf;
    if ctx.depth <= e.maxDepth {
      match rule
      case This(name) =>
        var p := e.schema.RuleOf(ot, name);
        if p.Some? {
          RuleErrorsAreTrue(e, p.value, ot, oi, ctx.(depth := ctx.depth + 1));
        } else if e.schema.IsRelation(ot, name) {
          RelationErrorsAreTrue(e, name, ot, oi, ctx.who);
        }
      case Union(children) => ChildErrorsAreTrue(e, children, ot, oi, ctx);
      case Intersection(children) => ChildErrorsAreTrue(e, children, ot, oi, ctx);
      case Exclusion(base, excluded) =>
        RuleErrorsAreTrue(e, base, ot, oi, ctx);
        RuleErrorsAreTrue(e, excluded, ot, oi, ctx);
      case Arrow(tupleset, computed) =>
        var rows := e.read(RowsOf(ot, oi, tupleset));
        if rows.Ok? {
          var rs := EvaluateTargets(e, rows.value, computed, ctx);
          forall i | 0 <= i < |rs| ensures OkOrTruthful(e, rs[i]) { TargetErrorsAreTrue(e, rows.value[i], computed, ctx); }
          FoldErrors(e, rs);
        }
    }
  }

  lemma RelationErrorsAreTrue(e: Engine, name: string, ot: string, oi: string, who: Principal)
    requires FailsInStorage(e.read)
    ensures var rows := e.read(RowsOf(ot, oi, name));
            if rows.Err? then Truthful(e, rows.error) else OkOrTruthful(e, AnyOf(AdmitsEach(e, rows.value, who)))
  {
    hide AnyOf;
    var rows := e.read(RowsOf(ot, oi, name));
    if rows.Ok? {
      var rs := AdmitsEach(e, rows.value, who);
      forall i | 0 <= i < |rs| ensures OkOrTruthful(e, rs[i]) {
        if rows.value[i].subject.subjectRelation.Some? { assert e.read(UsersetMember(rows.value[i].subject, who)).Err? ==> rs[i] == Err(e.read(UsersetMember(rows.value[i].subject, who)).error); }
      }
      FoldErrors(e, rs);
    }
  }

  lemma {:induction false} ChildErrorsAreTrue(e: Engine, children: seq<RewriteRule>, ot: string, oi: string, ctx: Context)
    requires FailsInStorage(e.read) && ctx.depth <= e.maxDepth + 1
    ensures OkOrTruthful(e, AnyOf(EvaluateEach(e, children, ot, oi, ctx))) && OkOrTruthful(e, AllOf(EvaluateEach(e, children, ot, oi, ctx)))
    decreases 2 * Fuel(e.maxDepth, ctx.depth), children
  {
    hide AnyOf, AllOf, OkOrTruthful;
    var rs := EvaluateEach(e, children, ot, oi, ctx);
    forall i | 0 <= i < |rs| ensures OkOrTruthful(e, rs[i]) { RuleErrorsAreTrue(e, children[i], ot, oi, ctx); }
    FoldErrors(e, rs);
  }

  lemma {:induction false} TargetErrorsAreTrue(e: Engine, t: Tuple, computed: string, ctx: Context)
    requires FailsInStorage(e.read) && ctx.depth <= e.maxDepth
    ensures OkOrTruthful(e, EvaluateTarget(e, t, computed, ctx))
    decreases 2 * Fuel(e.maxDepth, ctx.depth) - 1, 0
  {
    hide EvaluateRule;
    var k := Target(t, computed);
    var rule := e.schema.RuleOf(k.objectType, computed);
    if k !in ctx.visited && rule.Some? {
      RuleErrorsAreTrue(e, rule.value, k.objectType, k.objectId, Context(ctx.who, ctx.depth + 1, ctx.visited + {k}));
    }
  }

  // ----- Errors of expand -----

  /** The main result about errors of expand: the same. */
  lemma ExpandErrorsAreTrue(e: Engine, goal: Key)
    requires FailsInStorage(e.read)
    ensures OkOrTruthful(e, Expand(e, goal))
  {
    var rule := e.schema.RuleOf(goal.objectType, goal.permission);
    if rule.Some? { ExpansionErrorsAreTrue(e, rule.value, goal.objectType, goal.objectId, 0, {}); }
  }

  lemma {:induction false} ExpansionErrorsAreTrue(e: Engine, rule: RewriteRule, ot: string, oi: string, depth: nat, visited: set<Key>)
    requires FailsInStorage(e.read) && depth <= e.maxDepth + 1
    ensures OkOrTruthful(e, ExpandRule(e, rule, ot, oi, depth, visited))
    decreases 2 * Fuel(e.maxDepth, depth), rule
  {
    hide ExpandTarget, Subjects, Collect, Flatten;
    if depth <= e.maxDepth {
      match rule
      case This(name) =>
        var p := e.schema.RuleOf(ot, name);
        if p.Some? {
          ExpansionErrorsAreTrue(e, p.value, ot, oi, depth + 1, visited);
        } else if e.schema.IsRelation(ot, name) {
          SubjectErrorsAreTrue(e, name, ot, oi);
        }
      case Union(children) => TreeErrorsAreTrue(e, children, ot, oi, depth, visited);
      case Intersection(children) => TreeErrorsAreTrue(e, children, ot, oi, depth, visited);
      case Exclusion(base, excluded) =>
        ExpansionErrorsAreTrue(e, base, ot, oi, depth, visited);
        ExpansionErrorsAreTrue(e, excluded, ot, oi, depth, visited);
      case Arrow(tupleset, computed) =>
        var rows := e.read(RowsOf(ot, oi, tupleset));
        if rows.Ok? {
          var rs := ExpandTargets(e, rows.value, computed, depth, visited);
          forall i | 0 <= i < |rs| ensures OkOrTruthful(e, rs[i]) { BranchErrorsAreTrue(e, rows.value[i], computed, depth, visited); }
          CollectErrors(e, rs);
        }
    }
  }

  lemma SubjectErrorsAreTrue(e: Engine, name: string, ot: string, oi: string)
    requires FailsInStorage(e.read)
    ensures var rows := e.read(RowsOf(ot, oi, name));
            if rows.Err? then Truthful(e, rows.error) else OkOrTruthful(e, Collect(SubjectsEach(e, rows.value)))
  {
    hide Collect;
    var rows := e.read(RowsOf(ot, oi, name));
    if rows.Ok? {
      var rs := SubjectsEach(e, rows.value);
      forall i | 0 <= i < |rs| ensures OkOrTruthful(e, rs[i]) {
        var u := rows.value[i].subject;
        if u.subjectRelation.Some? { assert e.read(RowsOf(u.subjectType, u.subjectId, u.subjectRelation.value)).Err? ==> rs[i] == Err(e.read(RowsOf(u.subjectType, u.subjectId, u.subjectRelation.value)).error); }
      }
      CollectErrors(e, rs);
    }
  }

  lemma {:induction false} TreeErrorsAreTrue(e: Engine, children: seq<RewriteRule>, ot: string, oi: string, depth: nat, visited: set<Key>)
    requires FailsInStorage(e.read) && depth <= e.maxDepth + 1
    ensures OkOrTruthful(e, Collect(ExpandEach(e, children, ot, oi, depth, visited)))
    decreases 2 * Fuel(e.maxDepth, depth), children
  {
    hide Collect, OkOrTruthful;
    var rs := ExpandEach(e, children, ot, oi, depth, visited);
    forall i | 0 <= i < |rs| ensures OkOrTruthful(e, rs[i]) { ExpansionErrorsAreTrue(e, children[i], ot, oi, depth, visited); }
    CollectErrors(e, rs);
  }

  lemma {:induction false} BranchErrorsAreTrue(e: Engine, t: Tuple, computed: string, depth: nat, visited: set<Key>)
    requires FailsInStorage(e.read) && depth <= e.maxDepth
    ensures OkOrTruthful(e, ExpandTarget(e, t, computed, depth, visited))
    decreases 2 * Fuel(e.maxDepth, depth) - 1, 0
  {
    hide ExpandRule;
    var k := Target(t, computed);
    var rule := e.schema.RuleOf(k.objectType, computed);
    if k !in visited && rule.Some? {
      ExpansionErrorsAreTrue(e, rule.value, k.objectType, k.objectId, depth + 1, visited + {k});
    }
  }

  // ----- Errors of the resource lookup -----

  /** A lookup fails exactly with the first check that fails before the limit is met. */
  lemma {:induction false} GatherFailsAtFirst(e: Engine, objectType: string, permission: string, who: Principal, ids: seq<string>, limit: nat) returns (k: nat)
    requires Gather(e, objectType, permission, who, ids, limit).Err?
    ensures k < |ids| && Check(e, Key(objectType, ids[k], permission), who) == Err(Gather(e, objectType, permission, who, ids, limit).error)
    ensures forall i | 0 <= i < k :: Check(e, Key(objectType, ids[i], permission), who).Ok?
    ensures |Allowed(e, objectType, permission, who, ids[..k])| < limit
  {
    var n := |ids| - 1;
    var before := Gather(e, objectType, permission, who, ids[..n], limit);
    if before.Err? {
      k := GatherFailsAtFirst(e, objectType, permission, who, ids[..n], limit);
      assert ids[..n][..k] == ids[..k];
      forall i | 0 <= i < k ensures Check(e, Key(objectType, ids[i], permission), who).Ok? { assert ids[..n][i] == ids[i]; }
    } else {
      k := n;
      var j := GatherCuts(e, objectType, permission, who, ids[..n], limit);
      assert ids[..n][..n] == ids[..n];
      assert j == n;
      forall i | 0 <= i < n ensures Check(e, Key(objectType, ids[i], permission), who).Ok? { assert ids[i] in ids[..n]; }
    }
  }
}
