/** The tree of an expansion mirrors the rule: same connectives and labels, children in the order of the rule. */
module TreeShapes {
  import opened Common
  import opened Tuples
  import opened Schemas
  import opened Checking
  import opened Expansion
  import opened Exactness

  /** With at most `n` permission steps; under an arrow, every child mirrors the permission of a followed tuple's target. */
  ghost predicate Mirrors(schema: Schema, db: set<Tuple>, n: nat, rule: RewriteRule, ot: string, oi: string, tree: ExpandTree)
    decreases 2 * n, rule
  {
    match rule
    case This(name) =>
      if schema.RuleOf(ot, name).Some? then n > 0 && Mirrors(schema, db, n - 1, schema.RuleOf(ot, name).value, ot, oi, tree)
      else tree.Relation? && tree.relation == name && forall t | t in tree.subjects :: t.Leaf?
    case Union(children) =>
      tree.UnionNode? && |tree.children| == |children| && forall i | 0 <= i < |children| :: Mirrors(schema, db, n, children[i], ot, oi, tree.children[i])
    case Intersection(children) =>
      tree.IntersectionNode? && |tree.children| == |children| && forall i | 0 <= i < |children| :: Mirrors(schema, db, n, children[i], ot, oi, tree.children[i])
    case Exclusion(base, excluded) =>
      tree.ExclusionNode? && Mirrors(schema, db, n, base, ot, oi, tree.base) && Mirrors(schema, db, n, excluded, ot, oi, tree.excluded)
    case Arrow(tupleset, computed) =>
      && tree.ArrowNode? && tree.tupleset == tupleset && tree.computed == computed
      && forall c | c in tree.children :: n > 0 && exists t | t in db && t.resource == ObjectRef(ot, oi) && t.relation == tupleset ::
           MirrorsTarget(schema, db, n - 1, Target(t, computed), c)
  }

  ghost predicate MirrorsTarget(schema: Schema, db: set<Tuple>, n: nat, k: Key, tree: ExpandTree)
    decreases 2 * n + 1
  {
    schema.RuleOf(k.objectType, k.permission).Some?
    && Mirrors(schema, db, n, schema.RuleOf(k.objectType, k.permission).value, k.objectType, k.objectId, tree)
  }

  /** The main result. */
  lemma ExpandMirrorsRule(e: Engine, db: set<Tuple>, goal: Key)
    requires Reads(e.read, db) && Expand(e, goal).Ok?
    ensures MirrorsTarget(e.schema, db, e.maxDepth + 1, goal, Expand(e, goal).value)
  {
    hide Mirrors, Reads;
    RuleIsMirrored(e, db, e.schema.RuleOf(goal.objectType, goal.permission).value, goal.objectType, goal.objectId, 0, {});
  }

  lemma {:induction false} RuleIsMirrored(e: Engine, db: set<Tuple>, rule: RewriteRule, ot: string, oi: string, depth: nat, visited: set<Key>)
    requires Reads(e.read, db) && ExpandRule(e, rule, ot, oi, depth, visited).Ok?
    ensures depth <= e.maxDepth
    ensures Mirrors(e.schema, db, e.maxDepth + 1 - depth, rule, ot, oi, ExpandRule(e, rule, ot, oi, depth, visited).value)
    decreases 2 * Fuel(e.maxDepth, depth), rule
  {
    hide Reads, ExpandTargets, ExpandTarget, Flatten, Collect;
    match rule
    case This(name) =>
      if e.schema.RuleOf(ot, name).Some? { RuleIsMirrored(e, db, e.schema.RuleOf(ot, name).value, ot, oi, depth + 1, visited); }
    case Union(children) => ChildrenAreMirrored(e, db, children, ot, oi, depth, visited);
    case Intersection(children) => ChildrenAreMirrored(e, db, children, ot, oi, depth, visited);
    case Exclusion(base, excluded) =>
      RuleIsMirrored(e, db, base, ot, oi, depth, visited);
      RuleIsMirrored(e, db, excluded, ot, oi, depth, visited);
    case Arrow(tupleset, computed) =>
      var tree := ExpandRule(e, rule, ot, oi, depth, visited).value;
      forall c | c in tree.children
        ensures exists t | t in db && t.resource == ObjectRef(ot, oi) && t.relation == tupleset ::
          MirrorsTarget(e.schema, db, e.maxDepth - depth, Target(t, computed), c)
      {
        BranchIsMirrored(e, db, tupleset, computed, ot, oi, depth, visited, c);
      }
  }

  lemma {:induction false} ChildrenAreMirrored(e: Engine, db: set<Tuple>, children: seq<RewriteRule>, ot: string, oi: string, depth: nat, visited: set<Key>)
    requires Reads(e.read, db) && depth <= e.maxDepth && Collect(ExpandEach(e, children, ot, oi, depth, visited)).Ok?
    ensures var trees := Collect(ExpandEach(e, children, ot, oi, depth, visited)).value;
            |trees| == |children| && forall i | 0 <= i < |children| :: Mirrors(e.schema, db, e.maxDepth + 1 - depth, children[i], ot, oi, trees[i])
    decreases 2 * Fuel(e.maxDepth, depth), children
  {
    hide Reads, Mirrors, ExpandRule, Collect;
    var ts := ExpandEach(e, children, ot, oi, depth, visited);
    var trees := Collect(ts).value;
    forall i | 0 <= i < |children| ensures Mirrors(e.schema, db, e.maxDepth + 1 - depth, children[i], ot, oi, trees[i]) {
      assert ts[i] == Ok(trees[i]);
      RuleIsMirrored(e, db, children[i], ot, oi, depth, visited);
    }
  }

  lemma {:induction false} BranchIsMirrored(e: Engine, db: set<Tuple>, tupleset: string, computed: string, ot: string, oi: string,
                                            depth: nat, visited: set<Key>, c: ExpandTree)
    requires Reads(e.read, db) && depth <= e.maxDepth && ExpandArrow(e, tupleset, computed, ot, oi, depth, visited).Ok?
    requires c in ExpandArrow(e, tupleset, computed, ot, oi, depth, visited).value.children
    ensures exists t | t in db && t.resource == ObjectRef(ot, oi) && t.relation == tupleset ::
              MirrorsTarget(e.schema, db, e.maxDepth - depth, Target(t, computed), c)
    decreases 2 * Fuel(e.maxDepth, depth) - 1, 0
  {
    hide Mirrors, ExpandRule, Flatten, Collect;
    var rows := e.read(RowsOf(ot, oi, tupleset)).value;
    var ts := ExpandTargets(e, rows, computed, depth, visited);
    var lists := Collect(ts).value;
    var i :| 0 <= i < |lists| && c in lists[i];
    assert ts[i] == Ok(lists[i]) && rows[i] in rows;
    var k := Target(rows[i], computed);
    var rule := e.schema.RuleOf(k.objectType, computed).value;
    assert lists[i] == [ExpandRule(e, rule, k.objectType, k.objectId, depth + 1, visited + {k}).value];
    RuleIsMirrored(e, db, rule, k.objectType, k.objectId, depth + 1, visited + {k});
    assert MirrorsTarget(e.schema, db, e.maxDepth - depth, k, c);
  }
}
