/** The same limit is enough for expansion, which walks all branches instead of stopping early. */
module ExpandDepthBound {
  import opened Common
  import opened Tuples
  import opened Schemas
  import opened Checking
  import opened Expansion
  import opened DepthAndOrder
  import opened DepthBound

  /** The main result: the limit that check never hits, expand never hits either. */
  lemma PruningBoundsExpansion(e: Engine, db: set<Tuple>, level: (string, string) -> nat, r: nat, goal: Key)
    requires ReadsWithin(e.read, db)
    requires Levels(e.schema, level, r)
    requires e.maxDepth >= |ArrowKeys(e.schema, db)| * (r + 1) + r
    ensures !TooDeep(Expand(e, goal))
  {
    var rule := e.schema.RuleOf(goal.objectType, goal.permission);
    if rule.Some? {
      RuleArrows(e.schema, goal.objectType, goal.permission);
      ExpansionStaysShallow(e, db, level, r, rule.value, goal.objectType, goal.objectId, 0, {}, level(goal.objectType, goal.permission));
    }
  }

  lemma {:induction false} ExpansionStaysShallow(
    e: Engine, db: set<Tuple>, level: (string, string) -> nat, r: nat, rule: RewriteRule, ot: string, oi: string,
    depth: nat, visited: set<Key>, bound: nat)
    requires ReadsWithin(e.read, db) && Levels(e.schema, level, r)
    requires Below(e.schema, level, ot, rule, bound) && Arrows(rule) <= ArrowPermissions(e.schema)
    requires Shallow(e, db, r, depth, visited, bound)
    ensures !TooDeep(ExpandRule(e, rule, ot, oi, depth, visited))
    decreases 2 * Fuel(e.maxDepth, depth), rule
  {
    hide ExpandTarget, Subjects, Shallow, ArrowPermissions;
    ShallowIsWithinLimit(e, db, r, depth, visited, bound);
    match rule
    case This(name) =>
      var p := e.schema.RuleOf(ot, name);
      if p.Some? {
        RuleArrows(e.schema, ot, name);
        ChainStaysShallow(e, db, r, depth, visited, bound, level(ot, name));
        ExpansionStaysShallow(e, db, level, r, p.value, ot, oi, depth + 1, visited, level(ot, name));
      } else if e.schema.IsRelation(ot, name) {
        var rows := e.read(RowsOf(ot, oi, name));
        if rows.Ok? { SubjectsAreShallow(e, db, rows.value); }
      }
    case Union(children) => ChildrenStayShallow(e, db, level, r, children, ot, oi, depth, visited, bound);
    case Intersection(children) => ChildrenStayShallow(e, db, level, r, children, ot, oi, depth, visited, bound);
    case Exclusion(base, excluded) =>
      ExpansionStaysShallow(e, db, level, r, base, ot, oi, depth, visited, bound);
      ExpansionStaysShallow(e, db, level, r, excluded, ot, oi, depth, visited, bound);
    case Arrow(tupleset, computed) =>
      var rows := e.read(RowsOf(ot, oi, tupleset));
      if rows.Ok? {
        var rs := ExpandTargets(e, rows.value, computed, depth, visited);
        forall i | 0 <= i < |rs| ensures !TooDeep(rs[i]) {
          BranchStaysShallow(e, db, level, r, rows.value[i], computed, depth, visited, bound);
        }
      }
  }

  lemma {:induction false} ChildrenStayShallow(
    e: Engine, db: set<Tuple>, level: (string, string) -> nat, r: nat, children: seq<RewriteRule>, ot: string, oi: string,
    depth: nat, visited: set<Key>, bound: nat)
    requires ReadsWithin(e.read, db) && Levels(e.schema, level, r)
    requires forall c | c in children :: Below(e.schema, level, ot, c, bound) && Arrows(c) <= ArrowPermissions(e.schema)
    requires Shallow(e, db, r, depth, visited, bound)
    ensures !TooDeep(Collect(ExpandEach(e, children, ot, oi, depth, visited)))
    decreases 2 * Fuel(e.maxDepth, depth), children
  {
    var rs := ExpandEach(e, children, ot, oi, depth, visited);
    forall i | 0 <= i < |rs| ensures !TooDeep(rs[i]) {
      ExpansionStaysShallow(e, db, level, r, children[i], ot, oi, depth, visited, bound);
    }
  }

  lemma SubjectsAreShallow(e: Engine, db: set<Tuple>, rows: seq<Tuple>)
    requires ReadsWithin(e.read, db)
    ensures !TooDeep(Collect(SubjectsEach(e, rows)))
  {
    var rs := SubjectsEach(e, rows);
    forall i | 0 <= i < |rs| ensures !TooDeep(rs[i]) {
      var u := rows[i].subject;
      if u.subjectRelation.Some? { assert !TooDeep(e.read(RowsOf(u.subjectType, u.subjectId, u.subjectRelation.value))); }
    }
  }

  lemma {:induction false} BranchStaysShallow(
    e: Engine, db: set<Tuple>, level: (string, string) -> nat, r: nat, t: Tuple, computed: string, depth: nat, visited: set<Key>, bound: nat)
    requires ReadsWithin(e.read, db) && Levels(e.schema, level, r)
    requires t in db && computed in ArrowPermissions(e.schema)
    requires Shallow(e, db, r, depth, visited, bound) && depth <= e.maxDepth
    ensures !TooDeep(ExpandTarget(e, t, computed, depth, visited))
    decreases 2 * Fuel(e.maxDepth, depth) - 1, 0
  {
    hide Shallow, Arrows, ArrowPermissions, Below;
    var key := Target(t, computed);
    var rule := e.schema.RuleOf(key.objectType, computed);
    if key !in visited && rule.Some? {
      StepStaysShallow(e, db, r, depth, visited, bound, key, level(key.objectType, computed));
      RuleArrows(e.schema, key.objectType, computed);
      ExpansionStaysShallow(e, db, level, r, rule.value, key.objectType, key.objectId, depth + 1, visited + {key}, level(key.objectType, computed));
    }
  }
}
