/** How often a subject occurs in an expansion: once for each way that leads from the permission to a stored row. */
module LeafCounts {
  import opened Common
  import opened Tuples
  import opened Schemas
  import opened Checking
  import opened Expansion
  import opened Semantics
  import opened Exactness
  import opened ExpandExactness

  /** Every successful read returns exactly the matching tuples of `db`, each once. */
  ghost predicate Lists(read: Reader, db: set<Tuple>) {
    && Reads(read, db)
    && forall f | read(f).Ok? :: forall i, j | 0 <= i < j < |read(f).value| :: read(f).value[i] != read(f).value[j]
  }

  /** The leaves of a tree, both sides of an exclusion included. */
  function Copies(tree: ExpandTree, s: SubjectRef): nat
    decreases tree
  {
    match tree
    case Leaf(subject) => if subject == s then 1 else 0
    case Relation(_, subjects) => CopiesIn(subjects, s)
    case UnionNode(children) => CopiesIn(children, s)
    case IntersectionNode(children) => CopiesIn(children, s)
    case ExclusionNode(base, excluded) => Copies(base, s) + Copies(excluded, s)
    case ArrowNode(_, _, children) => CopiesIn(children, s)
  }

  function CopiesIn(trees: seq<ExpandTree>, s: SubjectRef): nat
    decreases trees
  {
    if trees == [] then 0 else CopiesIn(trees[..|trees| - 1], s) + Copies(trees[|trees| - 1], s)
  }

  // ----- The ways, counted over the stored tuples -----

  function RowsIn(db: set<Tuple>, name: string, ot: string, oi: string): set<Tuple> {
    set t | t in db && t.resource == ObjectRef(ot, oi) && t.relation == name
  }

  /** The stored rows of a relation that stand for the subject. */
  ghost function RowsFor(db: set<Tuple>, s: SubjectRef, rows: set<Tuple>): set<Tuple> {
    set t | t in rows && Contributes(db, s, t)
  }

  /** The ways of at most `n` permission steps: through names and arrows to a row that stands for the subject. */
  ghost function Ways(schema: Schema, db: set<Tuple>, n: nat, rule: RewriteRule, ot: string, oi: string, visited: set<Key>, s: SubjectRef): nat
    decreases n, 0, rule
  {
    match rule
    case This(name) =>
      if schema.RuleOf(ot, name).Some? then
        if n == 0 then 0 else Ways(schema, db, n - 1, schema.RuleOf(ot, name).value, ot, oi, visited, s)
      else |RowsFor(db, s, RowsIn(db, name, ot, oi))|
    case Union(children) => WaysOfEach(schema, db, n, children, ot, oi, visited, s)
    case Intersection(children) => WaysOfEach(schema, db, n, children, ot, oi, visited, s)
    case Exclusion(base, excluded) =>
      Ways(schema, db, n, base, ot, oi, visited, s) + Ways(schema, db, n, excluded, ot, oi, visited, s)
    case Arrow(tupleset, computed) =>
      if n == 0 then 0 else WaysThrough(schema, db, n - 1, RowsIn(db, tupleset, ot, oi), computed, visited, s)
  }

  ghost function WaysOfEach(schema: Schema, db: set<Tuple>, n: nat, children: seq<RewriteRule>, ot: string, oi: string, visited: set<Key>, s: SubjectRef): nat
    decreases n, 0, children
  {
    if children == [] then 0
    else
      var k := |children| - 1;
      WaysOfEach(schema, db, n, children[..k], ot, oi, visited, s) + Ways(schema, db, n, children[k], ot, oi, visited, s)
  }

  /** The ways through one stored tuple; none leads back to a visited target. */
  ghost function WaysVia(schema: Schema, db: set<Tuple>, n: nat, t: Tuple, computed: string, visited: set<Key>, s: SubjectRef): nat
    decreases n, 1
  {
    var k := Target(t, computed);
    if k in visited || schema.RuleOf(k.objectType, computed).None? then 0
    else Ways(schema, db, n, schema.RuleOf(k.objectType, computed).value, k.objectType, k.objectId, visited + {k}, s)
  }

  ghost function WaysThrough(schema: Schema, db: set<Tuple>, n: nat, ts: set<Tuple>, computed: string, visited: set<Key>, s: SubjectRef): nat
    decreases n, 2, |ts|
  {
    if ts == {} then 0
    else
      var t :| t in ts;
      WaysVia(schema, db, n, t, computed, visited, s) + WaysThrough(schema, db, n, ts - {t}, computed, visited, s)
  }

  /** The sum does not depend on the order in which the tuples are taken. */
  lemma {:induction false} OneTupleMore(schema: Schema, db: set<Tuple>, n: nat, ts: set<Tuple>, computed: string, visited: set<Key>, s: SubjectRef, t: Tuple)
    requires t in ts
    ensures WaysThrough(schema, db, n, ts, computed, visited, s)
         == WaysVia(schema, db, n, t, computed, visited, s) + WaysThrough(schema, db, n, ts - {t}, computed, visited, s)
    decreases |ts|
  {
    var u :| u in ts && WaysThrough(schema, db, n, ts, computed, visited, s)
      == WaysVia(schema, db, n, u, computed, visited, s) + WaysThrough(schema, db, n, ts - {u}, computed, visited, s);
    if u != t {
      OneTupleMore(schema, db, n, ts - {u}, computed, visited, s, t);
      OneTupleMore(schema, db, n, ts - {t}, computed, visited, s, u);
      assert ts - {u} - {t} == ts - {t} - {u};
    }
  }

  // ----- Counting leaves -----

  lemma {:induction false} CopiesConcat(xs: seq<ExpandTree>, ys: seq<ExpandTree>, s: SubjectRef)
    ensures CopiesIn(xs + ys, s) == CopiesIn(xs, s) + CopiesIn(ys, s)
  {
    if ys == [] {
      assert xs + ys == xs;
    } else {
      var k := |ys| - 1;
      CopiesConcat(xs, ys[..k], s);
      assert (xs + ys)[..|xs| + k] == xs + ys[..k];
    }
  }

  /** The main result: on a reader that lists every row once, each subject has one leaf for each way. */
  lemma ExpandCountsWays(e: Engine, db: set<Tuple>, goal: Key, s: SubjectRef)
    requires Lists(e.read, db) && Expand(e, goal).Ok?
    ensures e.schema.RuleOf(goal.objectType, goal.permission).Some?
    ensures Copies(Expand(e, goal).value, s)
         == Ways(e.schema, db, e.maxDepth + 1, e.schema.RuleOf(goal.objectType, goal.permission).value, goal.objectType, goal.objectId, {}, s)
  {
    hide Copies, Ways, Lists;
    RuleCountsWays(e, db, e.schema.RuleOf(goal.objectType, goal.permission).value, goal.objectType, goal.objectId, 0, {}, s);
  }

  lemma {:induction false} RuleCountsWays(e: Engine, db: set<Tuple>, rule: RewriteRule, ot: string, oi: string, depth: nat, visited: set<Key>, s: SubjectRef)
    requires Lists(e.read, db) && ExpandRule(e, rule, ot, oi, depth, visited).Ok?
    ensures depth <= e.maxDepth
    ensures Copies(ExpandRule(e, rule, ot, oi, depth, visited).value, s)
         == Ways(e.schema, db, e.maxDepth + 1 - depth, rule, ot, oi, visited, s)
    decreases 2 * Fuel(e.maxDepth, depth), rule
  {
    hide Collect, ExpandEach, WaysOfEach, CopiesIn, Lists, WaysThrough, ExpandTargets, SubjectsEach, Flatten;
    match rule
    case This(name) =>
      var p := e.schema.RuleOf(ot, name);
      if p.Some? {
        RuleCountsWays(e, db, p.value, ot, oi, depth + 1, visited, s);
      } else {
        RelationCountsRows(e, db, name, ot, oi, s);
      }
    case Union(children) => ChildrenCountWays(e, db, children, ot, oi, depth, visited, s);
    case Intersection(children) => ChildrenCountWays(e, db, children, ot, oi, depth, visited, s);
    case Exclusion(base, excluded) =>
      RuleCountsWays(e, db, base, ot, oi, depth, visited, s);
      RuleCountsWays(e, db, excluded, ot, oi, depth, visited, s);
    case Arrow(tupleset, computed) => BranchesCountWays(e, db, tupleset, computed, ot, oi, depth, visited, s);
  }

  lemma {:induction false} ChildrenCountWays(e: Engine, db: set<Tuple>, children: seq<RewriteRule>, ot: string, oi: string, depth: nat, visited: set<Key>, s: SubjectRef)
    requires Lists(e.read, db) && depth <= e.maxDepth && Collect(ExpandEach(e, children, ot, oi, depth, visited)).Ok?
    ensures CopiesIn(Collect(ExpandEach(e, children, ot, oi, depth, visited)).value, s)
         == WaysOfEach(e.schema, db, e.maxDepth + 1 - depth, children, ot, oi, visited, s)
    decreases 2 * Fuel(e.maxDepth, depth), children
  {
    hide Lists, ExpandRule, Ways, Copies;
    if children != [] {
      var k := |children| - 1;
      var ts := ExpandEach(e, children, ot, oi, depth, visited);
      var trees := Collect(ts).value;
      assert ExpandEach(e, children[..k], ot, oi, depth, visited) == ts[..k];
      assert ts[k] == Ok(trees[k]);
      assert Collect(ts[..k]) == Ok(trees[..k]) by { CollectPrefix(ts, k); }
      ChildrenCountWays(e, db, children[..k], ot, oi, depth, visited, s);
      RuleCountsWays(e, db, children[k], ot, oi, depth, visited, s);
    }
  }

  lemma CollectPrefix<T, E>(rs: seq<Result<T, E>>, k: nat)
    requires k <= |rs| && Collect(rs).Ok?
    ensures Collect(rs[..k]) == Ok(Collect(rs).value[..k])
  {
    var values := Collect(rs).value;
    var front := Collect(rs[..k]).value;
    forall i | 0 <= i < k ensures front[i] == values[i] { assert rs[..k][i] == rs[i] == Ok(values[i]); }
    assert front == values[..k];
  }

  // ----- Relation nodes -----

  lemma RelationCountsRows(e: Engine, db: set<Tuple>, name: string, ot: string, oi: string, s: SubjectRef)
    requires Lists(e.read, db) && e.read(RowsOf(ot, oi, name)).Ok?
    requires Collect(SubjectsEach(e, e.read(RowsOf(ot, oi, name)).value)).Ok?
    ensures CopiesIn(Leaves(Flatten(Collect(SubjectsEach(e, e.read(RowsOf(ot, oi, name)).value)).value)), s)
         == |RowsFor(db, s, RowsIn(db, name, ot, oi))|
  {
    hide Collect, Contributes;
    var rows := e.read(RowsOf(ot, oi, name)).value;
    RowsCount(e, db, rows, s);
    assert (set t | t in rows) == RowsIn(db, name, ot, oi);
  }

  lemma {:induction false} RowsCount(e: Engine, db: set<Tuple>, rows: seq<Tuple>, s: SubjectRef)
    requires Lists(e.read, db) && Collect(SubjectsEach(e, rows)).Ok?
    requires forall i, j | 0 <= i < j < |rows| :: rows[i] != rows[j]
    ensures CopiesIn(Leaves(Flatten(Collect(SubjectsEach(e, rows)).value)), s) == |RowsFor(db, s, (set t | t in rows))|
  {
    hide Collect, Contributes, Lists, Leaves, Flatten, RowsFor, CopiesIn, Subjects;
    var lists := Collect(SubjectsEach(e, rows)).value;
    if rows == [] {
      assert lists == [];
      NoLeaves();
      assert (set t | t in rows) == {};
      NoRowsToCount(db, s);
    } else {
      var k := |rows| - 1;
      var t := rows[k];
      assert SubjectsEach(e, rows[..k]) == SubjectsEach(e, rows)[..k];
      CollectPrefix(SubjectsEach(e, rows), k);
      assert SubjectsEach(e, rows)[k] == Ok(lists[k]);
      MoreLeaves(lists[..k], lists[k]);
      assert lists[..k] + [lists[k]] == lists;
      CopiesConcat(Leaves(Flatten(lists[..k])), Leaves(lists[k]), s);
      RowsCount(e, db, rows[..k], s);
      RowCounts(e, db, t, s);
      assert (set u | u in rows) == (set u | u in rows[..k]) + {t} by { assert rows == rows[..k] + [t]; }
      RowsForMore(db, s, (set u | u in rows[..k]), t);
    }
  }

  lemma NoRowsToCount(db: set<Tuple>, s: SubjectRef)
    ensures CopiesIn([], s) == 0 == |RowsFor(db, s, {})|
  {
  }

  lemma RowsForMore(db: set<Tuple>, s: SubjectRef, rows: set<Tuple>, t: Tuple)
    requires t !in rows
    ensures |RowsFor(db, s, rows + {t})| == |RowsFor(db, s, rows)| + if Contributes(db, s, t) then 1 else 0
  {
    hide Contributes;
    if Contributes(db, s, t) {
      assert RowsFor(db, s, rows + {t}) == RowsFor(db, s, rows) + {t};
    } else {
      assert RowsFor(db, s, rows + {t}) == RowsFor(db, s, rows);
    }
  }

  /** A row has at most one leaf for a subject: a userset lists each of its subjects once. */
  lemma RowCounts(e: Engine, db: set<Tuple>, t: Tuple, s: SubjectRef)
    requires Lists(e.read, db) && Subjects(e, t).Ok?
    ensures CopiesIn(Leaves(Subjects(e, t).value), s) == if Contributes(db, s, t) then 1 else 0
  {
    var ss := Subjects(e, t).value;
    RowIsExact(e, db, s, t);
    forall i, j | 0 <= i < j < |ss| ensures ss[i] != ss[j] {
      var u := t.subject;
      var members := e.read(RowsOf(u.subjectType, u.subjectId, u.subjectRelation.value)).value;
      assert members[i] in members && members[j] in members;
      assert members[i] == UsersetRow(u, ss[i]) && members[j] == UsersetRow(u, ss[j]);
    }
    DistinctLeaves(ss, s);
  }

  lemma {:induction false} DistinctLeaves(ss: seq<SubjectRef>, s: SubjectRef)
    requires forall i, j | 0 <= i < j < |ss| :: ss[i] != ss[j]
    ensures CopiesIn(Leaves(ss), s) == if s in ss then 1 else 0
  {
    if ss != [] {
      var k := |ss| - 1;
      assert Leaves(ss)[..k] == Leaves(ss[..k]);
      DistinctLeaves(ss[..k], s);
      assert ss == ss[..k] + [ss[k]];
    }
  }

  // ----- Arrows -----

  lemma {:induction false} BranchesCountWays(e: Engine, db: set<Tuple>, tupleset: string, computed: string, ot: string, oi: string, depth: nat, visited: set<Key>, s: SubjectRef)
    requires Lists(e.read, db) && depth <= e.maxDepth && ExpandArrow(e, tupleset, computed, ot, oi, depth, visited).Ok?
    ensures Copies(ExpandArrow(e, tupleset, computed, ot, oi, depth, visited).value, s)
         == WaysThrough(e.schema, db, e.maxDepth - depth, RowsIn(db, tupleset, ot, oi), computed, visited, s)
    decreases 2 * Fuel(e.maxDepth, depth) - 1, 2
  {
    hide Collect, WaysThrough, Flatten, ExpandTargets, CopiesIn;
    var rows := e.read(RowsOf(ot, oi, tupleset)).value;
    TargetsCountWays(e, db, rows, computed, depth, visited, s);
    assert (set t | t in rows) == RowsIn(db, tupleset, ot, oi);
  }

  lemma {:induction false} TargetsCountWays(e: Engine, db: set<Tuple>, rows: seq<Tuple>, computed: string, depth: nat, visited: set<Key>, s: SubjectRef)
    requires Lists(e.read, db) && depth <= e.maxDepth && Collect(ExpandTargets(e, rows, computed, depth, visited)).Ok?
    requires forall i, j | 0 <= i < j < |rows| :: rows[i] != rows[j]
    ensures CopiesIn(Flatten(Collect(ExpandTargets(e, rows, computed, depth, visited)).value), s)
         == WaysThrough(e.schema, db, e.maxDepth - depth, (set t | t in rows), computed, visited, s)
    decreases 2 * Fuel(e.maxDepth, depth) - 1, 1, |rows|
  {
    hide Collect, Lists, ExpandTarget, WaysVia, WaysThrough, Flatten, CopiesIn;
    var ts := ExpandTargets(e, rows, computed, depth, visited);
    var lists := Collect(ts).value;
    if rows == [] {
      assert lists == [] && (set t | t in rows) == {};
      NothingToCount(e.schema, db, e.maxDepth - depth, computed, visited, s);
    } else {
      var k := |rows| - 1;
      var t := rows[k];
      assert ExpandTargets(e, rows[..k], computed, depth, visited) == ts[..k];
      CollectPrefix(ts, k);
      assert ts[k] == Ok(lists[k]);
      FlattenLast(lists);
      CopiesConcat(Flatten(lists[..k]), lists[k], s);
      TargetsCountWays(e, db, rows[..k], computed, depth, visited, s);
      TargetCountsWays(e, db, t, computed, depth, visited, s);
      var before := set u | u in rows[..k];
      assert (set u | u in rows) == before + {t} by { assert rows == rows[..k] + [t]; }
      OneTupleMore(e.schema, db, e.maxDepth - depth, before + {t}, computed, visited, s, t);
      assert before + {t} - {t} == before;
    }
  }

  lemma FlattenLast(lists: seq<seq<ExpandTree>>)
    requires lists != []
    ensures Flatten(lists) == Flatten(lists[..|lists| - 1]) + lists[|lists| - 1]
  {
  }

  lemma NothingToCount(schema: Schema, db: set<Tuple>, n: nat, computed: string, visited: set<Key>, s: SubjectRef)
    ensures CopiesIn(Flatten<ExpandTree>([]), s) == 0 == WaysThrough(schema, db, n, {}, computed, visited, s)
  {
  }

  lemma {:induction false} TargetCountsWays(e: Engine, db: set<Tuple>, t: Tuple, computed: string, depth: nat, visited: set<Key>, s: SubjectRef)
    requires Lists(e.read, db) && depth <= e.maxDepth && ExpandTarget(e, t, computed, depth, visited).Ok?
    ensures CopiesIn(ExpandTarget(e, t, computed, depth, visited).value, s)
         == WaysVia(e.schema, db, e.maxDepth - depth, t, computed, visited, s)
    decreases 2 * Fuel(e.maxDepth, depth) - 1, 0
  {
    hide Lists, ExpandRule, Ways;
    var k := Target(t, computed);
    if k !in visited {
      var rule := e.schema.RuleOf(k.objectType, computed).value;
      RuleCountsWays(e, db, rule, k.objectType, k.objectId, depth + 1, visited + {k}, s);
      var tree := ExpandRule(e, rule, k.objectType, k.objectId, depth + 1, visited + {k}).value;
      assert ExpandTarget(e, t, computed, depth, visited).value == [tree];
      assert CopiesIn([tree], s) == CopiesIn([tree][..0], s) + Copies([tree][0], s);
    }
  }
}
