/** The expand engine as it runs: every loop pushes subtrees onto a vector. */
module ExpandEngines {
  import opened Common
  import opened Tuples
  import opened Schemas
  import opened Checking
  import opened Expansion
  import opened Store
  import opened Isolation

  class ExpandEngine {
    const reader: StoreTupleReader
    const schema: Schema
    const maxDepth: nat

    constructor (reader: StoreTupleReader, schema: Schema, maxDepth: nat)
      ensures this.reader == reader && this.schema == schema && this.maxDepth == maxDepth
    {
      this.reader, this.schema, this.maxDepth := reader, schema, maxDepth;
    }

    /** The same engine over a store that stays `base`. */
    ghost function Uninterrupted(base: StoreState): Engine {
      Engine(ReaderOf(base, reader.snapshot), schema, maxDepth)
    }

    method Expand(goal: Key) returns (r: TreeOutcome)
      requires reader.store.Valid()
      modifies reader.store
      ensures reader.Since(old(reader.store.State()))
      ensures reader.Steady(old(reader.store.State())) ==>
                r == Expansion.Expand(Uninterrupted(old(reader.store.State())), goal)
    {
      var typeDef := schema.GetType(goal.objectType);
      if typeDef.None? { return Err(TypeNotFound(goal.objectType)); }
      var perm := typeDef.value.GetPermission(goal.permission);
      if perm.None? { return Err(PermissionNotFound(goal.objectType, goal.permission)); }
      r := ExpandRule(perm.value.rule, goal.objectType, goal.objectId, 0, {}, reader.store.State());
    }

    method ExpandRule(rule: RewriteRule, ot: string, oi: string, depth: nat, visited: set<Key>, ghost base: StoreState) returns (r: TreeOutcome)
      requires reader.Since(base)
      modifies reader.store
      ensures reader.Since(base)
      ensures reader.Steady(base) ==> r == Expansion.ExpandRule(Uninterrupted(base), rule, ot, oi, depth, visited)
      decreases 2 * Fuel(maxDepth, depth), rule
    {
      if depth > maxDepth { return Err(MaxDepthExceeded(depth)); }
      match rule
      case This(name) =>
        r := ExpandThis(name, ot, oi, depth, visited, base);
      case Union(children) =>
        var expanded := ExpandChildren(children, ot, oi, depth, visited, base);
        r := match expanded case Ok(trees) => Ok(UnionNode(trees)) case Err(x) => Err(x);
      case Intersection(children) =>
        var expanded := ExpandChildren(children, ot, oi, depth, visited, base);
        r := match expanded case Ok(trees) => Ok(IntersectionNode(trees)) case Err(x) => Err(x);
      case Exclusion(left, excluded) =>
        r := ExpandRule(left, ot, oi, depth, visited, base);
        if r.Err? { return; }
        var x := ExpandRule(excluded, ot, oi, depth, visited, base);
        r := if x.Err? then x else Ok(ExclusionNode(r.value, x.value));
      case Arrow(tupleset, computed) =>
        r := ExpandArrow(tupleset, computed, ot, oi, depth, visited, base);
    }

    /** The loop shared by Union and Intersection. */
    method ExpandChildren(children: seq<RewriteRule>, ot: string, oi: string, depth: nat, visited: set<Key>, ghost base: StoreState)
      returns (r: Result<seq<ExpandTree>, CheckError>)
      requires reader.Since(base)
      modifies reader.store
      ensures reader.Since(base)
      ensures reader.Steady(base) ==> r == Collect(ExpandEach(Uninterrupted(base), children, ot, oi, depth, visited))
      decreases 2 * Fuel(maxDepth, depth), children
    {
      hide Expansion.ExpandRule, WellFormed, Represents, Later;
      ghost var rs := ExpandEach(Uninterrupted(base), children, ot, oi, depth, visited);
      var expanded := [];
      for i := 0 to |children|
        invariant reader.Since(base) && |expanded| == i
        invariant reader.Steady(base) ==> forall j | 0 <= j < i :: rs[j] == Ok(expanded[j])
      {
        var tree := ExpandRule(children[i], ot, oi, depth, visited, base);
        if tree.Err? {
          if reader.Steady(base) { CollectStopsAt(rs, i); }
          return Err(tree.error);
        }
        expanded := expanded + [tree.value];
      }
      r := Ok(expanded);
      if reader.Steady(base) { assert Collect(rs).value == expanded; }
    }

    method ExpandThis(name: string, ot: string, oi: string, depth: nat, visited: set<Key>, ghost base: StoreState) returns (r: TreeOutcome)
      requires reader.Since(base) && depth <= maxDepth
      modifies reader.store
      ensures reader.Since(base)
      ensures reader.Steady(base) ==> r == Expansion.ExpandThis(Uninterrupted(base), name, ot, oi, depth, visited)
      decreases 2 * Fuel(maxDepth, depth) - 1, 0
    {
      var typeDef := schema.GetType(ot);
      if typeDef.None? { return Err(TypeNotFound(ot)); }
      var perm := typeDef.value.GetPermission(name);
      if perm.Some? {
        r := ExpandRule(perm.value.rule, ot, oi, depth + 1, visited, base);
        return;
      }
      if typeDef.value.GetRelation(name).None? { return Err(RelationNotFound(ot, name)); }
      var read := reader.ReadTuples(RowsOf(ot, oi, name), base);
      if read.Err? { return Err(read.error); }
      var leaves := ExpandRows(read.value, base);
      r := match leaves case Ok(subjects) => Ok(Relation(name, subjects)) case Err(x) => Err(x);
    }

    /** The loop over the rows of a relation: a userset contributes its subjects, any other row itself. */
    method ExpandRows(rows: seq<Tuple>, ghost base: StoreState) returns (r: Result<seq<ExpandTree>, CheckError>)
      requires reader.Since(base)
      modifies reader.store
      ensures reader.Since(base)
      ensures reader.Steady(base) ==>
                var subjects := Collect(SubjectsEach(Uninterrupted(base), rows));
                r == if subjects.Err? then Err(subjects.error) else Ok(Leaves(Flatten(subjects.value)))
    {
      hide Subjects, WellFormed, Represents, Later, Flatten, Leaves;
      ghost var rs := SubjectsEach(Uninterrupted(base), rows);
      ghost var lists: seq<seq<SubjectRef>> := [];
      var subjects := [];
      NoLeaves();
      for i := 0 to |rows|
        invariant reader.Since(base) && |lists| == i
        invariant subjects == Leaves(Flatten(lists))
        invariant reader.Steady(base) ==> forall j | 0 <= j < i :: rs[j] == Ok(lists[j])
      {
        var list := RowSubjects(rows[i], base);
        if list.Err? {
          if reader.Steady(base) { CollectStopsAt(rs, i); }
          return Err(list.error);
        }
        MoreLeaves(lists, list.value);
        lists := lists + [list.value];
        subjects := subjects + Leaves(list.value);
      }
      r := Ok(subjects);
      if reader.Steady(base) { assert Collect(rs).value == lists; }
    }

    method RowSubjects(t: Tuple, ghost base: StoreState) returns (r: Result<seq<SubjectRef>, CheckError>)
      requires reader.Since(base)
      modifies reader.store
      ensures reader.Since(base)
      ensures reader.Steady(base) ==> r == Subjects(Uninterrupted(base), t)
    {
      match t.subject.subjectRelation
      case None => r := Ok([t.subject]);
      case Some(rel) =>
        var members := reader.ReadTuples(RowsOf(t.subject.subjectType, t.subject.subjectId, rel), base);
        r := match members case Ok(rows) => Ok(SubjectsOf(rows)) case Err(x) => Err(x);
    }

    method ExpandArrow(tupleset: string, computed: string, ot: string, oi: string, depth: nat, visited: set<Key>, ghost base: StoreState) returns (r: TreeOutcome)
      requires reader.Since(base) && depth <= maxDepth
      modifies reader.store
      ensures reader.Since(base)
      ensures reader.Steady(base) ==> r == Expansion.ExpandArrow(Uninterrupted(base), tupleset, computed, ot, oi, depth, visited)
      decreases 2 * Fuel(maxDepth, depth) - 1, 1
    {
      hide Expansion.ExpandTarget, Expansion.ExpandRule, WellFormed, Represents, Later;
      var read := reader.ReadTuples(RowsOf(ot, oi, tupleset), base);
      if read.Err? { return Err(read.error); }
      var rows := read.value;
      ghost var rs := ExpandTargets(Uninterrupted(base), rows, computed, depth, visited);
      ghost var lists: seq<seq<ExpandTree>> := [];
      var children := [];
      for i := 0 to |rows|
        invariant reader.Since(base) && |lists| == i
        invariant children == Flatten(lists)
        invariant reader.Steady(base) ==> forall j | 0 <= j < i :: rs[j] == Ok(lists[j])
      {
        var pushed := ExpandTarget(rows[i], computed, depth, visited, base);
        if pushed.Err? {
          if reader.Steady(base) { CollectStopsAt(rs, i); }
          return Err(pushed.error);
        }
        assert (lists + [pushed.value])[..i] == lists;
        lists := lists + [pushed.value];
        children := children + pushed.value;
      }
      r := Ok(ArrowNode(tupleset, computed, children));
      if reader.Steady(base) { assert Collect(rs).value == lists; }
    }

    /** One turn of the arrow loop: what it pushes. */
    method ExpandTarget(t: Tuple, computed: string, depth: nat, visited: set<Key>, ghost base: StoreState) returns (r: Result<seq<ExpandTree>, CheckError>)
      requires reader.Since(base) && depth <= maxDepth
      modifies reader.store
      ensures reader.Since(base)
      ensures reader.Steady(base) ==> r == Expansion.ExpandTarget(Uninterrupted(base), t, computed, depth, visited)
      decreases 2 * Fuel(maxDepth, depth) - 1, 0
    {
      var key := Target(t, computed);
      if key in visited { return Ok([]); }
      var typeDef := schema.GetType(key.objectType);
      if typeDef.None? { return Err(TypeNotFound(key.objectType)); }
      var perm := typeDef.value.GetPermission(computed);
      if perm.None? { return Err(PermissionNotFound(key.objectType, computed)); }
      var childVisited := visited;
      childVisited := childVisited + {key};
      var tree := ExpandRule(perm.value.rule, key.objectType, key.objectId, depth + 1, childVisited, base);
      r := match tree case Ok(child) => Ok([child]) case Err(x) => Err(x);
    }
  }
}
