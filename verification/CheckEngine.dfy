/** The check engine as it runs: loops that stop early, over a store that others may write to. */
module CheckEngines {
  import opened Common
  import opened Tuples
  import opened Schemas
  import opened Checking
  import opened Store
  import opened Isolation

  class CheckEngine {
    const reader: StoreTupleReader
    const schema: Schema
    const maxDepth: nat

    constructor (reader: StoreTupleReader, schema: Schema, maxDepth: nat)
      ensures this.reader == reader && this.schema == schema && this.maxDepth == maxDepth
    {
      this.reader, this.schema, this.maxDepth := reader, schema, maxDepth;
    }

    /** The same engine over a store that stays `base`. */
    ghost function Uninterrupted(base: StoreState): Engine {
      Engine(ReaderOf(base, reader.snapshot), schema, maxDepth)
    }

    method Check(goal: Key, who: Principal) returns (r: Outcome)
      requires reader.store.Valid()
      modifies reader.store
      ensures reader.Since(old(reader.store.State()))
      ensures reader.Steady(old(reader.store.State())) ==>
                r == Checking.Check(Uninterrupted(old(reader.store.State())), goal, who)
    {
      var typeDef := schema.GetType(goal.objectType);
      if typeDef.None? { return Err(TypeNotFound(goal.objectType)); }
      var perm := typeDef.value.GetPermission(goal.permission);
      if perm.None? { return Err(PermissionNotFound(goal.objectType, goal.permission)); }
      r := EvaluateRule(perm.value.rule, goal.objectType, goal.objectId, Context(who, 0, {}), reader.store.State());
    }

    method EvaluateRule(rule: RewriteRule, ot: string, oi: string, ctx: Context, ghost base: StoreState) returns (r: Outcome)
      requires reader.Since(base)
      modifies reader.store
      ensures reader.Since(base)
      ensures reader.Steady(base) ==> r == Checking.EvaluateRule(Uninterrupted(base), rule, ot, oi, ctx)
      decreases 2 * Fuel(maxDepth, ctx.depth), rule
    {
      hide Checking.EvaluateThis, Checking.EvaluateArrow, WellFormed, Represents, Later;
      if ctx.depth > maxDepth { return Err(MaxDepthExceeded(ctx.depth)); }
      match rule
      case This(name) =>
        r := EvaluateThis(name, ot, oi, ctx, base);
      case Union(children) =>
        ghost var rs := EvaluateEach(Uninterrupted(base), children, ot, oi, ctx);
        for i := 0 to |children|
          invariant reader.Since(base)
          invariant reader.Steady(base) ==> forall j | 0 <= j < i :: rs[j] == Ok(false)
        {
          r := EvaluateRule(children[i], ot, oi, ctx, base);
          if r.Err? || r.value {
            if reader.Steady(base) { AnyOfStopsAt(rs, i); }
            return;
          }
        }
        r := Ok(false);
      case Intersection(children) =>
        ghost var rs := EvaluateEach(Uninterrupted(base), children, ot, oi, ctx);
        for i := 0 to |children|
          invariant reader.Since(base)
          invariant reader.Steady(base) ==> forall j | 0 <= j < i :: rs[j] == Ok(true)
        {
          r := EvaluateRule(children[i], ot, oi, ctx, base);
          if r.Err? || !r.value {
            if reader.Steady(base) { AllOfStopsAt(rs, i); }
            return;
          }
        }
        r := Ok(true);
      case Exclusion(left, excluded) =>
        r := EvaluateRule(left, ot, oi, ctx, base);
        if r.Err? || !r.value { return; }
        var x := EvaluateRule(excluded, ot, oi, ctx, base);
        r := if x.Err? then x else Ok(!x.value);
      case Arrow(tupleset, computed) =>
        r := EvaluateArrow(tupleset, computed, ot, oi, ctx, base);
    }

    method EvaluateThis(name: string, ot: string, oi: string, ctx: Context, ghost base: StoreState) returns (r: Outcome)
      requires reader.Since(base) && ctx.depth <= maxDepth
      modifies reader.store
      ensures reader.Since(base)
      ensures reader.Steady(base) ==> r == Checking.EvaluateThis(Uninterrupted(base), name, ot, oi, ctx)
      decreases 2 * Fuel(maxDepth, ctx.depth) - 1, 0
    {
      hide Admits, WellFormed, Represents, Later;
      var typeDef := schema.GetType(ot);
      if typeDef.None? { return Err(TypeNotFound(ot)); }
      var perm := typeDef.value.GetPermission(name);
      if perm.Some? {
        r := EvaluateRule(perm.value.rule, ot, oi, ctx.(depth := ctx.depth + 1), base);
        return;
      }
      if typeDef.value.GetRelation(name).None? { return Err(RelationNotFound(ot, name)); }
      var read := reader.ReadTuples(RowsOf(ot, oi, name), base);
      if read.Err? { return Err(read.error); }
      var rows := read.value;
      ghost var rs := AdmitsEach(Uninterrupted(base), rows, ctx.who);
      for i := 0 to |rows|
        invariant reader.Since(base)
        invariant reader.Steady(base) ==> forall j | 0 <= j < i :: rs[j] == Ok(false)
      {
        r := AdmitsRow(rows[i], ctx.who, base);
        if r.Err? || r.value {
          if reader.Steady(base) { AnyOfStopsAt(rs, i); }
          return;
        }
      }
      r := Ok(false);
    }

    method AdmitsRow(t: Tuple, who: Principal, ghost base: StoreState) returns (r: Outcome)
      requires reader.Since(base)
      modifies reader.store
      ensures reader.Since(base)
      ensures reader.Steady(base) ==> r == Admits(Uninterrupted(base), t, who)
    {
      match t.subject.subjectRelation
      case None =>
        r := Ok(t.subject.subjectType == who.subjectType && t.subject.subjectId == who.subjectId);
      case Some(_) =>
        var members := reader.ReadTuples(UsersetMember(t.subject, who), base);
        r := match members case Ok(rows) => Ok(rows != []) case Err(x) => Err(x);
    }

    method EvaluateArrow(tupleset: string, computed: string, ot: string, oi: string, ctx: Context, ghost base: StoreState) returns (r: Outcome)
      requires reader.Since(base) && ctx.depth <= maxDepth
      modifies reader.store
      ensures reader.Since(base)
      ensures reader.Steady(base) ==> r == Checking.EvaluateArrow(Uninterrupted(base), tupleset, computed, ot, oi, ctx)
      decreases 2 * Fuel(maxDepth, ctx.depth) - 1, 1
    {
      hide Checking.EvaluateTarget, Checking.EvaluateRule, WellFormed, Represents, Later;
      var read := reader.ReadTuples(RowsOf(ot, oi, tupleset), base);
      if read.Err? { return Err(read.error); }
      var rows := read.value;
      ghost var rs := EvaluateTargets(Uninterrupted(base), rows, computed, ctx);
      for i := 0 to |rows|
        invariant reader.Since(base)
        invariant reader.Steady(base) ==> forall j | 0 <= j < i :: rs[j] == Ok(false)
      {
        r := EvaluateTarget(rows[i], computed, ctx, base);
        if r.Err? || r.value {
          if reader.Steady(base) { AnyOfStopsAt(rs, i); }
          return;
        }
      }
      r := Ok(false);
    }

    /** One turn of the arrow loop; `false` means that the loop goes on. */
    method EvaluateTarget(t: Tuple, computed: string, ctx: Context, ghost base: StoreState) returns (r: Outcome)
      requires reader.Since(base) && ctx.depth <= maxDepth
      modifies reader.store
      ensures reader.Since(base)
      ensures reader.Steady(base) ==> r == Checking.EvaluateTarget(Uninterrupted(base), t, computed, ctx)
      decreases 2 * Fuel(maxDepth, ctx.depth) - 1, 0
    {
      var key := Target(t, computed);
      if key in ctx.visited { return Ok(false); }
      var typeDef := schema.GetType(key.objectType);
      if typeDef.None? { return Err(TypeNotFound(key.objectType)); }
      var perm := typeDef.value.GetPermission(computed);
      if perm.None? { return Err(PermissionNotFound(key.objectType, computed)); }
      var child := ctx;
      child := child.(depth := child.depth + 1);
      child := child.(visited := child.visited + {key});
      r := EvaluateRule(perm.value.rule, key.objectType, key.objectId, child, base);
    }
  }
}
