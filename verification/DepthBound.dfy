/** Cycle pruning bounds the depth: on any data, cyclic or not, a known limit is enough. */
module DepthBound {
  import opened Common
  import opened Tuples
  import opened Schemas
  import opened Checking
  import opened DepthAndOrder

  /** `level` orders the permissions of each type so that same-type references go strictly down from at most `r`. */
  ghost predicate Levels(schema: Schema, level: (string, string) -> nat, r: nat) {
    forall ot, p :: schema.RuleOf(ot, p).Some? ==>
      level(ot, p) <= r && Below(schema, level, ot, schema.RuleOf(ot, p).value, level(ot, p))
  }

  ghost predicate Below(schema: Schema, level: (string, string) -> nat, ot: string, rule: RewriteRule, bound: nat) {
    match rule
    case This(name) => schema.RuleOf(ot, name).Some? ==> level(ot, name) < bound
    case Union(children) => forall c | c in children :: Below(schema, level, ot, c, bound)
    case Intersection(children) => forall c | c in children :: Below(schema, level, ot, c, bound)
    case Exclusion(base, excluded) => Below(schema, level, ot, base, bound) && Below(schema, level, ot, excluded, bound)
    case Arrow(_, _) => true
  }

  /** The permissions that a rule's arrows ask for. */
  function Arrows(rule: RewriteRule): set<string> {
    match rule
    case This(_) => {}
    case Union(children) => set c, p | c in children && p in Arrows(c) :: p
    case Intersection(children) => set c, p | c in children && p in Arrows(c) :: p
    case Exclusion(base, excluded) => Arrows(base) + Arrows(excluded)
    case Arrow(_, computed) => {computed}
  }

  function ArrowPermissions(schema: Schema): set<string> {
    set td, pd, p | td in schema.types && pd in td.permissions && p in Arrows(pd.rule) :: p
  }

  /** Every key an arrow step can mark as visited. */
  function ArrowKeys(schema: Schema, db: set<Tuple>): set<Key> {
    set t, p | t in db && p in ArrowPermissions(schema) :: Target(t, p)
  }

  ghost predicate ReadsWithin(read: Reader, db: set<Tuple>) {
    forall f :: !TooDeep(read(f)) && (read(f).Ok? ==> forall t | t in read(f).value :: t in db)
  }

  /** The main result: this depth limit is never hit. */
  lemma PruningBoundsDepth(e: Engine, db: set<Tuple>, level: (string, string) -> nat, r: nat, goal: Key, who: Principal)
    requires ReadsWithin(e.read, db)
    requires Levels(e.schema, level, r)
    requires e.maxDepth >= |ArrowKeys(e.schema, db)| * (r + 1) + r
    ensures !TooDeep(Check(e, goal, who))
  {
    var rule := e.schema.RuleOf(goal.objectType, goal.permission);
    if rule.Some? {
      RuleArrows(e.schema, goal.objectType, goal.permission);
      RuleStaysShallow(e, db, level, r, rule.value, goal.objectType, goal.objectId, Context(who, 0, {}), level(goal.objectType, goal.permission));
    }
  }

  lemma RuleArrows(schema: Schema, ot: string, p: string)
    requires schema.RuleOf(ot, p).Some?
    ensures Arrows(schema.RuleOf(ot, p).value) <= ArrowPermissions(schema)
  {
    var td := schema.GetType(ot).value;
    var pd := td.GetPermission(p).value;
    assert td in schema.types && pd in td.permissions;
  }

  /** The path so far is short: at most `r + 1` steps for each visited key, and the rest of one chain. */
  ghost predicate Shallow(e: Engine, db: set<Tuple>, r: nat, depth: nat, visited: set<Key>, bound: nat) {
    && e.maxDepth >= |ArrowKeys(e.schema, db)| * (r + 1) + r
    && visited <= ArrowKeys(e.schema, db)
    && bound <= r
    && depth + bound <= |visited| * (r + 1) + r
  }

  lemma ShallowIsWithinLimit(e: Engine, db: set<Tuple>, r: nat, depth: nat, visited: set<Key>, bound: nat)
    requires Shallow(e, db, r, depth, visited, bound)
    ensures depth <= e.maxDepth
  {
    Subset(visited, ArrowKeys(e.schema, db));
    Scale(|visited|, |ArrowKeys(e.schema, db)|, r + 1);
  }

  lemma Subset<T>(a: set<T>, b: set<T>)
    requires a <= b
    ensures |a| <= |b|
  {
    assert b == a + (b - a);
  }

  lemma Scale(x: nat, y: nat, k: nat)
    requires x <= y
    ensures x * k <= y * k
  {
  }

  /** Marking one more key pays for one more step and a whole new chain. */
  lemma StepStaysShallow(e: Engine, db: set<Tuple>, r: nat, depth: nat, visited: set<Key>, bound: nat, key: Key, next: nat)
    requires Shallow(e, db, r, depth, visited, bound)
    requires key in ArrowKeys(e.schema, db) && key !in visited && next <= r
    ensures Shallow(e, db, r, depth + 1, visited + {key}, next)
  {
    var n := |visited|;
    assert |visited + {key}| == n + 1;
    Distribute(n, r + 1);
  }

  /** A reference on the same object goes one step deeper and leaves a shorter chain. */
  lemma ChainStaysShallow(e: Engine, db: set<Tuple>, r: nat, depth: nat, visited: set<Key>, bound: nat, next: nat)
    requires Shallow(e, db, r, depth, visited, bound) && next < bound
    ensures Shallow(e, db, r, depth + 1, visited, next)
  {
  }

  lemma Distribute(n: nat, k: nat)
    ensures (n + 1) * k == n * k + k
  {
  }

  lemma {:induction false} RuleStaysShallow(
    e: Engine, db: set<Tuple>, level: (string, string) -> nat, r: nat, rule: RewriteRule, ot: string, oi: string, ctx: Context, bound: nat)
    requires ReadsWithin(e.read, db) && Levels(e.schema, level, r)
    requires Below(e.schema, level, ot, rule, bound) && Arrows(rule) <= ArrowPermissions(e.schema)
    requires Shallow(e, db, r, ctx.depth, ctx.visited, bound)
    ensures !TooDeep(EvaluateRule(e, rule, ot, oi, ctx))
    decreases 2 * Fuel(e.maxDepth, ctx.depth), rule
  {
    hide EvaluateTarget, Admits, Shallow, ArrowPermissions;
    ShallowIsWithinLimit(e, db, r, ctx.depth, ctx.visited, bound);
    match rule
    case This(name) =>
      var p := e.schema.RuleOf(ot, name);
      if p.Some? {
        RuleArrows(e.schema, ot, name);
        ChainStaysShallow(e, db, r, ctx.depth, ctx.visited, bound, level(ot, name));
        RuleStaysShallow(e, db, level, r, p.value, ot, oi, ctx.(depth := ctx.depth + 1), level(ot, name));
      } else if e.schema.IsRelation(ot, name) {
        var rows := e.read(RowsOf(ot, oi, name));
        if rows.Ok? { AdmitsIsShallow(e, db, rows.value, ctx.who); }
      }
    case Union(children) => EachStaysShallow(e, db, level, r, children, ot, oi, ctx, bound);
    case Intersection(children) => EachStaysShallow(e, db, level, r, children, ot, oi, ctx, bound);
    case Exclusion(base, excluded) =>
      RuleStaysShallow(e, db, level, r, base, ot, oi, ctx, bound);
      RuleStaysShallow(e, db, level, r, excluded, ot, oi, ctx, bound);
    case Arrow(tupleset, computed) =>
      var rows := e.read(RowsOf(ot, oi, tupleset));
      if rows.Ok? {
        var rs := EvaluateTargets(e, rows.value, computed, ctx);
        forall i | 0 <= i < |rs| ensures !TooDeep(rs[i]) {
          TargetStaysShallow(e, db, level, r, rows.value[i], computed, ctx, bound);
        }
      }
  }

  lemma {:induction false} EachStaysShallow(
    e: Engine, db: set<Tuple>, level: (string, string) -> nat, r: nat, children: seq<RewriteRule>, ot: string, oi: string, ctx: Context, bound: nat)
    requires ReadsWithin(e.read, db) && Levels(e.schema, level, r)
    requires forall c | c in children :: Below(e.schema, level, ot, c, bound) && Arrows(c) <= ArrowPermissions(e.schema)
    requires Shallow(e, db, r, ctx.depth, ctx.visited, bound)
    ensures !TooDeep(AnyOf(EvaluateEach(e, children, ot, oi, ctx))) && !TooDeep(AllOf(EvaluateEach(e, children, ot, oi, ctx)))
    decreases 2 * Fuel(e.maxDepth, ctx.depth), children
  {
    var rs := EvaluateEach(e, children, ot, oi, ctx);
    forall i | 0 <= i < |rs| ensures !TooDeep(rs[i]) {
      RuleStaysShallow(e, db, level, r, children[i], ot, oi, ctx, bound);
    }
  }

  lemma AdmitsIsShallow(e: Engine, db: set<Tuple>, rows: seq<Tuple>, who: Principal)
    requires ReadsWithin(e.read, db)
    ensures !TooDeep(AnyOf(AdmitsEach(e, rows, who)))
  {
    var rs := AdmitsEach(e, rows, who);
    forall i | 0 <= i < |rs| ensures !TooDeep(rs[i]) {
      if rows[i].subject.subjectRelation.Some? { assert !TooDeep(e.read(UsersetMember(rows[i].subject, who))); }
    }
  }

  lemma {:induction false} TargetStaysShallow(
    e: Engine, db: set<Tuple>, level: (string, string) -> nat, r: nat, t: Tuple, computed: string, ctx: Context, bound: nat)
    requires ReadsWithin(e.read, db) && Levels(e.schema, level, r)
    requires t in db && computed in ArrowPermissions(e.schema)
    requires Shallow(e, db, r, ctx.depth, ctx.visited, bound) && ctx.depth <= e.maxDepth
    ensures !TooDeep(EvaluateTarget(e, t, computed, ctx))
    decreases 2 * Fuel(e.maxDepth, ctx.depth) - 1, 0
  {
    hide Shallow, Arrows, ArrowPermissions, Below;
    var key := Target(t, computed);
    var rule := e.schema.RuleOf(key.objectType, computed);
    if key !in ctx.visited && rule.Some? {
      var next := Context(ctx.who, ctx.depth + 1, ctx.visited + {key});
      StepStaysShallow(e, db, r, ctx.depth, ctx.visited, bound, key, level(key.objectType, computed));
      RuleArrows(e.schema, key.objectType, computed);
      RuleStaysShallow(e, db, level, r, rule.value, key.objectType, key.objectId, next, level(key.objectType, computed));
    }
  }
}
