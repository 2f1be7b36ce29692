/** The recursive permission evaluator: depth limit, cycle pruning, error propagation. */
module Checking {
  import opened Common
  import opened Tuples
  import opened Schemas

  datatype CheckError =
    | TypeNotFound(typeName: string)
    | PermissionNotFound(typeName: string, permission: string)
    | RelationNotFound(typeName: string, relation: string)
    | MaxDepthExceeded(depth: nat)
    | StorageFailure(cause: StorageError)

  type Outcome = Result<bool, CheckError>

  /** Any reader of tuples, with its snapshot already chosen. */
  type Reader = TupleFilter -> Result<seq<Tuple>, CheckError>

  datatype Engine = Engine(read: Reader, schema: Schema, maxDepth: nat)

  /** A permission of an object: what arrow steps mark as visited. */
  datatype Key = Key(objectType: string, objectId: string, permission: string)

  /** The subject whose access is asked for. */
  datatype Principal = Principal(subjectType: string, subjectId: string)
  {
    function AsSubject(): SubjectRef { SubjectRef(subjectType, subjectId, None) }
  }

  datatype Context = Context(who: Principal, depth: nat, visited: set<Key>)

  function Target(t: Tuple, computed: string): Key {
    Key(t.subject.subjectType, t.subject.subjectId, computed)
  }

  /** The depths that are left before the limit. */
  function Fuel(maxDepth: nat, depth: nat): nat {
    if depth > maxDepth then 0 else maxDepth + 1 - depth
  }

  function Check(e: Engine, goal: Key, who: Principal): Outcome {
    match e.schema.GetType(goal.objectType)
    case None => Err(TypeNotFound(goal.objectType))
    case Some(td) =>
      match td.GetPermission(goal.permission)
      case None => Err(PermissionNotFound(goal.objectType, goal.permission))
      case Some(p) => EvaluateRule(e, p.rule, goal.objectType, goal.objectId, Context(who, 0, {}))
  }

  function EvaluateRule(e: Engine, rule: RewriteRule, ot: string, oi: string, ctx: Context): Outcome
    decreases 2 * Fuel(e.maxDepth, ctx.depth), rule
  {
    if ctx.depth > e.maxDepth then Err(MaxDepthExceeded(ctx.depth))
    else
      match rule
      case This(name) => EvaluateThis(e, name, ot, oi, ctx)
      case Union(children) => AnyOf(EvaluateEach(e, children, ot, oi, ctx))
      case Intersection(children) => AllOf(EvaluateEach(e, children, ot, oi, ctx))
      case Exclusion(base, excluded) =>
        var b :- EvaluateRule(e, base, ot, oi, ctx);
        if !b then Ok(false)
        else
          var x :- EvaluateRule(e, excluded, ot, oi, ctx);
          Ok(!x)
      case Arrow(tupleset, computed) => EvaluateArrow(e, tupleset, computed, ot, oi, ctx)
  }

  /** The outcome of every child; `AnyOf` and `AllOf` look at them only up to the one that decides. */
  function EvaluateEach(e: Engine, children: seq<RewriteRule>, ot: string, oi: string, ctx: Context): (rs: seq<Outcome>)
    ensures |rs| == |children|
    ensures forall i | 0 <= i < |children| :: rs[i] == EvaluateRule(e, children[i], ot, oi, ctx)
    decreases 2 * Fuel(e.maxDepth, ctx.depth), children
  {
    seq(|children|, i requires 0 <= i < |children| => EvaluateRule(e, children[i], ot, oi, ctx))
  }

  /** A name on a type: a permission is followed one level deeper, a relation is read. */
  function EvaluateThis(e: Engine, name: string, ot: string, oi: string, ctx: Context): Outcome
    requires ctx.depth <= e.maxDepth
    decreases 2 * Fuel(e.maxDepth, ctx.depth) - 1, 0
  {
    match e.schema.GetType(ot)
    case None => Err(TypeNotFound(ot))
    case Some(td) =>
      match td.GetPermission(name)
      case Some(p) => EvaluateRule(e, p.rule, ot, oi, ctx.(depth := ctx.depth + 1))
      case None =>
        if td.GetRelation(name).Some? then
          var rows :- e.read(RowsOf(ot, oi, name));
          AnyOf(AdmitsEach(e, rows, ctx.who))
        else Err(RelationNotFound(ot, name))
  }

  /** The filter for the rows of userset `u` that name `who` directly. */
  function UsersetMember(u: SubjectRef, who: Principal): TupleFilter
    requires u.subjectRelation.Some?
  {
    TupleFilter(Some(u.subjectType), Some(u.subjectId), u.subjectRelation, Some(who.subjectType), Some(who.subjectId), Some(None))
  }

  /** Whether one row of a relation lets `who` in: directly, or through a userset followed one level. */
  function Admits(e: Engine, t: Tuple, who: Principal): Outcome {
    match t.subject.subjectRelation
    case None => Ok(t.subject.subjectType == who.subjectType && t.subject.subjectId == who.subjectId)
    case Some(_) =>
      var members :- e.read(UsersetMember(t.subject, who));
      Ok(members != [])
  }

  function AdmitsEach(e: Engine, rows: seq<Tuple>, who: Principal): (rs: seq<Outcome>)
    ensures |rs| == |rows|
    ensures forall i | 0 <= i < |rows| :: rs[i] == Admits(e, rows[i], who)
  {
    seq(|rows|, i requires 0 <= i < |rows| => Admits(e, rows[i], who))
  }

  function EvaluateArrow(e: Engine, tupleset: string, computed: string, ot: string, oi: string, ctx: Context): Outcome
    requires ctx.depth <= e.maxDepth
    decreases 2 * Fuel(e.maxDepth, ctx.depth) - 1, 2
  {
    var rows :- e.read(RowsOf(ot, oi, tupleset));
    AnyOf(EvaluateTargets(e, rows, computed, ctx))
  }

  function EvaluateTargets(e: Engine, rows: seq<Tuple>, computed: string, ctx: Context): (rs: seq<Outcome>)
    requires ctx.depth <= e.maxDepth
    ensures |rs| == |rows|
    ensures forall i | 0 <= i < |rows| :: rs[i] == EvaluateTarget(e, rows[i], computed, ctx)
    decreases 2 * Fuel(e.maxDepth, ctx.depth) - 1, 1
  {
    seq(|rows|, i requires 0 <= i < |rows| => EvaluateTarget(e, rows[i], computed, ctx))
  }

  /** One arrow step; a target already on the path is skipped, which reads as `false`. */
  function EvaluateTarget(e: Engine, t: Tuple, computed: string, ctx: Context): Outcome
    requires ctx.depth <= e.maxDepth
    decreases 2 * Fuel(e.maxDepth, ctx.depth) - 1, 0
  {
    var key := Target(t, computed);
    if key in ctx.visited then Ok(false)
    else
      match e.schema.GetType(key.objectType)
      case None => Err(TypeNotFound(key.objectType))
      case Some(td) =>
        match td.GetPermission(computed)
        case None => Err(PermissionNotFound(key.objectType, computed))
        case Some(p) =>
          EvaluateRule(e, p.rule, key.objectType, key.objectId, Context(ctx.who, ctx.depth + 1, ctx.visited + {key}))
  }
}
