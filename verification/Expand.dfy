/** The eager twin of the check engine: it builds the whole subject tree of a permission. */
module Expansion {
  import opened Common
  import opened Tuples
  import opened Schemas
  import opened Checking

  datatype ExpandTree =
    | Leaf(subject: SubjectRef)
    | Relation(relation: string, subjects: seq<ExpandTree>)
    | UnionNode(children: seq<ExpandTree>)
    | IntersectionNode(children: seq<ExpandTree>)
    | ExclusionNode(base: ExpandTree, excluded: ExpandTree)
    | ArrowNode(tupleset: string, computed: string, children: seq<ExpandTree>)

  type TreeOutcome = Result<ExpandTree, CheckError>

  function Expand(e: Engine, goal: Key): TreeOutcome {
    match e.schema.GetType(goal.objectType)
    case None => Err(TypeNotFound(goal.objectType))
    case Some(td) =>
      match td.GetPermission(goal.permission)
      case None => Err(PermissionNotFound(goal.objectType, goal.permission))
      case Some(p) => ExpandRule(e, p.rule, goal.objectType, goal.objectId, 0, {})
  }

  function ExpandRule(e: Engine, rule: RewriteRule, ot: string, oi: string, depth: nat, visited: set<Key>): TreeOutcome
    decreases 2 * Fuel(e.maxDepth, depth), rule
  {
    if depth > e.maxDepth then Err(MaxDepthExceeded(depth))
    else
      match rule
      case This(name) => ExpandThis(e, name, ot, oi, depth, visited)
      case Union(children) =>
        var trees :- Collect(ExpandEach(e, children, ot, oi, depth, visited));
        Ok(UnionNode(trees))
      case Intersection(children) =>
        var trees :- Collect(ExpandEach(e, children, ot, oi, depth, visited));
        Ok(IntersectionNode(trees))
      case Exclusion(base, excluded) =>
        var b :- ExpandRule(e, base, ot, oi, depth, visited);
        var x :- ExpandRule(e, excluded, ot, oi, depth, visited);
        Ok(ExclusionNode(b, x))
      case Arrow(tupleset, computed) => ExpandArrow(e, tupleset, computed, ot, oi, depth, visited)
  }

  function ExpandEach(e: Engine, children: seq<RewriteRule>, ot: string, oi: string, depth: nat, visited: set<Key>): (rs: seq<TreeOutcome>)
    ensures |rs| == |children|
    ensures forall i | 0 <= i < |children| :: rs[i] == ExpandRule(e, children[i], ot, oi, depth, visited)
    decreases 2 * Fuel(e.maxDepth, depth), children
  {
    seq(|children|, i requires 0 <= i < |children| => ExpandRule(e, children[i], ot, oi, depth, visited))
  }

  function ExpandThis(e: Engine, name: string, ot: string, oi: string, depth: nat, visited: set<Key>): TreeOutcome
    requires depth <= e.maxDepth
    decreases 2 * Fuel(e.maxDepth, depth) - 1, 0
  {
    match e.schema.GetType(ot)
    case None => Err(TypeNotFound(ot))
    case Some(td) =>
      match td.GetPermission(name)
      case Some(p) => ExpandRule(e, p.rule, ot, oi, depth + 1, visited)
      case None =>
        if td.GetRelation(name).Some? then
          var rows :- e.read(RowsOf(ot, oi, name));
          var subjects :- Collect(SubjectsEach(e, rows));
          Ok(Relation(name, Leaves(Flatten(subjects))))
        else Err(RelationNotFound(ot, name))
  }

  /** The subjects one row stands for: itself, or the subjects of the userset it names. */
  function Subjects(e: Engine, t: Tuple): Result<seq<SubjectRef>, CheckError> {
    match t.subject.subjectRelation
    case None => Ok([t.subject])
    case Some(rel) =>
      var members :- e.read(RowsOf(t.subject.subjectType, t.subject.subjectId, rel));
      Ok(SubjectsOf(members))
  }

  function SubjectsEach(e: Engine, rows: seq<Tuple>): (rs: seq<Result<seq<SubjectRef>, CheckError>>)
    ensures |rs| == |rows|
    ensures forall i | 0 <= i < |rows| :: rs[i] == Subjects(e, rows[i])
  {
    seq(|rows|, i requires 0 <= i < |rows| => Subjects(e, rows[i]))
  }

  function SubjectsOf(rows: seq<Tuple>): (ss: seq<SubjectRef>)
    ensures |ss| == |rows| && forall i | 0 <= i < |rows| :: ss[i] == rows[i].subject
  {
    seq(|rows|, i requires 0 <= i < |rows| => rows[i].subject)
  }

  function Leaves(ss: seq<SubjectRef>): (ts: seq<ExpandTree>)
    ensures |ts| == |ss| && forall i | 0 <= i < |ss| :: ts[i] == Leaf(ss[i])
  {
    seq(|ss|, i requires 0 <= i < |ss| => Leaf(ss[i]))
  }

  function Flatten<T(!new)>(xss: seq<seq<T>>): (xs: seq<T>)
    ensures forall x :: x in xs <==> exists i | 0 <= i < |xss| :: x in xss[i]
  {
    if xss == [] then []
    else
      var n := |xss| - 1;
      assert xss == xss[..n] + [xss[n]];
      Flatten(xss[..n]) + xss[n]
  }

  lemma NoLeaves()
    ensures Leaves(Flatten([])) == []
  {
  }

  lemma MoreLeaves(lists: seq<seq<SubjectRef>>, list: seq<SubjectRef>)
    ensures Leaves(Flatten(lists + [list])) == Leaves(Flatten(lists)) + Leaves(list)
  {
    assert (lists + [list])[..|lists|] == lists;
  }

  function ExpandArrow(e: Engine, tupleset: string, computed: string, ot: string, oi: string, depth: nat, visited: set<Key>): TreeOutcome
    requires depth <= e.maxDepth
    decreases 2 * Fuel(e.maxDepth, depth) - 1, 2
  {
    var rows :- e.read(RowsOf(ot, oi, tupleset));
    var children :- Collect(ExpandTargets(e, rows, computed, depth, visited));
    Ok(ArrowNode(tupleset, computed, Flatten(children)))
  }

  function ExpandTargets(e: Engine, rows: seq<Tuple>, computed: string, depth: nat, visited: set<Key>): (rs: seq<Result<seq<ExpandTree>, CheckError>>)
    requires depth <= e.maxDepth
    ensures |rs| == |rows|
    ensures forall i | 0 <= i < |rows| :: rs[i] == ExpandTarget(e, rows[i], computed, depth, visited)
    decreases 2 * Fuel(e.maxDepth, depth) - 1, 1
  {
    seq(|rows|, i requires 0 <= i < |rows| => ExpandTarget(e, rows[i], computed, depth, visited))
  }

  /** What one arrow step pushes: nothing for a target already on the path, else one subtree. */
  function ExpandTarget(e: Engine, t: Tuple, computed: string, depth: nat, visited: set<Key>): Result<seq<ExpandTree>, CheckError>
    requires depth <= e.maxDepth
    decreases 2 * Fuel(e.maxDepth, depth) - 1, 0
  {
    var key := Target(t, computed);
    if key in visited then Ok([])
    else
      match e.schema.GetType(key.objectType)
      case None => Err(TypeNotFound(key.objectType))
      case Some(td) =>
        match td.GetPermission(computed)
        case None => Err(PermissionNotFound(key.objectType, computed))
        case Some(p) =>
          var tree :- ExpandRule(e, p.rule, key.objectType, key.objectId, depth + 1, visited + {key});
          Ok([tree])
  }

  /** Set-algebra membership of a subject in an expansion. */
  predicate Member(tree: ExpandTree, s: SubjectRef) {
    match tree
    case Leaf(subject) => subject == s
    case Relation(_, subjects) => exists t | t in subjects :: Member(t, s)
    case UnionNode(children) => exists t | t in children :: Member(t, s)
    case IntersectionNode(children) => forall t | t in children :: Member(t, s)
    case ExclusionNode(base, excluded) => Member(base, s) && !Member(excluded, s)
    case ArrowNode(_, _, children) => exists t | t in children :: Member(t, s)
  }
}

/** Check and expand agree, whatever the rules and whatever cycles the data has. */
module ExpandAgreement {
  import opened Common
  import opened Tuples
  import opened Schemas
  import opened Checking
  import opened Expansion

  /** Reading a userset whole and reading it for one subject tell the same story. */
  ghost predicate Coherent(read: Reader) {
    forall u: SubjectRef, who: Principal {:trigger UsersetMember(u, who)} | u.subjectRelation.Some? ::
      var all := read(RowsOf(u.subjectType, u.subjectId, u.subjectRelation.value));
      var one := read(UsersetMember(u, who));
      all.Ok? ==> one.Ok? && (one.value != [] <==> exists t | t in all.value :: t.subject == who.AsSubject())
  }

  /** The main result: a successful expansion contains exactly the subjects that check allows. */
  lemma CheckAgreesWithExpand(e: Engine, goal: Key, who: Principal)
    requires Coherent(e.read)
    requires Expand(e, goal).Ok?
    ensures Check(e, goal, who) == Ok(Member(Expand(e, goal).value, who.AsSubject()))
  {
    RuleAgrees(e, e.schema.RuleOf(goal.objectType, goal.permission).value, goal.objectType, goal.objectId, Context(who, 0, {}));
  }

  lemma {:induction false} RuleAgrees(e: Engine, rule: RewriteRule, ot: string, oi: string, ctx: Context)
    requires Coherent(e.read)
    requires ExpandRule(e, rule, ot, oi, ctx.depth, ctx.visited).Ok?
    ensures EvaluateRule(e, rule, ot, oi, ctx) == Ok(Member(ExpandRule(e, rule, ot, oi, ctx.depth, ctx.visited).value, ctx.who.AsSubject()))
    decreases 2 * Fuel(e.maxDepth, ctx.depth), rule
  {
    hide EvaluateThis, ExpandThis, EvaluateArrow, ExpandArrow, EvaluateEach, ExpandEach, Collect, AnyOf, AllOf;
    var s := ctx.who.AsSubject();
    match rule
    case This(name) => ThisAgrees(e, name, ot, oi, ctx);
    case Union(children) =>
      ChildrenAgree(e, children, ot, oi, ctx);
    case Intersection(children) =>
      ChildrenAgree(e, children, ot, oi, ctx);
    case Exclusion(base, excluded) =>
      RuleAgrees(e, base, ot, oi, ctx);
      RuleAgrees(e, excluded, ot, oi, ctx);
    case Arrow(tupleset, computed) => ArrowAgrees(e, tupleset, computed, ot, oi, ctx);
  }

  lemma {:induction false} ChildrenAgree(e: Engine, children: seq<RewriteRule>, ot: string, oi: string, ctx: Context)
    requires Coherent(e.read)
    requires Collect(ExpandEach(e, children, ot, oi, ctx.depth, ctx.visited)).Ok?
    ensures var trees := Collect(ExpandEach(e, children, ot, oi, ctx.depth, ctx.visited)).value;
            var rs := EvaluateEach(e, children, ot, oi, ctx);
            && AnyOf(rs) == Ok(exists t | t in trees :: Member(t, ctx.who.AsSubject()))
            && AllOf(rs) == Ok(forall t | t in trees :: Member(t, ctx.who.AsSubject()))
    decreases 2 * Fuel(e.maxDepth, ctx.depth), children
  {
    hide EvaluateRule, ExpandRule, EvaluateEach, ExpandEach, Collect, AnyOf, AllOf;
    var s := ctx.who.AsSubject();
    var ts := ExpandEach(e, children, ot, oi, ctx.depth, ctx.visited);
    var trees := Collect(ts).value;
    var rs := EvaluateEach(e, children, ot, oi, ctx);
    forall i | 0 <= i < |children| ensures rs[i] == Ok(Member(trees[i], s)) {
      assert ts[i] == Ok(trees[i]);
      RuleAgrees(e, children[i], ot, oi, ctx);
    }
    if i :| 0 <= i < |trees| && Member(trees[i], s) {
      assert trees[i] in trees;
      assert rs[i] != Ok(false);
    }
    if i :| 0 <= i < |trees| && !Member(trees[i], s) {
      assert trees[i] in trees;
      assert rs[i] != Ok(true);
    }
  }

  lemma {:induction false} ThisAgrees(e: Engine, name: string, ot: string, oi: string, ctx: Context)
    requires Coherent(e.read) && ctx.depth <= e.maxDepth
    requires ExpandThis(e, name, ot, oi, ctx.depth, ctx.visited).Ok?
    ensures EvaluateThis(e, name, ot, oi, ctx) == Ok(Member(ExpandThis(e, name, ot, oi, ctx.depth, ctx.visited).value, ctx.who.AsSubject()))
    decreases 2 * Fuel(e.maxDepth, ctx.depth) - 1, 0
  {
    var td := e.schema.GetType(ot).value;
    match td.GetPermission(name)
    case Some(p) => RuleAgrees(e, p.rule, ot, oi, ctx.(depth := ctx.depth + 1));
    case None =>
      RelationAgrees(e, e.read(RowsOf(ot, oi, name)).value, ctx.who);
  }

  lemma LeavesHold(ss: seq<SubjectRef>, s: SubjectRef)
    ensures (exists t | t in Leaves(ss) :: Member(t, s)) <==> s in ss
  {
    var leaves := Leaves(ss);
    if s in ss {
      var j :| 0 <= j < |ss| && ss[j] == s;
      assert leaves[j] in leaves && Member(leaves[j], s);
    }
  }

  lemma RelationAgrees(e: Engine, rows: seq<Tuple>, who: Principal)
    requires Coherent(e.read)
    requires Collect(SubjectsEach(e, rows)).Ok?
    ensures var subjects := Flatten(Collect(SubjectsEach(e, rows)).value);
            AnyOf(AdmitsEach(e, rows, who)) == Ok(exists t | t in Leaves(subjects) :: Member(t, who.AsSubject()))
  {
    var s := who.AsSubject();
    var rs := AdmitsEach(e, rows, who);
    var lists := Collect(SubjectsEach(e, rows)).value;
    forall i | 0 <= i < |rows| ensures rs[i] == Ok(s in lists[i]) {
      assert SubjectsEach(e, rows)[i] == Ok(lists[i]);
      RowAgrees(e, rows[i], who);
    }
    LeavesHold(Flatten(lists), s);
    AnyOfBooleans(rs, s, lists);
  }

  lemma AnyOfBooleans(rs: seq<Outcome>, s: SubjectRef, lists: seq<seq<SubjectRef>>)
    requires |rs| == |lists| && forall i | 0 <= i < |rs| :: rs[i] == Ok(s in lists[i])
    ensures AnyOf(rs) == Ok(s in Flatten(lists))
  {
    if s in Flatten(lists) {
      var i :| 0 <= i < |lists| && s in lists[i];
      assert rs[i] != Ok(false);
    }
  }

  lemma RowAgrees(e: Engine, t: Tuple, who: Principal)
    requires Coherent(e.read)
    requires Subjects(e, t).Ok?
    ensures Admits(e, t, who) == Ok(who.AsSubject() in Subjects(e, t).value)
  {
    if t.subject.subjectRelation.Some? {
      var one := e.read(UsersetMember(t.subject, who));
      var all := e.read(RowsOf(t.subject.subjectType, t.subject.subjectId, t.subject.subjectRelation.value));
      var ss := SubjectsOf(all.value);
      assert (exists u | u in all.value :: u.subject == who.AsSubject()) <==> who.AsSubject() in ss by {
        if u :| u in all.value && u.subject == who.AsSubject() {
          var i :| 0 <= i < |all.value| && all.value[i] == u;
          assert ss[i] in ss;
        }
        if who.AsSubject() in ss {
          var i :| 0 <= i < |ss| && ss[i] == who.AsSubject();
          assert all.value[i] in all.value;
        }
      }
    }
  }

  lemma {:induction false} ArrowAgrees(e: Engine, tupleset: string, computed: string, ot: string, oi: string, ctx: Context)
    requires Coherent(e.read) && ctx.depth <= e.maxDepth
    requires ExpandArrow(e, tupleset, computed, ot, oi, ctx.depth, ctx.visited).Ok?
    ensures EvaluateArrow(e, tupleset, computed, ot, oi, ctx)
         == Ok(Member(ExpandArrow(e, tupleset, computed, ot, oi, ctx.depth, ctx.visited).value, ctx.who.AsSubject()))
    decreases 2 * Fuel(e.maxDepth, ctx.depth) - 1, 2
  {
    hide EvaluateTarget, ExpandTarget, EvaluateTargets, ExpandTargets, Flatten, Collect, AnyOf;
    var s := ctx.who.AsSubject();
    var rows := e.read(RowsOf(ot, oi, tupleset)).value;
    var ts := ExpandTargets(e, rows, computed, ctx.depth, ctx.visited);
    var lists := Collect(ts).value;
    var rs := EvaluateTargets(e, rows, computed, ctx);
    forall i | 0 <= i < |rows| ensures rs[i] == Ok(exists t | t in lists[i] :: Member(t, s)) {
      assert ts[i] == Ok(lists[i]);
      TargetAgrees(e, rows[i], computed, ctx);
    }
    AnyOfLists(rs, lists, s);
  }

  lemma AnyOfLists(rs: seq<Outcome>, lists: seq<seq<ExpandTree>>, s: SubjectRef)
    requires |rs| == |lists| && forall i | 0 <= i < |rs| :: rs[i] == Ok(exists t | t in lists[i] :: Member(t, s))
    ensures AnyOf(rs) == Ok(exists t | t in Flatten(lists) :: Member(t, s))
  {
    if i, t :| 0 <= i < |lists| && t in lists[i] && Member(t, s) {
      assert t in Flatten(lists);
      assert rs[i] != Ok(false);
    }
  }

  lemma {:induction false} TargetAgrees(e: Engine, t: Tuple, computed: string, ctx: Context)
    requires Coherent(e.read) && ctx.depth <= e.maxDepth
    requires ExpandTarget(e, t, computed, ctx.depth, ctx.visited).Ok?
    ensures EvaluateTarget(e, t, computed, ctx)
         == Ok(exists c | c in ExpandTarget(e, t, computed, ctx.depth, ctx.visited).value :: Member(c, ctx.who.AsSubject()))
    decreases 2 * Fuel(e.maxDepth, ctx.depth) - 1, 0
  {
    var key := Target(t, computed);
    if key !in ctx.visited {
      var p := e.schema.GetType(key.objectType).value.GetPermission(computed).value;
      RuleAgrees(e, p.rule, key.objectType, key.objectId, Context(ctx.who, ctx.depth + 1, ctx.visited + {key}));
      var tree := ExpandRule(e, p.rule, key.objectType, key.objectId, ctx.depth + 1, ctx.visited + {key}).value;
      assert ExpandTarget(e, t, computed, ctx.depth, ctx.visited).value == [tree];
      assert tree in [tree];
    }
  }
}
