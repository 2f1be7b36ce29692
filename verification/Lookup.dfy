/** Listing subjects and resources: what the two lookups gather, and why that is exact. */
module Lookup {
  import opened Common
  import opened Tuples
  import opened Schemas
  import opened Checking
  import opened Expansion
  import opened ExpandAgreement
  import opened Semantics
  import opened Exactness
  import opened ExpandExactness
  import opened Parser
  import opened Sorting

  // ----- Subjects -----

  /** The subjects of one type in an expansion; the excluded side of an exclusion is left out. */
  function CollectSubjects(tree: ExpandTree, subjectType: string): seq<SubjectRef>
    decreases tree
  {
    match tree
    case Leaf(subject) => if subject.subjectType == subjectType then [subject] else []
    case Relation(_, subjects) => CollectAll(subjects, subjectType)
    case UnionNode(children) => CollectAll(children, subjectType)
    case IntersectionNode(children) => CollectAll(children, subjectType)
    case ExclusionNode(base, _) => CollectSubjects(base, subjectType)
    case ArrowNode(_, _, children) => CollectAll(children, subjectType)
  }

  function CollectAll(trees: seq<ExpandTree>, subjectType: string): seq<SubjectRef>
    decreases trees
  {
    if trees == [] then [] else CollectSubjects(trees[0], subjectType) + CollectAll(trees[1..], subjectType)
  }

  /** The recursive walk that appends to `out`. */
  method CollectSubjectsInto(tree: ExpandTree, subjectType: string, sofar: seq<SubjectRef>) returns (out: seq<SubjectRef>)
    ensures out == sofar + CollectSubjects(tree, subjectType)
    ensures forall s :: s in out <==> s in sofar || (s.subjectType == subjectType && Visible(tree, s))
    decreases tree
  {
    hide Visible;
    out := sofar;
    match tree {
      case Leaf(subject) =>
        if subject.subjectType == subjectType { out := out + [subject]; }
      case Relation(_, subjects) => out := CollectChildrenInto(subjects, subjectType, out);
      case UnionNode(children) => out := CollectChildrenInto(children, subjectType, out);
      case IntersectionNode(children) => out := CollectChildrenInto(children, subjectType, out);
      case ExclusionNode(base, _) => out := CollectSubjectsInto(base, subjectType, out);
      case ArrowNode(_, _, children) => out := CollectChildrenInto(children, subjectType, out);
    }
    assert out == sofar + CollectSubjects(tree, subjectType);
    forall s ensures s in out <==> s in sofar || (s.subjectType == subjectType && Visible(tree, s)) {
      CollectedAreVisible(tree, subjectType, s);
    }
  }

  method CollectChildrenInto(children: seq<ExpandTree>, subjectType: string, sofar: seq<SubjectRef>) returns (out: seq<SubjectRef>)
    ensures out == sofar + CollectAll(children, subjectType)
    decreases children
  {
    out := sofar;
    assert children[0..] == children;
    for i := 0 to |children|
      invariant out + CollectAll(children[i..], subjectType) == sofar + CollectAll(children, subjectType)
    {
      assert children[i..][0] == children[i] && children[i..][1..] == children[i + 1..];
      ghost var before := out;
      out := CollectSubjectsInto(children[i], subjectType, out);
      assert out + CollectAll(children[i + 1..], subjectType)
          == before + (CollectSubjects(children[i], subjectType) + CollectAll(children[i + 1..], subjectType));
    }
    assert out + [] == out;
  }

  /** The order that the result is sorted by: type, then id; the relation plays no part. */
  predicate SubjectAtMost(a: SubjectRef, b: SubjectRef) {
    if a.subjectType == b.subjectType then AtMost(a.subjectId, b.subjectId) else AtMost(a.subjectType, b.subjectType)
  }

  lemma SubjectAtMostIsPreorder()
    ensures TotalPreorder(SubjectAtMost)
  {
    forall a, b ensures SubjectAtMost(a, b) || SubjectAtMost(b, a) {
      AtMostTotal(a.subjectType, b.subjectType);
      AtMostTotal(a.subjectId, b.subjectId);
    }
    forall a: SubjectRef, b: SubjectRef, c: SubjectRef | SubjectAtMost(a, b) && SubjectAtMost(b, c) ensures SubjectAtMost(a, c) {
      if a.subjectType == c.subjectType && a.subjectType != b.subjectType {
        AtMostAntisymmetric(a.subjectType, b.subjectType);
      } else if a.subjectType == b.subjectType == c.subjectType {
        AtMostTransitive(a.subjectId, b.subjectId, c.subjectId);
      } else if a.subjectType != b.subjectType && b.subjectType != c.subjectType {
        AtMostTransitive(a.subjectType, b.subjectType, c.subjectType);
      }
    }
  }

  function SubjectList(tree: ExpandTree, subjectType: string): seq<SubjectRef> {
    Dedup(Sort(CollectSubjects(tree, subjectType), SubjectAtMost))
  }

  lemma SubjectListShape(tree: ExpandTree, subjectType: string)
    ensures Ordered(SubjectList(tree, subjectType), SubjectAtMost)
    ensures forall i | 0 < i < |SubjectList(tree, subjectType)| :: SubjectList(tree, subjectType)[i - 1] != SubjectList(tree, subjectType)[i]
    ensures forall s :: s in SubjectList(tree, subjectType) <==> s in CollectSubjects(tree, subjectType)
  {
    var sorted := Sort(CollectSubjects(tree, subjectType), SubjectAtMost);
    SubjectAtMostIsPreorder();
    SortIsOrdered(CollectSubjects(tree, subjectType), SubjectAtMost);
    SortKeepsMembers(CollectSubjects(tree, subjectType), SubjectAtMost);
    DedupKeepsMembers(sorted);
    DedupIsOrdered(sorted, SubjectAtMost);
  }

  /** No intersection in the tree is empty, so every member is spelled out in some leaf. */
  predicate NoEmptyIntersection(tree: ExpandTree) {
    match tree
    case Leaf(_) => true
    case Relation(_, subjects) => forall t | t in subjects :: NoEmptyIntersection(t)
    case UnionNode(children) => forall t | t in children :: NoEmptyIntersection(t)
    case IntersectionNode(children) => children != [] && forall t | t in children :: NoEmptyIntersection(t)
    case ExclusionNode(base, excluded) => NoEmptyIntersection(base) && NoEmptyIntersection(excluded)
    case ArrowNode(_, _, children) => forall t | t in children :: NoEmptyIntersection(t)
  }

  /** Only unions: neither an intersection nor an exclusion occurs. */
  predicate UnionsOnly(tree: ExpandTree) {
    match tree
    case Leaf(_) => true
    case Relation(_, subjects) => forall t | t in subjects :: UnionsOnly(t)
    case UnionNode(children) => forall t | t in children :: UnionsOnly(t)
    case IntersectionNode(_) => false
    case ExclusionNode(_, _) => false
    case ArrowNode(_, _, children) => forall t | t in children :: UnionsOnly(t)
  }

  lemma {:induction false} CollectAllMembers(trees: seq<ExpandTree>, subjectType: string, s: SubjectRef)
    ensures s in CollectAll(trees, subjectType) <==> exists t | t in trees :: s in CollectSubjects(t, subjectType)
  {
    if trees != [] {
      CollectAllMembers(trees[1..], subjectType, s);
      assert trees == [trees[0]] + trees[1..];
      if s in CollectSubjects(trees[0], subjectType) { assert trees[0] in trees; }
    }
  }

  lemma {:induction false} MembersAreCollected(tree: ExpandTree, s: SubjectRef)
    requires NoEmptyIntersection(tree) && Member(tree, s)
    ensures s in CollectSubjects(tree, s.subjectType)
  {
    match tree
    case Leaf(_) =>
    case Relation(_, subjects) => SomeMemberIsCollected(subjects, s);
    case UnionNode(children) => SomeMemberIsCollected(children, s);
    case IntersectionNode(children) =>
      assert children[0] in children;
      SomeMemberIsCollected(children, s);
    case ExclusionNode(base, _) => MembersAreCollected(base, s);
    case ArrowNode(_, _, children) => SomeMemberIsCollected(children, s);
  }

  lemma {:induction false} SomeMemberIsCollected(trees: seq<ExpandTree>, s: SubjectRef)
    requires forall t | t in trees :: NoEmptyIntersection(t)
    requires exists t | t in trees :: Member(t, s)
    ensures s in CollectAll(trees, s.subjectType)
  {
    var t :| t in trees && Member(t, s);
    MembersAreCollected(t, s);
    CollectAllMembers(trees, s.subjectType, s);
  }

  lemma {:induction false} CollectedAreMembers(tree: ExpandTree, subjectType: string, s: SubjectRef)
    requires UnionsOnly(tree) && s in CollectSubjects(tree, subjectType)
    ensures Member(tree, s) && s.subjectType == subjectType
  {
    match tree
    case Leaf(_) =>
    case Relation(_, subjects) => SomeCollectedIsMember(subjects, subjectType, s);
    case UnionNode(children) => SomeCollectedIsMember(children, subjectType, s);
    case ArrowNode(_, _, children) => SomeCollectedIsMember(children, subjectType, s);
  }

  lemma {:induction false} SomeCollectedIsMember(trees: seq<ExpandTree>, subjectType: string, s: SubjectRef)
    requires forall t | t in trees :: UnionsOnly(t)
    requires s in CollectAll(trees, subjectType)
    ensures s.subjectType == subjectType && exists t | t in trees :: Member(t, s)
  {
    CollectAllMembers(trees, subjectType, s);
    var t :| t in trees && s in CollectSubjects(t, subjectType);
    CollectedAreMembers(t, subjectType, s);
  }

  // ----- What is listed, leaf by leaf -----

  /** The children of a node, both sides of an exclusion included. */
  function ChildrenOf(tree: ExpandTree): seq<ExpandTree> {
    match tree
    case Leaf(_) => []
    case Relation(_, subjects) => subjects
    case UnionNode(children) => children
    case IntersectionNode(children) => children
    case ExclusionNode(base, excluded) => [base, excluded]
    case ArrowNode(_, _, children) => children
  }

  /** The node that a path of child positions leads to. */
  function NodeAt(tree: ExpandTree, path: seq<nat>): Option<ExpandTree>
    decreases |path|
  {
    if path == [] then Some(tree)
    else if path[0] >= |ChildrenOf(tree)| then None
    else NodeAt(ChildrenOf(tree)[path[0]], path[1..])
  }

  /** Some step of the path goes from an exclusion to its excluded side. */
  ghost predicate EntersExcluded(tree: ExpandTree, path: seq<nat>) {
    exists j | 0 <= j < |path| :: path[j] == 1 && NodeAt(tree, path[..j]).Some? && NodeAt(tree, path[..j]).value.ExclusionNode?
  }

  /** The subject is a leaf of the tree that no excluded side cuts off. */
  ghost predicate Visible(tree: ExpandTree, s: SubjectRef) {
    exists path :: NodeAt(tree, path) == Some(Leaf(s)) && !EntersExcluded(tree, path)
  }

  /** Below the first step of a path. */
  lemma FirstStep(tree: ExpandTree, i: nat, rest: seq<nat>)
    requires i < |ChildrenOf(tree)|
    ensures NodeAt(tree, [i] + rest) == NodeAt(ChildrenOf(tree)[i], rest)
    ensures EntersExcluded(tree, [i] + rest) <==> (tree.ExclusionNode? && i == 1) || EntersExcluded(ChildrenOf(tree)[i], rest)
  {
    var path := [i] + rest;
    var child := ChildrenOf(tree)[i];
    assert path[1..] == rest;
    forall j | 0 <= j < |rest| ensures NodeAt(tree, path[..j + 1]) == NodeAt(child, rest[..j]) {
      assert path[..j + 1][1..] == rest[..j];
    }
    assert NodeAt(tree, path[..0]) == Some(tree);
    if j :| 0 <= j < |path| && path[j] == 1 && NodeAt(tree, path[..j]).Some? && NodeAt(tree, path[..j]).value.ExclusionNode? {
      if j > 0 { assert NodeAt(child, rest[..j - 1]) == NodeAt(tree, path[..j - 1 + 1]) && rest[j - 1] == 1; }
    }
    if j :| 0 <= j < |rest| && rest[j] == 1 && NodeAt(child, rest[..j]).Some? && NodeAt(child, rest[..j]).value.ExclusionNode? {
      assert path[j + 1] == 1 && NodeAt(tree, path[..j + 1]) == NodeAt(child, rest[..j]);
    }
  }

  /** What is visible in a tree is visible in a child on a side that is not excluded. */
  lemma VisibleThroughChildren(tree: ExpandTree, s: SubjectRef)
    requires !tree.Leaf?
    ensures Visible(tree, s) <==>
              exists i | 0 <= i < |ChildrenOf(tree)| :: !(tree.ExclusionNode? && i == 1) && Visible(ChildrenOf(tree)[i], s)
  {
    hide EntersExcluded;
    if path :| NodeAt(tree, path) == Some(Leaf(s)) && !EntersExcluded(tree, path) {
      assert path != [];
      FirstStep(tree, path[0], path[1..]);
      assert [path[0]] + path[1..] == path;
      assert Visible(ChildrenOf(tree)[path[0]], s);
    }
    if i :| 0 <= i < |ChildrenOf(tree)| && !(tree.ExclusionNode? && i == 1) && Visible(ChildrenOf(tree)[i], s) {
      var rest :| NodeAt(ChildrenOf(tree)[i], rest) == Some(Leaf(s)) && !EntersExcluded(ChildrenOf(tree)[i], rest);
      FirstStep(tree, i, rest);
    }
  }

  lemma LeafIsVisible(subject: SubjectRef, s: SubjectRef)
    ensures Visible(Leaf(subject), s) <==> s == subject
  {
    var tree := Leaf(subject);
    if s == subject { assert NodeAt(tree, []) == Some(Leaf(s)) && !EntersExcluded(tree, []); }
    if path :| NodeAt(tree, path) == Some(Leaf(s)) && !EntersExcluded(tree, path) { assert path == []; }
  }

  lemma {:induction false} CollectedAreVisible(tree: ExpandTree, subjectType: string, s: SubjectRef)
    ensures s in CollectSubjects(tree, subjectType) <==> s.subjectType == subjectType && Visible(tree, s)
    decreases tree
  {
    hide Visible;
    match tree
    case Leaf(subject) => LeafIsVisible(subject, s);
    case Relation(_, subjects) => SomeAreVisible(tree, subjects, subjectType, s);
    case UnionNode(children) => SomeAreVisible(tree, children, subjectType, s);
    case IntersectionNode(children) => SomeAreVisible(tree, children, subjectType, s);
    case ExclusionNode(base, excluded) =>
      CollectedAreVisible(base, subjectType, s);
      VisibleThroughChildren(tree, s);
      assert ChildrenOf(tree)[0] == base && |ChildrenOf(tree)| == 2;
    case ArrowNode(_, _, children) => SomeAreVisible(tree, children, subjectType, s);
  }

  lemma {:induction false} SomeAreVisible(tree: ExpandTree, children: seq<ExpandTree>, subjectType: string, s: SubjectRef)
    requires !tree.Leaf? && !tree.ExclusionNode? && children == ChildrenOf(tree)
    ensures s in CollectAll(children, subjectType) <==> s.subjectType == subjectType && Visible(tree, s)
    decreases children
  {
    hide Visible;
    VisibleThroughChildren(tree, s);
    CollectAllMembers(children, subjectType, s);
    forall t | t in children ensures s in CollectSubjects(t, subjectType) <==> s.subjectType == subjectType && Visible(t, s) {
      CollectedAreVisible(t, subjectType, s);
    }
    if i :| 0 <= i < |children| && Visible(children[i], s) { assert children[i] in children; }
  }

  /** The main result: listed are exactly the leaves of the asked type on paths that enter no excluded side. */
  lemma SubjectListIsExact(tree: ExpandTree, subjectType: string, s: SubjectRef)
    ensures s in SubjectList(tree, subjectType) <==> s.subjectType == subjectType && Visible(tree, s)
  {
    SubjectListShape(tree, subjectType);
    CollectedAreVisible(tree, subjectType, s);
  }

  // ----- Expansions of parsed schemas have no empty intersection -----

  lemma GoodRule(schema: Schema, ot: string, p: string)
    requires GoodSchema(schema) && schema.RuleOf(ot, p).Some?
    ensures FlatRule(schema.RuleOf(ot, p).value)
  {
    var td := schema.GetType(ot).value;
    assert td.GetPermission(p).value in td.permissions;
  }

  lemma {:induction false} ExpansionShape(e: Engine, rule: RewriteRule, ot: string, oi: string, depth: nat, visited: set<Key>)
    requires GoodSchema(e.schema) && FlatRule(rule)
    ensures var r := ExpandRule(e, rule, ot, oi, depth, visited); r.Ok? ==> NoEmptyIntersection(r.value)
    decreases 2 * Fuel(e.maxDepth, depth), rule
  {
    if depth <= e.maxDepth {
      match rule
      case This(name) =>
        if e.schema.RuleOf(ot, name).Some? {
          GoodRule(e.schema, ot, name);
          ExpansionShape(e, e.schema.RuleOf(ot, name).value, ot, oi, depth + 1, visited);
        }
      case Union(children) => ChildrenShape(e, children, ot, oi, depth, visited);
      case Intersection(children) => ChildrenShape(e, children, ot, oi, depth, visited);
      case Exclusion(base, excluded) =>
        ExpansionShape(e, base, ot, oi, depth, visited);
        ExpansionShape(e, excluded, ot, oi, depth, visited);
      case Arrow(tupleset, computed) =>
        var rows := e.read(RowsOf(ot, oi, tupleset));
        if rows.Ok? { BranchesShape(e, rows.value, computed, depth, visited); }
    }
  }

  lemma {:induction false} ChildrenShape(e: Engine, children: seq<RewriteRule>, ot: string, oi: string, depth: nat, visited: set<Key>)
    requires GoodSchema(e.schema) && forall c | c in children :: Atom(c)
    ensures var r := Collect(ExpandEach(e, children, ot, oi, depth, visited));
            r.Ok? ==> |r.value| == |children| && forall t | t in r.value :: NoEmptyIntersection(t)
    decreases 2 * Fuel(e.maxDepth, depth), children
  {
    var rs := ExpandEach(e, children, ot, oi, depth, visited);
    if Collect(rs).Ok? {
      forall t | t in Collect(rs).value ensures NoEmptyIntersection(t) {
        var i :| 0 <= i < |rs| && Collect(rs).value[i] == t;
        assert rs[i] == Ok(t) && Atom(children[i]);
        ExpansionShape(e, children[i], ot, oi, depth, visited);
      }
    }
  }

  lemma {:induction false} BranchesShape(e: Engine, rows: seq<Tuple>, computed: string, depth: nat, visited: set<Key>)
    requires GoodSchema(e.schema) && depth <= e.maxDepth
    ensures var r := Collect(ExpandTargets(e, rows, computed, depth, visited));
            r.Ok? ==> forall t | t in Flatten(r.value) :: NoEmptyIntersection(t)
    decreases 2 * Fuel(e.maxDepth, depth) - 1
  {
    var rs := ExpandTargets(e, rows, computed, depth, visited);
    if Collect(rs).Ok? {
      var lists := Collect(rs).value;
      forall t | t in Flatten(lists) ensures NoEmptyIntersection(t) {
        var i :| 0 <= i < |lists| && t in lists[i];
        assert rs[i] == Ok(lists[i]);
        var key := Target(rows[i], computed);
        var rule := e.schema.RuleOf(key.objectType, computed);
        if key !in visited && rule.Some? {
          GoodRule(e.schema, key.objectType, computed);
          ExpansionShape(e, rule.value, key.objectType, key.objectId, depth + 1, visited + {key});
        }
      }
    }
  }

  /** The main result about subjects: nobody who is allowed is missed, and unions give exactly the allowed. */
  lemma SubjectListIsComplete(e: Engine, goal: Key, who: Principal)
    requires GoodSchema(e.schema) && Coherent(e.read) && Expand(e, goal).Ok?
    ensures Check(e, goal, who) == Ok(true) ==> who.AsSubject() in SubjectList(Expand(e, goal).value, who.subjectType)
    ensures UnionsOnly(Expand(e, goal).value) ==>
              (who.AsSubject() in SubjectList(Expand(e, goal).value, who.subjectType) <==> Check(e, goal, who) == Ok(true))
  {
    var tree := Expand(e, goal).value;
    CheckAgreesWithExpand(e, goal, who);
    SubjectListShape(tree, who.subjectType);
    GoodRule(e.schema, goal.objectType, goal.permission);
    ExpansionShape(e, e.schema.RuleOf(goal.objectType, goal.permission).value, goal.objectType, goal.objectId, 0, {});
    if Member(tree, who.AsSubject()) { MembersAreCollected(tree, who.AsSubject()); }
    if UnionsOnly(tree) && who.AsSubject() in CollectSubjects(tree, who.subjectType) {
      CollectedAreMembers(tree, who.subjectType, who.AsSubject());
    }
  }

  lemma RelationNode(e: Engine, name: string, ot: string, oi: string)
    requires e.schema.IsRelation(ot, name) && ExpandRule(e, This(name), ot, oi, 0, {}).Ok?
    ensures var rows := e.read(RowsOf(ot, oi, name));
            && rows.Ok? && Collect(SubjectsEach(e, rows.value)).Ok?
            && ExpandRule(e, This(name), ot, oi, 0, {}).value == Relation(name, Leaves(Flatten(Collect(SubjectsEach(e, rows.value)).value)))
  {
    hide Collect, Flatten;
  }

  lemma RelationNodeIsUnion(name: string, ss: seq<SubjectRef>)
    ensures UnionsOnly(Relation(name, Leaves(ss))) && NoEmptyIntersection(Relation(name, Leaves(ss)))
  {
  }

  /** Of one relation minus another, the list is the first relation: the second neither adds nor removes anyone. */
  lemma ExcludedRelationPlaysNoPart(e: Engine, db: set<Tuple>, goal: Key, base: string, excluded: string, s: SubjectRef)
    requires Reads(e.read, db) && Expand(e, goal).Ok?
    requires e.schema.RuleOf(goal.objectType, goal.permission) == Some(Exclusion(This(base), This(excluded)))
    requires e.schema.IsRelation(goal.objectType, base)
    ensures s in SubjectList(Expand(e, goal).value, s.subjectType) <==> StoredIn(db, s, base, goal.objectType, goal.objectId)
  {
    hide Collect, Flatten, SubjectList, StoredIn, ExpandThis;
    var tree := Expand(e, goal).value;
    assert tree == ExpandRule(e, Exclusion(This(base), This(excluded)), goal.objectType, goal.objectId, 0, {}).value;
    var node := ExpandRule(e, This(base), goal.objectType, goal.objectId, 0, {}).value;
    assert tree.ExclusionNode? && tree.base == node;
    RelationNode(e, base, goal.objectType, goal.objectId);
    RelationNodeIsUnion(base, Flatten(Collect(SubjectsEach(e, e.read(RowsOf(goal.objectType, goal.objectId, base)).value)).value));
    RelationNodeIsExact(e, db, s, base, goal.objectType, goal.objectId);
    SubjectListShape(tree, s.subjectType);
    if Member(node, s) { MembersAreCollected(node, s); }
    if s in CollectSubjects(node, s.subjectType) { CollectedAreMembers(node, s.subjectType, s); }
  }

  // ----- Resources -----

  /** The allowed ids among the first ones, until `limit` have been found. */
  function Gather(e: Engine, objectType: string, permission: string, who: Principal, ids: seq<string>, limit: nat): Result<seq<string>, CheckError> {
    if ids == [] then Ok([])
    else
      var n := |ids| - 1;
      var found :- Gather(e, objectType, permission, who, ids[..n], limit);
      if |found| >= limit then Ok(found)
      else
        var allowed :- Check(e, Key(objectType, ids[n], permission), who);
        Ok(if allowed then found + [ids[n]] else found)
  }

  /** The ids for which check says yes, in their order. */
  function Allowed(e: Engine, objectType: string, permission: string, who: Principal, ids: seq<string>): (r: seq<string>)
    ensures forall id :: id in r <==> id in ids && Check(e, Key(objectType, id, permission), who) == Ok(true)
  {
    if ids == [] then []
    else
      var n := |ids| - 1;
      assert ids == ids[..n] + [ids[n]];
      Allowed(e, objectType, permission, who, ids[..n])
      + (if Check(e, Key(objectType, ids[n], permission), who) == Ok(true) then [ids[n]] else [])
  }

  /** `found` are all the allowed ids of a prefix of `ids`, each of which has been checked; a prefix shorter than all means the limit was met. */
  ghost predicate CutAt(e: Engine, objectType: string, permission: string, who: Principal, ids: seq<string>, limit: nat, found: seq<string>, k: nat) {
    && k <= |ids|
    && found == Allowed(e, objectType, permission, who, ids[..k])
    && (forall id | id in ids[..k] :: Check(e, Key(objectType, id, permission), who).Ok?)
    && |found| <= limit && (k < |ids| ==> |found| == limit)
  }

  lemma CutExtends(e: Engine, objectType: string, permission: string, who: Principal, ids: seq<string>, limit: nat, found: seq<string>)
    requires ids != [] && |found| < limit
    requires CutAt(e, objectType, permission, who, ids[..|ids| - 1], limit, found, |ids| - 1)
    requires Check(e, Key(objectType, ids[|ids| - 1], permission), who).Ok?
    ensures var allowed := Check(e, Key(objectType, ids[|ids| - 1], permission), who).value;
            CutAt(e, objectType, permission, who, ids, limit, if allowed then found + [ids[|ids| - 1]] else found, |ids|)
  {
    var n := |ids| - 1;
    assert ids[..|ids|] == ids && ids[..n][..n] == ids[..n];
    forall id | id in ids ensures Check(e, Key(objectType, id, permission), who).Ok? {
      if id != ids[n] { assert id in ids[..n]; }
    }
  }

  lemma {:induction false} GatherCuts(e: Engine, objectType: string, permission: string, who: Principal, ids: seq<string>, limit: nat) returns (k: nat)
    requires Gather(e, objectType, permission, who, ids, limit).Ok?
    ensures CutAt(e, objectType, permission, who, ids, limit, Gather(e, objectType, permission, who, ids, limit).value, k)
  {
    if ids == [] {
      k := 0;
    } else {
      var n := |ids| - 1;
      k := GatherCuts(e, objectType, permission, who, ids[..n], limit);
      var found := Gather(e, objectType, permission, who, ids[..n], limit).value;
      assert ids[..n][..k] == ids[..k];
      if |found| < limit {
        CutExtends(e, objectType, permission, who, ids, limit, found);
        k := |ids|;
      }
    }
  }

  lemma {:induction false} GatherErrorSticks(e: Engine, objectType: string, permission: string, who: Principal, ids: seq<string>, limit: nat, i: nat)
    requires i <= |ids|
    ensures Gather(e, objectType, permission, who, ids[..i], limit).Err? || |Gather(e, objectType, permission, who, ids[..i], limit).value| >= limit ==>
              Gather(e, objectType, permission, who, ids, limit) == Gather(e, objectType, permission, who, ids[..i], limit)
  {
    if i < |ids| {
      var n := |ids| - 1;
      assert ids[..n][..i] == ids[..i];
      GatherErrorSticks(e, objectType, permission, who, ids[..n], limit, i);
    } else {
      assert ids[..i] == ids;
    }
  }

  // ----- An object without tuples is never allowed -----

  ghost predicate NoRows(e: Engine, ot: string, oi: string) {
    forall relation :: var r := e.read(RowsOf(ot, oi, relation)); r.Ok? ==> r.value == []
  }

  lemma {:induction false} NothingWithoutRows(e: Engine, rule: RewriteRule, ot: string, oi: string, ctx: Context)
    requires GoodSchema(e.schema) && FlatRule(rule) && NoRows(e, ot, oi)
    ensures EvaluateRule(e, rule, ot, oi, ctx) != Ok(true)
    decreases 2 * Fuel(e.maxDepth, ctx.depth), rule
  {
    if ctx.depth <= e.maxDepth {
      match rule
      case This(name) =>
        if e.schema.RuleOf(ot, name).Some? {
          GoodRule(e.schema, ot, name);
          NothingWithoutRows(e, e.schema.RuleOf(ot, name).value, ot, oi, ctx.(depth := ctx.depth + 1));
        }
      case Union(children) =>
        var rs := EvaluateEach(e, children, ot, oi, ctx);
        forall i | 0 <= i < |rs| ensures rs[i] != Ok(true) {
          assert Atom(children[i]);
          NothingWithoutRows(e, children[i], ot, oi, ctx);
        }
      case Intersection(children) =>
        var rs := EvaluateEach(e, children, ot, oi, ctx);
        assert Atom(children[0]);
        NothingWithoutRows(e, children[0], ot, oi, ctx);
        assert rs[0] != Ok(true);
      case Exclusion(base, _) => NothingWithoutRows(e, base, ot, oi, ctx);
      case Arrow(_, _) =>
    }
  }

  /** The main result about resources: a list shorter than the limit is the whole answer. */
  lemma GatherIsExact(e: Engine, objectType: string, permission: string, who: Principal, ids: seq<string>, limit: nat)
    requires GoodSchema(e.schema)
    requires forall id :: id !in ids ==> NoRows(e, objectType, id)
    requires Gather(e, objectType, permission, who, ids, limit).Ok?
    ensures var found := Gather(e, objectType, permission, who, ids, limit).value;
            |found| < limit ==> forall id :: id in found <==> Check(e, Key(objectType, id, permission), who) == Ok(true)
  {
    var found := Gather(e, objectType, permission, who, ids, limit).value;
    var k := GatherCuts(e, objectType, permission, who, ids, limit);
    if |found| < limit {
      assert ids[..k] == ids;
      forall id | Check(e, Key(objectType, id, permission), who) == Ok(true) ensures id in ids {
        if id !in ids {
          GoodRule(e.schema, objectType, permission);
          NothingWithoutRows(e, e.schema.RuleOf(objectType, permission).value, objectType, id, Context(who, 0, {}));
        }
      }
    }
  }
}
