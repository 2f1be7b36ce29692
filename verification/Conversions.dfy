/** The protobuf form of an expansion: fewer node kinds, the same meaning. */
module Conversions {
  import opened Common
  import opened Tuples
  import opened Checking
  import opened Expansion
  import opened ExpandAgreement
  import opened Semantics
  import opened Exactness
  import opened ExpandExactness
  import opened LeafCounts

  const OPERATION_UNION: int := 1
  const OPERATION_INTERSECTION: int := 2
  const OPERATION_EXCLUSION: int := 3

  datatype SubjectReference = SubjectReference(subjectType: string, subjectId: string, subjectRelation: Option<string>)

  datatype PermissionExpansionTree = PermissionExpansionTree(node: Option<Node>)

  datatype Node =
    | LeafNode(subject: Option<SubjectReference>)
    | IntermediateNode(operation: int, children: seq<PermissionExpansionTree>)

  function SubjectToProto(s: SubjectRef): SubjectReference {
    SubjectReference(s.subjectType, s.subjectId, s.subjectRelation)
  }

  function SubjectFromProto(s: SubjectReference): SubjectRef {
    match s.subjectRelation
    case Some(rel) => SubjectRef(s.subjectType, s.subjectId, Some(rel))
    case None => SubjectRef(s.subjectType, s.subjectId, None)
  }

  function TreeToProto(tree: ExpandTree): PermissionExpansionTree {
    match tree
    case Leaf(subject) => PermissionExpansionTree(Some(LeafNode(Some(SubjectToProto(subject)))))
    case Relation(_, subjects) => PermissionExpansionTree(Some(IntermediateNode(OPERATION_UNION, TreesToProto(subjects))))
    case UnionNode(children) => PermissionExpansionTree(Some(IntermediateNode(OPERATION_UNION, TreesToProto(children))))
    case IntersectionNode(children) => PermissionExpansionTree(Some(IntermediateNode(OPERATION_INTERSECTION, TreesToProto(children))))
    case ExclusionNode(base, excluded) =>
      PermissionExpansionTree(Some(IntermediateNode(OPERATION_EXCLUSION, [TreeToProto(base), TreeToProto(excluded)])))
    case ArrowNode(_, _, children) => PermissionExpansionTree(Some(IntermediateNode(OPERATION_UNION, TreesToProto(children))))
  }

  function TreesToProto(trees: seq<ExpandTree>): (r: seq<PermissionExpansionTree>)
    ensures |r| == |trees| && forall i | 0 <= i < |trees| :: r[i] == TreeToProto(trees[i])
  {
    seq(|trees|, i requires 0 <= i < |trees| => TreeToProto(trees[i]))
  }

  // ----- How a client reads the message -----

  /** The message names the subject: its fields carry type, id and relation. */
  predicate Names(m: SubjectReference, s: SubjectRef) {
    m.subjectType == s.subjectType && m.subjectId == s.subjectId && m.subjectRelation == s.subjectRelation
  }

  /** By the numbers of the protocol: 1 is union, 2 intersection, and 3 the first child minus all the others. */
  predicate ProtoMember(p: PermissionExpansionTree, s: SubjectRef) {
    match p.node
    case None => false
    case Some(LeafNode(subject)) => subject.Some? && Names(subject.value, s)
    case Some(IntermediateNode(operation, children)) =>
      if operation == 1 then SomeMember(children, s)
      else if operation == 2 then EveryMember(children, s)
      else if operation == 3 then
        |children| > 0 && ProtoMember(children[0], s) && forall i | 0 < i < |children| :: !ProtoMember(children[i], s)
      else false
  }

  predicate SomeMember(children: seq<PermissionExpansionTree>, s: SubjectRef) {
    exists i | 0 <= i < |children| :: ProtoMember(children[i], s)
  }

  predicate EveryMember(children: seq<PermissionExpansionTree>, s: SubjectRef) {
    forall i | 0 <= i < |children| :: ProtoMember(children[i], s)
  }

  lemma SubjectRoundTrip(s: SubjectRef)
    ensures SubjectFromProto(SubjectToProto(s)) == s
    ensures forall t :: Names(SubjectToProto(s), t) <==> t == s
  {
  }

  /** The main result: translation keeps exactly the members, for usersets as for direct subjects. */
  lemma {:induction false} TranslationKeepsMembers(tree: ExpandTree, s: SubjectRef)
    ensures ProtoMember(TreeToProto(tree), s) <==> Member(tree, s)
  {
    match tree
    case Leaf(subject) => SubjectRoundTrip(subject);
    case Relation(_, subjects) => ChildrenKeepMembers(subjects, s);
    case UnionNode(children) => ChildrenKeepMembers(children, s);
    case IntersectionNode(children) => ChildrenKeepMembers(children, s);
    case ExclusionNode(base, excluded) =>
      TranslationKeepsMembers(base, s);
      TranslationKeepsMembers(excluded, s);
      var children := TreeToProto(tree).node.value.children;
      assert children[0] == TreeToProto(base) && children[1] == TreeToProto(excluded);
    case ArrowNode(_, _, children) => ChildrenKeepMembers(children, s);
  }

  lemma {:induction false} ChildrenKeepMembers(trees: seq<ExpandTree>, s: SubjectRef)
    ensures var ps := TreesToProto(trees);
            && (SomeMember(ps, s) <==> exists t | t in trees :: Member(t, s))
            && (EveryMember(ps, s) <==> forall t | t in trees :: Member(t, s))
  {
    var ps := TreesToProto(trees);
    forall i | 0 <= i < |trees| ensures ProtoMember(ps[i], s) <==> Member(trees[i], s) {
      TranslationKeepsMembers(trees[i], s);
    }
    SomeChild(trees, ps, s);
    EveryChild(trees, ps, s);
  }

  lemma SomeChild(trees: seq<ExpandTree>, ps: seq<PermissionExpansionTree>, s: SubjectRef)
    requires |ps| == |trees| && forall i | 0 <= i < |trees| :: ProtoMember(ps[i], s) <==> Member(trees[i], s)
    ensures SomeMember(ps, s) <==> (exists t | t in trees :: Member(t, s))
  {
    if i :| 0 <= i < |ps| && ProtoMember(ps[i], s) { assert trees[i] in trees; }
  }

  lemma EveryChild(trees: seq<ExpandTree>, ps: seq<PermissionExpansionTree>, s: SubjectRef)
    requires |ps| == |trees| && forall i | 0 <= i < |trees| :: ProtoMember(ps[i], s) <==> Member(trees[i], s)
    ensures EveryMember(ps, s) <==> (forall t | t in trees :: Member(t, s))
  {
    if i :| 0 <= i < |ps| && !ProtoMember(ps[i], s) { assert trees[i] in trees; }
  }

  /** A client that reads the message answers every direct subject as check does. */
  lemma CheckAgreesWithMessage(e: Engine, goal: Key, who: Principal)
    requires Coherent(e.read) && Expand(e, goal).Ok?
    ensures Check(e, goal, who) == Ok(ProtoMember(TreeToProto(Expand(e, goal).value), who.AsSubject()))
  {
    CheckAgreesWithExpand(e, goal, who);
    TranslationKeepsMembers(Expand(e, goal).value, who.AsSubject());
  }

  /** And every settled subject, usersets included, as the meaning of the permission says. */
  lemma MessageIsExact(e: Engine, f: Facts, goal: Key)
    requires e.schema == f.schema && Reads(e.read, f.db) && Decided(f, goal) && Expand(e, goal).Ok?
    ensures ProtoMember(TreeToProto(Expand(e, goal).value), f.who) <==> Holds(f, goal)
  {
    ExpandIsExact(e, f, goal);
    TranslationKeepsMembers(Expand(e, goal).value, f.who);
  }

  // ----- Multiplicity -----

  /** How many leaves of the message name the subject. */
  function ProtoCopies(p: PermissionExpansionTree, s: SubjectRef): nat {
    match p.node
    case None => 0
    case Some(LeafNode(subject)) => if subject.Some? && Names(subject.value, s) then 1 else 0
    case Some(IntermediateNode(_, children)) => ProtoCopiesIn(children, s)
  }

  function ProtoCopiesIn(children: seq<PermissionExpansionTree>, s: SubjectRef): nat {
    if children == [] then 0 else ProtoCopiesIn(children[..|children| - 1], s) + ProtoCopies(children[|children| - 1], s)
  }

  /** No leaf is lost or repeated by the translation. */
  lemma {:induction false} TranslationKeepsCopies(tree: ExpandTree, s: SubjectRef)
    ensures ProtoCopies(TreeToProto(tree), s) == Copies(tree, s)
    decreases tree
  {
    match tree
    case Leaf(subject) => SubjectRoundTrip(subject);
    case Relation(_, subjects) => ChildrenKeepCopies(subjects, s);
    case UnionNode(children) => ChildrenKeepCopies(children, s);
    case IntersectionNode(children) => ChildrenKeepCopies(children, s);
    case ExclusionNode(base, excluded) =>
      TranslationKeepsCopies(base, s);
      TranslationKeepsCopies(excluded, s);
      var ps := [TreeToProto(base), TreeToProto(excluded)];
      assert ps[..1] == [TreeToProto(base)] && ps[..1][..0] == [];
      assert ProtoCopiesIn(ps, s) == ProtoCopiesIn(ps[..1], s) + ProtoCopies(ps[1], s);
      assert ProtoCopiesIn(ps[..1], s) == ProtoCopiesIn(ps[..1][..0], s) + ProtoCopies(ps[0], s);
    case ArrowNode(_, _, children) => ChildrenKeepCopies(children, s);
  }

  lemma {:induction false} ChildrenKeepCopies(trees: seq<ExpandTree>, s: SubjectRef)
    ensures ProtoCopiesIn(TreesToProto(trees), s) == CopiesIn(trees, s)
    decreases trees
  {
    if trees != [] {
      var k := |trees| - 1;
      assert TreesToProto(trees)[..k] == TreesToProto(trees[..k]);
      ChildrenKeepCopies(trees[..k], s);
      TranslationKeepsCopies(trees[k], s);
    }
  }
}
