/**
 Why exactness asks for a settled goal.  Here permission `a` subtracts what the parent's `a` allows,
 and two documents are each other's parent.  Check allows both, although each rule subtracts the other.
 */
module Unstratified {
  import opened Common
  import opened Tuples
  import opened Schemas
  import opened Checking
  import opened Semantics
  import opened Models
  import opened Exactness
  import opened Store
  import opened Isolation
  import opened StoreReaders
  import opened Parser

  const VIEWER := RelationDef("viewer", [SubjectTypeRef("user", None)])
  const PARENT := RelationDef("parent", [SubjectTypeRef("doc", None)])
  const RULE := Exclusion(This("viewer"), Arrow("parent", "a"))
  const DOC := TypeDefinition("doc", [VIEWER, PARENT], [PermissionDef("a", RULE)])
  const SCHEMA := Schema([DOC])
  const ALICE := Principal("user", "alice")

  function ViewerRow(id: string): Tuple { Tuple(ObjectRef("doc", id), "viewer", ALICE.AsSubject()) }

  function ParentRow(id: string, parent: string): Tuple { Tuple(ObjectRef("doc", id), "parent", SubjectRef("doc", parent, None)) }

  const DB := {ViewerRow("1"), ViewerRow("2"), ParentRow("1", "2"), ParentRow("2", "1")}
  const FACTS := Facts(SCHEMA, DB, ALICE.AsSubject())

  function A(id: string): Key { Key("doc", id, "a") }

  lemma Lookups()
    ensures SCHEMA.GetType("doc") == Some(DOC) && SCHEMA.RuleOf("doc", "a") == Some(RULE)
    ensures SCHEMA.IsRelation("doc", "viewer") && SCHEMA.RuleOf("doc", "viewer").None?
  {
    assert DOC.GetPermission("a") == Some(PermissionDef("a", RULE));
    assert "viewer" != "a";
    assert DOC.GetPermission("viewer") == FindPermission([PermissionDef("a", RULE)][1..], "viewer");
    assert DOC.GetRelation("viewer") == Some(VIEWER);
  }

  ghost predicate Other(x: string, y: string) { (x == "1" && y == "2") || (x == "2" && y == "1") }

  /** A fold over copies of one outcome is that outcome. */
  lemma Constant(rs: seq<Outcome>, r: Outcome)
    requires rs != [] && forall i | 0 <= i < |rs| :: rs[i] == r
    ensures AnyOf(rs) == r
  {
    if r != Ok(false) { AnyOfStopsAt(rs, 0); }
  }

  lemma RowsAre(rows: seq<Tuple>, f: TupleFilter, t: Tuple)
    requires forall u :: u in rows <==> u in DB && f.Matches(u)
    requires t in DB && f.Matches(t) && forall u | u in DB && f.Matches(u) :: u == t
    ensures rows != [] && forall i | 0 <= i < |rows| :: rows[i] == t
  {
    assert t in rows;
    forall i | 0 <= i < |rows| ensures rows[i] == t { assert rows[i] in rows; }
  }

  lemma ViewerIsStored(e: Engine, x: string, y: string, ctx: Context)
    requires e.schema == SCHEMA && Reads(e.read, DB) && (forall f :: e.read(f).Ok?) && ctx.who == ALICE && ctx.depth <= e.maxDepth
    requires Other(x, y)
    ensures EvaluateRule(e, This("viewer"), "doc", x, ctx) == Ok(true)
  {
    Lookups();
    var viewers := e.read(RowsOf("doc", x, "viewer")).value;
    RowsAre(viewers, RowsOf("doc", x, "viewer"), ViewerRow(x));
    Constant(AdmitsEach(e, viewers, ALICE), Ok(true));
  }

  lemma ParentIsFollowed(e: Engine, x: string, y: string, ctx: Context, v: bool)
    requires e.schema == SCHEMA && Reads(e.read, DB) && (forall f :: e.read(f).Ok?) && ctx.depth <= e.maxDepth
    requires Other(x, y) && EvaluateTarget(e, ParentRow(x, y), "a", ctx) == Ok(v)
    ensures EvaluateRule(e, Arrow("parent", "a"), "doc", x, ctx) == Ok(v)
  {
    hide EvaluateTarget;
    var parents := e.read(RowsOf("doc", x, "parent")).value;
    RowsAre(parents, RowsOf("doc", x, "parent"), ParentRow(x, y));
    Constant(EvaluateTargets(e, parents, "a", ctx), Ok(v));
  }

  /** The rule at one document is the negation of what the arrow to the other yields. */
  lemma RuleNegates(e: Engine, x: string, y: string, ctx: Context, v: bool)
    requires e.schema == SCHEMA && Reads(e.read, DB) && (forall f :: e.read(f).Ok?) && ctx.who == ALICE && ctx.depth <= e.maxDepth
    requires Other(x, y) && EvaluateTarget(e, ParentRow(x, y), "a", ctx) == Ok(v)
    ensures EvaluateRule(e, RULE, "doc", x, ctx) == Ok(!v)
  {
    hide Admits, EvaluateTarget;
    Lookups();
    ViewerIsStored(e, x, y, ctx);
    ParentIsFollowed(e, x, y, ctx, v);
  }

  lemma CheckAllows(e: Engine, x: string, y: string)
    requires e.schema == SCHEMA && Reads(e.read, DB) && (forall f :: e.read(f).Ok?) && e.maxDepth >= 2
    requires Other(x, y)
    ensures Check(e, A(x), ALICE) == Ok(true)
  {
    Lookups();
    var root := Context(ALICE, 0, {});
    var atY := Context(ALICE, 1, {A(y)});
    var atX := Context(ALICE, 2, {A(y)} + {A(x)});
    assert EvaluateTarget(e, ParentRow(x, y), "a", atX) == Ok(false);
    RuleNegates(e, x, y, atX, false);
    assert EvaluateTarget(e, ParentRow(y, x), "a", atY) == Ok(true);
    RuleNegates(e, y, x, atY, true);
    assert {} + {A(y)} == {A(y)};
    assert EvaluateTarget(e, ParentRow(x, y), "a", root) == Ok(false);
    RuleNegates(e, x, y, root, false);
  }

  /** The rule at one document is the negation of the other document's permission. */
  lemma RuleIsNegation(v: View, x: string, y: string, n: nat)
    requires v.facts == FACTS && v.avoid == {} && Other(x, y)
    ensures GoalDerives(v, n, A(x)) == !v.taken(A(y)) && Satisfied(v, RULE, "doc", x) == !v.kept(A(y))
  {
    Lookups();
    assert ViewerRow(x) in DB;
    assert Satisfied(v, This("viewer"), "doc", x) && Derives(v, n, This("viewer"), "doc", x);
    assert Follows(FACTS, ParentRow(x, y), "doc", x, "parent", "a") && Target(ParentRow(x, y), "a") == A(y);
    forall t | Follows(FACTS, t, "doc", x, "parent", "a") ensures t == ParentRow(x, y) {}
    assert Satisfied(v, Arrow("parent", "a"), "doc", x) == v.taken(A(y));
    assert Satisfied(v.Flip(), Arrow("parent", "a"), "doc", x) == v.kept(A(y));
    assert v.RuleOf(A(x)) == Some(RULE) && Derives(v, n, RULE, "doc", x) == !v.taken(A(y));
  }

  /** Check allows both documents; in no model of the two rules are both allowed. */
  lemma CheckIsNotAModel(e: Engine, m: Model)
    requires e.schema == SCHEMA && Reads(e.read, DB) && (forall f :: e.read(f).Ok?) && e.maxDepth >= 2
    requires forall x :: x == "1" || x == "2" ==> (m(A(x)) <==> RuleHolds(FACTS, m, A(x)))
    ensures Check(e, A("1"), ALICE) == Ok(true) && Check(e, A("2"), ALICE) == Ok(true)
    ensures m(A("1")) == !m(A("2"))
  {
    CheckAllows(e, "1", "2");
    CheckAllows(e, "2", "1");
    Lookups();
    RuleIsNegation(Under(FACTS, m), "1", "2", 0);
  }

  lemma OnlyTheTwo(v: View, n: nat, k: Key)
    requires v.facts == FACTS && GoalDerives(v, n, k)
    ensures k == A("1") || k == A("2")
  {
    assert SCHEMA.GetType(k.objectType) == Some(DOC) && k.permission == "a";
    Lookups();
    assert Derives(v, n, This("viewer"), "doc", k.objectId);
    var t :| t in DB && t.resource == ObjectRef("doc", k.objectId) && t.relation == "viewer";
  }

  /** Each document alone makes a stable model: they disagree, and what check answers is neither. */
  lemma StableModelsDisagree(x: string, y: string)
    requires Other(x, y)
    ensures Stable(FACTS, k => k == A(x))
  {
    var m: Model := k => k == A(x);
    var v := Under(FACTS, m);
    RuleIsNegation(v, x, y, 0);
    forall k, n: nat | GoalDerives(v, n, k) ensures m(k) {
      OnlyTheTwo(v, n, k);
      RuleIsNegation(v, y, x, n);
    }
    forall k ensures m(k) <==> Derivable(v, k) {
      if m(k) { assert GoalDerives(v, 0, k); }
    }
  }

  /** The estimates never meet here: no number of improvements settles either permission. */
  lemma {:induction false} NothingIsSettled(x: string, y: string, j: nat)
    requires Other(x, y)
    ensures Possible(FACTS, {}, j, A(x)) && !Sure(FACTS, {}, j, A(x))
    decreases j
  {
    if j > 0 {
      NothingIsSettled(y, x, j - 1);
      var sure, possible := SureView(FACTS, {}, j - 1), PossibleView(FACTS, {}, j - 1);
      RuleIsNegation(possible, x, y, 0);
      forall n: nat ensures !GoalDerives(sure, n, A(x)) { RuleIsNegation(sure, x, y, n); }
    }
  }

  /** So these facts have no rank at all: each document would have to lie below the other. */
  lemma NoRankStratifies(rank: Rank)
    ensures !Decided(FACTS, A("1")) && !Decided(FACTS, A("2")) && !Stratified(FACTS, rank)
  {
    forall j: nat ensures Possible(FACTS, {}, j, A("1")) && !Sure(FACTS, {}, j, A("1")) { NothingIsSettled("1", "2", j); }
    forall j: nat ensures Possible(FACTS, {}, j, A("2")) && !Sure(FACTS, {}, j, A("2")) { NothingIsSettled("2", "1", j); }
    if Stratified(FACTS, rank) { StratifiedIsDecided(FACTS, rank); }
  }

  // ----- A service can be in this state -----

  const ROWS := [ViewerRow("1"), ViewerRow("2"), ParentRow("1", "2"), ParentRow("2", "1")]
  const STORE := Run(EMPTY_STORE, [WriteCall(ROWS, [])])

  lemma StoreShowsTheRows()
    ensures WellFormed(STORE) && Represents(STORE, [{}, DB])
  {
    hide WellFormed, Represents, Run;
    var calls := [WriteCall(ROWS, [])];
    ReachableStates(calls);
    assert calls[1..] == [] && calls[0].deletes == [];
    assert Appended({}, calls) == [After({}, ROWS, [])] + Appended(After({}, ROWS, []), []);
    assert After({}, ROWS, []) == DB;
    assert [{}] + Appended({}, calls) == [{}, DB];
  }

  /** The schema is one that the parser accepts, one write stores the tuples, and checks of that store allow both documents. */
  lemma StoredCounterexample(maxDepth: nat)
    requires maxDepth >= 2
    ensures GoodSchema(SCHEMA)
    ensures Check(Engine(ReaderOf(STORE, Some(1)), SCHEMA, maxDepth), A("1"), ALICE) == Ok(true)
    ensures Check(Engine(ReaderOf(STORE, Some(1)), SCHEMA, maxDepth), A("2"), ALICE) == Ok(true)
  {
    hide WellFormed, Check, ReaderOf, Reads;
    StoreShowsTheRows();
    StoreReaderIsExact(STORE, [{}, DB], Some(1));
    var e := Engine(ReaderOf(STORE, Some(1)), SCHEMA, maxDepth);
    CheckAllows(e, "1", "2");
    CheckAllows(e, "2", "1");
  }
}
