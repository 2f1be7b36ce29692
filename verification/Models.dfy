/**
 The settled meaning and the models of the rules.  A stable model holds exactly what can be derived with
 it.  Every stable model lies between the estimates; where they settle everything, the meaning is
 a stable model and the only one.  A rank on the permissions of the stored objects that drops
 through every excluded side settles everything.
 */
module Models {
  import opened Schemas
  import opened Checking
  import opened Semantics
  import opened Estimates

  ghost function Under(f: Facts, m: Model): View { View(f, m, m, {}) }

  ghost predicate Stable(f: Facts, m: Model) {
    forall k :: m(k) <==> Derivable(Under(f, m), k)
  }

  ghost predicate AllDecided(f: Facts) {
    forall k :: Decided(f, k)
  }

  ghost function Meaning(f: Facts): Model {
    k => Holds(f, k)
  }

  // ----- Stable models and the estimates -----

  /** The model lies between the estimates after `j` improvements. */
  ghost predicate Between(f: Facts, m: Model, j: nat) {
    forall k :: (Sure(f, {}, j, k) ==> m(k)) && (m(k) ==> Possible(f, {}, j, k))
  }

  lemma BetweenEases(f: Facts, m: Model, j: nat)
    requires Between(f, m, j)
    ensures Eases(SureView(f, {}, j), Under(f, m)) && Eases(Under(f, m), PossibleView(f, {}, j))
  {
    var s, p := SureView(f, {}, j), PossibleView(f, {}, j);
    forall k ensures s.taken(k) == p.kept(k) == Possible(f, {}, j, k) && s.kept(k) == p.taken(k) == Sure(f, {}, j, k) {}
  }

  lemma {:induction false} StableModelsLieBetween(f: Facts, m: Model, j: nat)
    requires Stable(f, m)
    ensures Between(f, m, j)
  {
    if j > 0 {
      StableModelsLieBetween(f, m, j - 1);
      BetweenEases(f, m, j - 1);
      forall k | Sure(f, {}, j, k) ensures m(k) { DerivableEases(SureView(f, {}, j - 1), Under(f, m), k); }
      forall k | m(k) ensures Possible(f, {}, j, k) { DerivableEases(Under(f, m), PossibleView(f, {}, j - 1), k); }
    }
  }

  /** What is settled is settled alike in every stable model. */
  lemma SettledInEveryModel(f: Facts, m: Model, k: Key)
    requires Stable(f, m) && Decided(f, k)
    ensures m(k) <==> Holds(f, k)
  {
    var j: nat :| Sure(f, {}, j, k) || !Possible(f, {}, j, k);
    StableModelsLieBetween(f, m, j);
    if i: nat :| Sure(f, {}, i, k) { StableModelsLieBetween(f, m, i); }
  }

  lemma MeaningLiesBetween(f: Facts, j: nat)
    requires AllDecided(f)
    ensures Between(f, Meaning(f), j)
  {
    forall k | Holds(f, k) ensures Possible(f, {}, j, k) {
      var i: nat :| Sure(f, {}, i, k);
      EstimatesAreConsistent(f, {}, i, j, k);
    }
  }

  /** Where everything is settled, the meaning is a stable model. */
  lemma MeaningIsStable(f: Facts)
    requires AllDecided(f)
    ensures Stable(f, Meaning(f))
  {
    var m := Meaning(f);
    forall k ensures m(k) <==> Derivable(Under(f, m), k) {
      assert Decided(f, k);
      if m(k) {
        var j: nat :| Sure(f, {}, j, k);
        MeaningLiesBetween(f, j - 1);
        BetweenEases(f, m, j - 1);
        DerivableEases(SureView(f, {}, j - 1), Under(f, m), k);
      } else {
        var j: nat :| !Possible(f, {}, j, k);
        MeaningLiesBetween(f, j - 1);
        BetweenEases(f, m, j - 1);
        if Derivable(Under(f, m), k) { DerivableEases(Under(f, m), PossibleView(f, {}, j - 1), k); }
      }
    }
  }

  /** And the only one. */
  lemma StableModelIsUnique(f: Facts, m: Model, k: Key)
    requires AllDecided(f) && Stable(f, m)
    ensures m(k) <==> Meaning(f)(k)
  {
    assert Decided(f, k);
    SettledInEveryModel(f, m, k);
  }

  // ----- A stable model satisfies every rule as an equivalence -----

  lemma {:induction false} DerivedIsSatisfied(f: Facts, m: Model, n: nat, rule: RewriteRule, ot: string, oi: string)
    requires Stable(f, m) && Derives(Under(f, m), n, rule, ot, oi)
    ensures Satisfied(Under(f, m), rule, ot, oi)
  {
    var v := Under(f, m);
    match rule
    case This(name) =>
      if f.schema.RuleOf(ot, name).Some? { assert GoalDerives(v, n - 1, Key(ot, oi, name)) && m(Key(ot, oi, name)); }
    case Union(children) =>
      var c :| c in children && Derives(v, n, c, ot, oi);
      DerivedIsSatisfied(f, m, n, c, ot, oi);
    case Intersection(children) => forall c | c in children { DerivedIsSatisfied(f, m, n, c, ot, oi); }
    case Exclusion(base, _) =>
      DerivedIsSatisfied(f, m, n, base, ot, oi);
      assert v.Flip() == v;
    case Arrow(tupleset, computed) =>
      var t :| Follows(f, t, ot, oi, tupleset, computed) && GoalDerives(v, n - 1, Target(t, computed));
      assert m(Target(t, computed));
  }

  lemma {:induction false} SatisfiedIsDerived(f: Facts, m: Model, rule: RewriteRule, ot: string, oi: string) returns (n: nat)
    requires Stable(f, m) && Satisfied(Under(f, m), rule, ot, oi)
    ensures Derives(Under(f, m), n, rule, ot, oi)
  {
    var v := Under(f, m);
    match rule
    case This(name) =>
      n := 0;
      if f.schema.RuleOf(ot, name).Some? {
        assert Derivable(v, Key(ot, oi, name));
        var h: nat :| GoalDerives(v, h, Key(ot, oi, name));
        n := h + 1;
      }
    case Union(children) =>
      var c :| c in children && Satisfied(v, c, ot, oi);
      n := SatisfiedIsDerived(f, m, c, ot, oi);
    case Intersection(children) =>
      forall c | c in children ensures Derived(v, c, ot, oi) { var _ := SatisfiedIsDerived(f, m, c, ot, oi); }
      n := CommonHeight(v, children, ot, oi);
    case Exclusion(base, _) =>
      n := SatisfiedIsDerived(f, m, base, ot, oi);
      assert v.Flip() == v;
    case Arrow(tupleset, computed) =>
      var t :| Follows(f, t, ot, oi, tupleset, computed) && m(Target(t, computed));
      assert Derivable(v, Target(t, computed));
      var h: nat :| GoalDerives(v, h, Target(t, computed));
      n := h + 1;
  }

  /** The rule of a permission, read as a formula in the model. */
  ghost predicate RuleHolds(f: Facts, m: Model, k: Key) {
    f.schema.RuleOf(k.objectType, k.permission).Some?
    && Satisfied(Under(f, m), f.schema.RuleOf(k.objectType, k.permission).value, k.objectType, k.objectId)
  }

  lemma PermissionIsItsRule(f: Facts, m: Model, k: Key)
    requires Stable(f, m)
    ensures m(k) <==> RuleHolds(f, m, k)
  {
    var v := Under(f, m);
    assert m(k) <==> Derivable(v, k);
    if m(k) {
      var n: nat :| GoalDerives(v, n, k);
      DerivedIsSatisfied(f, m, n, v.RuleOf(k).value, k.objectType, k.objectId);
    }
    if RuleHolds(f, m, k) {
      var n := SatisfiedIsDerived(f, m, v.RuleOf(k).value, k.objectType, k.objectId);
      assert GoalDerives(v, n, k);
    }
  }

  // ----- Stratification over the stored tuples -----

  type Rank = Key -> nat

  /** A rank of permissions of objects that never grows along a reference and drops along one through an excluded side. */
  ghost predicate Stratified(f: Facts, rank: Rank) {
    forall k: Key :: f.schema.RuleOf(k.objectType, k.permission).Some? ==>
      UpTo(f, rank, f.schema.RuleOf(k.objectType, k.permission).value, k.objectType, k.objectId, rank(k))
  }

  /** Every permission that the rule refers to at this object has a rank below `r`. */
  ghost predicate Below(f: Facts, rank: Rank, rule: RewriteRule, ot: string, oi: string, r: nat) {
    match rule
    case This(name) => f.schema.RuleOf(ot, name).Some? ==> rank(Key(ot, oi, name)) < r
    case Union(children) => forall c | c in children :: Below(f, rank, c, ot, oi, r)
    case Intersection(children) => forall c | c in children :: Below(f, rank, c, ot, oi, r)
    case Exclusion(base, excluded) => Below(f, rank, base, ot, oi, r) && Below(f, rank, excluded, ot, oi, r)
    case Arrow(tupleset, computed) => forall t | Follows(f, t, ot, oi, tupleset, computed) :: rank(Target(t, computed)) < r
  }

  /** References have at most rank `r`, and below `r` on the excluded side of an Exclusion. */
  ghost predicate UpTo(f: Facts, rank: Rank, rule: RewriteRule, ot: string, oi: string, r: nat) {
    match rule
    case This(name) => f.schema.RuleOf(ot, name).Some? ==> rank(Key(ot, oi, name)) <= r
    case Union(children) => forall c | c in children :: UpTo(f, rank, c, ot, oi, r)
    case Intersection(children) => forall c | c in children :: UpTo(f, rank, c, ot, oi, r)
    case Exclusion(base, excluded) => UpTo(f, rank, base, ot, oi, r) && Below(f, rank, excluded, ot, oi, r)
    case Arrow(tupleset, computed) => forall t | Follows(f, t, ot, oi, tupleset, computed) :: rank(Target(t, computed)) <= r
  }

  ghost predicate AgreeBelow(a: View, b: View, rank: Rank, r: nat) {
    && a.facts == b.facts && a.avoid == b.avoid
    && forall k: Key :: rank(k) < r ==> a.taken(k) == b.taken(k) && a.kept(k) == b.kept(k)
  }

  lemma {:induction false} SatisfactionIsLocal(a: View, b: View, rank: Rank, r: nat, rule: RewriteRule, ot: string, oi: string)
    requires AgreeBelow(a, b, rank, r) && Below(a.facts, rank, rule, ot, oi, r)
    ensures Satisfied(a, rule, ot, oi) == Satisfied(b, rule, ot, oi)
    decreases rule
  {
    match rule
    case This(name) =>
      if a.facts.schema.RuleOf(ot, name).Some? { assert a.taken(Key(ot, oi, name)) == b.taken(Key(ot, oi, name)); }
    case Union(children) => forall c | c in children { SatisfactionIsLocal(a, b, rank, r, c, ot, oi); }
    case Intersection(children) => forall c | c in children { SatisfactionIsLocal(a, b, rank, r, c, ot, oi); }
    case Exclusion(base, excluded) =>
      SatisfactionIsLocal(a, b, rank, r, base, ot, oi);
      SatisfactionIsLocal(a.Flip(), b.Flip(), rank, r, excluded, ot, oi);
    case Arrow(tupleset, computed) =>
      forall t | Follows(a.facts, t, ot, oi, tupleset, computed) ensures a.taken(Target(t, computed)) == b.taken(Target(t, computed)) {
        assert rank(Target(t, computed)) < r;
      }
  }

  /** Derivations of rank `r` look up only what lies below `r`. */
  lemma {:induction false} DerivationIsLocal(a: View, b: View, rank: Rank, r: nat, n: nat, rule: RewriteRule, ot: string, oi: string)
    requires Stratified(a.facts, rank) && AgreeBelow(a, b, rank, r) && UpTo(a.facts, rank, rule, ot, oi, r)
    requires Derives(a, n, rule, ot, oi)
    ensures Derives(b, n, rule, ot, oi)
    decreases n, rule
  {
    hide Satisfied, Stored, Below;
    match rule
    case This(name) =>
      var p := a.facts.schema.RuleOf(ot, name);
      if p.Some? { DerivationIsLocal(a, b, rank, rank(Key(ot, oi, name)), n - 1, p.value, ot, oi); }
    case Union(children) =>
      var c :| c in children && Derives(a, n, c, ot, oi);
      DerivationIsLocal(a, b, rank, r, n, c, ot, oi);
    case Intersection(children) => forall c | c in children { DerivationIsLocal(a, b, rank, r, n, c, ot, oi); }
    case Exclusion(base, excluded) =>
      DerivationIsLocal(a, b, rank, r, n, base, ot, oi);
      SatisfactionIsLocal(a, b, rank, r, excluded, ot, oi);
    case Arrow(tupleset, computed) =>
      var t :| Follows(a.facts, t, ot, oi, tupleset, computed) && Target(t, computed) !in a.avoid && GoalDerives(a, n - 1, Target(t, computed));
      var k := Target(t, computed);
      DerivationIsLocal(a, b, rank, rank(k), n - 1, a.RuleOf(k).value, k.objectType, k.objectId);
      ArrowStep(b, n, t, tupleset, computed, ot, oi);
  }

  /** After `j` improvements every rank below `j` is settled. */
  lemma {:induction false} RanksAreSettled(f: Facts, rank: Rank, j: nat)
    requires Stratified(f, rank)
    ensures forall k: Key :: rank(k) < j ==> (Sure(f, {}, j, k) <==> Possible(f, {}, j, k))
  {
    if j > 0 {
      RanksAreSettled(f, rank, j - 1);
      SureIsPossible(f, {}, j);
      var s, p := SureView(f, {}, j - 1), PossibleView(f, {}, j - 1);
      forall k: Key ensures s.taken(k) == p.kept(k) == Possible(f, {}, j - 1, k) && s.kept(k) == p.taken(k) == Sure(f, {}, j - 1, k) {}
      forall k: Key | rank(k) < j && Possible(f, {}, j, k) ensures Sure(f, {}, j, k) {
        var n: nat :| GoalDerives(p, n, k);
        DerivationIsLocal(p, s, rank, rank(k), n, p.RuleOf(k).value, k.objectType, k.objectId);
        assert GoalDerives(s, n, k);
      }
    }
  }

  /** A stratified store is settled everywhere. */
  lemma StratifiedIsDecided(f: Facts, rank: Rank)
    requires Stratified(f, rank)
    ensures AllDecided(f)
  {
    forall k ensures Decided(f, k) {
      RanksAreSettled(f, rank, rank(k) + 1);
    }
  }

  // ----- Conditions that a caller can check -----

  /** References never come back: each one drops the rank, through an excluded side or not. */
  ghost predicate Acyclic(f: Facts, rank: Rank) {
    forall k: Key :: f.schema.RuleOf(k.objectType, k.permission).Some? ==>
      Below(f, rank, f.schema.RuleOf(k.objectType, k.permission).value, k.objectType, k.objectId, rank(k))
  }

  lemma {:induction false} BelowIsUpTo(f: Facts, rank: Rank, rule: RewriteRule, ot: string, oi: string, r: nat)
    requires Below(f, rank, rule, ot, oi, r)
    ensures UpTo(f, rank, rule, ot, oi, r)
  {
    match rule
    case This(_) =>
    case Union(children) => forall c | c in children { BelowIsUpTo(f, rank, c, ot, oi, r); }
    case Intersection(children) => forall c | c in children { BelowIsUpTo(f, rank, c, ot, oi, r); }
    case Exclusion(base, _) => BelowIsUpTo(f, rank, base, ot, oi, r);
    case Arrow(_, _) =>
  }

  /** Acyclic references settle everything, for every schema. */
  lemma AcyclicIsDecided(f: Facts, rank: Rank)
    requires Acyclic(f, rank)
    ensures AllDecided(f)
  {
    forall k: Key | f.schema.RuleOf(k.objectType, k.permission).Some?
      ensures UpTo(f, rank, f.schema.RuleOf(k.objectType, k.permission).value, k.objectType, k.objectId, rank(k))
    {
      BelowIsUpTo(f, rank, f.schema.RuleOf(k.objectType, k.permission).value, k.objectType, k.objectId, rank(k));
    }
    StratifiedIsDecided(f, rank);
  }

  /** The same condition on the schema alone: a rank of types and permissions. */
  type SchemaRank = (string, string) -> nat

  ghost predicate StratifiedSchema(schema: Schema, rank: SchemaRank) {
    forall ot, p :: schema.RuleOf(ot, p).Some? ==> SchemaUpTo(schema, rank, schema.RuleOf(ot, p).value, ot, rank(ot, p))
  }

  ghost predicate SchemaBelow(schema: Schema, rank: SchemaRank, rule: RewriteRule, ot: string, r: nat) {
    match rule
    case This(name) => schema.RuleOf(ot, name).Some? ==> rank(ot, name) < r
    case Union(children) => forall c | c in children :: SchemaBelow(schema, rank, c, ot, r)
    case Intersection(children) => forall c | c in children :: SchemaBelow(schema, rank, c, ot, r)
    case Exclusion(base, excluded) => SchemaBelow(schema, rank, base, ot, r) && SchemaBelow(schema, rank, excluded, ot, r)
    case Arrow(_, computed) => forall target :: schema.RuleOf(target, computed).Some? ==> rank(target, computed) < r
  }

  ghost predicate SchemaUpTo(schema: Schema, rank: SchemaRank, rule: RewriteRule, ot: string, r: nat) {
    match rule
    case This(name) => schema.RuleOf(ot, name).Some? ==> rank(ot, name) <= r
    case Union(children) => forall c | c in children :: SchemaUpTo(schema, rank, c, ot, r)
    case Intersection(children) => forall c | c in children :: SchemaUpTo(schema, rank, c, ot, r)
    case Exclusion(base, excluded) => SchemaUpTo(schema, rank, base, ot, r) && SchemaBelow(schema, rank, excluded, ot, r)
    case Arrow(_, computed) => forall target :: schema.RuleOf(target, computed).Some? ==> rank(target, computed) <= r
  }

  ghost function Lift(rank: SchemaRank): Rank {
    (k: Key) => rank(k.objectType, k.permission)
  }

  lemma {:induction false} SchemaBelowLifts(f: Facts, rank: SchemaRank, rule: RewriteRule, ot: string, oi: string, r: nat)
    requires SchemaBelow(f.schema, rank, rule, ot, r)
    ensures Below(f, Lift(rank), rule, ot, oi, r)
  {
    match rule
    case This(_) =>
    case Union(children) => forall c | c in children { SchemaBelowLifts(f, rank, c, ot, oi, r); }
    case Intersection(children) => forall c | c in children { SchemaBelowLifts(f, rank, c, ot, oi, r); }
    case Exclusion(base, excluded) =>
      SchemaBelowLifts(f, rank, base, ot, oi, r);
      SchemaBelowLifts(f, rank, excluded, ot, oi, r);
    case Arrow(_, _) =>
  }

  lemma {:induction false} SchemaUpToLifts(f: Facts, rank: SchemaRank, rule: RewriteRule, ot: string, oi: string, r: nat)
    requires SchemaUpTo(f.schema, rank, rule, ot, r)
    ensures UpTo(f, Lift(rank), rule, ot, oi, r)
  {
    match rule
    case This(_) =>
    case Union(children) => forall c | c in children { SchemaUpToLifts(f, rank, c, ot, oi, r); }
    case Intersection(children) => forall c | c in children { SchemaUpToLifts(f, rank, c, ot, oi, r); }
    case Exclusion(base, excluded) =>
      SchemaUpToLifts(f, rank, base, ot, oi, r);
      SchemaBelowLifts(f, rank, excluded, ot, oi, r);
    case Arrow(_, _) =>
  }

  /** A stratified schema settles everything over any tuples. */
  lemma StratifiedSchemaIsDecided(f: Facts, rank: SchemaRank)
    requires StratifiedSchema(f.schema, rank)
    ensures AllDecided(f)
  {
    forall k: Key | f.schema.RuleOf(k.objectType, k.permission).Some?
      ensures UpTo(f, Lift(rank), f.schema.RuleOf(k.objectType, k.permission).value, k.objectType, k.objectId, Lift(rank)(k))
    {
      SchemaUpToLifts(f, rank, f.schema.RuleOf(k.objectType, k.permission).value, k.objectType, k.objectId, rank(k.objectType, k.permission));
    }
    StratifiedIsDecided(f, Lift(rank));
  }

  // ----- Exclusions of stored relations: the least fixed point -----

  ghost predicate SubtractsStored(schema: Schema, rule: RewriteRule, ot: string) {
    match rule
    case This(_) => true
    case Union(children) => forall c | c in children :: SubtractsStored(schema, c, ot)
    case Intersection(children) => forall c | c in children :: SubtractsStored(schema, c, ot)
    case Exclusion(base, excluded) => SubtractsStored(schema, base, ot) && excluded.This? && schema.RuleOf(ot, excluded.name).None?
    case Arrow(_, _) => true
  }

  ghost predicate SubtractsOnlyStored(schema: Schema) {
    forall ot, p :: schema.RuleOf(ot, p).Some? ==> SubtractsStored(schema, schema.RuleOf(ot, p).value, ot)
  }

  function Flat(objectType: string, permission: string): nat { 0 }

  lemma {:induction false} SubtractingStoredIsFlat(schema: Schema, rule: RewriteRule, ot: string)
    requires SubtractsStored(schema, rule, ot)
    ensures SchemaUpTo(schema, Flat, rule, ot, 0)
  {
    match rule
    case This(_) =>
    case Union(children) => forall c | c in children { SubtractingStoredIsFlat(schema, c, ot); }
    case Intersection(children) => forall c | c in children { SubtractingStoredIsFlat(schema, c, ot); }
    case Exclusion(base, _) => SubtractingStoredIsFlat(schema, base, ot);
    case Arrow(_, _) =>
  }

  /** Schemas whose exclusions subtract stored relations are stratified by one rank for everything. */
  lemma SubtractingOnlyStoredStratifies(schema: Schema)
    requires SubtractsOnlyStored(schema)
    ensures StratifiedSchema(schema, Flat)
  {
    forall ot, p | schema.RuleOf(ot, p).Some? ensures SchemaUpTo(schema, Flat, schema.RuleOf(ot, p).value, ot, Flat(ot, p)) {
      SubtractingStoredIsFlat(schema, schema.RuleOf(ot, p).value, ot);
    }
  }

  /** Whatever a rule makes true, the model already holds. */
  ghost predicate Closed(f: Facts, m: Model) {
    forall k: Key :: RuleHolds(f, m, k) ==> m(k)
  }

  /** Then the meaning is the least fixed point: it lies inside every model closed under the rules. */
  lemma MeaningIsLeast(f: Facts, other: Model, k: Key)
    requires SubtractsOnlyStored(f.schema) && Closed(f, other) && Holds(f, k)
    ensures other(k)
  {
    var j: nat :| Sure(f, {}, j, k);
    var v := SureView(f, {}, j - 1);
    var n: nat :| GoalDerives(v, n, k);
    DerivedInEveryClosedModel(v, other, n, v.RuleOf(k).value, k.objectType, k.objectId);
    assert RuleHolds(f, other, k);
  }

  lemma {:induction false} DerivedInEveryClosedModel(v: View, other: Model, n: nat, rule: RewriteRule, ot: string, oi: string)
    requires SubtractsOnlyStored(v.facts.schema) && SubtractsStored(v.facts.schema, rule, ot) && Closed(v.facts, other)
    requires Derives(v, n, rule, ot, oi)
    ensures Satisfied(Under(v.facts, other), rule, ot, oi)
    decreases n, rule
  {
    var f := v.facts;
    match rule
    case This(name) =>
      var p := f.schema.RuleOf(ot, name);
      if p.Some? {
        DerivedInEveryClosedModel(v, other, n - 1, p.value, ot, oi);
        assert RuleHolds(f, other, Key(ot, oi, name));
      }
    case Union(children) =>
      var c :| c in children && Derives(v, n, c, ot, oi);
      DerivedInEveryClosedModel(v, other, n, c, ot, oi);
    case Intersection(children) => forall c | c in children { DerivedInEveryClosedModel(v, other, n, c, ot, oi); }
    case Exclusion(base, _) => DerivedInEveryClosedModel(v, other, n, base, ot, oi);
    case Arrow(tupleset, computed) =>
      var t :| Follows(f, t, ot, oi, tupleset, computed) && Target(t, computed) !in v.avoid && GoalDerives(v, n - 1, Target(t, computed));
      var k := Target(t, computed);
      assert GoalDerives(v, n - 1, k);
      DerivedInEveryClosedModel(v, other, n - 1, v.RuleOf(k).value, k.objectType, k.objectId);
      assert RuleHolds(f, other, k);
  }
}
