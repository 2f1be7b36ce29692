/**
 The meaning of permissions, independent of any evaluation order.  A permission holds when it has
 a finite derivation.  What an Exclusion subtracts is not derived but looked up in an estimate of
 which permissions hold; two estimates, one from below and one from above, are improved together.
 What they settle is the meaning, for any schema and any tuples.
 */
module Semantics {
  import opened Common
  import opened Tuples
  import opened Schemas
  import opened Checking

  /** What is stored, and the subject whose permissions are asked for; it may be a userset. */
  datatype Facts = Facts(schema: Schema, db: set<Tuple>, who: SubjectRef)

  /** A claim for every permission of every object. */
  type Model = Key -> bool

  /**
   How a derivation looks things up: `taken` says what counts as holding on the excluded side of an
   Exclusion, `kept` what counts as holding on the excluded side of an Exclusion inside that,
   and arrows to the keys in `avoid` are cut.
   */
  datatype View = View(facts: Facts, taken: Model, kept: Model, avoid: set<Key>)
  {
    function Flip(): View { View(facts, kept, taken, avoid) }

    function RuleOf(k: Key): Option<RewriteRule> { facts.schema.RuleOf(k.objectType, k.permission) }
  }

  /** The subject is stored in the relation: a direct subject itself, and any subject through a userset stored in it. */
  ghost predicate Stored(f: Facts, name: string, ot: string, oi: string) {
    f.schema.IsRelation(ot, name) && StoredIn(f.db, f.who, name, ot, oi)
  }

  ghost predicate StoredIn(db: set<Tuple>, who: SubjectRef, name: string, ot: string, oi: string) {
    exists t | t in db && t.resource == ObjectRef(ot, oi) && t.relation == name ::
      || (t.subject == who && who.subjectRelation.None?)
      || (t.subject.subjectRelation.Some? && UsersetRow(t.subject, who) in db)
  }

  function UsersetRow(u: SubjectRef, who: SubjectRef): Tuple
    requires u.subjectRelation.Some?
  {
    Tuple(ObjectRef(u.subjectType, u.subjectId), u.subjectRelation.value, who)
  }

  /** `t` is a tuple that an arrow over `tupleset` follows to a permission that exists. */
  ghost predicate Follows(f: Facts, t: Tuple, ot: string, oi: string, tupleset: string, computed: string) {
    && t in f.db && t.resource == ObjectRef(ot, oi) && t.relation == tupleset
    && f.schema.RuleOf(t.subject.subjectType, computed).Some?
  }

  /** A derivation with at most `n` permission steps. */
  ghost predicate Derives(v: View, n: nat, rule: RewriteRule, ot: string, oi: string)
    decreases 2 * n, rule
  {
    match rule
    case This(name) =>
      if v.facts.schema.RuleOf(ot, name).Some? then n > 0 && GoalDerives(v, n - 1, Key(ot, oi, name))
      else Stored(v.facts, name, ot, oi)
    case Union(children) => exists c | c in children :: Derives(v, n, c, ot, oi)
    case Intersection(children) => forall c | c in children :: Derives(v, n, c, ot, oi)
    case Exclusion(base, excluded) => Derives(v, n, base, ot, oi) && !Satisfied(v, excluded, ot, oi)
    case Arrow(tupleset, computed) =>
      n > 0 && exists t | Follows(v.facts, t, ot, oi, tupleset, computed) && Target(t, computed) !in v.avoid ::
        GoalDerives(v, n - 1, Target(t, computed))
  }

  ghost predicate GoalDerives(v: View, n: nat, k: Key)
    decreases 2 * n + 1, 0
  {
    v.RuleOf(k).Some? && Derives(v, n, v.RuleOf(k).value, k.objectType, k.objectId)
  }

  /** A rule on the excluded side, read as a formula. */
  ghost predicate Satisfied(v: View, rule: RewriteRule, ot: string, oi: string)
    decreases rule
  {
    match rule
    case This(name) => if v.facts.schema.RuleOf(ot, name).Some? then v.taken(Key(ot, oi, name)) else Stored(v.facts, name, ot, oi)
    case Union(children) => exists c | c in children :: Satisfied(v, c, ot, oi)
    case Intersection(children) => forall c | c in children :: Satisfied(v, c, ot, oi)
    case Exclusion(base, excluded) => Satisfied(v, base, ot, oi) && !Satisfied(v.Flip(), excluded, ot, oi)
    case Arrow(tupleset, computed) =>
      exists t | Follows(v.facts, t, ot, oi, tupleset, computed) && Target(t, computed) !in v.avoid :: v.taken(Target(t, computed))
  }

  /** A derivation of some finite height. */
  ghost predicate Derived(v: View, rule: RewriteRule, ot: string, oi: string) {
    exists n: nat :: Derives(v, n, rule, ot, oi)
  }

  ghost predicate Derivable(v: View, k: Key) {
    exists n: nat :: GoalDerives(v, n, k)
  }

  // ----- The estimates -----

  /** What `j` improvements have settled as holding, when arrows to `avoid` are cut. */
  ghost predicate Sure(f: Facts, avoid: set<Key>, j: nat, k: Key)
    decreases j, 0
  {
    j > 0 && Derivable(SureView(f, avoid, j - 1), k)
  }

  /** What `j` improvements have not yet ruled out. */
  ghost predicate Possible(f: Facts, avoid: set<Key>, j: nat, k: Key)
    decreases j, 0
  {
    j > 0 ==> Derivable(PossibleView(f, avoid, j - 1), k)
  }

  /** A sure derivation subtracts everything that is still possible. */
  ghost function SureView(f: Facts, avoid: set<Key>, j: nat): View
    decreases j, 1
  {
    View(f, k => Possible(f, avoid, j, k), k => Sure(f, avoid, j, k), avoid)
  }

  /** A possible derivation subtracts only what is already sure. */
  ghost function PossibleView(f: Facts, avoid: set<Key>, j: nat): View
    decreases j, 1
  {
    View(f, k => Sure(f, avoid, j, k), k => Possible(f, avoid, j, k), avoid)
  }

  /** The meaning: what some number of improvements settles as holding. */
  ghost predicate Holds(f: Facts, k: Key) {
    exists j: nat :: Sure(f, {}, j, k)
  }

  /** The estimates meet: the permission is settled, one way or the other. */
  ghost predicate Decided(f: Facts, k: Key) {
    exists j: nat :: Sure(f, {}, j, k) || !Possible(f, {}, j, k)
  }

  // ----- Derivations -----

  lemma {:induction false} Taller(v: View, n: nat, n': nat, rule: RewriteRule, ot: string, oi: string)
    requires Derives(v, n, rule, ot, oi) && n <= n'
    ensures Derives(v, n', rule, ot, oi)
    decreases n, rule
  {
    match rule
    case This(name) =>
      var p := v.facts.schema.RuleOf(ot, name);
      if p.Some? { Taller(v, n - 1, n' - 1, p.value, ot, oi); }
    case Union(children) =>
      var c :| c in children && Derives(v, n, c, ot, oi);
      Taller(v, n, n', c, ot, oi);
    case Intersection(children) => forall c | c in children { Taller(v, n, n', c, ot, oi); }
    case Exclusion(base, _) => Taller(v, n, n', base, ot, oi);
    case Arrow(tupleset, computed) =>
      var t :| Follows(v.facts, t, ot, oi, tupleset, computed) && Target(t, computed) !in v.avoid && GoalDerives(v, n - 1, Target(t, computed));
      var k := Target(t, computed);
      Taller(v, n - 1, n' - 1, v.RuleOf(k).value, k.objectType, k.objectId);
  }

  lemma ArrowStep(v: View, n: nat, t: Tuple, tupleset: string, computed: string, ot: string, oi: string)
    requires n > 0 && Follows(v.facts, t, ot, oi, tupleset, computed) && Target(t, computed) !in v.avoid
    requires GoalDerives(v, n - 1, Target(t, computed))
    ensures Derives(v, n, Arrow(tupleset, computed), ot, oi)
  {
  }

  /** Children that are derivable one by one are derivable with one common height. */
  lemma {:induction false} CommonHeight(v: View, children: seq<RewriteRule>, ot: string, oi: string) returns (n: nat)
    requires forall c | c in children :: Derived(v, c, ot, oi)
    ensures forall c | c in children :: Derives(v, n, c, ot, oi)
  {
    if children == [] {
      n := 0;
    } else {
      var rest := CommonHeight(v, children[1..], ot, oi);
      assert Derived(v, children[0], ot, oi);
      var h: nat :| Derives(v, h, children[0], ot, oi);
      n := if h > rest then h else rest;
      forall c | c in children ensures Derives(v, n, c, ot, oi) {
        if c in children[1..] { Taller(v, rest, n, c, ot, oi); } else { Taller(v, h, n, c, ot, oi); }
      }
    }
  }

  // ----- From one view to another -----

  /** `b` subtracts no more than `a` and keeps no less, seen directly and through uncut arrows. */
  ghost predicate Eases(a: View, b: View) {
    && a.facts == b.facts
    && (forall k :: b.taken(k) ==> a.taken(k) && (k !in b.avoid ==> k !in a.avoid))
    && (forall k :: a.kept(k) ==> b.kept(k) && (k !in a.avoid ==> k !in b.avoid))
  }

  lemma {:induction false} SatisfiedEases(a: View, b: View, rule: RewriteRule, ot: string, oi: string)
    requires Eases(a, b) && Satisfied(b, rule, ot, oi)
    ensures Satisfied(a, rule, ot, oi)
    decreases rule
  {
    match rule
    case This(_) =>
    case Union(children) =>
      var c :| c in children && Satisfied(b, c, ot, oi);
      SatisfiedEases(a, b, c, ot, oi);
    case Intersection(children) => forall c | c in children { SatisfiedEases(a, b, c, ot, oi); }
    case Exclusion(base, excluded) =>
      SatisfiedEases(a, b, base, ot, oi);
      if Satisfied(a.Flip(), excluded, ot, oi) { SatisfiedEases(b.Flip(), a.Flip(), excluded, ot, oi); }
    case Arrow(tupleset, computed) =>
      var t :| Follows(b.facts, t, ot, oi, tupleset, computed) && Target(t, computed) !in b.avoid && b.taken(Target(t, computed));
      assert a.taken(Target(t, computed));
  }

  /** Some key that only `b` cuts has a derivation in `a` of height below `n`. */
  ghost predicate Arrives(a: View, b: View, n: nat) {
    exists h: nat, k :: h < n && k in b.avoid && k !in a.avoid && GoalDerives(a, h, k)
  }

  /** A derivation carries over to an easier view, unless it arrives at a key that only the new view cuts. */
  lemma {:induction false} EasesOrArrives(a: View, b: View, n: nat, rule: RewriteRule, ot: string, oi: string)
    requires Eases(a, b) && Derives(a, n, rule, ot, oi)
    ensures Derives(b, n, rule, ot, oi) || Arrives(a, b, n)
    decreases n, rule
  {
    match rule
    case This(name) =>
      var p := a.facts.schema.RuleOf(ot, name);
      if p.Some? { EasesOrArrives(a, b, n - 1, p.value, ot, oi); }
    case Union(children) =>
      var c :| c in children && Derives(a, n, c, ot, oi);
      EasesOrArrives(a, b, n, c, ot, oi);
    case Intersection(children) =>
      forall c | c in children
        ensures Derives(b, n, c, ot, oi) || Arrives(a, b, n)
      {
        EasesOrArrives(a, b, n, c, ot, oi);
      }
    case Exclusion(base, excluded) =>
      EasesOrArrives(a, b, n, base, ot, oi);
      if Satisfied(b, excluded, ot, oi) { SatisfiedEases(a, b, excluded, ot, oi); }
    case Arrow(tupleset, computed) =>
      var t :| Follows(a.facts, t, ot, oi, tupleset, computed) && Target(t, computed) !in a.avoid && GoalDerives(a, n - 1, Target(t, computed));
      var k := Target(t, computed);
      if k !in b.avoid {
        EasesOrArrives(a, b, n - 1, a.RuleOf(k).value, k.objectType, k.objectId);
        if Derives(b, n - 1, a.RuleOf(k).value, k.objectType, k.objectId) { assert GoalDerives(b, n - 1, k); }
      }
  }

  /** When the new view cuts nothing that was derivable, every derivation carries over. */
  lemma DerivableEases(a: View, b: View, k: Key)
    requires Eases(a, b) && (forall j | j in b.avoid && j !in a.avoid :: !Derivable(a, j))
    requires Derivable(a, k)
    ensures Derivable(b, k)
  {
    var n: nat :| GoalDerives(a, n, k);
    EasesOrArrives(a, b, n, a.RuleOf(k).value, k.objectType, k.objectId);
    assert GoalDerives(b, n, k);
  }

  /** Of a derivable key, the least derivation never returns to the key itself. */
  lemma {:induction false} LeastDerivationAvoidsItself(a: View, b: View, n: nat, k: Key)
    requires Eases(a, b) && b.avoid == a.avoid + {k} && GoalDerives(a, n, k)
    ensures Derivable(b, k)
  {
    EasesOrArrives(a, b, n, a.RuleOf(k).value, k.objectType, k.objectId);
    if !GoalDerives(b, n, k) {
      var h: nat, j :| h < n && j in b.avoid && j !in a.avoid && GoalDerives(a, h, j);
      LeastDerivationAvoidsItself(a, b, h, k);
    }
  }
}
