/** How the two estimates improve, and what cutting the arrows to one key changes in them. */
module Estimates {
  import opened Checking
  import opened Semantics

  /** When one pair of estimates lies inside another, derivations carry over: the sure ones outwards, the possible ones inwards. */
  lemma ViewsEase(f: Facts, a: set<Key>, i: nat, b: set<Key>, j: nat)
    requires forall k :: Sure(f, a, i, k) ==> Sure(f, b, j, k) && (k !in a ==> k !in b)
    requires forall k :: Possible(f, b, j, k) ==> Possible(f, a, i, k) && (k !in b ==> k !in a)
    ensures Eases(SureView(f, a, i), SureView(f, b, j))
    ensures Eases(PossibleView(f, b, j), PossibleView(f, a, i))
  {
    var s, t := SureView(f, a, i), SureView(f, b, j);
    var p, q := PossibleView(f, a, i), PossibleView(f, b, j);
    forall k ensures s.taken(k) == p.kept(k) == Possible(f, a, i, k) && s.kept(k) == p.taken(k) == Sure(f, a, i, k) {}
    forall k ensures t.taken(k) == q.kept(k) == Possible(f, b, j, k) && t.kept(k) == q.taken(k) == Sure(f, b, j, k) {}
  }

  lemma {:induction false} Improves(f: Facts, avoid: set<Key>, j: nat)
    ensures forall k :: Sure(f, avoid, j, k) ==> Sure(f, avoid, j + 1, k)
    ensures forall k :: Possible(f, avoid, j + 1, k) ==> Possible(f, avoid, j, k)
  {
    if j > 0 {
      Improves(f, avoid, j - 1);
      ViewsEase(f, avoid, j - 1, avoid, j);
      forall k | Sure(f, avoid, j, k) ensures Sure(f, avoid, j + 1, k) {
        DerivableEases(SureView(f, avoid, j - 1), SureView(f, avoid, j), k);
      }
      forall k | Possible(f, avoid, j + 1, k) ensures Possible(f, avoid, j, k) {
        DerivableEases(PossibleView(f, avoid, j), PossibleView(f, avoid, j - 1), k);
      }
    }
  }

  lemma {:induction false} ImprovesTo(f: Facts, avoid: set<Key>, i: nat, j: nat)
    requires i <= j
    ensures forall k :: Sure(f, avoid, i, k) ==> Sure(f, avoid, j, k)
    ensures forall k :: Possible(f, avoid, j, k) ==> Possible(f, avoid, i, k)
    decreases j - i
  {
    if i < j {
      Improves(f, avoid, i);
      ImprovesTo(f, avoid, i + 1, j);
    }
  }

  lemma SureViewEasesPossible(f: Facts, avoid: set<Key>, j: nat)
    requires forall k :: Sure(f, avoid, j, k) ==> Possible(f, avoid, j, k)
    ensures Eases(SureView(f, avoid, j), PossibleView(f, avoid, j))
  {
    var s, p := SureView(f, avoid, j), PossibleView(f, avoid, j);
    forall k ensures s.taken(k) == p.kept(k) == Possible(f, avoid, j, k) && s.kept(k) == p.taken(k) == Sure(f, avoid, j, k) {}
  }

  lemma {:induction false} SureIsPossible(f: Facts, avoid: set<Key>, j: nat)
    ensures forall k :: Sure(f, avoid, j, k) ==> Possible(f, avoid, j, k)
  {
    if j > 0 {
      SureIsPossible(f, avoid, j - 1);
      SureViewEasesPossible(f, avoid, j - 1);
      forall k | Sure(f, avoid, j, k) ensures Possible(f, avoid, j, k) {
        DerivableEases(SureView(f, avoid, j - 1), PossibleView(f, avoid, j - 1), k);
      }
    }
  }

  /** Nothing is ever both settled as holding and ruled out. */
  lemma EstimatesAreConsistent(f: Facts, avoid: set<Key>, i: nat, j: nat, k: Key)
    requires Sure(f, avoid, i, k)
    ensures Possible(f, avoid, j, k)
  {
    var m := if i < j then j else i;
    ImprovesTo(f, avoid, i, m);
    SureIsPossible(f, avoid, m);
    ImprovesTo(f, avoid, j, m);
  }

  /** As long as `cut` is not settled as holding, cutting the arrows to it only makes the estimates better. */
  lemma {:induction false} CuttingSharpens(f: Facts, avoid: set<Key>, cut: Key, j: nat)
    requires !Sure(f, avoid, j, cut)
    ensures forall k :: Sure(f, avoid, j, k) ==> Sure(f, avoid + {cut}, j, k)
    ensures forall k :: Possible(f, avoid + {cut}, j, k) ==> Possible(f, avoid, j, k)
  {
    if j > 0 {
      Improves(f, avoid, j - 1);
      CuttingSharpens(f, avoid, cut, j - 1);
      ViewsEase(f, avoid, j - 1, avoid + {cut}, j - 1);
      forall k | Sure(f, avoid, j, k) ensures k != cut {}
      forall k | Sure(f, avoid, j, k) ensures Sure(f, avoid + {cut}, j, k) {
        DerivableEases(SureView(f, avoid, j - 1), SureView(f, avoid + {cut}, j - 1), k);
      }
      forall k | Possible(f, avoid + {cut}, j, k) ensures Possible(f, avoid, j, k) {
        DerivableEases(PossibleView(f, avoid + {cut}, j - 1), PossibleView(f, avoid, j - 1), k);
      }
    }
  }

  /** What holds for sure is derived without coming back to itself, so cutting the arrows to it leaves it sure. */
  lemma {:induction false} CuttingKeepsSure(f: Facts, avoid: set<Key>, cut: Key, j: nat) returns (i: nat)
    requires Derivable(SureView(f, avoid, j), cut)
    ensures Derivable(SureView(f, avoid + {cut}, i), cut)
  {
    if Sure(f, avoid, j, cut) {
      i := CuttingKeepsSure(f, avoid, cut, j - 1);
    } else {
      i := j;
      CuttingSharpens(f, avoid, cut, j);
      ViewsEase(f, avoid, j, avoid + {cut}, j);
      var n: nat :| GoalDerives(SureView(f, avoid, j), n, cut);
      LeastDerivationAvoidsItself(SureView(f, avoid, j), SureView(f, avoid + {cut}, j), n, cut);
    }
  }

  /** What is ruled out stays ruled out when the arrows to it are cut. */
  lemma CuttingKeepsRuledOut(f: Facts, avoid: set<Key>, cut: Key, j: nat)
    requires !Derivable(PossibleView(f, avoid, j), cut)
    ensures !Derivable(PossibleView(f, avoid + {cut}, j), cut)
  {
    assert !Possible(f, avoid, j + 1, cut);
    SureIsPossible(f, avoid, j + 1);
    CuttingSharpens(f, avoid, cut, j + 1);
    assert !Possible(f, avoid + {cut}, j + 1, cut);
  }
}
