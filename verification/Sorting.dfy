/** Stable sorting and removal of adjacent repeats, as the standard vector operations do them. */
module Sorting {

  ghost predicate TotalPreorder<T(!new)>(leq: (T, T) -> bool) {
    && (forall x, y :: leq(x, y) || leq(y, x))
    && (forall x, y, z :: leq(x, y) && leq(y, z) ==> leq(x, z))
  }

  ghost predicate Ordered<T>(xs: seq<T>, leq: (T, T) -> bool) {
    forall i, j | 0 <= i < j < |xs| :: leq(xs[i], xs[j])
  }

  /** Inserts before the first element that is not smaller, so equal elements keep their order. */
  function Insert<T>(x: T, xs: seq<T>, leq: (T, T) -> bool): (r: seq<T>)
    ensures multiset(r) == multiset(xs) + multiset{x}
  {
    if xs == [] then [x]
    else if leq(x, xs[0]) then [x] + xs
    else
      assert xs == [xs[0]] + xs[1..];
      [xs[0]] + Insert(x, xs[1..], leq)
  }

  function Sort<T>(xs: seq<T>, leq: (T, T) -> bool): (r: seq<T>)
    ensures multiset(r) == multiset(xs)
  {
    if xs == [] then []
    else
      assert xs == [xs[0]] + xs[1..];
      Insert(xs[0], Sort(xs[1..], leq), leq)
  }

  lemma {:induction false} InsertIsOrdered<T(!new)>(x: T, xs: seq<T>, leq: (T, T) -> bool)
    requires TotalPreorder(leq) && Ordered(xs, leq)
    ensures Ordered(Insert(x, xs, leq), leq)
  {
    if xs != [] && !leq(x, xs[0]) {
      var rest := Insert(x, xs[1..], leq);
      InsertIsOrdered(x, xs[1..], leq);
      forall i | 0 <= i < |rest| ensures leq(xs[0], rest[i]) {
        assert rest[i] in multiset(rest);
        if rest[i] != x {
          assert rest[i] in xs[1..];
          var j :| 0 <= j < |xs[1..]| && xs[1..][j] == rest[i];
          assert leq(xs[0], xs[j + 1]);
        }
      }
    } else if xs != [] {
      forall j | 0 <= j < |xs| ensures leq(x, xs[j]) {
        if j > 0 { assert leq(xs[0], xs[j]); }
      }
    }
  }

  lemma {:induction false} SortIsOrdered<T(!new)>(xs: seq<T>, leq: (T, T) -> bool)
    requires TotalPreorder(leq)
    ensures Ordered(Sort(xs, leq), leq)
  {
    if xs != [] {
      SortIsOrdered(xs[1..], leq);
      InsertIsOrdered(xs[0], Sort(xs[1..], leq), leq);
    }
  }

  lemma SortKeepsMembers<T(!new)>(xs: seq<T>, leq: (T, T) -> bool)
    ensures forall x :: x in Sort(xs, leq) <==> x in xs
  {
    forall x ensures x in Sort(xs, leq) <==> x in xs {
      assert x in multiset(Sort(xs, leq)) <==> x in multiset(xs);
    }
  }

  /** Drops every element equal to the one before it. */
  function Dedup<T(==)>(xs: seq<T>): (r: seq<T>)
    ensures xs != [] ==> r != [] && r[0] == xs[0]
  {
    if |xs| < 2 then xs
    else if xs[0] == xs[1] then Dedup(xs[1..])
    else [xs[0]] + Dedup(xs[1..])
  }

  lemma {:induction false} DedupKeepsMembers<T(!new)>(xs: seq<T>)
    ensures forall x :: x in Dedup(xs) <==> x in xs
  {
    if |xs| >= 2 {
      DedupKeepsMembers(xs[1..]);
      assert xs == [xs[0]] + xs[1..];
    }
  }

  lemma {:induction false} DedupIsOrdered<T(!new)>(xs: seq<T>, leq: (T, T) -> bool)
    requires Ordered(xs, leq)
    ensures Ordered(Dedup(xs), leq)
    ensures forall i | 0 < i < |Dedup(xs)| :: Dedup(xs)[i - 1] != Dedup(xs)[i]
  {
    if |xs| >= 2 {
      var rest := Dedup(xs[1..]);
      DedupIsOrdered(xs[1..], leq);
      DedupKeepsMembers(xs[1..]);
      forall i | 0 <= i < |rest| ensures leq(xs[0], rest[i]) {
        assert rest[i] in xs[1..];
        var j :| 0 <= j < |xs[1..]| && xs[1..][j] == rest[i];
        assert leq(xs[0], xs[j + 1]);
      }
    }
  }

  // ----- Strings, by code point -----

  predicate AtMost(a: string, b: string) {
    a == [] || (b != [] && (a[0] < b[0] || (a[0] == b[0] && AtMost(a[1..], b[1..]))))
  }

  /** The first character that differs comes earlier in `a`. */
  ghost predicate FirstDifferenceIsSmaller(a: string, b: string) {
    exists i | 0 <= i < |a| && i < |b| :: a[..i] == b[..i] && a[i] < b[i]
  }

  /** The order is that of a dictionary: a prefix comes first, otherwise the first different character decides. */
  lemma {:induction false} AtMostIsLexicographic(a: string, b: string)
    ensures AtMost(a, b) <==> a <= b || FirstDifferenceIsSmaller(a, b)
  {
    if a != [] && b != [] {
      if a[0] != b[0] {
        assert a[..0] == b[..0];
      } else {
        AtMostIsLexicographic(a[1..], b[1..]);
        TailsDiffer(a, b);
        assert a <= b <==> a[1..] <= b[1..] by { assert a == [a[0]] + a[1..] && b == [b[0]] + b[1..]; }
      }
    }
  }

  /** Behind an equal first character the first difference is that of the tails. */
  lemma TailsDiffer(a: string, b: string)
    requires a != [] && b != [] && a[0] == b[0]
    ensures FirstDifferenceIsSmaller(a, b) <==> FirstDifferenceIsSmaller(a[1..], b[1..])
  {
    if i :| 0 <= i < |a| && i < |b| && a[..i] == b[..i] && a[i] < b[i] {
      assert a[1..][..i - 1] == a[..i][1..] && b[1..][..i - 1] == b[..i][1..];
      assert a[1..][i - 1] < b[1..][i - 1];
    }
    if i :| 0 <= i < |a[1..]| && i < |b[1..]| && a[1..][..i] == b[1..][..i] && a[1..][i] < b[1..][i] {
      assert a[..i + 1] == [a[0]] + a[1..][..i] && b[..i + 1] == [b[0]] + b[1..][..i];
      assert a[i + 1] < b[i + 1];
    }
  }

  lemma {:induction false} AtMostTotal(a: string, b: string)
    ensures AtMost(a, b) || AtMost(b, a)
  {
    if a != [] && b != [] && a[0] == b[0] { AtMostTotal(a[1..], b[1..]); }
  }

  lemma {:induction false} AtMostTransitive(a: string, b: string, c: string)
    requires AtMost(a, b) && AtMost(b, c)
    ensures AtMost(a, c)
  {
    if a != [] && b != [] && c != [] && a[0] == b[0] == c[0] { AtMostTransitive(a[1..], b[1..], c[1..]); }
  }

  lemma {:induction false} AtMostAntisymmetric(a: string, b: string)
    requires AtMost(a, b) && AtMost(b, a)
    ensures a == b
  {
    if a != [] && b != [] {
      AtMostAntisymmetric(a[1..], b[1..]);
      assert a == [a[0]] + a[1..] && b == [b[0]] + b[1..];
    }
  }

  lemma AtMostIsPreorder()
    ensures TotalPreorder(AtMost)
  {
    forall a, b ensures AtMost(a, b) || AtMost(b, a) { AtMostTotal(a, b); }
    forall a, b, c | AtMost(a, b) && AtMost(b, c) ensures AtMost(a, c) { AtMostTransitive(a, b, c); }
  }

  ghost predicate Ascending(ids: seq<string>) {
    forall i, j | 0 <= i < j < |ids| :: ids[i] != ids[j] && AtMost(ids[i], ids[j])
  }

  /** Sorting and dropping adjacent repeats leaves every string once, in ascending order. */
  lemma SortedDedupIsAscending(xs: seq<string>)
    ensures Ascending(Dedup(Sort(xs, AtMost)))
    ensures forall x :: x in Dedup(Sort(xs, AtMost)) <==> x in xs
  {
    AtMostIsPreorder();
    SortIsOrdered(xs, AtMost);
    SortKeepsMembers(xs, AtMost);
    DedupKeepsMembers(Sort(xs, AtMost));
    DedupIsOrdered(Sort(xs, AtMost), AtMost);
    var r := Dedup(Sort(xs, AtMost));
    forall i, j | 0 <= i < j < |r| ensures r[i] != r[j] {
      assert AtMost(r[i], r[i + 1]) && (i + 1 < j ==> AtMost(r[i + 1], r[j]));
      if r[i] == r[j] { AtMostAntisymmetric(r[i], r[i + 1]); }
    }
  }
}
