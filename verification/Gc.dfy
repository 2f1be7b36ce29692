/** Garbage collection: tuples without a place in the schema are found and deleted one by one. */
module Gc {
  import opened Common
  import opened Tuples
  import opened Schemas
  import opened Store
  import opened Memory
  import opened Isolation
  import opened Validation

  function Orphans(rows: seq<Tuple>, schema: Schema): (r: seq<Tuple>)
    ensures forall t :: t in r <==> t in rows && IsOrphan(schema, t)
    ensures |r| <= |rows|
  {
    if rows == [] then []
    else
      var n := |rows| - 1;
      assert rows == rows[..n] + [rows[n]];
      Orphans(rows[..n], schema) + (if IsOrphan(schema, rows[n]) then [rows[n]] else [])
  }

  function Filters(orphans: seq<Tuple>): (r: seq<TupleFilter>)
    ensures |r| == |orphans| && forall i | 0 <= i < |r| :: r[i] == Exactly(orphans[i])
  {
    seq(|orphans|, i requires 0 <= i < |orphans| => Exactly(orphans[i]))
  }

  /** One uninterrupted cycle, as a function of the store's state. */
  function Cycle(st: StoreState, schema: Schema): (StoreState, nat) {
    var orphans := Orphans(Scan(st.tuples, st.currentTx, ANY_TUPLE), schema);
    if orphans == [] then (st, 0) else (Write(st, [], Filters(orphans)).0, |orphans|)
  }

  lemma FiltersMatchExactly(orphans: seq<Tuple>, t: Tuple)
    ensures MatchedBy(Filters(orphans), t) <==> t in orphans
    ensures forall f | f in Filters(orphans) :: f.HasAnyField()
  {
    var fs := Filters(orphans);
    if t in orphans {
      var i :| 0 <= i < |orphans| && orphans[i] == t;
      assert fs[i] in fs && fs[i].Matches(t);
    }
    if f :| f in fs && f.Matches(t) {
      var i :| 0 <= i < |fs| && fs[i] == f;
      assert orphans[i] == t;
    }
  }

  function OrphansOf(db: set<Tuple>, schema: Schema): set<Tuple> {
    set t | t in db && IsOrphan(schema, t)
  }

  /** Deleting the orphans of an earlier read from a store that may have moved on. */
  lemma DeletingOrphans(st: StoreState, orphans: seq<Tuple>)
    requires WellFormed(st) && st.currentTx + 1 < U64_MAX
    ensures var st' := Write(st, [], Filters(orphans)).0;
            && Write(st, [], Filters(orphans)).1.Ok? && st'.currentTx == st.currentTx + 1
            && VisibleSet(st'.tuples, st'.currentTx) == set t | t in VisibleSet(st.tuples, st.currentTx) && t !in orphans
  {
    forall t ensures MatchedBy(Filters(orphans), t) <==> t in orphans { FiltersMatchExactly(orphans, t); }
    forall f | f in Filters(orphans) ensures f.HasAnyField() { var i :| 0 <= i < |Filters(orphans)| && Filters(orphans)[i] == f; }
    NewSnapshot(st, [], Filters(orphans));
  }

  /** The list read from a store holds the orphans of its current set, each once. */
  lemma OrphansRead(st: StoreState, schema: Schema)
    requires WellFormed(st)
    ensures var orphans := Orphans(Scan(st.tuples, st.currentTx, ANY_TUPLE), schema);
            var gone := OrphansOf(VisibleSet(st.tuples, st.currentTx), schema);
            (forall t :: t in orphans <==> t in gone) && |orphans| == |gone|
  {
    hide IsOrphan;
    var rows := Scan(st.tuples, st.currentTx, ANY_TUPLE);
    var orphans := Orphans(rows, schema);
    forall t ensures t in orphans <==> t in OrphansOf(VisibleSet(st.tuples, st.currentTx), schema) {
      ScanMembers(st.tuples, st.currentTx, ANY_TUPLE, t);
    }
    ScanIsDistinct(st.tuples, st.currentTx, ANY_TUPLE);
    OrphansAreDistinct(rows, schema);
    DistinctCount(orphans, OrphansOf(VisibleSet(st.tuples, st.currentTx), schema));
  }

  /** The main result: exactly the tuples with a place in the schema remain, and the count is right. */
  lemma CycleIsExact(st: StoreState, schema: Schema)
    requires WellFormed(st) && st.currentTx + 1 < U64_MAX
    ensures var (st', count) := Cycle(st, schema);
            var db := VisibleSet(st.tuples, st.currentTx);
            && VisibleSet(st'.tuples, st'.currentTx) == db - OrphansOf(db, schema)
            && count == |OrphansOf(db, schema)|
            && WellFormed(st') && Later(st, st')
  {
    hide IsOrphan, Write;
    var orphans := Orphans(Scan(st.tuples, st.currentTx, ANY_TUPLE), schema);
    OrphansRead(st, schema);
    if orphans == [] {
      assert forall t :: t !in orphans;
    } else {
      DeletingOrphans(st, orphans);
      WriteKeepsWellFormed(st, [], Filters(orphans));
      WriteIsLater(st, [], Filters(orphans));
    }
  }

  lemma {:induction false} OrphansAreDistinct(rows: seq<Tuple>, schema: Schema)
    requires forall i, j | 0 <= i < j < |rows| :: rows[i] != rows[j]
    ensures forall i, j | 0 <= i < j < |Orphans(rows, schema)| :: Orphans(rows, schema)[i] != Orphans(rows, schema)[j]
  {
    if rows != [] {
      var n := |rows| - 1;
      OrphansAreDistinct(rows[..n], schema);
      assert rows[n] !in rows[..n];
    }
  }

  lemma {:induction false} DistinctCount<T>(xs: seq<T>, s: set<T>)
    requires forall i, j | 0 <= i < j < |xs| :: xs[i] != xs[j]
    requires forall i | 0 <= i < |xs| :: xs[i] in s
    requires forall x | x in s :: x in xs
    ensures |xs| == |s|
  {
    if xs != [] {
      var n := |xs| - 1;
      DistinctCount(xs[..n], s - {xs[n]});
    } else {
      assert s == {};
    }
  }

  /** A second cycle finds nothing and leaves the store as it is. */
  lemma CycleIsIdempotent(st: StoreState, schema: Schema)
    requires WellFormed(st) && st.currentTx + 1 < U64_MAX
    ensures Cycle(Cycle(st, schema).0, schema) == (Cycle(st, schema).0, 0)
  {
    var st' := Cycle(st, schema).0;
    CycleIsExact(st, schema);
    var rows := Scan(st'.tuples, st'.currentTx, ANY_TUPLE);
    var orphans := Orphans(rows, schema);
    if orphans != [] {
      var t := orphans[0];
      assert t in orphans;
      ScanMembers(st'.tuples, st'.currentTx, ANY_TUPLE, t);
      assert false;
    }
  }

  /** The test in the loop is the definition of an orphan. */
  lemma OrphanTest(schema: Schema, t: Tuple)
    ensures IsOrphan(schema, t) <==>
              var typeDef := schema.GetType(t.resource.objectType);
              typeDef.None? || !exists r | r in typeDef.value.relations :: r.name == t.relation
  {
  }

  /** The loop that pushes one exact filter for every orphan. */
  method OrphanFilters(allTuples: seq<Tuple>, schema: Schema) returns (orphanFilters: seq<TupleFilter>)
    ensures orphanFilters == Filters(Orphans(allTuples, schema))
  {
    hide IsOrphan, FindType, FindRelation;
    orphanFilters := [];
    for i := 0 to |allTuples|
      invariant orphanFilters == Filters(Orphans(allTuples[..i], schema))
    {
      var tuple := allTuples[i];
      assert allTuples[..i + 1][..i] == allTuples[..i];
      OrphanTest(schema, tuple);
      var typeDef := schema.GetType(tuple.resource.objectType);
      var isOrphan := typeDef.None? || !exists r | r in typeDef.value.relations :: r.name == tuple.relation;
      if isOrphan {
        orphanFilters := orphanFilters + [Exactly(tuple)];
      }
    }
    assert allTuples[..|allTuples|] == allTuples;
  }

  method RunGcCycle(store: InMemoryStore, schema: Schema, busy: bool) returns (count: nat, ghost before: StoreState)
    requires store.Valid() && store.currentTx + 1 < U64_MAX
    modifies store
    ensures store.Valid() && store.schema == old(store.schema)
    ensures Later(old(store.State()), before) && Later(before, store.State())
    // An uninterrupted cycle is the exact one.
    ensures !busy ==> before == old(store.State()) && (store.State(), count) == Cycle(old(store.State()), schema)
    // With writes in between, it deletes the orphans of the state it read, and nothing else.
    ensures VisibleSet(store.tuples, store.currentTx)
         == VisibleSet(before.tuples, before.currentTx) - OrphansOf(VisibleSet(old(store.tuples), old(store.currentTx)), schema)
    ensures count == |OrphansOf(VisibleSet(old(store.tuples), old(store.currentTx)), schema)|
  {
    hide Orphans, Filters, IsOrphan, Write, VisibleSet, Scan, WellFormed, Represents;
    var snapshot := store.Snapshot();
    ghost var start := store.State();
    if busy { OtherCallers(store); }
    var read := store.Read(ANY_TUPLE, Some(snapshot), None);
    ReadIsFrozen(start, store.State(), ANY_TUPLE, snapshot, None);
    var allTuples := read.value;
    var orphanFilters := OrphanFilters(allTuples, schema);
    ghost var orphans := Orphans(allTuples, schema);
    OrphansRead(start, schema);
    count := |orphanFilters|;
    ghost var mid := store.State();
    if busy {
      OtherCallers(store);
      LaterTransitive(start, mid, store.State());
    }
    before := store.State();
    DeleteOrphans(store, orphanFilters, orphans);
  }

  /** The last step of a cycle; it writes only when there is something to delete. */
  method DeleteOrphans(store: InMemoryStore, orphanFilters: seq<TupleFilter>, ghost orphans: seq<Tuple>)
    requires store.Valid() && store.currentTx + 1 < U64_MAX && orphanFilters == Filters(orphans)
    modifies store
    ensures store.Valid() && store.schema == old(store.schema) && Later(old(store.State()), store.State())
    ensures store.State() == if orphans == [] then old(store.State()) else Write(old(store.State()), [], Filters(orphans)).0
    ensures VisibleSet(store.tuples, store.currentTx) == set t | t in VisibleSet(old(store.tuples), old(store.currentTx)) && t !in orphans
  {
    if orphanFilters != [] {
      DeletingOrphans(store.State(), orphans);
      var _ := store.Write([], orphanFilters);
    }
  }
}
