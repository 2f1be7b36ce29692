/** The in-memory store as the object it is, and the factory that hands out one store per tenant. */
module Memory {
  import opened Common
  import opened Tuples
  import opened Store
  import opened ObjectIds

  class InMemoryStore {
    var currentTx: nat
    var tuples: seq<StoredTuple>
    var schema: Option<string>
    ghost var history: seq<set<Tuple>>

    function State(): StoreState
      reads this
    {
      StoreState(currentTx, tuples, schema)
    }

    ghost predicate Valid()
      reads this
    {
      WellFormed(State()) && Represents(State(), history)
    }

    constructor ()
      ensures Valid() && State() == EMPTY_STORE && history == [{}]
    {
      currentTx, tuples, schema, history := 0, [], None, [{}];
    }

    method Write(writes: seq<Tuple>, deletes: seq<TupleFilter>) returns (r: Result<nat, StorageError>)
      requires Valid() && currentTx + 1 < U64_MAX
      modifies this
      ensures Valid() && (State(), r) == Store.Write(old(State()), writes, deletes)
      ensures r.Err? <==> exists f | f in deletes :: !f.HasAnyField()
      ensures r.Err? ==> State() == old(State()) && history == old(history)
      ensures r.Ok? ==> r.value == currentTx == old(currentTx) + 1
      ensures r.Ok? ==> history == old(history) + [After(old(history)[old(currentTx)], writes, deletes)]
      ensures Later(old(State()), State()) && schema == old(schema)
    {
      hide InsertAll, VisibleSet, After;
      ghost var before, past := State(), history;
      for k := 0 to |deletes|
        invariant forall f | f in deletes[..k] :: f.HasAnyField()
      {
        if !deletes[k].HasAnyField() {
          return Err(EmptyDeleteFilter);
        }
      }
      assert deletes[..|deletes|] == deletes;

      var toDelete := IndicesToDelete(tuples, deletes);
      currentTx := currentTx + 1;
      var tx := currentTx;
      ghost var marked := MarkDeleted(tuples, deletes, tx);
      MarkAll(toDelete, deletes, tx);
      InsertEach(toDelete, marked, writes, tx);
      history := history + [After(history[|history| - 1], writes, deletes)];
      r := Ok(tx);
      WriteKeepsWellFormed(before, writes, deletes);
      WriteIsLater(before, writes, deletes);
      WriteRefinesHistory(before, past, writes, deletes);
    }

    /** The positions of the active versions that some filter matches, in order. */
    static function IndicesToDelete(rows: seq<StoredTuple>, deletes: seq<TupleFilter>): (r: seq<nat>)
      ensures forall i | i in r :: i < |rows|
      ensures forall i | 0 <= i < |rows| :: i in r <==> rows[i].IsActive() && MatchedBy(deletes, rows[i].tuple)
    {
      if rows == [] then []
      else
        var n := |rows| - 1;
        IndicesToDelete(rows[..n], deletes) + (if rows[n].IsActive() && MatchedBy(deletes, rows[n].tuple) then [n] else [])
    }

    /** The loop that ends the selected versions in place. */
    method MarkAll(toDelete: seq<nat>, deletes: seq<TupleFilter>, tx: nat)
      requires toDelete == IndicesToDelete(tuples, deletes)
      modifies `tuples
      ensures tuples == MarkDeleted(old(tuples), deletes, tx)
    {
      hide IndicesToDelete, MatchedBy;
      var n := |tuples|;
      for k := 0 to |toDelete|
        invariant |tuples| == n
        invariant forall i | 0 <= i < n ::
                    tuples[i] == if i in toDelete[..k] then old(tuples)[i].(deletedTx := tx) else old(tuples)[i]
      {
        var i := toDelete[k];
        assert i in toDelete;
        tuples := tuples[i := tuples[i].(deletedTx := tx)];
        assert toDelete[..k + 1] == toDelete[..k] + [i];
      }
      assert toDelete[..|toDelete|] == toDelete;
    }

    /** The loop that pushes new versions, skipping repeated writes and tuples that are still active. */
    method InsertEach(toDelete: seq<nat>, ghost marked: seq<StoredTuple>, writes: seq<Tuple>, tx: nat)
      requires tuples == marked && tx < U64_MAX
      requires forall i | i in toDelete :: i < |marked| && !marked[i].IsActive()
      modifies `tuples
      ensures tuples == InsertAll(marked, writes, tx)
    {
      var seen: set<Tuple> := {};
      for k := 0 to |writes|
        invariant tuples == InsertAll(marked, writes[..k], tx)
        invariant seen == set w | w in writes[..k]
      {
        var w := writes[k];
        assert writes[..k + 1][..k] == writes[..k] && writes[..k + 1][k] == w;
        InsertAllInserts(marked, writes[..k], tx);
        if w !in seen {
          seen := seen + {w};
          assert (exists i | 0 <= i < |tuples| :: tuples[i].IsActive() && i !in toDelete && tuples[i].tuple == w) <==> ActiveIn(tuples, w);
          var activeDup := exists i | 0 <= i < |tuples| :: tuples[i].IsActive() && i !in toDelete && tuples[i].tuple == w;
          if !activeDup {
            tuples := tuples + [StoredTuple(w, tx, ACTIVE_TX_ID)];
          }
        }
      }
      assert writes[..|writes|] == writes;
    }

    method Read(f: TupleFilter, snapshot: Option<nat>, limit: Option<nat>) returns (r: Result<seq<Tuple>, StorageError>)
      requires Valid()
      ensures r == Store.Read(State(), f, snapshot, limit)
      ensures r.Err? <==> snapshot.Some? && snapshot.value > currentTx
      ensures r.Ok? && limit.None? ==>
                var s := if snapshot.Some? then snapshot.value else currentTx;
                forall t :: t in r.value <==> t in history[s] && f.Matches(t)
    {
      var snap := currentTx;
      if snapshot.Some? {
        if snapshot.value > currentTx {
          return Err(SnapshotAhead(snapshot.value, currentTx));
        }
        snap := snapshot.value;
      }
      r := Ok(Take(Scan(tuples, snap, f), limit));
      ReadListsHistory(State(), history, f, snap);
    }

    method Snapshot() returns (token: nat)
      requires Valid()
      ensures token == currentTx
      ensures token + 1 == |history| && history[token] == VisibleSet(tuples, token)
    {
      token := currentTx;
    }

    method ListObjectIds(objectType: string, snapshot: Option<nat>, limit: Option<nat>) returns (r: Result<seq<string>, StorageError>)
      ensures r == ObjectIds.ListObjectIds(State(), objectType, snapshot, limit)
    {
      hide Scan, IdsOf, Sorting.Sort, Sorting.Dedup;
      var snap := currentTx;
      if snapshot.Some? {
        if snapshot.value > currentTx {
          return Err(SnapshotAhead(snapshot.value, currentTx));
        }
        snap := snapshot.value;
      }
      var ids := IdsOf(Scan(tuples, snap, OfType(objectType)));
      ids := Sorting.Sort(ids, Sorting.AtMost);
      ids := Sorting.Dedup(ids);
      if limit.Some? && limit.value < |ids| {
        ids := ids[..limit.value];
      }
      r := Ok(ids);
    }

    method WriteSchema(definition: string)
      requires Valid()
      modifies this
      ensures Valid() && State() == old(State()).(schema := Some(definition)) && history == old(history)
    {
      schema := Some(definition);
      assert VisibleSet(tuples, 0) == old(VisibleSet(tuples, 0));
    }

    method ReadSchema() returns (definition: Option<string>)
      ensures definition == schema
    {
      definition := schema;
    }
  }
}
