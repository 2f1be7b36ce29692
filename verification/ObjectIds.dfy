/** Listing the ids of the objects of one type at a snapshot. */
module ObjectIds {
  import opened Common
  import opened Tuples
  import opened Store
  import opened Sorting

  function OfType(objectType: string): TupleFilter {
    TupleFilter(Some(objectType), None, None, None, None, None)
  }

  function IdsOf(rows: seq<Tuple>): (ids: seq<string>)
    ensures |ids| == |rows| && forall i | 0 <= i < |rows| :: ids[i] == rows[i].resource.objectId
  {
    seq(|rows|, i requires 0 <= i < |rows| => rows[i].resource.objectId)
  }

  function ListObjectIds(st: StoreState, objectType: string, snapshot: Option<nat>, limit: Option<nat>): Result<seq<string>, StorageError> {
    var s :- Resolve(st, snapshot);
    Ok(Take(Dedup(Sort(IdsOf(Scan(st.tuples, s, OfType(objectType))), AtMost)), limit))
  }

  lemma IdsAreVisible(rows: seq<StoredTuple>, s: nat, objectType: string, id: string)
    requires id in IdsOf(Scan(rows, s, OfType(objectType)))
    ensures exists t :: t in VisibleSet(rows, s) && t.resource == ObjectRef(objectType, id)
  {
    hide Scan, VisibleSet;
    var found := Scan(rows, s, OfType(objectType));
    var i :| 0 <= i < |found| && IdsOf(found)[i] == id;
    ScanMembers(rows, s, OfType(objectType), found[i]);
    assert found[i].resource == ObjectRef(objectType, id);
  }

  lemma VisibleIdsAreListed(rows: seq<StoredTuple>, s: nat, objectType: string, t: Tuple)
    requires t in VisibleSet(rows, s) && t.resource.objectType == objectType
    ensures t.resource.objectId in IdsOf(Scan(rows, s, OfType(objectType)))
  {
    hide Scan, VisibleSet;
    var found := Scan(rows, s, OfType(objectType));
    ScanMembers(rows, s, OfType(objectType), t);
    var i :| 0 <= i < |found| && found[i] == t;
    assert IdsOf(found)[i] == t.resource.objectId;
  }

  /** Without a limit: the ids of all visible objects of the type, each once, ascending. */
  lemma ListObjectIdsIsExact(st: StoreState, history: seq<set<Tuple>>, objectType: string, s: nat)
    requires WellFormed(st) && Represents(st, history) && s <= st.currentTx
    ensures ListObjectIds(st, objectType, Some(s), None).Ok?
    ensures var ids := ListObjectIds(st, objectType, Some(s), None).value;
            && Ascending(ids)
            && forall id :: id in ids <==> exists t :: t in history[s] && t.resource == ObjectRef(objectType, id)
  {
    hide Scan, Sort, Dedup, IdsOf, VisibleSet, WellFormed;
    var ids := IdsOf(Scan(st.tuples, s, OfType(objectType)));
    SortedDedupIsAscending(ids);
    forall id ensures id in ids <==> exists t :: t in history[s] && t.resource == ObjectRef(objectType, id) {
      if id in ids { IdsAreVisible(st.tuples, s, objectType, id); }
      if t :| t in history[s] && t.resource == ObjectRef(objectType, id) { VisibleIdsAreListed(st.tuples, s, objectType, t); }
    }
  }

  lemma ListObjectIdsIsFrozen(a: StoreState, b: StoreState, objectType: string, s: nat, limit: Option<nat>)
    requires Later(a, b) && s <= a.currentTx < U64_MAX
    ensures ListObjectIds(b, objectType, Some(s), limit) == ListObjectIds(a, objectType, Some(s), limit)
  {
    ScanIsFrozen(a, b, |b.tuples|, s, OfType(objectType));
    assert b.tuples[..|b.tuples|] == b.tuples && a.tuples[..|a.tuples|] == a.tuples;
  }

  lemma OldObjectListsAreFrozen(st: StoreState, calls: seq<WriteCall>, objectType: string, s: nat, limit: Option<nat>)
    requires WellFormed(st) && s <= st.currentTx && st.currentTx + |calls| < U64_MAX
    ensures ListObjectIds(Run(st, calls), objectType, Some(s), limit) == ListObjectIds(st, objectType, Some(s), limit)
  {
    var history := seq(st.currentTx + 1, i requires 0 <= i <= st.currentTx => VisibleSet(st.tuples, i));
    RunRefinesHistory(st, history, calls);
    ListObjectIdsIsFrozen(st, Run(st, calls), objectType, s, limit);
  }
}
