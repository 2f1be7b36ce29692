/** What a filter selects, one field at a time, and what that means for deletes and reads. */
module Filters {
  import opened Common
  import opened Tuples
  import opened Store

  // ----- The law of each field -----

  /** Without fields a filter selects everything, and it is the only filter without fields. */
  lemma NoFieldSelectsAll(f: TupleFilter, t: Tuple)
    ensures ANY_TUPLE.Matches(t)
    ensures f.HasAnyField() <==> f != ANY_TUPLE
  {
  }

  /** Setting a field that was not set selects, of the tuples selected before, those with that value. */
  lemma ObjectTypeSelects(f: TupleFilter, v: string, t: Tuple)
    requires f.objectType.None?
    ensures f.(objectType := Some(v)).Matches(t) <==> f.Matches(t) && t.resource.objectType == v
  {
  }

  lemma ObjectIdSelects(f: TupleFilter, v: string, t: Tuple)
    requires f.objectId.None?
    ensures f.(objectId := Some(v)).Matches(t) <==> f.Matches(t) && t.resource.objectId == v
  {
  }

  lemma RelationSelects(f: TupleFilter, v: string, t: Tuple)
    requires f.relation.None?
    ensures f.(relation := Some(v)).Matches(t) <==> f.Matches(t) && t.relation == v
  {
  }

  lemma SubjectTypeSelects(f: TupleFilter, v: string, t: Tuple)
    requires f.subjectType.None?
    ensures f.(subjectType := Some(v)).Matches(t) <==> f.Matches(t) && t.subject.subjectType == v
  {
  }

  lemma SubjectIdSelects(f: TupleFilter, v: string, t: Tuple)
    requires f.subjectId.None?
    ensures f.(subjectId := Some(v)).Matches(t) <==> f.Matches(t) && t.subject.subjectId == v
  {
  }

  /** Here the value may be `None`: then the direct subjects are selected. */
  lemma SubjectRelationSelects(f: TupleFilter, v: Option<string>, t: Tuple)
    requires f.subjectRelation.None?
    ensures f.(subjectRelation := Some(v)).Matches(t) <==> f.Matches(t) && t.subject.subjectRelation == v
  {
  }

  // ----- Any filter, from these laws -----

  /** The field is not set, or set to this value. */
  predicate Admits<T(==)>(field: Option<T>, value: T) { field.None? || field.value == value }

  /** The six fields are independent: a filter selects the tuples that each of them admits. */
  lemma EachFieldSelects(f: TupleFilter, t: Tuple)
    ensures f.Matches(t) <==>
              && Admits(f.objectType, t.resource.objectType) && Admits(f.objectId, t.resource.objectId)
              && Admits(f.relation, t.relation)
              && Admits(f.subjectType, t.subject.subjectType) && Admits(f.subjectId, t.subject.subjectId)
              && Admits(f.subjectRelation, t.subject.subjectRelation)
  {
    hide TupleFilter.Matches;
    NoFieldSelectsAll(f, t);
    var a := ANY_TUPLE;
    var b := a.(objectType := f.objectType);
    var c := b.(objectId := f.objectId);
    var d := c.(relation := f.relation);
    var e := d.(subjectType := f.subjectType);
    var g := e.(subjectId := f.subjectId);
    assert g.(subjectRelation := f.subjectRelation) == f;
    if f.objectType.Some? { ObjectTypeSelects(a, f.objectType.value, t); }
    if f.objectId.Some? { ObjectIdSelects(b, f.objectId.value, t); }
    if f.relation.Some? { RelationSelects(c, f.relation.value, t); }
    if f.subjectType.Some? { SubjectTypeSelects(d, f.subjectType.value, t); }
    if f.subjectId.Some? { SubjectIdSelects(e, f.subjectId.value, t); }
    if f.subjectRelation.Some? { SubjectRelationSelects(g, f.subjectRelation.value, t); }
  }

  // ----- Deletes -----

  /** Deletes by one filter remove exactly what it selects; a tuple that the same call writes stays. */
  lemma WriteLaws(before: set<Tuple>, writes: seq<Tuple>, f: TupleFilter, t: Tuple)
    ensures t in writes ==> t in After(before, writes, [f])
    ensures t !in writes ==> (t in After(before, writes, [f]) <==> t in before && !f.Matches(t))
  {
    hide TupleFilter.Matches;
    assert MatchedBy([f], t) <==> f.Matches(t);
  }

  /** Deleting by a subject id removes the tuples of that id, and no other. */
  lemma DeleteBySubjectId(before: set<Tuple>, id: string)
    ensures After(before, [], [ANY_TUPLE.(subjectId := Some(id))]) == set t | t in before && t.subject.subjectId != id
  {
    hide TupleFilter.Matches;
    var f := ANY_TUPLE.(subjectId := Some(id));
    forall t ensures t in After(before, [], [f]) <==> t in before && t.subject.subjectId != id {
      WriteLaws(before, [], f, t);
      NoFieldSelectsAll(f, t);
      SubjectIdSelects(ANY_TUPLE, id, t);
    }
  }

  /** Deleting by subject type and id removes the tuples with both, whatever object they are on. */
  lemma DeleteBySubject(before: set<Tuple>, subjectType: string, id: string)
    ensures After(before, [], [ANY_TUPLE.(subjectType := Some(subjectType), subjectId := Some(id))])
         == set t | t in before && !(t.subject.subjectType == subjectType && t.subject.subjectId == id)
  {
    hide TupleFilter.Matches;
    var f := ANY_TUPLE.(subjectType := Some(subjectType), subjectId := Some(id));
    forall t ensures t in After(before, [], [f]) <==> t in before && !(t.subject.subjectType == subjectType && t.subject.subjectId == id) {
      WriteLaws(before, [], f, t);
      EachFieldSelects(f, t);
    }
  }

  // ----- Reads -----

  /** Reading by a subject id returns the tuples of that id. */
  lemma ReadBySubjectId(st: StoreState, history: seq<set<Tuple>>, s: nat, id: string, t: Tuple)
    requires WellFormed(st) && Represents(st, history) && s <= st.currentTx
    ensures Read(st, ANY_TUPLE.(subjectId := Some(id)), Some(s), None).Ok?
    ensures t in Read(st, ANY_TUPLE.(subjectId := Some(id)), Some(s), None).value <==> t in history[s] && t.subject.subjectId == id
  {
    hide TupleFilter.Matches, Read, Represents, WellFormed;
    ReadListsHistory(st, history, ANY_TUPLE.(subjectId := Some(id)), s);
    NoFieldSelectsAll(ANY_TUPLE, t);
    SubjectIdSelects(ANY_TUPLE, id, t);
  }

  /** Reading by subject type and id returns the tuples with both. */
  lemma ReadBySubject(st: StoreState, history: seq<set<Tuple>>, s: nat, subjectType: string, id: string, t: Tuple)
    requires WellFormed(st) && Represents(st, history) && s <= st.currentTx
    ensures var f := ANY_TUPLE.(subjectType := Some(subjectType), subjectId := Some(id));
            && Read(st, f, Some(s), None).Ok?
            && (t in Read(st, f, Some(s), None).value <==> t in history[s] && t.subject.subjectType == subjectType && t.subject.subjectId == id)
  {
    hide TupleFilter.Matches, Read, Represents, WellFormed;
    var f := ANY_TUPLE.(subjectType := Some(subjectType), subjectId := Some(id));
    ReadListsHistory(st, history, f, s);
    EachFieldSelects(f, t);
  }

  // ----- Order and limit of reads -----

  /** `at` are ascending positions of versions, `listed` their tuples. */
  ghost predicate Positions(rows: seq<StoredTuple>, listed: seq<Tuple>, at: seq<nat>) {
    && |at| == |listed|
    && (forall i | 0 <= i < |at| :: at[i] < |rows| && rows[at[i]].tuple == listed[i])
    && (forall i, j | 0 <= i < j < |at| :: at[i] < at[j])
  }

  /** The positions of the versions that a read lists: ascending, and none that should be listed is left out. */
  ghost predicate ListedAt(rows: seq<StoredTuple>, s: nat, f: TupleFilter, listed: seq<Tuple>, at: seq<nat>) {
    && Positions(rows, listed, at)
    && (forall k | 0 <= k < |rows| :: k in at <==> rows[k].createdTx <= s < rows[k].deletedTx && f.Matches(rows[k].tuple))
  }

  lemma {:induction false} ScanKeepsOrder(rows: seq<StoredTuple>, s: nat, f: TupleFilter) returns (at: seq<nat>)
    ensures ListedAt(rows, s, f, Scan(rows, s, f), at)
  {
    hide TupleFilter.Matches, ListedAt;
    if rows == [] {
      at := [];
      NothingListed(rows, s, f);
    } else {
      var n := |rows| - 1;
      var before := ScanKeepsOrder(rows[..n], s, f);
      OneMoreVersion(rows, s, f, Scan(rows[..n], s, f), before);
      if rows[n].VisibleAt(s) && f.Matches(rows[n].tuple) { at := before + [n]; } else { at := before; }
      assert Scan(rows[..n], s, f) + [] == Scan(rows[..n], s, f);
    }
  }

  lemma NothingListed(rows: seq<StoredTuple>, s: nat, f: TupleFilter)
    requires rows == []
    ensures ListedAt(rows, s, f, [], [])
  {
  }

  lemma OneMorePosition(rows: seq<StoredTuple>, listed: seq<Tuple>, at: seq<nat>)
    requires rows != [] && Positions(rows[..|rows| - 1], listed, at)
    ensures |rows| - 1 !in at
    ensures Positions(rows, listed, at) && Positions(rows, listed + [rows[|rows| - 1].tuple], at + [|rows| - 1])
  {
    forall i | 0 <= i < |at| ensures at[i] < |rows| - 1 && rows[at[i]] == rows[..|rows| - 1][at[i]] {}
  }

  lemma OneMoreVersion(rows: seq<StoredTuple>, s: nat, f: TupleFilter, listed: seq<Tuple>, at: seq<nat>)
    requires rows != [] && ListedAt(rows[..|rows| - 1], s, f, listed, at)
    ensures var n := |rows| - 1;
            if rows[n].VisibleAt(s) && f.Matches(rows[n].tuple) then ListedAt(rows, s, f, listed + [rows[n].tuple], at + [n])
            else ListedAt(rows, s, f, listed, at)
  {
    hide TupleFilter.Matches, Positions;
    var n := |rows| - 1;
    OneMorePosition(rows, listed, at);
    forall k | 0 <= k < n ensures k in at <==> rows[k].createdTx <= s < rows[k].deletedTx && f.Matches(rows[k].tuple) {
      assert rows[..n][k] == rows[k];
    }
  }

  /** The main result about limited reads: the first rows in the order of insertion, as many as the limit allows. */
  lemma LimitedRead(st: StoreState, f: TupleFilter, s: nat, limit: nat) returns (at: seq<nat>)
    requires s <= st.currentTx
    ensures Read(st, f, Some(s), Some(limit)).Ok? && Read(st, f, Some(s), None).Ok?
    ensures ListedAt(st.tuples, s, f, Read(st, f, Some(s), None).value, at)
    ensures var rows := Read(st, f, Some(s), Some(limit)).value;
            && |rows| == (if limit < |at| then limit else |at|)
            && forall i | 0 <= i < |rows| :: rows[i] == st.tuples[at[i]].tuple
  {
    hide ListedAt;
    at := ScanKeepsOrder(st.tuples, s, f);
    PrefixListed(st.tuples, s, f, Scan(st.tuples, s, f), at);
  }

  lemma PrefixListed(rows: seq<StoredTuple>, s: nat, f: TupleFilter, listed: seq<Tuple>, at: seq<nat>)
    requires ListedAt(rows, s, f, listed, at)
    ensures |at| == |listed| && forall i | 0 <= i < |at| :: at[i] < |rows| && rows[at[i]].tuple == listed[i]
  {
  }
}
