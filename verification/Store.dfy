/** The multi-version tuple store: its states, its operations, and what they keep. */
module Store {
  import opened Common
  import opened Tuples

  const U64_MAX: nat := 0xFFFF_FFFF_FFFF_FFFF
  const ACTIVE_TX_ID: nat := U64_MAX

  datatype StoredTuple = StoredTuple(tuple: Tuple, createdTx: nat, deletedTx: nat)
  {
    predicate IsActive() { deletedTx == ACTIVE_TX_ID }

    predicate VisibleAt(snapshot: nat) { createdTx <= snapshot && deletedTx > snapshot }
  }

  datatype StoreState = StoreState(currentTx: nat, tuples: seq<StoredTuple>, schema: Option<string>)

  const EMPTY_STORE := StoreState(0, [], None)

  // ----- Operations -----

  predicate MatchedBy(deletes: seq<TupleFilter>, t: Tuple) {
    exists f | f in deletes :: f.Matches(t)
  }

  /** Active versions that a filter matches end at transaction `tx`. */
  function MarkDeleted(rows: seq<StoredTuple>, deletes: seq<TupleFilter>, tx: nat): (r: seq<StoredTuple>)
    ensures |r| == |rows|
  {
    seq(|rows|, i requires 0 <= i < |rows| =>
      if rows[i].IsActive() && MatchedBy(deletes, rows[i].tuple) then rows[i].(deletedTx := tx) else rows[i])
  }

  predicate ActiveIn(rows: seq<StoredTuple>, t: Tuple) {
    exists v | v in rows :: v.IsActive() && v.tuple == t
  }

  /** Every write without an active version gets a new one, in the order of the writes. */
  function InsertAll(rows: seq<StoredTuple>, writes: seq<Tuple>, tx: nat): seq<StoredTuple> {
    if writes == [] then rows
    else
      var n := |writes| - 1;
      var before := InsertAll(rows, writes[..n], tx);
      if ActiveIn(before, writes[n]) then before else before + [StoredTuple(writes[n], tx, ACTIVE_TX_ID)]
  }

  function Write(st: StoreState, writes: seq<Tuple>, deletes: seq<TupleFilter>): (StoreState, Result<nat, StorageError>) {
    if exists f | f in deletes :: !f.HasAnyField() then (st, Err(EmptyDeleteFilter))
    else
      var tx := st.currentTx + 1;
      (st.(currentTx := tx, tuples := InsertAll(MarkDeleted(st.tuples, deletes, tx), writes, tx)), Ok(tx))
  }

  /** The tuples visible at a snapshot that a filter matches, in insertion order. */
  function Scan(rows: seq<StoredTuple>, snapshot: nat, f: TupleFilter): seq<Tuple> {
    if rows == [] then []
    else
      var n := |rows| - 1;
      Scan(rows[..n], snapshot, f)
      + (if rows[n].VisibleAt(snapshot) && f.Matches(rows[n].tuple) then [rows[n].tuple] else [])
  }

  function Resolve(st: StoreState, snapshot: Option<nat>): Result<nat, StorageError> {
    match snapshot
    case Some(s) => if s > st.currentTx then Err(SnapshotAhead(s, st.currentTx)) else Ok(s)
    case None => Ok(st.currentTx)
  }

  function Take<T>(xs: seq<T>, limit: Option<nat>): (ys: seq<T>)
    ensures limit.None? ==> ys == xs
    ensures limit.Some? ==> ys <= xs && |ys| == if limit.value < |xs| then limit.value else |xs|
  {
    if limit.Some? && limit.value < |xs| then xs[..limit.value] else xs
  }

  function Read(st: StoreState, f: TupleFilter, snapshot: Option<nat>, limit: Option<nat>): Result<seq<Tuple>, StorageError> {
    var s :- Resolve(st, snapshot);
    Ok(Take(Scan(st.tuples, s, f), limit))
  }

  // ----- The history a store stands for -----

  /** Lifetimes lie in the past and two lifetimes of one tuple never overlap. */
  ghost predicate WellFormed(st: StoreState) {
    && st.currentTx < U64_MAX
    && (forall v | v in st.tuples :: LifetimeOk(v, st.currentTx))
    && (forall i, j | 0 <= i < j < |st.tuples| :: st.tuples[i].tuple == st.tuples[j].tuple ==> st.tuples[i].deletedTx <= st.tuples[j].createdTx)
  }

  predicate LifetimeOk(v: StoredTuple, currentTx: nat) {
    1 <= v.createdTx <= currentTx && (v.IsActive() || v.createdTx < v.deletedTx <= currentTx)
  }

  function VisibleSet(rows: seq<StoredTuple>, snapshot: nat): set<Tuple> {
    set v | v in rows && v.VisibleAt(snapshot) :: v.tuple
  }

  /** `history[s]` is the set of tuples that snapshot `s` shows. */
  ghost predicate Represents(st: StoreState, history: seq<set<Tuple>>) {
    && |history| == st.currentTx + 1
    && forall s | 0 <= s <= st.currentTx :: VisibleSet(st.tuples, s) == history[s]
  }

  /** The set after a successful write: deletes first, then writes. */
  function After(before: set<Tuple>, writes: seq<Tuple>, deletes: seq<TupleFilter>): set<Tuple> {
    (set t | t in before && !MatchedBy(deletes, t)) + (set t | t in writes)
  }

  // ----- What a write keeps -----

  /** `b` is `a` after more transactions: old versions only end, and only after `a`. */
  ghost predicate Later(a: StoreState, b: StoreState) {
    && a.currentTx <= b.currentTx && |a.tuples| <= |b.tuples|
    && (forall i | 0 <= i < |a.tuples| :: OnlyEnded(a.tuples[i], b.tuples[i], a.currentTx))
    && (forall i | |a.tuples| <= i < |b.tuples| :: b.tuples[i].createdTx > a.currentTx)
  }

  predicate OnlyEnded(old_: StoredTuple, now: StoredTuple, tx: nat) {
    && now.tuple == old_.tuple && now.createdTx == old_.createdTx
    && (now.deletedTx == old_.deletedTx || (old_.IsActive() && now.deletedTx > tx))
  }

  lemma LaterTransitive(a: StoreState, b: StoreState, c: StoreState)
    requires Later(a, b) && Later(b, c)
    ensures Later(a, c)
  {
    forall i | 0 <= i < |a.tuples| ensures OnlyEnded(a.tuples[i], c.tuples[i], a.currentTx) {
      assert OnlyEnded(a.tuples[i], b.tuples[i], a.currentTx) && OnlyEnded(b.tuples[i], c.tuples[i], b.currentTx);
    }
    forall i | |a.tuples| <= i < |c.tuples| ensures c.tuples[i].createdTx > a.currentTx {
      if i < |b.tuples| { assert OnlyEnded(b.tuples[i], c.tuples[i], b.currentTx); }
    }
  }

  /** What is known about the versions part-way through the inserts of transaction `tx`. */
  ghost predicate Inserting(marked: seq<StoredTuple>, done: seq<Tuple>, rows: seq<StoredTuple>, tx: nat) {
    && marked <= rows
    && (forall i | |marked| <= i < |rows| :: rows[i] == StoredTuple(rows[i].tuple, tx, ACTIVE_TX_ID) && rows[i].tuple in done)
    && (forall t | t in done :: ActiveIn(rows, t))
    && (forall i, j | 0 <= i < j < |rows| && |marked| <= j :: rows[i].tuple == rows[j].tuple ==> !rows[i].IsActive())
  }

  lemma {:induction false} InsertAllInserts(marked: seq<StoredTuple>, writes: seq<Tuple>, tx: nat)
    ensures Inserting(marked, writes, InsertAll(marked, writes, tx), tx)
  {
    if writes != [] {
      var n := |writes| - 1;
      InsertAllInserts(marked, writes[..n], tx);
      InsertOneInserts(marked, writes[..n], InsertAll(marked, writes[..n], tx), writes[n], tx);
      assert writes == writes[..n] + [writes[n]];
    }
  }

  lemma InsertOneInserts(marked: seq<StoredTuple>, done: seq<Tuple>, rows: seq<StoredTuple>, w: Tuple, tx: nat)
    requires Inserting(marked, done, rows, tx)
    ensures Inserting(marked, done + [w], if ActiveIn(rows, w) then rows else rows + [StoredTuple(w, tx, ACTIVE_TX_ID)], tx)
  {
    if !ActiveIn(rows, w) {
      var v := StoredTuple(w, tx, ACTIVE_TX_ID);
      var rows' := rows + [v];
      assert v in rows';
      forall t | t in done + [w] ensures ActiveIn(rows', t) {
        if t != w {
          var u :| u in rows && u.IsActive() && u.tuple == t;
          assert u in rows';
        }
      }
      forall i, j | 0 <= i < j < |rows'| && |marked| <= j && rows'[i].tuple == rows'[j].tuple ensures !rows'[i].IsActive() {
        assert rows'[i] in rows;
      }
    }
  }

  lemma WriteIsLater(st: StoreState, writes: seq<Tuple>, deletes: seq<TupleFilter>)
    requires st.currentTx + 1 < U64_MAX
    ensures Later(st, Write(st, writes, deletes).0)
  {
    var tx := st.currentTx + 1;
    InsertAllInserts(MarkDeleted(st.tuples, deletes, tx), writes, tx);
  }

  lemma WriteKeepsWellFormed(st: StoreState, writes: seq<Tuple>, deletes: seq<TupleFilter>)
    requires WellFormed(st) && st.currentTx + 1 < U64_MAX
    ensures WellFormed(Write(st, writes, deletes).0)
  {
    hide InsertAll, MatchedBy;
    var tx := st.currentTx + 1;
    var marked := MarkDeleted(st.tuples, deletes, tx);
    var st' := Write(st, writes, deletes).0;
    if Write(st, writes, deletes).1.Ok? {
      InsertAllInserts(marked, writes, tx);
      forall i | 0 <= i < |st'.tuples| ensures LifetimeOk(st'.tuples[i], tx) {
        if i < |marked| { assert st.tuples[i] in st.tuples && marked[i] == st'.tuples[i]; }
      }
      forall i, j | 0 <= i < j < |st'.tuples| && st'.tuples[i].tuple == st'.tuples[j].tuple
        ensures st'.tuples[i].deletedTx <= st'.tuples[j].createdTx
      {
        assert LifetimeOk(st'.tuples[i], tx);
        if j < |marked| {
          assert marked[i] == st'.tuples[i] && marked[j] == st'.tuples[j];
          assert st.tuples[i].deletedTx <= st.tuples[j].createdTx;
          assert LifetimeOk(st.tuples[j], st.currentTx);
        }
      }
    }
  }

  // ----- Frozen snapshots -----

  lemma {:induction false} ScanIsFrozen(a: StoreState, b: StoreState, n: nat, s: nat, f: TupleFilter)
    requires Later(a, b) && s <= a.currentTx < U64_MAX && n <= |b.tuples|
    ensures Scan(b.tuples[..n], s, f) == Scan(a.tuples[..if n < |a.tuples| then n else |a.tuples|], s, f)
  {
    if n > 0 {
      ScanIsFrozen(a, b, n - 1, s, f);
      assert b.tuples[..n][..n - 1] == b.tuples[..n - 1];
      if n <= |a.tuples| {
        assert a.tuples[..n][..n - 1] == a.tuples[..n - 1];
        assert OnlyEnded(a.tuples[n - 1], b.tuples[n - 1], a.currentTx);
      }
    }
  }

  /** A read at a snapshot the store has reached returns the same sequence ever after. */
  lemma ReadIsFrozen(a: StoreState, b: StoreState, f: TupleFilter, s: nat, limit: Option<nat>)
    requires Later(a, b) && s <= a.currentTx < U64_MAX
    ensures Read(b, f, Some(s), limit) == Read(a, f, Some(s), limit)
  {
    ScanIsFrozen(a, b, |b.tuples|, s, f);
    assert b.tuples[..|b.tuples|] == b.tuples && a.tuples[..|a.tuples|] == a.tuples;
  }

  // ----- Refinement of the history of sets -----

  lemma VisibleSetIsFrozen(a: StoreState, b: StoreState, s: nat)
    requires Later(a, b) && s <= a.currentTx < U64_MAX
    ensures VisibleSet(b.tuples, s) == VisibleSet(a.tuples, s)
  {
    forall t | t in VisibleSet(a.tuples, s) ensures t in VisibleSet(b.tuples, s) {
      var i :| 0 <= i < |a.tuples| && a.tuples[i].VisibleAt(s) && a.tuples[i].tuple == t;
      assert OnlyEnded(a.tuples[i], b.tuples[i], a.currentTx);
      assert b.tuples[i] in b.tuples && b.tuples[i].VisibleAt(s);
    }
    forall t | t in VisibleSet(b.tuples, s) ensures t in VisibleSet(a.tuples, s) {
      var i :| 0 <= i < |b.tuples| && b.tuples[i].VisibleAt(s) && b.tuples[i].tuple == t;
      if i < |a.tuples| {
        assert OnlyEnded(a.tuples[i], b.tuples[i], a.currentTx);
        assert a.tuples[i] in a.tuples && a.tuples[i].VisibleAt(s);
      }
    }
  }

  /** Of a well-formed store, the current snapshot shows exactly the active versions. */
  lemma CurrentIsActive(st: StoreState, v: StoredTuple)
    requires WellFormed(st) && v in st.tuples
    ensures v.VisibleAt(st.currentTx) <==> v.IsActive()
  {
    assert LifetimeOk(v, st.currentTx);
  }

  /** What the snapshot after a write shows was written, or was shown before and not deleted. */
  lemma NewSnapshotShowsOnly(st: StoreState, writes: seq<Tuple>, deletes: seq<TupleFilter>, t: Tuple)
    requires WellFormed(st) && st.currentTx + 1 < U64_MAX && Write(st, writes, deletes).1.Ok?
    requires t in VisibleSet(Write(st, writes, deletes).0.tuples, st.currentTx + 1)
    ensures t in After(VisibleSet(st.tuples, st.currentTx), writes, deletes)
  {
    hide WellFormed, InsertAll;
    var tx := st.currentTx + 1;
    var marked := MarkDeleted(st.tuples, deletes, tx);
    var st' := Write(st, writes, deletes).0;
    InsertAllInserts(marked, writes, tx);
    WriteKeepsWellFormed(st, writes, deletes);
    var i :| 0 <= i < |st'.tuples| && st'.tuples[i].VisibleAt(tx) && st'.tuples[i].tuple == t;
    CurrentIsActive(st', st'.tuples[i]);
    if i < |marked| {
      assert marked[i] == st'.tuples[i];
      CurrentIsActive(st, st.tuples[i]);
      assert st.tuples[i] in st.tuples;
    }
  }

  /** What was written, or was shown before and not deleted, is shown by the snapshot after a write. */
  lemma NewSnapshotShowsAll(st: StoreState, writes: seq<Tuple>, deletes: seq<TupleFilter>, t: Tuple)
    requires WellFormed(st) && st.currentTx + 1 < U64_MAX && Write(st, writes, deletes).1.Ok?
    requires t in After(VisibleSet(st.tuples, st.currentTx), writes, deletes)
    ensures t in VisibleSet(Write(st, writes, deletes).0.tuples, st.currentTx + 1)
  {
    hide WellFormed, InsertAll;
    var tx := st.currentTx + 1;
    var marked := MarkDeleted(st.tuples, deletes, tx);
    var st' := Write(st, writes, deletes).0;
    InsertAllInserts(marked, writes, tx);
    WriteKeepsWellFormed(st, writes, deletes);
    if t in writes {
      var v :| v in st'.tuples && v.IsActive() && v.tuple == t;
      CurrentIsActive(st', v);
    } else {
      var i :| 0 <= i < |st.tuples| && st.tuples[i].VisibleAt(st.currentTx) && st.tuples[i].tuple == t;
      CurrentIsActive(st, st.tuples[i]);
      assert marked[i] == st.tuples[i] && st'.tuples[i] == marked[i];
      CurrentIsActive(st', st'.tuples[i]);
    }
  }

  lemma NewSnapshot(st: StoreState, writes: seq<Tuple>, deletes: seq<TupleFilter>)
    requires WellFormed(st) && st.currentTx + 1 < U64_MAX && Write(st, writes, deletes).1.Ok?
    ensures VisibleSet(Write(st, writes, deletes).0.tuples, st.currentTx + 1) == After(VisibleSet(st.tuples, st.currentTx), writes, deletes)
  {
    hide Write, VisibleSet, After, WellFormed;
    var shown := VisibleSet(Write(st, writes, deletes).0.tuples, st.currentTx + 1);
    var meant := After(VisibleSet(st.tuples, st.currentTx), writes, deletes);
    forall t | t in shown ensures t in meant { NewSnapshotShowsOnly(st, writes, deletes, t); }
    forall t | t in meant ensures t in shown { NewSnapshotShowsAll(st, writes, deletes, t); }
  }

  /** One successful write appends one set to the history and changes no other. */
  lemma WriteRefinesHistory(st: StoreState, history: seq<set<Tuple>>, writes: seq<Tuple>, deletes: seq<TupleFilter>)
    requires WellFormed(st) && Represents(st, history) && st.currentTx + 1 < U64_MAX
    requires Write(st, writes, deletes).1.Ok?
    ensures Represents(Write(st, writes, deletes).0, history + [After(history[st.currentTx], writes, deletes)])
  {
    var st' := Write(st, writes, deletes).0;
    WriteIsLater(st, writes, deletes);
    NewSnapshot(st, writes, deletes);
    forall s | 0 <= s <= st.currentTx ensures VisibleSet(st'.tuples, s) == history[s] {
      VisibleSetIsFrozen(st, st', s);
    }
  }

  lemma {:induction false} ScanMembers(rows: seq<StoredTuple>, s: nat, f: TupleFilter, t: Tuple)
    ensures t in Scan(rows, s, f) <==> t in VisibleSet(rows, s) && f.Matches(t)
  {
    if rows != [] {
      var n := |rows| - 1;
      ScanMembers(rows[..n], s, f, t);
      assert rows == rows[..n] + [rows[n]];
    }
  }

  lemma {:induction false} ScanIsDistinct(rows: seq<StoredTuple>, s: nat, f: TupleFilter)
    requires forall i, j | 0 <= i < j < |rows| :: rows[i].tuple == rows[j].tuple ==> rows[i].deletedTx <= rows[j].createdTx
    ensures forall i, j | 0 <= i < j < |Scan(rows, s, f)| :: Scan(rows, s, f)[i] != Scan(rows, s, f)[j]
  {
    if rows != [] {
      var n := |rows| - 1;
      ScanIsDistinct(rows[..n], s, f);
      if rows[n].VisibleAt(s) {
        ScanMembers(rows[..n], s, f, rows[n].tuple);
        forall v | v in rows[..n] && v.VisibleAt(s) ensures v.tuple != rows[n].tuple {
          var i :| 0 <= i < n && rows[i] == v;
        }
        assert rows[n].tuple !in Scan(rows[..n], s, f);
      }
    }
  }

  /** The main result about reads: the matching members of `history[s]`, each once. */
  lemma ReadListsHistory(st: StoreState, history: seq<set<Tuple>>, f: TupleFilter, s: nat)
    requires WellFormed(st) && Represents(st, history) && s <= st.currentTx
    ensures Read(st, f, Some(s), None).Ok?
    ensures var rows := Read(st, f, Some(s), None).value;
            && (forall t :: t in rows <==> t in history[s] && f.Matches(t))
            && (forall i, j | 0 <= i < j < |rows| :: rows[i] != rows[j])
  {
    forall t ensures t in Scan(st.tuples, s, f) <==> t in history[s] && f.Matches(t) {
      ScanMembers(st.tuples, s, f, t);
    }
    ScanIsDistinct(st.tuples, s, f);
  }

  // ----- Whole runs -----

  datatype WriteCall = WriteCall(writes: seq<Tuple>, deletes: seq<TupleFilter>)

  function Run(st: StoreState, calls: seq<WriteCall>): StoreState
    decreases |calls|
  {
    if calls == [] then st else Run(Write(st, calls[0].writes, calls[0].deletes).0, calls[1..])
  }

  /** The sets that the successful writes of a run append, in order. */
  function Appended(last: set<Tuple>, calls: seq<WriteCall>): seq<set<Tuple>>
    decreases |calls|
  {
    if calls == [] then []
    else if exists f | f in calls[0].deletes :: !f.HasAnyField() then Appended(last, calls[1..])
    else
      var next := After(last, calls[0].writes, calls[0].deletes);
      [next] + Appended(next, calls[1..])
  }

  /** The history after one call: one more set, or the same when the call is rejected. */
  function Next(history: seq<set<Tuple>>, c: WriteCall): (h: seq<set<Tuple>>)
    requires history != []
    ensures history <= h
  {
    if exists f | f in c.deletes :: !f.HasAnyField() then history
    else history + [After(history[|history| - 1], c.writes, c.deletes)]
  }

  lemma CallRefinesHistory(st: StoreState, history: seq<set<Tuple>>, c: WriteCall)
    requires WellFormed(st) && Represents(st, history) && st.currentTx + 1 < U64_MAX
    ensures var st' := Write(st, c.writes, c.deletes).0;
            WellFormed(st') && Later(st, st') && Represents(st', Next(history, c)) && st'.currentTx <= st.currentTx + 1
  {
    WriteKeepsWellFormed(st, c.writes, c.deletes);
    WriteIsLater(st, c.writes, c.deletes);
    if Write(st, c.writes, c.deletes).1.Ok? { WriteRefinesHistory(st, history, c.writes, c.deletes); }
  }

  lemma Regroup<T>(xs: seq<T>, x: T, ys: seq<T>)
    ensures (xs + [x]) + ys == xs + ([x] + ys)
  {
  }

  lemma AppendedIsNext(history: seq<set<Tuple>>, calls: seq<WriteCall>)
    requires history != [] && calls != []
    ensures var h := Next(history, calls[0]);
            h + Appended(h[|h| - 1], calls[1..]) == history + Appended(history[|history| - 1], calls)
  {
    hide After, TupleFilter.HasAnyField;
    var next := After(history[|history| - 1], calls[0].writes, calls[0].deletes);
    Regroup(history, next, Appended(next, calls[1..]));
  }

  /** The main result about writes: a run refines the history of its successful calls. */
  lemma {:induction false} RunRefinesHistory(st: StoreState, history: seq<set<Tuple>>, calls: seq<WriteCall>)
    requires WellFormed(st) && Represents(st, history) && st.currentTx + |calls| < U64_MAX
    ensures WellFormed(Run(st, calls)) && Later(st, Run(st, calls))
    ensures Represents(Run(st, calls), history + Appended(history[|history| - 1], calls))
    decreases |calls|
  {
    if calls == [] {
      assert history + [] == history;
    } else {
      var c := calls[0];
      var st' := Write(st, c.writes, c.deletes).0;
      CallRefinesHistory(st, history, c);
      AppendedIsNext(history, calls);
      RunRefinesHistory(st', Next(history, c), calls[1..]);
      LaterTransitive(st, st', Run(st', calls[1..]));
    }
  }

  /** From the empty store: every reachable state is well formed and holds the history of its writes. */
  lemma ReachableStates(calls: seq<WriteCall>)
    requires |calls| < U64_MAX
    ensures WellFormed(Run(EMPTY_STORE, calls))
    ensures Represents(Run(EMPTY_STORE, calls), [{}] + Appended({}, calls))
  {
    RunRefinesHistory(EMPTY_STORE, [{}], calls);
  }

  /** No later run, with successful or rejected writes, changes what an old snapshot returns. */
  lemma OldSnapshotsAreFrozen(st: StoreState, calls: seq<WriteCall>, f: TupleFilter, s: nat, limit: Option<nat>)
    requires WellFormed(st) && s <= st.currentTx && st.currentTx + |calls| < U64_MAX
    ensures Read(Run(st, calls), f, Some(s), limit) == Read(st, f, Some(s), limit)
  {
    var history := seq(st.currentTx + 1, i requires 0 <= i <= st.currentTx => VisibleSet(st.tuples, i));
    RunRefinesHistory(st, history, calls);
    ReadIsFrozen(st, Run(st, calls), f, s, limit);
  }

  /** Two versions of one tuple are never visible at the same snapshot. */
  lemma LifetimesAreDisjoint(calls: seq<WriteCall>, i: nat, j: nat, s: nat)
    requires |calls| < U64_MAX
    requires i < j < |Run(EMPTY_STORE, calls).tuples|
    requires Run(EMPTY_STORE, calls).tuples[i].tuple == Run(EMPTY_STORE, calls).tuples[j].tuple
    ensures !(Run(EMPTY_STORE, calls).tuples[i].VisibleAt(s) && Run(EMPTY_STORE, calls).tuples[j].VisibleAt(s))
  {
    ReachableStates(calls);
  }
}
