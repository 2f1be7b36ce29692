/**
 Reading a store while other callers write to it.  A reader may be busy: before each of its reads
 any number of other writes can land.  Whoever reads at a snapshot that the store has
 already reached cannot tell the difference.
 */
module Isolation {
  import opened Common
  import opened Tuples
  import opened Checking
  import opened Store
  import opened Memory

  /** The reads of an uninterrupted caller: the store stays `st` throughout. */
  function ReaderOf(st: StoreState, snapshot: Option<nat>): Reader {
    f => match Read(st, f, snapshot, None)
      case Ok(rows) => Ok(rows)
      case Err(x) => Err(StorageFailure(x))
  }

  ghost predicate Pinned(base: StoreState, snapshot: Option<nat>) {
    snapshot.Some? && snapshot.value <= base.currentTx
  }

  lemma PinnedReadIsFrozen(a: StoreState, b: StoreState, f: TupleFilter, snapshot: Option<nat>)
    requires Later(a, b) && a.currentTx < U64_MAX && Pinned(a, snapshot)
    ensures ReaderOf(b, snapshot)(f) == ReaderOf(a, snapshot)(f)
  {
    ReadIsFrozen(a, b, f, snapshot.value, None);
  }

  /** Any number of writes by other callers, successful or rejected. */
  method OtherCallers(store: InMemoryStore)
    requires store.Valid()
    modifies store
    ensures store.Valid() && Later(old(store.State()), store.State())
    ensures store.schema == old(store.schema)
    ensures old(store.currentTx) + 1 < U64_MAX ==> store.currentTx + 1 < U64_MAX
  {
    var n: nat :| true;
    for i := 0 to n
      invariant store.Valid() && Later(old(store.State()), store.State())
      invariant store.schema == old(store.schema)
      invariant old(store.currentTx) + 1 < U64_MAX ==> store.currentTx + 1 < U64_MAX
    {
      if store.currentTx + 2 < U64_MAX {
        var writes: seq<Tuple>, deletes: seq<TupleFilter> := *, *;
        ghost var before := store.State();
        var r := store.Write(writes, deletes);
        LaterTransitive(old(store.State()), before, store.State());
      }
    }
  }

  /** The adapter through which the engines read one store at one snapshot. */
  class StoreTupleReader {
    const store: InMemoryStore
    const snapshot: Option<nat>
    const busy: bool

    constructor (store: InMemoryStore, snapshot: Option<nat>, busy: bool)
      ensures this.store == store && this.snapshot == snapshot && this.busy == busy
    {
      this.store, this.snapshot, this.busy := store, snapshot, busy;
    }

    /** The store has moved on from `base` by other callers' writes only, or not at all if nobody else writes. */
    ghost predicate Since(base: StoreState)
      reads store
    {
      && store.Valid() && base.currentTx < U64_MAX && Later(base, store.State())
      && (!busy ==> store.State() == base)
    }

    /** When the reads are promised to be those of an uninterrupted caller. */
    ghost predicate Steady(base: StoreState) {
      !busy || Pinned(base, snapshot)
    }

    method ReadTuples(f: TupleFilter, ghost base: StoreState) returns (r: Result<seq<Tuple>, CheckError>)
      requires Since(base)
      modifies store
      ensures Since(base)
      ensures Steady(base) ==> r == ReaderOf(base, snapshot)(f)
    {
      if busy {
        ghost var before := store.State();
        OtherCallers(store);
        LaterTransitive(base, before, store.State());
      }
      var res := store.Read(f, snapshot, None);
      if Pinned(base, snapshot) { PinnedReadIsFrozen(base, store.State(), f, snapshot); }
      r := match res case Ok(rows) => Ok(rows) case Err(x) => Err(StorageFailure(x));
    }
  }
}
