/** What the engines' theorems say of a store read at one of its snapshots. */
module StoreReaders {
  import opened Common
  import opened Tuples
  import opened Schemas
  import opened Checking
  import opened Expansion
  import opened ExpandAgreement
  import opened DepthAndOrder
  import opened DepthBound
  import opened Semantics
  import opened Models
  import opened Exactness
  import opened Answers
  import opened ExpandExactness
  import opened LeafCounts
  import opened Store
  import opened Isolation

  /** A read at a snapshot, or at the present when none is given. */
  lemma StoreReaderReads(st: StoreState, history: seq<set<Tuple>>, snapshot: Option<nat>, f: TupleFilter)
    requires WellFormed(st) && Represents(st, history)
    ensures var r := ReaderOf(st, snapshot)(f);
            if Resolve(st, snapshot).Err? then r == Err(StorageFailure(Resolve(st, snapshot).error))
            else r.Ok? && forall t :: t in r.value <==> t in history[Resolve(st, snapshot).value] && f.Matches(t)
  {
    if Resolve(st, snapshot).Ok? { ReadListsHistory(st, history, f, Resolve(st, snapshot).value); }
  }

  lemma StoreReaderIsExact(st: StoreState, history: seq<set<Tuple>>, snapshot: Option<nat>)
    requires WellFormed(st) && Represents(st, history) && Resolve(st, snapshot).Ok?
    ensures Reads(ReaderOf(st, snapshot), history[Resolve(st, snapshot).value])
    ensures ReadsWithin(ReaderOf(st, snapshot), history[Resolve(st, snapshot).value])
    ensures Answering(ReaderOf(st, snapshot), history[Resolve(st, snapshot).value])
  {
    forall f ensures ReaderOf(st, snapshot)(f).Ok?
      && forall t :: t in ReaderOf(st, snapshot)(f).value <==> t in history[Resolve(st, snapshot).value] && f.Matches(t)
    {
      StoreReaderReads(st, history, snapshot, f);
    }
  }

  lemma StoreReaderIsCoherent(st: StoreState, snapshot: Option<nat>)
    requires WellFormed(st)
    ensures Coherent(ReaderOf(st, snapshot))
  {
    var history := seq(st.currentTx + 1, i requires 0 <= i <= st.currentTx => VisibleSet(st.tuples, i));
    if Resolve(st, snapshot).Ok? {
      StoreReaderIsExact(st, history, snapshot);
      AnsweringIsCoherent(ReaderOf(st, snapshot), history[Resolve(st, snapshot).value]);
    }
  }

  /** End to end: where the tuples of the snapshot settle the permission, an answer is the settled one. */
  lemma StoredCheckIsExact(st: StoreState, history: seq<set<Tuple>>, snapshot: Option<nat>, schema: Schema, maxDepth: nat, goal: Key, who: Principal)
    requires WellFormed(st) && Represents(st, history) && Resolve(st, snapshot).Ok?
    requires Decided(Facts(schema, history[Resolve(st, snapshot).value], who.AsSubject()), goal)
    requires Check(Engine(ReaderOf(st, snapshot), schema, maxDepth), goal, who).Ok?
    ensures Check(Engine(ReaderOf(st, snapshot), schema, maxDepth), goal, who).value
        <==> Holds(Facts(schema, history[Resolve(st, snapshot).value], who.AsSubject()), goal)
  {
    StoreReaderIsExact(st, history, snapshot);
    CheckIsExact(Engine(ReaderOf(st, snapshot), schema, maxDepth), Facts(schema, history[Resolve(st, snapshot).value], who.AsSubject()), goal, who);
  }

  lemma StoreReaderLists(st: StoreState, history: seq<set<Tuple>>, snapshot: Option<nat>)
    requires WellFormed(st) && Represents(st, history) && Resolve(st, snapshot).Ok?
    ensures Lists(ReaderOf(st, snapshot), history[Resolve(st, snapshot).value])
  {
    StoreReaderIsExact(st, history, snapshot);
    forall f ensures forall i, j | 0 <= i < j < |ReaderOf(st, snapshot)(f).value| :: ReaderOf(st, snapshot)(f).value[i] != ReaderOf(st, snapshot)(f).value[j] {
      ReadListsHistory(st, history, f, Resolve(st, snapshot).value);
    }
  }

  /** The tree of a store at a snapshot: its members are those of the settled meaning, and each has one leaf for each way to a stored row. */
  lemma StoredExpandIsExact(st: StoreState, history: seq<set<Tuple>>, snapshot: Option<nat>, schema: Schema, maxDepth: nat, goal: Key, s: SubjectRef)
    requires WellFormed(st) && Represents(st, history) && Resolve(st, snapshot).Ok?
    requires Expand(Engine(ReaderOf(st, snapshot), schema, maxDepth), goal).Ok?
    ensures schema.RuleOf(goal.objectType, goal.permission).Some?
    ensures var tree := Expand(Engine(ReaderOf(st, snapshot), schema, maxDepth), goal).value;
            var db := history[Resolve(st, snapshot).value];
            && (Decided(Facts(schema, db, s), goal) ==> (Member(tree, s) <==> Holds(Facts(schema, db, s), goal)))
            && Copies(tree, s) == Ways(schema, db, maxDepth + 1, schema.RuleOf(goal.objectType, goal.permission).value, goal.objectType, goal.objectId, {}, s)
  {
    hide Member, Copies, Ways, Decided, Holds;
    var e := Engine(ReaderOf(st, snapshot), schema, maxDepth);
    var db := history[Resolve(st, snapshot).value];
    StoreReaderLists(st, history, snapshot);
    ExpandCountsWays(e, db, goal, s);
    if Decided(Facts(schema, db, s), goal) { ExpandIsExact(e, Facts(schema, db, s), goal); }
  }

  /** With a limit that the tuples of the snapshot bound, no depth error is possible; other errors are. */
  lemma StoredCheckIsNeverTooDeep(st: StoreState, history: seq<set<Tuple>>, snapshot: Option<nat>, schema: Schema, maxDepth: nat,
                                  level: (string, string) -> nat, r: nat, goal: Key, who: Principal)
    requires WellFormed(st) && Represents(st, history) && Resolve(st, snapshot).Ok?
    requires Levels(schema, level, r)
    requires maxDepth >= |ArrowKeys(schema, history[Resolve(st, snapshot).value])| * (r + 1) + r
    ensures !TooDeep(Check(Engine(ReaderOf(st, snapshot), schema, maxDepth), goal, who))
  {
    StoreReaderIsExact(st, history, snapshot);
    PruningBoundsDepth(Engine(ReaderOf(st, snapshot), schema, maxDepth), history[Resolve(st, snapshot).value], level, r, goal, who);
  }

  /** When also all names and stored targets resolve, check returns the meaning and nothing else. */
  lemma StoredCheckReturnsMeaning(st: StoreState, history: seq<set<Tuple>>, snapshot: Option<nat>, schema: Schema, maxDepth: nat,
                                  level: (string, string) -> nat, r: nat, goal: Key, who: Principal)
    requires WellFormed(st) && Represents(st, history) && Resolve(st, snapshot).Ok?
    requires AllResolve(schema, history[Resolve(st, snapshot).value]) && schema.RuleOf(goal.objectType, goal.permission).Some?
    requires Levels(schema, level, r) && maxDepth >= |ArrowKeys(schema, history[Resolve(st, snapshot).value])| * (r + 1) + r
    requires Decided(Facts(schema, history[Resolve(st, snapshot).value], who.AsSubject()), goal)
    ensures Check(Engine(ReaderOf(st, snapshot), schema, maxDepth), goal, who)
         == Ok(Meaning(Facts(schema, history[Resolve(st, snapshot).value], who.AsSubject()))(goal))
  {
    var e := Engine(ReaderOf(st, snapshot), schema, maxDepth);
    StoreReaderIsExact(st, history, snapshot);
    BothEnginesAnswer(e, history[Resolve(st, snapshot).value], level, r, goal, who);
    StoredCheckIsExact(st, history, snapshot, schema, maxDepth, goal, who);
  }

  /** Expansion of a store at a snapshot and check of the same store at the same snapshot agree. */
  lemma StoredCheckAgreesWithExpand(st: StoreState, snapshot: Option<nat>, schema: Schema, maxDepth: nat, goal: Key, who: Principal)
    requires WellFormed(st)
    requires Expand(Engine(ReaderOf(st, snapshot), schema, maxDepth), goal).Ok?
    ensures var e := Engine(ReaderOf(st, snapshot), schema, maxDepth);
            Check(e, goal, who) == Ok(Member(Expand(e, goal).value, who.AsSubject()))
  {
    StoreReaderIsCoherent(st, snapshot);
    CheckAgreesWithExpand(Engine(ReaderOf(st, snapshot), schema, maxDepth), goal, who);
  }

  lemma PinnedReaderDeeper(a: StoreState, b: StoreState, snapshot: Option<nat>, schema: Schema, maxDepth: nat)
    requires Later(a, b) && a.currentTx < U64_MAX && Pinned(a, snapshot)
    ensures Deeper(Engine(ReaderOf(a, snapshot), schema, maxDepth), Engine(ReaderOf(b, snapshot), schema, maxDepth))
    ensures Deeper(Engine(ReaderOf(b, snapshot), schema, maxDepth), Engine(ReaderOf(a, snapshot), schema, maxDepth))
  {
    forall f ensures ReaderOf(b, snapshot)(f) == ReaderOf(a, snapshot)(f) { PinnedReadIsFrozen(a, b, f, snapshot); }
  }

  /** A check pinned to an old snapshot gives the same outcome, errors included, at any later time. */
  lemma PinnedCheckIsFrozen(a: StoreState, b: StoreState, snapshot: Option<nat>, schema: Schema, maxDepth: nat, goal: Key, who: Principal)
    requires Later(a, b) && a.currentTx < U64_MAX && Pinned(a, snapshot)
    ensures Check(Engine(ReaderOf(b, snapshot), schema, maxDepth), goal, who)
         == Check(Engine(ReaderOf(a, snapshot), schema, maxDepth), goal, who)
  {
    PinnedReaderDeeper(a, b, snapshot, schema, maxDepth);
    CheckCongruent(Engine(ReaderOf(a, snapshot), schema, maxDepth), Engine(ReaderOf(b, snapshot), schema, maxDepth), goal, who);
  }
}
