# Kraalzibar, modelled and proved

Kraalzibar answers authorization questions from stored relationship tuples and a schema of
rewrite rules. This project models its in-memory form, from the evaluator up to the caching
service, and proves what a caller relies on.

- **Meaning.** `Semantics` says what a permission means without evaluating it: it holds when it has a
  finite derivation, and what an exclusion subtracts is looked up in an estimate. Two estimates, what is
  sure and what is possible, are improved together; a permission they agree on is settled, and the
  settled truth is its meaning. `Exactness` proves that the evaluator of `Checking`, with its depth limit
  and its pruning of visited targets, answers every settled permission with its meaning: any schema,
  any tuples, cycles and exclusions included. `Estimates` holds the heart of it, what cutting the arrows
  to one target changes. `Models` proves that a settled store has exactly one stable model (a model that
  holds what can be derived with it), and gives conditions under which everything is settled: a rank of
  the stored objects' permissions that drops through excluded sides, references without cycles, a rank of
  the schema alone, exclusions of stored relations only (then the meaning is the least fixed point).
  `Unstratified` shows permissions that nothing settles, and what check says of them.
  A subject may be a userset: `ExpandExactness` proves the same of expansion for all subjects.
- **Answers.** `Answers` says when the engines answer at all: names resolve, followed tuples lead to
  permissions, the limit suffices; `Outcomes` which part of a rule decides, and that errors tell the truth.
  `Groups` compares the one level of usersets that a relation read follows
  with membership through any number of groups.
- **Two engines.** `Expansion` is the tree-building twin; `ExpandAgreement` proves that both agree for
  all rules and cycles, `LeafCounts` how often each subject occurs, `TreeShapes` that the tree mirrors the
  rule, and `Conversions` that the protobuf message keeps members and leaves.
  `DepthAndOrder`, `DepthBound` and `ExpandDepthBound` prove what the limit and the order of rows can change.
- **Store.** `Store` and the class `Memory.InMemoryStore` prove that the versioned vector refines a
  history of sets and that reached snapshots are frozen; `Filters` what each filter selects. `Isolation` lets other callers write before
  every read: `CheckEngines` and `ExpandEngines` are the engines as loops over such a store.
- **Service.** `ServiceSpec` says what a service without caches answers; the class
  `Service.AuthzService` has both caches and is proved to answer the same over every run. `Freshness`
  says which set of the history each consistency sees, and that callers read their own writes. `Lookup`,
  `Gc`, `Validation`, `Parser` and `SchemaTrees` hold the remaining parts, `ServiceRuns` what runs keep.

Loops appear as methods proved against functions; the functions state what the loops compute, and the
theorems are about them. `Common.AnyOf` and `Common.AllOf` are the results of loops that stop early:
the outcome of every child is listed, and only those up to the deciding one matter.

Where the code and its documentation differ, the code is followed:

- the website says that nested groups work automatically (`website/index.html:1325`); a relation read follows
  a userset exactly one level (`crates/kraalzibar-core/src/engine/check.rs:170-197`), and so does the model.
  `Groups.NestedGroupIsDenied` is an input on which the two differ, `Groups.WhenNestedGroupsWork` the
  exact condition on a store under which they agree, `Groups.FlatteningSuffices` one for a single relation;
- "at least as fresh" reads exactly at the given token (`crates/kraalzibar-server/src/service.rs:455-457`).

Exactness has no converse. Of a permission that the estimates leave open there is no settled truth to
compare an answer with: stable models may disagree on it, as in `Unstratified`, or not exist. And the ranks
are sufficient, not necessary, for being settled: a cycle through an excluded side is harmless when the base
of that exclusion already fails, or when what is excluded fails or holds for another reason.

A lookup of subjects leaves out the excluded side of an exclusion but does not subtract it: who is allowed by
the base is listed even when check denies it (`Lookup.ExcludedRelationPlaysNoPart`), although the
comment at `crates/kraalzibar-server/src/service.rs:480-481` reads as if excluded subjects were removed.

The root of a check is not marked as visited, only arrow targets are; an arrow follows every tuple of
its relation and ignores the subject's relation. Both are modelled as they are.

Writes ask for `current_tx + 1 < u64::MAX`, because the largest value marks active versions; a run of
n requests asks for room for n transactions.

## Model

| member | source | states |
|---|---|---|
| `Exactness.CheckIsExact` | crates/kraalzibar-core/src/engine/check.rs:49-264 | for every schema, over any tuples including cyclic ones and any reader of them: whenever check answers a settled permission, the answer is its meaning; pruning visited targets loses and invents nothing |
| `Exactness.CheckRespectsEstimates` | crates/kraalzibar-core/src/engine/check.rs:49-264 | settled or not, and after any number of improvements: an answer `true` has not been ruled out and an answer `false` has not been established |
| `Exactness.RuleIsExact` | crates/kraalzibar-core/src/engine/check.rs:82-138 | the statement carried through the recursion: under visited set V, `true` has a derivation in every possible estimate and `false` has none in any sure estimate, with the arrows to V cut |
| `Exactness.VerdictStands` | crates/kraalzibar-core/src/engine/check.rs:229-253 | a verdict reached with a target marked as visited is also right with the target unmarked |
| `Exactness.ExclusionIsExact` | crates/kraalzibar-core/src/engine/check.rs:120-131 | base true and excluded false give a possible derivation; base false or excluded true leave no sure one |
| `Exactness.RelationIsExact` | crates/kraalzibar-core/src/engine/check.rs:160-200 | reading a relation answers whether the subject is stored in it directly or in a userset stored in it, followed one level only |
| `Semantics.LeastDerivationAvoidsItself` | crates/kraalzibar-core/src/engine/check.rs:229-231 | why skipping a visited target is harmless: whatever derives a permission can be derived without arriving at that permission again |
| `Semantics.EasesOrArrives` | crates/kraalzibar-core/src/engine/check.rs:229-253 | a derivation survives the cutting of arrows, or contains a strictly smaller derivation of a cut target |
| `Estimates.CuttingKeepsSure` | crates/kraalzibar-core/src/engine/check.rs:229-231 | what is sure stays sure when the arrows to it are cut, exclusions and their nesting included |
| `Estimates.CuttingKeepsRuledOut` | crates/kraalzibar-core/src/engine/check.rs:229-231 | what is ruled out stays ruled out when the arrows to it are cut |
| `Estimates.EstimatesAreConsistent` | crates/kraalzibar-core/src/engine/check.rs:120-131 | nothing is ever both established and ruled out, so the meaning is well defined |
| `Models.MeaningIsStable` | crates/kraalzibar-core/src/engine/check.rs:82-264 | where everything is settled, the meaning is a stable model |
| `Models.StableModelIsUnique` | crates/kraalzibar-core/src/engine/check.rs:82-264 | and the only one |
| `Models.SettledInEveryModel` | crates/kraalzibar-core/src/engine/check.rs:82-264 | a settled permission has the same truth in every stable model, whatever else is unsettled |
| `Models.PermissionIsItsRule` | crates/kraalzibar-core/src/engine/check.rs:94-136 | in a stable model every permission is equivalent to its rule with the permissions it names looked up |
| `Models.StratifiedIsDecided` | crates/kraalzibar-core/src/engine/check.rs:120-131 | a rank of the permissions of objects that never grows along a reference stored in the tuples and drops along one through an excluded side settles everything |
| `Models.AcyclicIsDecided` | crates/kraalzibar-core/src/engine/check.rs:120-131 | tuples whose references do not come back settle everything, for every schema |
| `Models.StratifiedSchemaIsDecided` | crates/kraalzibar-core/src/engine/check.rs:120-131 | a schema whose permissions do not depend on themselves through an excluded side settles everything over any tuples |
| `Models.SubtractingOnlyStoredStratifies` | crates/kraalzibar-core/src/engine/check.rs:120-131 | schemas whose exclusions subtract stored relations only are of that kind |
| `Models.MeaningIsLeast` | crates/kraalzibar-core/src/engine/check.rs:82-264 | for them the meaning is the least fixed point: it lies inside every model closed under the rules |
| `Unstratified.CheckIsNotAModel` | crates/kraalzibar-core/src/engine/check.rs:120-131 | a condition is needed: on a two-document cycle through an excluded arrow check allows both documents, and exactly one is allowed in each model of the two rules |
| `Unstratified.NoRankStratifies` | crates/kraalzibar-core/src/engine/check.rs:120-131 | on those facts neither permission is ever settled, and so no rank exists |
| `Unstratified.StableModelsDisagree` | crates/kraalzibar-core/src/engine/check.rs:120-131 | each of the two documents alone is a stable model, and neither is what check answers |
| `Unstratified.StoredCounterexample` | crates/kraalzibar-core/src/engine/check.rs:120-131 | a schema of the kind the parser accepts and one write to an empty store bring a service into that state |
| `Answers.BothEnginesAnswer` | crates/kraalzibar-core/src/engine/check.rs:49-264 | when names resolve, the stored tuples that arrows follow lead to permissions, reads succeed and the limit suffices, both engines return an answer and the same one |
| `Answers.StrayTupleIsNeverDenied` | crates/kraalzibar-core/src/engine/check.rs:229-246 | a followed tuple that leads to no permission turns every denial into an error |
| `Answers.StrayTupleFails` | crates/kraalzibar-core/src/engine/check.rs:233-240 | the store accepts such tuples: with `doc:1#parent@user:a` alone, `parent->view` fails with an unknown type at every limit |
| `Outcomes.GrantDecidesUnion` | crates/kraalzibar-core/src/engine/check.rs:98-110 | the first child that does not deny decides a union: whatever follows, errors included, plays no part |
| `Outcomes.DenialDecidesIntersection` | crates/kraalzibar-core/src/engine/check.rs:111-119 | the first child that does not grant decides an intersection |
| `Outcomes.BaseDecidesExclusion` | crates/kraalzibar-core/src/engine/check.rs:120-131 | a base that denies or fails decides an exclusion, whether or not the excluded side would fail |
| `Outcomes.CheckErrorsAreTrue` | crates/kraalzibar-core/src/engine/check.rs:49-264 | an error of check names a type, permission or relation that is indeed missing, the limit plus one, or a read that failed |
| `Outcomes.ExpandErrorsAreTrue` | crates/kraalzibar-core/src/engine/expand.rs:62-272 | the same of expand |
| `Outcomes.MissingNameIsReported` | crates/kraalzibar-core/src/engine/check.rs:140-206 | a name that is neither permission nor relation is reported as a missing relation by both engines, or its type as missing |
| `Outcomes.MissingPermissionIsReported` | crates/kraalzibar-core/src/engine/check.rs:55-66 | a goal or arrow target that is no permission is reported as a missing permission by both engines, or its type as missing |
| `Groups.RelationCheckIsOneLevel` | crates/kraalzibar-core/src/engine/check.rs:160-200 | a permission that is a stored relation always gets an answer, and it is membership through at most one userset |
| `Groups.WhenNestedGroupsWork` | crates/kraalzibar-core/src/engine/check.rs:170-197 | one level is membership through any number of groups, for all relations of a store and all subjects, if and only if a second level adds nobody anywhere |
| `Groups.FlatteningSuffices` | crates/kraalzibar-core/src/engine/check.rs:170-197 | for one relation it is, when each userset named inside a userset of the relation is itself stored in the relation |
| `Groups.NestedGroupsInCheck` | crates/kraalzibar-core/src/engine/check.rs:140-206 | check then answers membership through any number of groups |
| `Groups.NestedGroupIsDenied` | crates/kraalzibar-core/src/engine/check.rs:170-197 | a document shared with a group that contains a group that contains alice: check denies alice |
| `DepthBound.PruningBoundsDepth` | crates/kraalzibar-core/src/engine/check.rs:90-92 | with acyclic same-type references of longest chain R and U the targets that arrows can reach, a limit of at least U*(R+1)+R is never exceeded, on cyclic data too |
| `DepthBound.StepStaysShallow` | crates/kraalzibar-core/src/engine/check.rs:229-248 | each newly visited target pays for one step and one more chain of references |
| `ExpandDepthBound.PruningBoundsExpansion` | crates/kraalzibar-core/src/engine/expand.rs:100-102 | the same limit is never exceeded by expand, which walks all branches |
| `DepthAndOrder.CheckDeeper` | crates/kraalzibar-core/src/engine/check.rs:90-92 | a larger limit changes no outcome but the depth error, and that error always carries the limit plus one |
| `DepthAndOrder.ExpandDeeper` | crates/kraalzibar-core/src/engine/expand.rs:100-102 | a larger limit changes no outcome of expand but the depth error, and that error always carries the limit plus one |
| `DepthAndOrder.CheckCongruent` | crates/kraalzibar-core/src/engine/check.rs:49-80 | readers that answer every filter alike give the same outcome, errors included |
| `DepthAndOrder.ExpandCongruent` | crates/kraalzibar-core/src/engine/expand.rs:62-90 | readers that answer every filter alike give the same expansion, errors included |
| `DepthAndOrder.AnswersIgnoreOrder` | crates/kraalzibar-core/src/engine/check.rs:98-263 | for all rules: two answers over the same sets of rows agree, whatever the order and multiplicity of rows and whatever the limits |
| `ExpandAgreement.CheckAgreesWithExpand` | crates/kraalzibar-core/src/engine/expand.rs:62-90 | for all rules and cycles: if expansion succeeds, check succeeds for every subject and equals membership in the tree |
| `ExpandAgreement.RuleAgrees` | crates/kraalzibar-core/src/engine/expand.rs:92-139 | agreement at every rule, depth and visited set |
| `ExpandAgreement.RowAgrees` | crates/kraalzibar-core/src/engine/expand.rs:166-195 | a row lets a subject in exactly when the leaves pushed for it contain that subject |
| `ExpandExactness.ExpandIsExact` | crates/kraalzibar-core/src/engine/expand.rs:62-90 | for every subject, usersets included, and any tuples: a subject with a settled permission is a member of the tree exactly when the permission holds |
| `ExpandExactness.ExpansionIsExact` | crates/kraalzibar-core/src/engine/expand.rs:92-139 | the statement carried through the recursion, for every visited set |
| `ExpandExactness.RelationNodeIsExact` | crates/kraalzibar-core/src/engine/expand.rs:141-207 | the members of a relation node are the direct subjects stored in it and the subjects, usersets included, stored in the usersets that it names |
| `ExpandExactness.RowIsExact` | crates/kraalzibar-core/src/engine/expand.rs:166-195 | a row with a userset stands for what is stored in that userset and not for the userset itself |
| `LeafCounts.ExpandCountsWays` | crates/kraalzibar-core/src/engine/expand.rs:62-272 | every subject occurs in the tree exactly once for each way through names and arrows, never back to a visited target, to a stored row that stands for it |
| `LeafCounts.RowCounts` | crates/kraalzibar-core/src/engine/expand.rs:166-195 | a row has one leaf for a subject it stands for and none for any other |
| `TreeShapes.ExpandMirrorsRule` | crates/kraalzibar-core/src/engine/expand.rs:92-272 | the tree has the connectives and labels of the rule, its children in the order of the rule, and under an arrow only trees of followed targets |
| `Conversions.TranslationKeepsMembers` | crates/kraalzibar-server/src/grpc/conversions.rs:100-158 | the protobuf tree, read by the operation numbers of the protocol and the fields of its subjects, has exactly the members of the expansion, for direct subjects and usersets |
| `Conversions.CheckAgreesWithMessage` | crates/kraalzibar-server/src/grpc/conversions.rs:100-158 | check agrees with membership in the protobuf tree |
| `Conversions.MessageIsExact` | crates/kraalzibar-server/src/grpc/conversions.rs:100-158 | for every subject, usersets included, membership in the message is the meaning of the permission |
| `Conversions.TranslationKeepsCopies` | crates/kraalzibar-server/src/grpc/conversions.rs:100-158 | no leaf is lost or repeated by the translation |
| `Conversions.SubjectRoundTrip` | crates/kraalzibar-server/src/grpc/conversions.rs:19-32 | subjects survive the translation and back, and each field carries what its name says |
| `CheckEngines.CheckEngine.Check` | crates/kraalzibar-core/src/engine/check.rs:49-80 | the running engine returns the outcome of an uninterrupted check; with other callers writing between any two of its reads this still holds for a snapshot the store had reached |
| `CheckEngines.CheckEngine.EvaluateRule` | crates/kraalzibar-core/src/engine/check.rs:82-138 | early-returning loops over children compute the outcome of the rule |
| `CheckEngines.CheckEngine.EvaluateThis` | crates/kraalzibar-core/src/engine/check.rs:140-206 | permission, relation and error branches in the order of the source |
| `CheckEngines.CheckEngine.EvaluateArrow` | crates/kraalzibar-core/src/engine/check.rs:208-264 | the loop over targets with skipping, lookup errors and early return |
| `ExpandEngines.ExpandEngine.Expand` | crates/kraalzibar-core/src/engine/expand.rs:62-90 | the running expansion returns the tree of an uninterrupted one, with the same isolation |
| `ExpandEngines.ExpandEngine.ExpandRule` | crates/kraalzibar-core/src/engine/expand.rs:92-139 | eager evaluation of all children, first error returned |
| `ExpandEngines.ExpandEngine.ExpandChildren` | crates/kraalzibar-core/src/engine/expand.rs:108-121 | the pushing loop of Union and Intersection |
| `ExpandEngines.ExpandEngine.ExpandRows` | crates/kraalzibar-core/src/engine/expand.rs:166-195 | the pushing loop over the rows of a relation, usersets replaced by their stored subjects |
| `ExpandEngines.ExpandEngine.ExpandArrow` | crates/kraalzibar-core/src/engine/expand.rs:209-272 | the pushing loop over targets, visited ones left out |
| `Isolation.StoreTupleReader.ReadTuples` | crates/kraalzibar-server/src/adapter.rs:17-28 | one read, possibly after other writes: pinned or undisturbed reads are those of the starting state |
| `Isolation.OtherCallers` | crates/kraalzibar-storage/src/memory.rs:90-154 | any number of foreign transactions, accepted or rejected, between two reads |
| `StoreReaders.StoredCheckIsExact` | crates/kraalzibar-core/src/engine/check.rs:49-80 | an answer on the store at a snapshot is the meaning of the permission over that snapshot's set of tuples, wherever that set settles it |
| `StoreReaders.StoredCheckIsNeverTooDeep` | crates/kraalzibar-core/src/engine/check.rs:90-92 | the depth bound computed from the tuples of the snapshot: no depth error, other errors remain possible |
| `StoreReaders.StoredCheckReturnsMeaning` | crates/kraalzibar-core/src/engine/check.rs:49-264 | on a store whose names and followed tuples resolve, with that limit, check of a settled permission returns its meaning and no error |
| `StoreReaders.StoredCheckAgreesWithExpand` | crates/kraalzibar-core/src/engine/expand.rs:62-90 | agreement of both engines on a well-formed store, for every snapshot |
| `StoreReaders.StoredExpandIsExact` | crates/kraalzibar-core/src/engine/expand.rs:62-90 | expansion of a store at a snapshot: members by the meaning over the set of that snapshot, and leaves counted by its rows |
| `StoreReaders.PinnedCheckIsFrozen` | crates/kraalzibar-core/src/engine/check.rs:49-80 | a check pinned to a reached snapshot has the same outcome at every later time |
| `Store.RunRefinesHistory` | crates/kraalzibar-storage/src/memory.rs:90-154 | over any run, each accepted write appends (last set minus matched tuples) plus the written ones, rejected writes append nothing, and every snapshot shows its set |
| `Store.WriteRefinesHistory` | crates/kraalzibar-storage/src/memory.rs:90-154 | one accepted write appends one set and leaves the earlier ones |
| `Store.ReadListsHistory` | crates/kraalzibar-storage/src/memory.rs:156-190 | an unlimited read at snapshot k lists exactly the matching members of history[k], each once |
| `Filters.LimitedRead` | crates/kraalzibar-storage/src/memory.rs:156-190 | reads list versions in the order of insertion, none left out; a limit keeps the first ones, as many as it allows |
| `Filters.EachFieldSelects` | crates/kraalzibar-core/src/tuple.rs:160-192 | a filter selects exactly the tuples that each of its set fields agrees with, proved from the law of each field |
| `Filters.NoFieldSelectsAll` | crates/kraalzibar-core/src/tuple.rs:151-192 | the filter without fields selects everything, and no other filter counts as empty |
| `Filters.SubjectIdSelects` | crates/kraalzibar-core/src/tuple.rs:160-192 | setting the subject id keeps, of the tuples selected before, those with that id, whatever else is set |
| `Filters.SubjectRelationSelects` | crates/kraalzibar-core/src/tuple.rs:160-192 | setting the subject relation, to `None` as well, keeps those with that relation |
| `Filters.WriteLaws` | crates/kraalzibar-storage/src/memory.rs:90-154 | of one write call, written tuples are there afterwards even if deleted, and of the others exactly the unselected stay |
| `Filters.DeleteBySubject` | crates/kraalzibar-storage/src/memory.rs:90-154 | deleting by subject type and id removes the tuples with both on every object, and no other |
| `Filters.ReadBySubject` | crates/kraalzibar-storage/src/memory.rs:156-190 | reading by subject type and id returns the tuples with both on every object, and no other |
| `Store.ReachableStates` | crates/kraalzibar-storage/src/memory.rs:59-154 | from the empty store every reachable state has 1 <= created <= current, deleted unset or created < deleted <= current, ordered lifetimes per tuple, and the history of its writes |
| `Store.LifetimesAreDisjoint` | crates/kraalzibar-storage/src/memory.rs:38-40 | two versions of one tuple are never visible together |
| `Store.OldSnapshotsAreFrozen` | crates/kraalzibar-storage/src/memory.rs:156-190 | later runs change neither the sequence nor the error of a read at a reached snapshot, for every filter and limit |
| `Store.WriteKeepsWellFormed` | crates/kraalzibar-storage/src/memory.rs:95-153 | writes keep the lifetimes sound |
| `Store.WriteIsLater` | crates/kraalzibar-storage/src/memory.rs:103-151 | a write only ends active versions and only adds versions from its own transaction on |
| `ObjectIds.ListObjectIdsIsExact` | crates/kraalzibar-storage/src/memory.rs:197-233 | the ids of the visible objects of a type, each once, ascending |
| `ObjectIds.OldObjectListsAreFrozen` | crates/kraalzibar-storage/src/memory.rs:197-233 | that list, cut at any limit, is unchanged by later runs |
| `Sorting.SortedDedupIsAscending` | crates/kraalzibar-storage/src/memory.rs:225-226 | sorting and dropping adjacent repeats leaves each string once in ascending order |
| `Sorting.AtMostIsLexicographic` | crates/kraalzibar-storage/src/memory.rs:225-226 | the order is lexicographic: a prefix first, otherwise the first different character decides |
| `Memory.InMemoryStore.constructor` | crates/kraalzibar-storage/src/memory.rs:71-81 | a new store is empty at transaction 0 |
| `Memory.InMemoryStore.Write` | crates/kraalzibar-storage/src/memory.rs:90-154 | the whole new state, the appended history set, rejection exactly for an empty delete filter, and what stays |
| `Memory.InMemoryStore.MarkAll` | crates/kraalzibar-storage/src/memory.rs:114-116 | the in-place loop ends exactly the selected versions |
| `Memory.InMemoryStore.InsertEach` | crates/kraalzibar-storage/src/memory.rs:118-151 | the loop with its seen-set and active-duplicate test inserts one version for each tuple that has none |
| `Memory.InMemoryStore.IndicesToDelete` | crates/kraalzibar-storage/src/memory.rs:103-109 | the positions of the active versions that some filter matches |
| `Memory.InMemoryStore.Read` | crates/kraalzibar-storage/src/memory.rs:156-190 | refused exactly for snapshots ahead; otherwise the members of the snapshot's history set |
| `Memory.InMemoryStore.Snapshot` | crates/kraalzibar-storage/src/memory.rs:192-195 | the token of the last set of the history, which is what the store shows now |
| `Memory.InMemoryStore.ListObjectIds` | crates/kraalzibar-storage/src/memory.rs:197-233 | collect, sort, dedup and truncate in place |
| `Memory.InMemoryStore.WriteSchema` | crates/kraalzibar-storage/src/memory.rs:237-241 | replaces the text, no tuple changes |
| `Tuples.Exactly` | crates/kraalzibar-storage/src/gc.rs:24-31 | a filter with all fields set matches its tuple and no other, and is never empty |
| `Gc.CycleIsExact` | crates/kraalzibar-storage/src/gc.rs:5-41 | an uninterrupted cycle leaves exactly the tuples whose type and relation the schema defines and counts the others |
| `Gc.CycleIsIdempotent` | crates/kraalzibar-storage/src/gc.rs:5-41 | a second cycle returns 0 and changes nothing |
| `Gc.RunGcCycle` | crates/kraalzibar-storage/src/gc.rs:5-41 | undisturbed it is that cycle; with writes between its steps it deletes exactly the orphans of the state it read, never a tuple with a place in the schema, and returns their number |
| `Gc.OrphanFilters` | crates/kraalzibar-storage/src/gc.rs:14-33 | the loop pushes one exact filter for each orphan |
| `Validation.ValidateSchemaLimits` | crates/kraalzibar-core/src/schema/validation.rs:45-80 | accepted exactly within all limits, otherwise the errors in order |
| `Validation.LimitErrorsAreExact` | crates/kraalzibar-core/src/schema/validation.rs:45-80 | each error names an exceeded limit with its count and bound, and every exceeded limit has one |
| `Validation.DetectBreakingChanges` | crates/kraalzibar-core/src/schema/validation.rs:82-116 | a change is reported exactly when it happened |
| `Validation.DetectRelationChanges` | crates/kraalzibar-core/src/schema/validation.rs:93-111 | the inner loop pushes the changes of one type, in order, onto those already found |
| `Validation.NoTypeChanges` | crates/kraalzibar-core/src/schema/validation.rs:82-116 | nothing is reported exactly when every type and relation is kept with its subject types |
| `Validation.UnbrokenIsTransitive` | crates/kraalzibar-core/src/schema/validation.rs:82-116 | two steps without breaking changes make one |
| `Validation.UnbrokenKeepsTuples` | crates/kraalzibar-storage/src/gc.rs:16-21 | a tuple with a place in the old schema has one in the new |
| `Validation.UnbrokenHistoryKeepsTuples` | crates/kraalzibar-core/src/schema/validation.rs:82-116 | over any history of schema versions without breaking changes, a tuple placed in the first is placed in the last |
| `Parser.ParsesExactly` | crates/kraalzibar-core/src/schema/parser.rs:169-222 | a term list is accepted exactly when one operator is used and `-` at most once; the rule or the error it yields |
| `Parser.PrintAfterParse` | crates/kraalzibar-core/src/schema/parser.rs:169-222 | printing an accepted rule gives back terms and operators |
| `Parser.ParseAfterPrint` | crates/kraalzibar-core/src/schema/parser.rs:169-222 | parsing a printed flat rule gives back the rule |
| `Parser.ParsePermissionExpr` | crates/kraalzibar-core/src/schema/parser.rs:169-222 | the loop over operators and terms, on any parse tree; results are flat |
| `Parser.FlatExpr` | crates/kraalzibar-core/src/schema/parser.rs:199-221 | no accepted Union or Intersection has fewer than two children, and nothing is nested |
| `Parser.ParseDefinition` | crates/kraalzibar-core/src/schema/parser.rs:64-111 | the loop with its seen-sets; names are unique in an accepted definition |
| `Parser.ParseItem` | crates/kraalzibar-core/src/schema/parser.rs:80-104 | one turn of that loop: repeats are detected exactly |
| `Parser.ParseSchema` | crates/kraalzibar-core/src/schema/parser.rs:31-54 | the nested loops; the first error wins and type names are unique |
| `Parser.AcceptedSchemasAreGood` | crates/kraalzibar-core/src/schema/parser.rs:31-111 | accepted schemas have unique names and flat rules, whatever the parse tree |
| `SchemaTrees.SchemaParses` | crates/kraalzibar-core/src/schema/parser.rs:31-222 | for the parse tree of any list of definitions with declarations in any order: the parser yields the schema they spell out, or the first fault, which is a bad expression or a repeated name |
| `SchemaTrees.AcceptedWithoutFaults` | crates/kraalzibar-core/src/schema/parser.rs:31-222 | accepted exactly when no type, relation or permission name is repeated and every expression uses one operator, `-` at most once |
| `SchemaTrees.BodyParses` | crates/kraalzibar-core/src/schema/parser.rs:64-111 | the same of one body: relations and permissions in their order, with their subject types and rules |
| `SchemaTrees.SchemaRoundTrip` | crates/kraalzibar-core/src/schema/parser.rs:31-222 | the text of a good schema parses back to that schema: every type, relation, subject type and rule |
| `Lookup.CollectSubjectsInto` | crates/kraalzibar-server/src/service.rs:462-490 | the recursive walk appends exactly the subjects of the type that some path without an excluded side leads to |
| `Lookup.SubjectListIsComplete` | crates/kraalzibar-server/src/service.rs:342-371 | every allowed subject is listed; expansions made of unions list exactly the allowed direct subjects |
| `Lookup.SubjectListIsExact` | crates/kraalzibar-server/src/service.rs:462-490 | for every tree and subject: listed are exactly the leaves of the asked type on a path from the root that enters no excluded side |
| `Lookup.ExcludedRelationPlaysNoPart` | crates/kraalzibar-server/src/service.rs:479-483 | of one relation minus another the list is the first relation: whoever is only in the second is not listed, and whoever is in both still is |
| `Lookup.SubjectListShape` | crates/kraalzibar-server/src/service.rs:361-366 | sorted by type and id, no two equal neighbours, same members |
| `Lookup.ExpansionShape` | crates/kraalzibar-core/src/engine/expand.rs:115-121 | expansions of parsed schemas contain no empty intersection |
| `Lookup.NothingWithoutRows` | crates/kraalzibar-core/src/engine/check.rs:94-136 | an object without tuples is never allowed under parsed rules |
| `Lookup.GatherCuts` | crates/kraalzibar-server/src/service.rs:395-413 | the ids found are the allowed ones of a checked prefix, cut exactly at the limit |
| `Lookup.GatherIsExact` | crates/kraalzibar-server/src/service.rs:392-413 | fewer than limit means all: check allows an id exactly when it was found |
| `Outcomes.GatherFailsAtFirst` | crates/kraalzibar-server/src/service.rs:395-413 | a lookup fails with the first check that fails before the limit is met |
| `ServiceRuns.LookupResourcesIsExact` | crates/kraalzibar-server/src/service.rs:374-419 | ascending allowed ids, at most the given limit or else 1000, nothing allowed skipped, and complete when shorter than the limit |
| `ServiceRuns.LookupSubjectsIsComplete` | crates/kraalzibar-server/src/service.rs:342-371 | every subject of the type that check allows at the snapshot is listed, and listed are exactly the leaves outside excluded sides, by ascending id and without equal neighbours; expansions made of unions list exactly the allowed direct subjects |
| `Freshness.ServedCheckIsExact` | crates/kraalzibar-server/src/service.rs:163-238 | over the history of the tenant's store: an answer at full consistency or at least latency is over the last set, one at a token over the set of that token, it reports that token (none at least latency), and for a settled permission it is the meaning over that set |
| `Freshness.ServedErrorsAreTrue` | crates/kraalzibar-server/src/service.rs:163-238 | an error of check is about the schema, the configured limit, or a token ahead of the store |
| `Freshness.ServedExpandIsExact` | crates/kraalzibar-server/src/service.rs:241-264 | the same set and token for an expansion: its members by the meaning and its leaves counted by the rows of that set |
| `Freshness.ServedSubjectsAreComplete` | crates/kraalzibar-server/src/service.rs:342-371 | the same for a list of subjects: every subject, userset or not, with a permission settled as holding is listed |
| `Freshness.ServedResourcesAreExact` | crates/kraalzibar-server/src/service.rs:374-419 | the same for a list of resources: settled ids that are found hold, and a list under the limit has all that hold |
| `Freshness.ServedReadIsExact` | crates/kraalzibar-server/src/service.rs:281-292 | the same for a read: the selected tuples of that set, each once, cut by the limit; a token ahead of the store is refused |
| `Freshness.WriteReportsItsSet` | crates/kraalzibar-server/src/service.rs:267-278 | an accepted write reports the token of the set it appends to the history; refused exactly for an empty delete filter |
| `Freshness.ReadYourWrites` | crates/kraalzibar-server/src/service.rs:449-459 | after a write answered with token n, checks at full consistency and at n are over exactly what that write left |
| `Freshness.ReadYourWritesLater` | crates/kraalzibar-server/src/service.rs:449-459 | and checks at a reached token stay over its set after any further run of all tenants |
| `Freshness.WrittenSchemaIsServed` | crates/kraalzibar-server/src/service.rs:295-333 | the text of a good schema, once accepted, is read back verbatim and is the schema that later checks use |
| `Freshness.WriteSchemaIsExact` | crates/kraalzibar-server/src/service.rs:295-333 | a schema write ends with the first of syntax, limits and unforced breaking changes, each reported exactly, or stores the text; force lets breaking changes in and reports them |
| `Service.AuthzService.SnapshotFor` | crates/kraalzibar-server/src/service.rs:444-459 | full consistency asks the store for its current token; tokens pass through; least latency has none |
| `ServiceRuns.FutureSnapshotsAreRefused` | crates/kraalzibar-server/src/service.rs:174-216 | a check at a snapshot that does not exist yet fails, so it cannot be cached and turn wrong |
| `ServiceRuns.RunKeepsSoundWorld` | crates/kraalzibar-server/src/service.rs:295-333 | after any run every stored schema text parses within the limits |
| `ServiceRuns.UnforcedRunKeepsPlaces` | crates/kraalzibar-server/src/service.rs:312-320 | no run without forced schema writes turns a tuple into an orphan |
| `ServiceRuns.UnforcedRunKeepsData` | crates/kraalzibar-storage/src/gc.rs:5-41 | over a run without forced schema writes, whose collections use the tenant's current schema, a visible tuple with a place in the schema stays visible unless a delete filter names it |
| `ServiceRuns.TenantsAreIndependent` | crates/kraalzibar-server/src/service.rs:100-109 | without caches: erasing all other tenants from a run changes neither a tenant's responses nor its store; `Service.AuthzService.Serve` carries it to the service with its shared caches |
| `Service.InMemoryStoreFactory.ForTenant` | crates/kraalzibar-storage/src/memory.rs:271-274 | the tenant's own store, created empty on first use, never shared |
| `Service.AuthzService.LoadSchemaCached` | crates/kraalzibar-server/src/service.rs:421-442 | cached or not, the schema of the stored text |
| `Service.AuthzService.CheckPermission` | crates/kraalzibar-server/src/service.rs:163-238 | the answer without caches; no store changes; the caches stay true |
| `Service.AuthzService.CheckAtSnapshot` | crates/kraalzibar-server/src/service.rs:174-216 | hit or miss, the computed answer; only successful answers at explicit snapshots enter the cache |
| `Service.AuthzService.ExpandPermissionTree` | crates/kraalzibar-server/src/service.rs:241-264 | the tree or error that a service without caches returns; no store changes |
| `Service.AuthzService.WriteRelationships` | crates/kraalzibar-server/src/service.rs:267-278 | the token or the error of the store's write and its new state; the schema cache stays true and the check cache is emptied |
| `Service.AuthzService.ReadRelationships` | crates/kraalzibar-server/src/service.rs:281-292 | the read at the resolved snapshot |
| `Service.AuthzService.WriteSchema` | crates/kraalzibar-server/src/service.rs:295-333 | rejected for the first of syntax, limits and unforced breaking changes, otherwise stored; both caches are true of the new text |
| `Service.AuthzService.ReadSchema` | crates/kraalzibar-server/src/service.rs:336-339 | the stored text |
| `Service.AuthzService.LookupSubjects` | crates/kraalzibar-server/src/service.rs:342-371 | with caches in place, the sorted and deduplicated subjects of the uncached expansion |
| `Service.AuthzService.LookupResources` | crates/kraalzibar-server/src/service.rs:374-419 | with caches in place, the ids that uncached checks at the resolved snapshot gather |
| `Service.AuthzService.GatherAllowed` | crates/kraalzibar-server/src/service.rs:392-413 | the loop with its limit and first error |
| `Service.AuthzService.CollectGarbage` | crates/kraalzibar-storage/src/gc.rs:5-41 | a cycle behind the service's back leaves its caches true |
| `Service.CachesSurvive` | crates/kraalzibar-server/src/service.rs:111-118 | cache entries stay true when tuples change by any route, because reached snapshots are frozen |
| `Service.AuthzService.Serve` | crates/kraalzibar-server/src/service.rs:163-333 | over any run of requests and evictions every response is the one of the service without caches, and each tenant gets the responses and the store it would have if it were alone |

## Left out

- Isolation.StoreTupleReader.ReadTuples: promises nothing for reads without a snapshot, or ahead of the store, while others write; the source promises nothing there either.
- Exactness.CheckIsExact: says nothing of a permission that no number of improvements settles; there the answer depends on the path, as `Unstratified` shows, and `Exactness.CheckRespectsEstimates` is all that remains.
- Lookup.SubjectListShape: equal entries that are not neighbours are possible when usersets occur, because the sort key ignores the relation of a subject.
- Service.AuthzService.Serve: treats each service call as one atomic step; a schema write landing between the schema load and the cache insert of one check is outside the claim.
- Sorting.Sort: stands for the library's stable sort; only its order, stability and contents are used.
- The Postgres backend, including purging: its behaviour lives in SQL text and in a sequence outside transactions.
- The text of the schema language: the grammar is an arbitrary function from texts to parse trees or messages.
- The wording of storage, syntax and validation messages: errors are modelled by their kind and fields.
- gRPC and REST handlers, clients, TLS, telemetry, audit events, configuration, API keys, metrics and histograms.
- Locks, tasks and cache internals: each locked store operation is atomic, clearing a cache empties its map, and expiry removes arbitrary entries.
- `max_concurrent_branches`: configured, but never read by the engine.
- The width of depth counters: depths are unbounded naturals, so a limit of `usize::MAX` does not wrap.
