/** Relationship tuples, the filters that select them, and storage errors. */
module Tuples {
  import opened Common

  datatype ObjectRef = ObjectRef(objectType: string, objectId: string)

  /** A direct subject has no relation; a userset names one. */
  datatype SubjectRef = SubjectRef(subjectType: string, subjectId: string, subjectRelation: Option<string>)

  datatype Tuple = Tuple(resource: ObjectRef, relation: string, subject: SubjectRef)

  datatype TupleFilter = TupleFilter(
    objectType: Option<string>,
    objectId: Option<string>,
    relation: Option<string>,
    subjectType: Option<string>,
    subjectId: Option<string>,
    subjectRelation: Option<Option<string>>)
  {
    predicate HasAnyField() {
      objectType.Some? || objectId.Some? || relation.Some? || subjectType.Some? || subjectId.Some? || subjectRelation.Some?
    }

    predicate Matches(t: Tuple) {
      && (objectType.Some? ==> objectType.value == t.resource.objectType)
      && (objectId.Some? ==> objectId.value == t.resource.objectId)
      && (relation.Some? ==> relation.value == t.relation)
      && (subjectType.Some? ==> subjectType.value == t.subject.subjectType)
      && (subjectId.Some? ==> subjectId.value == t.subject.subjectId)
      && (subjectRelation.Some? ==> subjectRelation.value == t.subject.subjectRelation)
    }
  }

  const ANY_TUPLE := TupleFilter(None, None, None, None, None, None)

  /** The filter that both engines use for the rows of one relation of one object. */
  function RowsOf(objectType: string, objectId: string, relation: string): TupleFilter {
    TupleFilter(Some(objectType), Some(objectId), Some(relation), None, None, None)
  }

  /** The filter that matches `t` and nothing else. */
  function Exactly(t: Tuple): (f: TupleFilter)
    ensures f.HasAnyField() && forall u: Tuple :: f.Matches(u) <==> u == t
  {
    TupleFilter(Some(t.resource.objectType), Some(t.resource.objectId), Some(t.relation),
                Some(t.subject.subjectType), Some(t.subject.subjectId), Some(t.subject.subjectRelation))
  }

  datatype StorageError =
    | EmptyDeleteFilter
    | SnapshotAhead(requested: nat, current: nat)
}
