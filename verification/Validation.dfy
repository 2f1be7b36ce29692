/** Schema limits and breaking changes between schema versions. */
module Validation {
  import opened Common
  import opened Tuples
  import opened Schemas

  datatype SchemaLimits = SchemaLimits(maxTypes: nat, maxRelationsPerType: nat, maxPermissionsPerType: nat)

  datatype ValidationError =
    | TooManyTypes(count: nat, limit: nat)
    | TooManyRelations(typeName: string, count: nat, limit: nat)
    | TooManyPermissions(typeName: string, count: nat, limit: nat)

  datatype BreakingChange =
    | TypeRemoved(typeName: string)
    | RelationRemoved(typeName: string, relation: string)
    | SubjectTypesChanged(typeName: string, relation: string)

  // ----- Limits -----

  ghost predicate WithinLimits(schema: Schema, limits: SchemaLimits) {
    && |schema.types| <= limits.maxTypes
    && forall td | td in schema.types ::
      |td.relations| <= limits.maxRelationsPerType && |td.permissions| <= limits.maxPermissionsPerType
  }

  function LimitErrorsIn(td: TypeDefinition, limits: SchemaLimits): seq<ValidationError> {
    (if |td.relations| > limits.maxRelationsPerType then [TooManyRelations(td.name, |td.relations|, limits.maxRelationsPerType)] else [])
    + (if |td.permissions| > limits.maxPermissionsPerType then [TooManyPermissions(td.name, |td.permissions|, limits.maxPermissionsPerType)] else [])
  }

  function LimitErrorsOf(types: seq<TypeDefinition>, limits: SchemaLimits): seq<ValidationError> {
    if types == [] then []
    else
      var n := |types| - 1;
      LimitErrorsOf(types[..n], limits) + LimitErrorsIn(types[n], limits)
  }

  lemma OneMoreTypeToLimit(types: seq<TypeDefinition>, limits: SchemaLimits, i: nat)
    requires i < |types|
    ensures LimitErrorsOf(types[..i + 1], limits) == LimitErrorsOf(types[..i], limits) + LimitErrorsIn(types[i], limits)
  {
    hide LimitErrorsIn;
    assert types[..i + 1][..i] == types[..i];
  }

  /** The two tests of the loop body. */
  method ValidateType(td: TypeDefinition, limits: SchemaLimits) returns (errors: seq<ValidationError>)
    ensures errors == LimitErrorsIn(td, limits)
  {
    errors := [];
    if |td.relations| > limits.maxRelationsPerType {
      errors := errors + [TooManyRelations(td.name, |td.relations|, limits.maxRelationsPerType)];
    }
    if |td.permissions| > limits.maxPermissionsPerType {
      errors := errors + [TooManyPermissions(td.name, |td.permissions|, limits.maxPermissionsPerType)];
    }
  }

  function LimitErrors(schema: Schema, limits: SchemaLimits): seq<ValidationError> {
    (if |schema.types| > limits.maxTypes then [TooManyTypes(|schema.types|, limits.maxTypes)] else [])
    + LimitErrorsOf(schema.types, limits)
  }

  method ValidateSchemaLimits(schema: Schema, limits: SchemaLimits) returns (r: Result<(), seq<ValidationError>>)
    ensures r.Ok? <==> WithinLimits(schema, limits)
    ensures r == if LimitErrors(schema, limits) == [] then Ok(()) else Err(LimitErrors(schema, limits))
  {
    hide LimitErrorsIn, WithinLimits;
    var errors := [];
    if |schema.types| > limits.maxTypes {
      errors := errors + [TooManyTypes(|schema.types|, limits.maxTypes)];
    }
    ghost var first := errors;
    for i := 0 to |schema.types|
      invariant errors == first + LimitErrorsOf(schema.types[..i], limits)
    {
      OneMoreTypeToLimit(schema.types, limits, i);
      var found := ValidateType(schema.types[i], limits);
      errors := errors + found;
    }
    assert schema.types[..|schema.types|] == schema.types;
    NoLimitErrors(schema, limits);
    assert errors == LimitErrors(schema, limits);
    r := if errors == [] then Ok(()) else Err(errors);
  }

  lemma {:induction false} NoLimitErrorsOf(types: seq<TypeDefinition>, limits: SchemaLimits)
    ensures LimitErrorsOf(types, limits) == [] <==>
              forall td | td in types :: |td.relations| <= limits.maxRelationsPerType && |td.permissions| <= limits.maxPermissionsPerType
  {
    if types != [] {
      var n := |types| - 1;
      NoLimitErrorsOf(types[..n], limits);
      assert types == types[..n] + [types[n]];
    }
  }

  lemma {:induction false} LimitErrorsOfTypes(types: seq<TypeDefinition>, limits: SchemaLimits, x: ValidationError)
    ensures x in LimitErrorsOf(types, limits) <==> exists td | td in types :: x in LimitErrorsIn(td, limits)
  {
    hide LimitErrorsIn;
    if types != [] {
      var n := |types| - 1;
      LimitErrorsOfTypes(types[..n], limits, x);
      assert forall td :: td in types <==> td in types[..n] || td == types[n];
    }
  }

  /** Each error names a limit that is exceeded, with the count and the limit; none is left out. */
  lemma LimitErrorsAreExact(schema: Schema, limits: SchemaLimits, x: ValidationError)
    ensures x in LimitErrors(schema, limits) <==>
              match x
              case TooManyTypes(count, limit) => count == |schema.types| && limit == limits.maxTypes && count > limit
              case TooManyRelations(typeName, count, limit) =>
                exists td | td in schema.types && td.name == typeName :: count == |td.relations| && limit == limits.maxRelationsPerType && count > limit
              case TooManyPermissions(typeName, count, limit) =>
                exists td | td in schema.types && td.name == typeName :: count == |td.permissions| && limit == limits.maxPermissionsPerType && count > limit
  {
    hide LimitErrorsOf;
    LimitErrorsOfTypes(schema.types, limits, x);
  }

  lemma NoLimitErrors(schema: Schema, limits: SchemaLimits)
    ensures LimitErrors(schema, limits) == [] <==> WithinLimits(schema, limits)
  {
    NoLimitErrorsOf(schema.types, limits);
  }

  // ----- Breaking changes -----

  function RelationChange(typeName: string, rel: RelationDef, news: seq<RelationDef>): seq<BreakingChange> {
    match FindRelation(news, rel.name)
    case None => [RelationRemoved(typeName, rel.name)]
    case Some(now) => if rel.subjectTypes != now.subjectTypes then [SubjectTypesChanged(typeName, rel.name)] else []
  }

  function RelationChanges(typeName: string, olds: seq<RelationDef>, news: seq<RelationDef>): seq<BreakingChange> {
    if olds == [] then []
    else
      var n := |olds| - 1;
      RelationChanges(typeName, olds[..n], news) + RelationChange(typeName, olds[n], news)
  }

  function TypeChange(td: TypeDefinition, new_: Schema): seq<BreakingChange> {
    match new_.GetType(td.name)
    case None => [TypeRemoved(td.name)]
    case Some(now) => RelationChanges(td.name, td.relations, now.relations)
  }

  function TypeChanges(olds: seq<TypeDefinition>, new_: Schema): seq<BreakingChange> {
    if olds == [] then []
    else
      var n := |olds| - 1;
      TypeChanges(olds[..n], new_) + TypeChange(olds[n], new_)
  }

  lemma OneMoreRelation(typeName: string, olds: seq<RelationDef>, news: seq<RelationDef>, j: nat)
    requires j < |olds|
    ensures RelationChanges(typeName, olds[..j + 1], news)
         == RelationChanges(typeName, olds[..j], news) + RelationChange(typeName, olds[j], news)
  {
    assert olds[..j + 1][..j] == olds[..j];
  }

  lemma OneMoreType(olds: seq<TypeDefinition>, new_: Schema, i: nat)
    requires i < |olds|
    ensures TypeChanges(olds[..i + 1], new_) == TypeChanges(olds[..i], new_) + TypeChange(olds[i], new_)
  {
    assert olds[..i + 1][..i] == olds[..i];
  }

  /** The change `c` really happened between the two versions. */
  ghost predicate Happened(old_: Schema, new_: Schema, c: BreakingChange) {
    exists td | td in old_.types && td.name == c.typeName :: HappenedTo(td, new_, c)
  }

  ghost predicate HappenedTo(td: TypeDefinition, new_: Schema, c: BreakingChange) {
    var found := new_.GetType(td.name);
    match c
    case TypeRemoved(_) => found.None?
    case RelationRemoved(_, relation) =>
      found.Some? && exists rel | rel in td.relations && rel.name == relation :: found.value.GetRelation(relation).None?
    case SubjectTypesChanged(_, relation) =>
      found.Some? && exists rel | rel in td.relations && rel.name == relation ::
        var now := found.value.GetRelation(relation); now.Some? && now.value.subjectTypes != rel.subjectTypes
  }

  method DetectBreakingChanges(old_: Schema, new_: Schema) returns (changes: seq<BreakingChange>)
    ensures changes == TypeChanges(old_.types, new_)
    ensures forall c :: c in changes <==> Happened(old_, new_, c)
  {
    hide TypeChanges, RelationChanges, HappenedTo;
    changes := [];
    NoTypesNoChanges(new_);
    assert old_.types[..0] == [];
    for i := 0 to |old_.types|
      invariant changes == TypeChanges(old_.types[..i], new_)
    {
      var oldType := old_.types[i];
      OneMoreType(old_.types, new_, i);
      var newType := new_.GetType(oldType.name);
      match newType
      case None => changes := changes + [TypeRemoved(oldType.name)];
      case Some(nt) => changes := DetectRelationChanges(changes, oldType, nt);
    }
    assert old_.types[..|old_.types|] == old_.types;
    forall c ensures c in changes <==> Happened(old_, new_, c) { TypeChangesHappened(old_.types, new_, c); }
  }

  /** The inner loop: it pushes the changes of one type onto those found before. */
  method DetectRelationChanges(before: seq<BreakingChange>, oldType: TypeDefinition, nt: TypeDefinition) returns (changes: seq<BreakingChange>)
    ensures changes == before + RelationChanges(oldType.name, oldType.relations, nt.relations)
  {
    hide RelationChanges;
    changes := before;
    NoRelationsNoChanges(oldType.name, nt.relations);
    assert oldType.relations[..0] == [];
    for j := 0 to |oldType.relations|
      invariant changes == before + RelationChanges(oldType.name, oldType.relations[..j], nt.relations)
    {
      var oldRel := oldType.relations[j];
      OneMoreRelation(oldType.name, oldType.relations, nt.relations, j);
      var newRel := FindRelation(nt.relations, oldRel.name);
      if newRel.None? {
        changes := changes + [RelationRemoved(oldType.name, oldRel.name)];
      } else if oldRel.subjectTypes != newRel.value.subjectTypes {
        changes := changes + [SubjectTypesChanged(oldType.name, oldRel.name)];
      }
    }
    assert oldType.relations[..|oldType.relations|] == oldType.relations;
  }

  lemma NoRelationsNoChanges(typeName: string, news: seq<RelationDef>)
    ensures RelationChanges(typeName, [], news) == []
  {
  }

  lemma NoTypesNoChanges(new_: Schema)
    ensures TypeChanges([], new_) == []
  {
  }

  /** `c` says how the relation `rel` of type `typeName` changed. */
  ghost predicate RelationHappened(typeName: string, rel: RelationDef, news: seq<RelationDef>, c: BreakingChange) {
    && c.typeName == typeName && !c.TypeRemoved? && c.relation == rel.name
    && match FindRelation(news, rel.name)
       case None => c.RelationRemoved?
       case Some(now) => c.SubjectTypesChanged? && now.subjectTypes != rel.subjectTypes
  }

  lemma RelationChangeHappened(typeName: string, rel: RelationDef, news: seq<RelationDef>, c: BreakingChange)
    ensures c in RelationChange(typeName, rel, news) <==> RelationHappened(typeName, rel, news, c)
  {
  }

  lemma {:induction false} RelationChangesHappened(typeName: string, olds: seq<RelationDef>, news: seq<RelationDef>, c: BreakingChange)
    ensures c in RelationChanges(typeName, olds, news) <==> exists rel | rel in olds :: RelationHappened(typeName, rel, news, c)
  {
    hide RelationChange, RelationHappened;
    if olds != [] {
      var n := |olds| - 1;
      RelationChangesHappened(typeName, olds[..n], news, c);
      RelationChangeHappened(typeName, olds[n], news, c);
      assert forall rel :: rel in olds <==> rel in olds[..n] || rel == olds[n];
    }
  }

  lemma TypeChangeHappened(td: TypeDefinition, new_: Schema, c: BreakingChange)
    ensures c in TypeChange(td, new_) <==> td.name == c.typeName && HappenedTo(td, new_, c)
  {
    hide RelationChanges;
    var found := new_.GetType(td.name);
    if found.Some? { RelationChangesHappened(td.name, td.relations, found.value.relations, c); }
  }

  lemma {:induction false} TypeChangesHappened(olds: seq<TypeDefinition>, new_: Schema, c: BreakingChange)
    ensures c in TypeChanges(olds, new_) <==> exists td | td in olds && td.name == c.typeName :: HappenedTo(td, new_, c)
  {
    hide TypeChange, HappenedTo;
    if olds != [] {
      var n := |olds| - 1;
      TypeChangesHappened(olds[..n], new_, c);
      TypeChangeHappened(olds[n], new_, c);
      assert forall td :: td in olds <==> td in olds[..n] || td == olds[n];
    }
  }

  // ----- What an unbroken history keeps -----

  /** The schema has no place for this tuple. */
  predicate IsOrphan(schema: Schema, t: Tuple) {
    match schema.GetType(t.resource.objectType)
    case None => true
    case Some(td) => td.GetRelation(t.relation).None?
  }

  /** Type `td` is still there and each of its relations still takes the same subject types. */
  ghost predicate KeepsType(td: TypeDefinition, new_: Schema) {
    && new_.GetType(td.name).Some?
    && forall rel | rel in td.relations :: KeepsRelation(rel, new_.GetType(td.name).value)
  }

  ghost predicate KeepsRelation(rel: RelationDef, td: TypeDefinition) {
    td.GetRelation(rel.name).Some? && td.GetRelation(rel.name).value.subjectTypes == rel.subjectTypes
  }

  lemma {:induction false} NoRelationChanges(typeName: string, olds: seq<RelationDef>, td: TypeDefinition)
    ensures RelationChanges(typeName, olds, td.relations) == [] <==> forall rel | rel in olds :: KeepsRelation(rel, td)
  {
    hide RelationChange, KeepsRelation;
    if olds != [] {
      var n := |olds| - 1;
      NoRelationChanges(typeName, olds[..n], td);
      NoRelationChange(typeName, olds[n], td);
      assert forall rel :: rel in olds <==> rel in olds[..n] || rel == olds[n];
    }
  }

  lemma NoRelationChange(typeName: string, rel: RelationDef, td: TypeDefinition)
    ensures RelationChange(typeName, rel, td.relations) == [] <==> KeepsRelation(rel, td)
  {
  }

  lemma NoTypeChange(td: TypeDefinition, new_: Schema)
    ensures TypeChange(td, new_) == [] <==> KeepsType(td, new_)
  {
    hide RelationChanges, KeepsRelation;
    var found := new_.GetType(td.name);
    if found.Some? { NoRelationChanges(td.name, td.relations, found.value); }
  }

  /** No change is reported exactly when everything that tuples rely on is kept. */
  lemma {:induction false} NoTypeChanges(olds: seq<TypeDefinition>, new_: Schema)
    ensures TypeChanges(olds, new_) == [] <==> forall td | td in olds :: KeepsType(td, new_)
  {
    hide TypeChange, KeepsType;
    if olds != [] {
      var n := |olds| - 1;
      NoTypeChanges(olds[..n], new_);
      NoTypeChange(olds[n], new_);
      assert forall td :: td in olds <==> td in olds[..n] || td == olds[n];
    }
  }

  /** Two unbroken steps make one, even when schemas repeat names. */
  lemma UnbrokenIsTransitive(a: Schema, b: Schema, c: Schema)
    requires TypeChanges(a.types, b) == [] && TypeChanges(b.types, c) == []
    ensures TypeChanges(a.types, c) == []
  {
    NoTypeChanges(a.types, b);
    NoTypeChanges(b.types, c);
    NoTypeChanges(a.types, c);
    forall td | td in a.types ensures KeepsType(td, c) {
      assert KeepsType(td, b);
      var mid := b.GetType(td.name).value;
      assert KeepsType(mid, c);
      forall rel | rel in td.relations ensures KeepsRelation(rel, c.GetType(td.name).value) {
        assert KeepsRelation(rel, mid);
        assert KeepsRelation(mid.GetRelation(rel.name).value, c.GetType(mid.name).value);
      }
    }
  }

  /** A tuple with a place in the old schema has one in the new. */
  lemma UnbrokenKeepsTuples(old_: Schema, new_: Schema, t: Tuple)
    requires TypeChanges(old_.types, new_) == [] && !IsOrphan(old_, t)
    ensures !IsOrphan(new_, t)
  {
    NoTypeChanges(old_.types, new_);
    var td := old_.GetType(t.resource.objectType).value;
    assert KeepsType(td, new_);
    assert KeepsRelation(td.GetRelation(t.relation).value, new_.GetType(td.name).value);
  }

  ghost predicate UnbrokenHistory(schemas: seq<Schema>) {
    forall i | 0 < i < |schemas| :: TypeChanges(schemas[i - 1].types, schemas[i]) == []
  }

  lemma {:induction false} UnbrokenHistoryKeepsTuples(schemas: seq<Schema>, t: Tuple)
    requires schemas != [] && UnbrokenHistory(schemas) && !IsOrphan(schemas[0], t)
    ensures !IsOrphan(schemas[|schemas| - 1], t)
  {
    if |schemas| > 1 {
      assert TypeChanges(schemas[1 - 1].types, schemas[1]) == [];
      UnbrokenKeepsTuples(schemas[0], schemas[1], t);
      forall i | 0 < i < |schemas[1..]| ensures TypeChanges(schemas[1..][i - 1].types, schemas[1..][i]) == [] {
        assert TypeChanges(schemas[(i + 1) - 1].types, schemas[i + 1]) == [];
      }
      UnbrokenHistoryKeepsTuples(schemas[1..], t);
    }
  }
}
