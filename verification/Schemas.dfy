/** The rewrite-rule language and lookups by name; the first definition of a name wins. */
module Schemas {
  import opened Common

  datatype RewriteRule =
    | This(name: string)
    | Union(children: seq<RewriteRule>)
    | Intersection(children: seq<RewriteRule>)
    | Exclusion(base: RewriteRule, excluded: RewriteRule)
    | Arrow(tupleset: string, computed: string)

  datatype SubjectTypeRef = SubjectTypeRef(typeName: string, relation: Option<string>)

  datatype RelationDef = RelationDef(name: string, subjectTypes: seq<SubjectTypeRef>)

  datatype PermissionDef = PermissionDef(name: string, rule: RewriteRule)

  datatype TypeDefinition = TypeDefinition(name: string, relations: seq<RelationDef>, permissions: seq<PermissionDef>)
  {
    function GetRelation(name: string): Option<RelationDef> { FindRelation(relations, name) }

    function GetPermission(name: string): Option<PermissionDef> { FindPermission(permissions, name) }
  }

  datatype Schema = Schema(types: seq<TypeDefinition>)
  {
    function GetType(name: string): Option<TypeDefinition> { FindType(types, name) }

    /** The rule of permission `permission` on type `objectType`, if both exist. */
    function RuleOf(objectType: string, permission: string): Option<RewriteRule> {
      match GetType(objectType)
      case None => None
      case Some(td) =>
        match td.GetPermission(permission)
        case None => None
        case Some(p) => Some(p.rule)
    }

    /** Name `name` on type `objectType` is a stored relation that no permission shadows. */
    predicate IsRelation(objectType: string, name: string) {
      var td := GetType(objectType);
      td.Some? && td.value.GetPermission(name).None? && td.value.GetRelation(name).Some?
    }
  }

  function FindType(types: seq<TypeDefinition>, name: string): (r: Option<TypeDefinition>)
    ensures r.Some? ==> r.value in types && r.value.name == name
    ensures r.None? ==> forall t | t in types :: t.name != name
  {
    if types == [] then None
    else if types[0].name == name then Some(types[0])
    else FindType(types[1..], name)
  }

  function FindRelation(relations: seq<RelationDef>, name: string): (r: Option<RelationDef>)
    ensures r.Some? ==> r.value in relations && r.value.name == name
    ensures r.None? ==> forall d | d in relations :: d.name != name
  {
    if relations == [] then None
    else if relations[0].name == name then Some(relations[0])
    else FindRelation(relations[1..], name)
  }

  function FindPermission(permissions: seq<PermissionDef>, name: string): (r: Option<PermissionDef>)
    ensures r.Some? ==> r.value in permissions && r.value.name == name
    ensures r.None? ==> forall d | d in permissions :: d.name != name
  {
    if permissions == [] then None
    else if permissions[0].name == name then Some(permissions[0])
    else FindPermission(permissions[1..], name)
  }
}
