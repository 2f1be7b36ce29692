/**
 From declarations to schemas.  A schema text is a list of definitions, each a list of declarations in any
 order; the grammar gives it a parse tree.  What the parser makes of that tree is stated about
 the declarations alone: the schema they spell out, or the first fault among them.
 */
module SchemaTrees {
  import opened Common
  import opened Schemas
  import opened Parser

  /** One declaration as it is written; the expression of a permission is a list of terms and operators. */
  datatype Declaration =
    | RelationDecl(name: string, subjectTypes: seq<SubjectTypeRef>)
    | PermissionDecl(name: string, terms: seq<RewriteRule>, ops: seq<Rule>)

  datatype Definition = Definition(name: string, body: seq<Declaration>)

  /** What the grammar admits: terms are names or arrows, with an operator between each two. */
  ghost predicate Grammatical(body: seq<Declaration>) {
    forall i | 0 <= i < |body| && body[i].PermissionDecl? :: TermList(body[i].terms, body[i].ops)
  }

  ghost predicate AllGrammatical(defs: seq<Definition>) {
    forall i | 0 <= i < |defs| :: Grammatical(defs[i].body)
  }

  // ----- The parse tree that the grammar gives -----

  function Name(text: string): Pair { Pair(Identifier, text, []) }

  function RefPair(r: SubjectTypeRef): Pair {
    Pair(SubjectTypeRefRule, "", [Name(r.typeName)] + if r.relation.Some? then [Name(r.relation.value)] else [])
  }

  function RefPairs(rs: seq<SubjectTypeRef>): (ps: seq<Pair>)
    ensures |ps| == |rs| && forall i | 0 <= i < |ps| :: ps[i] == RefPair(rs[i])
  {
    seq(|rs|, i requires 0 <= i < |rs| => RefPair(rs[i]))
  }

  ghost function DeclPair(d: Declaration): Pair
    requires d.PermissionDecl? ==> TermList(d.terms, d.ops)
  {
    match d
    case RelationDecl(name, subjectTypes) => Pair(RelationDefRule, "", [Name(name), Pair(SubjectTypeList, "", RefPairs(subjectTypes))])
    case PermissionDecl(name, terms, ops) => Pair(PermissionDefRule, "", [Name(name), ExprPair(terms, ops)])
  }

  ghost function BodyPairs(body: seq<Declaration>): (ps: seq<Pair>)
    requires Grammatical(body)
    ensures |ps| == |body| && forall i | 0 <= i < |ps| :: ps[i] == DeclPair(body[i])
  {
    seq(|body|, i requires 0 <= i < |body| => DeclPair(body[i]))
  }

  ghost function DefPairs(defs: seq<Definition>): (ps: seq<Pair>)
    requires AllGrammatical(defs)
    ensures |ps| == |defs|
    ensures forall i | 0 <= i < |ps| :: ps[i] == Pair(DefinitionRule, "", [Name(defs[i].name), Pair(DefinitionBody, "", BodyPairs(defs[i].body))])
  {
    seq(|defs|, i requires 0 <= i < |defs| => Pair(DefinitionRule, "", [Name(defs[i].name), Pair(DefinitionBody, "", BodyPairs(defs[i].body))]))
  }

  ghost function Tree(defs: seq<Definition>): seq<Pair>
    requires AllGrammatical(defs)
  {
    [Pair(SchemaRule, "", DefPairs(defs) + [Pair(EndOfInput, "", [])])]
  }

  // ----- What declarations spell out -----

  function Relations(body: seq<Declaration>): seq<RelationDef> {
    if body == [] then []
    else
      var d := body[|body| - 1];
      Relations(body[..|body| - 1]) + if d.RelationDecl? then [RelationDef(d.name, d.subjectTypes)] else []
  }

  ghost function Permissions(body: seq<Declaration>): seq<PermissionDef>
    requires Grammatical(body)
  {
    if body == [] then []
    else
      var d := body[|body| - 1];
      Permissions(body[..|body| - 1]) + if d.PermissionDecl? then [PermissionDef(d.name, Denotes(d.terms, d.ops))] else []
  }

  // ----- Faults -----

  /** The error in an expression: different operators, or more than one `-`. */
  function ExprFault(ops: seq<Rule>): Option<ParseError> {
    if !OneOperator(ops) then Some(MixedOperators)
    else if |ops| > 1 && ops[0] == ExclusionOp then Some(MultipleExclusions)
    else None
  }

  /** An earlier declaration of the same kind has the same name. */
  predicate Repeated(body: seq<Declaration>, i: nat)
    requires i < |body|
  {
    exists j | 0 <= j < i :: body[j].RelationDecl? == body[i].RelationDecl? && body[j].name == body[i].name
  }

  /** What is wrong with one declaration; its expression comes before its name. */
  function Fault(typeName: string, body: seq<Declaration>, i: nat): Option<ParseError>
    requires i < |body|
  {
    var d := body[i];
    if d.PermissionDecl? && ExprFault(d.ops).Some? then ExprFault(d.ops)
    else if !Repeated(body, i) then None
    else if d.RelationDecl? then Some(DuplicateRelation(typeName, d.name))
    else Some(DuplicatePermission(typeName, d.name))
  }

  ghost predicate Faultless(typeName: string, body: seq<Declaration>) {
    forall i | 0 <= i < |body| :: Fault(typeName, body, i).None?
  }

  ghost predicate FirstFault(typeName: string, body: seq<Declaration>, x: ParseError) {
    exists i | 0 <= i < |body| :: Fault(typeName, body, i) == Some(x) && forall j | 0 <= j < i :: Fault(typeName, body, j).None?
  }

  /** Definition `i` is fine: its declarations are, and no earlier definition has its name. */
  ghost predicate FineDefinition(defs: seq<Definition>, i: nat)
    requires i < |defs|
  {
    Faultless(defs[i].name, defs[i].body) && forall j | 0 <= j < i :: defs[j].name != defs[i].name
  }

  /** What is wrong with a definition; its declarations come before its name. */
  ghost predicate DefinitionFault(defs: seq<Definition>, i: nat, x: ParseError)
    requires i < |defs|
  {
    if Faultless(defs[i].name, defs[i].body) then x == DuplicateType(defs[i].name) && exists j | 0 <= j < i :: defs[j].name == defs[i].name
    else FirstFault(defs[i].name, defs[i].body, x)
  }

  ghost predicate FirstDefinitionFault(defs: seq<Definition>, x: ParseError) {
    exists i | 0 <= i < |defs| :: DefinitionFault(defs, i, x) && forall j | 0 <= j < i :: FineDefinition(defs, j)
  }

  // ----- Declarations -----

  lemma RelationDeclParses(d: Declaration)
    requires d.RelationDecl?
    ensures ParseRelationDef(DeclPair(d)) == Ok(RelationDef(d.name, d.subjectTypes))
  {
    hide Collect;
    var rs := EachSubjectTypeRef(RefPairs(d.subjectTypes));
    forall i | 0 <= i < |rs| ensures rs[i] == Ok(d.subjectTypes[i]) {}
    assert Collect(rs).value == d.subjectTypes;
  }

  lemma PermissionDeclParses(d: Declaration)
    requires d.PermissionDecl? && TermList(d.terms, d.ops)
    ensures ParsePermissionDef(DeclPair(d))
         == if ExprFault(d.ops).Some? then Err(ExprFault(d.ops).value) else Ok(PermissionDef(d.name, Denotes(d.terms, d.ops)))
  {
    hide PermissionExprOf;
    ParsesExactly(d.terms, d.ops);
  }

  lemma {:induction false} DeclaredRelations(body: seq<Declaration>, name: string)
    ensures (exists r | r in Relations(body) :: r.name == name) <==> exists j | 0 <= j < |body| :: body[j].RelationDecl? && body[j].name == name
  {
    if body != [] {
      var n := |body| - 1;
      DeclaredRelations(body[..n], name);
      if j :| 0 <= j < |body| && body[j].RelationDecl? && body[j].name == name {
        if j < n { assert body[..n][j] == body[j]; }
        else { assert RelationDef(name, body[n].subjectTypes) in Relations(body); }
      }
    }
  }

  lemma {:induction false} DeclaredPermissions(body: seq<Declaration>, name: string)
    requires Grammatical(body)
    ensures (exists p | p in Permissions(body) :: p.name == name) <==> exists j | 0 <= j < |body| :: body[j].PermissionDecl? && body[j].name == name
  {
    if body != [] {
      var n := |body| - 1;
      DeclaredPermissions(body[..n], name);
      if j :| 0 <= j < |body| && body[j].PermissionDecl? && body[j].name == name {
        if j < n { assert body[..n][j] == body[j]; }
        else { assert PermissionDef(name, Denotes(body[n].terms, body[n].ops)) in Permissions(body); }
      }
    }
  }

  lemma RelationIsAdded(td: TypeDefinition, d: Declaration)
    requires d.RelationDecl?
    ensures AddItem(td, DeclPair(d))
         == if exists r | r in td.relations :: r.name == d.name then Err(DuplicateRelation(td.name, d.name))
            else Ok(td.(relations := td.relations + [RelationDef(d.name, d.subjectTypes)]))
  {
    hide ParseRelationDef;
    RelationDeclParses(d);
  }

  lemma PermissionIsAdded(td: TypeDefinition, d: Declaration)
    requires d.PermissionDecl? && TermList(d.terms, d.ops)
    ensures AddItem(td, DeclPair(d))
         == if ExprFault(d.ops).Some? then Err(ExprFault(d.ops).value)
            else if exists p | p in td.permissions :: p.name == d.name then Err(DuplicatePermission(td.name, d.name))
            else Ok(td.(permissions := td.permissions + [PermissionDef(d.name, Denotes(d.terms, d.ops))]))
  {
    hide ParsePermissionDef, ExprFault;
    PermissionDeclParses(d);
  }

  lemma RepeatedRelation(body: seq<Declaration>)
    requires body != [] && body[|body| - 1].RelationDecl?
    ensures Repeated(body, |body| - 1) <==> exists r | r in Relations(body[..|body| - 1]) :: r.name == body[|body| - 1].name
  {
    hide Relations;
    DeclaredRelations(body[..|body| - 1], body[|body| - 1].name);
    RepeatedLast(body);
  }

  lemma RepeatedPermission(body: seq<Declaration>)
    requires body != [] && Grammatical(body) && body[|body| - 1].PermissionDecl?
    ensures Repeated(body, |body| - 1) <==> exists p | p in Permissions(body[..|body| - 1]) :: p.name == body[|body| - 1].name
  {
    hide Permissions;
    DeclaredPermissions(body[..|body| - 1], body[|body| - 1].name);
    RepeatedLast(body);
  }

  /** One more declaration on top of a body without faults. */
  lemma DeclarationParses(typeName: string, body: seq<Declaration>)
    requires body != [] && Grammatical(body)
    ensures (var n := |body| - 1;
             AddItem(TypeDefinition(typeName, Relations(body[..n]), Permissions(body[..n])), DeclPair(body[n]))
             == match Fault(typeName, body, n)
                case Some(x) => Err(x)
                case None => Ok(TypeDefinition(typeName, Relations(body), Permissions(body))))
  {
    hide Relations, Permissions, AddItem, ExprFault, DeclPair, Repeated, TermList, Denotes;
    var n := |body| - 1;
    var d := body[n];
    var before := TypeDefinition(typeName, Relations(body[..n]), Permissions(body[..n]));
    LastDeclaration(body);
    if d.RelationDecl? {
      RelationIsAdded(before, d);
      RepeatedRelation(body);
      assert Relations(body) == before.relations + [RelationDef(d.name, d.subjectTypes)] && Permissions(body) == before.permissions;
    } else {
      PermissionIsAdded(before, d);
      RepeatedPermission(body);
      assert Relations(body) == before.relations;
    }
  }

  lemma RepeatedLast(body: seq<Declaration>)
    requires body != []
    ensures var n := |body| - 1;
            Repeated(body, n) <==> exists j | 0 <= j < |body[..n]| :: body[..n][j].RelationDecl? == body[n].RelationDecl? && body[..n][j].name == body[n].name
  {
    var n := |body| - 1;
    if j :| 0 <= j < n && body[j].RelationDecl? == body[n].RelationDecl? && body[j].name == body[n].name { assert body[..n][j] == body[j]; }
  }

  lemma LastDeclaration(body: seq<Declaration>)
    requires body != [] && Grammatical(body)
    ensures var n := |body| - 1; var d := body[n];
            && DeclPair(d).rule == (if d.RelationDecl? then RelationDefRule else PermissionDefRule)
            && Relations(body) == Relations(body[..n]) + (if d.RelationDecl? then [RelationDef(d.name, d.subjectTypes)] else [])
            && Permissions(body) == Permissions(body[..n]) + (if d.PermissionDecl? then [PermissionDef(d.name, Denotes(d.terms, d.ops))] else [])
  {
  }

  // ----- Bodies -----

  lemma {:induction false} BodyParses(typeName: string, body: seq<Declaration>)
    requires Grammatical(body)
    ensures match Items(typeName, BodyPairs(body))
            case Ok(td) => Faultless(typeName, body) && td == TypeDefinition(typeName, Relations(body), Permissions(body))
            case Err(x) => FirstFault(typeName, body, x)
  {
    hide AddItem, Fault, DeclPair;
    if body != [] {
      var n := |body| - 1;
      var front := body[..n];
      BodyParses(typeName, front);
      assert BodyPairs(body)[..n] == BodyPairs(front);
      forall i | 0 <= i < n ensures Fault(typeName, front, i) == Fault(typeName, body, i) { FaultOfPrefix(typeName, body, n, i); }
      if Items(typeName, BodyPairs(front)).Ok? {
        DeclarationParses(typeName, body);
      } else {
        var x := Items(typeName, BodyPairs(front)).error;
        var i :| 0 <= i < n && Fault(typeName, front, i) == Some(x) && forall j | 0 <= j < i :: Fault(typeName, front, j).None?;
        assert Fault(typeName, body, i) == Some(x);
      }
    }
  }

  lemma FaultOfPrefix(typeName: string, body: seq<Declaration>, n: nat, i: nat)
    requires i < n <= |body|
    ensures Fault(typeName, body[..n], i) == Fault(typeName, body, i)
  {
    assert forall j | 0 <= j < i :: body[..n][j] == body[j];
    assert Repeated(body[..n], i) <==> Repeated(body, i);
  }

  lemma FaultlessOrFirst(typeName: string, body: seq<Declaration>, x: ParseError)
    requires FirstFault(typeName, body, x)
    ensures !Faultless(typeName, body)
  {
  }

  // ----- Schemas -----

  ghost function TypesOf(defs: seq<Definition>): (ts: seq<TypeDefinition>)
    requires AllGrammatical(defs)
    ensures |ts| == |defs|
    ensures forall i | 0 <= i < |ts| :: ts[i] == TypeDefinition(defs[i].name, Relations(defs[i].body), Permissions(defs[i].body))
  {
    seq(|defs|, i requires 0 <= i < |defs| => TypeDefinition(defs[i].name, Relations(defs[i].body), Permissions(defs[i].body)))
  }

  /** One more definition on top of fine ones. */
  lemma DefinitionParses(defs: seq<Definition>)
    requires defs != [] && AllGrammatical(defs)
    ensures var n := |defs| - 1;
            match AddDefinition(TypesOf(defs[..n]), DefPairs(defs)[n])
            case Ok(types) => FineDefinition(defs, n) && types == TypesOf(defs)
            case Err(x) => DefinitionFault(defs, n, x)
  {
    hide Items, Faultless, FirstFault, Relations, Permissions;
    var n := |defs| - 1;
    var d := defs[n];
    BodyParses(d.name, d.body);
    assert DefinitionOf(DefPairs(defs)[n]) == Items(d.name, BodyPairs(d.body));
    var before := TypesOf(defs[..n]);
    match Items(d.name, BodyPairs(d.body))
    case Err(x) => FaultlessOrFirst(d.name, d.body, x);
    case Ok(td) =>
      if t :| t in before && t.name == td.name {
        var j :| 0 <= j < n && before[j] == t;
        assert defs[j].name == d.name;
      } else {
        forall j | 0 <= j < n ensures defs[j].name != d.name { assert before[j] in before; }
        assert before + [td] == TypesOf(defs);
      }
  }

  lemma {:induction false} DefinitionsParse(defs: seq<Definition>)
    requires AllGrammatical(defs)
    ensures match Definitions(DefPairs(defs))
            case Ok(types) => (forall i | 0 <= i < |defs| :: FineDefinition(defs, i)) && types == TypesOf(defs)
            case Err(x) => FirstDefinitionFault(defs, x)
  {
    hide AddDefinition, Faultless, FirstFault, Relations, Permissions;
    if defs != [] {
      var n := |defs| - 1;
      var front := defs[..n];
      DefinitionsParse(front);
      assert DefPairs(defs)[..n] == DefPairs(front);
      forall i | 0 <= i < n ensures FineDefinition(front, i) == FineDefinition(defs, i) { FaultsOfPrefix(defs, n, i, MixedOperators); }
      if Definitions(DefPairs(front)).Ok? {
        DefinitionParses(defs);
      } else {
        var x := Definitions(DefPairs(front)).error;
        var i :| 0 <= i < n && DefinitionFault(front, i, x) && forall j | 0 <= j < i :: FineDefinition(front, j);
        FaultsOfPrefix(defs, n, i, x);
        assert DefinitionFault(defs, i, x);
      }
    }
  }

  lemma FaultsOfPrefix(defs: seq<Definition>, n: nat, i: nat, x: ParseError)
    requires i < n <= |defs|
    ensures FineDefinition(defs[..n], i) == FineDefinition(defs, i) && DefinitionFault(defs[..n], i, x) == DefinitionFault(defs, i, x)
  {
    assert forall j | 0 <= j <= i :: defs[..n][j] == defs[j];
  }

  /** The main result: the parser yields the schema that the declarations spell out, or the first fault among them. */
  lemma SchemaParses(defs: seq<Definition>)
    requires AllGrammatical(defs)
    ensures match SchemaOf(Ok(Tree(defs)))
            case Ok(schema) => (forall i | 0 <= i < |defs| :: FineDefinition(defs, i)) && schema == Schema(TypesOf(defs))
            case Err(x) => FirstDefinitionFault(defs, x)
  {
    hide Definitions, FineDefinition, FirstDefinitionFault;
    var nodes := DefPairs(defs);
    var end := Pair(EndOfInput, "", []);
    DefinitionsParse(defs);
    assert SchemaNodes(Tree(defs)) == nodes + [end] by { assert Tree(defs)[1..] == []; assert SchemaNodes([]) == []; }
    EndIsSkipped(nodes, end);
  }

  lemma EndIsSkipped(nodes: seq<Pair>, end: Pair)
    requires end.rule == EndOfInput
    ensures Definitions(nodes + [end]) == Definitions(nodes)
  {
    hide DefinitionOf;
    assert (nodes + [end])[..|nodes|] == nodes;
    assert Definitions(nodes).Ok? ==> AddDefinition(Definitions(nodes).value, end) == Definitions(nodes);
  }

  /** So it accepts exactly the definitions without faults. */
  lemma AcceptedWithoutFaults(defs: seq<Definition>)
    requires AllGrammatical(defs)
    ensures SchemaOf(Ok(Tree(defs))).Ok? <==> forall i | 0 <= i < |defs| :: FineDefinition(defs, i)
  {
    hide SchemaOf, Faultless, FirstFault;
    SchemaParses(defs);
    if SchemaOf(Ok(Tree(defs))).Err? {
      var x := SchemaOf(Ok(Tree(defs))).error;
      var i :| 0 <= i < |defs| && DefinitionFault(defs, i, x) && forall j | 0 <= j < i :: FineDefinition(defs, j);
      assert !FineDefinition(defs, i);
    }
  }

  // ----- The round trip -----

  ghost function RelationDecls(rs: seq<RelationDef>): (ds: seq<Declaration>)
    ensures |ds| == |rs| && forall i | 0 <= i < |ds| :: ds[i] == RelationDecl(rs[i].name, rs[i].subjectTypes)
  {
    seq(|rs|, i requires 0 <= i < |rs| => RelationDecl(rs[i].name, rs[i].subjectTypes))
  }

  ghost function PermissionDecls(ps: seq<PermissionDef>): (ds: seq<Declaration>)
    requires forall p | p in ps :: FlatRule(p.rule)
    ensures |ds| == |ps| && forall i | 0 <= i < |ds| :: ds[i] == PermissionDecl(ps[i].name, Print(ps[i].rule).0, Print(ps[i].rule).1)
  {
    seq(|ps|, i requires 0 <= i < |ps| => PermissionDecl(ps[i].name, Print(ps[i].rule).0, Print(ps[i].rule).1))
  }

  ghost function Declared(schema: Schema): (defs: seq<Definition>)
    requires GoodSchema(schema)
    ensures |defs| == |schema.types|
    ensures forall i | 0 <= i < |defs| ::
              && GoodDefinition(schema.types[i])
              && defs[i] == Definition(schema.types[i].name, RelationDecls(schema.types[i].relations) + PermissionDecls(schema.types[i].permissions))
  {
    assert forall i | 0 <= i < |schema.types| :: schema.types[i] in schema.types;
    seq(|schema.types|, i requires 0 <= i < |schema.types| =>
      Definition(schema.types[i].name, RelationDecls(schema.types[i].relations) + PermissionDecls(schema.types[i].permissions)))
  }

  lemma PrintedIsFaultless(p: PermissionDef)
    requires FlatRule(p.rule)
    ensures var (terms, ops) := Print(p.rule); TermList(terms, ops) && ExprFault(ops).None? && Denotes(terms, ops) == p.rule
  {
    var (terms, ops) := Print(p.rule);
    ParseAfterPrint(p.rule);
    ParsesExactly(terms, ops);
  }

  lemma {:induction false} DeclsOfRelations(rs: seq<RelationDef>)
    ensures Grammatical(RelationDecls(rs)) && Relations(RelationDecls(rs)) == rs && Permissions(RelationDecls(rs)) == []
  {
    if rs != [] {
      var n := |rs| - 1;
      assert RelationDecls(rs)[..n] == RelationDecls(rs[..n]);
      DeclsOfRelations(rs[..n]);
    }
  }

  /** Permissions after relations add permissions only. */
  lemma {:induction false} DeclsOfPermissions(before: seq<Declaration>, ps: seq<PermissionDef>)
    requires Grammatical(before) && forall p | p in ps :: FlatRule(p.rule)
    ensures var body := before + PermissionDecls(ps);
            Grammatical(body) && Relations(body) == Relations(before) && Permissions(body) == Permissions(before) + ps
  {
    hide FlatRule, Print, TermList, ExprFault, Denotes;
    var body := before + PermissionDecls(ps);
    if ps == [] {
      assert body == before;
    } else {
      var n := |ps| - 1;
      assert ps[n] in ps;
      DeclsOfPermissions(before, ps[..n]);
      assert body[..|body| - 1] == before + PermissionDecls(ps[..n]);
      PrintedIsFaultless(ps[n]);
      forall i | 0 <= i < |body| && body[i].PermissionDecl? ensures TermList(body[i].terms, body[i].ops) {
        if i < |body| - 1 { assert body[..|body| - 1][i] == body[i]; }
      }
    }
  }

  lemma GoodBodyIsFaultless(td: TypeDefinition)
    requires GoodDefinition(td)
    ensures var body := RelationDecls(td.relations) + PermissionDecls(td.permissions);
            Grammatical(body) && Faultless(td.name, body) && Relations(body) == td.relations && Permissions(body) == td.permissions
  {
    hide FlatRule, Print, TermList, ExprFault, Denotes, Relations, Permissions, Repeated, Grammatical, Fault;
    var rs, ps := RelationDecls(td.relations), PermissionDecls(td.permissions);
    var body := rs + ps;
    DeclsOfRelations(td.relations);
    DeclsOfPermissions(rs, td.permissions);
    assert [] + td.permissions == td.permissions;
    forall i | 0 <= i < |body| ensures Fault(td.name, body, i).None? { GoodDeclaration(td, i); }
  }

  lemma GoodDeclaration(td: TypeDefinition, i: nat)
    requires GoodDefinition(td) && i < |td.relations| + |td.permissions|
    ensures Fault(td.name, RelationDecls(td.relations) + PermissionDecls(td.permissions), i).None?
  {
    hide FlatRule, Print, TermList, ExprFault, Denotes, Repeated;
    NothingIsRepeated(td, i);
    var k := i - |td.relations|;
    if k >= 0 {
      assert td.permissions[k] in td.permissions;
      PrintedIsFaultless(td.permissions[k]);
    }
  }

  lemma NothingIsRepeated(td: TypeDefinition, i: nat)
    requires GoodDefinition(td) && i < |td.relations| + |td.permissions|
    ensures !Repeated(RelationDecls(td.relations) + PermissionDecls(td.permissions), i)
  {
    hide FlatRule, Print;
    var rs, ps := RelationDecls(td.relations), PermissionDecls(td.permissions);
    var body := rs + ps;
    forall j | 0 <= j < i && body[j].RelationDecl? == body[i].RelationDecl? ensures body[j].name != body[i].name {
      if i < |rs| {
        assert td.relations[j].name != td.relations[i].name;
      } else if j >= |rs| {
        assert td.permissions[j - |rs|].name != td.permissions[i - |rs|].name;
      }
    }
  }

  lemma DeclaredIsGrammatical(schema: Schema)
    requires GoodSchema(schema)
    ensures AllGrammatical(Declared(schema))
  {
    hide Grammatical, Faultless, GoodDefinition;
    var defs := Declared(schema);
    forall i | 0 <= i < |defs| ensures Grammatical(defs[i].body) { GoodBodyIsFaultless(schema.types[i]); }
  }

  /** The parse tree of the text of a schema. */
  ghost function TreeOf(schema: Schema): seq<Pair>
    requires GoodSchema(schema)
  {
    DeclaredIsGrammatical(schema);
    Tree(Declared(schema))
  }

  /** The round trip: every good schema is what the parser makes of its own text. */
  lemma SchemaRoundTrip(schema: Schema)
    requires GoodSchema(schema)
    ensures SchemaOf(Ok(TreeOf(schema))) == Ok(schema)
  {
    hide Grammatical, Faultless, GoodDefinition, Relations, Permissions, SchemaOf, Tree;
    var defs := Declared(schema);
    DeclaredIsGrammatical(schema);
    forall i | 0 <= i < |defs|
      ensures Faultless(defs[i].name, defs[i].body)
      ensures Grammatical(defs[i].body) && TypeDefinition(defs[i].name, Relations(defs[i].body), Permissions(defs[i].body)) == schema.types[i]
    {
      GoodBodyIsFaultless(schema.types[i]);
    }
    AcceptedWithoutFaults(defs);
    SchemaParses(defs);
    assert TypesOf(defs) == schema.types;
  }
}
