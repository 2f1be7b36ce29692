/** From the parse tree of a schema text to its rules. */
module Parser {
  import opened Common
  import opened Schemas

  /** The grammar rules that leave a node in the parse tree. */
  datatype Rule =
    | SchemaRule | DefinitionRule | DefinitionBody | RelationDefRule | SubjectTypeList | SubjectTypeRefRule
    | PermissionDefRule | PermissionExpr | PermissionTerm | ArrowExpr | Identifier
    | UnionOp | IntersectionOp | ExclusionOp | EndOfInput

  datatype Pair = Pair(rule: Rule, text: string, inner: seq<Pair>)

  datatype SyntaxCause = Grammar(message: string) | MissingToken(context: string) | UnexpectedRule(rule: Rule)

  datatype ParseError =
    | Syntax(cause: SyntaxCause)
    | MixedOperators
    | MultipleExclusions
    | DuplicateType(typeName: string)
    | DuplicateRelation(typeName: string, relation: string)
    | DuplicatePermission(typeName: string, permission: string)

  function Nth(p: Pair, i: nat, context: string): Result<Pair, ParseError> {
    if i < |p.inner| then Ok(p.inner[i]) else Err(Syntax(MissingToken(context)))
  }

  // ----- Permission expressions -----

  function ParsePermissionTerm(p: Pair): Result<RewriteRule, ParseError> {
    var content :- Nth(p, 0, "permission term content");
    match content.rule
    case ArrowExpr =>
      var tupleset :- Nth(content, 0, "arrow tupleset");
      var computed :- Nth(content, 1, "arrow computed");
      Ok(Arrow(tupleset.text, computed.text))
    case Identifier => Ok(This(content.text))
    case other => Err(Syntax(UnexpectedRule(other)))
  }

  /** The operators and the terms after them, from position `i` on. */
  function OpsAndTerms(inner: seq<Pair>, i: nat): Result<seq<(Rule, RewriteRule)>, ParseError>
    decreases |inner| - i
  {
    if i >= |inner| then Ok([])
    else if i + 1 >= |inner| then Err(Syntax(MissingToken("permission term after operator")))
    else
      var term :- ParsePermissionTerm(inner[i + 1]);
      var rest :- OpsAndTerms(inner, i + 2);
      Ok([(inner[i].rule, term)] + rest)
  }

  function Terms(opsAndTerms: seq<(Rule, RewriteRule)>): (ts: seq<RewriteRule>)
    ensures |ts| == |opsAndTerms| && forall i | 0 <= i < |ts| :: ts[i] == opsAndTerms[i].1
  {
    seq(|opsAndTerms|, i requires 0 <= i < |opsAndTerms| => opsAndTerms[i].1)
  }

  function Combine(first: RewriteRule, opsAndTerms: seq<(Rule, RewriteRule)>): Result<RewriteRule, ParseError> {
    if opsAndTerms == [] then Ok(first)
    else
      var firstOp := opsAndTerms[0].0;
      if exists x | x in opsAndTerms :: x.0 != firstOp then Err(MixedOperators)
      else
        match firstOp
        case UnionOp => Ok(Union([first] + Terms(opsAndTerms)))
        case IntersectionOp => Ok(Intersection([first] + Terms(opsAndTerms)))
        case ExclusionOp => if |opsAndTerms| != 1 then Err(MultipleExclusions) else Ok(Exclusion(first, opsAndTerms[0].1))
        case other => Err(Syntax(UnexpectedRule(other)))
  }

  function PermissionExprOf(p: Pair): Result<RewriteRule, ParseError> {
    var head :- Nth(p, 0, "permission term");
    var first :- ParsePermissionTerm(head);
    var opsAndTerms :- OpsAndTerms(p.inner, 1);
    Combine(first, opsAndTerms)
  }

  method ParsePermissionExpr(p: Pair) returns (r: Result<RewriteRule, ParseError>)
    ensures r == PermissionExprOf(p)
    ensures r.Ok? ==> FlatRule(r.value)
  {
    FlatExpr(p);
    if |p.inner| == 0 { return Err(Syntax(MissingToken("permission term"))); }
    var first := ParsePermissionTerm(p.inner[0]);
    if first.Err? { return Err(first.error); }
    var opsAndTerms: seq<(Rule, RewriteRule)> := [];
    var i := 1;
    assert OpsAndTerms(p.inner, 1).Ok? ==> [] + OpsAndTerms(p.inner, 1).value == OpsAndTerms(p.inner, 1).value;
    while i < |p.inner|
      invariant 1 <= i
      invariant OpsAndTerms(p.inner, 1)
             == match OpsAndTerms(p.inner, i) case Ok(rest) => Ok(opsAndTerms + rest) case Err(x) => Err(x)
      decreases |p.inner| - i
    {
      var op := p.inner[i];
      if i + 1 >= |p.inner| { return Err(Syntax(MissingToken("permission term after operator"))); }
      var term := ParsePermissionTerm(p.inner[i + 1]);
      if term.Err? { return Err(term.error); }
      ghost var rest := OpsAndTerms(p.inner, i + 2);
      assert rest.Ok? ==> opsAndTerms + ([(op.rule, term.value)] + rest.value) == (opsAndTerms + [(op.rule, term.value)]) + rest.value;
      opsAndTerms := opsAndTerms + [(op.rule, term.value)];
      i := i + 2;
    }
    assert opsAndTerms + [] == opsAndTerms;
    r := Combine(first.value, opsAndTerms);
  }

  predicate Atom(rule: RewriteRule) { rule.This? || rule.Arrow? }

  /** The only shapes an expression can have: no nesting, and at least two operands for `+` and `&`. */
  predicate FlatRule(rule: RewriteRule) {
    match rule
    case This(_) => true
    case Arrow(_, _) => true
    case Union(children) => |children| >= 2 && forall c | c in children :: Atom(c)
    case Intersection(children) => |children| >= 2 && forall c | c in children :: Atom(c)
    case Exclusion(base, excluded) => Atom(base) && Atom(excluded)
  }

  lemma {:induction false} OpsAndTermsAreAtoms(inner: seq<Pair>, i: nat)
    ensures OpsAndTerms(inner, i).Ok? ==> forall x | x in OpsAndTerms(inner, i).value :: Atom(x.1)
    decreases |inner| - i
  {
    if i + 1 < |inner| { OpsAndTermsAreAtoms(inner, i + 2); }
  }

  lemma FlatExpr(p: Pair)
    ensures PermissionExprOf(p).Ok? ==> FlatRule(PermissionExprOf(p).value)
  {
    if PermissionExprOf(p).Ok? {
      OpsAndTermsAreAtoms(p.inner, 1);
      var ops := OpsAndTerms(p.inner, 1).value;
      forall t | t in Terms(ops) ensures Atom(t) {
        var i :| 0 <= i < |ops| && Terms(ops)[i] == t;
        assert ops[i] in ops;
      }
    }
  }

  // ----- Printing, and the two round trips -----

  predicate IsOperator(r: Rule) { r == UnionOp || r == IntersectionOp || r == ExclusionOp }

  /** A list of terms with an operator between each two. */
  ghost predicate TermList(terms: seq<RewriteRule>, ops: seq<Rule>) {
    |terms| == |ops| + 1 && (forall t | t in terms :: Atom(t)) && forall op | op in ops :: IsOperator(op)
  }

  function TermPair(rule: RewriteRule): Pair
    requires Atom(rule)
  {
    match rule
    case This(name) => Pair(PermissionTerm, name, [Pair(Identifier, name, [])])
    case Arrow(tupleset, computed) =>
      Pair(PermissionTerm, tupleset + "->" + computed,
           [Pair(ArrowExpr, tupleset + "->" + computed, [Pair(Identifier, tupleset, []), Pair(Identifier, computed, [])])])
  }

  /** The children that the grammar gives the rest of an expression: operator, term, operator, term. */
  function RestPairs(terms: seq<RewriteRule>, ops: seq<Rule>): (r: seq<Pair>)
    requires |terms| == |ops| && forall t | t in terms :: Atom(t)
    ensures |r| == 2 * |ops|
  {
    if ops == [] then []
    else [Pair(ops[0], "", []), TermPair(terms[0])] + RestPairs(terms[1..], ops[1..])
  }

  function ExprPair(terms: seq<RewriteRule>, ops: seq<Rule>): Pair
    requires |terms| == |ops| + 1 && forall t | t in terms :: Atom(t)
  {
    Pair(PermissionExpr, "", [TermPair(terms[0])] + RestPairs(terms[1..], ops))
  }

  function Zip(terms: seq<RewriteRule>, ops: seq<Rule>): (r: seq<(Rule, RewriteRule)>)
    requires |terms| == |ops|
    ensures |r| == |ops| && forall i | 0 <= i < |r| :: r[i] == (ops[i], terms[i])
  {
    seq(|ops|, i requires 0 <= i < |ops| => (ops[i], terms[i]))
  }

  lemma {:induction false} RestPairsParse(before: seq<Pair>, terms: seq<RewriteRule>, ops: seq<Rule>)
    requires |terms| == |ops| && forall t | t in terms :: Atom(t)
    ensures OpsAndTerms(before + RestPairs(terms, ops), |before|) == Ok(Zip(terms, ops))
    decreases |ops|
  {
    var inner := before + RestPairs(terms, ops);
    if ops != [] {
      var before' := before + [Pair(ops[0], "", []), TermPair(terms[0])];
      assert before' + RestPairs(terms[1..], ops[1..]) == inner;
      RestPairsParse(before', terms[1..], ops[1..]);
      assert inner[|before|] == Pair(ops[0], "", []) && inner[|before| + 1] == TermPair(terms[0]);
      assert ParsePermissionTerm(TermPair(terms[0])) == Ok(terms[0]);
      assert [(ops[0], terms[0])] + Zip(terms[1..], ops[1..]) == Zip(terms, ops);
    }
  }

  /** The rule a well-formed list stands for. */
  function Denotes(terms: seq<RewriteRule>, ops: seq<Rule>): RewriteRule
    requires |terms| == |ops| + 1
  {
    if ops == [] then terms[0]
    else if ops[0] == UnionOp then Union(terms)
    else if ops[0] == IntersectionOp then Intersection(terms)
    else Exclusion(terms[0], terms[1])
  }

  lemma ExprReducesTo(terms: seq<RewriteRule>, ops: seq<Rule>)
    requires TermList(terms, ops)
    ensures PermissionExprOf(ExprPair(terms, ops)) == Combine(terms[0], Zip(terms[1..], ops))
  {
    var head := [TermPair(terms[0])];
    RestPairsParse(head, terms[1..], ops);
    assert ExprPair(terms, ops).inner == head + RestPairs(terms[1..], ops);
    assert ParsePermissionTerm(TermPair(terms[0])) == Ok(terms[0]);
  }

  predicate OneOperator(ops: seq<Rule>) {
    forall i | 0 < i < |ops| :: ops[i] == ops[0]
  }

  lemma CombineZip(terms: seq<RewriteRule>, ops: seq<Rule>)
    requires TermList(terms, ops) && ops != []
    ensures Combine(terms[0], Zip(terms[1..], ops)) ==
              if !OneOperator(ops) then Err(MixedOperators)
              else if ops[0] == ExclusionOp && |ops| > 1 then Err(MultipleExclusions)
              else Ok(Denotes(terms, ops))
  {
    var zipped := Zip(terms[1..], ops);
    assert Terms(zipped) == terms[1..];
    assert [terms[0]] + terms[1..] == terms;
    assert ops[0] in ops;
    if OneOperator(ops) {
      forall x | x in zipped ensures x.0 == ops[0] {
        var i :| 0 <= i < |zipped| && zipped[i] == x;
      }
    } else {
      var i :| 0 < i < |ops| && ops[i] != ops[0];
      assert zipped[i] in zipped;
    }
  }

  /** The main result: a list is accepted exactly when one operator is used and `-` at most once. */
  lemma ParsesExactly(terms: seq<RewriteRule>, ops: seq<Rule>)
    requires TermList(terms, ops)
    ensures var r := PermissionExprOf(ExprPair(terms, ops));
            && (r.Ok? <==> OneOperator(ops) && (|ops| > 1 ==> ops[0] != ExclusionOp))
            && (r.Ok? ==> r.value == Denotes(terms, ops))
            && (r.Err? ==> r.error == if OneOperator(ops) then MultipleExclusions else MixedOperators)
  {
    ExprReducesTo(terms, ops);
    if ops != [] { CombineZip(terms, ops); }
  }

  function Print(rule: RewriteRule): (seq<RewriteRule>, seq<Rule>)
    requires FlatRule(rule)
  {
    match rule
    case This(_) => ([rule], [])
    case Arrow(_, _) => ([rule], [])
    case Union(children) => (children, Repeat(UnionOp, |children| - 1))
    case Intersection(children) => (children, Repeat(IntersectionOp, |children| - 1))
    case Exclusion(base, excluded) => ([base, excluded], [ExclusionOp])
  }

  function Repeat(op: Rule, n: nat): (ops: seq<Rule>)
    ensures |ops| == n && forall i | 0 <= i < n :: ops[i] == op
  {
    seq(n, _ => op)
  }

  /** Printing what was parsed gives the list back. */
  lemma PrintAfterParse(terms: seq<RewriteRule>, ops: seq<Rule>)
    requires TermList(terms, ops) && PermissionExprOf(ExprPair(terms, ops)).Ok?
    ensures FlatRule(PermissionExprOf(ExprPair(terms, ops)).value)
    ensures Print(PermissionExprOf(ExprPair(terms, ops)).value) == (terms, ops)
  {
    ParsesExactly(terms, ops);
    FlatExpr(ExprPair(terms, ops));
    if ops == [] {
      assert terms[0] in terms;
      assert terms == [terms[0]];
    } else {
      assert ops[0] in ops;
      if ops[0] == ExclusionOp {
        assert terms == [terms[0], terms[1]] && ops == [ExclusionOp];
      } else {
        assert ops == Repeat(ops[0], |ops|);
      }
    }
  }

  /** Parsing what was printed gives the rule back. */
  lemma ParseAfterPrint(rule: RewriteRule)
    requires FlatRule(rule)
    ensures var (terms, ops) := Print(rule);
            TermList(terms, ops) && PermissionExprOf(ExprPair(terms, ops)) == Ok(rule)
  {
    var (terms, ops) := Print(rule);
    assert TermList(terms, ops);
    ParsesExactly(terms, ops);
  }

  // ----- Relations, definitions and the schema -----

  function ParseSubjectTypeRef(p: Pair): Result<SubjectTypeRef, ParseError> {
    var typeName :- Nth(p, 0, "subject type name");
    Ok(SubjectTypeRef(typeName.text, if |p.inner| > 1 then Some(p.inner[1].text) else None))
  }

  function EachSubjectTypeRef(refs: seq<Pair>): (rs: seq<Result<SubjectTypeRef, ParseError>>)
    ensures |rs| == |refs| && forall i | 0 <= i < |rs| :: rs[i] == ParseSubjectTypeRef(refs[i])
  {
    seq(|refs|, i requires 0 <= i < |refs| => ParseSubjectTypeRef(refs[i]))
  }

  function ParseRelationDef(p: Pair): Result<RelationDef, ParseError> {
    var name :- Nth(p, 0, "relation name");
    var list :- Nth(p, 1, "subject type list");
    var subjectTypes :- Collect(EachSubjectTypeRef(list.inner));
    Ok(RelationDef(name.text, subjectTypes))
  }

  function ParsePermissionDef(p: Pair): Result<PermissionDef, ParseError> {
    var name :- Nth(p, 0, "permission name");
    var expr :- Nth(p, 1, "permission expression");
    var rule :- PermissionExprOf(expr);
    Ok(PermissionDef(name.text, rule))
  }

  /** One item of a body added to the definition so far. */
  function AddItem(td: TypeDefinition, item: Pair): Result<TypeDefinition, ParseError> {
    match item.rule
    case RelationDefRule =>
      var rel :- ParseRelationDef(item);
      if exists r | r in td.relations :: r.name == rel.name then Err(DuplicateRelation(td.name, rel.name))
      else Ok(td.(relations := td.relations + [rel]))
    case PermissionDefRule =>
      var perm :- ParsePermissionDef(item);
      if exists p | p in td.permissions :: p.name == perm.name then Err(DuplicatePermission(td.name, perm.name))
      else Ok(td.(permissions := td.permissions + [perm]))
    case _ => Ok(td)
  }

  /** The definition after its first items, or the first error among them. */
  function Items(name: string, items: seq<Pair>): Result<TypeDefinition, ParseError> {
    if items == [] then Ok(TypeDefinition(name, [], []))
    else
      var n := |items| - 1;
      var td :- Items(name, items[..n]);
      AddItem(td, items[n])
  }

  function DefinitionOf(p: Pair): Result<TypeDefinition, ParseError> {
    var name :- Nth(p, 0, "definition name");
    var body :- Nth(p, 1, "definition body");
    Items(name.text, body.inner)
  }

  lemma {:induction false} ItemsErrorSticks(name: string, items: seq<Pair>, i: nat)
    requires i <= |items| && Items(name, items[..i]).Err?
    ensures Items(name, items) == Items(name, items[..i])
  {
    hide AddItem;
    if i < |items| {
      var n := |items| - 1;
      assert items[..n][..i] == items[..i];
      ItemsErrorSticks(name, items[..n], i);
    } else {
      assert items[..i] == items;
    }
  }

  function RelationNames(td: TypeDefinition): set<string> { set d | d in td.relations :: d.name }

  function PermissionNames(td: TypeDefinition): set<string> { set d | d in td.permissions :: d.name }

  /** One turn of the loop over a body, with the seen-sets that detect repeats. */
  method ParseItem(td: TypeDefinition, seenRelations: set<string>, seenPermissions: set<string>, item: Pair)
    returns (r: Result<TypeDefinition, ParseError>, nowRelations: set<string>, nowPermissions: set<string>)
    requires seenRelations == RelationNames(td) && seenPermissions == PermissionNames(td)
    ensures r == AddItem(td, item)
    ensures r.Ok? ==> nowRelations == RelationNames(r.value) && nowPermissions == PermissionNames(r.value)
  {
    r, nowRelations, nowPermissions := Ok(td), seenRelations, seenPermissions;
    match item.rule
    case RelationDefRule =>
      var rel := ParseRelationDef(item);
      if rel.Err? { r := Err(rel.error); return; }
      if rel.value.name in seenRelations { r := Err(DuplicateRelation(td.name, rel.value.name)); return; }
      nowRelations := nowRelations + {rel.value.name};
      r := Ok(td.(relations := td.relations + [rel.value]));
    case PermissionDefRule =>
      var perm := ParsePermissionDef(item);
      if perm.Err? { r := Err(perm.error); return; }
      if perm.value.name in seenPermissions { r := Err(DuplicatePermission(td.name, perm.value.name)); return; }
      nowPermissions := nowPermissions + {perm.value.name};
      r := Ok(td.(permissions := td.permissions + [perm.value]));
    case _ =>
  }

  method ParseDefinition(p: Pair) returns (r: Result<TypeDefinition, ParseError>)
    ensures r == DefinitionOf(p)
    ensures r.Ok? ==> GoodDefinition(r.value)
  {
    if |p.inner| < 1 { return Err(Syntax(MissingToken("definition name"))); }
    var name := p.inner[0].text;
    if |p.inner| < 2 { return Err(Syntax(MissingToken("definition body"))); }
    var items := p.inner[1].inner;
    var td := TypeDefinition(name, [], []);
    var seenRelations: set<string>, seenPermissions: set<string> := {}, {};
    for i := 0 to |items|
      invariant Items(name, items[..i]) == Ok(td)
      invariant seenRelations == RelationNames(td) && seenPermissions == PermissionNames(td)
    {
      assert items[..i + 1][..i] == items[..i];
      r, seenRelations, seenPermissions := ParseItem(td, seenRelations, seenPermissions, items[i]);
      if r.Err? {
        ItemsErrorSticks(name, items, i + 1);
        return;
      }
      td := r.value;
    }
    assert items[..|items|] == items;
    ItemsAreGood(name, items);
    r := Ok(td);
  }

  ghost predicate GoodDefinition(td: TypeDefinition) {
    && (forall i, j | 0 <= i < j < |td.relations| :: td.relations[i].name != td.relations[j].name)
    && (forall i, j | 0 <= i < j < |td.permissions| :: td.permissions[i].name != td.permissions[j].name)
    && (forall p | p in td.permissions :: FlatRule(p.rule))
  }

  /** What every accepted schema satisfies. */
  ghost predicate GoodSchema(schema: Schema) {
    && (forall i, j | 0 <= i < j < |schema.types| :: schema.types[i].name != schema.types[j].name)
    && (forall td | td in schema.types :: GoodDefinition(td))
  }

  lemma {:induction false} ItemsAreGood(name: string, items: seq<Pair>)
    ensures Items(name, items).Ok? ==> GoodDefinition(Items(name, items).value)
  {
    if items != [] {
      var n := |items| - 1;
      ItemsAreGood(name, items[..n]);
      if items[n].rule.PermissionDefRule? && |items[n].inner| > 1 { FlatExpr(items[n].inner[1]); }
    }
  }

  /** One node added to the definitions so far; other nodes are skipped. */
  function AddDefinition(types: seq<TypeDefinition>, node: Pair): Result<seq<TypeDefinition>, ParseError> {
    if node.rule != DefinitionRule then Ok(types)
    else
      var td :- DefinitionOf(node);
      if exists t | t in types :: t.name == td.name then Err(DuplicateType(td.name))
      else Ok(types + [td])
  }

  /** The definitions after the first nodes, or the first error among them. */
  function Definitions(nodes: seq<Pair>): Result<seq<TypeDefinition>, ParseError> {
    if nodes == [] then Ok([])
    else
      var n := |nodes| - 1;
      var types :- Definitions(nodes[..n]);
      AddDefinition(types, nodes[n])
  }

  /** The nodes inside the schema nodes, in order. */
  function SchemaNodes(pairs: seq<Pair>): seq<Pair> {
    if pairs == [] then []
    else (if pairs[0].rule == SchemaRule then pairs[0].inner else []) + SchemaNodes(pairs[1..])
  }

  /** `Ok(pairs)` is what the grammar makes of a text, `Err(message)` its syntax error. */
  function SchemaOf(parsed: Result<seq<Pair>, string>): Result<Schema, ParseError> {
    match parsed
    case Err(message) => Err(Syntax(Grammar(message)))
    case Ok(pairs) =>
      var types :- Definitions(SchemaNodes(pairs));
      Ok(Schema(types))
  }

  lemma {:induction false} DefinitionsErrorSticks(nodes: seq<Pair>, rest: seq<Pair>)
    requires Definitions(nodes).Err?
    ensures Definitions(nodes + rest) == Definitions(nodes)
  {
    if rest == [] {
      assert nodes + rest == nodes;
    } else {
      var n := |rest| - 1;
      DefinitionsErrorSticks(nodes, rest[..n]);
      assert (nodes + rest)[..|nodes| + n] == nodes + rest[..n];
    }
  }

  function Names(types: seq<TypeDefinition>): set<string> {
    set td | td in types :: td.name
  }

  /** One turn of the inner loop, with the seen-set that detects repeats. */
  method ParseNode(types: seq<TypeDefinition>, seenTypes: set<string>, node: Pair)
    returns (r: Result<seq<TypeDefinition>, ParseError>, nowSeen: set<string>)
    requires seenTypes == Names(types)
    ensures r == AddDefinition(types, node)
    ensures r.Ok? ==> nowSeen == Names(r.value)
  {
    r, nowSeen := Ok(types), seenTypes;
    if node.rule == DefinitionRule {
      var td := ParseDefinition(node);
      if td.Err? { r := Err(td.error); return; }
      if td.value.name in seenTypes { r := Err(DuplicateType(td.value.name)); return; }
      nowSeen := nowSeen + {td.value.name};
      r := Ok(types + [td.value]);
    }
  }

  lemma OneMoreNode(before: seq<Pair>, nodes: seq<Pair>, j: nat)
    requires j < |nodes| && Definitions(before + nodes[..j]).Ok?
    ensures Definitions(before + nodes[..j + 1]) == AddDefinition(Definitions(before + nodes[..j]).value, nodes[j])
  {
    hide AddDefinition;
    var next := before + nodes[..j + 1];
    assert next[..|next| - 1] == before + nodes[..j] && next[|next| - 1] == nodes[j];
  }

  lemma NodeErrorSticks(before: seq<Pair>, nodes: seq<Pair>, j: nat)
    requires j <= |nodes| && Definitions(before + nodes[..j]).Err?
    ensures Definitions(before + nodes) == Definitions(before + nodes[..j])
  {
    hide Definitions;
    DefinitionsErrorSticks(before + nodes[..j], nodes[j..]);
    assert (before + nodes[..j]) + nodes[j..] == before + nodes;
  }

  /** The inner loop: the definitions under one schema node. */
  method ParseDefinitions(nodes: seq<Pair>, start: seq<TypeDefinition>, seenBefore: set<string>, ghost before: seq<Pair>)
    returns (r: Result<seq<TypeDefinition>, ParseError>, seenTypes: set<string>)
    requires Definitions(before) == Ok(start) && seenBefore == Names(start)
    ensures r == Definitions(before + nodes)
    ensures r.Ok? ==> seenTypes == Names(r.value)
  {
    hide Definitions, AddDefinition, DefinitionOf, GoodDefinition, FlatRule, Names;
    r, seenTypes := Ok(start), seenBefore;
    assert before + nodes[..0] == before;
    for j := 0 to |nodes|
      invariant r.Ok? && Definitions(before + nodes[..j]) == r
      invariant seenTypes == Names(r.value)
    {
      OneMoreNode(before, nodes, j);
      r, seenTypes := ParseNode(r.value, seenTypes, nodes[j]);
      if r.Err? {
        NodeErrorSticks(before, nodes, j + 1);
        return;
      }
    }
    assert nodes[..|nodes|] == nodes;
  }

  method ParseSchema(parsed: Result<seq<Pair>, string>) returns (r: Result<Schema, ParseError>)
    ensures r == SchemaOf(parsed)
    ensures r.Ok? ==> GoodSchema(r.value)
  {
    hide AddDefinition, DefinitionOf, GoodDefinition, FlatRule;
    if parsed.Err? { return Err(Syntax(Grammar(parsed.error))); }
    var pairs := parsed.value;
    var types: seq<TypeDefinition> := [];
    var seenTypes: set<string> := {};
    ghost var done: seq<Pair> := [];
    assert pairs[0..] == pairs;
    for i := 0 to |pairs|
      invariant done + SchemaNodes(pairs[i..]) == SchemaNodes(pairs)
      invariant Definitions(done) == Ok(types)
      invariant seenTypes == Names(types)
    {
      var pair := pairs[i];
      assert pairs[i..][1..] == pairs[i + 1..];
      if pair.rule != SchemaRule { continue; }
      ghost var after := SchemaNodes(pairs[i + 1..]);
      assert done + (pair.inner + after) == (done + pair.inner) + after;
      var res, seen := ParseDefinitions(pair.inner, types, seenTypes, done);
      done := done + pair.inner;
      if res.Err? {
        DefinitionsErrorSticks(done, after);
        return Err(res.error);
      }
      types, seenTypes := res.value, seen;
    }
    assert done + [] == done;
    DefinitionsAreGood(SchemaNodes(pairs));
    r := Ok(Schema(types));
  }

  lemma {:induction false} DefinitionsAreGood(nodes: seq<Pair>)
    ensures Definitions(nodes).Ok? ==> GoodSchema(Schema(Definitions(nodes).value))
  {
    if nodes != [] {
      var n := |nodes| - 1;
      DefinitionsAreGood(nodes[..n]);
      if nodes[n].rule == DefinitionRule && |nodes[n].inner| > 1 { ItemsAreGood(nodes[n].inner[0].text, nodes[n].inner[1].inner); }
    }
  }

  /** Accepted schemas have unique names and only flat rules, whatever the parse tree looked like. */
  lemma AcceptedSchemasAreGood(parsed: Result<seq<Pair>, string>)
    ensures SchemaOf(parsed).Ok? ==> GoodSchema(SchemaOf(parsed).value)
  {
    if parsed.Ok? { DefinitionsAreGood(SchemaNodes(parsed.value)); }
  }
}
