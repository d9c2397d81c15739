/**
 * The rule on small programs, written as the trees a parser gives for them, on any lines
 * and with any names. Literals are `Other` nodes without children; an expression statement
 * is an `Other` node around its expression.
 */
module Scenarios {
  import opened JsAst
  import opened VarRule

  function Literal(line: nat): Node { Other(line, []) }

  /** `<kind> name = <literal>;` */
  function Declare(line: nat, kind: DeclKind, name: string): Node
  {
    VariableDeclaration(line, kind, [VariableDeclarator(line, Identifier(line, name), Some(Literal(line)))])
  }

  /** `name = <literal>;` */
  function AssignStatement(line: nat, name: string): Node
  {
    Other(line, [AssignmentExpression(line, Identifier(line, name), Literal(line))])
  }

  /** `obj.property = <literal>;`, the target a member expression over two identifiers. */
  function MemberAssignStatement(line: nat, obj: string, property: string): Node
  {
    Other(line, [AssignmentExpression(line, Other(line, [Identifier(line, obj), Identifier(line, property)]), Literal(line))])
  }

  lemma OneStatement(prog: Program, a: Node)
    ensures IssuesOfSeq(prog, [a]) == IssuesOfNode(prog, a)
    ensures AssignedNamesSeq([a]) == AssignedNames(a)
  {
    assert [a][1..] == [];
  }

  lemma FirstStatement(prog: Program, a: Node, body: seq<Node>)
    requires body != [] && body[0] == a
    ensures IssuesOfSeq(prog, body) == IssuesOfNode(prog, a) + IssuesOfSeq(prog, body[1..])
    ensures AssignedNamesSeq(body) == AssignedNames(a) + AssignedNamesSeq(body[1..])
  {
  }

  lemma TwoStatements(prog: Program, a: Node, b: Node)
    ensures IssuesOfSeq(prog, [a, b]) == IssuesOfNode(prog, a) + IssuesOfNode(prog, b)
    ensures AssignedNamesSeq([a, b]) == AssignedNames(a) + AssignedNames(b)
  {
    assert [a, b] == [a] + [b];
    IssuesOfSeqAppend(prog, [a], [b]);
    AssignedNamesSeqAppend([a], [b]);
    OneStatement(prog, a);
    OneStatement(prog, b);
  }

  lemma ThreeStatements(prog: Program, a: Node, b: Node, c: Node)
    ensures IssuesOfSeq(prog, [a, b, c])
         == IssuesOfNode(prog, a) + IssuesOfNode(prog, b) + IssuesOfNode(prog, c)
    ensures AssignedNamesSeq([a, b, c]) == AssignedNames(a) + AssignedNames(b) + AssignedNames(c)
  {
    var body := [a, b, c];
    assert body[0] == a && body[1..] == [b, c];
    FirstStatement(prog, a, body);
    TwoStatements(prog, b, c);
    Regroup(IssuesOfNode(prog, a), IssuesOfNode(prog, b), IssuesOfNode(prog, c));
  }

  /** An identifier and a literal: the parts of `x = 1` and of the declarator `x = 1`. */
  lemma IdentifierAndLiteral(prog: Program, line: nat, name: string)
    ensures AssignedNamesSeq([Identifier(line, name), Literal(line)]) == {}
    ensures IssuesOfSeq(prog, [Identifier(line, name), Literal(line)]) == []
  {
    var id, lit := Identifier(line, name), Literal(line);
    TwoStatements(prog, id, lit);
    assert AssignedNames(id) == {} && AssignedNames(lit) == {};
    assert IssuesOfNode(prog, id) == [] && IssuesOfNode(prog, lit) == [];
  }

  lemma DeclareFacts(prog: Program, line: nat, kind: DeclKind, name: string)
    ensures AssignedNames(Declare(line, kind, name)) == {}
    ensures DeclaredNames(Declare(line, kind, name).declarations) == {name}
    ensures IssuesOfNode(prog, Declare(line, kind, name))
         == if kind == Var then [IssueFor(prog, Declare(line, kind, name))] else []
  {
    var d := Declare(line, kind, name);
    var r := VariableDeclarator(line, Identifier(line, name), Some(Literal(line)));
    IdentifierAndLiteral(prog, line, name);
    assert Children(r) == [Identifier(line, name), Literal(line)];
    assert AssignedNames(r) == {} && IssuesOfNode(prog, r) == [];
    OneStatement(prog, r);
    assert d.declarations == [r];
  }

  lemma AssignStatementFacts(prog: Program, line: nat, name: string)
    ensures AssignedNames(AssignStatement(line, name)) == {name}
    ensures IssuesOfNode(prog, AssignStatement(line, name)) == []
  {
    var a := AssignmentExpression(line, Identifier(line, name), Literal(line));
    IdentifierAndLiteral(prog, line, name);
    assert Children(a) == [Identifier(line, name), Literal(line)];
    assert AssignedNames(a) == {name} && IssuesOfNode(prog, a) == [];
    OneStatement(prog, a);
  }

  /** The member expression `obj.property`: two identifiers, neither of them assigned. */
  lemma MemberTargetFacts(prog: Program, line: nat, obj: string, property: string)
    ensures AssignedNames(Other(line, [Identifier(line, obj), Identifier(line, property)])) == {}
    ensures IssuesOfNode(prog, Other(line, [Identifier(line, obj), Identifier(line, property)])) == []
  {
    var o, p := Identifier(line, obj), Identifier(line, property);
    TwoStatements(prog, o, p);
    assert AssignedNames(o) == {} && AssignedNames(p) == {};
    assert IssuesOfNode(prog, o) == [] && IssuesOfNode(prog, p) == [];
  }

  lemma MemberAssignStatementFacts(prog: Program, line: nat, obj: string, property: string)
    ensures AssignedNames(MemberAssignStatement(line, obj, property)) == {}
    ensures IssuesOfNode(prog, MemberAssignStatement(line, obj, property)) == []
  {
    var target := Other(line, [Identifier(line, obj), Identifier(line, property)]);
    var a := AssignmentExpression(line, target, Literal(line));
    MemberTargetFacts(prog, line, obj, property);
    TwoStatements(prog, target, Literal(line));
    assert Children(a) == [target, Literal(line)];
    assert AssignedNames(a) == {} && IssuesOfNode(prog, a) == [];
    OneStatement(prog, a);
  }

  /** `var x = 1;` gives one issue, at the declaration's line, suggesting `const`. */
  lemma NeverAssignedSuggestsConst(line: nat, x: string)
    ensures ExpectedIssues(Program([Declare(line, Var, x)])) == [Issue(line, ConstMessage)]
  {
    var d := Declare(line, Var, x);
    var prog := Program([d]);
    DeclareFacts(prog, line, Var, x);
    OneStatement(prog, d);
    ReassignedIffNamesMeet(prog, d.declarations);
  }

  /** `var x = 1; x = 2;` gives one issue, at the declaration's line, suggesting `let`. */
  lemma AssignedSuggestsLet(line1: nat, line2: nat, x: string)
    ensures ExpectedIssues(Program([Declare(line1, Var, x), AssignStatement(line2, x)]))
         == [Issue(line1, LetMessage)]
  {
    var d, s := Declare(line1, Var, x), AssignStatement(line2, x);
    var prog := Program([d, s]);
    DeclareFacts(prog, line1, Var, x);
    AssignStatementFacts(prog, line2, x);
    TwoStatements(prog, d, s);
    ReassignedIffNamesMeet(prog, d.declarations);
    assert x in DeclaredNames(d.declarations) * AssignedNamesSeq(prog.body);
  }

  /** `x = 2; var x = 1;`: an assignment written before the declaration still suggests `let`. */
  lemma EarlierAssignmentSuggestsLet(line1: nat, line2: nat, x: string)
    ensures ExpectedIssues(Program([AssignStatement(line1, x), Declare(line2, Var, x)]))
         == [Issue(line2, LetMessage)]
  {
    var s, d := AssignStatement(line1, x), Declare(line2, Var, x);
    var prog := Program([s, d]);
    DeclareFacts(prog, line2, Var, x);
    AssignStatementFacts(prog, line1, x);
    TwoStatements(prog, s, d);
    ReassignedIffNamesMeet(prog, d.declarations);
    assert x in DeclaredNames(d.declarations) * AssignedNamesSeq(prog.body);
  }

  /** `var x = 1; x.y = 2;`: assigning to a property of `x` does not reassign `x`, so `const`. */
  lemma MemberAssignmentKeepsConst(line1: nat, line2: nat, x: string, y: string)
    ensures ExpectedIssues(Program([Declare(line1, Var, x), MemberAssignStatement(line2, x, y)]))
         == [Issue(line1, ConstMessage)]
  {
    var d, s := Declare(line1, Var, x), MemberAssignStatement(line2, x, y);
    var prog := Program([d, s]);
    DeclareFacts(prog, line1, Var, x);
    MemberAssignStatementFacts(prog, line2, x, y);
    TwoStatements(prog, d, s);
    ReassignedIffNamesMeet(prog, d.declarations);
  }

  /** `let x = 1; x = 2;` gives no issue. */
  lemma LetDeclarationIgnored(line1: nat, line2: nat, x: string)
    ensures ExpectedIssues(Program([Declare(line1, Let, x), AssignStatement(line2, x)])) == []
  {
    var d, s := Declare(line1, Let, x), AssignStatement(line2, x);
    var prog := Program([d, s]);
    DeclareFacts(prog, line1, Let, x);
    AssignStatementFacts(prog, line2, x);
    TwoStatements(prog, d, s);
  }

  /** `var a = 1; var b = 2; b = 3;` gives two issues in order: `const` for `a`, then `let` for `b`. */
  lemma TwoDeclarationsInOrder(line1: nat, line2: nat, line3: nat, a: string, b: string)
    requires a != b
    ensures ExpectedIssues(Program([Declare(line1, Var, a), Declare(line2, Var, b), AssignStatement(line3, b)]))
         == [Issue(line1, ConstMessage), Issue(line2, LetMessage)]
  {
    var da, db, s := Declare(line1, Var, a), Declare(line2, Var, b), AssignStatement(line3, b);
    var prog := Program([da, db, s]);
    DeclareFacts(prog, line1, Var, a);
    DeclareFacts(prog, line2, Var, b);
    AssignStatementFacts(prog, line3, b);
    ThreeStatements(prog, da, db, s);
    assert AssignedNamesSeq(prog.body) == {b};
    ReassignedIffNamesMeet(prog, da.declarations);
    ReassignedIffNamesMeet(prog, db.declarations);
    assert b in DeclaredNames(db.declarations) * AssignedNamesSeq(prog.body);
    assert DeclaredNames(da.declarations) * AssignedNamesSeq(prog.body) == {};
  }
}
