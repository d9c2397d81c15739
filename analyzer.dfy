/**
 * `analyzeVariableDeclarations` as the program runs it: a walk over the tree that, at each
 * `var` declaration, rescans every top-level statement with a flag that is only ever set,
 * then pushes one issue onto a list that starts empty.
 *
 * The library walk is a worklist loop: the next node to visit is the head of `pending`, and
 * visiting it puts its children in front of the rest, which is a pre-order walk (WalkStep).
 */
module Analyzer {
  import opened JsAst
  import opened VarRule

  /**
   * The reassignment scan for the declaration `node`: `ast.body.forEach(statement => walk(...))`
   * with `shouldChangeToLet` set when a visited assignment targets one of its declared names.
   */
  method ScanForReassignment(ast: Program, node: Node) returns (shouldChangeToLet: bool)
    requires node.VariableDeclaration?
    ensures shouldChangeToLet == Reassigned(ast, node.declarations)
  {
    var ds := node.declarations;
    shouldChangeToLet := false;
    var i := 0;
    while i < |ast.body|
      invariant 0 <= i <= |ast.body|
      invariant shouldChangeToLet == AnyMarks(PreOrderSeq(ast.body[..i]), ds)
    {
      ghost var done := PreOrderSeq(ast.body[..i]);
      shouldChangeToLet := WalkStatement(ast.body[i], ds, shouldChangeToLet);
      assert ast.body[..i + 1] == ast.body[..i] + [ast.body[i]];
      PreOrderSeqAppend(ast.body[..i], [ast.body[i]]);
      assert PreOrderSeq([ast.body[i]]) == PreOrder(ast.body[i]) by {
        assert [ast.body[i]][1..] == [];
      }
      AnyMarksAppend(done, PreOrder(ast.body[i]), ds);
      i := i + 1;
    }
    assert ast.body[..i] == ast.body;
  }

  /**
   * The callback of the scan, walked over one top-level statement: the flag comes out set
   * when it went in set or when the walk visits an assignment to a declared name.
   */
  method WalkStatement(statement: Node, ds: seq<Node>, flag: bool) returns (shouldChangeToLet: bool)
    ensures shouldChangeToLet == (flag || AnyMarks(PreOrder(statement), ds))
  {
    shouldChangeToLet := flag;
    ghost var visited: seq<Node> := [];
    var pending := [statement];
    assert PreOrderSeq(pending) == PreOrder(statement) by {
      assert pending[1..] == [];
    }
    while pending != []
      invariant visited + PreOrderSeq(pending) == PreOrder(statement)
      invariant shouldChangeToLet == (flag || AnyMarks(visited, ds))
      decreases |PreOrderSeq(pending)|
    {
      var n := pending[0];
      ghost var before := pending;
      pending := Children(n) + pending[1..];
      WalkStep(before);
      Regroup(visited, [n], PreOrderSeq(pending));
      if n.AssignmentExpression? && n.left.Identifier? {
        var identifier := n.left.name;
        if SomeDeclaratorNamed(ds, identifier) {
          shouldChangeToLet := true;
        }
      }
      AnyMarksSnoc(visited, n, ds);
      visited := visited + [n];
    }
    assert visited == PreOrder(statement);
  }

  /**
   * The walk callback at a `var` declaration: scan for reassignment with a fresh flag, then
   * build the one issue to push.
   */
  method ReportDeclaration(ast: Program, node: Node) returns (issue: Issue)
    requires IsVarDeclaration(node)
    ensures issue == IssueFor(ast, node)
  {
    var shouldChangeToLet := ScanForReassignment(ast, node);
    issue := Issue(node.line, if shouldChangeToLet then LetMessage else ConstMessage);
  }

  /** The issue list for `ast`: one issue per `var` declaration, in walk order. */
  method AnalyzeVariableDeclarations(ast: Program) returns (issues: seq<Issue>)
    ensures issues == ExpectedIssues(ast)
  {
    issues := [];
    var pending := ast.body;
    while pending != []
      invariant issues + IssuesOfSeq(ast, pending) == ExpectedIssues(ast)
      decreases |PreOrderSeq(pending)|
    {
      var node := pending[0];
      ghost var before := pending;
      pending := Children(node) + pending[1..];
      WalkStep(before);
      IssuesStep(ast, before);
      ghost var later := IssuesOfSeq(ast, pending);
      if IsVarDeclaration(node) {
        var issue := ReportDeclaration(ast, node);
        assert OwnIssues(ast, node) == [issue];
        Regroup(issues, [issue], later);
        issues := issues + [issue];
      } else {
        assert OwnIssues(ast, node) == [];
      }
    }
  }

  /** The analyzer is deterministic: two runs on the same tree give the same list. */
  method AnalyzeTwice(ast: Program) returns (first: seq<Issue>, second: seq<Issue>)
    ensures first == second
  {
    first := AnalyzeVariableDeclarations(ast);
    second := AnalyzeVariableDeclarations(ast);
  }
}
