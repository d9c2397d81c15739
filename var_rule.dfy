/**
 * What the `var` rule reports, stated as functions of the syntax tree.
 *
 * For every `var` declaration met by the pre-order walk the rule reports one issue at the
 * declaration's line: the `let` suggestion when some assignment anywhere in the program's
 * top-level statements has a plain identifier as its target whose name one of the
 * declaration's declarators binds, and the `const` suggestion otherwise.
 */
module VarRule {
  import opened JsAst

  datatype Issue = Issue(line: nat, message: string)

  const LetMessage := "Consider using 'let' instead of 'var' here due to reassignment."
  const ConstMessage := "Consider using 'const' instead of 'var' here."

  /** A declaration the rule reports on: `type === 'VariableDeclaration' && kind === 'var'`. */
  predicate IsVarDeclaration(n: Node)
  {
    n.VariableDeclaration? && n.kind == Var
  }

  /**
   * `declaration.id.name === identifier`: only a declarator whose target is a plain identifier
   * has a name; a destructuring pattern (or anything that is not a declarator) matches nothing.
   */
  predicate DeclaratorNamed(d: Node, x: string)
  {
    d.VariableDeclarator? && d.id.Identifier? && d.id.name == x
  }

  /** `declarations.some(declaration => declaration.id.name === x)` */
  function SomeDeclaratorNamed(ds: seq<Node>, x: string): (b: bool)
    ensures b <==> exists i :: 0 <= i < |ds| && DeclaratorNamed(ds[i], x)
  {
    if ds == [] then false
    else DeclaratorNamed(ds[0], x) || SomeDeclaratorNamed(ds[1..], x)
  }

  /** One visit of the reassignment scan: does node `m` make a declaration over `ds` reassigned? */
  predicate MarksReassignment(m: Node, ds: seq<Node>)
  {
    m.AssignmentExpression? && m.left.Identifier? && SomeDeclaratorNamed(ds, m.left.name)
  }

  /** Some node among `ns` marks the declaration over `ds` as reassigned. */
  predicate AnyMarks(ns: seq<Node>, ds: seq<Node>)
  {
    exists m :: m in ns && MarksReassignment(m, ds)
  }

  /** Some node of the walk of the whole body marks the declaration over `ds` as reassigned. */
  predicate Reassigned(prog: Program, ds: seq<Node>)
  {
    AnyMarks(PreOrderSeq(prog.body), ds)
  }

  /** The issue pushed for a `var` declaration `d`. */
  function IssueFor(prog: Program, d: Node): Issue
    requires d.VariableDeclaration?
  {
    Issue(d.line, if Reassigned(prog, d.declarations) then LetMessage else ConstMessage)
  }

  /** The issue a node pushes itself, before those of its children: one at a `var` declaration. */
  function OwnIssues(prog: Program, n: Node): seq<Issue>
  {
    if IsVarDeclaration(n) then [IssueFor(prog, n)] else []
  }

  /** The issues the walk of the subtree `n` pushes, in the order it pushes them. */
  function IssuesOfNode(prog: Program, n: Node): seq<Issue>
    decreases Size(n), 0
  {
    OwnIssues(prog, n) + IssuesOfSeq(prog, Children(n))
  }

  function IssuesOfSeq(prog: Program, ns: seq<Node>): seq<Issue>
    decreases SizeSeq(ns), 1
  {
    if ns == [] then [] else IssuesOfNode(prog, ns[0]) + IssuesOfSeq(prog, ns[1..])
  }

  /** The list `analyzeVariableDeclarations(ast)` returns. */
  function ExpectedIssues(prog: Program): seq<Issue>
  {
    IssuesOfSeq(prog, prog.body)
  }

  // ---------------------------------------------------------------------------------------
  // Reference definitions, independent of the tree fold above

  /** The `var` declarations among `ns`, in order. */
  function VarDeclarationsIn(ns: seq<Node>): (vs: seq<Node>)
    ensures forall d :: d in vs <==> d in ns && IsVarDeclaration(d)
  {
    if ns == [] then []
    else (if IsVarDeclaration(ns[0]) then [ns[0]] else []) + VarDeclarationsIn(ns[1..])
  }

  /** The `var` declarations of a program in the order the pre-order walk encounters them. */
  function VarDeclarations(prog: Program): seq<Node>
  {
    VarDeclarationsIn(PreOrderSeq(prog.body))
  }

  /** One issue per declaration of `vs`, in the same order. */
  function Reports(prog: Program, vs: seq<Node>): (r: seq<Issue>)
    requires forall d :: d in vs ==> d.VariableDeclaration?
    ensures |r| == |vs|
    ensures forall k :: 0 <= k < |vs| ==> r[k] == IssueFor(prog, vs[k])
  {
    if vs == [] then [] else [IssueFor(prog, vs[0])] + Reports(prog, vs[1..])
  }

  /** The names the declarators of a declaration bind (plain-identifier targets only). */
  function DeclaredNames(ds: seq<Node>): set<string>
  {
    set i | 0 <= i < |ds| && ds[i].VariableDeclarator? && ds[i].id.Identifier? :: ds[i].id.name
  }

  /** The names assigned to as plain identifiers anywhere in the subtree `n`. */
  function AssignedNames(n: Node): set<string>
    decreases Size(n), 0
  {
    (if n.AssignmentExpression? && n.left.Identifier? then {n.left.name} else {})
      + AssignedNamesSeq(Children(n))
  }

  function AssignedNamesSeq(ns: seq<Node>): set<string>
    decreases SizeSeq(ns), 1
  {
    if ns == [] then {} else AssignedNames(ns[0]) + AssignedNamesSeq(ns[1..])
  }

  // ---------------------------------------------------------------------------------------
  // Lemmas

  lemma {:induction false} VarDeclarationsInAppend(a: seq<Node>, b: seq<Node>)
    ensures VarDeclarationsIn(a + b) == VarDeclarationsIn(a) + VarDeclarationsIn(b)
    decreases |a|
  {
    if a == [] {
      assert a + b == b;
    } else {
      assert (a + b)[0] == a[0];
      assert (a + b)[1..] == a[1..] + b;
      VarDeclarationsInAppend(a[1..], b);
    }
  }

  lemma {:induction false} NoVarDeclarationsIn(ns: seq<Node>)
    requires forall m :: m in ns ==> !IsVarDeclaration(m)
    ensures VarDeclarationsIn(ns) == []
  {
    if ns != [] {
      NoVarDeclarationsIn(ns[1..]);
    }
  }

  /** The issues of earlier statements come before those of later ones. */
  lemma {:induction false} IssuesOfSeqAppend(prog: Program, a: seq<Node>, b: seq<Node>)
    ensures IssuesOfSeq(prog, a + b) == IssuesOfSeq(prog, a) + IssuesOfSeq(prog, b)
    decreases |a|
  {
    if a == [] {
      assert a + b == b;
    } else {
      assert (a + b)[0] == a[0];
      assert (a + b)[1..] == a[1..] + b;
      IssuesOfSeqAppend(prog, a[1..], b);
    }
  }

  /** The scan's flag over a growing visited list: once set it stays set. */
  lemma AnyMarksSnoc(ns: seq<Node>, n: Node, ds: seq<Node>)
    ensures AnyMarks(ns + [n], ds) <==> AnyMarks(ns, ds) || MarksReassignment(n, ds)
  {
    if AnyMarks(ns + [n], ds) {
      var m :| m in ns + [n] && MarksReassignment(m, ds);
      assert m in ns || m == n;
    }
    if MarksReassignment(n, ds) {
      assert n in ns + [n];
    }
    if AnyMarks(ns, ds) {
      var m :| m in ns && MarksReassignment(m, ds);
      assert m in ns + [n];
    }
  }

  lemma AnyMarksAppend(a: seq<Node>, b: seq<Node>, ds: seq<Node>)
    ensures AnyMarks(a + b, ds) <==> AnyMarks(a, ds) || AnyMarks(b, ds)
  {
    if AnyMarks(a + b, ds) {
      var m :| m in a + b && MarksReassignment(m, ds);
      assert m in a || m in b;
    }
    if AnyMarks(a, ds) {
      var m :| m in a && MarksReassignment(m, ds);
      assert m in a + b;
    }
    if AnyMarks(b, ds) {
      var m :| m in b && MarksReassignment(m, ds);
      assert m in a + b;
    }
  }

  /** One step of the issue walk: the head's own issue, then those of its children and the rest. */
  lemma IssuesStep(prog: Program, pending: seq<Node>)
    requires pending != []
    ensures IssuesOfSeq(prog, pending)
         == OwnIssues(prog, pending[0]) + IssuesOfSeq(prog, Children(pending[0]) + pending[1..])
  {
    var n, rest := pending[0], pending[1..];
    IssuesOfSeqCons(prog, pending);
    IssuesOfSeqAppend(prog, Children(n), rest);
    Regroup(OwnIssues(prog, n), IssuesOfSeq(prog, Children(n)), IssuesOfSeq(prog, rest));
  }

  lemma IssuesOfSeqCons(prog: Program, ns: seq<Node>)
    requires ns != []
    ensures IssuesOfSeq(prog, ns)
         == OwnIssues(prog, ns[0]) + IssuesOfSeq(prog, Children(ns[0])) + IssuesOfSeq(prog, ns[1..])
  {
  }


  lemma ReportsAppend(prog: Program, a: seq<Node>, b: seq<Node>)
    requires forall d :: d in a + b ==> d.VariableDeclaration?
    ensures Reports(prog, a + b) == Reports(prog, a) + Reports(prog, b)
  {
    var r := Reports(prog, a + b);
    var ra, rb := Reports(prog, a), Reports(prog, b);
    forall k | 0 <= k < |r| ensures r[k] == (ra + rb)[k] {
      if k < |a| {
        assert (a + b)[k] == a[k];
      } else {
        assert (a + b)[k] == b[k - |a|];
      }
    }
  }

  /** The tree fold pushes one issue per `var` declaration of the walk, in walk order. */
  lemma {:induction false} IssuesOfNodeFollowWalk(prog: Program, n: Node)
    ensures IssuesOfNode(prog, n) == Reports(prog, VarDeclarationsIn(PreOrder(n)))
    decreases Size(n), 0
  {
    var cs := Children(n);
    IssuesOfSeqFollowWalk(prog, cs);
    VarDeclarationsInAppend([n], PreOrderSeq(cs));
    assert VarDeclarationsIn([n]) == if IsVarDeclaration(n) then [n] else [];
    ReportsAppend(prog, VarDeclarationsIn([n]), VarDeclarationsIn(PreOrderSeq(cs)));
  }

  lemma {:induction false} IssuesOfSeqFollowWalk(prog: Program, ns: seq<Node>)
    ensures IssuesOfSeq(prog, ns) == Reports(prog, VarDeclarationsIn(PreOrderSeq(ns)))
    decreases SizeSeq(ns), 1
  {
    if ns != [] {
      IssuesOfNodeFollowWalk(prog, ns[0]);
      IssuesOfSeqFollowWalk(prog, ns[1..]);
      VarDeclarationsInAppend(PreOrder(ns[0]), PreOrderSeq(ns[1..]));
      ReportsAppend(prog, VarDeclarationsIn(PreOrder(ns[0])), VarDeclarationsIn(PreOrderSeq(ns[1..])));
    }
  }

  /**
   * Exactly one issue per `var` declaration, in walk order; the issue's line is the
   * declaration's start line, and its message is the `let` suggestion exactly when the
   * declaration is reassigned and the `const` suggestion exactly when it is not.
   */
  lemma IssuesFollowVarDeclarations(prog: Program)
    ensures |ExpectedIssues(prog)| == |VarDeclarations(prog)|
    ensures forall k :: 0 <= k < |ExpectedIssues(prog)| ==>
      var d := VarDeclarations(prog)[k];
      && IsVarDeclaration(d)
      && ExpectedIssues(prog)[k].line == d.line
      && (ExpectedIssues(prog)[k].message == LetMessage <==> Reassigned(prog, d.declarations))
      && (ExpectedIssues(prog)[k].message == ConstMessage <==> !Reassigned(prog, d.declarations))
  {
    IssuesOfSeqFollowWalk(prog, prog.body);
    var vs := VarDeclarations(prog);
    forall k | 0 <= k < |vs| ensures IsVarDeclaration(vs[k]) {
      assert vs[k] in vs;
    }
  }

  /** A program with no `var` declaration anywhere (only `let`/`const`, or none) yields no issue. */
  lemma NoVarDeclarationsNoIssues(prog: Program)
    requires forall m :: m in PreOrderSeq(prog.body) ==> !IsVarDeclaration(m)
    ensures ExpectedIssues(prog) == []
  {
    IssuesFollowVarDeclarations(prog);
    NoVarDeclarationsIn(PreOrderSeq(prog.body));
  }

  /**
   * Assignments decide only the messages: two programs with the same `var` declarations in
   * the same walk order get the same number of issues at the same lines.
   */
  lemma AssignmentsDoNotChangeIssueLines(p: Program, q: Program)
    requires VarDeclarations(p) == VarDeclarations(q)
    ensures |ExpectedIssues(p)| == |ExpectedIssues(q)|
    ensures forall k :: 0 <= k < |ExpectedIssues(p)| ==> ExpectedIssues(p)[k].line == ExpectedIssues(q)[k].line
  {
    IssuesFollowVarDeclarations(p);
    IssuesFollowVarDeclarations(q);
  }

  /** The subtree of a node that contains no `var` declaration pushes nothing. */
  lemma NoVarInSubtreesNoIssues(prog: Program, ns: seq<Node>)
    requires forall m :: m in PreOrderSeq(ns) ==> !IsVarDeclaration(m)
    ensures IssuesOfSeq(prog, ns) == []
  {
    IssuesOfSeqFollowWalk(prog, ns);
    NoVarDeclarationsIn(PreOrderSeq(ns));
  }

  /**
   * One `var` declaration yields one issue however many declarators it has
   * (`var a = 1, b = 2, c;`), as long as its initialisers hold no `var` declarations of their own.
   */
  lemma OneIssuePerDeclaration(prog: Program, line: nat, ds: seq<Node>)
    requires forall m :: m in PreOrderSeq(ds) ==> !IsVarDeclaration(m)
    ensures IssuesOfNode(prog, VariableDeclaration(line, Var, ds))
         == [Issue(line, if Reassigned(prog, ds) then LetMessage else ConstMessage)]
  {
    NoVarInSubtreesNoIssues(prog, ds);
  }

  /** The set of names a subtree assigns to is exactly what the walk of it finds. */
  lemma {:induction false} AssignedNamesByWalk(n: Node, x: string)
    ensures x in AssignedNames(n) <==>
      exists m :: m in PreOrder(n) && m.AssignmentExpression? && m.left.Identifier? && m.left.name == x
    decreases Size(n), 0
  {
    AssignedNamesSeqByWalk(Children(n), x);
  }

  lemma {:induction false} AssignedNamesSeqByWalk(ns: seq<Node>, x: string)
    ensures x in AssignedNamesSeq(ns) <==>
      exists m :: m in PreOrderSeq(ns) && m.AssignmentExpression? && m.left.Identifier? && m.left.name == x
    decreases SizeSeq(ns), 1
  {
    if ns != [] {
      AssignedNamesByWalk(ns[0], x);
      AssignedNamesSeqByWalk(ns[1..], x);
    }
  }

  /**
   * The scan's verdict as set algebra: a declaration is reassigned exactly when one of the
   * names its declarators bind is assigned to, as a plain identifier, somewhere in the body.
   */
  lemma ReassignedIffNamesMeet(prog: Program, ds: seq<Node>)
    ensures Reassigned(prog, ds) <==> DeclaredNames(ds) * AssignedNamesSeq(prog.body) != {}
  {
    if Reassigned(prog, ds) {
      var m :| m in PreOrderSeq(prog.body) && MarksReassignment(m, ds);
      var x := m.left.name;
      AssignedNamesSeqByWalk(prog.body, x);
      var i :| 0 <= i < |ds| && DeclaratorNamed(ds[i], x);
      assert x in DeclaredNames(ds);
      assert x in DeclaredNames(ds) * AssignedNamesSeq(prog.body);
    }
    if DeclaredNames(ds) * AssignedNamesSeq(prog.body) != {} {
      var x :| x in DeclaredNames(ds) * AssignedNamesSeq(prog.body);
      AssignedNamesSeqByWalk(prog.body, x);
      var m :| m in PreOrderSeq(prog.body) && m.AssignmentExpression? && m.left.Identifier? && m.left.name == x;
      var i :| 0 <= i < |ds| && ds[i].VariableDeclarator? && ds[i].id.Identifier? && ds[i].id.name == x;
      assert DeclaratorNamed(ds[i], x);
      assert MarksReassignment(m, ds);
    }
  }

  /**
   * The scan covers every top-level statement at every depth: an assignment to a declared
   * name in any statement, also one written before the declaration or inside a nested
   * function, makes the declaration's issue the `let` suggestion.
   */
  lemma AssignmentAnywhereSuggestsLet(prog: Program, d: Node, j: nat, m: Node)
    requires IsVarDeclaration(d)
    requires j < |prog.body| && m in PreOrder(prog.body[j])
    requires m.AssignmentExpression? && m.left.Identifier? && m.left.name in DeclaredNames(d.declarations)
    ensures IssueFor(prog, d).message == LetMessage
  {
    StatementWalkInBodyWalk(prog.body, j, m);
    var ds := d.declarations;
    var i :| 0 <= i < |ds| && ds[i].VariableDeclarator? && ds[i].id.Identifier? && ds[i].id.name == m.left.name;
    assert DeclaratorNamed(ds[i], m.left.name);
    assert MarksReassignment(m, ds);
  }

  /**
   * An assignment whose target is not a plain identifier (`o.x = 1`, `a[i] = 2`) never marks
   * a declaration as reassigned: adding a top-level statement in which every assignment, at
   * any depth, has such a target changes no declaration's verdict.
   */
  lemma NonIdentifierTargetIgnored(pre: seq<Node>, st: Node, post: seq<Node>, ds: seq<Node>)
    requires forall m :: m in PreOrder(st) && m.AssignmentExpression? ==> !m.left.Identifier?
    ensures Reassigned(Program(pre + [st] + post), ds) <==> Reassigned(Program(pre + post), ds)
  {
    forall x | x in AssignedNames(st)
      ensures false
    {
      AssignedNamesByWalk(st, x);
    }
    AssignedNamesSeqAppend(pre + [st], post);
    AssignedNamesSeqAppend(pre, [st]);
    AssignedNamesSeqAppend(pre, post);
    assert AssignedNamesSeq([st]) == AssignedNames(st) by {
      assert [st][1..] == [];
    }
    ReassignedIffNamesMeet(Program(pre + [st] + post), ds);
    ReassignedIffNamesMeet(Program(pre + post), ds);
  }

  lemma {:induction false} AssignedNamesSeqAppend(a: seq<Node>, b: seq<Node>)
    ensures AssignedNamesSeq(a + b) == AssignedNamesSeq(a) + AssignedNamesSeq(b)
    decreases |a|
  {
    if a == [] {
      assert a + b == b;
    } else {
      assert (a + b)[0] == a[0];
      assert (a + b)[1..] == a[1..] + b;
      AssignedNamesSeqAppend(a[1..], b);
    }
  }
}
