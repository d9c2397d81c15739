/**
 * The part of an ESTree-shaped JavaScript syntax tree that the `var` rule looks at,
 * and the pre-order walk over it.
 *
 * Every node carries the line its source location starts on (`loc.start.line`).
 * Node kinds the rule does not inspect (functions, blocks, member expressions,
 * literals, ...) are `Other` nodes that only contribute their children to the walk.
 */
module JsAst {

  datatype Option<T> = None | Some(value: T)

  /** The `kind` of a VariableDeclaration: the keyword it was written with. */
  datatype DeclKind = Var | Let | Const

  datatype Node =
    | VariableDeclaration(line: nat, kind: DeclKind, declarations: seq<Node>)
    | VariableDeclarator(line: nat, id: Node, init: Option<Node>)
    | AssignmentExpression(line: nat, left: Node, right: Node)
    | Identifier(line: nat, name: string)
    | Other(line: nat, children: seq<Node>)

  /** The parser's result: the top-level statements in source order (`ast.body`). */
  datatype Program = Program(body: seq<Node>)

  /** Number of nodes in a subtree; the measure the walk's termination rests on. */
  function Size(n: Node): nat
    decreases n
  {
    match n
    case VariableDeclaration(_, _, ds) => 1 + SizeSeq(ds)
    case VariableDeclarator(_, id, init) =>
      1 + Size(id) + (match init case None => 0 case Some(v) => Size(v))
    case AssignmentExpression(_, l, r) => 1 + Size(l) + Size(r)
    case Identifier(_, _) => 1
    case Other(_, cs) => 1 + SizeSeq(cs)
  }

  function SizeSeq(ns: seq<Node>): nat
    decreases ns
  {
    if ns == [] then 0 else Size(ns[0]) + SizeSeq(ns[1..])
  }

  /** The nodes the walk descends into from `n`, in the order it visits them. */
  function Children(n: Node): (cs: seq<Node>)
    ensures SizeSeq(cs) == Size(n) - 1
  {
    match n
    case VariableDeclaration(_, _, ds) => ds
    case VariableDeclarator(_, id, init) =>
      assert SizeSeq([id]) == Size(id);
      (match init
       case None => [id]
       case Some(v) =>
         assert SizeSeq([v]) == Size(v);
         assert SizeSeq([id, v]) == Size(id) + SizeSeq([v]) by { assert [id, v][1..] == [v]; }
         [id, v])
    case AssignmentExpression(_, l, r) =>
      assert SizeSeq([r]) == Size(r);
      assert SizeSeq([l, r]) == Size(l) + SizeSeq([r]) by { assert [l, r][1..] == [r]; }
      [l, r]
    case Identifier(_, _) => []
    case Other(_, cs) => cs
  }

  /** Every node of the subtree rooted at `n`, in the order a pre-order walk visits them. */
  function PreOrder(n: Node): seq<Node>
    decreases Size(n), 0
  {
    [n] + PreOrderSeq(Children(n))
  }

  /** The pre-order walks of several trees, one after the other. */
  function PreOrderSeq(ns: seq<Node>): seq<Node>
    decreases SizeSeq(ns), 1
  {
    if ns == [] then [] else PreOrder(ns[0]) + PreOrderSeq(ns[1..])
  }

  /** Walking two lists of trees one after the other is walking their concatenation. */
  lemma {:induction false} PreOrderSeqAppend(a: seq<Node>, b: seq<Node>)
    ensures PreOrderSeq(a + b) == PreOrderSeq(a) + PreOrderSeq(b)
    decreases |a|
  {
    if a == [] {
      assert a + b == b;
    } else {
      assert (a + b)[0] == a[0];
      assert (a + b)[1..] == a[1..] + b;
      PreOrderSeqAppend(a[1..], b);
    }
  }

  /**
   * One step of a worklist walk: visiting the first pending tree's root and putting its
   * children in front of the rest leaves exactly the remainder of the pre-order walk.
   */
  lemma WalkStep(pending: seq<Node>)
    requires pending != []
    ensures PreOrderSeq(pending)
         == [pending[0]] + PreOrderSeq(Children(pending[0]) + pending[1..])
  {
    PreOrderSeqCons(pending);
    PreOrderSeqAppend(Children(pending[0]), pending[1..]);
    Regroup([pending[0]], PreOrderSeq(Children(pending[0])), PreOrderSeq(pending[1..]));
  }

  lemma PreOrderSeqCons(ns: seq<Node>)
    requires ns != []
    ensures PreOrderSeq(ns) == [ns[0]] + PreOrderSeq(Children(ns[0])) + PreOrderSeq(ns[1..])
  {
  }

  /** Concatenation is associative (a step the loop proofs name explicitly). */
  lemma Regroup<T>(a: seq<T>, b: seq<T>, c: seq<T>)
    ensures a + b + c == a + (b + c)
  {
  }

  /** The walk of each top-level statement is part of the walk of the whole body. */
  lemma {:induction false} StatementWalkInBodyWalk(ns: seq<Node>, j: nat, m: Node)
    requires j < |ns| && m in PreOrder(ns[j])
    ensures m in PreOrderSeq(ns)
    decreases j
  {
    if j > 0 {
      StatementWalkInBodyWalk(ns[1..], j - 1, m);
    }
  }

  /**
   * The walk is closed under descent: whatever the walk of a node reached during a walk
   * visits is visited by that walk too (so an assignment nested at any depth, e.g. in a
   * function body, is found by the walk of the enclosing statement).
   */
  lemma {:induction false} DescendantWalkInWalk(n: Node, c: Node, m: Node)
    requires c in PreOrder(n) && m in PreOrder(c)
    ensures m in PreOrder(n)
    decreases Size(n), 0
  {
    if c != n {
      DescendantWalkInSeqWalk(Children(n), c, m);
    }
  }

  lemma {:induction false} DescendantWalkInSeqWalk(ns: seq<Node>, c: Node, m: Node)
    requires c in PreOrderSeq(ns) && m in PreOrder(c)
    ensures m in PreOrderSeq(ns)
    decreases SizeSeq(ns), 1
  {
    if c in PreOrder(ns[0]) {
      DescendantWalkInWalk(ns[0], c, m);
    } else {
      DescendantWalkInSeqWalk(ns[1..], c, m);
    }
  }

  /** The walk lists as many nodes as the tree has. */
  lemma {:induction false} PreOrderLength(n: Node)
    ensures |PreOrder(n)| == Size(n)
    decreases Size(n), 0
  {
    PreOrderSeqLength(Children(n));
  }

  lemma {:induction false} PreOrderSeqLength(ns: seq<Node>)
    ensures |PreOrderSeq(ns)| == SizeSeq(ns)
    decreases SizeSeq(ns), 1
  {
    if ns != [] {
      PreOrderLength(ns[0]);
      PreOrderSeqLength(ns[1..]);
    }
  }
}
