# var → let/const lint rule, modelled in Dafny

The repository is a VS Code extension whose one piece of logic is a lint rule over a parsed
JavaScript syntax tree, `analyzeVariableDeclarations`. The rule walks the tree in pre-order.
Every `VariableDeclaration` of kind `var` gets exactly one issue `{line, message}` at the
declaration's start line. To choose the message, the rule rescans every top-level statement
of the program, at every depth. If some `AssignmentExpression` whose left side is a plain
`Identifier` assigns to a name that one of the declaration's declarators binds, the message is
"Consider using 'let' instead of 'var' here due to reassignment.". Otherwise it is
"Consider using 'const' instead of 'var' here.". The `extension.scanDocument` command turns
the issues into `Line <n>: <message>` notifications.

Files:

- `ast.dfy` (module `JsAst`): the tree as a datatype. Its nodes are `VariableDeclaration`,
  `VariableDeclarator`, `AssignmentExpression`, `Identifier`, and `Other` for any other node
  kind, which only has children. Each node carries its start line. Also here: the library walk
  as a pre-order listing (`PreOrder`) and its lemmas.
- `var_rule.dfy` (module `VarRule`): what the rule reports, as functions of the tree. There is
  a tree fold (`ExpectedIssues`) and two reference definitions: the `var` declarations in walk
  order, and the set of assigned names. Lemmas connect them.
- `analyzer.dfy` (module `Analyzer`): the analyzer as the source runs it. It is a worklist
  pre-order walk that appends to an issue list that starts empty. At each `var` declaration it
  runs a nested `forEach` plus walk over `ast.body`, with a flag that is reset per declaration
  and only ever set to true. Both methods are proved against the functions of `VarRule`.
- `report.dfy` (module `Report`): the log-line format. It has a decimal numeral and a parser
  for the line, which is its inverse.
- `extension.dfy` (module `Extension`): the `scanDocument` command flow. It covers a missing
  editor, the empty-text guard, a parse failure, one notification per issue, and the final
  completion notice.
- `scenarios.dfy` (module `Scenarios`): small programs, on any lines and with any names, and the issues the rule gives for them.

Matching is by name only, with no scopes. So an assignment written before the declaration, or
one inside a nested function, still makes a declaration "reassigned". An update expression
such as `i++` is not an `AssignmentExpression`, so it does not count; in the model it is an
`Other` node. Any assignment operator counts (`x += 1` is an `AssignmentExpression` too). The
model does not record the operator, because the rule never reads it.

The tree is a Dafny value, so the analyzer cannot modify it. The analyzer's result is a
function of the tree alone.

## Model

| member | source | states |
|---|---|---|
| `Analyzer.AnalyzeVariableDeclarations` | aaa.js:40-69 | the returned list is exactly `ExpectedIssues(ast)`: the walk from an empty list, with one push per `var` declaration |
| `Analyzer.ScanForReassignment` | aaa.js:45-57 | the flag after scanning every top-level statement equals `Reassigned`: some node of the pre-order walk of the body is an assignment to a plain identifier that a declarator of this declaration names |
| `Analyzer.WalkStatement` | aaa.js:49-56 | walking one statement, the flag comes out set iff it went in set or the statement's pre-order walk visits an assignment to a declared name |
| `Analyzer.ReportDeclaration` | aaa.js:44-64 | the callback at a `var` declaration produces exactly `IssueFor`: its line, with the let text iff it is reassigned |
| `Analyzer.AnalyzeTwice` | aaa.js:40-69 | two runs on the same tree return identical lists |
| `VarRule.SomeDeclaratorNamed` | aaa.js:52 | `declarations.some(d => d.id.name === x)` holds iff some entry is a declarator whose target is an identifier named `x` |
| `VarRule.IssuesFollowVarDeclarations` | aaa.js:43-64 | there is one issue per `var` declaration, in pre-order encounter order; issue k has the line of the k-th declaration; its message is the let text iff that declaration is reassigned, and the const text iff it is not |
| `VarRule.IssuesOfNodeFollowWalk` | aaa.js:43-64 | the issues of a subtree are the reports of the `var` declarations among its pre-order walk, in order |
| `VarRule.IssuesOfSeqFollowWalk` | aaa.js:43-64 | the same, for a list of statements |
| `VarRule.NoVarDeclarationsNoIssues` | aaa.js:44 | a program whose walk meets no `var` declaration (only `let`/`const`, or none) yields the empty list |
| `VarRule.NoVarInSubtreesNoIssues` | aaa.js:44 | statements that contain no `var` declaration push no issue |
| `VarRule.AssignmentsDoNotChangeIssueLines` | aaa.js:59-60 | two programs with the same `var` declarations in walk order get the same number of issues at the same lines, whatever their assignments |
| `VarRule.OneIssuePerDeclaration` | aaa.js:45-64 | a `var` declaration with any number of declarators, and no `var` inside its initialisers, yields exactly one issue at its line |
| `VarRule.IssuesOfSeqAppend` | aaa.js:41-43 | the issues of earlier statements come first: the issues of `a + b` are those of `a` followed by those of `b` |
| `VarRule.ReassignedIffNamesMeet` | aaa.js:48-54 | a declaration is reassigned iff the names its declarators bind meet the names assigned as plain identifiers anywhere in the body (both directions) |
| `VarRule.AssignedNamesByWalk` | aaa.js:49-51 | a name is assigned in a subtree iff the walk of the subtree visits an identifier assignment to it |
| `VarRule.AssignedNamesSeqByWalk` | aaa.js:48-51 | the same, for a list of statements |
| `VarRule.AssignmentAnywhereSuggestsLet` | aaa.js:48-53 | an identifier assignment to a declared name, in any top-level statement (before the declaration or after it) and at any depth, makes the message the let text |
| `VarRule.NonIdentifierTargetIgnored` | aaa.js:50 | adding a top-level statement in which every assignment, at any depth, has a target that is not a plain identifier (`o.x = 1;`, `a[i] = 2;`) changes no declaration's verdict |
| `VarRule.AnyMarksSnoc` | aaa.js:52-53 | once the scan's flag is set it stays set; visiting one more node sets it iff that node marks the declaration |
| `VarRule.IssuesStep` | aaa.js:43-64 | one walk step: the visited node's own issue, then the issues of its children and of the rest of the worklist |
| `VarRule.VarDeclarationsIn` | aaa.js:44 | the reference list holds exactly the `var` declarations of the walk |
| `VarRule.Reports` | aaa.js:59-64 | one issue per declaration, in the same order, each giving that declaration's line and verdict |
| `JsAst.WalkStep` | aaa.js:43 | one worklist step (visit the head, push its children in front) consumes exactly the head of the remaining pre-order walk |
| `JsAst.PreOrderSeqAppend` | aaa.js:48-49 | walking statements one after the other is walking their concatenation |
| `JsAst.StatementWalkInBodyWalk` | aaa.js:48-49 | every node that the walk of one top-level statement visits is visited by the scan of the whole body |
| `JsAst.DescendantWalkInWalk` | aaa.js:49 | the walk is closed under descent: nodes below a visited node are visited too |
| `JsAst.DescendantWalkInSeqWalk` | aaa.js:48-49 | the same, for a list of statements |
| `JsAst.PreOrderLength` | aaa.js:43 | the walk lists as many nodes as the tree has |
| `JsAst.PreOrderSeqLength` | aaa.js:48-49 | the same, for a list of statements |
| `Report.Decimal` | aaa.js:124 | the numeral of a line is a non-empty run of digits, with no leading zero unless the line is 0 |
| `Report.DecimalRoundTrip` | aaa.js:124 | reading the numeral back gives the line |
| `Report.DigitRun` | aaa.js:124 | the length of the longest leading run of digits |
| `Report.FormatIssueRoundTrip` | aaa.js:124 | parsing `Line ${line}: ${message}` gives back the issue |
| `Report.FormatIssueInjective` | aaa.js:124 | different issues print as different log lines |
| `Extension.ScanDocument` | aaa.js:104-137 | no editor gives the "No active editor found." error; empty text gives the empty-document error and no parse; a parse failure gives the analysis-failed error; otherwise there is one `Line n: message` notification per issue, in order, then the completion notice |
| `Scenarios.NeverAssignedSuggestsConst` | aaa.js:40-69 | `var x = 1;` gives one issue, at its line, with the const text |
| `Scenarios.AssignedSuggestsLet` | aaa.js:40-69 | `var x = 1; x = 2;` gives one issue, at the declaration's line, with the let text |
| `Scenarios.EarlierAssignmentSuggestsLet` | aaa.js:48-53 | `x = 2; var x = 1;` also gives the let text: the scan is not limited to statements after the declaration |
| `Scenarios.MemberAssignmentKeepsConst` | aaa.js:50-53 | `var x = 1; x.y = 2;` gives one issue at the declaration's line with the const text: assigning to a property of `x` is not a reassignment of `x` |
| `Scenarios.LetDeclarationIgnored` | aaa.js:44 | `let x = 1; x = 2;` gives no issue |
| `Scenarios.TwoDeclarationsInOrder` | aaa.js:40-69 | `var a = 1; var b = 2; b = 3;` with `a` and `b` distinct gives const for `a` at its line, then let for `b` at its line |

## Left out

- `saveUserData` (aaa.js:21-38): a connect/insert/close sequence against a MongoDB database. It is I/O with an external service.
- The `extension.githubLogin` command (aaa.js:74-102): an OAuth redirect and an HTTP request. It is network glue with no logic.
- The HTTPS agent and the configuration constants (aaa.js:8-18): environment setup only.
- Command registration, `deactivate`, and all console logging in `activate` (aaa.js:71-147). `ScanDocument` keeps only the notifications the user sees.
- `Extension.ScanDocument`: the log at aaa.js:118 can throw, sending the command to the analysis-failed error at aaa.js:130-133. The model does not compute that failure from the tree; it is folded into `parse` returning `None`, so the contract holds only for a `parse` that returns `None` in that case too.
- `parse` from the `abstract-syntax-tree` library (aaa.js:117) is foreign code. `ScanDocument` takes it as a function parameter that returns `None` wherever the steps before the analysis would throw: parsing, and serialising the tree for the log at aaa.js:118 (`JSON.stringify` throws on a BigInt literal value such as that of `1n`). JavaScript grammar and syntax errors are not modelled.
- `walk` from the same library (aaa.js:43, aaa.js:49) is foreign code. It is re-expressed as a pre-order traversal that visits children in field order: declarations; id, then init; left, then right. The library also visits the root `Program` node, but neither callback acts on a `Program`, so the model starts at `ast.body`.
- Source locations are reduced to the start line (a natural number). Columns and end positions are not read by the rule.
- Every node is assumed to carry a start line. The source reads `node.loc.start.line` without a guard (aaa.js:60), so a tree without locations would raise an exception inside the `try` of aaa.js:111-133 and end in the analysis-failed error, as any other exception raised inside the analyzer would. The model has no such failure path.
- An entry of `declarations` that is not a `VariableDeclarator` is treated as matching no name. No ESTree parser produces one; the JavaScript would throw a TypeError on `declaration.id.name`.
- The rule's running time (one full rescan of the body per `var` declaration) is not modelled.
