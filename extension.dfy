/**
 * The `extension.scanDocument` command: reject a missing editor and an empty document,
 * parse, run the analyzer, show one notification per issue and then a completion notice.
 *
 * The editor's text is a parameter (None when there is no active editor), and the parser is
 * a function parameter that yields None wherever the steps before the analysis throw: a
 * syntax error, or serialising the tree for the console log (which fails on a BigInt literal
 * value). The console logging itself is not modelled.
 */
module Extension {
  import opened JsAst
  import opened VarRule
  import opened Report
  import opened Analyzer

  /** A notification shown by the editor: an information or an error message. */
  datatype Notification = Info(text: string) | Error(text: string)

  const NoEditorMessage := "No active editor found."
  const EmptyDocumentMessage := "The active document is empty."
  const AnalysisFailedMessage := "Error occurred during AST analysis. Check the console for details."
  const AnalysisCompleteMessage := "AST analysis complete. Check the console for details."

  method ScanDocument(document: Option<string>, parse: string -> Option<Program>)
    returns (shown: seq<Notification>)
    ensures document.None? ==> shown == [Error(NoEditorMessage)]
    ensures document.Some? && document.value == "" ==> shown == [Error(EmptyDocumentMessage)]
    ensures document.Some? && document.value != "" && parse(document.value).None? ==>
      shown == [Error(AnalysisFailedMessage)]
    ensures document.Some? && document.value != "" && parse(document.value).Some? ==>
      var issues := ExpectedIssues(parse(document.value).value);
      && |shown| == |issues| + 1
      && (forall k :: 0 <= k < |issues| ==> shown[k] == Info(FormatIssue(issues[k])))
      && shown[|issues|] == Info(AnalysisCompleteMessage)
  {
    if document.None? {
      return [Error(NoEditorMessage)];
    }
    var documentText := document.value;
    if documentText == "" {
      return [Error(EmptyDocumentMessage)];
    }
    var parsed := parse(documentText);
    if parsed.None? {
      return [Error(AnalysisFailedMessage)];
    }
    var issues := AnalyzeVariableDeclarations(parsed.value);
    shown := [];
    var i := 0;
    while i < |issues|
      invariant 0 <= i <= |issues| && |shown| == i
      invariant forall k :: 0 <= k < i ==> shown[k] == Info(FormatIssue(issues[k]))
    {
      shown := shown + [Info(FormatIssue(issues[i]))];
      i := i + 1;
    }
    shown := shown + [Info(AnalysisCompleteMessage)];
  }
}
