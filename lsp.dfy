/**
 * Plain records for the editor-protocol values the engine produces:
 * zero-based positions, half-open ranges, severities and text edits.
 */
module Lsp {
  datatype Position = Position(line: nat, character: nat)

  datatype Range = Range(startLine: nat, startCol: nat, endLine: nat, endCol: nat)

  /** The range that covers the whole of line `i`, whose text is `text`. */
  function LineRange(i: nat, text: string): Range {
    Range(i, 0, i, |text|)
  }

  datatype Severity = Error | Warning

  datatype TextEdit = TextEdit(range: Range, newText: string)

  /**
   * The document after `edit`, for an edit within one line: the text between
   * its two columns is replaced. An edit outside the document leaves it as it is.
   */
  function ApplyEdit(lines: seq<string>, edit: TextEdit): (r: seq<string>)
    ensures |r| == |lines|
  {
    var l, a, b := edit.range.startLine, edit.range.startCol, edit.range.endCol;
    if l < |lines| && edit.range.endLine == l && a <= b <= |lines[l]| then
      lines[l := lines[l][..a] + edit.newText + lines[l][b..]]
    else lines
  }

  /** The edits applied one after the other. */
  function ApplyEdits(lines: seq<string>, edits: seq<TextEdit>): (r: seq<string>)
    ensures |r| == |lines|
    decreases |edits|
  {
    if edits == [] then lines else ApplyEdits(ApplyEdit(lines, edits[0]), edits[1..])
  }
}
