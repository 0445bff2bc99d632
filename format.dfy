/**
 * The formatter (server/src/server.ts, `formatDocument`): one pass over the
 * lines with an indentation level. Lines that are blank or start with `#`
 * are left alone; every other line is expected to start with four spaces
 * per level, and an edit replaces its indentation when it differs.
 */
module Format {
  import opened Wrappers
  import opened Lsp
  import opened Patterns
  import opened Document

  /** Words that close the block above them: the line itself is indented one level less. */
  const DedentWords: seq<string> := ["end", "elsif", "elseif", "else", "when", "rescue", "ensure"]
  /** Words that open a block. */
  const BlockWords: seq<string> := ["class", "cls", "struct", "module", "mod", "def", "define", "fun", "function",
    "if", "unless", "case", "select", "begin", "while", "when", "rescue", "ensure", "enum", "record", "annotation", "anno"]
  /** Words that continue a block after closing its previous branch. */
  const BranchWords: seq<string> := ["elsif", "elseif", "else"]

  /** `'    '.repeat(n)`. */
  function Indent(n: nat): (s: string)
    ensures |s| == 4 * n
    ensures forall k :: 0 <= k < |s| ==> s[k] == ' '
  {
    if n == 0 then "" else "    " + Indent(n - 1)
  }

  predicate Dedents(line: string) {
    StartsWithKeyword(line, DedentWords)
  }

  /** How much a non-skipped line raises the level for the lines after it. */
  function Increment(line: string): nat {
    if StartsWithKeyword(line, BlockWords) && !EndsWithEnd(line) then 1
    else if HasDo(line) && !EndsWithEnd(line) then 1
    else if StartsWithKeyword(line, ["end"]) then 0
    else if StartsWithKeyword(line, BranchWords) then 1
    else 0
  }

  /** What a line does to the indentation level: all the formatter needs to know about it besides its indentation. */
  datatype Effect = Effect(skipped: bool, dedents: bool, increment: nat)

  function EffectOf(line: string): Effect {
    Effect(BlankOrComment(line), Dedents(line), Increment(line))
  }

  /** The effect of each line, in order. */
  function Effects(lines: seq<string>): (es: seq<Effect>)
    ensures |es| == |lines|
  {
    seq(|lines|, i requires 0 <= i < |lines| => EffectOf(lines[i]))
  }

  /** The level a non-skipped line is indented to, when the level before it is `level`. */
  function LevelOn(e: Effect, level: nat): nat {
    if e.dedents then (if level > 0 then level - 1 else 0) else level
  }

  /** The level after a line. */
  function LevelAfter(e: Effect, level: nat): nat {
    if e.skipped then level else LevelOn(e, level) + e.increment
  }

  /** The level in force when line `i` is reached. */
  function LevelBefore(es: seq<Effect>, i: nat): nat
    requires i <= |es|
  {
    if i == 0 then 0 else LevelAfter(es[i - 1], LevelBefore(es, i - 1))
  }

  /** The edit line `i` needs, if any, when its effect is `e` and the level before it is `level`. */
  function LineEdit(line: string, e: Effect, i: nat, level: nat): (edit: Option<TextEdit>)
    ensures edit.Some? <==> !e.skipped && line[..LeadingSpaces(line)] != Indent(LevelOn(e, level))
    ensures edit.Some? ==> edit.value == TextEdit(Range(i, 0, i, LeadingSpaces(line)), Indent(LevelOn(e, level)))
  {
    if e.skipped then None
    else
      var expected := Indent(LevelOn(e, level));
      var current := line[..LeadingSpaces(line)];
      if current != expected then Some(TextEdit(Range(i, 0, i, |current|), expected)) else None
  }

  /** The edit each line needs, line by line. */
  function LineEdits(lines: seq<string>): (found: seq<Option<TextEdit>>)
    ensures |found| == |lines|
  {
    var es := Effects(lines);
    seq(|lines|, i requires 0 <= i < |lines| => LineEdit(lines[i], es[i], i, LevelBefore(es, i)))
  }

  /** The formatter's edits: those the lines need, in line order. */
  function FormatEdits(lines: seq<string>): seq<TextEdit> {
    Compact(LineEdits(lines), 0)
  }

  /** `formatDocument`. */
  method FormatDocument(text: string) returns (edits: seq<TextEdit>)
    ensures edits == FormatEdits(SplitLines(text))
  {
    var lines := SplitLines(text);
    ghost var es := Effects(lines);
    ghost var found := LineEdits(lines);
    edits := [];
    var indentLevel := 0;
    var i := 0;
    while i < |lines|
      invariant 0 <= i <= |lines|
      invariant indentLevel == LevelBefore(es, i)
      invariant edits + Compact(found, i) == Compact(found, 0)
    {
      CompactStep(found, i, edits);
      var edit, next := FormatLine(lines[i], i, indentLevel);
      edits := edits + ToSeq(edit);
      indentLevel := next;
      i := i + 1;
    }
  }

  /** One turn of the formatter's loop: the edit line `i` needs, and the level after it. */
  method FormatLine(line: string, i: nat, level: nat) returns (edit: Option<TextEdit>, next: nat)
    ensures edit == LineEdit(line, EffectOf(line), i, level)
    ensures next == LevelAfter(EffectOf(line), level)
  {
    var trimmed := Trim(line);
    if trimmed == [] || trimmed[0] == '#' {
      return None, level;
    }
    var indentLevel := level;
    if StartsWithKeyword(line, DedentWords) {
      indentLevel := if indentLevel > 0 then indentLevel - 1 else 0;
    }
    var expectedIndent := Indent(indentLevel);
    var currentIndent := line[..LeadingSpaces(line)];
    edit := None;
    if currentIndent != expectedIndent {
      edit := Some(TextEdit(Range(i, 0, i, |currentIndent|), expectedIndent));
    }
    if StartsWithKeyword(line, BlockWords) && !EndsWithEnd(line) {
      indentLevel := indentLevel + 1;
    } else if HasDo(line) && !EndsWithEnd(line) {
      indentLevel := indentLevel + 1;
    } else if StartsWithKeyword(line, ["end"]) {
    } else if StartsWithKeyword(line, BranchWords) {
      indentLevel := indentLevel + 1;
    }
    next := indentLevel;
  }

  // ----- what the edits do -----

  /** A line as the formatter leaves it: its text after the indentation kept, at the level's indentation. */
  function ReindentLine(line: string, e: Effect, level: nat): string {
    if e.skipped then line else Indent(LevelOn(e, level)) + Rest(line)
  }

  function Reindented(lines: seq<string>): (r: seq<string>)
    ensures |r| == |lines|
  {
    var es := Effects(lines);
    seq(|lines|, i requires 0 <= i < |lines| => ReindentLine(lines[i], es[i], LevelBefore(es, i)))
  }

  /** A run of four spaces per level. */
  ghost predicate IsIndent(t: string) {
    exists n: nat :: t == Indent(n)
  }

  /** Every edit replaces the whole indentation of one line of the document, and nothing else, with spaces. */
  lemma EditsTouchIndentOnly(lines: seq<string>)
    ensures forall k :: 0 <= k < |FormatEdits(lines)| ==>
      var e := FormatEdits(lines)[k];
      var l := e.range.startLine;
      l < |lines| && e.range.endLine == l && e.range.startCol == 0 && e.range.endCol == LeadingSpaces(lines[l]) &&
      IsIndent(e.newText)
    ensures forall k :: 0 <= k < |FormatEdits(lines)| - 1 ==>
      FormatEdits(lines)[k].range.startLine < FormatEdits(lines)[k + 1].range.startLine
  {
    var found := LineEdits(lines);
    var es := Effects(lines);
    var idx := Present(found, 0);
    CompactIsGather(found, 0);
    var r := Gather(found, idx);
    assert FormatEdits(lines) == r;
    forall k | 0 <= k < |r|
      ensures r[k].range.startLine == idx[k] < |lines|
      ensures r[k].range.endLine == idx[k] && r[k].range.startCol == 0 && r[k].range.endCol == LeadingSpaces(lines[idx[k]])
      ensures IsIndent(r[k].newText)
    {
      var j := idx[k];
      assert found[j] == LineEdit(lines[j], es[j], j, LevelBefore(es, j));
      assert r[k] == found[j].value;
      assert r[k].newText == Indent(LevelOn(es[j], LevelBefore(es, j)));
    }
  }

  /** The text after the indentation of every line is what it was. */
  lemma ReindentKeepsText(lines: seq<string>, i: nat)
    requires i < |lines|
    ensures Rest(Reindented(lines)[i]) == Rest(lines[i])
  {
    var es := Effects(lines);
    var line := lines[i];
    if !es[i].skipped {
      RestAfterIndent(Indent(LevelOn(es[i], LevelBefore(es, i))), Rest(line));
    }
  }

  /** The edits turn the document into the reindented one. */
  lemma ApplyFormatEdits(lines: seq<string>)
    ensures ApplyEdits(lines, FormatEdits(lines)) == Reindented(lines)
  {
    var found := LineEdits(lines);
    var states := seq(|lines| + 1, k requires 0 <= k <= |lines| => Partial(lines, k));
    forall k | 0 <= k < |found| ensures Steps(states[k], found[k], states[k + 1]) {
      ApplyLineEdit(lines, k);
    }
    ApplyChain(states, found, 0);
    assert states[0] == lines;
    PartialDone(lines);
  }

  lemma PartialDone(lines: seq<string>)
    ensures Partial(lines, |lines|) == Reindented(lines)
  {
  }

  /**
   * A chain of documents, each taken to the next by one optional edit: the
   * edits present from `j` on take document `j` to the last one.
   */
  lemma {:induction false} ApplyChain(states: seq<seq<string>>, found: seq<Option<TextEdit>>, j: nat)
    requires |states| == |found| + 1 && j <= |found|
    requires forall k :: 0 <= k < |found| ==> Steps(states[k], found[k], states[k + 1])
    ensures ApplyEdits(states[j], Compact(found, j)) == states[|found|]
    decreases |found| - j
  {
    if j < |found| {
      ApplyChain(states, found, j + 1);
      StepThenRest(states[j], found[j], states[j + 1], Compact(found, j + 1));
    }
  }

  /** `before` becomes `after` by the edit, if there is one. */
  predicate Steps(before: seq<string>, edit: Option<TextEdit>, after: seq<string>) {
    match edit
    case Some(e) => ApplyEdit(before, e) == after
    case None => before == after
  }

  lemma StepThenRest(before: seq<string>, edit: Option<TextEdit>, after: seq<string>, rest: seq<TextEdit>)
    requires Steps(before, edit, after)
    ensures ApplyEdits(before, ToSeq(edit) + rest) == ApplyEdits(after, rest)
  {
    if edit.Some? {
      var edits := [edit.value] + rest;
      assert ToSeq(edit) + rest == edits;
      assert edits[0] == edit.value && edits[1..] == rest;
    } else {
      assert ToSeq(edit) + rest == rest;
    }
  }

  /** The document with the lines before `j` reindented and the others as they were. */
  function Partial(lines: seq<string>, j: nat): (p: seq<string>)
    requires j <= |lines|
    ensures |p| == |lines|
  {
    seq(|lines|, k requires 0 <= k < |lines| => if k < j then Reindented(lines)[k] else lines[k])
  }

  /** Reindenting line `j` of the partial document gives the next one. */
  lemma PartialStep(lines: seq<string>, j: nat)
    requires j < |lines|
    ensures Partial(lines, j)[j := Reindented(lines)[j]] == Partial(lines, j + 1)
  {
  }

  /** The edit for line `j`, applied to a document whose line `j` is still the original, reindents that line. */
  lemma ApplyLineEdit(lines: seq<string>, j: nat)
    requires j < |lines|
    ensures Steps(Partial(lines, j), LineEdits(lines)[j], Partial(lines, j + 1))
  {
    var es := Effects(lines);
    PartialStep(lines, j);
    LineEditSteps(Partial(lines, j), lines[j], es[j], j, LevelBefore(es, j));
  }

  /** The edit a line needs takes a document holding that line at `j` to the one holding it reindented. */
  lemma LineEditSteps(p: seq<string>, line: string, e: Effect, j: nat, level: nat)
    requires j < |p| && p[j] == line
    ensures Steps(p, LineEdit(line, e, j, level), p[j := ReindentLine(line, e, level)])
  {
    IndentSplit(line);
    var found := LineEdit(line, e, j, level);
    if found.Some? {
      var w := Indent(LevelOn(e, level));
      var n := LeadingSpaces(line);
      assert line[..0] + w + line[n..] == ReindentLine(line, e, level);
    }
  }

  // ----- formatting twice -----

  /** What the formatter decides about a line depends only on the text after its indentation. */
  lemma DecidedByText(line: string, line': string)
    requires Rest(line) == Rest(line')
    ensures EffectOf(line) == EffectOf(line')
  {
    IndentSplit(line);
    IndentSplit(line');
    HasDoIgnoresIndent(line[..LeadingSpaces(line)], Rest(line));
    HasDoIgnoresIndent(line'[..LeadingSpaces(line')], Rest(line'));
    EndsWithEndIgnoresIndent(line[..LeadingSpaces(line)], Rest(line));
    EndsWithEndIgnoresIndent(line'[..LeadingSpaces(line')], Rest(line'));
    assert Increment(line) == Increment(line');
  }

  /** Reindenting changes no line's effect. */
  lemma SameEffects(lines: seq<string>)
    ensures Effects(Reindented(lines)) == Effects(lines)
  {
    var r := Reindented(lines);
    forall i | 0 <= i < |lines| ensures Effects(r)[i] == Effects(lines)[i] {
      ReindentKeepsText(lines, i);
      DecidedByText(r[i], lines[i]);
    }
  }

  /** Formatting is idempotent: a reindented document needs no edit. */
  lemma FormatIdempotent(lines: seq<string>)
    ensures FormatEdits(Reindented(lines)) == []
    ensures FormatEdits(ApplyEdits(lines, FormatEdits(lines))) == []
  {
    var r := Reindented(lines);
    var es := Effects(lines);
    var found := LineEdits(r);
    SameEffects(lines);
    forall i | 0 <= i < |r| ensures found[i].None? {
      assert found[i] == LineEdit(r[i], es[i], i, LevelBefore(es, i));
      if !es[i].skipped {
        var w := Indent(LevelOn(es[i], LevelBefore(es, i)));
        assert r[i] == w + Rest(lines[i]);
        RestAfterIndent(w, Rest(lines[i]));
        assert r[i][..LeadingSpaces(r[i])] == w;
      }
    }
    CompactNone(found, 0);
    ApplyFormatEdits(lines);
  }
}
