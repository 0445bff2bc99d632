/**
 * Validation of a whole document: the per-line pass (block-comment depth,
 * unclosed strings, naming conventions, block structure), the report of the
 * blocks still open at the end, and the document-level bracket balance.
 */
module Validate {
  import opened Wrappers
  import opened Lsp
  import opened Patterns
  import opened Document
  import opened Diagnostics
  import opened Quotes
  import opened Naming
  import opened Blocks
  import opened Brackets

  /** The block-comment depth after a line: its `#[` markers added, its `]#` markers taken away, clamped at zero. */
  function DepthAfter(depth: nat, line: string): (d: nat)
    ensures d as int >= depth + CountPair(line, '#', '[') - CountPair(line, ']', '#')
    ensures d > 0 ==> d as int == depth + CountPair(line, '#', '[') - CountPair(line, ']', '#')
  {
    var d := depth + CountPair(line, '#', '[') - CountPair(line, ']', '#');
    if d < 0 then 0 else d
  }

  /** The lines the per-line checks pass over: inside or closing a block comment, blank, or a line comment. */
  predicate Skipped(depth: nat, line: string) {
    depth > 0 || CountPair(line, ']', '#') > 0 || BlankOrComment(line)
  }

  /** The unclosed-string error, spanning the whole line and naming the quote left open. */
  function QuoteCheck(line: string, i: nat): (d: Option<Diagnostic>)
    ensures d.Some? <==> OpenQuote(line).Some?
    ensures d.Some? ==> d.value == Diagnostic(Error, Range(i, 0, i, |line|), UnclosedString(OpenQuote(line).value))
  {
    match OpenQuote(line)
    case None => None
    case Some(q) => Some(Diagnostic(Error, Range(i, 0, i, |line|), UnclosedString(q)))
  }

  /** The checks of one line, in the order the source makes them. */
  function LineChecks(line: string, i: nat, inEnumBlock: bool): (ds: seq<Diagnostic>)
    ensures OnLine(ds, i)
    ensures |ds| <= 4
  {
    var q := ToSeq(QuoteCheck(line, i));
    var t := ToSeq(TypeNameCheckAsWritten(line, i));
    var m := ToSeq(MethodNameCheck(line, i));
    var c := ToSeq(ConstantCheck(line, i, inEnumBlock));
    OnLineAppend(q, t, i);
    OnLineAppend(q + t, m, i);
    OnLineAppend(q + t + m, c, i);
    q + t + m + c
  }

  /** Every diagnostic of `ds` lies on line `i`. */
  predicate OnLine(ds: seq<Diagnostic>, i: nat) {
    forall d :: d in ds ==> d.range.startLine == i && d.range.endLine == i
  }

  lemma OnLineAppend(a: seq<Diagnostic>, b: seq<Diagnostic>, i: nat)
    requires OnLine(a, i) && OnLine(b, i)
    ensures OnLine(a + b, i)
  {
  }

  /** The state of the per-line pass: comment depth, block state, and the diagnostics so far. */
  datatype Scan = Scan(depth: nat, blocks: Blocks, diagnostics: seq<Diagnostic>)

  const Initial := Scan(0, Blocks([], false), [])

  /** One line's step of the pass: a skipped line only moves the comment depth. */
  function ScanLine(st: Scan, line: string, i: nat): Scan {
    var depth := DepthAfter(st.depth, line);
    if Skipped(depth, line) then Scan(depth, st.blocks, st.diagnostics)
    else Scan(depth, BlockStep(st.blocks, line, i).0, st.diagnostics + Reported(st.blocks, line, i))
  }

  /** What a checked line reports: its own checks, then the orphan-`end` error. */
  function Reported(b: Blocks, line: string, i: nat): (ds: seq<Diagnostic>)
    ensures forall d :: d in ds ==> d.range.startLine == i
  {
    LineChecks(line, i, b.inEnumBlock) + ToSeq(BlockStep(b, line, i).1)
  }

  /** The per-line pass over the first `n` lines. */
  function ScanLines(lines: seq<string>, n: nat): (st: Scan)
    requires n <= |lines|
    ensures FramesBefore(st.blocks.stack, n)
  {
    if n == 0 then Initial
    else
      var st := ScanLines(lines, n - 1);
      ScanLineFrames(st, lines[n - 1], n - 1);
      ScanLine(st, lines[n - 1], n - 1)
  }

  /** Every open block was opened on one of the first `n` lines. */
  predicate FramesBefore(frames: seq<Frame>, n: nat) {
    forall k :: 0 <= k < |frames| ==> frames[k].line < n
  }

  lemma ScanLineFrames(st: Scan, line: string, i: nat)
    requires FramesBefore(st.blocks.stack, i)
    ensures FramesBefore(ScanLine(st, line, i).blocks.stack, i + 1)
  {
    var b := st.blocks;
    if !Skipped(DepthAfter(st.depth, line), line) {
      var next := BlockStep(b, line, i).0;
      if ActionOf(line).End? && b.stack != [] {
        assert forall k :: 0 <= k < |next.stack| ==> next.stack[k] == b.stack[k];
      }
    }
  }

  /** One "Unclosed" error per open block, on the line that opened it, innermost last. */
  function UnclosedReports(lines: seq<string>, frames: seq<Frame>): (r: seq<Diagnostic>)
    requires FramesBefore(frames, |lines|)
    ensures |r| == |frames|
    ensures forall k :: 0 <= k < |frames| ==>
      r[k] == Diagnostic(Error, Range(frames[k].line, 0, frames[k].line, |lines[frames[k].line]|), UnclosedBlock(frames[k].keyword))
  {
    if frames == [] then []
    else
      var last := frames[|frames| - 1];
      UnclosedReports(lines, frames[..|frames| - 1]) +
      [Diagnostic(Error, Range(last.line, 0, last.line, |lines[last.line]|), UnclosedBlock(last.keyword))]
  }

  /** Everything validation reports for a document, in order. */
  function Validation(text: string): seq<Diagnostic> {
    var lines := SplitLines(text);
    var st := ScanLines(lines, |lines|);
    st.diagnostics + UnclosedReports(lines, st.blocks.stack) + ToSeq(BracketCheck(lines[0], Cleaned(text)))
  }

  // ----- properties of the per-line pass -----

  /** A skipped line changes only the comment depth. */
  lemma SkippedLineKeepsState(st: Scan, line: string, i: nat)
    requires Skipped(DepthAfter(st.depth, line), line)
    ensures ScanLine(st, line, i).blocks == st.blocks && ScanLine(st, line, i).diagnostics == st.diagnostics
  {
  }

  /** A line closing a block comment is skipped, whatever the depth before it. */
  lemma ClosingLineSkipped(depth: nat, line: string)
    requires CountPair(line, ']', '#') > 0
    ensures Skipped(DepthAfter(depth, line), line)
  {
  }

  /** The unclosed-string errors among `ds`. */
  function StringErrors(ds: seq<Diagnostic>): (r: seq<Diagnostic>)
    ensures forall d :: d in r ==> d in ds && d.problem.UnclosedString?
    ensures forall d :: d in ds && d.problem.UnclosedString? ==> d in r
  {
    if ds == [] then []
    else (if ds[0].problem.UnclosedString? then [ds[0]] else []) + StringErrors(ds[1..])
  }

  lemma {:induction false} StringErrorsAppend(a: seq<Diagnostic>, b: seq<Diagnostic>)
    ensures StringErrors(a + b) == StringErrors(a) + StringErrors(b)
    decreases |a|
  {
    if a == [] {
      assert a + b == b;
    } else {
      assert (a + b)[0] == a[0] && (a + b)[1..] == a[1..] + b;
      StringErrorsAppend(a[1..], b);
      var head := if a[0].problem.UnclosedString? then [a[0]] else [];
      assert StringErrors(a + b) == head + StringErrors(a[1..] + b);
      assert StringErrors(a) == head + StringErrors(a[1..]);
    }
  }

  /** A line that is checked gets one unclosed-string error exactly when it ends inside a string, and no other. */
  lemma OneStringErrorPerLine(b: Blocks, line: string, i: nat)
    ensures StringErrors(Reported(b, line, i)) == ToSeq(QuoteCheck(line, i))
  {
    var q := QuoteCheck(line, i);
    var t := TypeNameCheckAsWritten(line, i);
    var m := MethodNameCheck(line, i);
    var c := ConstantCheck(line, i, b.inEnumBlock);
    var o := BlockStep(b, line, i).1;
    assert Reported(b, line, i) == ToSeq(q) + ToSeq(t) + ToSeq(m) + ToSeq(c) + ToSeq(o);
    StringErrorsOfOne(q);
    StringErrorsOfOne(t);
    StringErrorsOfOne(m);
    StringErrorsOfOne(c);
    StringErrorsOfOne(o);
    StringErrorsAppend(ToSeq(q) + ToSeq(t) + ToSeq(m) + ToSeq(c), ToSeq(o));
    StringErrorsAppend(ToSeq(q) + ToSeq(t) + ToSeq(m), ToSeq(c));
    StringErrorsAppend(ToSeq(q) + ToSeq(t), ToSeq(m));
    StringErrorsAppend(ToSeq(q), ToSeq(t));
  }

  /** The unclosed-string errors of at most one diagnostic. */
  lemma StringErrorsOfOne(o: Option<Diagnostic>)
    ensures o.Some? && o.value.problem.UnclosedString? ==> StringErrors(ToSeq(o)) == ToSeq(o)
    ensures !(o.Some? && o.value.problem.UnclosedString?) ==> StringErrors(ToSeq(o)) == []
  {
    if o.Some? {
      assert ToSeq(o) == [o.value] && ToSeq(o)[1..] == [];
    }
  }

  /** The enum flag is only set while an `enum` block is open. */
  lemma {:induction false} ScanEnumFlagSound(lines: seq<string>, n: nat)
    requires n <= |lines|
    ensures EnumFlagSound(ScanLines(lines, n).blocks)
  {
    if n > 0 {
      ScanEnumFlagSound(lines, n - 1);
      ScanStepEnumFlagSound(lines, n);
    }
  }

  lemma ScanStepEnumFlagSound(lines: seq<string>, n: nat)
    requires 0 < n <= |lines| && EnumFlagSound(ScanLines(lines, n - 1).blocks)
    ensures EnumFlagSound(ScanLines(lines, n).blocks)
  {
    ScanLineEnumFlagSound(ScanLines(lines, n - 1), lines[n - 1], n - 1);
  }

  lemma ScanLineEnumFlagSound(st: Scan, line: string, i: nat)
    requires EnumFlagSound(st.blocks)
    ensures EnumFlagSound(ScanLine(st, line, i).blocks)
  {
    EnumFlagStaysSound(st.blocks, line, i);
  }

  lemma EnumSuppressesConstantCase(b: Blocks, line: string, i: nat)
    requires b.inEnumBlock
    ensures forall d :: d in Reported(b, line, i) ==> !d.problem.ConstantCase?
  {
    var q := ToSeq(QuoteCheck(line, i));
    var t := ToSeq(TypeNameCheckAsWritten(line, i));
    var m := ToSeq(MethodNameCheck(line, i));
    var c := ToSeq(ConstantCheck(line, i, b.inEnumBlock));
    var o := ToSeq(BlockStep(b, line, i).1);
    EnumBlockSilencesConstants(line, i);
    assert c == [];
    assert Reported(b, line, i) == q + t + m + c + o;
    forall d: Diagnostic | d in q + t + m + c + o ensures !d.problem.ConstantCase? {
      InOneOf(d, q, t, m, c, o);
    }
  }

  lemma InOneOf<T>(x: T, a: seq<T>, b: seq<T>, c: seq<T>, d: seq<T>, e: seq<T>)
    requires x in a + b + c + d + e
    ensures x in a || x in b || x in c || x in d || x in e
  {
  }

  /** Each diagnostic of the pass over `n` lines lies on one of them. */
  lemma {:induction false} ScanBeforeLine(lines: seq<string>, n: nat)
    requires n <= |lines|
    ensures forall d :: d in ScanLines(lines, n).diagnostics ==> d.range.startLine < n
  {
    if n > 0 {
      ScanBeforeLine(lines, n - 1);
      ScanStepBeforeLine(lines, n);
    }
  }

  lemma ScanStepBeforeLine(lines: seq<string>, n: nat)
    requires 0 < n <= |lines|
    requires forall d :: d in ScanLines(lines, n - 1).diagnostics ==> d.range.startLine < n - 1
    ensures forall d :: d in ScanLines(lines, n).diagnostics ==> d.range.startLine < n
  {
    ScanLineBeforeLine(ScanLines(lines, n - 1), lines[n - 1], n - 1);
  }

  lemma ScanLineBeforeLine(st: Scan, line: string, i: nat)
    requires forall d :: d in st.diagnostics ==> d.range.startLine < i
    ensures forall d :: d in ScanLine(st, line, i).diagnostics ==> d.range.startLine < i + 1
  {
    if !Skipped(DepthAfter(st.depth, line), line) {
      var added := Reported(st.blocks, line, i);
      assert forall d :: d in st.diagnostics + added ==> d in st.diagnostics || d in added;
    }
  }

  method ValidateDocument(text: string) returns (diagnostics: seq<Diagnostic>)
    ensures diagnostics == Validation(text)
  {
    var lines := SplitLines(text);
    var blockStack;
    diagnostics, blockStack := ScanDocument(lines);
    diagnostics := ReportUnclosed(lines, blockStack, diagnostics);
    var documentText := BlankStrings(text);
    documentText := StripBlockComments(documentText);
    documentText := StripLineComments(documentText);
    diagnostics := diagnostics + ToSeq(BracketCheck(lines[0], documentText));
  }

  /** The per-line pass: the diagnostics it reports and the blocks left open. */
  method ScanDocument(lines: seq<string>) returns (diagnostics: seq<Diagnostic>, blockStack: seq<Frame>)
    ensures diagnostics == ScanLines(lines, |lines|).diagnostics
    ensures blockStack == ScanLines(lines, |lines|).blocks.stack
  {
    diagnostics := [];
    blockStack := [];
    var blockCommentDepth: nat := 0;
    var inEnumBlock := false;
    var i := 0;
    while i < |lines|
      invariant i <= |lines|
      invariant ScanLines(lines, i) == Scan(blockCommentDepth, Blocks(blockStack, inEnumBlock), diagnostics)
    {
      var line := lines[i];
      ghost var before := Scan(blockCommentDepth, Blocks(blockStack, inEnumBlock), diagnostics);
      var openCount := CountPair(line, '#', '[');
      var closeCount := CountPair(line, ']', '#');
      var depth := blockCommentDepth + openCount - closeCount;
      if depth < 0 {
        depth := 0;
      }
      blockCommentDepth := depth;
      assert blockCommentDepth == DepthAfter(before.depth, line);
      if blockCommentDepth > 0 || closeCount > 0 || BlankOrComment(line) {
        SkippedStep(lines, i, before);
        i := i + 1;
        continue;
      }
      CheckedStep(lines, i, before);
      var found := CheckLine(line, i, inEnumBlock);
      var orphan;
      blockStack, inEnumBlock, orphan := TrackBlocks(blockStack, inEnumBlock, line, i);
      assert found + ToSeq(orphan) == Reported(before.blocks, line, i);
      diagnostics := diagnostics + (found + ToSeq(orphan));
      i := i + 1;
    }
  }

  lemma SkippedStep(lines: seq<string>, i: nat, st: Scan)
    requires i < |lines| && ScanLines(lines, i) == st && Skipped(DepthAfter(st.depth, lines[i]), lines[i])
    ensures ScanLines(lines, i + 1) == Scan(DepthAfter(st.depth, lines[i]), st.blocks, st.diagnostics)
  {
  }

  lemma CheckedStep(lines: seq<string>, i: nat, st: Scan)
    requires i < |lines| && ScanLines(lines, i) == st && !Skipped(DepthAfter(st.depth, lines[i]), lines[i])
    ensures ScanLines(lines, i + 1) ==
      Scan(DepthAfter(st.depth, lines[i]), BlockStep(st.blocks, lines[i], i).0, st.diagnostics + Reported(st.blocks, lines[i], i))
  {
  }

  /** The checks of one line that is not skipped. */
  method CheckLine(line: string, i: nat, inEnumBlock: bool) returns (diagnostics: seq<Diagnostic>)
    ensures diagnostics == LineChecks(line, i, inEnumBlock)
  {
    diagnostics := [];
    var unclosedQuote := ScanQuotes(line);
    if unclosedQuote.Some? {
      diagnostics := diagnostics + [Diagnostic(Error, Range(i, 0, i, |line|), UnclosedString(unclosedQuote.value))];
    }
    assert diagnostics == ToSeq(QuoteCheck(line, i));
    diagnostics := diagnostics + ToSeq(TypeNameCheckAsWritten(line, i));
    diagnostics := diagnostics + ToSeq(MethodNameCheck(line, i));
    diagnostics := diagnostics + ToSeq(ConstantCheck(line, i, inEnumBlock));
  }

  /** Appends one "Unclosed" error per block still open. */
  method ReportUnclosed(lines: seq<string>, blockStack: seq<Frame>, before: seq<Diagnostic>) returns (diagnostics: seq<Diagnostic>)
    requires FramesBefore(blockStack, |lines|)
    ensures diagnostics == before + UnclosedReports(lines, blockStack)
  {
    diagnostics := before;
    for k := 0 to |blockStack|
      invariant diagnostics == before + UnclosedReports(lines, blockStack[..k])
    {
      var block := blockStack[k];
      diagnostics := diagnostics + [Diagnostic(Error, Range(block.line, 0, block.line, |lines[block.line]|), UnclosedBlock(block.keyword))];
      assert blockStack[..k + 1][..k] == blockStack[..k];
    }
    assert blockStack[..|blockStack|] == blockStack;
  }
}
