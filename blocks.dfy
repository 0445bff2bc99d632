/**
 * Block structure for validation: which lines open a block that an `end`
 * closes, the stack of open blocks, and the flag that marks the lines inside
 * an `enum` block.
 */
module Blocks {
  import opened Wrappers
  import opened Lsp
  import opened Patterns
  import opened Diagnostics

  /** The modifiers an opener may start with (server/src/server.ts:503). */
  const BlockModifiers: seq<string> := ["public", "private", "protected", "abstract", "abs"]

  /** The keywords that open a block (server/src/server.ts:503). */
  const BlockKeywords: seq<string> := DeclarationOpeners + ControlOpeners + RecordOpeners
  const DeclarationOpeners: seq<string> := ["class", "cls", "struct", "module", "mod", "def", "define", "fun", "function"]
  const ControlOpeners: seq<string> := ["if", "unless", "case", "select", "begin", "while", "with"]
  const RecordOpeners: seq<string> := ["enum", "record", "annotation", "anno"]

  /** A word of lower-case letters that no modifier shares its first two letters with. */
  predicate PlainWord(w: string) {
    |w| > 1 && IsLowerWord(w) && w[0] != 'p' && !StartsWith2(w, 'a', 'b') && !StartsWith2(w, 'e', 'l')
  }

  predicate StartsWith2(w: string, a: char, b: char) {
    |w| > 1 && w[0] == a && w[1] == b
  }

  lemma ModifiersStartApart()
    ensures forall w :: w in BlockModifiers ==> w[0] == 'p' || StartsWith2(w, 'a', 'b')
  {
  }

  lemma BlockWordsAreLower()
    ensures forall w :: w in BlockKeywords ==> PlainWord(w)
  {
    DeclarationOpenersArePlain();
    ControlOpenersArePlain();
    RecordOpenersArePlain();
    assert forall w :: w in BlockKeywords ==> w in DeclarationOpeners || w in ControlOpeners || w in RecordOpeners;
  }

  lemma DeclarationOpenersArePlain()
    ensures forall w :: w in DeclarationOpeners ==> PlainWord(w)
  {
  }

  lemma ControlOpenersArePlain()
    ensures forall w :: w in ControlOpeners ==> PlainWord(w)
  {
  }

  lemma RecordOpenersArePlain()
    ensures forall w :: w in RecordOpeners ==> PlainWord(w)
  {
  }

  // ----- the patterns of the block tracker -----

  /** `(?:public\s+|private\s+|protected\s+|abstract\s+|abs\s+)` at the start of `r`: the index past the modifier and its spaces. */
  function AfterModifier(r: string): (j: Option<nat>)
    ensures j.Some? ==> var e := RunEnd(r, 0, NotSpace);
      r[..e] in BlockModifiers && e < j.value <= |r| && (j.value == |r| || !IsSpace(r[j.value]))
  {
    var e := RunEnd(r, 0, NotSpace);
    if r[..e] in BlockModifiers && e < |r| then Some(RunEnd(r, e, Space)) else None
  }

  /** Where `(?:modifier)?(class|...|anno)\b` finds its keyword in the text after the indentation. */
  function OpenerStart(r: string): (p: Option<nat>)
    ensures p.Some? <==>
      (AfterModifier(r).Some? && FirstKeywordAt(r, AfterModifier(r).value, BlockKeywords).Some?) ||
      FirstKeywordAt(r, 0, BlockKeywords).Some?
    ensures p.Some? ==> p.value <= |r| && FirstKeywordAt(r, p.value, BlockKeywords).Some?
    ensures p.Some? ==> p.value == 0 || p == AfterModifier(r)
    ensures AfterModifier(r).Some? && FirstKeywordAt(r, AfterModifier(r).value, BlockKeywords).Some? ==> p == AfterModifier(r)
  {
    var viaModifier := AfterModifier(r);
    if viaModifier.Some? && FirstKeywordAt(r, viaModifier.value, BlockKeywords).Some? then viaModifier
    else if FirstKeywordAt(r, 0, BlockKeywords).Some? then Some(0)
    else None
  }

  /** The first branch of the block tracker: the line opens a named block. */
  predicate OpensBlock(line: string) {
    OpenerStart(Rest(line)).Some?
  }

  /** `^\s*(?:modifier)?(\w+)`, or the empty string when it does not match. */
  function LeadingWord(line: string): string {
    var r := Rest(line);
    var viaModifier := AfterModifier(r);
    if viaModifier.Some? && viaModifier.value < |r| && IsWordChar(r[viaModifier.value]) then
      r[viaModifier.value..RunEnd(r, viaModifier.value, Word)]
    else r[..RunEnd(r, 0, Word)]
  }

  /** A lower-case keyword found at `j` is the whole word there. */
  lemma KeywordIsWord(r: string, j: nat, w: string)
    requires KeywordAt(r, j, w) && |w| > 0 && IsLowerWord(w)
    ensures j < |r| && IsWordChar(r[j]) && r[j..RunEnd(r, j, Word)] == w
  {
    forall k | j <= k < j + |w| ensures InClass(r[k], Word) {
      assert r[k] == w[k - j];
    }
    RunEndUnique(r, j, Word, j + |w|);
  }

  /** A line that starts with a block keyword does not start with a modifier. */
  lemma KeywordIsNoModifier(r: string, w: string)
    requires KeywordAt(r, 0, w) && PlainWord(w)
    ensures AfterModifier(r).None?
  {
    ModifiersStartApart();
    var e := RunEnd(r, 0, NotSpace);
    forall k | 0 <= k < |w| ensures InClass(r[k], NotSpace) {
      assert r[k] == w[k];
    }
    assert r[..e][0] == w[0] && r[..e][1] == w[1];
  }

  /** The frame an opener pushes carries the block keyword the opener matched there. */
  lemma OpenerKeyword(line: string)
    requires OpensBlock(line)
    ensures var r := Rest(line);
      LeadingWord(line) == FirstKeywordAt(r, OpenerStart(r).value, BlockKeywords).value
    ensures LeadingWord(line) in BlockKeywords
  {
    BlockWordsAreLower();
    var r := Rest(line);
    var p := OpenerStart(r).value;
    var w := FirstKeywordAt(r, p, BlockKeywords).value;
    KeywordIsWord(r, p, w);
    if p == 0 && !(AfterModifier(r).Some? && FirstKeywordAt(r, AfterModifier(r).value, BlockKeywords).Some?) {
      KeywordIsNoModifier(r, w);
    }
  }

  /** `(fun|function)\s*\(` at `k`, the alternatives tried in order, after the word boundary `\b`. */
  function AnonymousAt(line: string, k: nat): (w: Option<string>)
    requires k <= |line|
    ensures w.Some? ==> (w.value == "fun" || w.value == "function") && TextAt(line, k, w.value)
  {
    if !BoundaryBefore(line, k) then None
    else if ParenAfter(line, k, "fun") then Some("fun")
    else if ParenAfter(line, k, "function") then Some("function")
    else None
  }

  /** `w\s*\(` at `k`. */
  predicate ParenAfter(line: string, k: nat, w: string) {
    TextAt(line, k, w) && var e := RunEnd(line, k + |w|, Space); e < |line| && line[e] == '('
  }

  /** `/\b(fun|function)\s*\(/.test(line)`: an anonymous function starts somewhere in the line. */
  predicate HasAnonymous(line: string) {
    exists k | 0 <= k <= |line| :: AnonymousAt(line, k).Some?
  }

  /** Where the leftmost anonymous function from `k` on starts. */
  function FirstAnonymousIndex(line: string, k: nat): (j: Option<nat>)
    requires k <= |line|
    ensures j.Some? ==> k <= j.value <= |line| && AnonymousAt(line, j.value).Some?
    ensures j.Some? ==> forall j' | k <= j' < j.value :: AnonymousAt(line, j').None?
    ensures j.None? ==> forall j' | k <= j' <= |line| :: AnonymousAt(line, j').None?
    decreases |line| - k
  {
    if AnonymousAt(line, k).Some? then Some(k)
    else if k == |line| then None
    else FirstAnonymousIndex(line, k + 1)
  }

  /** The keyword of the leftmost anonymous function from `k` on (`line.match(...)`). */
  function FirstAnonymous(line: string, k: nat): (w: Option<string>)
    requires k <= |line|
    ensures w.Some? <==> exists j | k <= j <= |line| :: AnonymousAt(line, j).Some?
    ensures w.Some? ==> exists j | k <= j <= |line| ::
      AnonymousAt(line, j) == w && forall j' | k <= j' < j :: AnonymousAt(line, j').None?
  {
    match FirstAnonymousIndex(line, k)
    case Some(j) => AnonymousAt(line, j)
    case None => None
  }

  /** `^\s*end\b` */
  predicate StartsWithEnd(line: string) {
    KeywordAt(Rest(line), 0, "end")
  }

  // ----- the block stack -----

  /** What a line does to the block stack: the branches of the tracker, tried in order. */
  datatype BlockAction =
    | Opener(keyword: string)
    | Anonymous(keyword: string)
    | DoBlock
    | End
    | Other

  function ActionOf(line: string): (a: BlockAction)
    ensures a.Opener? <==> OpensBlock(line) && !EndsWithEnd(line)
    ensures a.Anonymous? <==> !OpensBlock(line) && HasAnonymous(line) && !EndsWithEnd(line)
    ensures a.DoBlock? <==> !OpensBlock(line) && !HasAnonymous(line) && HasDo(line) && !EndsWithEnd(line)
    ensures a.End? <==> !((OpensBlock(line) || HasAnonymous(line) || HasDo(line)) && !EndsWithEnd(line)) && StartsWithEnd(line)
  {
    if OpensBlock(line) && !EndsWithEnd(line) then Opener(LeadingWord(line))
    else if HasAnonymous(line) && !EndsWithEnd(line) then
      match FirstAnonymous(line, 0)
      case Some(w) => Anonymous(w)
      case None => Anonymous("fun")
    else if HasDo(line) && !EndsWithEnd(line) then DoBlock
    else if StartsWithEnd(line) then End
    else Other
  }

  /** The keyword of the frame a line pushes, if it pushes one. */
  function Pushed(a: BlockAction): Option<string> {
    match a
    case Opener(kw) => Some(kw)
    case Anonymous(kw) => Some(kw)
    case DoBlock => Some("do")
    case _ => None
  }

  /** Only a named opener pushes an `enum` frame. */
  lemma OnlyOpenerPushesEnum(line: string)
    ensures Pushed(ActionOf(line)) == Some("enum") ==> ActionOf(line) == Opener("enum")
    ensures Pushed(ActionOf(line)).Some? ==> Pushed(ActionOf(line)).value in BlockKeywords + ["do"]
  {
    var a := ActionOf(line);
    if a.Opener? {
      OpenerKeyword(line);
    } else if a.Anonymous? {
      assert FirstAnonymous(line, 0).Some?;
    }
  }

  /** An open block: the keyword that opened it and its line. */
  datatype Frame = Frame(keyword: string, line: nat)

  /** The tracker's state: the open blocks, innermost last, and whether the lines are inside an enum block. */
  datatype Blocks = Blocks(stack: seq<Frame>, inEnumBlock: bool)

  /** One line's effect on the block state, with the orphan-`end` error it may report. */
  function BlockStep(b: Blocks, line: string, i: nat): (r: (Blocks, Option<Diagnostic>))
    ensures r.1.Some? <==> ActionOf(line).End? && b.stack == []
    ensures r.1.Some? ==> r.0 == b && r.1.value == Diagnostic(Error, Range(i, 0, i, |line|), UnexpectedEnd)
    ensures Pushed(ActionOf(line)).Some? ==> r.0.stack == b.stack + [Frame(Pushed(ActionOf(line)).value, i)]
    ensures ActionOf(line).End? && b.stack != [] ==> r.0.stack == b.stack[..|b.stack| - 1]
    ensures ActionOf(line).Other? ==> r.0 == b
  {
    match ActionOf(line)
    case Opener(kw) => (Blocks(b.stack + [Frame(kw, i)], if kw == "enum" then true else b.inEnumBlock), None)
    case Anonymous(kw) => (Blocks(b.stack + [Frame(kw, i)], b.inEnumBlock), None)
    case DoBlock => (Blocks(b.stack + [Frame("do", i)], b.inEnumBlock), None)
    case End =>
      if |b.stack| == 0 then (b, Some(Diagnostic(Error, Range(i, 0, i, |line|), UnexpectedEnd)))
      else
        var popped := b.stack[|b.stack| - 1];
        (Blocks(b.stack[..|b.stack| - 1], if popped.keyword == "enum" then false else b.inEnumBlock), None)
    case Other => (b, None)
  }

  /** The tracker on the stack and flag themselves: push on an opener, pop on `end`, the error on an orphan `end`. */
  method TrackBlocks(blockStack: seq<Frame>, inEnumBlock: bool, line: string, i: nat)
    returns (stack: seq<Frame>, inEnum: bool, orphan: Option<Diagnostic>)
    ensures (Blocks(stack, inEnum), orphan) == BlockStep(Blocks(blockStack, inEnumBlock), line, i)
  {
    stack, inEnum, orphan := blockStack, inEnumBlock, None;
    match ActionOf(line)
    case Opener(keyword) =>
      stack := stack + [Frame(keyword, i)];
      if keyword == "enum" {
        inEnum := true;
      }
    case Anonymous(keyword) =>
      stack := stack + [Frame(keyword, i)];
    case DoBlock =>
      stack := stack + [Frame("do", i)];
    case End =>
      if |stack| == 0 {
        orphan := Some(Diagnostic(Error, Range(i, 0, i, |line|), UnexpectedEnd));
      } else {
        var popped := stack[|stack| - 1];
        stack := stack[..|stack| - 1];
        if popped.keyword == "enum" {
          inEnum := false;
        }
      }
    case Other =>
  }

  /** The enum flag is set when an `enum` frame is pushed and cleared when one is popped, and kept otherwise. */
  lemma EnumFlagStep(b: Blocks, line: string, i: nat)
    ensures var after := BlockStep(b, line, i).0;
      after.inEnumBlock <==>
        Pushed(ActionOf(line)) == Some("enum") ||
        (b.inEnumBlock && !(ActionOf(line).End? && b.stack != [] && b.stack[|b.stack| - 1].keyword == "enum"))
  {
  }

  /** Some frame of `frames` was opened by `enum`. */
  predicate HasEnumFrame(frames: seq<Frame>)
    decreases |frames|
  {
    frames != [] && (frames[|frames| - 1].keyword == "enum" || HasEnumFrame(frames[..|frames| - 1]))
  }

  lemma {:induction false} HasEnumFrameExists(frames: seq<Frame>)
    ensures HasEnumFrame(frames) <==> exists k | 0 <= k < |frames| :: frames[k].keyword == "enum"
    decreases |frames|
  {
    if frames != [] {
      var init := frames[..|frames| - 1];
      HasEnumFrameExists(init);
      if exists k | 0 <= k < |frames| :: frames[k].keyword == "enum" {
        var k :| 0 <= k < |frames| && frames[k].keyword == "enum";
        if k < |init| {
          assert init[k] == frames[k];
        }
      }
      if exists k | 0 <= k < |init| :: init[k].keyword == "enum" {
        var k :| 0 <= k < |init| && init[k].keyword == "enum";
        assert frames[k] == init[k];
      }
    }
  }

  /** The flag is only ever set while an `enum` frame is open. */
  predicate EnumFlagSound(b: Blocks) {
    b.inEnumBlock ==> HasEnumFrame(b.stack)
  }

  lemma EnumFlagStaysSound(b: Blocks, line: string, i: nat)
    requires EnumFlagSound(b)
    ensures EnumFlagSound(BlockStep(b, line, i).0)
  {
    var after := BlockStep(b, line, i).0;
    OnlyOpenerPushesEnum(line);
    if Pushed(ActionOf(line)).Some? {
      assert after.stack[..|after.stack| - 1] == b.stack;
    }
  }

  /** The checks of `else` and `elsif` lines: they open nothing and close nothing. */
  lemma ElseLeavesBlocks(b: Blocks, line: string, i: nat, w: string)
    requires w == "else" || w == "elsif"
    requires KeywordAt(Rest(line), 0, w)
    requires !HasAnonymous(line) && !HasDo(line)
    ensures BlockStep(b, line, i) == (b, None)
  {
    var r := Rest(line);
    assert StartsWith2(r, 'e', 'l') by {
      assert r[0] == r[..|w|][0] && r[1] == r[..|w|][1];
    }
    ElseOpensNothing(r);
    NotAtStart(r, "end");
    assert ActionOf(line) == Other;
  }

  /** Text starting with `el` starts with no modifier and no block keyword. */
  lemma ElseOpensNothing(r: string)
    requires StartsWith2(r, 'e', 'l')
    ensures OpenerStart(r).None?
  {
    BlockWordsAreLower();
    ModifiersStartApart();
    forall kw | kw in BlockKeywords ensures !KeywordAt(r, 0, kw) {
      NotAtStart(r, kw);
    }
    var e := RunEnd(r, 0, NotSpace);
    assert e > 1 by {
      assert InClass(r[0], NotSpace) && InClass(r[1], NotSpace);
    }
    assert r[..e][0] == 'e';
  }

  lemma NotAtStart(r: string, kw: string)
    requires StartsWith2(r, 'e', 'l') && |kw| > 1 && !StartsWith2(kw, 'e', 'l')
    ensures !TextAt(r, 0, kw)
  {
    if |kw| <= |r| {
      assert r[..|kw|][0] == r[0] && r[..|kw|][1] == r[1];
    }
  }
}
