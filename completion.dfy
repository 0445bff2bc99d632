/**
 * Completion: the items offered at a cursor position. The fixed tables of
 * keywords, built-in functions, constants and special methods always come
 * first; the type names follow when the text before the cursor ends in a
 * type annotation cue (`:` or `->`, spaces, a partial word); then one item
 * per symbol of the document, in table order, its kind mapped to a
 * completion kind.
 */
module Completion {
  import opened Patterns
  import opened Document
  import opened Symbols
  import opened Lsp

  /** The completion kinds the engine uses. */
  datatype ItemKind = Text | Method | Function | Variable | Class | Module | Keyword | Constant

  /** A completion item: its label (`label` is a reserved word here), kind and detail. */
  datatype CompletionItem = CompletionItem(labelText: string, kind: ItemKind, detail: string)

  /** The keyword table (server/src/server.ts:245-289). */
  const Keywords: seq<CompletionItem> := [
    CompletionItem("class", ItemKind.Keyword, "Define a class"),
    CompletionItem("cls", ItemKind.Keyword, "Define a class (short)"),
    CompletionItem("struct", ItemKind.Keyword, "Define a struct"),
    CompletionItem("module", ItemKind.Keyword, "Define a module"),
    CompletionItem("mod", ItemKind.Keyword, "Define a module (short)"),
    CompletionItem("enum", ItemKind.Keyword, "Define an enum"),
    CompletionItem("record", ItemKind.Keyword, "Define a record"),
    CompletionItem("annotation", ItemKind.Keyword, "Define an annotation"),
    CompletionItem("anno", ItemKind.Keyword, "Define an annotation (short)"),
    CompletionItem("def", ItemKind.Keyword, "Define a method"),
    CompletionItem("define", ItemKind.Keyword, "Define a method"),
    CompletionItem("fun", ItemKind.Keyword, "Define a function"),
    CompletionItem("function", ItemKind.Keyword, "Define a function"),
    CompletionItem("if", ItemKind.Keyword, "Conditional statement"),
    CompletionItem("unless", ItemKind.Keyword, "Negative conditional"),
    CompletionItem("elsif", ItemKind.Keyword, "Else if clause"),
    CompletionItem("elseif", ItemKind.Keyword, "Else if clause"),
    CompletionItem("else", ItemKind.Keyword, "Else clause"),
    CompletionItem("case", ItemKind.Keyword, "Case statement"),
    CompletionItem("select", ItemKind.Keyword, "Select statement"),
    CompletionItem("when", ItemKind.Keyword, "When clause"),
    CompletionItem("while", ItemKind.Keyword, "While loop"),
    CompletionItem("begin", ItemKind.Keyword, "Begin block"),
    CompletionItem("rescue", ItemKind.Keyword, "Rescue clause"),
    CompletionItem("ensure", ItemKind.Keyword, "Ensure clause"),
    CompletionItem("end", ItemKind.Keyword, "End block"),
    CompletionItem("return", ItemKind.Keyword, "Return statement"),
    CompletionItem("yield", ItemKind.Keyword, "Yield to block"),
    CompletionItem("break", ItemKind.Keyword, "Break loop"),
    CompletionItem("next", ItemKind.Keyword, "Next iteration"),
    CompletionItem("con", ItemKind.Keyword, "Define a constant variable"),
    CompletionItem("let", ItemKind.Keyword, "Define an immutable variable"),
    CompletionItem("var", ItemKind.Keyword, "Define a mutable variable"),
    CompletionItem("fix", ItemKind.Keyword, "Define a fixed variable"),
    CompletionItem("use", ItemKind.Keyword, "Import/use module"),
    CompletionItem("from", ItemKind.Keyword, "Import from module"),
    CompletionItem("as", ItemKind.Keyword, "Alias import"),
    CompletionItem("abstract", ItemKind.Keyword, "Abstract modifier"),
    CompletionItem("abs", ItemKind.Keyword, "Abstract modifier (short)"),
    CompletionItem("public", ItemKind.Keyword, "Public visibility"),
    CompletionItem("private", ItemKind.Keyword, "Private visibility"),
    CompletionItem("protected", ItemKind.Keyword, "Protected visibility"),
    CompletionItem("with", ItemKind.Keyword, "With statement")
  ]

  /** The type-name table (server/src/server.ts:291-315). */
  const Types: seq<CompletionItem> := [
    CompletionItem("str", ItemKind.Class, "String type"),
    CompletionItem("int", ItemKind.Class, "Integer type"),
    CompletionItem("int8", ItemKind.Class, "8-bit integer"),
    CompletionItem("int16", ItemKind.Class, "16-bit integer"),
    CompletionItem("int32", ItemKind.Class, "32-bit integer"),
    CompletionItem("int64", ItemKind.Class, "64-bit integer"),
    CompletionItem("int128", ItemKind.Class, "128-bit integer"),
    CompletionItem("float", ItemKind.Class, "Float type"),
    CompletionItem("float8", ItemKind.Class, "8-bit float"),
    CompletionItem("float16", ItemKind.Class, "16-bit float"),
    CompletionItem("float32", ItemKind.Class, "32-bit float"),
    CompletionItem("float64", ItemKind.Class, "64-bit float"),
    CompletionItem("float128", ItemKind.Class, "128-bit float"),
    CompletionItem("bool", ItemKind.Class, "Boolean type"),
    CompletionItem("char", ItemKind.Class, "Character type"),
    CompletionItem("nil", ItemKind.Class, "Nil type"),
    CompletionItem("sym", ItemKind.Class, "Symbol type"),
    CompletionItem("arr", ItemKind.Class, "Array type"),
    CompletionItem("array", ItemKind.Class, "Array type"),
    CompletionItem("map", ItemKind.Class, "Map/Hash type"),
    CompletionItem("range", ItemKind.Class, "Range type"),
    CompletionItem("tuple", ItemKind.Class, "Tuple type"),
    CompletionItem("para", ItemKind.Class, "Parameter type")
  ]

  /** The built-in function table (server/src/server.ts:317-336). */
  const BuiltinFunctions: seq<CompletionItem> := [
    CompletionItem("echo", ItemKind.Function, "Print to stdout"),
    CompletionItem("eecho", ItemKind.Function, "Print to stderr"),
    CompletionItem("e!", ItemKind.Function, "Print to stdout (short)"),
    CompletionItem("ee!", ItemKind.Function, "Print to stderr (short)"),
    CompletionItem("abort", ItemKind.Function, "Abort execution"),
    CompletionItem("exit", ItemKind.Function, "Exit program"),
    CompletionItem("gets", ItemKind.Function, "Get input"),
    CompletionItem("read_line", ItemKind.Function, "Read line from input"),
    CompletionItem("sleep", ItemKind.Function, "Sleep for duration"),
    CompletionItem("spawn", ItemKind.Function, "Spawn fiber/thread"),
    CompletionItem("thread", ItemKind.Function, "Create thread"),
    CompletionItem("channel", ItemKind.Function, "Create channel"),
    CompletionItem("fiber", ItemKind.Function, "Create fiber"),
    CompletionItem("raise", ItemKind.Function, "Raise exception"),
    CompletionItem("rand", ItemKind.Function, "Random number"),
    CompletionItem("sprintf", ItemKind.Function, "Format string"),
    CompletionItem("system", ItemKind.Function, "Execute system command"),
    CompletionItem("typeof", ItemKind.Function, "Get type of value")
  ]

  /** The constant table (server/src/server.ts:338-348). */
  const Constants: seq<CompletionItem> := [
    CompletionItem("true", ItemKind.Constant, "Boolean true"),
    CompletionItem("false", ItemKind.Constant, "Boolean false"),
    CompletionItem("nil", ItemKind.Constant, "Nil value"),
    CompletionItem("null", ItemKind.Constant, "Null value"),
    CompletionItem("self", ItemKind.Constant, "Current instance"),
    CompletionItem("__FILE__", ItemKind.Constant, "Current file path"),
    CompletionItem("__DIR__", ItemKind.Constant, "Current directory"),
    CompletionItem("__LINE__", ItemKind.Constant, "Current line number"),
    CompletionItem("__END_LINE__", ItemKind.Constant, "End line number")
  ]

  /** The special-method table (server/src/server.ts:350-356). */
  const SpecialMethods: seq<CompletionItem> := [
    CompletionItem("getter", ItemKind.Method, "Define getter method"),
    CompletionItem("setter", ItemKind.Method, "Define setter method"),
    CompletionItem("property", ItemKind.Method, "Define property"),
    CompletionItem("bag", ItemKind.Method, "Create bag type"),
    CompletionItem("para", ItemKind.Method, "Define parameter")
  ]

  /** The completion kind a symbol of kind `k` is offered with. */
  function ItemKindOf(k: SymbolKind): (r: ItemKind)
    ensures r != ItemKind.Text && r != ItemKind.Keyword
  {
    match k
    case Class => ItemKind.Class
    case Enum => ItemKind.Class
    case Method => ItemKind.Method
    case Function => ItemKind.Function
    case Constant => ItemKind.Constant
    case Variable => ItemKind.Variable
    case Module => ItemKind.Module
  }

  /** Two symbol kinds are offered alike exactly when they are equal or are a class and an enum. */
  lemma ItemKindsMergeOnlyTypes(a: SymbolKind, b: SymbolKind)
    ensures ItemKindOf(a) == ItemKindOf(b) <==>
      a == b || (a in {SymbolKind.Class, SymbolKind.Enum} && b in {SymbolKind.Class, SymbolKind.Enum})
  {
  }

  /** The item for a symbol of the document. */
  function SymbolItem(s: SymbolInfo): CompletionItem {
    CompletionItem(s.name, ItemKindOf(s.kind), s.detail)
  }

  function SymbolItems(symbols: seq<SymbolInfo>): (items: seq<CompletionItem>)
    ensures |items| == |symbols|
    ensures forall k :: 0 <= k < |symbols| ==> items[k] == SymbolItem(symbols[k])
  {
    seq(|symbols|, k requires 0 <= k < |symbols| => SymbolItem(symbols[k]))
  }

  /** `getText` from the start of the cursor's line to the cursor, the column clamped to the line. */
  function CompletionPrefix(lines: seq<string>, position: Position): (p: string)
    ensures |p| <= position.character
    ensures position.line < |lines| ==> p <= lines[position.line]
    ensures position.line >= |lines| ==> p == []
    ensures position.line < |lines| ==>
      |p| == if position.character <= |lines[position.line]| then position.character else |lines[position.line]|
  {
    if position.line < |lines| then
      var line := lines[position.line];
      if position.character <= |line| then line[..position.character] else line
    else ""
  }

  // ----- the type-name cue -----

  /** The start of the maximal run of `cls` characters that ends at `j`. */
  function RunBack(s: string, j: nat, cls: CharClass): (i: nat)
    requires j <= |s|
    ensures i <= j
    ensures forall k :: i <= k < j ==> InClass(s[k], cls)
    ensures i == 0 || !InClass(s[i - 1], cls)
    decreases j
  {
    if j > 0 && InClass(s[j - 1], cls) then RunBack(s, j - 1, cls) else j
  }

  /** `s` matches `/:\s*\w*$/` or `/->\s*\w*$/`, tested by stripping the partial word and the spaces before it. */
  predicate TypeContext(s: string) {
    var w := RunBack(s, |s|, Word);
    var b := RunBack(s, w, Space);
    (b >= 1 && s[b - 1] == ':') || (b >= 2 && s[b - 2..b] == "->")
  }

  predicate AllWordChars(w: string) {
    forall k :: 0 <= k < |w| ==> IsWordChar(w[k])
  }

  /** The pattern `cue\s*\w*$` read as a regular expression: the cue, then spaces, then word characters to the end. */
  ghost predicate EndsWithCue(s: string, cue: string) {
    exists p: nat, q: nat :: p + |cue| <= q <= |s| && TextAt(s, p, cue) && AllSpaces(s[p + |cue|..q]) && AllWordChars(s[q..])
  }

  /** The stripping test accepts exactly the texts the two patterns match. */
  lemma TypeContextIsPattern(s: string)
    ensures TypeContext(s) <==> EndsWithCue(s, ":") || EndsWithCue(s, "->")
  {
    if TypeContext(s) {
      TypeContextHasCue(s);
    }
    if EndsWithCue(s, ":") {
      ColonCueIsTypeContext(s);
    }
    if EndsWithCue(s, "->") {
      ArrowCueIsTypeContext(s);
    }
  }

  lemma ColonCueIsTypeContext(s: string)
    requires EndsWithCue(s, ":")
    ensures TypeContext(s)
  {
    var p: nat, q: nat :| p + 1 <= q <= |s| && TextAt(s, p, ":") && AllSpaces(s[p + 1..q]) && AllWordChars(s[q..]);
    assert s[p..p + 1] == ":";
    assert s[p] == ':';
    RunsAfterCue(s, p + 1, q);
  }

  lemma ArrowCueIsTypeContext(s: string)
    requires EndsWithCue(s, "->")
    ensures TypeContext(s)
  {
    var p: nat, q: nat :| p + 2 <= q <= |s| && TextAt(s, p, "->") && AllSpaces(s[p + 2..q]) && AllWordChars(s[q..]);
    assert s[p..p + 2] == "->";
    assert s[p + 1] == '>';
    RunsAfterCue(s, p + 2, q);
  }

  lemma TypeContextHasCue(s: string)
    requires TypeContext(s)
    ensures EndsWithCue(s, ":") || EndsWithCue(s, "->")
  {
    var w := RunBack(s, |s|, Word);
    var b := RunBack(s, w, Space);
    assert AllSpaces(s[b..w]) by {
      forall k | 0 <= k < w - b ensures IsSpace(s[b..w][k]) {
        assert InClass(s[b + k], Space);
      }
    }
    assert AllWordChars(s[w..]) by {
      forall k | 0 <= k < |s| - w ensures IsWordChar(s[w..][k]) {
        assert InClass(s[w + k], Word);
      }
    }
    if b >= 1 && s[b - 1] == ':' {
      CueWitness(s, ":", b - 1, w);
    } else {
      CueWitness(s, "->", b - 2, w);
    }
  }

  lemma CueWitness(s: string, cue: string, p: nat, q: nat)
    requires p + |cue| <= q <= |s| && TextAt(s, p, cue) && AllSpaces(s[p + |cue|..q]) && AllWordChars(s[q..])
    ensures EndsWithCue(s, cue)
  {
  }

  /**
   * Where a character that is neither a space nor a word character ends at `c`,
   * followed by spaces up to `q` and word characters to the end, those two are
   * exactly the maximal runs the stripping removes.
   */
  lemma RunsAfterCue(s: string, c: nat, q: nat)
    requires 0 < c <= q <= |s| && !IsSpace(s[c - 1]) && !IsWordChar(s[c - 1])
    requires AllSpaces(s[c..q]) && AllWordChars(s[q..])
    ensures RunBack(s, |s|, Word) == q
    ensures RunBack(s, q, Space) == c
  {
    WordRunAfterCue(s, c, q);
    SpaceRunAfterCue(s, c, q);
  }

  lemma WordRunAfterCue(s: string, c: nat, q: nat)
    requires 0 < c <= q <= |s| && !IsSpace(s[c - 1]) && !IsWordChar(s[c - 1])
    requires AllSpaces(s[c..q]) && AllWordChars(s[q..])
    ensures RunBack(s, |s|, Word) == q
  {
    forall k | q <= k < |s| ensures InClass(s[k], Word) {
      assert s[q..][k - q] == s[k];
    }
    assert !InClass(s[q - 1], Word) by {
      if q > c {
        assert s[c..q][q - 1 - c] == s[q - 1];
        assert IsSpace(s[q - 1]);
      }
    }
  }

  lemma SpaceRunAfterCue(s: string, c: nat, q: nat)
    requires 0 < c <= q <= |s| && !IsSpace(s[c - 1])
    requires AllSpaces(s[c..q])
    ensures RunBack(s, q, Space) == c
  {
    forall k | c <= k < q ensures InClass(s[k], Space) {
      assert s[c..q][k - c] == s[k];
    }
  }

  // ----- the items -----

  /** The items `onCompletion` returns for the document `lines` and the cursor `position`. */
  function CompletionList(lines: seq<string>, position: Position): seq<CompletionItem> {
    var types := if TypeContext(CompletionPrefix(lines, position)) then Types else [];
    Offered(BaseItems(), types, DocumentSymbols(lines))
  }

  /** The four tables offered everywhere. */
  function BaseItems(): seq<CompletionItem> {
    Keywords + BuiltinFunctions + Constants + SpecialMethods
  }

  /**
   * The tables come first, then the type names when they are offered, and
   * then every symbol of the document, in order, under its own name and detail.
   */
  function Offered(base: seq<CompletionItem>, types: seq<CompletionItem>, symbols: seq<SymbolInfo>): (items: seq<CompletionItem>)
    ensures |items| == |base| + |types| + |symbols|
    ensures items[..|base|] == base && items[|base|..|base| + |types|] == types
    ensures forall k :: 0 <= k < |symbols| ==> items[|base| + |types| + k] == SymbolItem(symbols[k])
  {
    base + types + SymbolItems(symbols)
  }

  /** The body of the `onCompletion` handler. */
  method OnCompletion(text: string, position: Position) returns (items: seq<CompletionItem>)
    ensures items == CompletionList(SplitLines(text), position)
  {
    var lines := SplitLines(text);
    var line := CompletionPrefix(lines, position);
    items := [];
    items := items + Keywords;
    assert items == Keywords;
    items := items + BuiltinFunctions;
    items := items + Constants;
    items := items + SpecialMethods;
    assert items == BaseItems();
    if TypeContext(line) {
      items := items + Types;
    }
    assert items == BaseItems() + if TypeContext(line) then Types else [];
    var symbols := ParseDocument(text);
    items := PushSymbolItems(items, symbols);
  }

  /** The loop over the symbols: each is pushed as an item, its kind mapped. */
  method PushSymbolItems(before: seq<CompletionItem>, symbols: seq<SymbolInfo>) returns (items: seq<CompletionItem>)
    ensures items == before + SymbolItems(symbols)
  {
    items := before;
    for i := 0 to |symbols|
      invariant items == before + SymbolItems(symbols[..i])
    {
      var kind := ItemKindOf(symbols[i].kind);
      assert SymbolItems(symbols[..i + 1]) == SymbolItems(symbols[..i]) + [SymbolItem(symbols[i])];
      items := items + [CompletionItem(symbols[i].name, kind, symbols[i].detail)];
    }
    assert symbols[..|symbols|] == symbols;
  }
}
