/**
 * The symbol table of a document (server/src/server.ts, `parseDocument`):
 * every line is tried against six definition patterns in a fixed order,
 * and the first that matches contributes one symbol for that line.
 */
module Symbols {
  import opened Wrappers
  import opened Lsp
  import opened Patterns
  import opened Document

  datatype SymbolKind = Class | Enum | Module | Method | Function | Constant | Variable

  /** What a definition line declares: everything in a symbol that depends on the line's text alone. */
  datatype Declared = Declared(name: string, kind: SymbolKind, detail: string)

  datatype SymbolInfo = SymbolInfo(name: string, kind: SymbolKind, line: nat, range: Range, detail: string)

  const ClassModifiers: seq<string> := ["abstract", "abs"]
  const ClassKeywords: seq<string> := ["class", "cls", "struct", "record", "anno", "annotation", "enum"]
  const ModuleKeywords: seq<string> := ["module", "mod"]
  const MethodKeywords: seq<string> := ["def", "define"]
  const FunctionKeywords: seq<string> := ["fun", "function"]
  const VariableKeywords: seq<string> := ["con", "let", "var", "fix"]
  const TypeNames: seq<string> := ["str", "int", "bool", "char", "float", "nil"]

  /** The character class a defined name must start with. */
  datatype Initial = Upper | Lower | LowerOrUnderscore | AnyIdent

  predicate StartsAs(c: char, init: Initial) {
    match init
    case Upper => IsUpper(c)
    case Lower => IsLower(c)
    case LowerOrUnderscore => IsLower(c) || c == '_'
    case AnyIdent => IsIdentStart(c)
  }

  predicate IsIdentifier(w: string) {
    |w| > 0 && IsIdentStart(w[0]) && forall k :: 0 <= k < |w| ==> IsWordChar(w[k])
  }

  predicate IsNameSuffix(c: char) { c == '?' || c == '!' || c == '=' }

  /** A name without its final `?`, `!` or `=`. */
  function IdentPart(w: string): (p: string)
    ensures p == w || (|w| > 0 && IsNameSuffix(w[|w| - 1]) && p == w[..|w| - 1])
  {
    if |w| > 0 && IsNameSuffix(w[|w| - 1]) then w[..|w| - 1] else w
  }

  /** `[a-zA-Z_]\w*[?!=]?` as a whole word. */
  predicate IsMethodName(w: string) {
    IsIdentifier(IdentPart(w))
  }

  predicate AllNoSpaces(ws: seq<string>) {
    forall w :: w in ws ==> NoSpaces(w)
  }

  /** Every keyword of the definition patterns is a word of lower-case letters. */
  lemma ClassWordsAreLower()
    ensures forall w :: w in ClassModifiers ==> IsLowerWord(w)
    ensures forall w :: w in ClassKeywords ==> IsLowerWord(w)
  {
  }

  lemma OtherWordsAreLower()
    ensures forall w :: w in ModuleKeywords ==> IsLowerWord(w)
    ensures forall w :: w in MethodKeywords ==> IsLowerWord(w)
    ensures forall w :: w in FunctionKeywords ==> IsLowerWord(w)
    ensures forall w :: w in VariableKeywords ==> IsLowerWord(w)
  {
  }

  /** A keyword of `kws`, spaces, and the first character of a name. */
  datatype Head = Head(keyword: string, nameStart: nat)

  /**
   * `(kw1|kw2|...)\s+` at `i`, followed by a character of class `init`. None
   * of the keywords holds a space, so the alternation can only match the word
   * found at `i`: it matches when that word is one of the keywords and spaces
   * follow it (module Alternation proves this against the ordered alternation).
   */
  function KeywordHead(r: string, i: nat, kws: seq<string>, init: Initial): (h: Option<Head>)
    requires i <= |r|
    ensures h.Some? ==> h.value.keyword in kws && h.value.keyword == TokenAt(r, i) && TextAt(r, i, h.value.keyword)
    ensures h.Some? ==> i + |h.value.keyword| < h.value.nameStart < |r| && StartsAs(r[h.value.nameStart], init)
    ensures h.Some? ==> forall k :: i + |h.value.keyword| <= k < h.value.nameStart ==> IsSpace(r[k])
  {
    var e := RunEnd(r, i, NotSpace);
    var word := r[i..e];
    if word in kws && e < |r| then
      var j := RunEnd(r, e, Space);
      if j < |r| && StartsAs(r[j], init) then Some(Head(word, j)) else None
    else None
  }

  /**
   * `^(?:m1\s+|m2\s+|...)?` in front of a keyword head: after a modifier when
   * the line starts with one and the head matches after it, and otherwise at
   * the start of the line, as the regular expression backtracks.
   */
  function ModifiedHead(r: string, mods: seq<string>, kws: seq<string>, init: Initial): (h: Option<Head>)
    ensures h.Some? ==> h.value.keyword in kws && h.value.nameStart < |r| && StartsAs(r[h.value.nameStart], init)
  {
    var e := RunEnd(r, 0, NotSpace);
    var viaModifier :=
      if r[..e] in mods && e < |r| then KeywordHead(r, RunEnd(r, e, Space), kws, init) else None;
    if viaModifier.Some? then viaModifier else KeywordHead(r, 0, kws, init)
  }

  /** The end of the identifier `[a-zA-Z_]\w*` that starts at `n`. */
  function IdentEnd(r: string, n: nat): (e: nat)
    requires n < |r|
    ensures n < e <= |r|
  {
    RunEnd(r, n + 1, Word)
  }

  /** `\s*(?:\(([^)]*)\))?` from `e`: the text between the parentheses, when they are there. */
  function ParamsAt(r: string, e: nat): (p: Option<string>)
    requires e <= |r|
    ensures p.Some? ==> ')' !in p.value
    ensures p.Some? ==> exists k :: e <= k && TextAt(r, k, "(" + p.value + ")")
  {
    var open := RunEnd(r, e, Space);
    if open < |r| && r[open] == '(' then
      var close := RunEnd(r, open + 1, NotCloseParen);
      if close < |r| then
        var p := r[open + 1..close];
        assert r[open..close + 1] == [r[open]] + r[open + 1..close] + [r[close]];
        assert TextAt(r, open, "(" + p + ")");
        Some(p)
      else None
    else None
  }

  /** A detail string with the parameter list appended when it is present and non-empty. */
  function WithParams(head: string, params: Option<string>): string {
    if params.Some? && params.value != [] then head + "(" + params.value + ")" else head
  }

  function ClassDecl(r: string): (d: Option<Declared>)
    ensures d.Some? ==> d.value.kind in {Class, Enum} && IsIdentifier(d.value.name) && IsUpper(d.value.name[0])
    ensures d.Some? ==> exists kw :: kw in ClassKeywords && d.value.detail == kw + " " + d.value.name && (d.value.kind == Enum <==> kw == "enum")
  {
    match ModifiedHead(r, ClassModifiers, ClassKeywords, Upper)
    case None => None
    case Some(h) =>
      var name := r[h.nameStart..IdentEnd(r, h.nameStart)];
      Some(Declared(name, if h.keyword == "enum" then Enum else Class, h.keyword + " " + name))
  }

  function ModuleDecl(r: string): (d: Option<Declared>)
    ensures d.Some? ==> d.value.kind == Module && IsIdentifier(d.value.name) && IsUpper(d.value.name[0])
    ensures d.Some? ==> d.value.detail == "module " + d.value.name
  {
    match KeywordHead(r, 0, ModuleKeywords, Upper)
    case None => None
    case Some(h) =>
      var name := r[h.nameStart..IdentEnd(r, h.nameStart)];
      Some(Declared(name, Module, "module " + name))
  }

  /** A method name may be qualified by a receiver: `self.name` or `Target.name`. */
  function MethodDecl(r: string): (d: Option<Declared>)
    ensures d.Some? ==> d.value.kind == Method && |d.value.name| > 0
  {
    match KeywordHead(r, 0, MethodKeywords, AnyIdent)
    case None => None
    case Some(h) => Some(MethodAfter(r, h.nameStart))
  }

  /**
   * What a method definition declares when its name starts at `j`: a
   * receiver qualifies it when an identifier, a dot and the start of another
   * identifier follow.
   */
  function MethodAfter(r: string, j: nat): (d: Declared)
    requires j < |r|
    ensures d.kind == Method && |d.name| > 0
  {
    var e := IdentEnd(r, j);
    if e + 1 < |r| && r[e] == '.' && IsIdentStart(r[e + 1]) then
      var ne := NameEnd(r, e + 1);
      QualifiedMethod(r[j..e], r[e + 1..ne], ParamsAt(r, ne))
    else
      var ne := NameEnd(r, j);
      PlainMethod(r[j..ne], ParamsAt(r, ne))
  }

  /** A singleton method `target.name`. */
  function QualifiedMethod(target: string, name: string, params: Option<string>): (d: Declared)
    ensures d.kind == Method && |d.name| > |target|
  {
    var fullName := target + "." + name;
    Declared(fullName, Method, WithParams("singleton method " + fullName, params))
  }

  function PlainMethod(name: string, params: Option<string>): (d: Declared)
    ensures d.kind == Method && d.name == name
  {
    Declared(name, Method, WithParams("method " + name, params))
  }

  function FunctionDecl(r: string): (d: Option<Declared>)
    ensures d.Some? ==> d.value.kind == Function && |d.value.name| > 0 && (IsLower(d.value.name[0]) || d.value.name[0] == '_')
  {
    match KeywordHead(r, 0, FunctionKeywords, LowerOrUnderscore)
    case None => None
    case Some(h) =>
      var ne := NameEnd(r, h.nameStart);
      var name := r[h.nameStart..ne];
      Some(Declared(name, Function, WithParams("fun " + name, ParamsAt(r, ne))))
  }

  function ConstantDecl(r: string): (d: Option<Declared>)
    ensures d.Some? ==> d.value.kind == Constant && |d.value.name| > 0 && IsUpper(d.value.name[0])
    ensures d.Some? ==> forall k :: 0 <= k < |d.value.name| ==> InClass(d.value.name[k], UpperSnake)
    ensures d.Some? ==> d.value.detail == "constant " + d.value.name && '=' in r
  {
    if |r| > 0 && IsUpper(r[0]) then
      var e := RunEnd(r, 1, UpperSnake);
      var g := RunEnd(r, e, Space);
      if g < |r| && r[g] == '=' then Some(Declared(r[..e], Constant, "constant " + r[..e])) else None
    else None
  }

  /** `\s*(?::\s*([A-Z]\w*|str|int|bool|char|float|nil))?` after a variable name. */
  function Annotation(r: string, e: nat): (t: Option<string>)
    requires e <= |r|
    ensures t.Some? ==> t.value in TypeNames || (IsIdentifier(t.value) && IsUpper(t.value[0]))
  {
    var colon := RunEnd(r, e, Space);
    if colon < |r| && r[colon] == ':' then
      var t := RunEnd(r, colon + 1, Space);
      if t < |r| && IsUpper(r[t]) then Some(r[t..IdentEnd(r, t)]) else FirstTextAt(r, t, TypeNames)
    else None
  }

  function VariableDecl(r: string): (d: Option<Declared>)
    ensures d.Some? ==> d.value.kind == Variable && IsIdentifier(d.value.name) && (IsLower(d.value.name[0]) || d.value.name[0] == '_')
  {
    match KeywordHead(r, 0, VariableKeywords, LowerOrUnderscore)
    case None => None
    case Some(h) =>
      var e := IdentEnd(r, h.nameStart);
      var name := r[h.nameStart..e];
      var annotation := match Annotation(r, e) case Some(t) => ": " + t case None => "";
      Some(Declared(name, Variable, h.keyword + " " + name + annotation))
  }

  /**
   * What line text `r`, without its indentation, declares: the six patterns
   * are tried in this order and the first that matches wins.
   */
  function LineDecl(r: string): (d: Option<Declared>)
    ensures d.Some? ==> |d.value.name| > 0
  {
    var c := ClassDecl(r);
    if c.Some? then c else
    var m := ModuleDecl(r);
    if m.Some? then m else
    var f := MethodDecl(r);
    if f.Some? then f else
    var g := FunctionDecl(r);
    if g.Some? then g else
    var k := ConstantDecl(r);
    if k.Some? then k else
    VariableDecl(r)
  }

  /** The symbol line `i` contributes, if any; it always spans the whole line. */
  function LineSymbol(line: string, i: nat): (s: Option<SymbolInfo>)
    ensures s.Some? ==> s.value.line == i && s.value.range == LineRange(i, line) && |s.value.name| > 0
    ensures s.Some? <==> LineDecl(Rest(line)).Some?
  {
    match LineDecl(Rest(line))
    case Some(d) => Some(SymbolInfo(d.name, d.kind, i, LineRange(i, line), d.detail))
    case None => None
  }

  /** The symbol each line contributes, line by line. */
  function LineSymbols(lines: seq<string>): (found: seq<Option<SymbolInfo>>)
    ensures |found| == |lines|
    ensures forall j :: 0 <= j < |lines| ==> found[j] == LineSymbol(lines[j], j)
  {
    seq(|lines|, j requires 0 <= j < |lines| => LineSymbol(lines[j], j))
  }

  /**
   * The table built from the per-line results `found`: the present ones, in
   * line order; every line that found a symbol is represented.
   */
  function SymbolTable(found: seq<Option<SymbolInfo>>): (r: seq<SymbolInfo>)
    requires forall j :: 0 <= j < |found| && found[j].Some? ==> found[j].value.line == j
    ensures forall k :: 0 <= k < |r| ==> r[k].line < |found| && found[r[k].line] == Some(r[k])
    ensures forall k :: 0 <= k < |r| - 1 ==> r[k].line < r[k + 1].line
    ensures forall j :: 0 <= j < |found| && found[j].Some? ==> exists k :: 0 <= k < |r| && r[k].line == j
  {
    var idx := Present(found, 0);
    var r := Gather(found, idx);
    GatheredInOrder(found, idx, r);
    GatheredCover(found, idx, r);
    r
  }

  lemma GatheredInOrder(found: seq<Option<SymbolInfo>>, idx: seq<nat>, r: seq<SymbolInfo>)
    requires forall j :: 0 <= j < |found| && found[j].Some? ==> found[j].value.line == j
    requires idx == Present(found, 0) && r == Gather(found, idx)
    ensures forall k :: 0 <= k < |r| ==> r[k].line < |found| && found[r[k].line] == Some(r[k])
    ensures forall k :: 0 <= k < |r| - 1 ==> r[k].line < r[k + 1].line
  {
    forall k | 0 <= k < |r| ensures r[k].line == idx[k] {
      assert r[k] == found[idx[k]].value;
    }
  }

  lemma GatheredCover(found: seq<Option<SymbolInfo>>, idx: seq<nat>, r: seq<SymbolInfo>)
    requires forall j :: 0 <= j < |found| && found[j].Some? ==> found[j].value.line == j
    requires idx == Present(found, 0) && r == Gather(found, idx)
    ensures forall j :: 0 <= j < |found| && found[j].Some? ==> exists k :: 0 <= k < |r| && r[k].line == j
  {
    forall j | 0 <= j < |found| && found[j].Some? ensures exists k :: 0 <= k < |r| && r[k].line == j {
      var k :| 0 <= k < |idx| && idx[k] == j;
      assert r[k].line == j;
    }
  }

  /** The document's symbol table. */
  function DocumentSymbols(lines: seq<string>): seq<SymbolInfo> {
    SymbolTable(LineSymbols(lines))
  }

  /** Line numbers increase strictly through the whole table, not only between neighbours. */
  lemma {:induction false} SymbolLinesIncrease(r: seq<SymbolInfo>, k: nat, l: nat)
    requires forall m :: 0 <= m < |r| - 1 ==> r[m].line < r[m + 1].line
    requires k < l < |r|
    ensures r[k].line < r[l].line
    decreases l - k
  {
    if k + 1 < l {
      SymbolLinesIncrease(r, k + 1, l);
    }
  }

  /** The table is the left-to-right compaction of the per-line results. */
  lemma TableIsCompaction(lines: seq<string>)
    ensures DocumentSymbols(lines) == Compact(LineSymbols(lines), 0)
  {
    CompactIsGather(LineSymbols(lines), 0);
  }

  /** `parseDocument`: one pass over the lines, each line tried against the patterns in order. */
  method ParseDocument(text: string) returns (symbols: seq<SymbolInfo>)
    ensures symbols == DocumentSymbols(SplitLines(text))
  {
    var lines := SplitLines(text);
    ghost var found := LineSymbols(lines);
    symbols := [];
    var i := 0;
    while i < |lines|
      invariant 0 <= i <= |lines|
      invariant symbols + Compact(found, i) == Compact(found, 0)
    {
      var s := LineSymbol(lines[i], i);
      CompactStep(found, i, symbols);
      symbols := symbols + ToSeq(s);
      i := i + 1;
    }
    TableIsCompaction(lines);
  }
}
