/**
 * The naming-convention checks of validation: type and module names start
 * with a capital letter, method and function names with a lower-case one,
 * and a capitalised name assigned without a declaration keyword is expected
 * in SCREAMING_SNAKE_CASE outside enum blocks.
 */
module Naming {
  import opened Wrappers
  import opened Lsp
  import opened Patterns
  import opened Symbols
  import opened Diagnostics

  /** The keywords of the type-name check (server/src/server.ts:451). */
  const TypeDeclKeywords: seq<string> := ["class", "cls", "struct", "module", "mod", "enum", "record", "annotation", "anno"]
  /** The keywords of the method-name check (server/src/server.ts:465). */
  const MethodDeclKeywords: seq<string> := ["def", "define", "fun", "function"]
  /** The declaration keywords that allow any case (server/src/server.ts:482). */
  const VariableDeclKeywords: seq<string> := ["let", "var", "fix", "con"]

  lemma NamingWordsAreLower()
    ensures forall w :: w in TypeDeclKeywords ==> IsLowerWord(w)
    ensures forall w :: w in MethodDeclKeywords ==> IsLowerWord(w)
  {
  }

  /** A name a naming pattern captured: the keyword before it, the column where it starts, and its text. */
  datatype NameMatch = NameMatch(keyword: string, column: nat, name: string)

  /** The captured name is an identifier at its column, and the whole of the word there. */
  predicate NameAt(line: string, m: NameMatch) {
    TextAt(line, m.column, m.name) && IsIdentifier(m.name) &&
    (m.column + |m.name| == |line| || !IsWordChar(line[m.column + |m.name|]))
  }

  /** The identifier starting at `j` of the text after the indentation, as a match in the line. */
  function NameFrom(line: string, kw: string, j: nat): (m: NameMatch)
    requires j < |Rest(line)| && IsIdentStart(Rest(line)[j])
    ensures NameAt(line, m) && m.keyword == kw && m.column == LeadingSpaces(line) + j
  {
    var r := Rest(line);
    var n := LeadingSpaces(line);
    var e := IdentEnd(r, j);
    var m := NameMatch(kw, n + j, r[j..e]);
    assert line[n + j..n + e] == r[j..e];
    assert e < |r| ==> line[n + e] == r[e];
    m
  }

  // ----- type and module names -----

  /** `^\s*(?:abstract\s+|abs\s+)?(class|cls|struct|module|mod|enum|record|annotation|anno)\s+([a-z]\w*)` */
  function LowerTypeName(line: string): (m: Option<NameMatch>)
    ensures m.Some? ==> m.value.keyword in TypeDeclKeywords && NameAt(line, m.value) && IsLower(m.value.name[0])
  {
    var r := Rest(line);
    match ModifiedHead(r, ClassModifiers, TypeDeclKeywords, Lower)
    case None => None
    case Some(h) => Some(NameFrom(line, h.keyword, h.nameStart))
  }

  /** The type-name check, the diagnostic placed on the captured name. */
  function TypeNameCheck(line: string, i: nat): (d: Option<Diagnostic>)
    ensures d.Some? <==> LowerTypeName(line).Some?
    ensures d.Some? ==> var m := LowerTypeName(line).value;
      d.value == Diagnostic(Error, Range(i, m.column, i, m.column + |m.name|), TypeNameCase(m.keyword)) &&
      line[d.value.range.startCol..d.value.range.endCol] == m.name && IsLower(line[d.value.range.startCol])
  {
    match LowerTypeName(line)
    case None => None
    case Some(m) => Some(Diagnostic(Error, Range(i, m.column, i, m.column + |m.name|), TypeNameCase(m.keyword)))
  }

  /** The type-name check as the source places it: at the first occurrence of the name anywhere in the line. */
  function TypeNameCheckAsWritten(line: string, i: nat): (d: Option<Diagnostic>)
    ensures d.Some? <==> LowerTypeName(line).Some?
    ensures d.Some? ==> var m := LowerTypeName(line).value;
      d.value.severity == Error && d.value.range.startLine == i && d.value.range.endLine == i &&
      d.value.range.startCol <= m.column && TextAt(line, d.value.range.startCol, m.name) &&
      (forall k :: 0 <= k < d.value.range.startCol ==> !TextAt(line, k, m.name)) &&
      d.value.range.endCol == d.value.range.startCol + |m.name| && d.value.problem == TypeNameCase(m.keyword)
  {
    match LowerTypeName(line)
    case None => None
    case Some(m) =>
      var startCol := IndexOf(line, m.name);
      assert startCol >= 0;
      Some(Diagnostic(Error, Range(i, startCol, i, startCol + |m.name|), TypeNameCase(m.keyword)))
  }

  /** In `class s` the name is found inside the keyword: the diagnostic underlines the `s` of `class`. */
  lemma TypeNameColumnAsWrittenMisses()
    ensures TypeNameCheckAsWritten("class s", 0) == Some(Diagnostic(Error, Range(0, 3, 0, 4), TypeNameCase("class")))
    ensures TypeNameCheck("class s", 0) == Some(Diagnostic(Error, Range(0, 6, 0, 7), TypeNameCase("class")))
  {
    ClassLowerName();
    NameInsideKeyword();
  }

  lemma NameInsideKeyword()
    ensures IndexOf("class s", "s") == 3
  {
    var line := "class s";
    assert line[3..4] == "s";
    assert forall k :: 0 <= k < 3 ==> line[k] != 's';
    IndexOfFirstStart(line, "s", 3);
  }

  lemma ClassLowerName()
    ensures LowerTypeName("class s") == Some(NameMatch("class", 6, "s"))
  {
    var line := "class s";
    ClassHead();
    assert LeadingSpaces(line) == 0 && Rest(line) == line by {
      assert !IsSpace(line[0]);
    }
    assert IdentEnd(line, 6) == 7;
    assert line[6..7] == "s";
  }

  lemma ClassHead()
    ensures ModifiedHead("class s", ClassModifiers, TypeDeclKeywords, Lower) == Some(Head("class", 6))
  {
    var line := "class s";
    assert RunEnd(line, 0, NotSpace) == 5 by {
      RunEndUnique(line, 0, NotSpace, 5);
    }
    assert line[..5] == line[0..5] == "class";
    assert line[..5] !in ClassModifiers;
    assert RunEnd(line, 5, Space) == 6 by {
      RunEndUnique(line, 5, Space, 6);
    }
    assert KeywordHead(line, 0, TypeDeclKeywords, Lower) == Some(Head("class", 6));
  }

  // ----- method and function names -----

  /** `^\s*(def|define|fun|function)\s+([A-Z]\w*)`; the lookahead for modifiers in front cannot fail there. */
  function UpperMethodName(line: string): (m: Option<NameMatch>)
    ensures m.Some? ==> m.value.keyword in MethodDeclKeywords && NameAt(line, m.value) && IsUpper(m.value.name[0])
    ensures m.Some? ==> forall k :: 0 <= k < m.value.column ==> !IsUpper(line[k])
  {
    var r := Rest(line);
    match KeywordHead(r, 0, MethodDeclKeywords, Upper)
    case None => None
    case Some(h) =>
      var m := NameFrom(line, h.keyword, h.nameStart);
      assert forall k :: 0 <= k < m.column ==> !IsUpper(line[k]) by {
        NothingUpperBeforeHead(line, h);
      }
      Some(m)
  }

  lemma NothingUpperBeforeHead(line: string, h: Head)
    requires var r := Rest(line); h.keyword in MethodDeclKeywords && TextAt(r, 0, h.keyword) && |h.keyword| < h.nameStart <= |r|
    requires forall k :: |h.keyword| <= k < h.nameStart ==> IsSpace(Rest(line)[k])
    ensures forall k :: 0 <= k < LeadingSpaces(line) + h.nameStart ==> !IsUpper(line[k])
  {
    var n := LeadingSpaces(line);
    var r := Rest(line);
    NamingWordsAreLower();
    forall k | 0 <= k < n + h.nameStart ensures !IsUpper(line[k]) {
      if k < n {
        assert InClass(line[k], Space);
      } else if k < n + |h.keyword| {
        assert line[k] == r[k - n] == h.keyword[k - n];
        assert IsLower(h.keyword[k - n]);
      } else {
        assert line[k] == r[k - n];
      }
    }
  }

  /** `indexOf` finds a capitalised name at its column when no capital letter comes before it. */
  lemma FirstCapitalIndex(line: string, m: NameMatch)
    requires TextAt(line, m.column, m.name) && |m.name| > 0 && IsUpper(m.name[0])
    requires forall k :: 0 <= k < m.column ==> !IsUpper(line[k])
    ensures IndexOf(line, m.name) == m.column
  {
    IndexOfFirstStart(line, m.name, m.column);
  }

  /** The method-name check; `indexOf` places it on the captured name itself. */
  function MethodNameCheck(line: string, i: nat): (d: Option<Diagnostic>)
    ensures d.Some? <==> UpperMethodName(line).Some?
    ensures d.Some? ==> var m := UpperMethodName(line).value;
      d.value == Diagnostic(Error, Range(i, m.column, i, m.column + |m.name|), MethodNameCase(m.keyword))
  {
    match UpperMethodName(line)
    case None => None
    case Some(m) =>
      FirstCapitalIndex(line, m);
      var startCol := IndexOf(line, m.name);
      Some(Diagnostic(Error, Range(i, startCol, i, startCol + |m.name|), MethodNameCase(m.keyword)))
  }

  // ----- constants without a keyword -----

  /** `^\s*([A-Z][a-z]\w*)`: a capitalised word with a lower-case second letter at the start of the line. */
  function ConstantName(line: string): (m: Option<NameMatch>)
    ensures m.Some? ==> NameAt(line, m.value) && m.value.column == LeadingSpaces(line)
    ensures m.Some? ==> |m.value.name| >= 2 && IsUpper(m.value.name[0]) && IsLower(m.value.name[1])
  {
    var r := Rest(line);
    if |r| >= 2 && IsUpper(r[0]) && IsLower(r[1]) then Some(NameFrom(line, "", 0)) else None
  }

  /** `/^[A-Z][A-Z0-9_]*$/` */
  predicate IsScreamingSnake(name: string) {
    |name| > 0 && IsUpper(name[0]) && forall k :: 1 <= k < |name| ==> InClass(name[k], UpperSnake)
  }

  /**
   * The constant-case check: a warning on a capitalised name assigned with
   * `=` anywhere in the line, unless a declaration keyword starts the line
   * or the line is inside an enum block.
   */
  function ConstantCheck(line: string, i: nat, inEnumBlock: bool): (d: Option<Diagnostic>)
    ensures d.Some? <==> ConstantName(line).Some? && !inEnumBlock && '=' in line
    ensures d.Some? ==> var m := ConstantName(line).value;
      d.value == Diagnostic(Warning, Range(i, m.column, i, m.column + |m.name|), ConstantCase)
  {
    match ConstantName(line)
    case None => None
    case Some(m) =>
      ConstantNameFacts(line);
      if !StartsWithKeyword(line, VariableDeclKeywords) && !inEnumBlock then
        if !IsScreamingSnake(m.name) && '=' in line then
          var startCol := IndexOf(line, m.name);
          Some(Diagnostic(Warning, Range(i, startCol, i, startCol + |m.name|), ConstantCase))
        else None
      else None
  }

  /** The constant pattern's capture: no declaration keyword, not SCREAMING_SNAKE_CASE, and found by `indexOf` at its column. */
  lemma ConstantNameFacts(line: string)
    requires ConstantName(line).Some?
    ensures var m := ConstantName(line).value;
      !StartsWithKeyword(line, VariableDeclKeywords) && !IsScreamingSnake(m.name) && IndexOf(line, m.name) == m.column
  {
    var m := ConstantName(line).value;
    NoKeywordBeforeCapital(line);
    assert !InClass(m.name[1], UpperSnake);
    forall k | 0 <= k < m.column ensures !IsUpper(line[k]) {
      assert InClass(line[k], Space);
    }
    FirstCapitalIndex(line, m);
  }

  /** A line that starts with a capital letter does not start with a declaration keyword. */
  lemma NoKeywordBeforeCapital(line: string)
    requires |Rest(line)| > 0 && IsUpper(Rest(line)[0])
    ensures !StartsWithKeyword(line, VariableDeclKeywords)
  {
    var r := Rest(line);
    forall w | w in VariableDeclKeywords ensures !KeywordAt(r, 0, w) {
      assert |w| > 0 && IsLower(w[0]);
    }
  }

  /** No constant is reported inside an enum block. */
  lemma EnumBlockSilencesConstants(line: string, i: nat)
    ensures ConstantCheck(line, i, true).None?
  {
  }
}
