/**
 * The definition forms the symbol patterns recognise, written out as
 * values and rendered as source lines. A line rendered from a well-formed
 * definition declares exactly the symbol the definition describes; this is
 * the inverse direction of `Symbols.LineDecl`.
 */
module SymbolForms {
  import opened Wrappers
  import opened Lsp
  import opened Patterns
  import opened Symbols

  datatype Definition =
    | TypeDefinition(modifier: Option<string>, keyword: string, name: string)
    | ModuleDefinition(keyword: string, name: string)
    | MethodDefinition(keyword: string, target: Option<string>, name: string, params: Option<string>)
    | FunctionDefinition(keyword: string, name: string, params: Option<string>)
    | ConstantDefinition(name: string)
    | VariableDefinition(keyword: string, name: string, annotation: Option<string>)

  predicate IsTypeName(t: string) {
    t in TypeNames || (IsIdentifier(t) && IsUpper(t[0]))
  }

  predicate NoCloseParen(p: string) {
    forall k :: 0 <= k < |p| ==> p[k] != ')'
  }

  predicate WellFormed(d: Definition) {
    match d
    case TypeDefinition(m, kw, name) =>
      (m.None? || m.value in ClassModifiers) && kw in ClassKeywords && IsIdentifier(name) && IsUpper(name[0])
    case ModuleDefinition(kw, name) =>
      kw in ModuleKeywords && IsIdentifier(name) && IsUpper(name[0])
    case MethodDefinition(kw, target, name, params) =>
      kw in MethodKeywords && (target.None? || IsIdentifier(target.value)) && IsMethodName(name) &&
      (params.None? || NoCloseParen(params.value))
    case FunctionDefinition(kw, name, params) =>
      kw in FunctionKeywords && IsMethodName(name) && (IsLower(name[0]) || name[0] == '_') &&
      (params.None? || NoCloseParen(params.value))
    case ConstantDefinition(name) =>
      |name| > 0 && IsUpper(name[0]) && forall k :: 0 <= k < |name| ==> InClass(name[k], UpperSnake)
    case VariableDefinition(kw, name, annotation) =>
      kw in VariableKeywords && IsIdentifier(name) && (IsLower(name[0]) || name[0] == '_') &&
      (annotation.None? || IsTypeName(annotation.value))
  }

  function ParamText(params: Option<string>): string {
    match params
    case Some(p) => "(" + p + ")"
    case None => ""
  }

  function ModifierText(modifier: Option<string>): string {
    match modifier
    case Some(m) => m + " "
    case None => ""
  }

  function TargetText(target: Option<string>): string {
    match target
    case Some(t) => t + "."
    case None => ""
  }

  function AnnotationText(annotation: Option<string>): string {
    match annotation
    case Some(t) => ": " + t
    case None => ""
  }

  /** The definition written in its canonical form, one space between its parts. */
  function Render(d: Definition): string {
    match d
    case TypeDefinition(m, kw, name) => ModifierText(m) + kw + " " + name
    case ModuleDefinition(kw, name) => kw + " " + name
    case MethodDefinition(kw, target, name, params) => kw + " " + TargetText(target) + name + ParamText(params)
    case FunctionDefinition(kw, name, params) => kw + " " + name + ParamText(params)
    case ConstantDefinition(name) => name + " ="
    case VariableDefinition(kw, name, annotation) => kw + " " + name + AnnotationText(annotation)
  }

  /** A method's name as the outline shows it: qualified by its receiver when it has one. */
  function QualifiedName(target: Option<string>, name: string): string {
    match target
    case Some(t) => t + "." + name
    case None => name
  }

  function MethodKindText(target: Option<string>): string {
    if target.Some? then "singleton method " else "method "
  }

  /** The symbol a definition is meant to declare, as the engine's outline shows it. */
  function Intended(d: Definition): Declared {
    match d
    case TypeDefinition(_, kw, name) => Declared(name, if kw == "enum" then Enum else Class, kw + " " + name)
    case ModuleDefinition(_, name) => Declared(name, Module, "module " + name)
    case MethodDefinition(_, target, name, params) =>
      Declared(QualifiedName(target, name), Method, WithParams(MethodKindText(target) + QualifiedName(target, name), params))
    case FunctionDefinition(_, name, params) => Declared(name, Function, WithParams("fun " + name, params))
    case ConstantDefinition(name) => Declared(name, Constant, "constant " + name)
    case VariableDefinition(kw, name, annotation) => Declared(name, Variable, kw + " " + name + AnnotationText(annotation))
  }

  /** A tail that cannot change a bare name's extent: nothing that would continue it, start a receiver or open parameters. */
  predicate EndsName(tail: string) {
    tail == [] || !(IsWordChar(tail[0]) || IsSpace(tail[0]) || IsNameSuffix(tail[0]) || tail[0] == '.' || tail[0] == '(' || tail[0] == ':')
  }

  /** What may follow the rendered definition on its line without changing what it declares. */
  predicate TailFits(d: Definition, tail: string) {
    match d
    case TypeDefinition(_, _, _) => tail == [] || !IsWordChar(tail[0])
    case ModuleDefinition(_, _) => tail == [] || !IsWordChar(tail[0])
    case MethodDefinition(_, _, _, params) => params.Some? || EndsName(tail)
    case FunctionDefinition(_, _, params) => params.Some? || EndsName(tail)
    case ConstantDefinition(_) => true
    case VariableDefinition(_, _, annotation) =>
      match annotation
      case None => EndsName(tail)
      case Some(t) => t in TypeNames || tail == [] || !IsWordChar(tail[0])
  }

  /**
   * A well-formed definition, indented by spaces and followed by a fitting
   * tail, makes its line declare the intended symbol, spanning the line.
   */
  lemma DefinitionDeclares(d: Definition, indent: string, tail: string, i: nat)
    requires WellFormed(d) && TailFits(d, tail) && AllSpaces(indent)
    ensures LineSymbol(indent + Render(d) + tail, i) ==
      Some(SymbolInfo(Intended(d).name, Intended(d).kind, i, LineRange(i, indent + Render(d) + tail), Intended(d).detail))
  {
    var r := Render(d) + tail;
    assert indent + Render(d) + tail == indent + r;
    match d {
      case TypeDefinition(_, _, _) => TypeDeclares(d, tail);
      case ModuleDefinition(_, _) => ModuleDeclares(d, tail);
      case MethodDefinition(_, _, _, _) => MethodDeclares(d, tail);
      case FunctionDefinition(_, _, _) => FunctionDeclares(d, tail);
      case ConstantDefinition(_) => ConstantDeclares(d, tail);
      case VariableDefinition(_, _, _) => VariableDeclares(d, tail);
    }
    RestAfterIndent(indent, r);
  }

  // ----- the keyword lists -----

  lemma ClassKeywordFacts(modifier: Option<string>, kw: string)
    requires (modifier.None? || modifier.value in ClassModifiers) && kw in ClassKeywords
    ensures NoSpaces(kw) && |kw| > 0 && kw !in ClassModifiers
    ensures modifier.Some? ==> NoSpaces(modifier.value) && |modifier.value| > 0
  {
    ClassWordsAreLower();
    LowerWordNoSpaces(kw);
    if modifier.Some? {
      LowerWordNoSpaces(modifier.value);
    }
  }

  lemma ModuleKeywordFacts(kw: string)
    requires kw in ModuleKeywords
    ensures NoSpaces(kw) && |kw| > 0 && kw !in ClassModifiers && kw !in ClassKeywords
  {
    OtherWordsAreLower();
    LowerWordNoSpaces(kw);
  }

  lemma MethodKeywordFacts(kw: string)
    requires kw in MethodKeywords
    ensures NoSpaces(kw) && |kw| > 0 && kw !in ClassModifiers && kw !in ClassKeywords && kw !in ModuleKeywords
  {
    OtherWordsAreLower();
    LowerWordNoSpaces(kw);
  }

  lemma FunctionKeywordFacts(kw: string)
    requires kw in FunctionKeywords
    ensures NoSpaces(kw) && |kw| > 0 && kw !in ClassModifiers && kw !in ClassKeywords && kw !in ModuleKeywords
    ensures kw !in MethodKeywords
  {
    OtherWordsAreLower();
    LowerWordNoSpaces(kw);
  }

  lemma VariableKeywordFacts(kw: string)
    requires kw in VariableKeywords
    ensures NoSpaces(kw) && |kw| > 0 && IsLower(kw[0]) && kw !in ClassModifiers && kw !in ClassKeywords
    ensures kw !in ModuleKeywords && kw !in MethodKeywords && kw !in FunctionKeywords
  {
    OtherWordsAreLower();
    LowerWordNoSpaces(kw);
  }

  /** A word starting with a capital letter is none of the keywords. */
  lemma UpperIsNoKeyword(w: string)
    requires |w| > 0 && IsUpper(w[0])
    ensures w !in ClassModifiers && w !in ClassKeywords && w !in ModuleKeywords && w !in MethodKeywords && w !in FunctionKeywords
  {
    ClassWordsAreLower();
    OtherWordsAreLower();
  }

  // ----- where the parts of a rendered line lie -----

  lemma TextAtWhole(s: string)
    ensures TextAt(s, 0, s)
  {
  }

  lemma TextAtConcat(s: string, i: nat, u: string, v: string)
    requires TextAt(s, i, u + v)
    ensures TextAt(s, i, u) && TextAt(s, i + |u|, v)
  {
    assert s[i..i + |u|] == s[i..i + |u + v|][..|u|];
    assert s[i + |u|..i + |u| + |v|] == s[i..i + |u + v|][|u|..];
  }

  lemma TextAtChar(s: string, i: nat, c: char)
    requires TextAt(s, i, [c])
    ensures s[i] == c
  {
    assert s[i] == s[i..i + 1][0];
  }

  lemma TextAtRest(s: string, i: nat, u: string, v: string)
    requires TextAt(s, i, u) && s[i + |u|..] == v
    ensures s[i..] == u + v
  {
    assert s[i..] == s[i..i + |u|] + s[i + |u|..];
  }

  lemma TextAtEnd(s: string, i: nat, v: string)
    requires TextAt(s, i, v) && i + |v| == |s|
    ensures s[i..] == v
  {
  }

  /** `kw name` at `j`, followed by `rest`: the keyword, the space and the name where they belong. */
  lemma WordsLayoutAt(r: string, j: nat, kw: string, name: string, rest: string)
    requires TextAt(r, j, kw + " " + name + rest)
    ensures TextAt(r, j, kw) && TextAt(r, j + |kw| + 1, name) && r[j + |kw|] == ' '
    ensures TextAt(r, j + |kw| + 1 + |name|, rest)
  {
    TextAtConcat(r, j, kw + " " + name, rest);
    TextAtConcat(r, j, kw + " ", name);
    TextAtConcat(r, j, kw, " ");
    TextAtChar(r, j + |kw|, ' ');
  }

  lemma WordsLayout(kw: string, name: string, rest: string)
    ensures TextAt(kw + " " + name + rest, 0, kw) && TextAt(kw + " " + name + rest, |kw| + 1, name)
    ensures (kw + " " + name + rest)[|kw|] == ' ' && (kw + " " + name + rest)[|kw| + 1 + |name|..] == rest
  {
    var r := kw + " " + name + rest;
    TextAtWhole(r);
    WordsLayoutAt(r, 0, kw, name, rest);
    TextAtEnd(r, |kw| + 1 + |name|, rest);
  }

  lemma TypeLayout(modifier: Option<string>, kw: string, name: string, tail: string)
    ensures modifier.Some? ==>
      TextAt(ModifierText(modifier) + kw + " " + name + tail, 0, modifier.value) &&
      (ModifierText(modifier) + kw + " " + name + tail)[|modifier.value|] == ' '
    ensures TextAt(ModifierText(modifier) + kw + " " + name + tail, |ModifierText(modifier)|, kw + " " + name + tail)
  {
    var pre := ModifierText(modifier);
    var r := pre + kw + " " + name + tail;
    assert r == pre + (kw + " " + name + tail);
    TextAtWhole(r);
    TextAtConcat(r, 0, pre, kw + " " + name + tail);
    if modifier.Some? {
      TextAtConcat(r, 0, modifier.value, " ");
      TextAtChar(r, |modifier.value|, ' ');
    }
  }

  /** Five parts in a row: where each of them starts. */
  lemma PartsLayout(a: string, b: string, c: string, d: string, e: string)
    ensures TextAt(a + b + c + d + e, 0, a) && TextAt(a + b + c + d + e, |a|, b) && TextAt(a + b + c + d + e, |a| + |b|, c)
    ensures TextAt(a + b + c + d + e, |a| + |b| + |c|, d) && (a + b + c + d + e)[|a| + |b| + |c| + |d|..] == e
  {
    var r := a + b + c + d + e;
    TextAtWhole(r);
    TextAtConcat(r, 0, a + b + c + d, e);
    TextAtConcat(r, 0, a + b + c, d);
    TextAtConcat(r, 0, a + b, c);
    TextAtConcat(r, 0, a, b);
    TextAtEnd(r, |a| + |b| + |c| + |d|, e);
  }

  lemma TargetLayout(r: string, j: nat, target: Option<string>)
    requires TextAt(r, j, TargetText(target))
    ensures target.Some? ==> TextAt(r, j, target.value) && j + |target.value| < |r| && r[j + |target.value|] == '.'
  {
    if target.Some? {
      TextAtConcat(r, j, target.value, ".");
      TextAtChar(r, j + |target.value|, '.');
    }
  }

  lemma ConstantLayout(name: string, tail: string)
    ensures TextAt(name + " =" + tail, 0, name) && TextAt(name + " =" + tail, |name|, " =")
  {
    var r := name + " =" + tail;
    TextAtWhole(r);
    TextAtConcat(r, 0, name + " =", tail);
    TextAtConcat(r, 0, name, " =");
  }

  /** What follows a variable's name: an annotation laid out as `: T`, or nothing that continues the name. */
  predicate AnnotationLaid(r: string, e: nat, annotation: Option<string>)
    requires e <= |r|
  {
    match annotation
    case None => EndsName(r[e..])
    case Some(t) =>
      e + 2 <= |r| && r[e] == ':' && r[e + 1] == ' ' && TextAt(r, e + 2, t) &&
      (t in TypeNames || e + 2 + |t| == |r| || !IsWordChar(r[e + 2 + |t|]))
  }

  lemma AnnotationLayout(r: string, e: nat, annotation: Option<string>, tail: string)
    requires e <= |r| && r[e..] == AnnotationText(annotation) + tail
    requires match annotation
      case None => EndsName(tail)
      case Some(t) => t in TypeNames || tail == [] || !IsWordChar(tail[0])
    ensures AnnotationLaid(r, e, annotation)
  {
    var rest := r[e..];
    if annotation.Some? {
      var t := annotation.value;
      assert r[e] == rest[0] == ':' && r[e + 1] == rest[1] == ' ';
      assert r[e + 2..e + 2 + |t|] == rest[2..2 + |t|] == t;
      if e + 2 + |t| < |r| {
        assert r[e + 2 + |t|] == rest[2 + |t|] == tail[0];
      }
    }
  }

  // ----- the scanners on a laid-out line -----

  /** The word at `i` of a text that has `w` there, followed by a space or the end. */
  lemma TokenIs(r: string, i: nat, w: string)
    requires TextAt(r, i, w) && NoSpaces(w) && (i + |w| == |r| || IsSpace(r[i + |w|]))
    ensures TokenAt(r, i) == w
  {
    forall k | i <= k < i + |w| ensures InClass(r[k], NotSpace) {
      assert r[k] == r[i..i + |w|][k - i];
    }
    RunEndUnique(r, i, NotSpace, i + |w|);
  }

  /** A keyword of `kws` at `i`, one space, and a name that starts as `init` requires. */
  lemma KeywordHeadAt(r: string, i: nat, kws: seq<string>, init: Initial, kw: string)
    requires NoSpaces(kw) && kw in kws
    requires TextAt(r, i, kw) && i + |kw| + 1 < |r| && r[i + |kw|] == ' ' && StartsAs(r[i + |kw| + 1], init)
    ensures KeywordHead(r, i, kws, init) == Some(Head(kw, i + |kw| + 1))
    ensures TokenAt(r, i) == kw && RunEnd(r, i, NotSpace) == i + |kw|
  {
    TokenIs(r, i, kw);
    RunEndUnique(r, i + |kw|, Space, i + |kw| + 1);
  }

  lemma IdentEndAt(r: string, n: nat, name: string)
    requires TextAt(r, n, name) && |name| > 0 && forall k :: 0 <= k < |name| ==> IsWordChar(name[k])
    requires n + |name| == |r| || !IsWordChar(r[n + |name|])
    ensures IdentEnd(r, n) == n + |name|
  {
    forall k | n + 1 <= k < n + |name| ensures InClass(r[k], Word) {
      assert r[k] == r[n..n + |name|][k - n];
    }
    RunEndUnique(r, n + 1, Word, n + |name|);
  }

  lemma NameEndAt(r: string, n: nat, name: string)
    requires TextAt(r, n, name) && IsMethodName(name)
    requires n + |name| == |r| || !(IsWordChar(r[n + |name|]) || (IdentPart(name) == name && IsNameSuffix(r[n + |name|])))
    ensures NameEnd(r, n) == n + |name|
  {
    var id := IdentPart(name);
    assert TextAt(r, n, id) by {
      assert r[n..n + |id|] == r[n..n + |name|][..|id|];
    }
    if id == name {
      IdentEndAt(r, n, id);
    } else {
      assert r[n + |id|] == r[n..n + |name|][|id|];
      IdentEndAt(r, n, id);
    }
  }

  /** A character that ends a method name: it neither continues it nor qualifies it. */
  predicate NameStops(c: char) {
    !(IsWordChar(c) || IsNameSuffix(c) || c == '.')
  }

  /** `(?:(self|[a-zA-Z_]\w*)\.)?([a-zA-Z_]\w*[?!=]?)` from `j`: the receiver is found exactly when there is one, and the name spans `n..ne`. */
  lemma MethodNameAt(r: string, j: nat, n: nat, ne: nat, target: Option<string>, name: string)
    requires (target.None? || IsIdentifier(target.value)) && IsMethodName(name)
    requires n == j + |TargetText(target)| && ne == n + |name|
    requires target.Some? ==> TextAt(r, j, target.value) && j + |target.value| < |r| && r[j + |target.value|] == '.'
    requires TextAt(r, n, name)
    requires ne == |r| || NameStops(r[ne])
    ensures j < |r| && n < |r|
    ensures (IdentEnd(r, j) + 1 < |r| && r[IdentEnd(r, j)] == '.' && IsIdentStart(r[IdentEnd(r, j) + 1])) <==> target.Some?
    ensures target.Some? ==> IdentEnd(r, j) + 1 == n && r[j..IdentEnd(r, j)] == target.value
    ensures target.None? ==> n == j
    ensures NameEnd(r, n) == ne && r[n..ne] == name
    ensures IsIdentStart(r[j])
  {
    if target.Some? {
      QualifiedNameAt(r, j, n, ne, target.value, name);
    } else {
      PlainNameAt(r, j, ne, name);
    }
  }

  lemma QualifiedNameAt(r: string, j: nat, n: nat, ne: nat, t: string, name: string)
    requires IsIdentifier(t) && IsMethodName(name) && n == j + |t| + 1 && ne == n + |name|
    requires TextAt(r, j, t) && j + |t| < |r| && r[j + |t|] == '.' && TextAt(r, n, name)
    requires ne == |r| || NameStops(r[ne])
    ensures n < |r| && IdentEnd(r, j) + 1 < |r| && r[IdentEnd(r, j)] == '.' && IsIdentStart(r[IdentEnd(r, j) + 1])
    ensures IdentEnd(r, j) + 1 == n && r[j..IdentEnd(r, j)] == t
    ensures NameEnd(r, n) == ne && r[n..ne] == name && IsIdentStart(r[j])
  {
    NameEndAt(r, n, name);
    MethodNameStart(name);
    assert r[n] == name[0] && r[j] == t[0];
    IdentEndAt(r, j, t);
  }

  lemma PlainNameAt(r: string, j: nat, ne: nat, name: string)
    requires IsMethodName(name) && ne == j + |name| && TextAt(r, j, name)
    requires ne == |r| || NameStops(r[ne])
    ensures j < |r| && !(IdentEnd(r, j) + 1 < |r| && r[IdentEnd(r, j)] == '.' && IsIdentStart(r[IdentEnd(r, j) + 1]))
    ensures NameEnd(r, j) == ne && r[j..ne] == name && IsIdentStart(r[j])
  {
    var id := IdentPart(name);
    NameEndAt(r, j, name);
    MethodNameStart(name);
    assert r[j] == name[0];
    assert TextAt(r, j, id) by {
      assert r[j..j + |id|] == r[j..ne][..|id|];
    }
    if id != name {
      assert r[j + |id|] == name[|id|];
    }
    IdentEndAt(r, j, id);
  }

  lemma ParamsAtSome(r: string, e: nat, p: string)
    requires TextAt(r, e, "(" + p + ")") && NoCloseParen(p)
    ensures ParamsAt(r, e) == Some(p)
  {
    var s := "(" + p + ")";
    assert r[e] == s[0];
    RunEndUnique(r, e, Space, e);
    forall k | e + 1 <= k < e + 1 + |p| ensures InClass(r[k], NotCloseParen) && r[k] == p[k - e - 1] {
      assert r[k] == s[k - e];
    }
    assert r[e + 1 + |p|] == s[1 + |p|];
    RunEndUnique(r, e + 1, NotCloseParen, e + 1 + |p|);
    assert r[e + 1..e + 1 + |p|] == p;
  }

  lemma ParamsAtNone(r: string, e: nat)
    requires e <= |r|
    requires e == |r| || !(IsSpace(r[e]) || r[e] == '(')
    ensures ParamsAt(r, e).None?
  {
    RunEndUnique(r, e, Space, e);
  }

  lemma ParamsAtText(r: string, e: nat, params: Option<string>)
    requires params.None? || NoCloseParen(params.value)
    requires TextAt(r, e, ParamText(params))
    requires params.None? ==> EndsName(r[e..])
    ensures ParamsAt(r, e) == params
    ensures e == |r| || NameStops(r[e])
  {
    if params.Some? {
      assert r[e] == ParamText(params)[0];
      ParamsAtSome(r, e, params.value);
    } else {
      if e < |r| {
        assert r[e] == r[e..][0];
      }
      ParamsAtNone(r, e);
    }
  }

  lemma AnnotationAt(r: string, e: nat, annotation: Option<string>)
    requires annotation.None? || IsTypeName(annotation.value)
    requires e <= |r| && AnnotationLaid(r, e, annotation)
    ensures Annotation(r, e) == annotation
    ensures e == |r| || !IsWordChar(r[e])
  {
    if annotation.Some? {
      var t := annotation.value;
      assert r[e + 2] == t[0];
      RunEndUnique(r, e, Space, e);
      RunEndUnique(r, e + 1, Space, e + 2);
      if t in TypeNames {
        assert !IsUpper(t[0]);
        TypeNameFound(r, e + 2, t);
      } else {
        IdentEndAt(r, e + 2, t);
      }
    } else {
      if e < |r| {
        assert r[e] == r[e..][0];
      }
      RunEndUnique(r, e, Space, e);
    }
  }

  /** The built-in type names differ in their first letters, so the alternation finds the one that is there. */
  lemma TypeNameFound(r: string, i: nat, t: string)
    requires t in TypeNames && TextAt(r, i, t)
    ensures FirstTextAt(r, i, TypeNames) == Some(t)
  {
    var f := FirstTextAt(r, i, TypeNames);
    assert f.Some?;
    assert f.value[0] == r[i] == t[0];
  }

  // ----- each pattern on a line laid out as its definition -----

  lemma ModifiedHeadAt(r: string, mods: seq<string>, kws: seq<string>, modifier: Option<string>, kw: string, name: string)
    requires modifier.None? || (modifier.value in mods && NoSpaces(modifier.value))
    requires modifier.Some? ==> TextAt(r, 0, modifier.value) && |modifier.value| < |r| && r[|modifier.value|] == ' '
    requires kw in kws && kw !in mods && NoSpaces(kw) && |kw| > 0 && |name| > 0 && IsUpper(name[0])
    requires TextAt(r, |ModifierText(modifier)|, kw) && TextAt(r, |ModifierText(modifier)| + |kw| + 1, name)
    requires r[|ModifierText(modifier)| + |kw|] == ' '
    ensures ModifiedHead(r, mods, kws, Upper) == Some(Head(kw, |ModifierText(modifier)| + |kw| + 1))
  {
    var j := |ModifierText(modifier)|;
    assert r[j + |kw| + 1] == name[0];
    KeywordHeadAt(r, j, kws, Upper, kw);
    if modifier.Some? {
      var m := modifier.value;
      assert r[|m| + 1] == kw[0];
      TokenIs(r, 0, m);
      RunEndUnique(r, |m|, Space, |m| + 1);
    }
  }

  /** A type definition laid out after its modifier: the head the class pattern finds and the name after it. */
  lemma TypeAt(r: string, mods: seq<string>, kws: seq<string>, modifier: Option<string>, kw: string, name: string)
    requires modifier.None? || (modifier.value in mods && NoSpaces(modifier.value))
    requires modifier.Some? ==> TextAt(r, 0, modifier.value) && |modifier.value| < |r| && r[|modifier.value|] == ' '
    requires kw in kws && kw !in mods && NoSpaces(kw) && |kw| > 0
    requires IsIdentifier(name) && IsUpper(name[0])
    requires TextAt(r, |ModifierText(modifier)|, kw) && TextAt(r, |ModifierText(modifier)| + |kw| + 1, name)
    requires r[|ModifierText(modifier)| + |kw|] == ' '
    requires |ModifierText(modifier)| + |kw| + 1 + |name| == |r| || !IsWordChar(r[|ModifierText(modifier)| + |kw| + 1 + |name|])
    ensures ModifiedHead(r, mods, kws, Upper) == Some(Head(kw, |ModifierText(modifier)| + |kw| + 1))
    ensures |ModifierText(modifier)| + |kw| + 1 < |r|
    ensures IdentEnd(r, |ModifierText(modifier)| + |kw| + 1) == |ModifierText(modifier)| + |kw| + 1 + |name|
  {
    var n := |ModifierText(modifier)| + |kw| + 1;
    ModifiedHeadAt(r, mods, kws, modifier, kw, name);
    IdentEndAt(r, n, name);
  }

  lemma ClassDeclOf(r: string, h: Head, name: string)
    requires ModifiedHead(r, ClassModifiers, ClassKeywords, Upper) == Some(h)
    requires h.nameStart < |r| && IdentEnd(r, h.nameStart) == h.nameStart + |name| && TextAt(r, h.nameStart, name)
    ensures ClassDecl(r) == Some(Declared(name, if h.keyword == "enum" then Enum else Class, h.keyword + " " + name))
  {
  }

  lemma ModuleAt(r: string, kw: string, name: string)
    requires kw in ModuleKeywords && NoSpaces(kw) && IsIdentifier(name) && IsUpper(name[0])
    requires TextAt(r, 0, kw) && TextAt(r, |kw| + 1, name) && r[|kw|] == ' '
    requires |kw| + 1 + |name| == |r| || !IsWordChar(r[|kw| + 1 + |name|])
    ensures ModuleDecl(r) == Some(Declared(name, Module, "module " + name))
    ensures TokenAt(r, 0) == kw
  {
    var n := |kw| + 1;
    assert r[n] == name[0];
    KeywordHeadAt(r, 0, ModuleKeywords, Upper, kw);
    IdentEndAt(r, n, name);
  }

  /** A method definition laid out after keyword `kw` of `kws`: the head the method pattern finds and what it reads after it. */
  lemma MethodAt(r: string, kws: seq<string>, kw: string, target: Option<string>, name: string, params: Option<string>)
    requires kw in kws && NoSpaces(kw) && (target.None? || IsIdentifier(target.value)) && IsMethodName(name)
    requires params.None? || NoCloseParen(params.value)
    requires TextAt(r, 0, kw) && |kw| < |r| && r[|kw|] == ' ' && TextAt(r, |kw| + 1, TargetText(target))
    requires TextAt(r, |kw| + 1 + |TargetText(target)|, name)
    requires TextAt(r, |kw| + 1 + |TargetText(target)| + |name|, ParamText(params))
    requires params.None? ==> EndsName(r[|kw| + 1 + |TargetText(target)| + |name|..])
    ensures |kw| + 1 < |r| && KeywordHead(r, 0, kws, AnyIdent) == Some(Head(kw, |kw| + 1))
    ensures MethodAfter(r, |kw| + 1) == MethodRead(target, name, params)
    ensures TokenAt(r, 0) == kw
  {
    var j := |kw| + 1;
    TargetLayout(r, j, target);
    MethodBodyAt(r, j, target, name, params);
    MethodHeadAt(r, kws, kw);
  }

  /** A keyword of `kws`, one space and the start of an identifier: the head of the method pattern. */
  lemma MethodHeadAt(r: string, kws: seq<string>, kw: string)
    requires kw in kws && NoSpaces(kw) && TextAt(r, 0, kw) && |kw| + 1 < |r| && r[|kw|] == ' ' && IsIdentStart(r[|kw| + 1])
    ensures KeywordHead(r, 0, kws, AnyIdent) == Some(Head(kw, |kw| + 1)) && TokenAt(r, 0) == kw
  {
    KeywordHeadAt(r, 0, kws, AnyIdent, kw);
  }

  /** The receiver, name and parameters of a method laid out from `j`. */
  lemma MethodBodyAt(r: string, j: nat, target: Option<string>, name: string, params: Option<string>)
    requires (target.None? || IsIdentifier(target.value)) && IsMethodName(name)
    requires params.None? || NoCloseParen(params.value)
    requires target.Some? ==> TextAt(r, j, target.value) && j + |target.value| < |r| && r[j + |target.value|] == '.'
    requires TextAt(r, j + |TargetText(target)|, name)
    requires TextAt(r, j + |TargetText(target)| + |name|, ParamText(params))
    requires params.None? ==> EndsName(r[j + |TargetText(target)| + |name|..])
    ensures j < |r| && IsIdentStart(r[j]) && MethodAfter(r, j) == MethodRead(target, name, params)
  {
    var n := j + |TargetText(target)|;
    var ne := n + |name|;
    ParamsAtText(r, ne, params);
    MethodNameAt(r, j, n, ne, target, name);
    MethodAfterAt(r, j, n, ne, target, name, params);
  }

  lemma MethodDeclOf(r: string, h: Head)
    requires h.nameStart < |r| && KeywordHead(r, 0, MethodKeywords, AnyIdent) == Some(h)
    ensures MethodDecl(r) == Some(MethodAfter(r, h.nameStart))
  {
  }

  lemma MethodNameStart(name: string)
    requires IsMethodName(name)
    ensures |name| > 0 && IsIdentStart(name[0])
  {
    assert IdentPart(name)[0] == name[0];
  }

  /** What follows the keyword of a method definition, once the receiver test and the name's extent `n..ne` are known. */
  lemma MethodAfterAt(r: string, j: nat, n: nat, ne: nat, target: Option<string>, name: string, params: Option<string>)
    requires j < |r| && n < |r|
    requires (IdentEnd(r, j) + 1 < |r| && r[IdentEnd(r, j)] == '.' && IsIdentStart(r[IdentEnd(r, j) + 1])) <==> target.Some?
    requires target.Some? ==> IdentEnd(r, j) + 1 == n && r[j..IdentEnd(r, j)] == target.value
    requires target.None? ==> n == j
    requires NameEnd(r, n) == ne && r[n..ne] == name && ParamsAt(r, ne) == params
    ensures MethodAfter(r, j) == MethodRead(target, name, params)
  {
    if target.Some? {
      MethodAfterQualifiedAt(r, j, IdentEnd(r, j), ne, target.value, name, params);
    } else {
      MethodAfterPlainAt(r, j, ne, name, params);
    }
  }

  lemma MethodAfterPlainAt(r: string, j: nat, ne: nat, name: string, params: Option<string>)
    requires j < |r| && !(IdentEnd(r, j) + 1 < |r| && r[IdentEnd(r, j)] == '.' && IsIdentStart(r[IdentEnd(r, j) + 1]))
    requires NameEnd(r, j) == ne && r[j..ne] == name && ParamsAt(r, ne) == params
    ensures MethodAfter(r, j) == PlainMethod(name, params)
  {
    MethodAfterPlain(r, j);
  }

  lemma MethodAfterQualifiedAt(r: string, j: nat, e: nat, ne: nat, t: string, name: string, params: Option<string>)
    requires j < |r| && IdentEnd(r, j) == e && e + 1 < |r| && r[e] == '.' && IsIdentStart(r[e + 1])
    requires NameEnd(r, e + 1) == ne && r[j..e] == t && r[e + 1..ne] == name && ParamsAt(r, ne) == params
    ensures MethodAfter(r, j) == QualifiedMethod(t, name, params)
  {
    MethodAfterQualified(r, j);
  }

  /** `MethodAfter` without a receiver, unfolded. */
  lemma MethodAfterPlain(r: string, j: nat)
    requires j < |r| && !(IdentEnd(r, j) + 1 < |r| && r[IdentEnd(r, j)] == '.' && IsIdentStart(r[IdentEnd(r, j) + 1]))
    ensures MethodAfter(r, j) == PlainMethod(r[j..NameEnd(r, j)], ParamsAt(r, NameEnd(r, j)))
  {
  }

  /** `MethodAfter` with a receiver, unfolded. */
  lemma MethodAfterQualified(r: string, j: nat)
    requires j < |r| && IdentEnd(r, j) + 1 < |r| && r[IdentEnd(r, j)] == '.' && IsIdentStart(r[IdentEnd(r, j) + 1])
    ensures MethodAfter(r, j) ==
      QualifiedMethod(r[j..IdentEnd(r, j)], r[IdentEnd(r, j) + 1..NameEnd(r, IdentEnd(r, j) + 1)], ParamsAt(r, NameEnd(r, IdentEnd(r, j) + 1)))
  {
  }

  /** What the method pattern reads for a receiver, a name and parameters. */
  function MethodRead(target: Option<string>, name: string, params: Option<string>): Declared {
    match target
    case Some(t) => QualifiedMethod(t, name, params)
    case None => PlainMethod(name, params)
  }

  /** It is the symbol the definition is meant to declare. */
  lemma MethodReadIntended(target: Option<string>, name: string, params: Option<string>)
    ensures MethodRead(target, name, params) ==
      Declared(QualifiedName(target, name), Method, WithParams(MethodKindText(target) + QualifiedName(target, name), params))
  {
  }

  /** A function definition laid out after keyword `kw` of `kws`: the head the function pattern finds, the name and the parameters. */
  lemma FunctionAt(r: string, kws: seq<string>, kw: string, ne: nat, name: string, params: Option<string>)
    requires kw in kws && NoSpaces(kw) && IsMethodName(name) && (IsLower(name[0]) || name[0] == '_')
    requires params.None? || NoCloseParen(params.value)
    requires ne == |kw| + 1 + |name|
    requires TextAt(r, 0, kw) && TextAt(r, |kw| + 1, name) && r[|kw|] == ' '
    requires TextAt(r, ne, ParamText(params))
    requires params.None? ==> EndsName(r[ne..])
    ensures |kw| + 1 < |r| && KeywordHead(r, 0, kws, LowerOrUnderscore) == Some(Head(kw, |kw| + 1))
    ensures NameEnd(r, |kw| + 1) == ne && r[|kw| + 1..ne] == name && ParamsAt(r, ne) == params
    ensures TokenAt(r, 0) == kw
  {
    var n := |kw| + 1;
    assert r[n] == name[0];
    LowerHeadAt(r, kws, kw);
    NameParamsAt(r, n, ne, name, params);
  }

  /** A name followed by its parameter text: where the name ends and the parameters read there. */
  lemma NameParamsAt(r: string, n: nat, ne: nat, name: string, params: Option<string>)
    requires IsMethodName(name) && ne == n + |name| && TextAt(r, n, name)
    requires params.None? || NoCloseParen(params.value)
    requires TextAt(r, ne, ParamText(params))
    requires params.None? ==> EndsName(r[ne..])
    ensures NameEnd(r, n) == ne && r[n..ne] == name && ParamsAt(r, ne) == params
  {
    ParamsAtText(r, ne, params);
    NameEndAt(r, n, name);
  }

  /** A keyword of `kws`, one space and a lower-case letter or an underscore. */
  lemma LowerHeadAt(r: string, kws: seq<string>, kw: string)
    requires kw in kws && NoSpaces(kw) && TextAt(r, 0, kw) && |kw| + 1 < |r| && r[|kw|] == ' '
    requires IsLower(r[|kw| + 1]) || r[|kw| + 1] == '_'
    ensures KeywordHead(r, 0, kws, LowerOrUnderscore) == Some(Head(kw, |kw| + 1)) && TokenAt(r, 0) == kw
  {
    KeywordHeadAt(r, 0, kws, LowerOrUnderscore, kw);
  }

  /** `FunctionDecl` once its head, the name's end and the parameters are known. */
  lemma FunctionDeclOf(r: string, h: Head, ne: nat, name: string, params: Option<string>)
    requires h.nameStart < |r| && KeywordHead(r, 0, FunctionKeywords, LowerOrUnderscore) == Some(h)
    requires NameEnd(r, h.nameStart) == ne && r[h.nameStart..ne] == name && ParamsAt(r, ne) == params
    ensures FunctionDecl(r) == Some(Declared(name, Function, WithParams("fun " + name, params)))
  {
  }

  lemma ConstantAt(r: string, name: string)
    requires |name| > 0 && IsUpper(name[0]) && forall k :: 0 <= k < |name| ==> InClass(name[k], UpperSnake)
    requires TextAt(r, 0, name) && TextAt(r, |name|, " =")
    ensures ConstantDecl(r) == Some(Declared(name, Constant, "constant " + name))
    ensures TokenAt(r, 0) == name
  {
    assert r[|name|] == ' ' && r[|name| + 1] == '=' by {
      assert r[|name|..|name| + 2] == " =";
    }
    forall k | 1 <= k < |name| ensures InClass(r[k], UpperSnake) {
      assert r[k] == name[k];
    }
    RunEndUnique(r, 1, UpperSnake, |name|);
    RunEndUnique(r, |name|, Space, |name| + 1);
    assert NoSpaces(name) by {
      forall k | 0 <= k < |name| ensures !IsSpace(name[k]) {
        assert InClass(name[k], UpperSnake);
      }
    }
    TokenIs(r, 0, name);
  }

  /** A variable declaration laid out after keyword `kw` of `kws`: the head, the name and the annotation the pattern reads. */
  lemma VariableAt(r: string, kws: seq<string>, kw: string, e: nat, name: string, annotation: Option<string>)
    requires kw in kws && NoSpaces(kw) && IsIdentifier(name) && (IsLower(name[0]) || name[0] == '_')
    requires annotation.None? || IsTypeName(annotation.value)
    requires e == |kw| + 1 + |name|
    requires TextAt(r, 0, kw) && TextAt(r, |kw| + 1, name) && r[|kw|] == ' '
    requires AnnotationLaid(r, e, annotation)
    ensures |kw| + 1 < |r| && KeywordHead(r, 0, kws, LowerOrUnderscore) == Some(Head(kw, |kw| + 1))
    ensures IdentEnd(r, |kw| + 1) == e && r[|kw| + 1..e] == name && Annotation(r, e) == annotation
    ensures TokenAt(r, 0) == kw
  {
    var n := |kw| + 1;
    assert r[n] == name[0];
    LowerHeadAt(r, kws, kw);
    AnnotationAt(r, e, annotation);
    IdentEndAt(r, n, name);
  }

  /** `VariableDecl` once its head, the name's end and the annotation are known. */
  lemma VariableDeclOf(r: string, h: Head, e: nat, name: string, annotation: Option<string>)
    requires h.nameStart < |r| && KeywordHead(r, 0, VariableKeywords, LowerOrUnderscore) == Some(h)
    requires IdentEnd(r, h.nameStart) == e && r[h.nameStart..e] == name && Annotation(r, e) == annotation
    ensures VariableDecl(r) == Some(Declared(name, Variable, h.keyword + " " + name + AnnotationText(annotation)))
  {
  }

  // ----- the first pattern that matches -----

  /** A line whose first word is none of the class keywords or modifiers is no class definition. */
  lemma ClassMisses(r: string)
    requires TokenAt(r, 0) !in ClassModifiers && TokenAt(r, 0) !in ClassKeywords
    ensures ClassDecl(r).None?
  {
  }

  lemma ModuleMisses(r: string)
    requires TokenAt(r, 0) !in ModuleKeywords
    ensures ModuleDecl(r).None?
  {
  }

  lemma MethodMisses(r: string)
    requires TokenAt(r, 0) !in MethodKeywords
    ensures MethodDecl(r).None?
  {
  }

  lemma FunctionMisses(r: string)
    requires TokenAt(r, 0) !in FunctionKeywords
    ensures FunctionDecl(r).None?
  {
  }

  /** A line that starts with a keyword of a later pattern is declined by every earlier one. */
  lemma EarlierMiss(r: string, kw: string, later: nat)
    requires 1 <= later <= 5 && |r| > 0 && TokenAt(r, 0) == kw
    requires kw !in ClassModifiers && kw !in ClassKeywords
    requires later >= 2 ==> kw !in ModuleKeywords
    requires later >= 3 ==> kw !in MethodKeywords
    requires later >= 4 ==> kw !in FunctionKeywords
    requires later == 5 ==> !IsUpper(r[0])
    ensures ClassDecl(r).None?
    ensures later >= 2 ==> ModuleDecl(r).None?
    ensures later >= 3 ==> MethodDecl(r).None?
    ensures later >= 4 ==> FunctionDecl(r).None?
    ensures later == 5 ==> ConstantDecl(r).None?
  {
    ClassMisses(r);
    if later >= 2 {
      ModuleMisses(r);
    }
    if later >= 3 {
      MethodMisses(r);
    }
    if later >= 4 {
      FunctionMisses(r);
    }
  }

  // ----- the six forms, one definition kind at a time -----

  /** A rendered line's first character is that of its first word, so the line has no indentation of its own. */
  predicate StartsUnindented(r: string) {
    |r| > 0 && !IsSpace(r[0])
  }

  lemma StartsWithWord(r: string, w: string)
    requires TextAt(r, 0, w) && |w| > 0 && NoSpaces(w)
    ensures StartsUnindented(r)
  {
    assert r[0] == w[0];
  }

  lemma TypeDeclares(d: Definition, tail: string)
    requires d.TypeDefinition? && WellFormed(d) && TailFits(d, tail)
    ensures LineDecl(Render(d) + tail) == Some(Intended(d)) && StartsUnindented(Render(d) + tail)
  {
    var m, kw, name := d.modifier, d.keyword, d.name;
    ClassKeywordFacts(m, kw);
    TypeLaid(ClassModifiers, ClassKeywords, m, kw, name, tail);
    ClassDeclOf(Render(d) + tail, Head(kw, |ModifierText(m)| + |kw| + 1), name);
  }

  /** A type definition rendered with modifier `m` and keyword `kw`: the head and the name the class pattern finds. */
  lemma TypeLaid(mods: seq<string>, kws: seq<string>, m: Option<string>, kw: string, name: string, tail: string)
    requires m.None? || (m.value in mods && NoSpaces(m.value) && |m.value| > 0)
    requires kw in kws && kw !in mods && NoSpaces(kw) && |kw| > 0 && IsIdentifier(name) && IsUpper(name[0])
    requires tail == [] || !IsWordChar(tail[0])
    ensures var r := ModifierText(m) + kw + " " + name + tail; var n := |ModifierText(m)| + |kw| + 1;
      ModifiedHead(r, mods, kws, Upper) == Some(Head(kw, n)) && n < |r| && IdentEnd(r, n) == n + |name| &&
      TextAt(r, n, name) && StartsUnindented(r)
  {
    var r := ModifierText(m) + kw + " " + name + tail;
    var j := |ModifierText(m)|;
    TypeLayout(m, kw, name, tail);
    WordsLayoutAt(r, j, kw, name, tail);
    if m.Some? {
      StartsWithWord(r, m.value);
    } else {
      StartsWithWord(r, kw);
    }
    if j + |kw| + 1 + |name| < |r| {
      assert r[j + |kw| + 1 + |name|] == tail[0];
    }
    TypeAt(r, mods, kws, m, kw, name);
  }

  lemma ModuleDeclares(d: Definition, tail: string)
    requires d.ModuleDefinition? && WellFormed(d) && TailFits(d, tail)
    ensures LineDecl(Render(d) + tail) == Some(Intended(d)) && StartsUnindented(Render(d) + tail)
  {
    var r := Render(d) + tail;
    var kw, name := d.keyword, d.name;
    ModuleKeywordFacts(kw);
    WordsLayout(kw, name, tail);
    if |kw| + 1 + |name| < |r| {
      assert r[|kw| + 1 + |name|] == tail[0];
    }
    StartsWithWord(r, kw);
    ModuleAt(r, kw, name);
    EarlierMiss(r, kw, 1);
  }

  lemma MethodDeclares(d: Definition, tail: string)
    requires d.MethodDefinition? && WellFormed(d) && TailFits(d, tail)
    ensures LineDecl(Render(d) + tail) == Some(Intended(d)) && StartsUnindented(Render(d) + tail)
  {
    var r := Render(d) + tail;
    var kw := d.keyword;
    MethodKeywordFacts(kw);
    MethodLaid(MethodKeywords, kw, d.target, d.name, d.params, tail);
    MethodDeclOf(r, Head(kw, |kw| + 1));
    MethodReadIntended(d.target, d.name, d.params);
    MethodMissesEarlier(r, kw);
  }

  /** A method definition rendered with keyword `kw` of `kws`: the head and what the method pattern reads after it. */
  lemma MethodLaid(kws: seq<string>, kw: string, target: Option<string>, name: string, params: Option<string>, tail: string)
    requires kw in kws && NoSpaces(kw) && |kw| > 0 && (target.None? || IsIdentifier(target.value)) && IsMethodName(name)
    requires params.None? || NoCloseParen(params.value)
    requires params.Some? || EndsName(tail)
    ensures var r := kw + " " + TargetText(target) + name + ParamText(params) + tail;
      |kw| + 1 < |r| && KeywordHead(r, 0, kws, AnyIdent) == Some(Head(kw, |kw| + 1)) &&
      MethodAfter(r, |kw| + 1) == MethodRead(target, name, params) && TokenAt(r, 0) == kw && StartsUnindented(r)
  {
    var r := kw + " " + TargetText(target) + name + ParamText(params) + tail;
    PartsLayout(kw + " ", TargetText(target), name, ParamText(params), tail);
    TextAtConcat(r, 0, kw, " ");
    TextAtChar(r, |kw|, ' ');
    StartsWithWord(r, kw);
    MethodAt(r, kws, kw, target, name, params);
  }

  /** A line that starts with a method keyword is neither a type nor a module definition. */
  lemma MethodMissesEarlier(r: string, kw: string)
    requires kw in MethodKeywords && |r| > 0 && TokenAt(r, 0) == kw
    ensures ClassDecl(r).None? && ModuleDecl(r).None?
  {
    MethodKeywordFacts(kw);
    EarlierMiss(r, kw, 2);
  }

  lemma FunctionDeclares(d: Definition, tail: string)
    requires d.FunctionDefinition? && WellFormed(d) && TailFits(d, tail)
    ensures LineDecl(Render(d) + tail) == Some(Intended(d)) && StartsUnindented(Render(d) + tail)
  {
    var r := Render(d) + tail;
    var kw := d.keyword;
    var ne := |kw| + 1 + |d.name|;
    FunctionKeywordFacts(kw);
    FunctionLaid(FunctionKeywords, kw, ne, d.name, d.params, tail);
    FunctionDeclOf(r, Head(kw, |kw| + 1), ne, d.name, d.params);
    FunctionMissesEarlier(r, kw);
  }

  /** A function definition rendered with keyword `kw` of `kws`. */
  lemma FunctionLaid(kws: seq<string>, kw: string, ne: nat, name: string, params: Option<string>, tail: string)
    requires kw in kws && NoSpaces(kw) && |kw| > 0 && IsMethodName(name) && (IsLower(name[0]) || name[0] == '_')
    requires params.None? || NoCloseParen(params.value)
    requires params.Some? || EndsName(tail)
    requires ne == |kw| + 1 + |name|
    ensures var r := kw + " " + name + ParamText(params) + tail;
      |kw| + 1 < |r| && KeywordHead(r, 0, kws, LowerOrUnderscore) == Some(Head(kw, |kw| + 1)) &&
      NameEnd(r, |kw| + 1) == ne && r[|kw| + 1..ne] == name &&
      ParamsAt(r, ne) == params && TokenAt(r, 0) == kw && StartsUnindented(r)
  {
    var r := kw + " " + name + ParamText(params) + tail;
    PartsLayout(kw, " ", name, ParamText(params), tail);
    TextAtChar(r, |kw|, ' ');
    StartsWithWord(r, kw);
    FunctionAt(r, kws, kw, ne, name, params);
  }

  /** A line that starts with a function keyword is no type, module or method definition. */
  lemma FunctionMissesEarlier(r: string, kw: string)
    requires kw in FunctionKeywords && |r| > 0 && TokenAt(r, 0) == kw
    ensures ClassDecl(r).None? && ModuleDecl(r).None? && MethodDecl(r).None?
  {
    FunctionKeywordFacts(kw);
    EarlierMiss(r, kw, 3);
  }

  lemma ConstantDeclares(d: Definition, tail: string)
    requires d.ConstantDefinition? && WellFormed(d) && TailFits(d, tail)
    ensures LineDecl(Render(d) + tail) == Some(Intended(d)) && StartsUnindented(Render(d) + tail)
  {
    var r := Render(d) + tail;
    var name := d.name;
    ConstantLayout(name, tail);
    assert r[0] == name[0];
    ConstantAt(r, name);
    UpperIsNoKeyword(name);
    EarlierMiss(r, name, 4);
  }

  lemma VariableDeclares(d: Definition, tail: string)
    requires d.VariableDefinition? && WellFormed(d) && TailFits(d, tail)
    ensures LineDecl(Render(d) + tail) == Some(Intended(d)) && StartsUnindented(Render(d) + tail)
  {
    var r := Render(d) + tail;
    var kw, name, a := d.keyword, d.name, d.annotation;
    var e := |kw| + 1 + |name|;
    VariableKeywordFacts(kw);
    VariableLaid(VariableKeywords, kw, e, name, a, tail);
    VariableDeclOf(r, Head(kw, |kw| + 1), e, name, a);
    VariableMissesEarlier(r, kw);
  }

  /** A variable declaration rendered with keyword `kw` of `kws`. */
  lemma VariableLaid(kws: seq<string>, kw: string, e: nat, name: string, annotation: Option<string>, tail: string)
    requires kw in kws && NoSpaces(kw) && |kw| > 0 && IsIdentifier(name) && (IsLower(name[0]) || name[0] == '_')
    requires annotation.None? || IsTypeName(annotation.value)
    requires match annotation
      case None => EndsName(tail)
      case Some(t) => t in TypeNames || tail == [] || !IsWordChar(tail[0])
    requires e == |kw| + 1 + |name|
    ensures var r := kw + " " + name + AnnotationText(annotation) + tail;
      |kw| + 1 < |r| && KeywordHead(r, 0, kws, LowerOrUnderscore) == Some(Head(kw, |kw| + 1)) &&
      IdentEnd(r, |kw| + 1) == e && r[|kw| + 1..e] == name && Annotation(r, e) == annotation &&
      TokenAt(r, 0) == kw && TextAt(r, 0, kw) && StartsUnindented(r)
  {
    var r := kw + " " + name + AnnotationText(annotation) + tail;
    PartsLayout(kw, " ", name, AnnotationText(annotation), tail);
    TextAtChar(r, |kw|, ' ');
    TextAtRest(r, e, AnnotationText(annotation), tail);
    AnnotationLayout(r, e, annotation, tail);
    StartsWithWord(r, kw);
    VariableAt(r, kws, kw, e, name, annotation);
  }

  /** A line that starts with a variable keyword matches none of the five earlier patterns. */
  lemma VariableMissesEarlier(r: string, kw: string)
    requires kw in VariableKeywords && TextAt(r, 0, kw) && |r| > 0 && TokenAt(r, 0) == kw
    ensures ClassDecl(r).None? && ModuleDecl(r).None? && MethodDecl(r).None?
    ensures FunctionDecl(r).None? && ConstantDecl(r).None?
  {
    VariableKeywordFacts(kw);
    assert r[0] == kw[0];
    EarlierMiss(r, kw, 5);
  }
}
