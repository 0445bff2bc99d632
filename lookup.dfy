/**
 * The word under the cursor and the symbol it names, as hover and
 * go-to-definition look them up: the line is searched left to right for
 * names `[a-zA-Z_]\w*[?!=]?` (a global regular expression executed
 * repeatedly), the first name whose range holds the cursor is taken, and
 * the symbol table is searched for the first symbol that name refers to.
 */
module Lookup {
  import opened Wrappers
  import opened Lsp
  import opened Patterns
  import opened Document
  import opened Symbols

  /** The columns `[start, end)` of one match in a line. */
  datatype Span = Span(start: nat, end: nat)

  /** The first index at or after `from` where a name can start, or |line| when there is none. */
  function NextStart(line: string, from: nat): (k: nat)
    requires from <= |line|
    ensures from <= k <= |line|
    ensures k < |line| ==> IsIdentStart(line[k])
    ensures forall j :: from <= j < k ==> !IsIdentStart(line[j])
    decreases |line| - from
  {
    if from == |line| || IsIdentStart(line[from]) then from else NextStart(line, from + 1)
  }

  /** One `exec` of the global pattern with its `lastIndex` at `from`. */
  function NextMatch(line: string, from: nat): (m: Option<Span>)
    requires from <= |line|
    ensures m.Some? ==> from <= m.value.start < m.value.end <= |line|
    ensures m.None? <==> forall j :: from <= j < |line| ==> !IsIdentStart(line[j])
  {
    var k := NextStart(line, from);
    if k == |line| then None else Some(Span(k, NameEnd(line, k)))
  }

  /** Every match `exec` returns from `lastIndex == from` on, in order. */
  function MatchesFrom(line: string, from: nat): (ms: seq<Span>)
    requires from <= |line|
    ensures forall k :: 0 <= k < |ms| ==>
      from <= ms[k].start < ms[k].end <= |line| && IsIdentStart(line[ms[k].start]) && ms[k].end == NameEnd(line, ms[k].start)
    ensures forall k :: 0 <= k < |ms| - 1 ==> ms[k].end <= ms[k + 1].start
    decreases |line| - from
  {
    match NextMatch(line, from)
    case None => []
    case Some(m) => [m] + MatchesFrom(line, m.end)
  }

  /** All matches of the pattern in the line. */
  function Matches(line: string): seq<Span> {
    MatchesFrom(line, 0)
  }

  /** The cursor at `c` touches the match: it is on it or directly after it. */
  predicate Covers(m: Span, c: nat) {
    m.start <= c <= m.end
  }

  /** The first of `ms` that the cursor touches. */
  function FirstCovering(ms: seq<Span>, c: nat): (r: Option<Span>)
    ensures r.Some? ==> Covers(r.value, c)
    ensures r.Some? ==> exists k :: 0 <= k < |ms| && ms[k] == r.value && forall j :: 0 <= j < k ==> !Covers(ms[j], c)
    ensures r.None? <==> forall k :: 0 <= k < |ms| ==> !Covers(ms[k], c)
  {
    if ms == [] then None
    else if Covers(ms[0], c) then Some(ms[0])
    else
      var r := FirstCovering(ms[1..], c);
      assert r.Some? ==> exists k :: 0 <= k < |ms| && ms[k] == r.value && forall j :: 0 <= j < k ==> !Covers(ms[j], c) by {
        if r.Some? {
          var k :| 0 <= k < |ms| - 1 && ms[1..][k] == r.value && forall j :: 0 <= j < k ==> !Covers(ms[1..][j], c);
          assert ms[k + 1] == r.value;
        }
      }
      r
  }

  /** The range `getWordRangeAtPosition` returns. */
  function WordRange(line: string, c: nat): Option<Span> {
    FirstCovering(Matches(line), c)
  }

  /** `getWordRangeAtPosition`: `exec` until a match touches the cursor or none is left. */
  method GetWordRangeAtPosition(line: string, character: nat) returns (r: Option<Span>)
    ensures r == WordRange(line, character)
  {
    var lastIndex := 0;
    var m := NextMatch(line, lastIndex);
    while m.Some?
      invariant lastIndex <= |line|
      invariant m == NextMatch(line, lastIndex)
      invariant FirstCovering(MatchesFrom(line, lastIndex), character) == WordRange(line, character)
      decreases |line| - lastIndex
    {
      var span := m.value;
      if span.start <= character <= span.end {
        return Some(span);
      }
      lastIndex := span.end;
      m := NextMatch(line, lastIndex);
    }
    return None;
  }

  // ----- what a match is -----

  /** `[a-zA-Z_]\w*[?!=]?` from an identifier start takes the longest name there. */
  lemma NameEndIsLongest(s: string, i: nat)
    requires i < |s| && IsIdentStart(s[i])
    ensures IsMethodName(s[i..NameEnd(s, i)])
    ensures forall e :: NameEnd(s, i) < e <= |s| ==> !IsMethodName(s[i..e])
  {
    NameEndIsName(s, i);
    forall e | NameEnd(s, i) < e <= |s| ensures !IsMethodName(s[i..e]) {
      LongerIsNoName(s, i, e);
    }
  }

  lemma NameEndIsName(s: string, i: nat)
    requires i < |s| && IsIdentStart(s[i])
    ensures IsMethodName(s[i..NameEnd(s, i)])
  {
    var w := RunEnd(s, i + 1, Word);
    var e := NameEnd(s, i);
    assert IdentPart(s[i..w]) == s[i..w] by {
      assert s[i..w][w - i - 1] == s[w - 1];
    }
    if e == w + 1 {
      assert s[i..e][..w - i] == s[i..w];
    }
  }

  /** A longer slice takes in the character that ended the name, which no name holds. */
  lemma LongerIsNoName(s: string, i: nat, e: nat)
    requires i < |s| && IsIdentStart(s[i]) && NameEnd(s, i) < e <= |s|
    ensures !IsMethodName(s[i..e])
  {
    var w := RunEnd(s, i + 1, Word);
    var p := IdentPart(s[i..e]);
    assert |p| > w - i by {
      if e - 1 == w {
        assert s[i..e][w - i] == s[w];
      }
    }
    assert p[w - i] == s[w];
  }

  /** Some match of `ms` holds column `j`. */
  predicate InSomeMatch(ms: seq<Span>, j: nat) {
    exists k :: 0 <= k < |ms| && ms[k].start <= j < ms[k].end
  }

  /** Every identifier start of the line from `from` on lies inside a match. */
  lemma {:induction false} MatchesCover(line: string, from: nat, j: nat)
    requires from <= j < |line| && IsIdentStart(line[j])
    ensures InSomeMatch(MatchesFrom(line, from), j)
    decreases |line| - from
  {
    var m := NextMatch(line, from).value;
    var rest := MatchesFrom(line, m.end);
    assert MatchesFrom(line, from) == [m] + rest;
    if j >= m.end {
      MatchesCover(line, m.end, j);
      InLaterMatch(m, rest, j);
    } else {
      assert ([m] + rest)[0] == m;
    }
  }

  lemma InLaterMatch(m: Span, rest: seq<Span>, j: nat)
    requires InSomeMatch(rest, j)
    ensures InSomeMatch([m] + rest, j)
  {
    var k :| 0 <= k < |rest| && rest[k].start <= j < rest[k].end;
    assert ([m] + rest)[k + 1] == rest[k];
  }

  /** A cursor on any letter or underscore finds a word, and that word is a whole name. */
  lemma CursorOnNameFindsWord(line: string, c: nat)
    requires c < |line| && IsIdentStart(line[c])
    ensures WordRange(line, c).Some?
    ensures var m := WordRange(line, c).value;
      m.start <= c <= m.end <= |line| && IsMethodName(line[m.start..m.end])
  {
    MatchesCover(line, 0, c);
    var m := WordRange(line, c).value;
    var k :| 0 <= k < |Matches(line)| && Matches(line)[k] == m;
    NameEndIsLongest(line, m.start);
  }

  // ----- the line break -----

  /** The characters of a line break. */
  predicate IsBreak(t: string) {
    forall k :: 0 <= k < |t| ==> t[k] == '\r' || t[k] == '\n'
  }

  lemma NameEndBeforeBreak(line: string, t: string, i: nat)
    requires i < |line| && IsBreak(t)
    ensures NameEnd(line + t, i) == NameEnd(line, i)
  {
    var s := line + t;
    var w := RunEnd(line, i + 1, Word);
    assert forall k :: i + 1 <= k < w ==> s[k] == line[k];
    RunEndUnique(s, i + 1, Word, w);
  }

  lemma {:induction false} NextStartBeforeBreak(line: string, t: string, from: nat)
    requires from <= |line| && IsBreak(t)
    ensures NextStart(line + t, from) == if NextStart(line, from) < |line| then NextStart(line, from) else |line + t|
    decreases |line + t| - from
  {
    var s := line + t;
    if from < |s| && !IsIdentStart(s[from]) {
      if from < |line| {
        assert s[from] == line[from];
        NextStartBeforeBreak(line, t, from + 1);
      } else {
        NextStartTail(s, from, |line|);
      }
    } else if from < |line| {
      assert s[from] == line[from];
    }
  }

  lemma {:induction false} NextStartTail(s: string, from: nat, n: nat)
    requires n <= from <= |s|
    requires forall k :: n <= k < |s| ==> s[k] == '\r' || s[k] == '\n'
    ensures NextStart(s, from) == |s|
    decreases |s| - from
  {
    if from < |s| {
      NextStartTail(s, from + 1, n);
    }
  }

  /** The text `getText` returns for the cursor's line ends with its line break; the break changes no match. */
  lemma {:induction false} MatchesBeforeBreak(line: string, t: string, from: nat)
    requires from <= |line| && IsBreak(t)
    ensures MatchesFrom(line + t, from) == MatchesFrom(line, from)
    decreases |line| - from
  {
    NextStartBeforeBreak(line, t, from);
    var k := NextStart(line, from);
    if k < |line| {
      NameEndBeforeBreak(line, t, k);
      MatchesBeforeBreak(line, t, NameEnd(line, k));
    }
  }

  // ----- the symbol a word names -----

  predicate EndsWith(s: string, suffix: string) {
    |suffix| <= |s| && s[|s| - |suffix|..] == suffix
  }

  /** The test `findSymbolAtPosition` applies to each symbol's name. */
  predicate NamesWord(name: string, word: string) {
    name == word || EndsWith(name, "." + word) ||
    name == word + "?" || name == word + "!" || name == word + "="
  }

  /** `s` stands in the table at some index before which no symbol is named by the word. */
  predicate FirstNamed(symbols: seq<SymbolInfo>, word: string, s: SymbolInfo) {
    exists k :: 0 <= k < |symbols| && symbols[k] == s && forall j :: 0 <= j < k ==> !NamesWord(symbols[j].name, word)
  }

  /** `symbols.find(...)`: the first symbol whose name the word refers to. */
  function FindNamed(symbols: seq<SymbolInfo>, word: string): (r: Option<SymbolInfo>)
    ensures r.Some? ==> NamesWord(r.value.name, word)
    ensures r.Some? ==> FirstNamed(symbols, word, r.value)
    ensures r.None? <==> forall k :: 0 <= k < |symbols| ==> !NamesWord(symbols[k].name, word)
  {
    if symbols == [] then None
    else if NamesWord(symbols[0].name, word) then Some(symbols[0])
    else
      var r := FindNamed(symbols[1..], word);
      assert r.Some? ==> FirstNamed(symbols, word, r.value) by {
        if r.Some? {
          var k :| 0 <= k < |symbols| - 1 && symbols[1..][k] == r.value &&
            forall j :: 0 <= j < k ==> !NamesWord(symbols[1..][j].name, word);
          assert symbols[k + 1] == r.value;
        }
      }
      r
  }

  /** The cursor's line without its break, or nothing past the end of the document. */
  function LineAt(lines: seq<string>, l: nat): string {
    if l < |lines| then lines[l] else ""
  }

  /** The word under the cursor, if any. */
  function WordAt(lines: seq<string>, position: Position): (w: Option<string>)
    ensures w.Some? ==> IsMethodName(w.value)
  {
    var line := LineAt(lines, position.line);
    match WordRange(line, position.character)
    case None => None
    case Some(m) =>
      assert IsIdentStart(line[m.start]) && m.end == NameEnd(line, m.start) by {
        var k :| 0 <= k < |Matches(line)| && Matches(line)[k] == m;
      }
      NameEndIsLongest(line, m.start);
      Some(line[m.start..m.end])
  }

  /**
   * `findSymbolAtPosition`: the first symbol of the table that the word
   * under the cursor names; the symbol's own line declares it.
   */
  function FindSymbolAtPosition(text: string, position: Position): (r: Option<SymbolInfo>)
    ensures var lines := SplitLines(text);
      r.Some? <==> (WordAt(lines, position).Some? &&
        exists k :: 0 <= k < |DocumentSymbols(lines)| && NamesWord(DocumentSymbols(lines)[k].name, WordAt(lines, position).value))
    ensures var lines := SplitLines(text);
      r.Some? ==> (NamesWord(r.value.name, WordAt(lines, position).value) &&
        r.value.line < |lines| && r.value.range == LineRange(r.value.line, lines[r.value.line]) &&
        LineDecl(Rest(lines[r.value.line])) == Some(Declared(r.value.name, r.value.kind, r.value.detail)))
    ensures var lines := SplitLines(text);
      r.Some? ==> WordAt(lines, position).Some? && FirstNamed(DocumentSymbols(lines), WordAt(lines, position).value, r.value)
  {
    var lines := SplitLines(text);
    match WordAt(lines, position)
    case None => None
    case Some(word) => FindNamed(DocumentSymbols(lines), word)
  }

  /** Go to definition: the range of the symbol under the cursor, which is the whole line declaring it. */
  function Definition(text: string, position: Position): (r: Option<Range>)
    ensures r.Some? ==> (r.value.startLine < |SplitLines(text)| && r.value.startLine == r.value.endLine &&
      r.value.startCol == 0 && r.value.endCol == |SplitLines(text)[r.value.startLine]|)
    ensures r.Some? <==> FindSymbolAtPosition(text, position).Some?
    ensures r.Some? ==> r.value == FindSymbolAtPosition(text, position).value.range
  {
    match FindSymbolAtPosition(text, position)
    case None => None
    case Some(s) => Some(s.range)
  }
}
