/**
 * Character classes and the small matchers that stand in for the engine's
 * regular expressions. Every pattern of the engine is anchored at a known
 * index or searched left to right; each is written here as an explicit scan
 * over a `string` (a `seq<char>`), with greedy runs made maximal where the
 * regular expression's backtracking cannot change the outcome.
 */
module Patterns {
  import opened Wrappers

  /** JavaScript's `\s`: ECMAScript WhiteSpace and LineTerminator code points (also what `trim` removes). */
  predicate IsSpace(c: char) {
    c == '\t' || c == '\n' || c == '\U{000B}' || c == '\U{000C}' || c == '\r' || c == ' ' ||
    c == '\U{00A0}' || c == '\U{1680}' || ('\U{2000}' <= c <= '\U{200A}') ||
    c == '\U{2028}' || c == '\U{2029}' || c == '\U{202F}' || c == '\U{205F}' ||
    c == '\U{3000}' || c == '\U{FEFF}'
  }

  /** The characters JavaScript's `.` does not match. */
  predicate IsLineTerminator(c: char) {
    c == '\n' || c == '\r' || c == '\U{2028}' || c == '\U{2029}'
  }

  predicate IsUpper(c: char) { 'A' <= c <= 'Z' }
  predicate IsLower(c: char) { 'a' <= c <= 'z' }
  predicate IsDigit(c: char) { '0' <= c <= '9' }

  /** `[a-zA-Z_]` */
  predicate IsIdentStart(c: char) { IsUpper(c) || IsLower(c) || c == '_' }

  /** `\w` */
  predicate IsWordChar(c: char) { IsIdentStart(c) || IsDigit(c) }

  /** The classes the engine's patterns repeat with `*` or `+`. */
  datatype CharClass =
    | Space          // \s
    | Word           // \w
    | UpperSnake     // [A-Z_0-9]
    | NotCloseParen  // [^)]
    | NotNewline     // [^\n]
    | NotSpace       // \S

  predicate InClass(c: char, cls: CharClass) {
    match cls
    case Space => IsSpace(c)
    case Word => IsWordChar(c)
    case UpperSnake => IsUpper(c) || IsDigit(c) || c == '_'
    case NotCloseParen => c != ')'
    case NotNewline => c != '\n'
    case NotSpace => !IsSpace(c)
  }

  /** The end of the maximal run of `cls` characters starting at `i`. */
  function RunEnd(s: string, i: nat, cls: CharClass): (j: nat)
    requires i <= |s|
    ensures i <= j <= |s|
    ensures forall k :: i <= k < j ==> InClass(s[k], cls)
    ensures j == |s| || !InClass(s[j], cls)
    decreases |s| - i
  {
    if i < |s| && InClass(s[i], cls) then RunEnd(s, i + 1, cls) else i
  }

  /** A run end is determined by the two facts RunEnd ensures. */
  lemma RunEndUnique(s: string, i: nat, cls: CharClass, j: nat)
    requires i <= j <= |s|
    requires forall k :: i <= k < j ==> InClass(s[k], cls)
    requires j == |s| || !InClass(s[j], cls)
    ensures RunEnd(s, i, cls) == j
    decreases j - i
  {
    if i < j {
      RunEndUnique(s, i + 1, cls, j);
    }
  }

  /** The length of the line's indentation (`^\s*`). */
  function LeadingSpaces(s: string): nat
    ensures LeadingSpaces(s) <= |s|
  {
    RunEnd(s, 0, Space)
  }

  /** The text after the indentation; it is empty or starts with a non-space character. */
  function Rest(s: string): (r: string)
    ensures r == [] || !IsSpace(r[0])
    ensures |r| <= |s|
  {
    s[LeadingSpaces(s)..]
  }

  predicate AllSpaces(w: string) {
    forall k :: 0 <= k < |w| ==> IsSpace(w[k])
  }

  /** A line is its indentation, made of spaces only, followed by the text after it. */
  lemma IndentSplit(s: string)
    ensures s == s[..LeadingSpaces(s)] + Rest(s) && AllSpaces(s[..LeadingSpaces(s)])
  {
    var n := LeadingSpaces(s);
    forall k | 0 <= k < n ensures IsSpace(s[..n][k]) {
      assert InClass(s[k], Space);
    }
  }

  /** `s` without its trailing spaces. */
  function TrimEnd(s: string): (t: string)
    ensures |t| <= |s| && t == s[..|t|]
    ensures t == [] || !IsSpace(t[|t| - 1])
    ensures forall k :: |t| <= k < |s| ==> IsSpace(s[k])
    decreases |s|
  {
    if s != [] && IsSpace(s[|s| - 1]) then TrimEnd(s[..|s| - 1]) else s
  }

  /** JavaScript's `trim`: the text without leading and trailing `\s` characters. */
  function Trim(s: string): string {
    TrimEnd(Rest(s))
  }

  /** `!trimmed || trimmed.startsWith('#')`: a blank line or a line comment. */
  predicate BlankOrComment(line: string) {
    var trimmed := Trim(line);
    trimmed == [] || trimmed[0] == '#'
  }

  /** The trimmed text is empty exactly when the line is blank, and otherwise starts where the indentation ends. */
  lemma TrimStart(s: string)
    ensures (Trim(s) == []) == (Rest(s) == [])
    ensures Trim(s) != [] ==> Trim(s)[0] == Rest(s)[0]
  {
    var r := Rest(s);
    if r != [] {
      assert !IsSpace(r[0]);
    }
  }

  /** Indentation made only of spaces can be swapped for any other: the text after it is unchanged. */
  lemma RestAfterIndent(w: string, r: string)
    requires AllSpaces(w)
    requires r == [] || !IsSpace(r[0])
    ensures LeadingSpaces(w + r) == |w|
    ensures Rest(w + r) == r
  {
    var s := w + r;
    RunEndUnique(s, 0, Space, |w|);
    assert s[|w|..] == r;
  }

  /** `w` occurs in `s` at index `i`. */
  predicate TextAt(s: string, i: nat, w: string) {
    i + |w| <= |s| && s[i..i + |w|] == w
  }

  /** `\b` in front of the word character at `i`. */
  predicate BoundaryBefore(s: string, i: nat)
    requires i <= |s|
  {
    i == 0 || !IsWordChar(s[i - 1])
  }

  /** `w\b` at `i`, for a word `w` that ends in a word character. */
  predicate KeywordAt(s: string, i: nat, w: string) {
    TextAt(s, i, w) && (i + |w| == |s| || !IsWordChar(s[i + |w|]))
  }

  /** `w\s+` at `i`: the index just past the spaces that follow `w`. */
  function WordThenSpaces(s: string, i: nat, w: string): (r: Option<nat>)
    ensures r.Some? <==> TextAt(s, i, w) && i + |w| < |s| && IsSpace(s[i + |w|])
    ensures r.Some? ==> i + |w| < r.value <= |s| && (r.value == |s| || !IsSpace(s[r.value]))
    ensures r.Some? ==> forall k :: i + |w| <= k < r.value ==> IsSpace(s[k])
  {
    if TextAt(s, i, w) && i + |w| < |s| && IsSpace(s[i + |w|]) then Some(RunEnd(s, i + |w|, Space))
    else None
  }

  /** `(w1|w2|...)\s+` at `i`, the alternatives tried in order. */
  function FirstWordThenSpaces(s: string, i: nat, ws: seq<string>): (r: Option<(string, nat)>)
    ensures r.Some? ==> r.value.0 in ws && WordThenSpaces(s, i, r.value.0) == Some(r.value.1)
    ensures r.None? ==> forall w :: w in ws ==> WordThenSpaces(s, i, w).None?
    decreases |ws|
  {
    if ws == [] then None
    else
      match WordThenSpaces(s, i, ws[0])
      case Some(j) => Some((ws[0], j))
      case None => FirstWordThenSpaces(s, i, ws[1..])
  }

  /** `(w1|w2|...)\b` at `i`, the alternatives tried in order. */
  function FirstKeywordAt(s: string, i: nat, ws: seq<string>): (r: Option<string>)
    ensures r.Some? ==> r.value in ws && KeywordAt(s, i, r.value)
    ensures r.None? ==> forall w :: w in ws ==> !KeywordAt(s, i, w)
    decreases |ws|
  {
    if ws == [] then None
    else if KeywordAt(s, i, ws[0]) then Some(ws[0])
    else FirstKeywordAt(s, i, ws[1..])
  }

  /** `^\s*(w1|w2|...)\b`: the line's first word, after its indentation, is one of `ws`. */
  predicate StartsWithKeyword(line: string, ws: seq<string>) {
    FirstKeywordAt(Rest(line), 0, ws).Some?
  }

  /** `[a-zA-Z_]\w*[?!=]?` starting at `i`: the end of the identifier and its optional suffix. */
  function NameEnd(s: string, i: nat): (e: nat)
    requires i < |s|
    ensures i < e <= |s|
  {
    var w := RunEnd(s, i + 1, Word);
    if w < |s| && (s[w] == '?' || s[w] == '!' || s[w] == '=') then w + 1 else w
  }

  predicate NoSpaces(w: string) {
    forall k :: 0 <= k < |w| ==> !IsSpace(w[k])
  }

  predicate IsLowerWord(w: string) {
    forall k :: 0 <= k < |w| ==> IsLower(w[k])
  }

  lemma LowerWordNoSpaces(w: string)
    requires IsLowerWord(w)
    ensures NoSpaces(w)
  {
    forall k | 0 <= k < |w| ensures !IsSpace(w[k]) {
      assert IsLower(w[k]);
    }
  }

  /** The word of `s` starting at `i` in the sense of `\S*`. */
  function TokenAt(s: string, i: nat): string
    requires i <= |s|
  {
    s[i..RunEnd(s, i, NotSpace)]
  }

  /** A pattern `w\s+` with no spaces in `w` matches only the word found at that index. */
  lemma WordThenSpacesToken(s: string, i: nat, w: string)
    requires NoSpaces(w)
    ensures WordThenSpaces(s, i, w).Some? ==> TokenAt(s, i) == w
  {
    if WordThenSpaces(s, i, w).Some? {
      forall k | i <= k < i + |w| ensures InClass(s[k], NotSpace) {
        assert s[k] == s[i..i + |w|][k - i];
      }
      RunEndUnique(s, i, NotSpace, i + |w|);
    }
  }

  /** An alternation of words without spaces, each followed by `\s+`, can only match the word at that index. */
  lemma FirstWordThenSpacesToken(s: string, i: nat, ws: seq<string>)
    requires forall w :: w in ws ==> NoSpaces(w)
    ensures FirstWordThenSpaces(s, i, ws).Some? ==> FirstWordThenSpaces(s, i, ws).value.0 == TokenAt(s, i)
    ensures i <= |s| && TokenAt(s, i) !in ws ==> FirstWordThenSpaces(s, i, ws).None?
  {
    var r := FirstWordThenSpaces(s, i, ws);
    if r.Some? {
      WordThenSpacesToken(s, i, r.value.0);
    }
  }

  /** Hence the alternation finds any of its words that matches, whatever the order of the words. */
  lemma FirstWordThenSpacesFinds(s: string, i: nat, ws: seq<string>, w: string)
    requires forall v :: v in ws ==> NoSpaces(v)
    requires w in ws && WordThenSpaces(s, i, w).Some?
    ensures FirstWordThenSpaces(s, i, ws) == Some((w, WordThenSpaces(s, i, w).value))
  {
    FirstWordThenSpacesToken(s, i, ws);
    WordThenSpacesToken(s, i, w);
  }

  /** `w` followed by exactly one space and then a non-space character is matched by `w\s+`. */
  lemma WordThenOneSpace(s: string, i: nat, w: string)
    requires TextAt(s, i, w) && i + |w| + 1 < |s|
    requires s[i + |w|] == ' ' && !IsSpace(s[i + |w| + 1])
    ensures WordThenSpaces(s, i, w) == Some(i + |w| + 1)
  {
    RunEndUnique(s, i + |w|, Space, i + |w| + 1);
  }

  /** `(w1|w2|...)` without a following pattern: the first alternative that occurs at `i`. */
  function FirstTextAt(s: string, i: nat, ws: seq<string>): (r: Option<string>)
    ensures r.Some? ==> r.value in ws && TextAt(s, i, r.value)
    ensures r.None? ==> forall w :: w in ws ==> !TextAt(s, i, w)
    decreases |ws|
  {
    if ws == [] then None
    else if TextAt(s, i, ws[0]) then Some(ws[0])
    else FirstTextAt(s, i, ws[1..])
  }

  /**
   * The number of matches of the global pattern `/ab/g`: occurrences found
   * left to right, each search resuming after the previous match.
   */
  function CountPair(s: string, a: char, b: char): (n: nat)
    ensures n <= |s| / 2
    decreases |s|
  {
    if |s| < 2 then 0
    else if s[0] == a && s[1] == b then 1 + CountPair(s[2..], a, b)
    else CountPair(s[1..], a, b)
  }

  /** The number of occurrences of `c` (the length of the matches of `/c/g`). */
  function CountChar(s: string, c: char): (n: nat)
    ensures n <= |s|
  {
    if s == [] then 0 else (if s[0] == c then 1 else 0) + CountChar(s[1..], c)
  }

  /** `s.indexOf(w)`: the first index where `w` occurs, or -1. */
  function IndexOf(s: string, w: string): (r: int)
    ensures r == -1 || (0 <= r && TextAt(s, r, w))
    ensures r == -1 ==> forall k :: 0 <= k ==> !TextAt(s, k, w)
    ensures 0 <= r ==> forall k :: 0 <= k < r ==> !TextAt(s, k, w)
  {
    IndexOfFrom(s, w, 0)
  }

  function IndexOfFrom(s: string, w: string, i: nat): (r: int)
    ensures r == -1 || (i <= r && TextAt(s, r, w))
    ensures r == -1 ==> forall k :: i <= k ==> !TextAt(s, k, w)
    ensures i <= r ==> forall k :: i <= k < r ==> !TextAt(s, k, w)
    decreases |s| - i
  {
    if i + |w| > |s| then -1
    else if s[i..i + |w|] == w then i
    else IndexOfFrom(s, w, i + 1)
  }

  /** `indexOf` finds a word at `p` when no earlier character can start it. */
  lemma IndexOfFirstStart(s: string, w: string, p: nat)
    requires |w| > 0 && TextAt(s, p, w)
    requires forall k :: 0 <= k < p ==> s[k] != w[0]
    ensures IndexOf(s, w) == p
  {
    IndexOfFromFirstStart(s, w, p, 0);
  }

  lemma IndexOfFromFirstStart(s: string, w: string, p: nat, i: nat)
    requires i <= p
    requires |w| > 0 && TextAt(s, p, w)
    requires forall k :: i <= k < p ==> s[k] != w[0]
    ensures IndexOfFrom(s, w, i) == p
    decreases p - i
  {
    if i < p {
      assert s[i..i + |w|][0] == s[i];
      IndexOfFromFirstStart(s, w, p, i + 1);
    }
  }

  /** `/\bdo\b/`: the word `do` occurs anywhere in the line. */
  predicate HasDo(s: string) {
    exists k | 0 <= k <= |s| :: KeywordAt(s, k, "do") && BoundaryBefore(s, k)
  }

  /** `/\bend\s*$/`: the line ends with the word `end`, perhaps followed by spaces. */
  predicate EndsWithEnd(s: string) {
    exists k | 0 <= k <= |s| :: TextAt(s, k, "end") && BoundaryBefore(s, k) && RunEnd(s, k + 3, Space) == |s|
  }

  /** A word pattern found after spaces-only indentation is found in the text after it, and back. */
  lemma WordAfterIndent(w: string, r: string, k: nat, word: string)
    requires AllSpaces(w)
    requires |word| > 0 && !IsSpace(word[0])
    requires TextAt(w + r, k, word)
    ensures |w| <= k && TextAt(r, k - |w|, word)
    ensures (w + r)[k..] == r[k - |w|..]
    ensures BoundaryBefore(w + r, k) == BoundaryBefore(r, k - |w|)
  {
    var s := w + r;
    assert forall j :: 0 <= j < |w| ==> IsSpace(s[j]);
    assert s[k] == word[0];
    assert s[k..k + |word|] == r[k - |w|..k - |w| + |word|];
    assert s[k..] == r[k - |w|..];
    if k - |w| > 0 {
      assert s[k - 1] == r[k - |w| - 1];
    } else if k > 0 {
      assert s[k - 1] == w[k - 1];
    }
  }

  /** ... and the converse direction. */
  lemma WordBeforeIndent(w: string, r: string, k: nat, word: string)
    requires TextAt(r, k, word)
    ensures TextAt(w + r, k + |w|, word)
    ensures (w + r)[k + |w|..] == r[k..]
    ensures AllSpaces(w) ==> BoundaryBefore(w + r, k + |w|) == BoundaryBefore(r, k)
  {
    var s := w + r;
    assert s[k + |w|..k + |w| + |word|] == r[k..k + |word|];
    assert s[k + |w|..] == r[k..];
    if k > 0 {
      assert s[k + |w| - 1] == r[k - 1];
    } else if |w| > 0 {
      assert s[|w| - 1] == w[|w| - 1];
    }
  }

  lemma RunEndShift(w: string, r: string, i: nat, cls: CharClass)
    requires i <= |r|
    ensures RunEnd(w + r, i + |w|, cls) == RunEnd(r, i, cls) + |w|
  {
    var s := w + r;
    var j := RunEnd(r, i, cls);
    forall k | i + |w| <= k < j + |w| ensures InClass(s[k], cls) {
      assert s[k] == r[k - |w|];
    }
    if j < |r| {
      assert s[j + |w|] == r[j];
    }
    RunEndUnique(s, i + |w|, cls, j + |w|);
  }

  /** `\bdo\b` does not depend on the indentation. */
  lemma HasDoIgnoresIndent(w: string, r: string)
    requires AllSpaces(w)
    ensures HasDo(w + r) == HasDo(r)
  {
    var s := w + r;
    if HasDo(s) {
      var k :| 0 <= k <= |s| && KeywordAt(s, k, "do") && BoundaryBefore(s, k);
      WordAfterIndent(w, r, k, "do");
      assert KeywordAt(r, k - |w|, "do") && BoundaryBefore(r, k - |w|);
    }
    if HasDo(r) {
      var k :| 0 <= k <= |r| && KeywordAt(r, k, "do") && BoundaryBefore(r, k);
      WordBeforeIndent(w, r, k, "do");
      assert KeywordAt(s, k + |w|, "do") && BoundaryBefore(s, k + |w|);
    }
  }

  /** `\bend\s*$` does not depend on the indentation. */
  lemma EndsWithEndIgnoresIndent(w: string, r: string)
    requires AllSpaces(w)
    ensures EndsWithEnd(w + r) == EndsWithEnd(r)
  {
    var s := w + r;
    if EndsWithEnd(s) {
      var k :| 0 <= k <= |s| && TextAt(s, k, "end") && BoundaryBefore(s, k) && RunEnd(s, k + 3, Space) == |s|;
      WordAfterIndent(w, r, k, "end");
      RunEndShift(w, r, k - |w| + 3, Space);
      assert TextAt(r, k - |w|, "end") && BoundaryBefore(r, k - |w|) && RunEnd(r, k - |w| + 3, Space) == |r|;
    }
    if EndsWithEnd(r) {
      var k :| 0 <= k <= |r| && TextAt(r, k, "end") && BoundaryBefore(r, k) && RunEnd(r, k + 3, Space) == |r|;
      WordBeforeIndent(w, r, k, "end");
      RunEndShift(w, r, k + 3, Space);
      assert TextAt(s, k + |w|, "end") && BoundaryBefore(s, k + |w|) && RunEnd(s, k + |w| + 3, Space) == |s|;
    }
  }
}
