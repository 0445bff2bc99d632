/**
 * The document-level bracket balance of validation. The text is first
 * cleaned: string literals lose their contents, nested block comments
 * `#[ ... ]#` are cut out by a character scan, and line comments are
 * removed. Brackets are then counted in what remains.
 */
module Brackets {
  import opened Wrappers
  import opened Lsp
  import opened Patterns
  import opened Diagnostics

  /** `a` can be obtained from `b` by deleting characters. */
  ghost predicate Sub(a: string, b: string)
    decreases |b|
  {
    |a| <= |b| && (a == [] || (a[0] == b[0] && Sub(a[1..], b[1..])) || Sub(a, b[1..]))
  }

  lemma {:induction false} SubDrop(a: string, b: string, k: nat)
    requires k <= |b| && Sub(a, b[k..])
    ensures Sub(a, b)
    decreases k
  {
    if k > 0 {
      assert b[k - 1..][1..] == b[k..];
      SubDrop(a, b, k - 1);
    }
  }

  /** Deleting characters never adds an occurrence of one. */
  lemma {:induction false} SubCount(a: string, b: string, c: char)
    requires Sub(a, b)
    ensures CountChar(a, c) <= CountChar(b, c)
    decreases |b|
  {
    if a != [] {
      if a[0] == b[0] && Sub(a[1..], b[1..]) {
        SubCount(a[1..], b[1..], c);
      } else {
        SubCount(a, b[1..], c);
      }
    }
  }

  // ----- string literals -----

  /**
   * The end of the string literal `q(?:[^q\\]|\\.)*q` whose body starts at
   * `k`, just past its closing quote. The two alternatives start with
   * different characters, so the repetition has one way to match.
   */
  function StringEnd(t: string, k: nat, q: char): (e: Option<nat>)
    requires k <= |t|
    ensures e.Some? ==> k < e.value <= |t| && t[e.value - 1] == q
    decreases |t| - k
  {
    if k == |t| then None
    else if t[k] == q then Some(k + 1)
    else if t[k] == '\\' then
      if k + 1 < |t| && !IsLineTerminator(t[k + 1]) then StringEnd(t, k + 2, q) else None
    else StringEnd(t, k + 1, q)
  }

  /** `t.replace(/q(?:[^q\\]|\\.)*q/g, qq)` from `i` on: each literal, leftmost first, becomes an empty one. */
  function BlankFrom(t: string, q: char, i: nat): (r: string)
    requires i <= |t|
    decreases |t| - i
  {
    if i == |t| then []
    else
      match (if t[i] == q then StringEnd(t, i + 1, q) else None)
      case Some(e) => [q, q] + BlankFrom(t, q, e)
      case None => [t[i]] + BlankFrom(t, q, i + 1)
  }

  /** Blanking only deletes characters. */
  lemma {:induction false} BlankFromSub(t: string, q: char, i: nat)
    requires i <= |t|
    ensures Sub(BlankFrom(t, q, i), t[i..])
    decreases |t| - i
  {
    if i < |t| {
      if t[i] == q && StringEnd(t, i + 1, q).Some? {
        var e := StringEnd(t, i + 1, q).value;
        BlankFromSub(t, q, e);
        BlankedLiteralSub(t, q, i, e, BlankFrom(t, q, e));
      } else {
        BlankFromSub(t, q, i + 1);
        KeptCharSub(t, i, BlankFrom(t, q, i + 1));
      }
    }
  }

  /** A literal from `i` to `e` replaced by two quotes, in front of a text taken from what follows it. */
  lemma BlankedLiteralSub(t: string, q: char, i: nat, e: nat, rest: string)
    requires i + 1 < e <= |t| && t[i] == q && t[e - 1] == q && Sub(rest, t[e..])
    ensures Sub([q, q] + rest, t[i..])
  {
    assert t[e - 1..][1..] == t[e..];
    assert Sub([q] + rest, t[e - 1..]) by {
      assert ([q] + rest)[1..] == rest;
    }
    SubDrop([q] + rest, t[i + 1..], e - 1 - (i + 1)) by {
      assert t[i + 1..][e - 1 - (i + 1)..] == t[e - 1..];
    }
    assert t[i..][1..] == t[i + 1..];
    assert ([q, q] + rest)[1..] == [q] + rest;
  }

  /** A character kept in front of a text taken from what follows it. */
  lemma KeptCharSub(t: string, i: nat, rest: string)
    requires i < |t| && Sub(rest, t[i + 1..])
    ensures Sub([t[i]] + rest, t[i..])
  {
    assert t[i..][1..] == t[i + 1..];
    assert ([t[i]] + rest)[1..] == rest;
  }

  /** Text without the quote character is left as it is. */
  lemma {:induction false} BlankFromNoQuote(t: string, q: char, i: nat)
    requires i <= |t| && q !in t[i..]
    ensures BlankFrom(t, q, i) == t[i..]
    decreases |t| - i
  {
    if i < |t| {
      assert t[i] in t[i..];
      assert t[i + 1..] == t[i..][1..];
      BlankFromNoQuote(t, q, i + 1);
    }
  }

  /** A body free of the quote and of backslashes runs up to the next quote. */
  lemma {:induction false} StringEndOverBody(t: string, k: nat, q: char, e: nat)
    requires k <= e < |t| && t[e] == q
    requires forall j :: k <= j < e ==> t[j] != q && t[j] != '\\'
    ensures StringEnd(t, k, q) == Some(e + 1)
    decreases e - k
  {
    if k < e {
      StringEndOverBody(t, k + 1, q, e);
    }
  }

  /**
   * A literal whose body holds neither the quote nor a backslash becomes two
   * quotes, whatever else the body holds: none of its brackets is left.
   */
  lemma LiteralBlanked(t: string, q: char, i: nat, e: nat)
    requires i < e < |t| && t[i] == q && t[e] == q
    requires forall j :: i < j < e ==> t[j] != q && t[j] != '\\'
    ensures BlankFrom(t, q, i) == [q, q] + BlankFrom(t, q, e + 1)
  {
    StringEndOverBody(t, i + 1, q, e);
  }

  /** The three replacements of the source, double quotes first, then single quotes, then backticks. */
  function BlankStrings(text: string): (r: string)
  {
    var a := BlankFrom(text, '"', 0);
    var b := BlankFrom(a, '\'', 0);
    BlankFrom(b, '`', 0)
  }

  // ----- block comments -----

  /**
   * The characters the comment scan keeps from `i` on at comment depth
   * `depth`: `#[` deepens, `]#` leaves a level (never below zero), both are
   * consumed whole, and any other character is kept exactly at depth zero.
   */
  function OutsideBlockComments(t: string, i: nat, depth: nat): (r: string)
    requires i <= |t|
    decreases |t| - i
  {
    if i == |t| then []
    else if i < |t| - 1 && t[i] == '#' && t[i + 1] == '[' then OutsideBlockComments(t, i + 2, depth + 1)
    else if i < |t| - 1 && t[i] == ']' && t[i + 1] == '#' then
      OutsideBlockComments(t, i + 2, if depth > 0 then depth - 1 else 0)
    else (if depth == 0 then [t[i]] else []) + OutsideBlockComments(t, i + 1, depth)
  }

  /** The comment scan, advancing its index by hand past each two-character marker. */
  method StripBlockComments(documentText: string) returns (withoutBlockComments: string)
    ensures withoutBlockComments == OutsideBlockComments(documentText, 0, 0)
  {
    withoutBlockComments := "";
    var commentDepth: nat := 0;
    var i := 0;
    while i < |documentText|
      invariant 0 <= i <= |documentText|
      invariant withoutBlockComments + OutsideBlockComments(documentText, i, commentDepth) == OutsideBlockComments(documentText, 0, 0)
      decreases |documentText| - i
    {
      if i < |documentText| - 1 && documentText[i] == '#' && documentText[i + 1] == '[' {
        commentDepth := commentDepth + 1;
        i := i + 1;
      } else if i < |documentText| - 1 && documentText[i] == ']' && documentText[i + 1] == '#' {
        if commentDepth > 0 {
          commentDepth := commentDepth - 1;
        }
        i := i + 1;
      } else if commentDepth == 0 {
        withoutBlockComments := withoutBlockComments + [documentText[i]];
      }
      i := i + 1;
    }
  }

  /** The scan only deletes characters, so its output is no longer than its input. */
  lemma {:induction false} OutsideBlockCommentsSub(t: string, i: nat, depth: nat)
    requires i <= |t|
    ensures Sub(OutsideBlockComments(t, i, depth), t[i..])
    decreases |t| - i
  {
    if i < |t| {
      var s := t[i..];
      assert s[1..] == t[i + 1..];
      if i < |t| - 1 && ((t[i] == '#' && t[i + 1] == '[') || (t[i] == ']' && t[i + 1] == '#')) {
        var d := if t[i] == '#' then depth + 1 else if depth > 0 then depth - 1 else 0;
        OutsideBlockCommentsSub(t, i + 2, d);
        SubDrop(OutsideBlockComments(t, i + 2, d), s, 2) by {
          assert s[2..] == t[i + 2..];
        }
      } else {
        var rest := OutsideBlockComments(t, i + 1, depth);
        OutsideBlockCommentsSub(t, i + 1, depth);
        if depth == 0 {
          assert ([t[i]] + rest)[1..] == rest;
        } else {
          assert [] + rest == rest;
        }
      }
    }
  }

  /** Outside any comment, text without `#` keeps every character. */
  lemma {:induction false} NoMarkersKeepsAll(t: string, i: nat)
    requires i <= |t| && '#' !in t[i..]
    ensures OutsideBlockComments(t, i, 0) == t[i..]
    decreases |t| - i
  {
    if i < |t| {
      assert t[i] in t[i..];
      assert i < |t| - 1 ==> t[i + 1] in t[i..];
      assert t[i + 1..] == t[i..][1..];
      NoMarkersKeepsAll(t, i + 1);
    }
  }

  /** Inside a comment that nothing closes, nothing is kept. */
  lemma {:induction false} UnclosedCommentKeepsNothing(t: string, i: nat, depth: nat)
    requires i <= |t| && depth > 0
    requires forall k :: i <= k < |t| - 1 ==> !(t[k] == ']' && t[k + 1] == '#')
    ensures OutsideBlockComments(t, i, depth) == []
    decreases |t| - i
  {
    if i < |t| {
      if i < |t| - 1 && t[i] == '#' && t[i + 1] == '[' {
        UnclosedCommentKeepsNothing(t, i + 2, depth + 1);
      } else {
        UnclosedCommentKeepsNothing(t, i + 1, depth);
      }
    }
  }

  // ----- line comments -----

  /** The global replacement of `#[^\n]*` by nothing: each `#` and the rest of its line, up to the line feed, are removed. */
  function StripLineComments(t: string): (r: string)
    ensures '#' !in r
    decreases |t|
  {
    if t == [] then []
    else if t[0] == '#' then StripLineComments(t[RunEnd(t, 1, NotNewline)..])
    else [t[0]] + StripLineComments(t[1..])
  }

  lemma {:induction false} StripLineCommentsSub(t: string)
    ensures Sub(StripLineComments(t), t)
    decreases |t|
  {
    if t != [] {
      if t[0] == '#' {
        var e := RunEnd(t, 1, NotNewline);
        StripLineCommentsSub(t[e..]);
        SubDrop(StripLineComments(t[e..]), t, e);
      } else {
        StripLineCommentsSub(t[1..]);
        assert ([t[0]] + StripLineComments(t[1..]))[1..] == StripLineComments(t[1..]);
      }
    }
  }

  lemma {:induction false} StripLineCommentsNoHash(t: string)
    requires '#' !in t
    ensures StripLineComments(t) == t
    decreases |t|
  {
    if t != [] {
      assert t[0] in t;
      assert forall c :: c in t[1..] ==> c in t;
      StripLineCommentsNoHash(t[1..]);
    }
  }

  // ----- the balance check -----

  /** The text the brackets are counted in. */
  function Cleaned(text: string): string {
    StripLineComments(OutsideBlockComments(BlankStrings(text), 0, 0))
  }

  /** Cleaning only deletes characters: it never adds a bracket. */
  lemma CleanedCount(text: string, c: char)
    ensures CountChar(Cleaned(text), c) <= CountChar(text, c)
  {
    var a := BlankFrom(text, '"', 0);
    var b := BlankFrom(a, '\'', 0);
    var s := BlankFrom(b, '`', 0);
    var o := OutsideBlockComments(s, 0, 0);
    BlankFromSub(text, '"', 0);
    BlankFromSub(a, '\'', 0);
    BlankFromSub(b, '`', 0);
    OutsideBlockCommentsSub(s, 0, 0);
    StripLineCommentsSub(o);
    assert text[0..] == text && a[0..] == a && b[0..] == b && s[0..] == s;
    SubCount(a, text, c);
    SubCount(b, a, c);
    SubCount(s, b, c);
    SubCount(o, s, c);
    SubCount(Cleaned(text), o, c);
  }

  /** Text with no quote characters and no `#` is counted as it is. */
  lemma CleanedPlain(text: string)
    requires '"' !in text && '\'' !in text && '`' !in text && '#' !in text
    ensures Cleaned(text) == text
  {
    assert text[0..] == text;
    BlankFromNoQuote(text, '"', 0);
    BlankFromNoQuote(text, '\'', 0);
    BlankFromNoQuote(text, '`', 0);
    NoMarkersKeepsAll(text, 0);
    StripLineCommentsNoHash(text);
  }

  /** `documentText.includes('->')` */
  predicate HasArrow(t: string) {
    exists k | 0 <= k <= |t| :: TextAt(t, k, "->")
  }

  /** `/\bas\s*\[/.test(documentText)` */
  predicate HasInvokeAs(t: string) {
    exists k | 0 <= k <= |t| :: TextAt(t, k, "as") && BoundaryBefore(t, k) &&
      var e := RunEnd(t, k + 2, Space); e < |t| && t[e] == '['
  }

  predicate Balanced(t: string) {
    CountChar(t, '(') == CountChar(t, ')') && CountChar(t, '[') == CountChar(t, ']') &&
    CountChar(t, '{') == CountChar(t, '}')
  }

  /** The balance warning, computed on the cleaned text of a document whose first line is `firstLine`. */
  function BracketCheck(firstLine: string, documentText: string): (d: Option<Diagnostic>)
    ensures d.Some? <==> !HasArrow(documentText) && !HasInvokeAs(documentText) && !Balanced(documentText)
    ensures d.Some? ==> d.value.severity == Warning && d.value.range == Range(0, 0, 0, |firstLine|)
    ensures d.Some? ==> var t := documentText;
      d.value.problem == MismatchedBrackets(CountChar(t, '(') - CountChar(t, ')'),
        CountChar(t, '[') - CountChar(t, ']'), CountChar(t, '{') - CountChar(t, '}'))
  {
    if !HasArrow(documentText) && !HasInvokeAs(documentText) then
      var openParen := CountChar(documentText, '(');
      var closeParen := CountChar(documentText, ')');
      var openBracket := CountChar(documentText, '[');
      var closeBracket := CountChar(documentText, ']');
      var openBrace := CountChar(documentText, '{');
      var closeBrace := CountChar(documentText, '}');
      if openParen != closeParen || openBracket != closeBracket || openBrace != closeBrace then
        Some(Diagnostic(Warning, Range(0, 0, 0, |firstLine|),
          MismatchedBrackets(openParen - closeParen, openBracket - closeBracket, openBrace - closeBrace)))
      else None
    else None
  }

  /** A document with no bracket characters at all never gets the warning. */
  lemma NoBracketsNoWarning(firstLine: string, text: string)
    requires forall c :: c in "()[]{}" ==> CountChar(text, c) == 0
    ensures BracketCheck(firstLine, Cleaned(text)).None?
  {
    forall c | c in "()[]{}" ensures CountChar(Cleaned(text), c) == 0 {
      CleanedCount(text, c);
    }
  }

  /** Balanced text never gets the warning. */
  lemma BalancedNoWarning(firstLine: string, t: string)
    requires Balanced(t)
    ensures BracketCheck(firstLine, t).None?
  {
  }

  /** Text that no cleaning step touches: no quote character and no `#`. */
  predicate Plain(s: string) {
    '"' !in s && '\'' !in s && '`' !in s && '#' !in s
  }

  lemma {:induction false} CountConcat(a: string, b: string, c: char)
    ensures CountChar(a + b, c) == CountChar(a, c) + CountChar(b, c)
    decreases |a|
  {
    if a == [] {
      assert a + b == b;
    } else {
      assert (a + b)[0] == a[0] && (a + b)[1..] == a[1..] + b;
      CountConcat(a[1..], b, c);
    }
  }

  /** A stretch without the quote is copied through, and blanking resumes after it. */
  lemma {:induction false} BlankFromPlain(t: string, q: char, i: nat, j: nat)
    requires i <= j <= |t| && q !in t[i..j]
    ensures BlankFrom(t, q, i) == t[i..j] + BlankFrom(t, q, j)
    decreases j - i
  {
    if i < j {
      assert t[i] in t[i..j];
      assert t[i + 1..j] == t[i..j][1..];
      BlankFromPlain(t, q, i + 1, j);
      assert t[i..j] == [t[i]] + t[i + 1..j];
    }
  }

  /** The quote pass over a text holding one literal, from `i` to `e`, and no other quote. */
  lemma QuotePassAt(t: string, q: char, i: nat, e: nat)
    requires i < e < |t| && t[i] == q && t[e] == q
    requires q !in t[..i] && q !in t[e + 1..]
    requires forall j :: i < j < e ==> t[j] != q && t[j] != '\\'
    ensures BlankFrom(t, q, 0) == t[..i] + [q, q] + t[e + 1..]
  {
    assert t[0..i] == t[..i];
    BlankFromPlain(t, q, 0, i);
    LiteralBlanked(t, q, i, e);
    BlankFromNoQuote(t, q, e + 1);
  }

  /** The double-quote pass empties the one literal and copies the plain text around it. */
  lemma LiteralQuotePass(before: string, body: string, after: string)
    requires '"' !in before && '"' !in after && '"' !in body && '\\' !in body
    ensures BlankFrom(before + ['"'] + body + ['"'] + after, '"', 0) == before + ['"', '"'] + after
  {
    var text := before + ['"'] + body + ['"'] + after;
    var i := |before|;
    var e := i + 1 + |body|;
    assert text[..i] == before;
    assert text[e + 1..] == after;
    assert text[i] == '"' && text[e] == '"';
    forall j | i < j < e ensures text[j] != '"' && text[j] != '\\' {
      assert text[j] == body[j - i - 1];
    }
    QuotePassAt(text, '"', i, e);
  }

  /** The passes after the double quotes leave a text alone when it has no other quote and no `#`. */
  lemma LaterPassesKeep(a: string)
    requires '\'' !in a && '`' !in a && '#' !in a
    ensures StripLineComments(OutsideBlockComments(BlankFrom(BlankFrom(a, '\'', 0), '`', 0), 0, 0)) == a
  {
    assert a[0..] == a;
    BlankFromNoQuote(a, '\'', 0);
    BlankFromNoQuote(a, '`', 0);
    NoMarkersKeepsAll(a, 0);
    StripLineCommentsNoHash(a);
  }

  /** Cleaning a plain text with one such literal leaves the text with the literal emptied. */
  lemma LiteralCleaned(before: string, body: string, after: string)
    requires Plain(before) && Plain(after) && '"' !in body && '\\' !in body
    ensures Cleaned(before + ['"'] + body + ['"'] + after) == before + ['"', '"'] + after
  {
    var a := before + ['"', '"'] + after;
    LiteralQuotePass(before, body, after);
    assert forall c :: c in a ==> c in before || c == '"' || c in after;
    LaterPassesKeep(a);
  }

  /** The two quotes an emptied literal leaves hold no bracket. */
  lemma EmptyLiteralBalanced(before: string, after: string)
    requires Balanced(before + after)
    ensures Balanced(before + ['"', '"'] + after)
  {
    forall c | c != '"' ensures CountChar(before + ['"', '"'] + after, c) == CountChar(before + after, c) {
      CountConcat(before, ['"', '"'], c);
      CountConcat(before + ['"', '"'], after, c);
      CountConcat(before, after, c);
    }
  }

  /**
   * A double-quoted literal whose body holds neither `"` nor a backslash is
   * not counted: when the text around it is plain and balanced, the document
   * gets no warning, whatever brackets the literal holds.
   */
  lemma LiteralBracketsIgnored(firstLine: string, before: string, body: string, after: string)
    requires Plain(before) && Plain(after) && '"' !in body && '\\' !in body
    requires Balanced(before + after)
    ensures BracketCheck(firstLine, Cleaned(before + ['"'] + body + ['"'] + after)).None?
  {
    LiteralCleaned(before, body, after);
    EmptyLiteralBalanced(before, after);
  }
}
