/**
 * The per-line string scanner of validation: one automaton for all three
 * quote characters. A quote opens a string when none is open, and closes it
 * only when it is the quote that opened it; a backslash makes the next
 * character inert, inside or outside a string.
 */
module Quotes {
  import opened Wrappers
  import opened Patterns

  predicate IsQuote(c: char) {
    c == '"' || c == '\'' || c == '`'
  }

  /** The scanner's variables between two characters. */
  datatype QuoteState = QuoteState(inString: bool, currentQuote: Option<char>, escaped: bool)

  const Start := QuoteState(false, None, false)

  /** A recorded quote exactly while a string is open, and always a quote character. */
  predicate Consistent(st: QuoteState) {
    st.inString == st.currentQuote.Some? && (st.currentQuote.Some? ==> IsQuote(st.currentQuote.value))
  }

  /** One turn of the scanner's loop. */
  function Step(st: QuoteState, c: char): (r: QuoteState)
    ensures Consistent(st) ==> Consistent(r)
  {
    if st.escaped then st.(escaped := false)
    else if c == '\\' then st.(escaped := true)
    else if IsQuote(c) then
      if !st.inString then QuoteState(true, Some(c), false)
      else if Some(c) == st.currentQuote then QuoteState(false, None, false)
      else st
    else st
  }

  /** The state after the first `j` characters of the line. */
  function StateAfter(line: string, j: nat): (st: QuoteState)
    requires j <= |line|
    ensures Consistent(st)
  {
    if j == 0 then Start else Step(StateAfter(line, j - 1), line[j - 1])
  }

  /** The quote of a string still open at the end of the line. */
  function OpenQuote(line: string): (q: Option<char>)
    ensures q.Some? ==> IsQuote(q.value)
  {
    var st := StateAfter(line, |line|);
    if st.inString && st.currentQuote.Some? then st.currentQuote else None
  }

  /** The scan of one line. */
  method ScanQuotes(line: string) returns (unclosedQuote: Option<char>)
    ensures unclosedQuote == OpenQuote(line)
  {
    var inString := false;
    var currentQuote: Option<char> := None;
    var escaped := false;
    unclosedQuote := None;
    for j := 0 to |line|
      invariant QuoteState(inString, currentQuote, escaped) == StateAfter(line, j)
    {
      var ch := line[j];
      if escaped {
        escaped := false;
        continue;
      }
      if ch == '\\' {
        escaped := true;
        continue;
      }
      if ch == '"' || ch == '\'' || ch == '`' {
        if !inString {
          inString := true;
          currentQuote := Some(ch);
        } else if Some(ch) == currentQuote {
          inString := false;
          currentQuote := None;
        }
      }
    }
    if inString && currentQuote.Some? {
      unclosedQuote := currentQuote;
    }
  }

  // ----- the rules of one step -----

  /** A string opens only when none is open, on a quote that is not escaped, and records that quote. */
  lemma OpensOnlyWhenClosed(st: QuoteState, c: char)
    requires Consistent(st)
    ensures !st.inString && Step(st, c).inString <==> !st.inString && !st.escaped && IsQuote(c)
    ensures !st.inString && Step(st, c).inString ==> Step(st, c).currentQuote == Some(c)
  {
  }

  /** An open string closes only on its own quote, unescaped; another quote inside it changes nothing. */
  lemma ClosesOnlyOnSameQuote(st: QuoteState, c: char)
    requires Consistent(st) && st.inString
    ensures !Step(st, c).inString <==> !st.escaped && Some(c) == st.currentQuote
    ensures Step(st, c).inString ==> Step(st, c).currentQuote == st.currentQuote
  {
  }

  /** The character after an unescaped backslash is skipped, whatever it is. */
  lemma BackslashSkipsNext(st: QuoteState, c: char)
    requires !st.escaped
    ensures Step(Step(st, '\\'), c) == st
  {
  }

  // ----- lines with a single kind of quote -----

  /** The number of occurrences of `q` among the first `j` characters. */
  function CountBefore(line: string, j: nat, q: char): (n: nat)
    requires j <= |line|
    ensures n <= j
  {
    if j == 0 then 0 else CountBefore(line, j - 1, q) + (if line[j - 1] == q then 1 else 0)
  }

  /** With no backslash and only one kind of quote, the quotes pair up one after another. */
  lemma {:induction false} SingleQuoteKindParity(line: string, q: char, j: nat)
    requires IsQuote(q) && j <= |line|
    requires forall k :: 0 <= k < |line| ==> line[k] != '\\' && (IsQuote(line[k]) ==> line[k] == q)
    ensures StateAfter(line, j) == if CountBefore(line, j, q) % 2 == 1 then QuoteState(true, Some(q), false) else Start
  {
    if j > 0 {
      SingleQuoteKindParity(line, q, j - 1);
    }
  }

  /** Such a line is left inside a string exactly when it holds an odd number of quotes. */
  lemma SingleQuoteKindOpen(line: string, q: char)
    requires IsQuote(q)
    requires forall k :: 0 <= k < |line| ==> line[k] != '\\' && (IsQuote(line[k]) ==> line[k] == q)
    ensures OpenQuote(line) == if CountChar(line, q) % 2 == 1 then Some(q) else None
  {
    SingleQuoteKindParity(line, q, |line|);
    CountBeforeAll(line, q);
  }

  lemma CountBeforeAll(line: string, q: char)
    ensures CountBefore(line, |line|, q) == CountChar(line, q)
  {
    CountBeforeSplit(line, q, |line|);
  }

  /** Counting the first `j` characters and the rest gives the count of the whole line. */
  lemma {:induction false} CountBeforeSplit(line: string, q: char, j: nat)
    requires j <= |line|
    ensures CountBefore(line, j, q) + CountChar(line[j..], q) == CountChar(line, q)
  {
    if j > 0 {
      CountBeforeSplit(line, q, j - 1);
      assert line[j - 1..][1..] == line[j..];
    } else {
      assert line[0..] == line;
    }
  }
}
