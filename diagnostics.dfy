/**
 * The problems validation reports. Each diagnostic names its problem as a
 * value; `Message` renders it as the text the editor shows and `SeverityOf`
 * gives the severity the engine reports it with.
 */
module Diagnostics {
  import opened Lsp

  datatype Problem =
    | UnclosedString(quote: char)
    | TypeNameCase(keyword: string)
    | MethodNameCase(keyword: string)
    | ConstantCase
    | UnexpectedEnd
    | UnclosedBlock(keyword: string)
    | MismatchedBrackets(parens: int, brackets: int, braces: int)

  datatype Diagnostic = Diagnostic(severity: Severity, range: Range, problem: Problem)

  /** The constant-case check and the bracket balance warn; every other problem is an error. */
  function SeverityOf(p: Problem): Severity {
    if p.ConstantCase? || p.MismatchedBrackets? then Warning else Error
  }

  /** The kind of quote an unclosed string literal started with, as the message names it. */
  function QuoteType(q: char): string {
    if q == '"' then "double quote (\")" else if q == '\'' then "single quote (')" else "backtick (`)"
  }

  function Message(p: Problem): string {
    match p
    case UnclosedString(q) => "Unclosed string literal (" + QuoteType(q) + ")"
    case TypeNameCase(kw) => kw + " name must start with a capital letter"
    case MethodNameCase(kw) => kw + " name must start with a lowercase letter"
    case ConstantCase => "Constants without keyword should be in SCREAMING_SNAKE_CASE"
    case UnexpectedEnd => "Unexpected \"end\" without matching block start"
    case UnclosedBlock(kw) => "Unclosed \"" + kw + "\" block"
    case MismatchedBrackets(a, b, c) =>
      "Document has mismatched brackets: " + IntText(a) + " unclosed (), " + IntText(b) + " unclosed [], " +
      IntText(c) + " unclosed {}"
  }

  /** The decimal digits of `n`, as a template literal prints a number. */
  function NatText(n: nat): (s: string)
    ensures |s| > 0 && forall k :: 0 <= k < |s| ==> '0' <= s[k] <= '9'
    ensures |s| > 1 ==> s[0] != '0'
  {
    var digit := ['0' + (n % 10) as char];
    if n < 10 then digit else NatText(n / 10) + digit
  }

  function IntText(i: int): string {
    if i < 0 then "-" + NatText(-i) else NatText(i)
  }

  /** The value of a string of decimal digits. */
  function DigitsValue(s: string): nat
    requires forall k :: 0 <= k < |s| ==> '0' <= s[k] <= '9'
  {
    if s == [] then 0 else 10 * DigitsValue(s[..|s| - 1]) + (s[|s| - 1] - '0') as nat
  }

  /** Reading the digits back gives the number. */
  lemma {:induction false} NatTextValue(n: nat)
    ensures DigitsValue(NatText(n)) == n
  {
    var s := NatText(n);
    if n >= 10 {
      NatTextValue(n / 10);
      assert s[..|s| - 1] == NatText(n / 10);
    }
  }
}
