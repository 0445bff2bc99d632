# Dragonstone language engine

This is a Dafny model of the language-analysis engine of the Dragonstone
language server (`server/src/server.ts`). The engine has no grammar and no
syntax tree. It is a set of scanners that go line by line and character by
character over a document's text:

- **Symbol extraction** (`parseDocument`). Each line goes through an ordered
  cascade of definition patterns: class, module, method, function, constant,
  variable. Every line yields at most one symbol, and symbols come out in
  line order.
- **Validation** (`validateDocument`). It has five parts:
  - a nested block-comment depth, clamped at zero;
  - an unclosed-string scanner shared by the three quote characters;
  - naming-convention checks;
  - a stack of open blocks with an enum flag, reporting orphan `end`s and
    unclosed blocks;
  - a whole-document bracket balance, computed after string bodies are
    blanked and comments are stripped.
- **The formatter** (`formatDocument`) reindents lines to four spaces per
  block level. Its edits only replace leading whitespace.
- **Word and symbol lookup** (`getWordRangeAtPosition`,
  `findSymbolAtPosition`, go to definition).
- **Completion** builds its list from the fixed tables, the type names in a
  type-annotation context, and the document's symbols under their mapped
  kinds.

Each regular expression is written as an explicit scanner over `string`:
character classes, maximal runs, and keyword-then-space matchers (module
`Patterns`). The lemmas in module `Alternation` show that the scan by
first word equals the regular expression's ordered alternation. A
document is the `seq<string>` of its lines, split as `/\r?\n/` splits
them (module `Document`). The loops of the source are methods, each proved
equal to a specification function. The properties are proved about those
functions.

Modules follow the engine's parts:

| module | what it holds |
|---|---|
| `Wrappers` | Option and compaction |
| `Lsp` | positions, ranges, edits |
| `Patterns` | the matchers |
| `Document` | line splitting |
| `Diagnostics` | the problems and their messages |
| `Symbols` | symbol extraction |
| `SymbolForms` | definitions rendered as lines, and what those lines declare |
| `Lookup` | word and symbol lookup |
| `Completion` | the completion list |
| `Format` | the formatter |
| `Quotes` | the string scanner |
| `Naming` | the naming checks |
| `Blocks` | the block stack |
| `Brackets` | string blanking, comment stripping, bracket balance |
| `Validate` | the whole validation pass |

## Model

| member | source | states |
|---|---|---|
| Patterns.RunEnd | server/src/server.ts:30-35 | a greedy run of one character class: every character up to the result is in the class, and the one at the result is not |
| Patterns.RunEndUnique | server/src/server.ts:30-35 | any index that ends a run of the class is the run end, so a greedy match has exactly one extent |
| Patterns.TrimStart | server/src/server.ts:158-161 | `trim()` is empty exactly when the text after the indentation is empty, and both start with the same character |
| Patterns.RestAfterIndent | server/src/server.ts:173 | for spaces followed by a non-space, the leading-whitespace match is exactly those spaces |
| Patterns.IndexOf | server/src/server.ts:454 | `indexOf`: -1 when the word occurs nowhere, otherwise an occurrence with none before it |
| Patterns.IndexOfFirstStart | server/src/server.ts:468 | `indexOf` finds an occurrence when no earlier character equals the word's first character |
| Patterns.FirstWordThenSpaces | server/src/server.ts:30-35 | an alternative of the list that is followed by whitespace, with its end index; none exactly when no alternative is |
| Patterns.FirstWordThenSpacesFinds | server/src/server.ts:30-35 | for space-free alternatives, the alternative that matches is found whatever its rank in the list |
| Patterns.FirstKeywordAt | server/src/server.ts:167-199 | a listed keyword standing at the index and ending at a word boundary; none exactly when no listed keyword does |
| Patterns.HasDoIgnoresIndent | server/src/server.ts:189 | indentation does not change whether a line contains the word `do` |
| Patterns.EndsWithEndIgnoresIndent | server/src/server.ts:184-189 | indentation does not change whether a line ends in the word `end` |
| Patterns.CountPair | server/src/server.ts:373-374 | non-overlapping `#[` / `]#` counts are at most half the line length |
| Alternation.KeywordHeadIsOrdered | server/src/server.ts:30-35 | the first-word scan for `keyword\s+name` equals the ordered regular-expression alternation |
| Alternation.ModifiedHeadIsOrdered | server/src/server.ts:31 | with the optional `abstract`/`abs` prefix, the scan still equals the ordered alternation |
| Document.SplitLines | server/src/server.ts:49 | `split(/\r?\n/)`: at least one line and no line feed inside any line |
| Document.SplitJoin | server/src/server.ts:49 | joining lines with line feeds and splitting again gives back the lines |
| Document.JoinSplit | server/src/server.ts:49 | for text without carriage returns, splitting and rejoining gives back the text |
| Document.SplitFirst | server/src/server.ts:49 | the first line of a split is the text before the first line feed |
| Diagnostics.NatText | server/src/server.ts:615 | a number in a template literal is nonempty decimal digits with no leading zero |
| Diagnostics.NatTextValue | server/src/server.ts:615 | reading the printed digits back gives the number |
| Wrappers.Compact | server/src/server.ts:47-143 | keeping the present entries never gives more entries than slots |
| Wrappers.CompactIsGather | server/src/server.ts:47-143 | the kept entries are exactly the present slots' values, taken in increasing slot order |
| Symbols.KeywordHead | server/src/server.ts:30-35 | a listed keyword is the line's first word, then at least one space, then a name of the required initial |
| Symbols.ModifiedHead | server/src/server.ts:31 | an optional modifier, then a listed class keyword, and then a name of the required initial |
| Symbols.IdentEnd | server/src/server.ts:30-35 | the identifier starting at the index ends after it and within the line |
| Symbols.ParamsAt | server/src/server.ts:30 | captured parameters contain no `)` and occur in the line as `(` params `)` |
| Symbols.ClassDecl | server/src/server.ts:56-67 | a class-like declaration has a capitalised identifier name, an enum kind exactly when the keyword is `enum`, and the detail `keyword name` |
| Symbols.ModuleDecl | server/src/server.ts:70-81 | a module declaration has a capitalised identifier name and the detail `module name` |
| Symbols.MethodDecl | server/src/server.ts:84-97 | a method line declares a method with a nonempty name |
| Symbols.MethodAfter | server/src/server.ts:86-94 | a method's name, with or without a receiver, is a nonempty method-kind declaration |
| Symbols.QualifiedMethod | server/src/server.ts:86-94 | a receiver makes the name `target.name`, longer than the receiver |
| Symbols.PlainMethod | server/src/server.ts:86-94 | without a receiver the declared name is the captured name |
| Symbols.FunctionDecl | server/src/server.ts:100-111 | a function declaration's name starts with a lower-case letter or `_` |
| Symbols.ConstantDecl | server/src/server.ts:114-125 | a constant's name is upper snake case starting with a capital, the line has `=`, and the detail is `constant name` |
| Symbols.Annotation | server/src/server.ts:34 | a captured type annotation is a built-in type name or a capitalised identifier |
| Symbols.VariableDecl | server/src/server.ts:128-140 | a variable declaration's name is an identifier starting with a lower-case letter or `_` |
| Symbols.LineDecl | server/src/server.ts:55-140 | the cascade in priority order: whatever is declared has a nonempty name |
| Symbols.LineSymbol | server/src/server.ts:51-140 | a line yields a symbol exactly when the cascade matches; that symbol has the line's index and spans the whole line |
| Symbols.LineSymbols | server/src/server.ts:51-141 | one slot per line, slot `j` describing line `j` |
| Symbols.SymbolTable | server/src/server.ts:47-143 | every symbol is the one its own line yields, lines strictly increase, and no line's symbol is missing |
| Symbols.SymbolLinesIncrease | server/src/server.ts:51-141 | any two symbols of the table are in line order |
| Symbols.TableIsCompaction | server/src/server.ts:47-143 | the table is the lines' symbols with the empty lines dropped |
| Symbols.ParseDocument | server/src/server.ts:46-144 | the pushing loop returns exactly the symbol table of the split text |
| SymbolForms.DefinitionDeclares | server/src/server.ts:30-143 | any well-formed definition, indented and followed by a fitting tail, makes its line yield exactly the intended symbol, with its name, kind and detail, spanning the line |
| SymbolForms.TypeDeclares | server/src/server.ts:56-67 | a rendered class, struct, record, annotation or enum line declares the intended type |
| SymbolForms.ModuleDeclares | server/src/server.ts:70-81 | a rendered module line declares the intended module; the class pattern does not claim it |
| SymbolForms.MethodDeclares | server/src/server.ts:84-97 | a rendered method line, with or without receiver and parameters, declares the intended method; the earlier patterns do not claim it |
| SymbolForms.MethodReadIntended | server/src/server.ts:86-94 | `singleton method target.name` with a receiver, `method name` without, and the parameters only when captured |
| SymbolForms.FunctionDeclares | server/src/server.ts:100-111 | a rendered function line declares the intended function with detail `fun name(params)` |
| SymbolForms.ConstantDeclares | server/src/server.ts:114-125 | an upper snake case name followed by ` =` declares that constant |
| SymbolForms.VariableDeclares | server/src/server.ts:128-140 | a rendered variable line declares the variable with detail `keyword name: Type` |
| SymbolForms.EarlierMiss | server/src/server.ts:56-128 | a line whose first word belongs to a later pattern is not claimed by any earlier pattern of the cascade |
| Lookup.NextMatch | server/src/server.ts:229-232 | one `exec` of the global word pattern: no match exactly when no name can start at or after `lastIndex` |
| Lookup.MatchesFrom | server/src/server.ts:229-239 | the successive matches start at a name start, extend as far as the name goes, and do not overlap |
| Lookup.FirstCovering | server/src/server.ts:232-239 | the first match that the cursor is on or directly after, and none exactly when no match is |
| Lookup.GetWordRangeAtPosition | server/src/server.ts:228-242 | the exec loop returns the word range of the cursor |
| Lookup.NameEndIsLongest | server/src/server.ts:229 | the match is a method name, and no longer extent is one |
| Lookup.MatchesCover | server/src/server.ts:229-239 | every character where a name can start lies in some match |
| Lookup.CursorOnNameFindsWord | server/src/server.ts:228-242 | a cursor on a name start finds a range holding the cursor, and the text in it is a method name |
| Lookup.MatchesBeforeBreak | server/src/server.ts:208 | the line break included by `getText` on the next line changes no match |
| Lookup.FindNamed | server/src/server.ts:218-224 | `find`: the first symbol whose name is the word, ends in `.word`, or is the word with `?`, `!` or `=`; none exactly when no symbol is |
| Lookup.WordAt | server/src/server.ts:208-215 | the word under the cursor is a method name |
| Lookup.FindSymbolAtPosition | server/src/server.ts:206-225 | a symbol is found exactly when the table has one named by the word under the cursor; the one found is the first in table order named by it, and its own line declares it |
| Lookup.Definition | server/src/server.ts:667-682 | go to definition answers exactly when a symbol is found under the cursor, with the range of that symbol (the first in table order named by the word), which is a whole line of the document |
| Completion.ItemKindOf | server/src/server.ts:742-765 | symbol kinds become completion kinds, never Text or Keyword |
| Completion.ItemKindsMergeOnlyTypes | server/src/server.ts:743-762 | two symbol kinds map to the same completion kind exactly when they are equal or are class and enum |
| Completion.SymbolItems | server/src/server.ts:740-772 | one item per symbol, in order, under the symbol's name and detail |
| Completion.CompletionPrefix | server/src/server.ts:719-724 | the text before the cursor is the prefix of its line of length min(column, line length), and empty beyond the document |
| Completion.RunBack | server/src/server.ts:735 | a maximal run of a class ending at an index |
| Completion.TypeContextIsPattern | server/src/server.ts:735 | the type names are offered exactly when the prefix matches `:\s*\w*$` or `->\s*\w*$` |
| Completion.Offered | server/src/server.ts:726-772 | first the tables, then the type names, then one item per symbol in table order |
| Completion.OnCompletion | server/src/server.ts:713-775 | the handler's pushes return exactly the completion list of the document and cursor |
| Completion.PushSymbolItems | server/src/server.ts:741-772 | the loop appends exactly the symbols' items |
| Format.Indent | server/src/server.ts:172 | `INDENT.repeat(n)` is 4 n spaces |
| Format.Effects | server/src/server.ts:156-200 | one effect per line |
| Format.LineEdit | server/src/server.ts:172-181 | an edit exactly when the line is not skipped and its indentation differs from the expected one; the edit replaces the indentation with the expected spaces |
| Format.LineEdits | server/src/server.ts:156-200 | one possible edit per line |
| Format.FormatDocument | server/src/server.ts:147-203 | the loop returns exactly the formatter's edits for the split text |
| Format.FormatLine | server/src/server.ts:158-199 | one iteration's edit and next level are those of the line's effect |
| Format.EditsTouchIndentOnly | server/src/server.ts:175-180 | every edit replaces exactly one line's leading whitespace with spaces, and edits come in strictly increasing line order |
| Format.ReindentKeepsText | server/src/server.ts:175-180 | reindenting keeps every line's text after its indentation |
| Format.ApplyFormatEdits | server/src/server.ts:147-203 | applying the edits in order gives the reindented document |
| Format.DecidedByText | server/src/server.ts:161-199 | how a line moves the level depends only on its text after the indentation |
| Format.SameEffects | server/src/server.ts:161-199 | reindenting changes no line's effect on the level |
| Format.FormatIdempotent | server/src/server.ts:147-203 | formatting a formatted document gives no edits |
| Quotes.Step | server/src/server.ts:401-433 | one character keeps the scanner's state consistent |
| Quotes.StateAfter | server/src/server.ts:401-433 | the state after any prefix is consistent |
| Quotes.OpenQuote | server/src/server.ts:435-438 | a string still open at the end is open on a quote character |
| Quotes.ScanQuotes | server/src/server.ts:396-438 | the loop's unclosed quote is the automaton's open quote |
| Quotes.OpensOnlyWhenClosed | server/src/server.ts:415-420 | a string opens exactly when none is open, no escape is pending and the character is a quote; it records that quote |
| Quotes.ClosesOnlyOnSameQuote | server/src/server.ts:415-432 | an open string closes exactly on its own quote when not escaped; other quotes are inert |
| Quotes.BackslashSkipsNext | server/src/server.ts:404-412 | a backslash and the character after it leave the state as it was |
| Quotes.SingleQuoteKindOpen | server/src/server.ts:396-438 | with one quote kind and no backslash, the line ends in a string exactly when the quote count is odd |
| Naming.LowerTypeName | server/src/server.ts:451 | the class-name pattern captures a type keyword and a lower-case name at its own column |
| Naming.TypeNameCheck | server/src/server.ts:450-461 | the corrected check: an error exactly when a type keyword is followed by a lower-case name, spanning that name at its captured column |
| Naming.TypeNameCheckAsWritten | server/src/server.ts:450-461 | the check as written, which the validation pass uses: an error exactly when a type keyword is followed by a lower-case name, placed by `indexOf` at the first occurrence of the name in the line, no later than its column |
| Naming.TypeNameColumnAsWrittenMisses | server/src/server.ts:454 | for `class s` the written code marks column 3, inside the keyword; the name is at column 6 |
| Naming.UpperMethodName | server/src/server.ts:465 | the method-name pattern captures a capitalised name with no capital before it |
| Naming.FirstCapitalIndex | server/src/server.ts:467 | for such a name `indexOf` is its own column |
| Naming.MethodNameCheck | server/src/server.ts:463-475 | an error exactly when a method keyword is followed by a capitalised name; it spans the name |
| Naming.ConstantName | server/src/server.ts:481 | the pattern captures a name at the indentation's end, starting with a capital and then a lower-case letter |
| Naming.ConstantNameFacts | server/src/server.ts:482-488 | for such a name no declaration keyword starts the line, the name is not SCREAMING_SNAKE_CASE, and `indexOf` is its column |
| Naming.ConstantCheck | server/src/server.ts:477-496 | a warning exactly when the pattern captures a name, the line is outside an enum block and contains `=`; it spans the name |
| Naming.EnumBlockSilencesConstants | server/src/server.ts:482 | inside an enum block no constant-case warning is given |
| Blocks.OpenerStart | server/src/server.ts:503 | the pattern matches exactly when a block keyword stands after a modifier or at the start; the match after the modifier is preferred, otherwise it is at the start |
| Blocks.OpenerKeyword | server/src/server.ts:503-506 | the pushed keyword, the first word after the modifier, is the opener keyword that matched |
| Blocks.FirstAnonymousIndex | server/src/server.ts:516 | the leftmost index at or after `k` where `\b(fun\|function)\s*\(` matches; none exactly when it matches nowhere |
| Blocks.FirstAnonymous | server/src/server.ts:513-517 | the leftmost `fun(` or `function(` at or after the index, whose keyword is pushed; none exactly when none occurs |
| Blocks.ActionOf | server/src/server.ts:503-537 | the four branches in order: opener, anonymous function, `do`, `end`, each exactly under its guard and the earlier guards' failure |
| Blocks.OnlyOpenerPushesEnum | server/src/server.ts:503-519 | only an `enum` opener pushes `enum`, and every pushed keyword is a block keyword or `do` |
| Blocks.BlockStep | server/src/server.ts:503-537 | an orphan `end` error exactly on `end` with an empty stack, the stack unchanged; an opener pushes exactly one frame at the line; `end` pops exactly one frame |
| Blocks.TrackBlocks | server/src/server.ts:503-537 | the branches' push and pop give exactly the block step |
| Blocks.EnumFlagStep | server/src/server.ts:509-536 | the flag is set exactly when `enum` is pushed, or it was set and the popped frame is not `enum` |
| Blocks.EnumFlagStaysSound | server/src/server.ts:503-537 | a set enum flag implies an `enum` frame on the stack, and each step preserves this |
| Blocks.ElseLeavesBlocks | server/src/server.ts:503-537 | an `else` or `elsif` line with no `do` and no anonymous `fun(` changes neither the stack nor the flag, and reports nothing |
| Brackets.StringEnd | server/src/server.ts:557-560 | a quoted body ends on its closing quote |
| Brackets.BlankFromSub | server/src/server.ts:557-560 | blanking string bodies gives a subsequence of the text |
| Brackets.BlankFromNoQuote | server/src/server.ts:557-560 | text without the quote is left as it is |
| Brackets.LiteralBlanked | server/src/server.ts:557-560 | any literal whose body holds neither its quote nor a backslash becomes two quotes, so none of its brackets is counted |
| Brackets.QuotePassAt | server/src/server.ts:557 | the double-quote replacement on a text with a single literal keeps the text around it and leaves two quotes in its place |
| Brackets.StripBlockComments | server/src/server.ts:565-592 | the index loop that skips markers returns exactly the text outside block comments |
| Brackets.OutsideBlockCommentsSub | server/src/server.ts:565-592 | the stripped text is a subsequence of the input, so no longer |
| Brackets.NoMarkersKeepsAll | server/src/server.ts:565-592 | text without `#` is kept whole |
| Brackets.UnclosedCommentKeepsNothing | server/src/server.ts:565-592 | inside an unclosed comment nothing is emitted |
| Brackets.StripLineComments | server/src/server.ts:595 | nothing after line-comment removal contains `#` |
| Brackets.StripLineCommentsSub | server/src/server.ts:595 | removing line comments gives a subsequence |
| Brackets.StripLineCommentsNoHash | server/src/server.ts:595 | text without `#` is unchanged |
| Brackets.CleanedCount | server/src/server.ts:554-595 | cleaning never adds a character: every count after it is at most the count before |
| Brackets.CleanedPlain | server/src/server.ts:554-595 | text without quotes or `#` is not changed by cleaning |
| Brackets.BracketCheck | server/src/server.ts:597-619 | a warning exactly when the text has no `->`, no `as\s*[`, and some pair's counts differ; at line 0 across the first line, naming the three differences |
| Brackets.NoBracketsNoWarning | server/src/server.ts:597-619 | a document without brackets gets no bracket warning |
| Brackets.BalancedNoWarning | server/src/server.ts:597-619 | balanced counts give no warning |
| Brackets.LiteralCleaned | server/src/server.ts:554-594 | cleaning a text with no quote or `#` outside one double-quoted literal (body without `"` or backslash) gives the text with that literal emptied |
| Brackets.LiteralBracketsIgnored | server/src/server.ts:554-619 | whatever brackets such a literal holds, the document gets no warning when the text around it is balanced |
| Validate.DepthAfter | server/src/server.ts:373-382 | the depth is at least the old depth plus the opens minus the closes, and equals it when positive |
| Validate.ClosingLineSkipped | server/src/server.ts:385-387 | a line holding `]#` is skipped whatever the depth |
| Validate.SkippedLineKeepsState | server/src/server.ts:385-392 | a skipped line changes neither the blocks nor the diagnostics |
| Validate.QuoteCheck | server/src/server.ts:440-448 | an error exactly when a string is open at the end of the line; it spans the whole line and names the open quote |
| Validate.LineChecks | server/src/server.ts:396-496 | the string and naming checks as written, the type-name error placed by `indexOf`: every diagnostic is on the line, and there are at most four |
| Validate.Reported | server/src/server.ts:396-537 | what a checked line reports, with the checks as written (the type-name error placed by `indexOf`), is on that line |
| Validate.ScanLines | server/src/server.ts:367-538 | the line scan as written: every frame left open belongs to an earlier line |
| Validate.OneStringErrorPerLine | server/src/server.ts:396-448 | a checked line reports one unclosed-string error when a string is still open, and otherwise none |
| Validate.EnumSuppressesConstantCase | server/src/server.ts:482 | inside an enum block no constant-case warning is reported |
| Validate.ScanEnumFlagSound | server/src/server.ts:503-537 | after any number of lines, a set enum flag has an `enum` frame beneath it |
| Validate.ScanBeforeLine | server/src/server.ts:367-538 | after `n` lines every diagnostic belongs to one of them |
| Validate.UnclosedReports | server/src/server.ts:542-549 | one error per frame left open, in stack order, spanning that frame's whole line and naming its keyword |
| Validate.ValidateDocument | server/src/server.ts:359-622 | the handler's sequence of passes returns exactly the validation of the text, with every check as written |
| Validate.ScanDocument | server/src/server.ts:367-538 | the per-line loop returns the diagnostics and the stack of the line scan as written, including the `indexOf` type-name column |
| Validate.CheckLine | server/src/server.ts:396-496 | one line's string and naming checks, as written, return exactly their diagnostics |
| Validate.ReportUnclosed | server/src/server.ts:542-549 | the loop appends exactly the unclosed-block reports |

## Left out

- The connection and its wiring are I/O and message dispatch, so they are not modelled: `createConnection`, the document store, initialisation, publishing diagnostics and `listen` (server/src/server.ts:26-27, 625-639, 779-798). The engine's functions take the document text as a parameter.
- A document the store does not know answers `undefined` or `[]`. Only documents that exist are modelled.
- The hover text (server/src/server.ts:642-664) is presentation only. It is the found symbol's detail and line in Markdown.
- Completion items keep their label, kind and detail. The snippet `insertText` and `insertTextFormat` of some keyword items are not modelled.
- The `source: 'dragonstone'` tag of each diagnostic is the same for all of them, so it is not modelled.
- A diagnostic's message is a `Problem` value; `Diagnostics.Message` renders the text.
- The regular expression engine is not modelled. Each pattern is an explicit scanner.
- The `default` of the completion kind switch (`Text`) cannot be reached, since every symbol kind the engine makes has a case.
- The negative lookahead of the method-name pattern (server/src/server.ts:465) can never fail, because the anchored keyword cannot be a modifier. The model leaves it out.
- The SCREAMING_SNAKE_CASE test at server/src/server.ts:487 always passes for a captured name, because its second character is lower case. `Naming.ConstantNameFacts` proves this.
- The fallbacks `|| 'fun'` (server/src/server.ts:516) and `|| ''` (server/src/server.ts:505) cannot be reached, so they are not modelled.
- Validate.Validation: no lemma states that the per-line diagnostics come in increasing line order. The model proves only that each lies on its own line, and that after `n` lines all lie before line `n`.
- Symbols.LineDecl: its own contract states only a nonempty name. What each line form declares is stated by `SymbolForms.DefinitionDeclares` and the per-pattern functions.
- Symbols.MethodDecl: its contract states only the kind and a nonempty name. The naming rule (server/src/server.ts:86-94) is stated by `SymbolForms.MethodReadIntended` and `SymbolForms.MethodDeclares`.
- Symbols.MethodAfter: likewise; which branch applies is stated by `SymbolForms.MethodDeclares` for rendered definitions.
- Wrappers.Compact: its own contract is a length bound. `Wrappers.CompactIsGather` states what it keeps.
- Lookup.WordAt: the cursor's line is taken from the `/\r?\n/` split. The editor's own line table also breaks at a lone carriage return, so in a document that has one, the two read different lines. For example, in `def foo\rfoo` at line 1 the editor reads `foo`, while the model reads nothing.
- Completion.CompletionPrefix: the cursor's line is taken from the `/\r?\n/` split, with the same difference at a lone carriage return.
- Column numbers count characters. The engine's `length`, `indexOf` and cursor columns count UTF-16 code units. So on a line holding a character outside the Basic Multilingual Plane, such as an emoji, every column after it differs by one per such character. This affects diagnostics, symbol ranges, formatter edits and word ranges.
- SymbolForms.DefinitionDeclares: it covers definitions written in canonical form, one space between parts. Lines with extra spaces are classified by `Symbols.LineDecl` but not covered by this lemma.

## Findings

| source | as written | input that shows it | evidently intended | confidence | as-written member | corrected member |
|---|---|---|---|---|---|---|
| server/src/server.ts:454 | the lower-case type-name error is placed at `line.indexOf(name)`, the first occurrence of the name anywhere in the line | `class s`: `indexOf("s")` is 3, inside `class`, while the name is at column 6 | the error spans the captured name at its own column | not executed | Naming.TypeNameCheckAsWritten, Naming.TypeNameColumnAsWrittenMisses | Naming.TypeNameCheck |

The validation pass (`Validate.LineChecks` and everything built on it) follows the code as written and uses `Naming.TypeNameCheckAsWritten`. So its diagnostics are the ones the server actually publishes. `Naming.TypeNameCheck` is the corrected definition, and its intended property is proved on its own.
