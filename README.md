# pegi, modelled in Dafny

pegi is a C++ front end. It has three parts, and this project models the core of each.

- **The parser generator (src/create-parser.rb).** It reads a PEG-style grammar. The first declared syntactic variable is the root. It compiles each alternative into a recursive-descent matcher, and warns about variables that may call themselves before consuming a token.
- **The lexer (src/tokenize.cpp).** It splits a C string into typed tokens: identifiers, operators from a fixed table, integer, floating, boolean, pointer, string and character literals. Each token carries its line and column, and literal tokens carry their values.
- **The tree utilities and hand-written matchers (src/parser.cpp).** These cover scope queries over the syntax tree, `contract`, `fix_right_shifts`, keyword tables, and the token matchers the grammar refers to. They also cover the namespace scope stack, and the acceptance test of `build_syntax_tree` against the farthest token any matcher reached (the watermark, `maximum_extent`).

Modules, one per file:

| file | module | models |
|---|---|---|
| `wrappers.dfy` | `Wrappers` | `Option` and `Result` |
| `grammar.dfy` | `Grammar` | the loader and `const`/`var` |
| `rules.dfy` | `Rules` | the emitter's reading of one alternative: parts, options and flat loops |
| `matcher.dfy` | `Matcher` | what the emitted matcher does, as an interpreter and as step-by-step methods |
| `headrecursion.dfy` | `HeadRecursion` | the leading-call scan and the head-recursion warning |
| `tokens.dfy` | `Tokens` | token kinds, values and the 64-bit integer patterns |
| `scanner.dfy` | `Scanner` | the character classes and the operator table `poops`/`ispoop` |
| `literals.dfy` | `Literals` | the literal constructors and `eseq` |
| `tokenizer.dfy` | `Tokenizer` | `tokenize` |
| `positions.dfy` | `Positions` | the line and column `tokenize` gives each token |
| `tree.dfy` | `Syntax` | the syntax tree and its queries and rewrites |
| `parser.dfy` | `Parser` | keyword tables, hand-written matchers, the namespace stack and acceptance |

**How the source's shapes are carried over.**
- Loops in the source stay loops in the model, as methods. Each such method is proved equal to a function, and the properties are lemmas about that function.
- The tree is a value. A node is named by its path from the root, so a node's parent is the path without its last index.
- The parser's static state is a class, `Parser.ParserState`, whose methods update its fields. This state is the name lists, the namespace scope stack and the watermark.
- Integer limits follow the LP64 model (32-bit `int`, 64-bit `long` and `long long`).
- Values are stored as their 64-bit patterns, with wrap-around written out.

**Behaviour kept as this version of the code has it.**
- **No success flag or watermark in emitted code.** The emitted matchers in this version of src/create-parser.rb return only a cursor. A call counts as failed exactly when it returns its start. The emitted code neither sets a success flag nor advances the watermark; only the hand-written matchers do.
- **Broken loop iterations leave residue.** An aborted loop iteration leaves the children it attached (see Findings).
- **Root name quirk.** The root is stored under `!name`, while references use `name`. So the head-recursion check never reports the root.
- **All-optional alternatives.** An alternative made only of optional parts must advance the cursor to count as a match.
- **Quirks kept as written.** `tolower(suffix[i] == 'u')` makes only a lower-case `u` mark an integer literal unsigned. The promotion of a decimal `long` compares with `<` against `LONG_MAX`. An octal escape skips its first digit. Only the multiplication in integer accumulation is overflow-checked.

## Model

| member | source | states |
|---|---|---|
| Grammar.StripLeft | src/create-parser.rb:8 | the result is a suffix of the line and does not start with white space |
| Grammar.StripRight | src/create-parser.rb:8 | the result is a prefix of the line and does not end with white space |
| Grammar.Word | src/create-parser.rb:31 | the first word is a prefix free of white space, ending at white space or the end |
| Grammar.Words | src/create-parser.rb:31 | `split` yields non-empty words without white space |
| Grammar.DeclPositionsSpec | src/create-parser.rb:11 | the declaration positions are increasing and each is a line ending in `:` |
| Grammar.DeclPositionsComplete | src/create-parser.rb:11 | every declaration line is among the declaration positions |
| Grammar.KeysAreDeclaredNames | src/create-parser.rb:11-16 | the k-th key is the k-th declared name, with `!` prefixed for the first only |
| Grammar.BetweenSpec | src/create-parser.rb:26-31 | the rules read between two positions are the word lists of those lines, in order |
| Grammar.RulesReadMatches | src/create-parser.rb:7-32 | when no rule precedes a declaration and no key repeats, the lines read give each key exactly the rules below its declaration |
| Grammar.RulesReadStep | src/create-parser.rb:8-32 | reading one more significant line keeps the loader's state equal to the declarative reading |
| Grammar.RulesReadDeclarationStep | src/create-parser.rb:11-23 | a declaration line adds its key with no rules |
| Grammar.RulesReadRuleStep | src/create-parser.rb:26-31 | a rule line is appended to the last declared key |
| Grammar.RulesReadDomain | src/create-parser.rb:18-22 | a name has an entry exactly when it was declared |
| Grammar.Load | src/create-parser.rb:7-32 | the loader loop yields the declarative grammar, or the first error: a rule before any declaration, or a redeclared name |
| Grammar.ReadLine | src/create-parser.rb:8-32 | one iteration skips blank and `--` lines and keeps the state equal to the reading of the lines so far, or fails as the whole load does |
| Grammar.ReadDeclarationLine | src/create-parser.rb:11-23 | a declaration opens a new key, `!` for the first, or fails with Redefined |
| Grammar.ReadRuleLine | src/create-parser.rb:26-31 | a rule line goes to the current key, or fails with RuleOutsideVariable when there is none |
| Grammar.AllRead | src/create-parser.rb:7-32 | at the end of the lines the state is the loaded grammar |
| Grammar.RuleOutsideFound | src/create-parser.rb:26-29 | a rule line before any declaration makes the load fail with RuleOutsideVariable |
| Grammar.RedefinitionFound | src/create-parser.rb:18-21 | a declaration of an existing key makes the load fail with Redefined(key) |
| Grammar.ReadDeclaration | src/create-parser.rb:11-23 | the declarative state after a declaration line |
| Grammar.ReadRule | src/create-parser.rb:31 | the declarative state after a rule line |
| Grammar.Upcase | src/create-parser.rb:36 | upcasing maps the ASCII letters `a`-`z` to upper case and keeps every other character, so the length is kept |
| Grammar.Underscores | src/create-parser.rb:36-40 | `gsub('-', '_')` replaces every `-` and keeps every other character |
| Grammar.DropFirstBangSpec | src/create-parser.rb:36-40 | `sub('!', '')` leaves a text without `!` as it is, and otherwise removes exactly its first `!`: the result is the text before that `!` followed by the text after it |
| Grammar.DropFirstBangAt | src/create-parser.rb:36-40 | removing the first `!` at a given position keeps what precedes and follows it |
| Grammar.VarProperties | src/create-parser.rb:39-41 | `var` leaves no `-`; without a `!` it is the name with `-` replaced; otherwise it is that text with exactly its first `!` removed, the rest in order |
| Grammar.VarOfRootKey | src/create-parser.rb:39-41 | the root key `!name` and a reference `name` give the same identifier |
| Grammar.UpcaseDropFirstBang | src/create-parser.rb:35-37 | upcasing and dropping the first `!` commute |
| Grammar.ConstIsUpperVar | src/create-parser.rb:35-41 | `const` is `var` upcased |
| Rules.KindNamed | src/create-parser.rb:150 | a kind name resolves exactly when it is a `token::` enumerator |
| Rules.FirstParen | src/create-parser.rb:143 | the index of the first `(` |
| Rules.ConditionOf | src/create-parser.rb:149-156 | an empty condition matches any value; a quoted one compares text; a literal compares an integer or a boolean |
| Rules.TerminalOf | src/create-parser.rb:139-156 | a terminal part is `kind(condition)` whose kind is the `const` of the text before `(` |
| Rules.StepOf | src/create-parser.rb:131-166 | a part is optional exactly when bracketed; a call names the part without brackets |
| Rules.Classify | src/create-parser.rb:113-126 | `{` opens and `}` closes a loop; anything else is a part |
| Rules.Classes | src/create-parser.rb:113-180 | the parts of an alternative are classified one by one |
| Rules.CompileAlternative | src/create-parser.rb:110-180 | the emitter's loop over the parts equals the compiled alternative |
| Rules.KindSpellingRoundTrip | src/create-parser.rb:150 | the grammar spelling of a kind resolves back to that kind |
| Rules.ConditionRoundTrip | src/create-parser.rb:149-156 | the spelling of a canonical condition compiles back to it |
| Rules.TerminalRoundTrip | src/create-parser.rb:139-156 | the spelling of a terminal compiles back to it |
| Rules.StepRoundTrip | src/create-parser.rb:131-166 | the spelling of a step classifies back to it |
| Rules.UnparseClasses | src/create-parser.rb:113-180 | the spelling of an alternative classifies into its layout |
| Rules.LayoutCompiles | src/create-parser.rb:110-180 | the layout of an alternative compiles to the alternative |
| Rules.CompileUnparse | src/create-parser.rb:110-180 | compiling the spelling of a canonical alternative gives it back |
| Matcher.Call | src/create-parser.rb:82-198 | the cursor stays in range; a rule's call leaves at most one node, of its own type, and when it leaves no node it returns its start (the converse fails, see Matcher.EmptyLoopNodeStays) |
| Matcher.TryAlternatives | src/create-parser.rb:101-107 | a winning alternative ends inside the range |
| Matcher.RunItems | src/create-parser.rb:113-180 | the parts of an alternative either reach its end inside the range or fall at a mandatory part |
| Matcher.RunLoop | src/create-parser.rb:114-126 | a loop ends inside the range, at or after its start |
| Matcher.RunLoopStops | src/create-parser.rb:114-126 | at the cursor where the loop ends, one more pass of its body breaks or leaves the cursor where it is, so the loop stops at its last completed iteration that advanced |
| Matcher.RunBodyCursor | src/create-parser.rb:168-172 | whether a pass succeeds, whether it completes, and where it ends do not depend on the children attached before it |
| Matcher.RunBody | src/create-parser.rb:168-172 | one pass of a loop body completes inside the range or breaks at a mandatory part |
| Matcher.RunStep | src/create-parser.rb:139-166 | a terminal consumes one token with one TOKEN child exactly when it is in range and fits, and otherwise leaves nothing |
| Matcher.Root | src/create-parser.rb:74-198 | a root tree, when there is one, is a node of the root's type |
| Matcher.CallOf | src/create-parser.rb:82-198 | the emitted procedure computes the interpreter's answer |
| Matcher.TryAlternativesOf | src/create-parser.rb:101-107 | the loop over the alternatives computes the first that gets through |
| Matcher.RunItemsOf | src/create-parser.rb:113-180 | the code for the parts of one alternative computes the interpreter's outcome |
| Matcher.RunLoopOf | src/create-parser.rb:114-126 | the `do`/`while` loop computes the interpreter's loop, and terminates because every repetition advances `m` |
| Matcher.RunBodyOf | src/create-parser.rb:168-172 | one pass of a loop body computes the interpreter's pass |
| Matcher.RunStepOf | src/create-parser.rb:149-165 | the code for one part computes the interpreter's step |
| Matcher.EmptyRangeFails | src/create-parser.rb:82 | on an empty range a matcher returns `b` and attaches nothing |
| Matcher.FirstAlternativeWins | src/create-parser.rb:187 | the first alternative to reach its end decides the node |
| Matcher.FailedAlternativeForgotten | src/create-parser.rb:103-107 | a failed alternative leaves no trace on the next one |
| Matcher.NoAlternativeNoNode | src/create-parser.rb:195-198 | when no alternative gets through, no node is left and the start is returned |
| Matcher.AllOptionalNeedsProgress | src/create-parser.rb:183-185 | an all-optional alternative that consumed nothing is no match |
| Matcher.HeadRecursionExhausts | src/create-parser.rb:164 | a rule whose first part calls itself exhausts any stack depth |
| Matcher.CallAccounts | src/create-parser.rb:82-198 | with a broken iteration's children taken back, the tokens under a call's nodes are exactly the tokens it consumed, in order |
| Matcher.TryAlternativesAccount | src/create-parser.rb:101-107 | the winning alternative's children hold exactly the tokens it consumed |
| Matcher.RunItemsAccount | src/create-parser.rb:113-180 | each part adds exactly the tokens it consumes to the children |
| Matcher.RunLoopAccounts | src/create-parser.rb:114-126 | a loop adds exactly the tokens of its completed iterations |
| Matcher.RunBodyAccounts | src/create-parser.rb:168-172 | a completed pass adds exactly the tokens it consumed |
| Matcher.RunStepAccounts | src/create-parser.rb:149-165 | a terminal or a call leaves exactly the tokens it consumed |
| Matcher.RootAccounts | src/create-parser.rb:74-198 | so a root tree holds exactly a prefix of the tokens |
| Matcher.BrokenIterationKeepsToken | src/create-parser.rb:168-172 | as written, a broken iteration keeps a token the cursor no longer covers |
| Matcher.BrokenIterationTrimmed | src/create-parser.rb:168-172 | with the residue taken back, the same loop leaves its node empty |
| Matcher.EmptyLoopNodeStays | src/create-parser.rb:160-165 | a loop with no iteration still attaches its node, though the caller reads the call as failed |
| HeadRecursion.Uniq | src/create-parser.rb:234 | `uniq!` keeps the same elements, without repeats |
| HeadRecursion.Minus | src/create-parser.rb:253 | `trans - otrans` holds the elements of the first not in the second |
| HeadRecursion.ScanRule | src/create-parser.rb:211-232 | the scan of one alternative appends the leading calls to the calls so far |
| HeadRecursion.LeadingCalls | src/create-parser.rb:210-234 | a variable's chain is the leading calls of all alternatives, without repeats |
| HeadRecursion.BuildCallChains | src/create-parser.rb:207-235 | `pcc` has one chain per variable |
| HeadRecursion.FirstStop | src/create-parser.rb:213-231 | the first part that stops a scan is a terminal or a mandatory reference |
| HeadRecursion.LeadingWithoutLoops | src/create-parser.rb:211-232 | without loops, the scan records the optional references up to the first mandatory part, then that part if it is a reference |
| HeadRecursion.StoppedRecordsNothing | src/create-parser.rb:213-216 | without loops, a stopped scan records nothing more |
| HeadRecursion.CloseBraceRecorded | src/create-parser.rb:213-231 | a loop of optional references ends the scan with its `}` recorded as a call |
| HeadRecursion.Gathered | src/create-parser.rb:248-250 | a round adds the chains of exactly the names added last |
| HeadRecursion.Expand | src/create-parser.rb:247-251 | the round's loop appends those chains |
| HeadRecursion.ClosureRound | src/create-parser.rb:246-253 | a round keeps the closure invariant and either grows the set of names or ends the loop |
| HeadRecursion.Warns | src/create-parser.rb:238-254 | the warning is printed exactly when the variable reaches itself through its leading calls |
| HeadRecursion.WarnedOfMembers | src/create-parser.rb:237-255 | the names warned about are exactly the head-recursive variables |
| HeadRecursion.Warnings | src/create-parser.rb:237-255 | the loop over all variables warns about exactly those |
| HeadRecursion.UncalledNeverWarned | src/create-parser.rb:242-249 | a name no chain holds is never warned about |
| HeadRecursion.ExprChains | src/create-parser.rb:207-235 | `expr: expr operator("+") term \| term` gives the root the chain `expr`, `term` |
| HeadRecursion.LeftRecursiveRootNotWarned | src/create-parser.rb:242-249 | that left-recursive root draws no warning |
| HeadRecursion.MutualRecursionWarned | src/create-parser.rb:238-244 | variables that call each other first are warned about |
| Tokens.KindNamesInjective | include/tokenize.hpp:13-23 | different kinds have different enumerator names |
| Tokens.KindConstName | include/tokenize.hpp:13-23 | each kind has a non-empty enumerator name |
| Tokens.Unsigned64 | src/tokenize.cpp:121-130 | an unsigned 64-bit value is the integer when it fits |
| Tokens.Signed64 | src/tokenize.cpp:139-159 | a signed 64-bit value is congruent to the integer modulo 2^64, in range, and the integer when it fits |
| Scanner.At | src/tokenize.cpp:390-599 | reading outside the string gives the terminating NUL |
| Scanner.ToLower | src/tokenize.cpp:95 | `tolower` maps exactly `A`-`Z` |
| Scanner.DigitValue | src/tokenize.cpp:129 | the value of a decimal digit, and 10-15 for a hex letter |
| Scanner.RunEnd | src/tokenize.cpp:19-35 | the end of the longest run of a character class |
| Scanner.ScanRun | src/tokenize.cpp:19-35 | the scanning loop stops at that end |
| Scanner.PoopTable | src/tokenize.cpp:38-57 | the operator table, entry by entry in order |
| Scanner.PoopTableLongestFirst | src/tokenize.cpp:37-57 | the table is sorted by non-increasing length |
| Scanner.FirstEntry | src/tokenize.cpp:61-78 | the index of the entry found lies in the part of the table searched |
| Scanner.PoopMatch | src/tokenize.cpp:59-79 | a match ends inside the string |
| Scanner.NoRightShiftOperators | src/tokenize.cpp:47-49 | `>>` and `>>=` are not in the table |
| Scanner.FirstEntryFirst | src/tokenize.cpp:59-79 | the entry found matches and no earlier entry does |
| Scanner.FirstEntryNone | src/tokenize.cpp:59-79 | no entry is found exactly when none matches |
| Scanner.IsPoop | src/tokenize.cpp:59-79 | `ispoop` advances past the first matching entry, or not at all |
| Scanner.PoopMatchLongest | src/tokenize.cpp:37-79 | a match is at least as long as any matching entry |
| Literals.Escape | src/tokenize.cpp:299-345 | an escape yields a byte and advances past it; the empty escape is an error exactly at the NUL |
| Literals.EscapeSequence | src/tokenize.cpp:299-345 | the `eseq` loops compute the escape |
| Literals.AccumulateDigits | src/tokenize.cpp:308-325 | the digit loop stops at the end of the run of digits and holds their value wrapped to a byte |
| Literals.ByteAccumulateIsValue | src/tokenize.cpp:304-327 | the accumulated byte is the digits' value modulo 256 |
| Literals.OctalSkipsFirstDigit | src/tokenize.cpp:316-327 | `\101` is the byte 1 |
| Literals.SimpleEscapes | src/tokenize.cpp:329-344 | the eleven simple escapes succeed and any other character fails |
| Literals.SuffixStart | src/tokenize.cpp:104 | the digits run to the first suffix character |
| Literals.UnsignedCheckExact | src/tokenize.cpp:124-125 | the unsigned check fires exactly when the product overflows |
| Literals.SignedCheckExact | src/tokenize.cpp:142-147 | the signed check fires exactly when the product leaves `long long` |
| Literals.UnsignedAccumulateExact | src/tokenize.cpp:121-130 | a value that fits is accumulated exactly |
| Literals.SignedAccumulateExact | src/tokenize.cpp:139-159 | a signed value that fits is accumulated exactly |
| Literals.OverflowPersistsSigned | src/tokenize.cpp:142-150 | once the signed check fires, the literal fails |
| Literals.OverflowPersistsUnsigned | src/tokenize.cpp:124-125 | once the unsigned check fires, the literal fails |
| Literals.IntegerLiteralValue | src/tokenize.cpp:88-203 | the constructor's loops and retry compute the literal's type and value |
| Literals.AccumulateSigned | src/tokenize.cpp:139-159 | the signed loop computes the signed accumulation |
| Literals.AccumulateUnsigned | src/tokenize.cpp:121-130 | the unsigned loop computes the unsigned accumulation |
| Literals.DecimalKeepsSignedness | src/tokenize.cpp:172-183 | decimal literals keep their signedness |
| Literals.DecimalLongBecomesLongLong | src/tokenize.cpp:179-180 | a decimal `long` becomes `long long` unless it is exactly `LONG_MAX` |
| Literals.NonDecimalIntBecomesUnsigned | src/tokenize.cpp:188-193 | a non-decimal signed `int` above `INT_MAX` that fits becomes `unsigned int` |
| Literals.NonDecimalIntBecomesLong | src/tokenize.cpp:190-197 | above `UINT_MAX` it becomes `long` |
| Literals.StringLiteralValue | src/tokenize.cpp:347-369 | the constructor's loops compute the string's length and value |
| Literals.PlainStringLiteral | src/tokenize.cpp:347-369 | a string without escapes has its length and no value bytes |
| Literals.EscapesCounted | src/tokenize.cpp:350-368 | the value holds at most `length` bytes |
| Literals.SignExtend | src/tokenize.cpp:374-375 | a `char` widens to `unsigned int` by sign extension |
| Literals.CharLiteral | src/tokenize.cpp:371-381 | a character literal's value is its character, sign-extended |
| Literals.NewlineCharLiteral | src/tokenize.cpp:371-381 | `'\n'` has the value 10 |
| Tokenizer.SkipSpace | src/tokenize.cpp:400-407 | the white space skipped is exactly the run before the next character |
| Tokenizer.SkipSpaces | src/tokenize.cpp:400-407 | the loop skips that run |
| Tokenizer.SkipBlockComment | src/tokenize.cpp:420-431 | the comment loop computes where the comment ends |
| Tokenizer.BlockCommentEnd | src/tokenize.cpp:420-431 | a comment ends at or after the cursor, inside the string, on the same line or a later one; Positions.BlockCommentEndTracks states how its newlines are counted |
| Tokenizer.IntegerSuffixEnd | src/tokenize.cpp:501-517 | an integer suffix ends inside the string |
| Tokenizer.FloatSuffixEnd | src/tokenize.cpp:496-500 | a floating suffix ends inside the string |
| Tokenizer.Mantissa | src/tokenize.cpp:461-473 | the mantissa's digits take at least the first character |
| Tokenizer.FractionEnd | src/tokenize.cpp:475-479 | the fraction ends inside the string, and makes the literal floating exactly when a `.` comes first |
| Tokenizer.ExponentEnd | src/tokenize.cpp:481-494 | an exponent takes at least its letter, or fails past it |
| Tokenizer.ScanMantissa | src/tokenize.cpp:461-473 | the digit loops compute the mantissa |
| Tokenizer.ScanExponent | src/tokenize.cpp:481-494 | the exponent loop computes its end or the error |
| Tokenizer.ScanSuffix | src/tokenize.cpp:496-517 | the suffix code computes the suffix's end |
| Tokenizer.ScanNumber | src/tokenize.cpp:459-517 | the number loops compute the number's extent |
| Tokenizer.NumberEnd | src/tokenize.cpp:459-517 | a number advances the cursor, or fails for an exponent without digits |
| Tokenizer.StringEnd | src/tokenize.cpp:528-547 | the string ends just past its closing quote |
| Tokenizer.ScanString | src/tokenize.cpp:528-547 | the loop computes that end |
| Tokenizer.CharEnd | src/tokenize.cpp:555-573 | the character literal ends just past its closing quote |
| Tokenizer.ScanChar | src/tokenize.cpp:555-573 | the loop computes that end |
| Tokenizer.NumberItem | src/tokenize.cpp:459-527 | a number token advances the cursor on its line, or fails at or after it |
| Tokenizer.StringItem | src/tokenize.cpp:528-554 | a string token advances the cursor on its line, or fails at or after it |
| Tokenizer.CharItem | src/tokenize.cpp:555-580 | a character token advances the cursor on its line, or fails at or after it |
| Tokenizer.OperatorItem | src/tokenize.cpp:432-441 | an operator token advances the cursor on its line |
| Tokenizer.IdentifierItem | src/tokenize.cpp:442-458 | an identifier or a `true`/`false`/`nullptr` literal advances the cursor on its line |
| Tokenizer.WordItem | src/tokenize.cpp:442-582 | whatever follows the operators advances the cursor on its line, or fails at or after it |
| Tokenizer.NumberToken | src/tokenize.cpp:459-527 | the code for numbers computes the number token |
| Tokenizer.StringToken | src/tokenize.cpp:528-554 | the code for strings computes the string token |
| Tokenizer.CharToken | src/tokenize.cpp:555-580 | the code for characters computes the character token |
| Tokenizer.IdentifierToken | src/tokenize.cpp:442-458 | the code for identifiers computes the identifier token |
| Tokenizer.WordToken | src/tokenize.cpp:442-582 | the chain of branches after the operators computes the word token |
| Tokenizer.Next | src/tokenize.cpp:412-589 | each step advances the cursor, or fails at or after it |
| Tokenizer.NextToken | src/tokenize.cpp:412-589 | the loop body computes that step |
| Tokenizer.LexFrom | src/tokenize.cpp:398-590 | an error carries a line and a column at or after the cursor's |
| Tokenizer.LexAt | src/tokenize.cpp:412-589 | from the first character of a pass, an error carries a line at or after the cursor's and a column of at least 1 |
| Tokenizer.LexPass | src/tokenize.cpp:398-590 | one pass of the main loop ends the lexing with its outcome, or goes on from a later cursor with the same outcome |
| Tokenizer.LexPassAt | src/tokenize.cpp:412-589 | the same for the part of the pass after the white space |
| Tokenizer.LexFromEnd | src/tokenize.cpp:409-410 | at the end only white space remains and the tokens are complete |
| Tokenizer.LexFromError | src/tokenize.cpp:581-596 | a failing step ends the lexing with its line and column |
| Tokenizer.LexFromToken | src/tokenize.cpp:584-589 | a successful step appends its token and goes on |
| Tokenizer.Tokenize | src/tokenize.cpp:390-599 | `tokenize` computes the lexing of the whole string |
| Tokenizer.IdentifierNotOperator | src/tokenize.cpp:432-446 | an identifier is never spelled like a table entry |
| Tokenizer.IdentifierShape | src/tokenize.cpp:442-446 | identifiers are maximal `[A-Za-z_][A-Za-z0-9_]*` |
| Tokenizer.IdentifierMatchesItself | src/tokenize.cpp:442-446 | the identifier run starts at the cursor |
| Tokenizer.IdentifierItemWellFormed | src/tokenize.cpp:442-458 | an identifier token is well-formed and on the cursor's line |
| Tokenizer.WordItemWellFormed | src/tokenize.cpp:442-582 | every token after the operators is well-formed and on the cursor's line |
| Tokenizer.OperatorFromTable | src/tokenize.cpp:432-441 | an operator's text is a table entry |
| Tokenizer.NextWellFormed | src/tokenize.cpp:412-589 | every token made is well-formed and on the cursor's line |
| Tokenizer.LexFromWellFormed | src/tokenize.cpp:398-590 | the loop extends the tokens so far with well-formed tokens in line order |
| Tokenizer.LexWellFormed | src/tokenize.cpp:390-599 | all tokens are well-formed with non-decreasing lines; an error has a line and a column of at least 1 |
| Tokenizer.LeadingDotIsOperator | src/tokenize.cpp:432-459 | a `.` is always an operator first, so the branch for numbers starting with `.` is never taken |
| Tokenizer.NumbersStartWithDigit | src/tokenize.cpp:459-527 | every number token starts with a digit |
| Tokenizer.SlashStarSlashIsComment | src/tokenize.cpp:420-431 | `/*/` closes the comment it opens |
| Tokenizer.UnterminatedStringOverruns | src/tokenize.cpp:528-547 | as written, an unterminated string steps past the end of the input |
| Tokenizer.StringEndAgrees | src/tokenize.cpp:528-547 | the corrected string scan agrees with the written one wherever that one stays in the input |
| Tokenizer.CharAtEndOverruns | src/tokenize.cpp:555-573 | as written, a lone quote at the end reads past the terminator |
| Tokenizer.CharEndAgrees | src/tokenize.cpp:555-573 | the corrected character scan agrees with the written one away from the terminator |
| Positions.LineStartOf | src/tokenize.cpp:393-406 | the start of a position's line is at or before it, just after a newline or at the start of the text, with no newline in between |
| Positions.AdvanceTracks | src/tokenize.cpp:402-406 | `str++` that counts a newline keeps the cursor's line and line start those of its position |
| Positions.SameLineTracks | src/tokenize.cpp:413-414 | a move that passes no newline keeps the cursor's line and line start those of its position |
| Positions.SkipSpaceTracks | src/tokenize.cpp:400-407 | after the white space, the cursor's line is one plus the newlines before it, and its line start is just after the last of them |
| Positions.BlockCommentEndTracks | src/tokenize.cpp:420-431 | after a block comment the same holds: the comment counts the newlines in it |
| Positions.OperatorNoNewline | src/tokenize.cpp:432-441 | an operator's text holds no newline |
| Positions.NumberNoNewline | src/tokenize.cpp:459-517 | a number's text holds no newline |
| Positions.IdentifierTracks | src/tokenize.cpp:442-458 | an identifier starts where the cursor is and carries that place's line and column |
| Positions.NumberTracks | src/tokenize.cpp:459-527 | so does a number token |
| Positions.StringTracks | src/tokenize.cpp:528-554 | so does a string literal without a newline in it |
| Positions.CharTracks | src/tokenize.cpp:555-580 | so does a character literal without a newline in it |
| Positions.WordItemTracks | src/tokenize.cpp:442-582 | so does every token after the operators |
| Positions.NextTracks | src/tokenize.cpp:412-589 | one pass keeps the cursor's line and line start those of its position, and its token carries the line and column where its text starts |
| Positions.LexFromPlaced | src/tokenize.cpp:398-590 | the main loop keeps every token so far placed at a position whose line and column it carries |
| Positions.LexPositions | src/tokenize.cpp:390-599 | where no string or character literal holds a newline, every token has line one plus the newlines before its text and column one plus the offset of its text from the line's start |
| Positions.CommentBetweenTokens | spec/tokenizerspec.cpp:147-148 | in `b`, an empty block comment, `*j`, the comment ends just before the `*`, whose column is 6, five after that of `b` |
| Positions.CommentNewlineCounted | src/tokenize.cpp:425-429 | a newline inside a block comment is counted: the text after it is on line 2, at column 3 |
| Syntax.Nearest | src/parser.cpp:147-154 | the nearest proper ancestor with one of the kinds, with none of them in between |
| Syntax.ScopeAboveOf | src/parser.cpp:147-154 | the loop of `scope_above` finds the nearest enclosing scope block |
| Syntax.ScopeOf | src/parser.cpp:121-141 | the loop of `scope` computes the scope, or the throw when there is none |
| Syntax.ScopeBelow | src/parser.cpp:160-173 | the scope block found below is a proper descendant of a scope kind |
| Syntax.ScopeBelowFirst | src/parser.cpp:160-173 | it is the first such descendant in pre-order, and when none is found no proper descendant has a scope kind |
| Syntax.ScopeBelowFrom | src/parser.cpp:160-173 | a scope block found from child `i` on lies below one of those children |
| Syntax.ScopeBelowOf | src/parser.cpp:160-173 | the recursive loop of `scope_below` computes it |
| Syntax.FirstTokenIsFirstLeaf | src/parser.cpp:210-223 | `first_token` is the first leaf in pre-order, or none |
| Syntax.FirstTokenOf | src/parser.cpp:210-223 | the recursive loop of `first_token` computes it |
| Syntax.RisesToPrefix | src/parser.cpp:96-104 | rising through scope blocks meets exactly the scope blocks above the node |
| Syntax.SeesOf | src/parser.cpp:91-105 | the loop of `sees` computes visibility: null declarations are seen, and otherwise the declaration's scope block encloses the node |
| Syntax.SeesInNs | src/parser.cpp:108-112 | inside a namespace, a declaration is seen exactly when its scope block is that namespace |
| Syntax.SeesInNsOf | src/parser.cpp:108-112 | `sees_in_ns` computes the visibility `SeesInNs` defines |
| Syntax.Attach | src/parser.cpp:26-31 | the constructor appends the new node as the parent's last child |
| Syntax.Detach | src/parser.cpp:77-81 | `detach` removes exactly that child and keeps the others in order |
| Syntax.DetachAttached | src/parser.cpp:26-81 | detaching a node just attached restores the parent |
| Syntax.ContractNode | src/parser.cpp:181-204 | the erase-and-splice loop computes the contracted tree |
| Syntax.ContractFlat | src/parser.cpp:195-197 | after `contract` no intermediate node is left |
| Syntax.ContractMergesSameType | src/parser.cpp:186-197 | no node that `contract` keeps has a child of its own type |
| Syntax.ContractIdle | src/parser.cpp:181-204 | a contracted tree is left as it is |
| Syntax.ContractIdempotent | src/parser.cpp:181-204 | contracting twice is contracting once |
| Syntax.ContractKeepsLeaves | src/parser.cpp:181-204 | the tokens, left to right, are unchanged |
| Syntax.IntermediateShieldsSameType | src/parser.cpp:186-197 | a same-type child below an intermediate one survives |
| Syntax.Merge | src/parser.cpp:236-240 | the last child goes and the first token reads the merged operator |
| Syntax.FixRightShiftsOf | src/parser.cpp:229-258 | the loop of `fix_right_shifts` computes the fixed tree |
| Syntax.FixWithoutShiftNodes | src/parser.cpp:229-258 | a tree without shift or assignment operators is unchanged |
| Syntax.FixIdempotent | src/parser.cpp:229-258 | fixing twice is fixing once |
| Syntax.AssignmentShiftMerged | src/parser.cpp:231-241 | `>` `>=` under an assignment operator becomes the one token `>>=` |
| Parser.SeededKeywords | src/parser.cpp:938-951 | the 68 keywords are seeded with null declarations |
| Parser.KeywordSeen | src/parser.cpp:279-281 | true exactly when an entry with the text is visible |
| Parser.IdentifierIsNoKeyword | src/parser.cpp:271-300 | with no name or the token's own, `is_identifier` is `!is_keyword` |
| Parser.OtherNameNeither | src/parser.cpp:274-290 | with another name, the token is neither keyword nor identifier |
| Parser.SeededKeywordsSeen | src/parser.cpp:91-94 | against the seeded list, a word is a keyword exactly when it is one of the 68 |
| Parser.IsKeywordOf | src/parser.cpp:271-284 | the loop of `is_keyword` computes it |
| Parser.IsIdentifierOf | src/parser.cpp:287-300 | the loop of `is_identifier` computes it |
| Parser.TriviallyBalanced | src/parser.cpp:303-323 | takes one non-bracket token as one child, and otherwise returns `b` |
| Parser.InOperatorTable | src/parser.cpp:377-384 | the table loop finds exactly the operators in the table |
| Parser.OverloadableOperatorMatch | src/parser.cpp:333-401 | succeeds exactly on `new` or `delete`, an empty `()` or `[]` whose closing bracket is in range, or an operator of the table; takes three tokens exactly for `new[]`/`delete[]` inside the range; next stays in range, and a failure returns `b` and adds nothing |
| Parser.NewAtEndReadsPastRange | src/parser.cpp:345-350 | as written, a final `new` reads past the range |
| Parser.ParenAtEndReadsPastRange | src/parser.cpp:365-370 | as written, a final `(` reads past the range |
| Parser.OverloadableOperatorAgrees | src/parser.cpp:333-401 | where the written code stays in range it agrees with the guarded one |
| Parser.CallOperatorTakesOpenOnly | src/parser.cpp:363-401 | `(` `)` is matched as the one token `(` |
| Parser.FirstVisible | src/parser.cpp:591-604 | the first entry with the text that is visible, and none before it |
| Parser.FirstVisibleOf | src/parser.cpp:591-604 | the search loop finds it |
| Parser.NameMatch | src/parser.cpp:587-636 | a name matcher takes one identifier with a visible entry, giving its node that entry's completion |
| Parser.RightShift | src/parser.cpp:761-813 | succeeds exactly on `>` then the second operator in the next column, adding both tokens to the parent |
| Parser.RightShiftAssignmentFixed | src/parser.cpp:791-813 | what `sv_right_shift_assignment` adds becomes `>>=` |
| Parser.RightShiftFixed | src/parser.cpp:761-788 | what `sv_right_shift` adds becomes `>>` |
| Parser.Bump | src/parser.cpp:320 | the watermark never goes back and covers a success's cursor |
| Parser.Answer | src/parser.cpp:303-813 | a hand-written matcher stays in range, and advances exactly when it succeeds |
| Parser.OverloadableOperatorAccounts | src/parser.cpp:333-401 | the nodes `sv_overloadable_operator` adds hold, left to right, exactly the tokens from `b` to its cursor |
| Parser.NameMatchAccounts | src/parser.cpp:587-636 | a name matcher's node holds exactly the token it takes, and a failure adds nothing |
| Parser.AnswerAccounts | src/parser.cpp:303-813 | every hand-written matcher adds exactly the tokens from `b` to its cursor, and nothing when it fails, which is what Matcher.CallAccounts requires of them |
| Parser.StartScope | src/parser.cpp:855-867 | the scope a leading nested name specifier opens |
| Parser.RepeatableScope | src/parser.cpp:875-887 | the scope a further nested name specifier opens |
| Parser.ErrorAt | src/parser.cpp:969-975 | the error carries the watermark token's position, or none at the end |
| Parser.Accept | src/parser.cpp:958-975 | the tree is accepted exactly when the root succeeded and the watermark is at the end, contracted and fixed; otherwise the error names the token at the watermark |
| Parser.FailureAtEndReadsPastRange | src/parser.cpp:966-967 | as written, a failure with the watermark at the end reads past the list |
| Parser.EmptyInputNullRoot | src/parser.cpp:962-963 | as written, empty input uses a null root |
| Parser.AcceptAgrees | src/parser.cpp:958-975 | where the written code reads nothing invalid it agrees with the guarded one |
| Parser.ParserState.constructor | src/parser.cpp:925-956 | the initial state satisfies the stack invariant and is fresh |
| Parser.ParserState.Reset | src/parser.cpp:925-956 | the watermark is at the first token, the lists are cleared and seeded, and the stack is empty |
| Parser.ParserState.Call | src/parser.cpp:303-813 | a matcher's answer, with the watermark raised to its cursor and nothing else changed |
| Parser.ParserState.NestedNameSpecifierDone | src/parser.cpp:853-890 | pushes the scope the specifier names, related to its grandparent, keeps the invariant, and leaves the name lists and the watermark as they were |
| Parser.ParserState.ClearNestedNameSpecifier | src/parser.cpp:893-907 | pops exactly when the top entry is related to the node, keeps the invariant, and leaves the name lists and the watermark as they were |
| Parser.ParserState.PushNullNamespace | src/parser.cpp:910-917 | outside a qualified id, suspends an active namespace scope, keeps the invariant, and leaves the name lists and the watermark as they were |
| Parser.ParserState.Finish | src/parser.cpp:958-975 | the outcome judged against the watermark, with `contract` and `fix_right_shifts` applied |

## Left out

- File I/O is left out: `IO.readlines`, `File.open` and `f.puts`. The loader works on a list of lines, and the C++ text the emitter writes is not modelled.
- Output is left out: `$stderr`, `exit` and `puts` become error and warning results. Message texts are not modelled.
- The float literal's value is left out (`long double` arithmetic). The model checks only a float literal's extent and suffix.
- Tokenizer.NumberItem: every float the scanner delimits becomes a token. The `lit_float_token` constructor can fail on some of these, and the model does not capture that. It throws at src/tokenize.cpp:283 on a hexadecimal float such as `0X1.8p1`: `tolower(c[1] == 'x')` at line 208 is false for an upper-case `X`, so the literal is read as decimal and its `p` exponent is left over as an unknown suffix. Its loops at lines 218-231 and 238-248 never end once a digit run overflows 64 bits, because the `continue` at lines 225 and 242 does not advance `c`.
- Positions.LexPositions: the lines and columns are proved only where no string or character literal holds a newline. The lexer does not count the newlines inside a literal, so the tokens after one carry a line the model does not relate to their position.
- Grammar.Upcase: only ASCII letters are upcased; non-ASCII letters are kept as they are. Ruby's `String#upcase` on the UTF-8 text of the script upcases them too and can change the length (`ß` becomes `SS`), so for a key such as `größe` the enumerator `const` gives is `GRÖSSE` in Ruby but `GRößE` here.
- Memory management is left out: `strdup`, `free`, `delete`, and the keyword-list purge in the destructor. `contract` drops nodes.
- The declaration hooks and `sv_class_name` are left out. They depend on the grammar file and on generated code, and neither is part of this model.
- Tree identity and aliasing are left out. The tree is a value, so parent links and the shared tokens that `fix_right_shifts` edits are not modelled. `contract` does not update the parent pointers of the children it adopts, and that is not modelled either.
- Matcher.Call: the hand-written matchers enter as a function `ext` from a name and a cursor to an answer. The emitted call passes no success flag, which differs from their signature.
- Matcher.Call: stack depth is a `fuel` bound. Running out is `Exhausted`, for the stack overflow a head recursion causes.
- Matcher.Call: a call part is resolved by its own text, as a key of the grammar. The emitted code calls `sv_` followed by `var` of the part, so two spellings that `var` makes equal, such as `foo-bar` and `foo_bar`, reach the same procedure in C++ but not in the model. A part naming the root (`name` for the key `!name`) reaches in C++ a procedure whose signature differs. The model sends a part that is not itself a key to the hand-written matchers, `ext`.
- Matcher.Root: a failing root returns the node it has just deleted. The model returns no tree.
- Rules.Compile: a `{` inside a loop, and a `}` outside one, are rejected. The emitter would accept both. A nested loop still compiles, because its `range_t l` shadows the outer one. But `in_loop` turns false at the inner `}`, so a mandatory part later in the outer loop jumps to the next alternative instead of breaking the loop. A stray `}` closes a C++ block that was never opened.
- Rules.ConditionOf: a quoted condition is accepted only for `identifier` and `operator` parts, and only without inner quotes or backslashes, since the emitted `strcmp` reads a `char *value`. A decimal integer is accepted only for `lit-integer` and `true`/`false` only for `lit-bool`. Other conditions are rejected, although the emitter pastes any condition into the C++ text.
- Parser.OverloadableOperatorMatch: the `bool *success` out-parameter is the `success` field of the reply.
- Parser.Answer: `sv_class_name` is not among the hand-written matchers.
- Syntax.SeesInNs: a null declaration inside a namespace counts as not seen.
- Syntax.FixRightShifts: a shift operator node with fewer than two children is left unchanged.

## Findings

| source | as written | input that shows it | evidently intended | confidence | as-written member | corrected member |
|---|---|---|---|---|---|---|
| src/tokenize.cpp:528-547 | the string loop's `str++` steps over the terminating NUL | `"abc` at the end of the input | report an unterminated string | not executed | Tokenizer.StringEndAsWritten | Tokenizer.StringEnd |
| src/tokenize.cpp:555-573 | after a lone `'` the closing-quote test reads past the NUL | `'` at the end of the input | report an unterminated character literal | not executed | Tokenizer.CharCloseAsWritten | Tokenizer.CharEnd |
| src/parser.cpp:345-370 | `*m` is read after `++m` without comparing `m` with `e` | a final `new`, `delete`, `(` or `[` | look no further than the range: a final `new` or `delete` is taken alone, as one token, by the code at lines 396-400, and a final `(` or `[` fails, returning `b` | not executed | Parser.OverloadableOperatorAsWritten | Parser.OverloadableOperatorMatch |
| src/parser.cpp:962-967 | `root` is used before it is tested, and `*maximum_extent` is read at the end of the list | empty input, or a failing parse whose watermark is at the end | report the failure with no position | not executed | Parser.AcceptAsWritten | Parser.Accept |
| src/create-parser.rb:168-172 | a broken loop iteration restores `m` but keeps the children it attached | `pair-list: { identifier() operator(";") }` on the single token `x` | remove the incompletely matched children, as the comment at src/parser.cpp:772-776 assumes | not executed | Matcher.BrokenIterationKeepsToken | Matcher.CallAccounts |
