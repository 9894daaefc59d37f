# Coral, verified

A Dafny model of the hard core of Coral: the compiler's lexer, expression parser, placeholder and
pipeline lowering, definite-assignment analysis, constant folder and module loader, the actor
runtime's supervision, scheduler and timers, its two allocators, and the lockfile. Each part is
modelled in the form of its source - recursive functions where the source computes, classes and
loops where it updates - and every imperative member is proved against a function whose own
properties are then theorems.

Check everything with `dafny verify dfyconfig.toml`.

## Structure

| files | part | main results |
|---|---|---|
| `Scanner`, `Lexer`, `LexLoop` | lexer (`src/lexer.rs`) | the one-pass loop with its pending queue refines reading items first and arranging layout afterwards |
| `Literals`, `Templates`, `Lexemes` | | the grammar of tokens: every way to write a literal, a template, a number, a word, a placeholder or a symbol scans to what it means, and nothing else does |
| `LexTiling`, `Outline` | | tokens tile the source; layout is balanced, and every token lies as deep as its line |
| `Margins` | | which lines are measured and how wide each is |
| `LayoutTheorem`, `Reindentation` | | the indentation stack is the chain of enclosing widths; a source lexes exactly when its lines are aligned; only the order of widths matters, so re-indenting a source keeps its tokens |
| `Grammar`, `Parser` | expression parser (`src/parser.rs`) | the recursive-descent class computes the grammar functions |
| `Forms`, `RoundTrip`, `Derivations` | | concrete grammar trees: the parser accepts exactly what a form of the grammar writes, and returns its tree |
| `Printer`, `Shortest` | | parsing undoes printing; printing is injective and as short as any token sequence for the tree |
| `Spelling`, `Frontend` | lexer and parser together | the text of a tree lexes and parses to exactly that tree |
| `Lowering`, `LoweringResidue`, `LoweringErrors`, `LoweringMeaning`, `LoweringCapture` | lowering (`src/lower.rs`) | termination, exact success condition and first error, no residue; meaning kept exactly when no name is captured |
| `DefiniteAssignment`, `Paths`, `AssignmentSound`, `AssignmentRefined`, `AssignmentExact`, `AssignmentOrder` | definite assignment (`src/semantic.rs`) | sound for every execution; exactly when its warnings are exact, and exactly what they are with jumps, for every body and scope; in the order of the text |
| `Meaning`, `Folder`, `BlockFolder`, `FoldScope`, `FoldTheorem`, `FoldLimits`, `FoldComplete` | constant folder (`src/compiler.rs`) | folding a block keeps environment, effects, outcome and value, and where it does not; it leaves nothing to fold and changes nothing else |
| `Modules` | module loader (`src/module_loader.rs`) | success exactly on sound import graphs; topological order, the prelude first and imports in the order of their lines; truthful errors |
| `Supervision` | restart limiter (`runtime/src/actor.rs`) | at most `max_restarts` in any window over a whole lineage |
| `Scheduler` | work stealing (`runtime/src/actor.rs`) | every task in exactly one place; a pass runs a task exactly when there is one, and which |
| `Timers` | timer queue (`runtime/src/actor.rs`) | punctuality, at most once, an end after cancellation, exact and ordered ticks |
| `Memory`, `Arena`, `Pool` | allocators (`runtime/src/allocator.rs`) | blocks apart, aligned, accounted for; frees match allocations |
| `Lockfile`, `LockfileLayout` | lockfile (`src/package.rs`) | the exact round-trip condition; what else may be written |
| `Ast`, `Integers`, `Numerals` | shared trees and arithmetic | bitwise operators bit by bit, the text of numbers, UTF-8 lengths |

## What the code does that its promises do not say

Each of these is a lemma or method with a concrete input, beside the exact condition under which
the promise holds.

- Code generation divides integers natively, truncating, where both operands are integers by their
  text, and divides floats elsewhere (src/codegen/mod.rs:2944-2951, :4948-4976). Folding changes the
  text: `"abcdefg".length / 2` is 3.5 and folds to `3`, and with 7 in an integer variable
  `x / (3 & 2)` is 3.5 and its folded form `x / 2` is 3. Where folding leaves two static integers,
  it is right in a run exactly when they were static integers before, or there is no remainder (and
  no overflow); over a variable it is right for all values exactly when the divisor was a static
  integer before, or is 1.
- In the same way folding an argument can select another specialised version of a function:
  `f(7, "ab".length)` runs the general `f`, its folded form the version for two integers if another
  call made one (src/codegen/mod.rs:3063-3081). It is right exactly when the version stays the same.
- `[f(), g()].length` folds to `2` and the calls are lost. For items without conditions it is right
  exactly when no item calls anything but a builtin; whatever the conditions, it is right in every
  run if there is no such call, and wrong in every run in which one cannot be avoided.
- Twelve names the folder takes for pure builtins (`length`, `clamp`, `log2`, `is_number` and others)
  are not emitted by code generation, which looks for a function or variable of that name
  (src/codegen/mod.rs:3084, :3173; `std/bytes.coral` defines `length`). A statement `clamp(3)` is
  dropped although the program's own `clamp` may log, and `length("ab")` folds to `2` although the
  program's own `length` is meant. Either is right exactly when the program has nothing of its own
  under the name that is called.
- A call of a function of the program is warned about as a use of an unassigned variable, because
  the analysis starts from the parameters alone (src/semantic.rs:4914-4917).
- A name bound on every path that reaches a read can still be warned about when other paths
  return early; and reads inside index, pipeline, throw and lambda expressions are never looked at.
  The warnings are exact if and only if they agree with a flow that takes jumps into account and
  none is about a name in scope.
- `f($ + _arg0)` captures a user's own `_arg0`. Meaning is kept exactly when no wrapped argument
  reads a name that its lambda binds.
- A call of `map` must be written `(map)(...)`, because `map(` starts a map literal.
- Arena blocks with an alignment above 16 need not be aligned. Pooled blocks with an alignment
  above 8 are given back with the wrong layout, and a request for one can be served by a cached
  block that is only aligned to 8.
- A line break in the root's name writes further lines into a lockfile, which round-trips exactly
  when its dependencies are representable and the root's lines name none.
- Cancelling a repeating timer by its id while a tick serves it or holds it in the reschedule
  buffer finds nothing and cancels nothing: it works exactly when the timer is in the heap. The
  timer's own token always works.

## Modelling choices

- Numbers are reals and integer literals are exact up to 2^53; a folded literal counts as exact when
  the runtime's own result would be that number. Integer arithmetic of the folder wraps at 64 bits.
- Operations, comparisons and range loops whose operands are static integers are native: they
  truncate their operands to 64 bits, wrap, and divide toward zero. Which variables are native
  integers, which functions are inferred to return integers, the types of other names and the
  specialised versions of functions are parameters, fixed by type inference before folding
  (src/compiler.rs:302-308), and the theorems hold for all of them. What code generation does
  with values it knows to be numbers or booleans is the same as without that knowledge.
- The folder's runtime is a record of arbitrary functions - operations, calls, members, list
  building and loops - so the theorem holds for every semantics that satisfies the few laws of
  `length` and `to_string`. `while` loops carry a bound on iterations, and the theorem holds for
  every bound. `continue` goes on with the next element. A lambda's value is made by the runtime from
  what the lambda does to its arguments and the effects so far; lambdas that do the same are the
  same value. Inside a lambda no variable is native, and captured names have types of their own.
- A called name is resolved as code generation does it: the builtins it emits itself
  (src/codegen/builtins.rs:1051), then the program's functions, then the variables bound at that
  moment. The program's functions are any set of names. A pure builtin's name that is found nowhere
  means the builtin that the folder takes it for; code generation reports it as unknown.
- Definite assignment ranges over all executions by sequences of choices that decide every branch,
  short circuit and loop test. The builtin names are a parameter. The analysis knows only the
  parameters of a body, as in the source; executions may have any further names in scope.
  Identifiers are ASCII, as the lexer reads them (src/lexer.rs:406-416), so lowercase means `a` to `z`.
- The parser's binary levels are one method with a level, from the pipeline at 1 to `*`, `/` and
  `%` at 11; the token at a level is found by the same table. Source positions are kept on
  identifiers only, where a warning needs one.
- Text is a sequence of characters and positions count characters. Keywords and operators are told
  apart by their spelling.
- The file system of the module loader is a map from canonical paths to lines in which every `use`
  line already says what it resolves to. Whether a prelude is loaded is a parameter.
- Clocks, actor ids taken by other actors, the number of tasks a steal moves and the start of a sweep
  are parameters or arbitrary choices. The step methods of the scheduler are the atomic operations of
  the source, and so are `TakeId`, `Push`, `CancelToken`, `Cancel`, `Pop`, `CheckFirst`, `Send`,
  `CheckAgain` and `Reschedule` of the timer queue, so what they keep holds under every interleaving.
- The system allocator gives out fresh, aligned blocks apart from all others, and never runs out.

## Model

| member | source | states |
|---|---|---|
| Scanner.SkipRun | src/lexer.rs:409-416 | a run ends at the first character outside its class |
| Scanner.RunEnd | src/lexer.rs:409-416 | the run is the longest: all its characters are in the class and the next is not |
| LexLoop.ReadNumber | src/lexer.rs:247-405 | decimal, hexadecimal, binary and octal literals: where each ends, its value without separators, and the errors for no digits and for more than 63 bits |
| LexLoop.ReadWord | src/lexer.rs:406-516 | the longest word, its keyword or name, and bytes literals |
| LexLoop.ReadQuoted | src/lexer.rs:517-570 | the text between double quotes with its escapes, or the first error |
| LexLoop.ReadInterpolation | src/lexer.rs:981-1043 | the source up to the matching brace, at most 64 deep and not blank |
| LexLoop.ReadTemplate | src/lexer.rs:571-747 | the fragments of a template, with escapes and interpolations in order |
| LexLoop.ReadDollar | src/lexer.rs:902-929 | the saturating 32-bit loop computes the index; `$0` is refused |
| LexLoop.ReadToken | src/lexer.rs:247-957 | the dispatch reads the token that starts at a position |
| LexLoop.Measure | src/lexer.rs:141-174 | width with four per tab, and which of spaces and tabs occur |
| LexLoop.Unwind | src/lexer.rs:194-201 | exactly the levels deeper than the line are popped, with one dedent each |
| LexLoop.Tokenize | src/lexer.rs:117-979 | the single loop with its pending queue computes what reading and arranging in two passes say, with the same first error |
| LexTiling.ReadTiles | src/lexer.rs:127-258 | reading leaves out only trivia |
| LexTiling.LexTiles | src/lexer.rs:117-979 | on every successful lex the tokens lie in order, apart and inside the source, each is what its characters spell, and only blanks, carriage returns and comments are left out |
| LexTiling.TilesAreOrdered | src/lexer.rs:127-258 | any two tokens are in source order and disjoint |
| LexTiling.UncoveredIsSkipped | src/lexer.rs:229-246 | every character outside all tokens is blank, a carriage return, or in a comment that starts outside all tokens |
| LexTiling.ArrangeBalances | src/lexer.rs:182-226 | from any stack, exactly its depth is closed |
| LexTiling.LexIsBalanced | src/lexer.rs:960-978 | no prefix has more dedents than indents, the totals agree, and the end of file comes once and last |
| Outline.LexIsOutlined | src/lexer.rs:182-226 | every token of a lexed source lies in as many open blocks as its line has enclosing lines; behind them come a newline, if the last line is not ended, and the end of file |
| Outline.LayoutStandsAtLines | src/lexer.rs:182-226 | blocks open only where a line begins, and close there or at the end |
| Outline.ArrangeFailsRightly | src/lexer.rs:194-222 | a source that reads to its end and does not lex is refused for the first line that is not aligned: one that returns to no enclosing width, or to one of the other style, and which of the two is reported |
| Margins.WidthCounts | src/lexer.rs:141-157 | a space is one column wide and a tab four, in any order |
| Margins.LinesAreMeasured | src/lexer.rs:127-180 | exactly the lines with something on them are measured, from behind the newline and carriage returns to the first other character, with their width and style; reading stops only at an indentation of both kinds or at a token that does not scan |
| Literals.QuotedScansExactly | src/lexer.rs:517-570 | scanning behind a double quote succeeds on exactly what is written in plain and escaped characters and closed, and gives what they mean |
| Literals.QuotedHalts | src/lexer.rs:517-570 | behind the characters that can be read stands the closing quote, or an unknown escape or the end of the source, each reported at its place |
| Templates.TemplatesScanExactly | src/lexer.rs:571-747 | a template scans on exactly a single quote, literals and interpolations in turn and a single quote; it gives each literal's text, with escapes and code points, and each interpolation's source, all in their places, or a plain string if there is no interpolation |
| Templates.PartsRead | src/lexer.rs:571-747 | writing and scanning cancel: every list of nonempty literals and non-blank interpolations, no two literals side by side, is read back from any way to write it |
| Templates.InterpolationFails | src/lexer.rs:981-1043 | an interpolation the source ends in, or one that opens a sixty-fifth brace, is refused at its own brace |
| Templates.TemplateFailsRightly | src/lexer.rs:582-734 | a template that does not scan is refused for what is wrong with it at one of its characters |
| Lexemes.SeparatorsVanish | src/lexer.rs:257-270 | separators count for nothing |
| Lexemes.RadixNumbersScan | src/lexer.rs:251-366 | a mark, digits of its radix in either case and separators scan to their value, or to the error for no digits or for too many |
| Lexemes.WholeNumbersScan | src/lexer.rs:371-405 | so do decimal digits without a dot |
| Lexemes.DottedNumbersScan | src/lexer.rs:371-405 | digits, a dot and digits are one number up to the first character that is none of theirs, a second dot included |
| Lexemes.WordsScan | src/lexer.rs:406-516 | the longest word is a keyword or a name, unless it starts bytes |
| Lexemes.BytesScanExactly | src/lexer.rs:418-466 | bytes are exactly `b` or `B` and escaped characters between double quotes right behind it, without `\'` among the escapes |
| Lexemes.StringsScanExactly | src/lexer.rs:517-570 | a string is exactly escaped characters between double quotes |
| Lexemes.PlaceholdersScan | src/lexer.rs:902-929 | a dollar sign and the longest run of digits scan to the index, at most 32 bits; zero is refused |
| Lexemes.SymbolsScan | src/lexer.rs:748-957 | elsewhere the longest of the thirty-one symbols is read, and where there is none the character is unexpected |
| LayoutTheorem.StackIsEnclosingChain | src/lexer.rs:182-226 | the indentation stack holds exactly the outermost level and the levels of earlier lines that no later line undercut, and ends with the last line's width |
| LayoutTheorem.FollowsExactly | src/lexer.rs:182-226 | lines are accepted exactly when each is deeper than the one before or returns to an enclosing level in its style |
| LayoutTheorem.LexSucceedsExactly | src/lexer.rs:117-979 | a source lexes exactly when every token scans, no indentation is mixed, and every line is aligned |
| LayoutTheorem.ArrangeMatches | src/lexer.rs:182-226 | stacks and lines whose widths compare alike give the same kinds of tokens, up to positions inside templates, or the same failure |
| LayoutTheorem.OnlyOrderMatters | src/lexer.rs:141-226 | two sources that differ only in line widths, not in how the widths compare, lex to the same kinds, up to positions inside templates, or fail for the same reason |
| Reindentation.ScanShifts | src/lexer.rs:247-957 | reading a token does not depend on what stands before it, up to positions |
| Reindentation.ScanAgrees | src/lexer.rs:247-957 | nor on what follows the line it ends on |
| Reindentation.ReindentedReads | src/lexer.rs:127-258 | a source whose lines get other indents has the same items but for the indents, and the same kind of error, whatever spans several lines |
| Reindentation.ReindentingKeepsTokens | src/lexer.rs:117-979 | giving the lines of any source other indents in the same styles, with widths in the same order, keeps the kinds of its tokens or the kind of its error |
| Parser.Parser.Matches | src/parser.rs:3201-3208 | consumes a token exactly when it is of the given kind |
| Parser.Parser.ParseExpression | src/parser.rs:1405-1466 | ternaries, right associative, and the guard exceptions, as the grammar says |
| Parser.Parser.ParseLadder | src/parser.rs:1468-1686 | the eleven loops of the ladder build left-associated trees, as the grammar says |
| Parser.Parser.ParseUnary | src/parser.rs:1688-1720 | prefix minus and bang |
| Parser.Parser.ParseCall | src/parser.rs:1722-1800 | calls, members and indexes, in any order |
| Parser.Parser.ParseArguments | src/parser.rs:1868-1952 | positional arguments up to the closing parenthesis |
| Parser.Parser.ParseItems | src/parser.rs:2308-2396 | comma-separated items up to the closing token |
| Parser.Parser.ParseTuple | src/parser.rs:2062-2081 | the items behind a first comma in parentheses, with a trailing comma allowed |
| Parser.Parser.ParsePrimary | src/parser.rs:1954-2090 | literals, names, placeholders, parentheses and lists |
| Parser.Parser.ParseParens | src/parser.rs:2055-2085 | unit, a group, or a list |
| Parser.ParseRendered | src/parser.rs:1405-1800 | running the parser over a rendered tree returns the tree and reads every token |
| RoundTrip.ParseSpelled | src/parser.rs:1405-1800 | wherever a rendered tree stands, at every level and before any token that stops it, the parser returns the tree and stops behind it |
| Forms.FormOfRenders | src/parser.rs:1405-2085 | the printer's tokens for a tree are those of a form of the grammar with that tree |
| RoundTrip.ParseForm | src/parser.rs:1405-2085 | wherever a form of the grammar stands, at every level it may stand at and before any token that stops it, the parser returns its tree and stops behind it |
| Derivations.ParsesExactly | src/parser.rs:1405-2085 | for every token sequence and tree, the parser reads the sequence as the tree and to its end exactly when some form of the grammar writes the tree in it |
| Derivations.ParsesUpTo | src/parser.rs:1405-2085 | the parser reads a tree up to any token but a colon exactly when some form writes the tree in the tokens before it and the token cannot continue it |
| Derivations.GrammarIsUnambiguous | src/parser.rs:1405-2085 | forms written alike have the same tree |
| Derivations.ParenthesesParse | src/parser.rs:2055-2085 | parentheses around an expression, needed or not, change nothing; around two or more items, or one and a comma, with or without a comma behind the last, they give exactly the list |
| Derivations.TwoOperatorsParse | src/parser.rs:1482-1686 | of two operators in a row the tighter on the ladder takes the operand between them, and of two on one rung the left one |
| RoundTrip.ParseUndoesRender | src/parser.rs:1405-1800 | parsing a tree rendered with parentheses only where the ladder needs them returns exactly that tree with no tokens left |
| RoundTrip.RenderIsInjective | src/parser.rs:1405-1800 | two trees never render alike |
| RoundTrip.BareCallsParse | src/parser.rs:1954-2090 | a call written without parentheses around its name parses to the call exactly when the name is not `map`; with the printer's parentheses it always does |
| Shortest.ExpressionFits | src/parser.rs:1405-1466 | whatever an expression parses from is at least as long as the tree's rendering |
| Shortest.RenderIsShortest | src/parser.rs:1405-1800 | every token sequence that parses completely is at least as long as the rendering of its tree, which parses to the same tree |
| Spelling.NumberScans | src/lexer.rs:371-405 | a number written in decimal scans to its value |
| Spelling.RadixScans | src/lexer.rs:251-366 | so does one written in hexadecimal, octal or binary |
| Spelling.DollarScans | src/lexer.rs:902-929 | a written placeholder scans to its index |
| Spelling.EscapedScans | src/lexer.rs:517-570 | scanning an escaped text gives the text back |
| Spelling.SpelledScans | src/lexer.rs:247-957 | every written token scans to itself and ends where it was written to end |
| Spelling.PropertiesAreSpelled | src/parser.rs:1760-1800 | behind a dot a word or a keyword names a property as it is spelled, and nothing else does |
| Spelling.SpelledLexes | src/lexer.rs:117-979 | lexing written tokens gives them back, then a newline and the end of file |
| Frontend.TextRoundTrips | src/parser.rs:1405-1800 | the text of every writable tree lexes, and its tokens parse to exactly that tree |
| Frontend.ReadBack | src/lexer.rs:117-979 | running the lexer's loop and the parser over the text of a tree returns the tree |
| Frontend.TextIsInjective | src/parser.rs:1405-1800 | two trees are never written alike |
| Lowering.Lower | src/lower.rs:313-503 | lowering ends, by the number of pipelines and then the tree, although a pipeline lowers a larger call; its result has no pipeline |
| Lowering.LowerCallArguments | src/lower.rs:527-553 | the argument loop lowers and wraps each argument or stops at the first error |
| Lowering.LowerCollection | src/lower.rs:505-525 | the item loop lowers all items and merges their placeholders |
| Lowering.WrapPlaceholderLambda | src/lower.rs:629-656 | the parameters are as many as the largest index, and a gap in the indexes is reported at its first place |
| LoweringResidue.LowerIsNormal | src/lower.rs:313-455 | the reported indexes are exactly the placeholders left in the result, and none is left inside calls and lambdas |
| LoweringResidue.LowerKeepsNormal | src/lower.rs:313-455 | lowering a lowered expression changes nothing |
| LoweringResidue.ClosedLeavesNoResidue | src/lower.rs:698-704 | what a statement accepts has no placeholder and no pipeline, and lowers to itself |
| LoweringResidue.WrapSucceedsExactly | src/lower.rs:752-765 | wrapping succeeds exactly when no index below the largest is missing |
| LoweringResidue.LowerSucceedsExactly | src/lower.rs:313-627 | lowering succeeds on exactly the expressions whose placeholders stand in arguments with no index missing and not in callees or left of pipelines, and whose pipelines end in calls or names |
| LoweringResidue.FilledExactly | src/lower.rs:1033-1064 | a pipeline fills placeholders, instead of passing the left side first, exactly when its call's arguments hold one outside lambdas and inner pipelines |
| LoweringErrors.LowerReportsFirst | src/lower.rs:313-656 | which error is reported is decided by the text: the first in reading order, for every expression |
| LoweringErrors.ClosedReportsFirst | src/lower.rs:698-704 | a statement reports what lowering reports, and otherwise a placeholder that is left over |
| LoweringErrors.GapIsLeast | src/lower.rs:752-765 | the missing index that is reported is the least |
| LoweringMeaning.WrappedBodyMeaning | src/lower.rs:767-878 | the body of a wrapped argument with `_arg0`, `_arg1`, ... bound means the argument with `$1`, `$2`, ... read as the same values |
| LoweringMeaning.WrapMeaning | src/lower.rs:629-656 | the lambda built for an argument is the function of its placeholders |
| LoweringMeaning.FilledMeaning | src/lower.rs:1066-1154 | replacing placeholders by the left side means reading them as its value |
| LoweringMeaning.DesugarMeaning | src/lower.rs:577-627 | a pipeline means its call with the left value first, or in place of the placeholders |
| LoweringMeaning.LowerNames | src/lower.rs:313-503 | lowering makes no name free |
| LoweringMeaning.LowerKeepsMeaning | src/lower.rs:313-656 | every expression that lowers, and captures no name, means what it meant |
| LoweringMeaning.CaptureChangesMeaning | src/lower.rs:636-646 | with a captured name the meaning changes: a concrete case |
| LoweringCapture.Reflects | src/lower.rs:313-656 | in the semantics of terms, an expression that still means the same once lowered captures no name, and depends on every name it reads |
| LoweringCapture.HygieneIsExact | src/lower.rs:313-656 | for every expression that lowers: the meaning is kept in terms exactly when no wrapped argument reads a name its lambda binds, so every capture changes the meaning somewhere |
| DefiniteAssignment.Checker.Uses | src/semantic.rs:5043-5105 | warns about each walked occurrence of an eligible unbound name, in order |
| DefiniteAssignment.Checker.Block | src/semantic.rs:4921-4928 | the names bound behind a block and the warnings inside it |
| DefiniteAssignment.Checker.OnCopy | src/semantic.rs:4984-5031 | loop bodies and branches are checked on a copy of the bound names |
| DefiniteAssignment.Checker.IfStatement | src/semantic.rs:4947-4983 | only names bound in every branch of a chain with `else` stay bound |
| DefiniteAssignment.Checker.Statement | src/semantic.rs:4930-5041 | the effect of every statement on bound names and warnings |
| AssignmentSound.BlockSound | src/semantic.rs:4921-4928 | the analysis set stays inside the live environment in every execution |
| AssignmentSound.AnalysisIsSound | src/semantic.rs:4910-5105 | in every execution an unbound read of an eligible name at a walked occurrence was warned about |
| AssignmentRefined.RefinedBlockSound | src/semantic.rs:4921-5041 | the flow that takes jumps into account is sound for every execution: its bound names are bound in each run that gets past the code, and its warnings cover all unbound reads |
| AssignmentExact.ReachBlockHits | src/semantic.rs:4921-5105 | for every body, with or without jumps, each warning of that flow has an execution that performs its unbound read, from any scope without the name |
| AssignmentExact.RefinedIsExact | src/semantic.rs:4910-5105 | for every body and every scope, an occurrence is read unbound by some execution exactly when that flow warns about it and its name is not in scope |
| AssignmentExact.AnalysisIsExact | src/semantic.rs:4910-5105 | the analysis warns about exactly the unbound reads if and only if each of its warnings is one of that flow and is not about a name in scope |
| AssignmentExact.JumpFreeIsExact | src/semantic.rs:4910-5105 | without jumps, a warning is deserved exactly when its name is not in scope |
| AssignmentExact.WarnsAsWithoutJumps | src/semantic.rs:4944-4983 | with jumps, for any scope that holds the parameters, exactly the occurrences not in scope are warned about that some execution reads unbound once `return e` is the statement `e` and `break` and `continue` do nothing |
| AssignmentExact.OwnFunctionIsWarnedAbout | src/semantic.rs:4914-4917 | a call of a function that is in scope is warned about |
| AssignmentExact.JumpsLosePrecision | src/semantic.rs:4944-4983 | a warning that no execution deserves, because of a return |
| AssignmentExact.IndexIsNotWalked | src/semantic.rs:5102-5103 | an unbound read that is never looked at |
| AssignmentExact.WarningsAreWalked | src/semantic.rs:5043-5105 | every warning is about an occurrence outside indexes, pipelines, throws and lambdas |
| AssignmentExact.HiddenReadsAreSilent | src/semantic.rs:5043-5105 | in every execution of every expression whose places are told apart, a read inside those is never warned about |
| AssignmentOrder.WarningsAreInOrder | src/semantic.rs:4921-5105 | the warnings are some of the names in the text, in its order, each occurrence at most once |
| Folder.FoldIntsMeaning | src/compiler.rs:710-725 | folded integer operations are what floats compute on those numbers, where exact |
| Folder.FoldNativeMeaning | src/codegen/mod.rs:4396-4467 | they are what native integers compute, on all 64-bit integers |
| Folder.FoldBinaryMeaning | src/compiler.rs:700-759 | a folded binary operation has the value and the effects of the original, native or not |
| Folder.FoldCallMeaning | src/compiler.rs:806-970 | folded `length` and `to_string` calls have the value and the effects of the originals, where `length` is the builtin |
| Folder.FoldExprMeaning | src/compiler.rs:698-1033 | folding an expression keeps its value and its effects in every environment |
| Folder.FoldLambdaMeaning | src/compiler.rs:1022-1029 | a folded lambda has the same parameters and, for all arguments, environments and effects so far, the same value and effects: it is the same function |
| Folder.PureDeadIsEffectless | src/compiler.rs:1375-1411 | what counts as dead code makes only builtin calls exactly when the program has nothing of its own under the called names that are not emitted |
| Folder.EffectlessKeepsTrace | src/codegen/mod.rs:3029-3173 | an expression that calls only builtins, under any names the run can find, leaves no trace |
| BlockFolder.FoldBlock | src/compiler.rs:474-696 | the loop that rebuilds the statements and then drops dead ones computes the folded block |
| BlockFolder.FoldStatement | src/compiler.rs:476-682 | the statements each statement folds to |
| BlockFolder.FoldIf | src/compiler.rs:490-585 | a chain with a literal condition is spliced or pruned, any other rebuilt |
| BlockFolder.FoldElifs | src/compiler.rs:568-573 | all branches of a chain are folded |
| BlockFolder.PruneElifs | src/compiler.rs:509-566 | behind a false condition, false branches go, a true one is spliced, and the first undecided one takes over the chain |
| BlockFolder.Retain | src/compiler.rs:685-691 | exactly the dead expression statements are dropped, in order |
| FoldTheorem.SpliceMeaning | src/compiler.rs:500-508 | splicing a block's statements and value does what the block did |
| FoldTheorem.LiveMeaning | src/compiler.rs:685-691 | dropping dead statements whose calls reach builtins changes nothing observable |
| FoldTheorem.PruneMeaning | src/compiler.rs:509-566 | pruning a chain behind a false condition keeps what it does |
| FoldTheorem.FoldWhileMeaning | src/compiler.rs:586-598 | folding condition and body keeps a loop, under every bound |
| FoldTheorem.FoldBlockMeaning | src/compiler.rs:474-696 | for every runtime, program, state and bound, the folded block has the same final environment, effects, outcome and value, if its folds are exact for the names the run can find |
| FoldScope.StmtsStayCovered | src/codegen/mod.rs:3084-3173 | a run binds only names its statements bind, so what a call can find never grows beyond them |
| FoldLimits.DivisionsAgree | src/codegen/mod.rs:4416-4422 | native and float division agree exactly when there is no remainder and no overflow |
| FoldLimits.FoldedDivisionExact | src/codegen/mod.rs:2944-2951 | where folding leaves static integers, a folded division is right in a run exactly when its operands were static integers before, or the numbers leave no remainder and do not overflow |
| FoldLimits.FoldedDivisorExact | src/codegen/mod.rs:4948-4976 | over a native variable and a literal divisor it is right for all values exactly when the divisor was a static integer before, or is 1 |
| FoldLimits.FoldedDivisionCanLose | src/codegen/mod.rs:2944-2951 | `"abcdefg".length / 2` and `x / (3 & 2)` at 7 are 3.5 and fold to 3; `7 / 2` is 3 either way |
| FoldLimits.FoldedZeroDivision | src/codegen/mod.rs:4416-4422 | a divisor that folds to 0 turns a float division into a native one |
| FoldLimits.FoldedArgumentsExact | src/codegen/mod.rs:3063-3081 | folding the arguments of a call of the program's function is right exactly when they select the same version of it |
| FoldLimits.FoldedArgumentsCanSpecialise | src/codegen/mod.rs:1632-1691 | `f(7, "ab".length)` selects no version and its folded form selects the one for integers |
| FoldLimits.FoldedRangeCanTurnNative | src/codegen/mod.rs:2459-2465 | `0 to "abc".length` counts on floats and its folded form natively |
| FoldLimits.StraightIsDecided | src/compiler.rs:992-1002 | an expression without conditions either acts in every run or has no effect in any, by its text |
| FoldLimits.FoldedLengthDecided | src/compiler.rs:992-1002 | folding the length of a list, as a member or a call, is right in every run when its items call only builtins, and wrong in every run when a call cannot be avoided or `length` is the program's own |
| FoldLimits.FoldedLengthExact | src/compiler.rs:992-1002 | for items without conditions it is right exactly when the text of the items calls only builtins and `length(...)` is one |
| FoldLimits.FoldedLengthLosesCalls | src/compiler.rs:992-1002 | any call among the items that is not a builtin's is lost |
| FoldLimits.FoldedTextLengthExact | src/compiler.rs:858-865 | folding `length` of a text is right exactly when the program has no `length` of its own |
| FoldLimits.DroppedExact | src/compiler.rs:685-691 | dropping a dead statement without conditions is right exactly when the program has nothing of its own under the called names that are not emitted |
| FoldLimits.OwnFunctionIsDropped | src/compiler.rs:1401-1406 | a call of the program's own `clamp` disappears with its effect |
| FoldComplete.FoldIsComplete | src/compiler.rs:698-1033 | folding an expression leaves nothing to fold in it, lambdas included, and changes exactly the expressions with something to fold |
| FoldComplete.FoldBlockIsComplete | src/compiler.rs:474-696 | folding a block leaves no dead statement, no `if` with a known condition and nothing to fold, and changes exactly the blocks with any of them |
| FoldComplete.DeadExactly | src/compiler.rs:1375-1411 | a statement counts as dead exactly when all its parts are literals, names, operations, lists, members, indexes and calls of pure builtins |
| Numerals.BitOpActsOnBits | src/compiler.rs:716-718 | the folded bitwise operators act on each of the 64 bits |
| Numerals.IntTextReads | src/compiler.rs:916-926 | the folded text of a number reads back as the number |
| Numerals.WidthIsLeast | src/compiler.rs:858-866 | a character counts as many bytes as UTF-8 needs for it |
| Integers.RemainderIsSmall | src/compiler.rs:714-715 | a folded quotient times the divisor, and a remainder smaller than it, make the dividend |
| FoldComplete.FoldExprTwice | src/compiler.rs:698-1033 | folding a folded expression changes nothing |
| FoldComplete.FoldBlockTwice | src/compiler.rs:474-696 | folding a folded block changes nothing |
| Modules.ModuleLoader.CollectModules | src/module_loader.rs:277-392 | the search with its stack, visited set and module list does what the specification says, with the same error |
| Modules.ModuleLoader.LoadModules | src/module_loader.rs:253-275 | the prelude first, then the entry |
| Modules.VisitKeepsOrder | src/module_loader.rs:277-392 | every collected file comes once, with its own source, after everything it imports |
| Modules.VisitFailsRightly | src/module_loader.rs:286-369 | every error names something wrong that the file reaches, and a cycle is an actual cycle |
| Modules.WalksLeadBack | src/module_loader.rs:369-389 | from a collected module imports lead only to earlier ones |
| Modules.LoadIsTopological | src/module_loader.rs:253-392 | loading succeeds exactly when nothing reachable is missing, unresolved or on a cycle; then exactly the reachable files are there, each once, in import order |
| Modules.LoadIsInOrder | src/module_loader.rs:253-275 | what the prelude reaches comes first; behind it, what a line of the entry leads to comes before what only later lines lead to, and the entry is last |
| Modules.VisitInOrder | src/module_loader.rs:349-389 | below every file, of the modules not collected before, those a line leads to come before those only later lines lead to, and the file is last |
| Modules.FirstErrorIsReported | src/module_loader.rs:349-373 | when a file fails to load, the imports before some line lead to nothing wrong, that line is unresolved or leads to something wrong, and the error is about it; and so it is in the file it names |
| Modules.PreludeErrorsFirst | src/module_loader.rs:267-273 | what is wrong below the prelude is reported before what is wrong below the entry |
| Modules.LinesAreSplit | src/module_loader.rs:349-373 | a module's source is its lines that are no imports, and its imports are the others, in the order of the lines |
| Supervision.DelayIsExponential | runtime/src/actor.rs:754-758 | the delay is the base doubled up to twenty times and capped, without overflow, and never shrinks |
| Supervision.HandleChildFailure | runtime/src/actor.rs:725-767 | with a full window every strategy escalates; otherwise each strategy gives its own decision, a restart with a delay exactly if there is a base, and what the tracker then holds |
| Supervision.RecentIsSuffix | runtime/src/actor.rs:735-741 | exactly the restarts older than the window are forgotten |
| Supervision.RestartKeepsLimit | runtime/src/actor.rs:735-752 | recording a restart keeps at most the limit in every window of the lineage |
| Supervision.RecentCountsWindow | runtime/src/actor.rs:735-746 | what is remembered is exactly the lineage's restarts in the window that ends now |
| Supervision.IntervalHoldsAtMost | runtime/src/actor.rs:735-746 | a limited history has at most the limit in any closed interval as long as the window |
| Supervision.Supervisor.SpawnSupervisedWithConfig | runtime/src/actor.rs:898-931 | refuses exactly at the child limit, and otherwise starts a child with an empty history |
| Supervision.Supervisor.SpawnSupervised | runtime/src/actor.rs:865-896 | the same with the actor's own configuration |
| Supervision.Supervisor.HandleChildFailureMsg | runtime/src/actor.rs:933-1006 | when fewer than the limit of the lineage's restarts lie in the window, `RestartChild` restarts under a new id with its history, after the delay of its next restart if there is a base, `StopChild` removes the child, `EscalateFailure` escalates and `ResumeChild` keeps it; when the window is full every strategy escalates |
| Supervision.Supervisor.LineageIsLimited | runtime/src/actor.rs:933-1006 | whatever has happened, a lineage was restarted at most the limit in any closed interval as long as the window |
| Scheduler.OnePlace | runtime/src/actor.rs:1171-1198 | a task held once in all is in exactly one injector, deque, worker or among the done |
| Scheduler.RoundVisits | runtime/src/actor.rs:1253-1259 | going round from any start visits every peer |
| Scheduler.StealTotal | runtime/src/actor.rs:1232-1241 | a batch steal keeps how often each task is held |
| Scheduler.StealPeerTotal | runtime/src/actor.rs:1255-1269 | so does a steal from a peer |
| Scheduler.WorkStealingQueue.Submit | runtime/src/actor.rs:1171-1184 | a task goes to the next worker's injector in turn |
| Scheduler.WorkStealingQueue.SubmitPinned | runtime/src/actor.rs:1186-1198 | a pinned task goes to its worker's injector |
| Scheduler.WorkStealingQueue.PopLocal | runtime/src/actor.rs:1227-1230 | a worker takes its oldest task |
| Scheduler.WorkStealingQueue.StealFromInjector | runtime/src/actor.rs:1232-1241 | some tasks move to the thief's deque and the first is taken, exactly when there is one |
| Scheduler.WorkStealingQueue.StealFromPeer | runtime/src/actor.rs:1255-1269 | the same between two deques |
| Scheduler.WorkStealingQueue.Finish | runtime/src/actor.rs:1227-1230 | a run task is done, once |
| Scheduler.WorkStealingQueue.EveryTaskInOnePlace | runtime/src/actor.rs:1171-1292 | after any interleaving of steps each submitted task is in exactly one place |
| Scheduler.WorkStealingQueue.SweepPeers | runtime/src/actor.rs:1253-1272 | a sweep takes from the first peer, from its start on and around, whose deque holds a task, exactly when one does |
| Scheduler.WorkStealingQueue.SweepInjectors | runtime/src/actor.rs:1274-1291 | the same for the peers' injectors |
| Scheduler.WorkStealingQueue.WorkerPass | runtime/src/actor.rs:1222-1292 | an undisturbed pass runs the oldest task of the worker's deque; else the oldest of its own injector and then the next it has moved along; and with its deque empty the first peer's, deques before injectors. It runs a task exactly when any queue of the system holds one, from any start |
| Scheduler.WorkStealingQueue.RunOwn | runtime/src/actor.rs:1232-1247 | with an empty deque, the own injector's first task and then the next that was moved along |
| Scheduler.PeerIs | runtime/src/actor.rs:1253-1255 | a sweep goes up from its start and around once |
| Timers.NextExists | runtime/src/actor.rs:203-210 | a nonempty heap has one least entry by due time and id |
| Timers.TimerWheel.TakeId | runtime/src/actor.rs:370 | ids are given out once each, and before the timer is pushed |
| Timers.TimerWheel.Push | runtime/src/actor.rs:371-383 | a pushed timer is pending with its due time |
| Timers.TimerWheel.SendAfter | runtime/src/actor.rs:362-386 | a one-shot timer is due after its delay |
| Timers.TimerWheel.ScheduleRepeat | runtime/src/actor.rs:388-412 | a repeating timer is first due after one interval |
| Timers.TimerWheel.CancelToken | runtime/src/actor.rs:219-221 | tells whether it was the first to cancel |
| Timers.TimerWheel.Cancel | runtime/src/actor.rs:414-422 | finds exactly the timers in the heap |
| Timers.TimerWheel.Pop | runtime/src/actor.rs:303-314 | takes the least entry if it is due, and nothing exactly when none is |
| Timers.TimerWheel.CheckFirst | runtime/src/actor.rs:318-320 | a cancelled entry is dropped before it is sent |
| Timers.TimerWheel.Send | runtime/src/actor.rs:321-324 | one delivery, if a system is attached, whatever was cancelled meanwhile |
| Timers.TimerWheel.CheckAgain | runtime/src/actor.rs:326-337 | a repeating entry is buffered, one interval on, unless it was cancelled meanwhile |
| Timers.TimerWheel.FireNext | runtime/src/actor.rs:302-341 | the four steps in a row: pops the next due entry, and delivers and buffers it unless cancelled |
| Timers.TimerWheel.Reschedule | runtime/src/actor.rs:343-348 | every buffered timer is pending again |
| Timers.TimerWheel.Tick | runtime/src/actor.rs:299-348 | an undisturbed tick ends, delivers exactly the due timers not cancelled, in order of due time and id, and leaves exactly those not due and the repeating ones, due one interval behind the tick's own time, however late it is |
| Timers.OneShotOnce | runtime/src/actor.rs:316-341 | a one-shot timer is delivered at most once |
| Timers.TimerWheel.TimersKeepTime | runtime/src/actor.rs:299-348 | the k-th delivery of a repeating timer never comes before its creation and k intervals, under every interleaving |
| Timers.TimerWheel.CancelledStops | runtime/src/actor.rs:318-337 | under every interleaving a cancelled timer is delivered no more often than before, but for one message that had passed its check |
| Timers.CancelMissesBuffered | runtime/src/actor.rs:343-348 | a repeating timer cancelled by id between its delivery and the end of the tick is not found and is delivered again |
| Arena.AndNotBounds | runtime/src/allocator.rs:170 | rounding never goes back, whatever the alignment |
| Arena.AndNotActsOnBits | runtime/src/allocator.rs:170 | exactly the mask's bits are cleared |
| Arena.AndNotRounds | runtime/src/allocator.rs:170 | for a power of two the mask rounds to a multiple |
| Arena.AlignmentIsGuaranteed | runtime/src/allocator.rs:169-185 | blocks are aligned for every chunk address exactly up to alignment 16 |
| Arena.ArenaAllocator.Alloc | runtime/src/allocator.rs:169-185 | where the block lies, when a chunk is added, and exactly when the request panics; the block is inside one chunk, apart from all others, and aligned up to 16 |
| Arena.ArenaAllocator.Reset | runtime/src/allocator.rs:187-195 | gives back all chunks but the first, each with its own layout |
| Arena.ArenaAllocator.Drop | runtime/src/allocator.rs:210-216 | gives back every chunk with its own layout |
| Arena.ArenaAllocator.BlocksAreSafe | runtime/src/allocator.rs:157-207 | over any calls blocks are disjoint, inside chunks and aligned, and `bytes_used` covers their sizes |
| Pool.FindClass | runtime/src/allocator.rs:61-63 | the first class that holds the size |
| Pool.BlockSizeIsLeast | runtime/src/allocator.rs:61-80 | a block has the least class's size that holds the request, or the request's own beyond the largest |
| Pool.SizeClassAllocator.Allocate | runtime/src/allocator.rs:65-80 | reuses the block cached last or takes one of the class's size, counting either, and panics exactly when it needs a layout that is none; the block is aligned to 8, and as asked if it is new |
| Pool.SizeClassAllocator.Deallocate | runtime/src/allocator.rs:82-93 | caches up to 256 blocks a class and gives the rest back, with a mismatch exactly when the layout differs and a panic when it is none |
| Pool.SizeClassAllocator.Purge | runtime/src/allocator.rs:95-103 | empties every class, without a mismatch exactly when all cached blocks have the minimum alignment |
| Pool.SizeClassAllocator.LiveBlocksAreApart | runtime/src/allocator.rs:65-80 | live blocks never overlap |
| Pool.SizeClassAllocator.PoolIsConserved | runtime/src/allocator.rs:43-113 | over any calls no block is live and cached or cached twice, no class caches more than 256, taken minus freed is live plus cached, calls are allocations plus reuses, allocations are taken plus failed, and small alignments never mismatch |
| Pool.ReuseKeepsSound | runtime/src/allocator.rs:66-70 | reusing a block keeps the pool sound |
| Pool.CacheKeepsSound | runtime/src/allocator.rs:83-87 | so does caching one |
| Pool.MisalignedPurge | runtime/src/allocator.rs:95-103 | with alignment 16 a purge gives a block back with the wrong layout |
| Pool.MisalignedReuse | runtime/src/allocator.rs:66-70 | for every size with a class and every alignment, a request can be served by a cached block that the system aligned to 8 |
| Lockfile.GenerateLockfile | src/package.rs:217-235 | the loop writes the root's lines and then each dependency's |
| Lockfile.GeneratedText | src/package.rs:217-235 | what a lockfile with one dependency looks like, for every root and dependency |
| Lockfile.ParseLockfile | src/package.rs:237-282 | the loop over the lines computes the parsed entries |
| Lockfile.EntriesRead | src/package.rs:244-280 | printed blocks read back as their entries, in order |
| Lockfile.ParsedIsRepresentable | src/package.rs:237-282 | from any text, entries have names, and no field has a line break or an edge quote |
| Lockfile.ParsedIsEmpty | src/package.rs:237-282 | any text is read as no dependency exactly when no `[[dependency]]` line is followed, before the next one, by a last `name` line whose value is not empty |
| LockfileLayout.LineDoes | src/package.rs:244-280 | white space around a line, its key and its value, any number of quotes and other keys and lines change nothing in what a line does |
| LockfileLayout.LayoutReads | src/package.rs:237-282 | any text of such lines, ended with or without a carriage return, reads as the dependencies with the values last set in each |
| Lockfile.EntriesFollowRoot | src/package.rs:217-282 | representable dependencies are read back behind whatever the root is read as |
| Lockfile.RoundTrips | src/package.rs:217-282 | for every root, parsing a generated lockfile gives the dependencies back exactly when every name is nonempty, no field has a line break or an edge quote, and the root's own lines name no dependency |
| Lockfile.OneLineRootIsSilent | src/package.rs:219-224 | a root without line breaks reads as no dependency |
| Lockfile.RootBreaksThrough | src/package.rs:220-223 | a root name with a line break adds a dependency |

## Left out

- FoldTheorem.FoldBlockMeaning: asks that literals fold to what code generation computes, that no operation, call or range turns native or specialised by folding, that folded lists have effect-free items, that a folded `length` and the calls of dropped statements reach builtins, and that no name is shadowed or becomes a builtin by folding a callee; outside that the folder does change meanings, as `FoldLimits` shows. Operations other than division that turn native differ only when they overflow, when a function inferred to return an integer does not, or beyond 2^53. A variable has one representation throughout a body. Enum constructors count as ordinary calls.
- Folder.FoldCallMeaning: the float and math builtins, `char_at`, `char_code` and `from_char_code`, `assert_static` and the regex check of the folder are not modelled.
- FoldTheorem.FoldWhileMeaning: loops run under a bound on iterations, so a loop that never ends is compared at every bound.
- FoldLimits.FoldedLengthExact: is about items without `and`, `or` and ternaries; with them the fold may be right in some runs only, and `FoldedLengthDecided` gives the items for which it is right in all or wrong in all.
- FoldLimits.DroppedExact: is about statements without `and` and `or`; with them `LiveMeaning` gives the one direction.
- AssignmentExact.AnalysisIsExact: is about the occurrences the analysis walks; the others are never warned about.
- LoweringMeaning.LowerKeepsMeaning: gives meanings to effect-free expressions; a left side that is put in place of several placeholders is evaluated once for each, which effects would tell.
- Frontend.TextRoundTrips: leaves out source positions, and names that are keywords.
- Timers.TimerWheel.Tick: takes a tick as undisturbed; what holds under interference is the invariant that every step keeps.
- Scheduler.WorkStealingQueue.WorkerPass: takes steals as never answering that they should be retried.
- LayoutTheorem.StackIsEnclosingChain: is about the stack that `Follow` and `Arrange` keep, step by step the same as the loop's, not about the loop's variable itself.
- Parser.Parser.ParseExpression: has no newline tokens, so a `?` before a newline, a guard in the source, does not occur; error propagation (`! return err`, `! err`) is refused or left unread.
- Parser.Parser.ParseUnary: has no error values, so `!` before `!!` is not a throw.
- Parser.Parser.ParseCall: has no slices and no `do` blocks.
- Parser.Parser.ParseArguments: has no named arguments, and no newlines or indentation between arguments.
- Parser.Parser.ParseItems: has no spreads, comprehensions and newlines between items.
- Parser.Parser.ParsePrimary: has no floats, bytes, templates, lambdas, match expressions and map literals.
- DefiniteAssignment.Checker.Uses: has no map literals.
- DefiniteAssignment.Checker.Statement: has no pattern bindings.
- Lexer and parser: UTF-8 byte positions; statements, items, templates' inner expressions, map literals, named arguments, slices, error propagation, `do` blocks, match expressions, and newlines and indentation inside argument lists.
- Lowering: map literals, match expressions, comprehensions, slices, spreads, named arguments and default parameters; lambda bodies are single expressions.
- Constant folder: pattern bindings, match expressions and map literals; the user-function evaluator, which nothing calls.
- Definite assignment: match expressions and templates.
- Module loader: reading and caching files, exports, namespaces, and the text-splicing loader with its cache.
- Supervision: the 32-bit width of the restart counters, and the time a delayed restart sleeps.
- Timers and scheduler: the sleeping and waking of threads, shutdown, and the random number generator behind a sweep's start.
- Allocators: a system allocator that fails; in builds without overflow checks the arena's sums wrap where the model panics; batch allocation and regions.
- Lockfile: checksums, and the file the text is kept in.
- Type inference, code generation, exhaustiveness and escape checks, the language server and the command line.
