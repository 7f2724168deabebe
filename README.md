# Python-like evaluator, level catalogue and game state

This project models the core of a browser game that teaches programming. It has three parts:

- **CodeEvaluator** (`src/utils/codeEvaluator.ts`) is a small interpreter for a Python-like language, written in TypeScript.
  - `evaluateCode` splits the player's program into lines. It drops blank lines and comment lines, then runs the rest line by line through `executeLine`.
  - `executeLine` dispatches on how the line starts: `def`, `class`, `import`, `try:`, an assignment, `print(`, `for`, `while`, `if`/`elif`/`else:`, a call, or anything else. Each handler returns how many lines it consumed.
  - Expressions go through `evaluateExpression`. It tries a fixed list of cases: keywords, quoted strings, `Number()` text, list literals, calls, dotted chains, bound names, and finally binary operators found by substring search.
  - The printed lines are then compared with the challenge's expected output (`compareOutput`) or with its test cases (`runTestCase`).
  - `validateRules` checks the program text against the active rules, using ten keyword-triggered predicates.
- **The level catalogue** (`src/data/levels.ts`): twelve levels, plus `getLevel`, `getTotalChallenges`, `unlockNextLevel` and `isSecretLevelUnlocked`.
- **The game-state hook** (`src/hooks/useGameState.ts`): the initial state and the transitions `setLevel`, `nextChallenge`, `addScore`, `loseLife`, `triggerHack`, and the one-second tick of the countdown timer.

## How the model is built

- **JavaScript semantics the interpreter relies on** are written out:
  - `trim`, `trimStart`, `indexOf`, `lastIndexOf`, `split`, `join`, `replace`, and `Number()` of text (module `JsText`);
  - `String()` of values, including lists joined by commas (module `JsValue`);
  - truthiness, `+` with its string/number split, strict equality, relational comparison, and `range` (also `JsValue`).
- **The regular expressions** the source uses are hand-coded scanners with the same leftmost match (modules `Headers` and `RuleLinter`).
- **Lists are shared references into an explicit heap** (`seq<seq<Value>>`):
  - `append` and `pop` change a list in place;
  - two names bound to the same list see each other's changes, as in the source.
- **The interpreter is a set of total functions** returning an `Outcome`, one of:
  - `Ok(value, state)`;
  - `Raise(error, state)`, for what the source throws, such as reading a property of `undefined`;
  - `Hangs`, where the source provably never returns;
  - `Unmodelled`, where the model stops following, for example a non-integer number.
- **The interpreter's state** is the variables, the heap, the output lines and the functions table.
- **The imperative parts of the source are imperative here:**
  - the class `Evaluator.CodeEvaluator` keeps the `outputBuffer` field;
  - its methods run the driver loop and the rule loop;
  - `findBlockEnd` is a `while` loop;
  - each method is proved equal to the functional definition.
- **The level catalogue is an `array`** (`Levels.Catalogue`), which `unlockNextLevel` updates in place.
- **The game-state hook is a class** (`GameStateHook.Game`) holding the state and the catalogue.
  - Its methods are proved against pure transition functions.
  - `Game.SetLevel` runs `setLevel` as written, so entering a level leaves that level's new rules out of force (see "## Findings").
  - Whether the rules in force are exactly the current level's rules plus its new rules is a separate predicate, `RulesInForce`. The game does not require it: it holds at the start and after each completed level, and entering a level by `setLevel` can break it.

Several behaviours of the source are modelled as written and stated as lemmas:

- A taken `if` branch returns right after its own block (`Statement.TakenBranchEndsChain`). A following `else:` line is then dispatched by the driver, and a bare `else:` always runs its block (`Statement.BareElseRuns`). So after a taken `if`, the `else` block runs too (`Statement.ElseRunsAfterTakenIf`).
- A line that starts with `else:` and has more text after it consumes zero lines, so the driver never finishes (`Statement.ElseTextHangs`).
- Body lines run with the body as their line list and index 0, and the returned counts are ignored. A nested header therefore scans the block under the body's first line, and the lines of a nested block also run as lines of the enclosing body.
- `x += 1` binds the name `x +` (`Statement.PlusEqualsBindsOddName`).
- The assignment test comes before the print test, so `print("a=b")` prints nothing and binds the name `print("a` (`Statement.PrintWithEqualsAssigns`, `Statement.PrintEqualsText`).
- A def'd function goes into a table that expression evaluation never reads, so calling it is not a call (`Statement.Define`).
- The rule text for docstrings also contains "variables" and "global". Activating it therefore also runs the hardcoding and global-variable checks (`RuleLinter.DocstringRuleNames`, `RuleLinter.SeveralChecks`).

## Model

| member | source | states |
|---|---|---|
| JsText.TrimStart | src/utils/codeEvaluator.ts:198 | trimStart removes exactly a leading run of whitespace: every removed character is whitespace and the result does not start with whitespace |
| JsText.TrimEnd | src/utils/codeEvaluator.ts:499 | trimEnd keeps a prefix, removes only whitespace, and the result does not end with whitespace |
| JsText.TrimTwice | src/utils/codeEvaluator.ts:114 | trimming is idempotent, so trimming the already trimmed lines again changes nothing |
| JsText.IndexOfFrom | src/utils/codeEvaluator.ts:488 | indexOf from k returns -1 or a position at or after k where the pattern occurs |
| JsText.IndexOfFromFirst | src/utils/codeEvaluator.ts:488 | the position indexOf returns is the first occurrence at or after k, and -1 means there is none |
| JsText.LastIndexOfChar | src/utils/codeEvaluator.ts:489 | lastIndexOf(')') is the last position holding the character, or -1 when it does not occur |
| JsText.JoinSplit | src/utils/codeEvaluator.ts:83 | joining the pieces of split(sep) with sep gives back the original text |
| JsText.SplitJoin | src/utils/codeEvaluator.ts:495 | splitting at a one-character separator gives back the pieces that were joined with it, when no piece contains it |
| JsText.SplitWhenContains | src/utils/codeEvaluator.ts:593 | when the separator occurs, split yields at least two pieces and the first is the text before the first occurrence |
| JsText.ReplaceFirstPlain | src/utils/codeEvaluator.ts:565 | replace with a plain string pattern changes only the first occurrence and leaves the text unchanged when there is none |
| JsText.ReplaceAllChar | src/utils/codeEvaluator.ts:73-74 | replace(/'/g, '"') changes every single quote to a double quote and nothing else |
| JsText.NatToDecimal | src/utils/codeEvaluator.ts:8 | String() of a non-negative integer is a nonempty digit string with no leading zero |
| JsText.DecimalRoundTrip | src/utils/codeEvaluator.ts:8 | reading the decimal text of n back in base 10 gives n |
| JsText.NumberOfSignedDigits | src/utils/codeEvaluator.ts:513-514 | Number() of an optionally negative digit string without leading zeros is its integer value |
| JsText.NumberOfDecimal | src/utils/codeEvaluator.ts:513-514 | Number(String(n)) == n for every integer n |
| JsValue.ErrorObjectText | src/utils/codeEvaluator.ts:8 | a caught error's name is RangeError for a stack overflow and TypeError otherwise, its message is the engine's message, and String() of it is name, colon, space, message |
| JsValue.SetCell | src/utils/codeEvaluator.ts:571 | updating one heap cell changes that cell only |
| JsValue.JoinItemsFlat | src/utils/codeEvaluator.ts:8 | String() of a list of scalars is the String() of each item joined with commas |
| JsValue.ToStrList | src/utils/codeEvaluator.ts:8 | a printed list of scalars is its items joined with commas; true, false and null print as those words |
| JsValue.ToPrimitive | src/utils/codeEvaluator.ts:596 | the operands of + are reduced to undefined, null, a boolean, a number or a string |
| JsValue.Ints | src/utils/codeEvaluator.ts:106-108 | the loop of range yields start, start+step, ... while below end, is empty exactly when start >= end, and stops at the first value reaching end |
| JsValue.RangeOneArgument | src/utils/codeEvaluator.ts:99-110 | range(n) is 0, 1, ..., n-1 |
| JsValue.RangeZeroStep | src/utils/codeEvaluator.ts:104 | a zero step is replaced by 1 (step \|\| 1), so range(a, b, 0) equals range(a, b) |
| JsValue.AddCases | src/utils/codeEvaluator.ts:596 | + adds two integers, concatenates two strings, and with one string operand concatenates the decimal text of the number on its side |
| JsValue.ModTruncates | src/utils/codeEvaluator.ts:616 | % on integers with a nonzero divisor is the remainder of truncating division: smaller than the divisor in magnitude, with the sign of the dividend, and x == q * y + r for some q |
| JsValue.StrictEqualsCases | src/utils/codeEvaluator.ts:625-633 | === on integers holds exactly when they are equal, NaN equals nothing, and every other value equals itself |
| JsValue.StrLessTotal | src/utils/codeEvaluator.ts:637-652 | the code-unit order on strings that < uses is irreflexive, asymmetric, and relates every two distinct strings one way or the other |
| JsValue.LessThanCases | src/utils/codeEvaluator.ts:637-652 | < on integers is integer order, on strings the code-unit order, and any comparison with NaN is false |
| Headers.SkipSpaces | src/utils/codeEvaluator.ts:181 | \s* consumes the maximal run of whitespace |
| Headers.SkipWord | src/utils/codeEvaluator.ts:181 | \w+ consumes the maximal run of word characters |
| Headers.DefAt | src/utils/codeEvaluator.ts:181 | a match of /def\s+(\w+)\s*\((.*?)\):/ at a position gives a word as the name and parameters with no line terminator |
| Headers.ClassAt | src/utils/codeEvaluator.ts:233 | a match of the class header regex at a position captures a word as the class name |
| Headers.LineEnd | src/utils/codeEvaluator.ts:181 | `.` stops at the first line terminator |
| Headers.GroupToColon | src/utils/codeEvaluator.ts:279 | the greedy (.+): group is nonempty and has no line terminator |
| Headers.ForAt | src/utils/codeEvaluator.ts:279 | a match of /for\s+(\w+)\s+in\s+(.+):/ captures a word as the loop variable |
| Headers.ExceptAt | src/utils/codeEvaluator.ts:418 | a match of /except\s+\w+\s+as\s+(\w+):/ captures a word as the exception variable |
| Headers.ExceptAtWords | src/utils/codeEvaluator.ts:418 | the pattern matches a line made of except, a word, as, a word and a colon, with single spaces, and captures the second word |
| Headers.ExceptHeaderName | src/utils/codeEvaluator.ts:417-421 | the header `except X as y:` of two words is its own trim and binds y |
| Expression.TrimAllTrimmed | src/utils/codeEvaluator.ts:495 | every piece .map(s => s.trim()) gives is its own trim |
| Expression.ExtractArgs | src/utils/codeEvaluator.ts:487-496 | the arguments are the trimmed comma pieces of the text between the first ( and the last ), one per piece, and there are none exactly when that text is blank; no argument is longer than the line |
| Expression.ExtractArgsOfCall | src/utils/codeEvaluator.ts:487-496 | for name(inner), with no ( in the name and no ) in inner, the arguments are the trimmed comma pieces of inner, or none when inner is blank |
| Expression.WholeArgument | src/utils/codeEvaluator.ts:487-496 | an argument as long as the expression is the whole expression, and then it is the only argument |
| Expression.Eval | src/utils/codeEvaluator.ts:498-656 | evaluating an expression only adds heap cells: lists held in variables stay valid |
| Expression.EvalQuoted | src/utils/codeEvaluator.ts:507-510 | text starting and ending with the same quote is a string literal of the text between, so "a" + "b" is one string and not a concatenation |
| Expression.EvalBoundName | src/utils/codeEvaluator.ts:586-589 | when no earlier case applies, a bound name evaluates to its value without touching the heap |
| Expression.EvalKeywords | src/utils/codeEvaluator.ts:502-504 | the trimmed texts None, True and False evaluate to null, true and false without touching the heap |
| Expression.EvalInteger | src/utils/codeEvaluator.ts:513-514 | the decimal text of any integer evaluates to that integer, whatever is bound |
| Expression.EvalEmptyList | src/utils/codeEvaluator.ts:518-520 | [] evaluates to a new empty list at the next heap cell |
| Expression.EvalArgs | src/utils/codeEvaluator.ts:530 | the arguments are evaluated left to right into one value each, and the heap only grows |
| Expression.EvalArgsIntegers | src/utils/codeEvaluator.ts:522 | decimal texts as arguments evaluate to their integers, in order, and add no heap cell |
| Expression.ListLiteral | src/utils/codeEvaluator.ts:518-522 | a list literal yields a new list at the end of the heap; a blank one is empty; otherwise it succeeds exactly when its comma items evaluate, and the new cell holds their values in order |
| Expression.ListOfIntegers | src/utils/codeEvaluator.ts:518-522 | a literal [n0,n1,...] of integers is a new list holding exactly those numbers, in order |
| Expression.Call | src/utils/codeEvaluator.ts:525-548 | the text is a call exactly when its name is bound to a function or is len, str or list; len() or str() with no argument throws; an argument that is the whole expression throws the RangeError of a stack overflow; a call only grows the heap |
| Expression.CallBuiltin | src/utils/codeEvaluator.ts:537-548 | len(x) is the length of a list or else of x's string form, str(x) is x's string form, list(x) is x itself when a list and else a new list holding x; a throw from x is the call's throw |
| Expression.LenOfBoundList | src/utils/codeEvaluator.ts:537-540 | len(x) for a name x bound to a list is that list's length, and the heap is unchanged |
| Expression.Apply | src/utils/codeEvaluator.ts:531 | calling range or a class constructor only grows the heap |
| Expression.Chain | src/utils/codeEvaluator.ts:551-584 | a dotted chain of property reads and method calls only grows the heap |
| Expression.Method | src/utils/codeEvaluator.ts:564-576 | replace, split, append and pop never remove heap cells |
| Expression.AppendInPlace | src/utils/codeEvaluator.ts:570-573 | append adds its argument at the end of that same list, returns the list itself and changes no other list |
| Expression.SplitWithoutArgument | src/utils/codeEvaluator.ts:567-568 | split() without an argument gives a new one-element list holding the whole string |
| Expression.ReadThroughNothingThrows | src/utils/codeEvaluator.ts:579 | reading a property of undefined or null throws the TypeError naming that property |
| Expression.Replace | src/utils/codeEvaluator.ts:564-565 | replace on a string returns a string and does not touch the heap |
| Expression.Pop | src/utils/codeEvaluator.ts:574-575 | pop() removes and returns the last element; pop(i) removes one element of that list and returns it; no other list changes |
| Expression.FirstOperator | src/utils/codeEvaluator.ts:592-653 | the operator chosen is the first in the fixed order + - * / % ** == != < > <= >= that occurs in the text, and none occurs when none is chosen |
| Expression.BinaryOperator | src/utils/codeEvaluator.ts:591-655 | an operator expression only grows the heap, and text in which no operator occurs is its own string value |
| Expression.AddUsesFirstTwoTerms | src/utils/codeEvaluator.ts:592-597 | only the first two pieces of split(" + ") are used: x + y + rest evaluates to x + y whatever rest is, so 1 + 2 + 3 is 3 |
| Expression.LeftOperand | src/utils/codeEvaluator.ts:594 | the left operand is evaluated first, and the heap only grows |
| Expression.RightOperand | src/utils/codeEvaluator.ts:595 | the right operand is evaluated after the left, and the heap only grows |
| Expression.Arithmetic | src/utils/codeEvaluator.ts:599-622 | - * / % ** give a number without touching the heap, or a result the model does not follow (a non-integer, or an infinity whose sign depends on the sign of a zero) |
| Expression.Compare | src/utils/codeEvaluator.ts:635-653 | the relational operators give a boolean without touching the heap |
| Expression.ApplyOperator | src/utils/codeEvaluator.ts:592-653 | applying an operator to two values never touches the heap |
| Expression.IntegerOperators | src/utils/codeEvaluator.ts:592-653 | on integer operands + - * give the integer results, / gives the quotient when exact, and the comparisons give the integer comparisons |
| Expression.ZeroDivisor | src/utils/codeEvaluator.ts:609-621 | 0 / 0 is NaN; a non-zero number or an infinity divided by zero, and zero to a negative power, are not followed, since JavaScript's answer (Infinity or -Infinity) depends on whether the zero is 0 or -0 |
| Statement.BlockScan | src/utils/codeEvaluator.ts:375-387 | the scan never moves backwards and stays within the lines |
| Statement.BlockEnd | src/utils/codeEvaluator.ts:371-390 | findBlockEnd is past the header and within the lines |
| Statement.FirstClosingIsFirst | src/utils/codeEvaluator.ts:385 | the reference definition of the block end is the first nonblank line indented less than the first nonblank line after the header |
| Statement.BlockScanIsFirstClosing | src/utils/codeEvaluator.ts:375-387 | the scan loop with its running indentation finds exactly that first closing line |
| Statement.BlockEndIsFirstClosing | src/utils/codeEvaluator.ts:371-390 | findBlockEnd is the first closing line after the header: no line before it closes the block, and the line at it does |
| Statement.BlockEndIgnoresHeader | src/utils/codeEvaluator.ts:372 | the block end does not depend on the header line itself |
| Statement.ExecLine | src/utils/codeEvaluator.ts:119-178 | executing a line keeps the lines already printed and every heap cell |
| Statement.EvalStatement | src/utils/codeEvaluator.ts:172-175 | a call line consumes one line and changes no binding and no output |
| Statement.Dispatch | src/utils/codeEvaluator.ts:115 | dispatching a line keeps the lines already printed and every heap cell |
| Statement.RunBody | src/utils/codeEvaluator.ts:337-342 | running a body line by line keeps the lines already printed and every heap cell |
| Statement.Params | src/utils/codeEvaluator.ts:185 | the parameter list holds no empty name |
| Statement.Define | src/utils/codeEvaluator.ts:180-230 | a def stores the function under its name and consumes the header and its block; a header that does not match consumes one line; no binding, list or output changes |
| Statement.DefineClass | src/utils/codeEvaluator.ts:232-276 | a class header binds the name to a constructor and consumes its block; one that does not match consumes one line and changes nothing |
| Statement.Import | src/utils/codeEvaluator.ts:460-485 | import base64 and import threading bind their host objects; any other import changes nothing |
| Statement.AssignSplitsAtFirstEquals | src/utils/codeEvaluator.ts:143 | the name is the trimmed text before the first '=', and the value is the trimmed text up to the second '=' |
| Statement.PlusEqualsBindsOddName | src/utils/codeEvaluator.ts:142-143 | x += 1 binds the name "x +" |
| Statement.Assign | src/utils/codeEvaluator.ts:142-146 | an assignment consumes one line and rebinds exactly its name; a throw leaves the bindings and output unchanged |
| Statement.Print | src/utils/codeEvaluator.ts:149-154 | print adds exactly one output line and keeps the bindings; print() with no argument throws |
| Statement.PrintFirstArgument | src/utils/codeEvaluator.ts:150-152 | print outputs String() of its first argument's value |
| Statement.ForLoop | src/utils/codeEvaluator.ts:278-319 | a for loop consumes its header and block, or one line when the header does not match |
| Statement.ForEach | src/utils/codeEvaluator.ts:306-316 | the loop over the items keeps the lines already printed and every heap cell |
| Statement.ForOverNonList | src/utils/codeEvaluator.ts:306 | a for loop over something that is not a list runs no iteration and skips its block |
| Statement.ForEachLeavesLast | src/utils/codeEvaluator.ts:307-308 | after the loop, the loop variable holds the last item |
| Statement.ForPrintsEachItem | src/utils/codeEvaluator.ts:306-316 | a loop whose body is print(name) over a list prints every item from the current one on, in list order, and leaves the name bound to the last item |
| Statement.PrintTextIsPrint | src/utils/codeEvaluator.ts:119-154 | a line that begins "print(" and has no lone '=' reaches the print handler |
| Statement.PrintWithEqualsAssigns | src/utils/codeEvaluator.ts:141-154 | a line that begins "print(" but has a lone '=' is handled as an assignment: it prints nothing and binds the text before the '=' |
| Statement.PrintEqualsText | src/utils/codeEvaluator.ts:142-143 | print("a=b") is such a line; the name it binds is the text print("a |
| Statement.PrintStringProgram | src/utils/codeEvaluator.ts:92-117 | a program made of print("s") alone, s without line break, comma or '=', ends normally having printed exactly s |
| Statement.WhileLoop | src/utils/codeEvaluator.ts:437-458 | a while loop consumes exactly its header and block |
| Statement.WhileFrom | src/utils/codeEvaluator.ts:444-455 | the loop never runs more than maxIterations = 1000 times |
| Statement.WhileStopsAtCap | src/utils/codeEvaluator.ts:447 | at the cap, the condition is evaluated once more and the loop stops |
| Statement.WhileTrueRunsToCap | src/utils/codeEvaluator.ts:445-447 | while True with an empty body stops after exactly 1000 iterations instead of hanging |
| Statement.IfChain | src/utils/codeEvaluator.ts:321-369 | the chain never consumes fewer lines than it has already skipped |
| Statement.ChainHeaderConsumes | src/utils/codeEvaluator.ts:329-347 | an if or elif header always consumes at least its own line |
| Statement.TakenBranchEndsChain | src/utils/codeEvaluator.ts:333-344 | a truthy branch consumes exactly through the end of its own block, leaving any later elif or else line to the caller |
| Statement.FalseBranchSkips | src/utils/codeEvaluator.ts:345-346 | a falsy branch skips its block and goes on with the next line of the chain |
| Statement.BareElseRuns | src/utils/codeEvaluator.ts:348-359 | an else: line reached by the driver always runs its block |
| Statement.IfTextIsChain | src/utils/codeEvaluator.ts:119-168 | a line that starts with "if " and is not an assignment goes to the if/elif/else handler |
| Statement.TakenIfRunsOnAtBlockEnd | src/utils/codeEvaluator.ts:333-344 | after a taken if branch, the driver goes on at the end of that branch's block |
| Statement.ElseRunsAfterTakenIf | src/utils/codeEvaluator.ts:321-369 | when an if condition is truthy and an else: line follows its block, the driver runs the else block too and goes on after it |
| Statement.RunBlock | src/utils/codeEvaluator.ts:334-344 | running a branch body consumes through the end of that block |
| Statement.FindExcept | src/utils/codeEvaluator.ts:407-410 | the search finds the first line from the try block's end that starts with except, or none |
| Statement.TryExcept | src/utils/codeEvaluator.ts:392-435 | try consumes through its block, or through the block of the first except line after it; a try that completes, or one with no except line after it, consumes exactly its own block |
| Statement.TryCompletes | src/utils/codeEvaluator.ts:397-404 | a try block that completes consumes just its own block |
| Statement.TryWithoutExceptSwallows | src/utils/codeEvaluator.ts:405-434 | a throw with no except line after the block is swallowed, and the try consumes its own block |
| Statement.Caught | src/utils/codeEvaluator.ts:405-434 | a caught throw with no except line after the try block is dropped: the state at the throw is kept and exactly the try block is consumed; with an except line, a successful handler consumes through that line's block |
| Statement.ExceptState | src/utils/codeEvaluator.ts:416-421 | when the except header names a variable, that variable alone is bound to a fresh error object for the thrown error; otherwise the state is unchanged |
| Statement.TryCaughtRunsHandler | src/utils/codeEvaluator.ts:405-431 | when the try block throws and an except line follows it, the statement is the except line's block run on the state at the throw with the error bound as the header names |
| Statement.Handler | src/utils/codeEvaluator.ts:412-431 | the handler consumes through the except line's block |
| Statement.Kept | src/utils/codeEvaluator.ts:94 | the program keeps no blank line and no comment line |
| Statement.KeptAppend | src/utils/codeEvaluator.ts:94 | the filter works line by line: it distributes over concatenation |
| Statement.Run | src/utils/codeEvaluator.ts:112-116 | running the program keeps the lines already printed and every heap cell |
| Statement.DispatchZeroOnlyForElseText | src/utils/codeEvaluator.ts:167-168 | a line consumes zero lines only when it starts with else: and has more text after it |
| Statement.ExecLineZero | src/utils/codeEvaluator.ts:119-178 | every handler except the if/elif/else case consumes at least one line |
| Statement.ElseTextHangs | src/utils/codeEvaluator.ts:112-116 | a top-level line such as "else: pass" consumes nothing, so the driver never finishes |
| Statement.DriverStep | src/utils/codeEvaluator.ts:112-116 | one driver step: advance by the count, stop on a throw, hang on a zero count |
| Statement.DriverAdvances | src/utils/codeEvaluator.ts:115 | after a nonzero step, the rest of the run continues from the advanced index with the new state |
| Evaluator.CompareReflexive | src/utils/codeEvaluator.ts:68-90 | an output always matches itself |
| Evaluator.CompareBracketed | src/utils/codeEvaluator.ts:70-79 | a bracketed expected value matches exactly when the texts agree character by character, with ' and " interchangeable |
| Evaluator.CompareMultiline | src/utils/codeEvaluator.ts:82-87 | a multi-line expected value matches exactly when the line counts agree and each pair of lines agrees after trimming |
| Evaluator.CompareSingleLine | src/utils/codeEvaluator.ts:89 | otherwise the outputs match exactly when they are equal |
| Evaluator.CountPassing | src/utils/codeEvaluator.ts:36-41 | no more test cases pass than there are |
| Evaluator.CountPassingSnoc | src/utils/codeEvaluator.ts:37-40 | each test case adds one to the count exactly when it passes |
| Evaluator.JudgeCases | src/utils/codeEvaluator.ts:25-56 | the verdict on a completed run uses the expected output if there is one, else the test cases, else an unconditional pass |
| Evaluator.EvaluationCases | src/utils/codeEvaluator.ts:20-65 | a completed run is judged; a throw gives a failure carrying the error message and the output printed so far |
| Evaluator.PrintStringVerdict | src/utils/codeEvaluator.ts:18-33 | print("s") judged against an expected output succeeds exactly when s and the expected text agree after trimming, and reports s as the output with 1 or 0 of 1 passed |
| Evaluator.VerdictConsistent | src/utils/codeEvaluator.ts:25-64 | every verdict succeeds exactly when all checks pass, never counts more passes than checks, and carries an error only on failure |
| Evaluator.ThrowFails | src/utils/codeEvaluator.ts:57-64 | a program that throws fails with 0 of 1, its error message and its partial output |
| Evaluator.CountIgnoresInputs | src/utils/codeEvaluator.ts:658-662 | a test case's input is never used: only the expected outputs decide the count |
| Evaluator.NoTestCasesSucceed | src/utils/codeEvaluator.ts:43-47 | an empty test-case list succeeds with 0 of 0 |
| Evaluator.CodeEvaluator.constructor | src/utils/codeEvaluator.ts:4 | the output buffer starts empty |
| Evaluator.CodeEvaluator.FindBlockEnd | src/utils/codeEvaluator.ts:371-390 | the scan loop computes the block end |
| Evaluator.CodeEvaluator.ExecutePythonLikeCode | src/utils/codeEvaluator.ts:92-117 | running the program gives the outcome of the driver and appends the printed lines to the buffer |
| Evaluator.CodeEvaluator.RunLines | src/utils/codeEvaluator.ts:112-116 | the while loop over the lines computes the run of the program |
| Evaluator.CodeEvaluator.Turn | src/utils/codeEvaluator.ts:113-115 | one iteration either stops with the outcome of the run, or advances the index with the run unchanged |
| Evaluator.CodeEvaluator.RunTestCase | src/utils/codeEvaluator.ts:658-666 | a test case passes exactly when the program completes and its output matches the expected output |
| Evaluator.CodeEvaluator.RunTestCases | src/utils/codeEvaluator.ts:35-41 | the test-case loop counts exactly the test cases the program's output passes, and leaves the buffer holding that output |
| Evaluator.CodeEvaluator.EvaluateCode | src/utils/codeEvaluator.ts:11-66 | evaluateCode returns the evaluation of the program on the challenge and leaves the buffer holding the program's output |
| Evaluator.CodeEvaluator.ValidateRules | src/utils/codeEvaluator.ts:668-740 | the violations are each rule's fired messages in rule order, and the code is valid exactly when there are none |
| RuleLinter.SkipDigits | src/utils/codeEvaluator.ts:744 | \d+ consumes the maximal run of digits |
| RuleLinter.SkipNonQuotes | src/utils/codeEvaluator.ts:745 | [^"']* consumes up to the first quote |
| RuleLinter.PrintNumberRegex | src/utils/codeEvaluator.ts:744 | the scanner matches at a position exactly when print( is followed by spaces, digits, spaces and ) |
| RuleLinter.PrintStringRegex | src/utils/codeEvaluator.ts:745 | the scanner matches at a position exactly when print( is followed by spaces, a quote, non-quotes, a quote, spaces and ) |
| RuleLinter.HardcodedFrom | src/utils/codeEvaluator.ts:742-747 | hasHardcodedValues holds exactly when either pattern matches somewhere |
| RuleLinter.IndicesBelow | src/utils/codeEvaluator.ts:674-733 | the checks that fire, in increasing check order |
| RuleLinter.MessagesOf | src/utils/codeEvaluator.ts:677-731 | the message of each fired check, in order |
| RuleLinter.RuleViolationsExact | src/utils/codeEvaluator.ts:674-733 | one rule adds, in check order, exactly the messages of the checks whose keywords and predicates hold |
| RuleLinter.OnlyFirstFires | src/utils/codeEvaluator.ts:674-679 | a rule for which only the hardcoding check fires yields the hardcoding message and nothing else |
| RuleLinter.PrintFiveViolatesHardcoding | src/utils/codeEvaluator.ts:742-747 | print(5) under the level-1 rule "All answers must use variables (no hardcoding values)" yields exactly the one hardcoding message |
| RuleLinter.RuleViolationsWhere | src/utils/codeEvaluator.ts:674-733 | the message list of a rule equals what the loop over the ten checks pushes |
| RuleLinter.MessagesWhereIndices | src/utils/codeEvaluator.ts:674-733 | the pushes of the ten checks are the messages of the fired checks |
| RuleLinter.ViolationsPrefix | src/utils/codeEvaluator.ts:674 | one more rule appends its own messages to the violations |
| RuleLinter.ViolationsAppend | src/utils/codeEvaluator.ts:674 | the violations of two rule lists back to back are their violations concatenated |
| RuleLinter.ViolationsPermute | src/utils/codeEvaluator.ts:674-734 | reordering the rules reorders the violations and changes no multiplicity |
| RuleLinter.ViolationsRemoveAt | src/utils/codeEvaluator.ts:674 | a rule anywhere in the list adds its messages, regardless of position |
| RuleLinter.StrOverrideSubsumed | src/utils/codeEvaluator.ts:763-765 | the "def __str__" alternative is subsumed by "def __" |
| RuleLinter.SeveralChecks | src/utils/codeEvaluator.ts:675-691 | a rule naming variables, docstring and global runs the hardcoding, docstring and global checks |
| RuleLinter.DocstringRuleNames | src/data/levels.ts:145 | the docstring rule's text contains variables, docstring and global |
| RuleLinter.ThreadSafetyTwoLocks | src/utils/codeEvaluator.ts:771-775 | a program has thread-safety issues exactly when Lock() occurs at two different positions |
| Levels.InitialLevelsWellFormed | src/data/levels.ts:3-434 | the catalogue has twelve levels with ids 0 to 11 in order, each with a challenge |
| Levels.InitialRulesAccumulate | src/data/levels.ts:3-434 | each level's rules are the previous level's rules followed by its new rules |
| Levels.InitialFlags | src/data/levels.ts:3-434 | only level 0 starts unlocked, none starts completed, and only level 4 is a cyber attack |
| Levels.IndexOfLevel | src/data/levels.ts:437 | find returns the first level with the id, or none when no level has it |
| Levels.GetLevel | src/data/levels.ts:436-438 | getLevel finds a level exactly when one has the id, and returns the first such level |
| Levels.GetLevelAtIndex | src/data/levels.ts:436-438 | in a catalogue with ids equal to positions, getLevel(i) is the level at index i |
| Levels.TotalChallenges | src/data/levels.ts:440-442 | the total counts at least the first level's challenges |
| Levels.TotalChallengesAppend | src/data/levels.ts:440-442 | the total of two catalogues back to back is the sum of their totals |
| Levels.TotalChallengesIgnoresFlags | src/data/levels.ts:440-442 | the total depends only on the challenge lists |
| Levels.InitialTotal | src/data/levels.ts:440-442 | the shipped catalogue has 21 challenges |
| Levels.SecretIgnoresLaterLevels | src/data/levels.ts:451-455 | the secret level's state depends only on levels 0 to 10 |
| Levels.SecretMonotone | src/data/levels.ts:451-455 | completing a level never locks the secret level again |
| Levels.InitialSecretLocked | src/data/levels.ts:451-455 | the secret level starts locked |
| Levels.Unlock | src/data/levels.ts:444-449 | unlockNextLevel sets the unlocked flag of the first level with the id and nothing else, or changes nothing when there is none |
| Levels.UnlockKeepsShape | src/data/levels.ts:444-449 | unlocking keeps the catalogue well formed and keeps its total and the secret level's state |
| Levels.Catalogue.constructor | src/data/levels.ts:3 | the catalogue holds the shipped levels |
| Levels.Catalogue.Find | src/data/levels.ts:445 | the search loop returns the first index with the id |
| Levels.Catalogue.UnlockNextLevel | src/data/levels.ts:444-449 | the array afterwards is the catalogue with the level id + 1 unlocked |
| Levels.FirstMatch | src/data/levels.ts:437 | a level with the id and none before it is what find returns |
| Levels.NoMatch | src/data/levels.ts:437 | when no level has the id, find returns none |
| GameStateHook.InitialStateValid | src/hooks/useGameState.ts:5-18 | the initial state is at level 0, challenge 0, with the rules of level 0 in force |
| GameStateHook.AddScore | src/hooks/useGameState.ts:119-124 | addScore adds the points and changes nothing else |
| GameStateHook.AddScoreTwice | src/hooks/useGameState.ts:119-124 | two additions are one addition of the sum |
| GameStateHook.LoseLife | src/hooks/useGameState.ts:126-141 | loseLife lowers the lives by one down to zero, clears the perfect score, and changes nothing else |
| GameStateHook.LivesAfterLosses | src/hooks/useGameState.ts:126-141 | after n losses the lives are max(0, lives - n) |
| GameStateHook.TriggerHack | src/hooks/useGameState.ts:143-148 | triggerHack sets isHacked and glitchMode and changes nothing else |
| GameStateHook.StartTimer | src/hooks/useGameState.ts:182 | startTimer sets the time remaining and changes nothing else |
| GameStateHook.Tick | src/hooks/useGameState.ts:185-198 | a tick counts down a positive time; reaching zero triggers the hack and loses a life; no time or zero time changes nothing |
| GameStateHook.TicksBeforeZero | src/hooks/useGameState.ts:185-198 | k ticks before expiry just count down k seconds |
| GameStateHook.CountdownExpires | src/hooks/useGameState.ts:184-198 | after n ticks from n seconds the time is zero, the game is hacked and one life is lost, and further ticks change nothing |
| GameStateHook.SetLevelState | src/hooks/useGameState.ts:28-56 | setLevel enters an existing unlocked level (the secret level only once levels 0-10 are completed) at challenge 0, with the level's rules, attack flags and first time limit, keeping achievements and the player's code; otherwise nothing changes |
| GameStateHook.SetLevelDropsNewRules | src/hooks/useGameState.ts:41 | entering level 1 by setLevel leaves out level 1's own new rule, so the rules in force differ from nextChallenge's |
| GameStateHook.SetLevelWithNewRules | src/hooks/useGameState.ts:28-56 | the corrected setLevel also puts the level's new rules in force, and otherwise agrees with setLevel |
| GameStateHook.SetLevelWithNewRulesValid | src/hooks/useGameState.ts:28-56 | the corrected setLevel keeps the state valid with the rules of the current level in force |
| GameStateHook.SetLevelValid | src/hooks/useGameState.ts:28-56 | setLevel as written keeps the state valid; on entering a level, the rules in force are that level's full rules exactly when it has no new rules |
| GameStateHook.Game.constructor | src/hooks/useGameState.ts:5-21 | the game starts in the initial state over a catalogue that differs from the shipped one only in its flags, valid and with the rules of level 0 in force |
| GameStateHook.Game.SetLevel | src/hooks/useGameState.ts:28-56 | the state becomes setLevel, as written, of the old state, and the game stays valid |
| GameStateHook.Game.NextChallenge | src/hooks/useGameState.ts:58-117 | within a level, move to the next challenge and its time limit; on the last challenge, complete the level; the game stays valid, and rules in force stay in force |
| GameStateHook.Game.CompleteLevel | src/hooks/useGameState.ts:70-116 | the level is marked completed, the next is unlocked, and the state advances; the game stays valid, and rules in force stay in force |
| GameStateHook.CompletedCatalogue | src/hooks/useGameState.ts:76-90 | the current level becomes itself marked completed and the next itself marked unlocked; every other level is unchanged |
| GameStateHook.AfterLevel | src/hooks/useGameState.ts:70-113 | completing a level records it and keeps lives, perfect score, achievements and code; with a next level, add 1000 and move to its challenge 0 with its new rules added, its attack flags and its first time limit; after the last level, add 5000 |
| GameStateHook.AfterLevelValid | src/hooks/useGameState.ts:70-113 | completing a level keeps the state valid and the rules carrying over, and keeps the rules of the current level in force when they were |
| GameStateHook.UnlockOnlyFlags | src/data/levels.ts:444-449 | unlockNextLevel changes only flags, so a catalogue unlocked before the game starts is one the game accepts |
| GameStateHook.FlagsOnlyKeepsLevel | src/hooks/useGameState.ts:77-87 | changing the flags keeps each level's id, rules, challenges and attack flag |
| GameStateHook.FlagsOnlyKeepShape | src/hooks/useGameState.ts:77-87 | changing the flags keeps the catalogue well formed and the rules carrying over |
| GameStateHook.SecretOpen | src/data/levels.ts:451-455 | the loop over the first eleven levels decides whether all are completed |

## Left out

- Floating point: `/` and `**` with a non-integer result, integers beyond 2^53 (see the lines on NatToDecimal, NumberOfSignedDigits, EvalInteger and IntegerOperators), `Number()` text with a decimal point or an exponent (even an integral one such as `"5."` or `"1e3"`), and `NaN`/`Infinity` corner cases beyond those listed give the outcome `Unmodelled`.
- The base64 and threading host objects are bound as opaque values, and calling them is `Unmodelled`: `atob` and the lock objects are outside the model.
- The regular-expression engine: only the six patterns the source uses are modelled, by hand-written scanners.
- Function values print as a placeholder text, while JavaScript prints their source text.
- Timers and the React UI are outside the model:
  - the `setInterval`/`setTimeout` scheduling is left out (the tick is a pure transition);
  - the 3-second glitch reset and the 5-minute timer cutoff are left out;
  - `Math.random` message choice and all AI messages (`sendAIResponse`, `updateGameState`) are left out;
  - `src/components/` is not part of this model.
- Divergence is an outcome, not a precondition:
  - `range` with a negative step and start < end, and a zero-count line at top level, are `Hangs`.
- Call: a call whose argument is the whole expression again recurses until the stack overflows; the model throws a RangeError with V8's message "Maximum call stack size exceeded" at once (other engines word it differently). Such an argument only arises when the name itself starts with `)`, so it is never len, str or list.
- Statement.ForEach: stops following the loop (`Unmodelled`) as soon as the list has grown past its length when the loop started; the source's `for..of` goes on over the new items and may still end, for example when the body appends only once under an `if`.
- NatToDecimal: JavaScript numbers are IEEE doubles. String() of an integer of 1e21 or more is in exponent form (`print(10 ** 21)` prints `1e+21`), while the model always prints all the digits; it agrees with the source below 1e21.
- NumberOfSignedDigits: holds as stated only for magnitudes up to 2^53; JavaScript rounds larger digit strings to the nearest double (`Number("9007199254740993")` is 9007199254740992).
- EvalInteger: the decimal text of an integer evaluates to that exact integer in the model; in the source this holds only up to 2^53, beyond which the value is rounded.
- IntegerOperators: + - * on integers are exact in the model; in the source the results are doubles, exact only up to 2^53. The same holds for integer `**` in `Arithmetic`, which the model never turns into `Infinity` (`2 ** 1024` is `Infinity` in JavaScript).
- Negative zero: the model has no -0; `Int(0)` stands for both 0 and -0 (`Number("-0")`, `0 * -1`, `-1 % 1`). Where the sign of a zero decides a result, `x / 0` with x non-zero, `Infinity / 0` and `0 ** y` with y negative, the outcome is `Unmodelled` (Expression.ZeroDivisor); JavaScript gives Infinity or -Infinity there (`1 / -0` is -Infinity). String() prints both zeros as "0", and `===` and the comparisons treat them as equal, so nothing else observes the difference.
- Evaluator.CodeEvaluator.RunTestCase: requires that the program completes or throws, because a program the model does not follow has no output to compare.
- Evaluator.CodeEvaluator.ExecutePythonLikeCode: pushes the printed lines onto the buffer when the run ends, not one by one as each print runs; only the final buffer is stated.
- Evaluator.CodeEvaluator.ValidateRules: loops over the message table of the ten checks, not over ten separate if statements.
- Statement.ForEachLeavesLast: is proved for an empty loop body only; for a non-empty body, Statement.ForPrintsEachItem covers print(name); other bodies are covered only by the heap-and-output growth of ForEach.
- Statement.Define: the function value that parseFunction builds is stored but never called, because the source's expression evaluator never reads the functions table.
- Statement.DefineClass: the constructor ignores its arguments and `__init__`, as the source does.
- Statement.IfChain: states only the lower bound on the lines consumed; the exact counts are in TakenBranchEndsChain, FalseBranchSkips and BareElseRuns.
- Expression.Eval: its contract states only that the heap grows; its cases are stated by the lemmas EvalQuoted, EvalBoundName, AppendInPlace, Pop and the operator functions.
- Statement.WhileTrueRunsToCap: is proved for an empty loop body; with a non-empty body, WhileFrom bounds the iterations by 1000.
- Prototype members of JavaScript objects (`toString`, `constructor`) used as names or properties are not modelled.
- An error object's `.stack`, and a function value's `.length` and `.name`, read as undefined in the model; JavaScript gives the stack trace, the parameter count and the function's name.
- Strings are sequences of Unicode scalar values; JavaScript's UTF-16 code units differ only outside the Basic Multilingual Plane.

## Findings

| source | as written | input that shows it | evidently intended | confidence | as-written member | corrected member |
|---|---|---|---|---|---|---|
| src/hooks/useGameState.ts:41 | setLevel sets `activeRules` to `level.rules`, which leaves out the level's own `newRules` that nextChallenge (line 98) puts in force on reaching the level | unlock level 1 and call setLevel(1): the rules in force are empty, while level 1's new rule is "All answers must use variables (no hardcoding values)" | the rules in force on entering a level are `level.rules + level.newRules`, as after nextChallenge | not executed | GameStateHook.SetLevelDropsNewRules | GameStateHook.SetLevelWithNewRules |
