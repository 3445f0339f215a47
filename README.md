# Code block interpreter, modelled in Dafny

The Android app lets a user assemble a program from visual code blocks.
There are eight kinds of block: variable declaration, assignment, arithmetic
operation, if, if-else, while, array declaration and array access. Each block
carries string parameters and child blocks. The `Interpreter` runs a block
list against three pieces of mutable state:

- a map of integer variables;
- a map of integer arrays;
- an output list of trace lines.

Any failure becomes one final `Error: <message>` line. Expressions are read by
a recursive-descent `Parser` over `+ - * / %`, parentheses, decimal literals
and variable names, in 32-bit wrapping arithmetic. Conditions are split at the
earliest of the six comparison operators.

The project is organised as follows:

- `block_type.dfy`: the block kinds and their display names.
- `code_block.dfy`: a block's value equality and its hash. The timestamp is
  ignored by both.
- `int32.dfy`: Kotlin `Int` arithmetic (wrap-around, division truncating
  toward zero).
- `text.dfy`: the `String` functions the interpreter uses (`trim`, `split`,
  `indexOf`, `toIntOrNull`, `isBlank`).
- `errors.dfy`: every exception, with its message text.
- `expr_parser.dfy`: the parser twice over.
  - As functions, one per grammar rule, from a position to a value and a new
    position.
  - As the `Parser` class, whose methods move `pos` and are proved to agree
    with those functions.
- `expr_semantics.dfy`: an expression tree, its value, and a printer. Parsing
  a printed tree gives the tree's value, so precedence, left grouping and the
  order of errors are established.
- `conditions.dfy`: `evaluateCondition`, with the operator selection proved
  to pick the earliest occurrence, ties going to the operator listed first.
- `semantics.dfy`: what a run does, as functions on an immutable `State`.
  - Each handler maps a state to an `Outcome`: normal, aborted with an error,
    or out of fuel.
  - A trace line is a `Line` value, and `Render` gives its exact text.
- `interpreter.dfy`: the `Interpreter` class itself.
  - It holds `variables`, `arrays` (a map to `array<Int32>`, updated in
    place) and `output`.
  - Each handler is a method proved against its `Semantics` function.
- `engine_properties.dfy`: what the semantics guarantees.
  - The trace only grows, and each block writes a line first.
  - An error stops the run.
  - More fuel does not change a finished run.
  - The if-else children are partitioned by branch.
  - Declarations, assignments and array accesses change exactly what they
    name.

Text with a blank in front of an operator, such as `x * 2` or
`(2 + 3) * 4 - 1`, does not parse. Whitespace is skipped only in front of a
factor and before `)`, never in front of an operator, so such text stops with
"Unexpected character" or "Missing closing parenthesis".
`ExprSemantics.TrailingTextRejected` and
`ExprSemantics.MissingClosingParenthesis` state this.

## Model

| member | source | states |
|---|---|---|
| BlockTypes.Ordinal | src/main/java/com/example/codeblockinterpreter/model/BlockType.kt:3-11 | the ordinal of a kind is its position in the declaration order |
| BlockTypes.ExactlyEightKinds | src/main/java/com/example/codeblockinterpreter/model/BlockType.kt:3-11 | there are exactly eight kinds, listed once each |
| BlockTypes.DisplayNameInjective | src/main/java/com/example/codeblockinterpreter/model/BlockType.kt:13-24 | every display name is non-empty and no two kinds share one |
| CodeBlocks.StripAll | src/main/java/com/example/codeblockinterpreter/model/CodeBlock.kt:3-8 | the child list with every timestamp dropped, one block per block; `EqualsIffStripped` and `ListEqualsIffStripped` prove that `equals` is plain equality of the stripped trees |
| CodeBlocks.EqualsIffStripped | src/main/java/com/example/codeblockinterpreter/model/CodeBlock.kt:9-16 | two blocks are `equals` exactly when they agree once every timestamp in the tree is ignored |
| CodeBlocks.ListEqualsIffStripped | src/main/java/com/example/codeblockinterpreter/model/CodeBlock.kt:9-16 | two child lists are equal exactly when they agree once the timestamps are ignored |
| CodeBlocks.EqualsReflexive | src/main/java/com/example/codeblockinterpreter/model/CodeBlock.kt:9-16 | `equals` is reflexive |
| CodeBlocks.EqualsSymmetric | src/main/java/com/example/codeblockinterpreter/model/CodeBlock.kt:9-16 | `equals` is symmetric |
| CodeBlocks.EqualsTransitive | src/main/java/com/example/codeblockinterpreter/model/CodeBlock.kt:9-16 | `equals` is transitive |
| CodeBlocks.NewBlocksEqual | src/main/java/com/example/codeblockinterpreter/model/CodeBlock.kt:3-16 | blocks made at different times are `equals` yet differ as values; defaults are no parameters and no children |
| CodeBlocks.HashAgreesWithEquals | src/main/java/com/example/codeblockinterpreter/model/CodeBlock.kt:18-20 | equal blocks have equal hash codes (the `equals`/`hashCode` contract) |
| CodeBlocks.ListHashAgrees | src/main/java/com/example/codeblockinterpreter/model/CodeBlock.kt:18-20 | equal child lists have equal list hash codes |
| Int32s.Wrap | src/main/java/com/example/codeblockinterpreter/interpreter/Interpreter.kt:184-185 | wrapping leaves every value in the `Int` range unchanged |
| Int32s.WrapTimesTenPlus | src/main/java/com/example/codeblockinterpreter/interpreter/Interpreter.kt:236-240 | wrapping after each digit of `num * 10 + d` gives the wrapped decimal value of the whole literal |
| Int32s.TruncDiv | src/main/java/com/example/codeblockinterpreter/interpreter/Interpreter.kt:197-202 | the quotient rounds toward zero: the remainder is smaller than the divisor in size and takes the dividend's sign; the quotient is no larger than the dividend in size |
| Int32s.DivTruncates | src/main/java/com/example/codeblockinterpreter/interpreter/Interpreter.kt:197-202 | `/` is the truncated quotient, except that `MIN_VALUE / -1` wraps to `MIN_VALUE` |
| Int32s.RemBounds | src/main/java/com/example/codeblockinterpreter/interpreter/Interpreter.kt:203-208 | `%` is smaller than the divisor in size and takes the dividend's sign |
| Int32s.DivRemIdentity | src/main/java/com/example/codeblockinterpreter/interpreter/Interpreter.kt:197-208 | `(a / b) * b + a % b == a` in wrapping arithmetic |
| Text.DigitValue | src/main/java/com/example/codeblockinterpreter/interpreter/Interpreter.kt:238 | a digit's value `c - '0'` is below ten |
| Text.DigitChar | src/main/java/com/example/codeblockinterpreter/interpreter/Interpreter.kt:238 | the digit character for a value below ten is a digit and reads back as that value |
| Text.NatToString | src/main/java/com/example/codeblockinterpreter/interpreter/Interpreter.kt:78 | an `Int` in a string template is a non-empty digit run with the number's value and no leading zero |
| Text.IntToStringRoundTrip | src/main/java/com/example/codeblockinterpreter/interpreter/Interpreter.kt:111-136 | `toIntOrNull` reads every printed `Int` back as itself |
| Text.TrimStartIndex | src/main/java/com/example/codeblockinterpreter/interpreter/Interpreter.kt:152-153 | the start of the trimmed part lies within the text |
| Text.TrimEndIndex | src/main/java/com/example/codeblockinterpreter/interpreter/Interpreter.kt:152-153 | the end of the trimmed part lies between its start and the end of the text |
| Text.TrimStartSkipsWhitespace | src/main/java/com/example/codeblockinterpreter/interpreter/Interpreter.kt:152-153 | `trim` drops exactly the leading whitespace |
| Text.TrimEndSkipsWhitespace | src/main/java/com/example/codeblockinterpreter/interpreter/Interpreter.kt:152-153 | `trim` drops exactly the trailing whitespace |
| Text.TrimmedPart | src/main/java/com/example/codeblockinterpreter/interpreter/Interpreter.kt:59-63 | the trimmed text neither starts nor ends with whitespace, sits between blank margins of the text, and is empty exactly when the text is blank |
| Text.Split | src/main/java/com/example/codeblockinterpreter/interpreter/Interpreter.kt:59 | `split` always yields at least one piece |
| Text.SplitPieces | src/main/java/com/example/codeblockinterpreter/interpreter/Interpreter.kt:59 | joining the pieces with the separator gives back the text; no piece holds the separator; there is one more piece than separators |
| Text.IndexOfFrom | src/main/java/com/example/codeblockinterpreter/interpreter/Interpreter.kt:149 | the search result is -1 or a position at or after the start where the pattern occurs |
| Text.IndexOf | src/main/java/com/example/codeblockinterpreter/interpreter/Interpreter.kt:149 | `indexOf` is -1 or a position where the pattern occurs |
| Text.IndexOfFromFirst | src/main/java/com/example/codeblockinterpreter/interpreter/Interpreter.kt:149 | the search from a start finds the first occurrence from there, or -1 when there is none |
| Text.IndexOfFirst | src/main/java/com/example/codeblockinterpreter/interpreter/Interpreter.kt:149 | `indexOf` is -1 exactly when the pattern never occurs; otherwise it is the first occurrence |
| ExprParser.WhitespaceEnd | src/main/java/com/example/codeblockinterpreter/interpreter/Interpreter.kt:252-256 | skipping whitespace stops within the text, at its end or on a non-whitespace character |
| ExprParser.WhitespaceSkipped | src/main/java/com/example/codeblockinterpreter/interpreter/Interpreter.kt:252-256 | everything skipped is whitespace |
| ExprParser.NumberAt | src/main/java/com/example/codeblockinterpreter/interpreter/Interpreter.kt:235-241 | reading a number stops within the text, at its end or on a non-digit |
| ExprParser.DigitsRead | src/main/java/com/example/codeblockinterpreter/interpreter/Interpreter.kt:235-241 | every character consumed by a number is a digit |
| ExprParser.IdentifierEnd | src/main/java/com/example/codeblockinterpreter/interpreter/Interpreter.kt:243-247 | reading a name stops within the text, at its end or on a character that cannot continue a name |
| ExprParser.IdentifierRead | src/main/java/com/example/codeblockinterpreter/interpreter/Interpreter.kt:243-247 | every character consumed by a name is a letter, digit or `_` |
| ExprParser.VariableAt | src/main/java/com/example/codeblockinterpreter/interpreter/Interpreter.kt:243-250 | a variable read ends within the text, never before it starts |
| ExprParser.ExpressionAt | src/main/java/com/example/codeblockinterpreter/interpreter/Interpreter.kt:180-190 | a successful expression consumes at least one character and ends within the text |
| ExprParser.ExpressionTail | src/main/java/com/example/codeblockinterpreter/interpreter/Interpreter.kt:182-188 | the `+ -` loop ends within the text, never before it starts |
| ExprParser.TermAt | src/main/java/com/example/codeblockinterpreter/interpreter/Interpreter.kt:192-213 | a successful term consumes at least one character and ends within the text |
| ExprParser.TermTail | src/main/java/com/example/codeblockinterpreter/interpreter/Interpreter.kt:194-211 | the `* / %` loop ends within the text, never before it starts |
| ExprParser.FactorAt | src/main/java/com/example/codeblockinterpreter/interpreter/Interpreter.kt:215-233 | a successful factor consumes at least one character and ends within the text |
| ExprParser.ParenAt | src/main/java/com/example/codeblockinterpreter/interpreter/Interpreter.kt:220-228 | a successful parenthesised factor consumes at least one character and ends within the text |
| ExprParser.Parser.constructor | src/main/java/com/example/codeblockinterpreter/interpreter/Interpreter.kt:169-170 | a parser starts at position 0 over its input and the variables |
| ExprParser.Parser.Parse | src/main/java/com/example/codeblockinterpreter/interpreter/Interpreter.kt:172-178 | the method returns what the parsing function gives from the current position |
| ExprParser.Parser.ParseExpression | src/main/java/com/example/codeblockinterpreter/interpreter/Interpreter.kt:180-190 | the result and the new position agree with `ExpressionAt` |
| ExprParser.Parser.ParseTerm | src/main/java/com/example/codeblockinterpreter/interpreter/Interpreter.kt:192-213 | the result and the new position agree with `TermAt`, division and modulo by zero included |
| ExprParser.Parser.ParseFactor | src/main/java/com/example/codeblockinterpreter/interpreter/Interpreter.kt:215-233 | the result and the new position agree with `FactorAt` |
| ExprParser.Parser.ParseNumber | src/main/java/com/example/codeblockinterpreter/interpreter/Interpreter.kt:235-241 | the value and the new position are those of `NumberAt` |
| ExprParser.Parser.ParseVariable | src/main/java/com/example/codeblockinterpreter/interpreter/Interpreter.kt:243-250 | the result and the new position agree with `VariableAt`, an unknown name included |
| ExprParser.Parser.SkipWhitespace | src/main/java/com/example/codeblockinterpreter/interpreter/Interpreter.kt:252-256 | the position moves to `WhitespaceEnd` |
| ExprSemantics.NumRoundTrip | src/main/java/com/example/codeblockinterpreter/interpreter/Interpreter.kt:235-241 | a printed literal parses as a factor to its wrapped value |
| ExprSemantics.NameRoundTrip | src/main/java/com/example/codeblockinterpreter/interpreter/Interpreter.kt:243-250 | a printed name parses as a factor to its variable's value, or fails as unknown |
| ExprSemantics.ParenRoundTrip | src/main/java/com/example/codeblockinterpreter/interpreter/Interpreter.kt:220-228 | a parenthesised printed tree parses to the tree's value |
| ExprSemantics.FactorRoundTrip | src/main/java/com/example/codeblockinterpreter/interpreter/Interpreter.kt:215-233 | a tree printed as a factor parses as a factor to its value |
| ExprSemantics.MulRoundTrip | src/main/java/com/example/codeblockinterpreter/interpreter/Interpreter.kt:192-213 | a printed `* / %` chain parses to its left-grouped value |
| ExprSemantics.TermRoundTrip | src/main/java/com/example/codeblockinterpreter/interpreter/Interpreter.kt:192-213 | a tree printed as a term parses as a term to its value |
| ExprSemantics.AddRoundTrip | src/main/java/com/example/codeblockinterpreter/interpreter/Interpreter.kt:180-190 | a printed `+ -` chain parses to its left-grouped value |
| ExprSemantics.ExprRoundTrip | src/main/java/com/example/codeblockinterpreter/interpreter/Interpreter.kt:180-190 | a tree printed as an expression parses as an expression to its value |
| ExprSemantics.ParsePrinted | src/main/java/com/example/codeblockinterpreter/interpreter/Interpreter.kt:172-250 | parsing any printed tree gives its value or the first error its evaluation meets: `* / %` bind tighter than `+ -`, both group to the left |
| ExprSemantics.TrailingTextRejected | src/main/java/com/example/codeblockinterpreter/interpreter/Interpreter.kt:172-190 | text after a complete expression that does not continue it fails with "Unexpected character at position"; whitespace before an operator is never skipped |
| ExprSemantics.MissingClosingParenthesis | src/main/java/com/example/codeblockinterpreter/interpreter/Interpreter.kt:220-227 | after `(` and an expression, anything but blanks then `)` fails as a missing closing parenthesis |
| ExprSemantics.ParenUnclosed | src/main/java/com/example/codeblockinterpreter/interpreter/Interpreter.kt:223-226 | a factor on `(` fails when no `)` follows the inner expression and its blanks |
| ExprSemantics.LeadingCharacter | src/main/java/com/example/codeblockinterpreter/interpreter/Interpreter.kt:215-231 | a text whose first non-blank character cannot start a factor fails with that character and its position (no unary minus) |
| Conditions.OccurrencesFound | src/main/java/com/example/codeblockinterpreter/interpreter/Interpreter.kt:147-149 | each candidate is an operator of the list paired with its `indexOf` |
| Conditions.EarliestOccurrence | src/main/java/com/example/codeblockinterpreter/interpreter/Interpreter.kt:150 | `minByOrNull` is null exactly on an empty list and otherwise picks one of its elements |
| Conditions.EarliestIsMinimal | src/main/java/com/example/codeblockinterpreter/interpreter/Interpreter.kt:150 | the chosen candidate has the smallest index |
| Conditions.SelectOperator | src/main/java/com/example/codeblockinterpreter/interpreter/Interpreter.kt:147-150 | a selected operator is one of the six and occurs in the condition at the selected index |
| Conditions.ScanSelects | src/main/java/com/example/codeblockinterpreter/interpreter/Interpreter.kt:146-167 | scanning the operators one by one decides the condition at the earliest occurrence overall |
| Conditions.EvaluateConditionSelects | src/main/java/com/example/codeblockinterpreter/interpreter/Interpreter.kt:146-167 | `evaluateCondition` splits the condition at the selected operator and compares the trimmed sides |
| Conditions.CompareTotal | src/main/java/com/example/codeblockinterpreter/interpreter/Interpreter.kt:158-166 | the "Unknown operator" branch is unreachable for the six operators |
| Conditions.NoOperatorInvalid | src/main/java/com/example/codeblockinterpreter/interpreter/Interpreter.kt:148-150 | a condition holding no operator fails with "Invalid condition" |
| Conditions.Selection | src/main/java/com/example/codeblockinterpreter/interpreter/Interpreter.kt:147-150 | the earliest-occurring operator is chosen, ties going to the one listed first; none is chosen exactly when none occurs |
| Conditions.LongerOperatorWins | src/main/java/com/example/codeblockinterpreter/interpreter/Interpreter.kt:147-150 | where `<=` occurs, `<` at the same place is not chosen, because `<=` is listed first |
| Semantics.Lines | src/main/java/com/example/codeblockinterpreter/interpreter/Interpreter.kt:50-136 | the output holds one rendered string per trace line, in order |
| Semantics.Branch | src/main/java/com/example/codeblockinterpreter/interpreter/Interpreter.kt:51-54 | the children kept by one of the two `filter` calls, no larger than all children; `BranchSingle` and `BranchesPartition` prove which children each branch keeps |
| Semantics.TrimAll | src/main/java/com/example/codeblockinterpreter/interpreter/Interpreter.kt:59 | each name is its piece trimmed, one per piece |
| BlockTypes.DisplayName | src/main/java/com/example/codeblockinterpreter/model/BlockType.kt:13-24 | the display name of each kind, word for word; `DisplayNameInjective` proves the names non-empty and distinct |
| CodeBlocks.Equals | src/main/java/com/example/codeblockinterpreter/model/CodeBlock.kt:9-16 | `equals`: same kind, same parameters, pairwise equal children, timestamps ignored; `EqualsIffStripped` proves it is equality after dropping timestamps, and the three lemmas below prove it an equivalence |
| CodeBlocks.ListEquals | src/main/java/com/example/codeblockinterpreter/model/CodeBlock.kt:15 | list equality element by element under `equals`; `ListEqualsIffStripped` proves it is equality of the stripped lists |
| CodeBlocks.StringHash | src/main/java/com/example/codeblockinterpreter/model/CodeBlock.kt:18-20 | `String.hashCode` (`31 * h + c`, wrapping), used for the parameter map hash; `HashAgreesWithEquals` proves `hashCode` respects `equals` |
| Int32s.Add | src/main/java/com/example/codeblockinterpreter/interpreter/Interpreter.kt:184 | `result += t` wrapping to 32 bits; `Wrap` and `WrapDifference` prove it is the mathematical sum up to a multiple of 2^32, and exact in range |
| Int32s.Sub | src/main/java/com/example/codeblockinterpreter/interpreter/Interpreter.kt:185 | `result -= t` wrapping to 32 bits; the same `Wrap` facts apply |
| Int32s.Mul | src/main/java/com/example/codeblockinterpreter/interpreter/Interpreter.kt:196 | `result *= f` wrapping to 32 bits; the same `Wrap` facts apply |
| Int32s.Div | src/main/java/com/example/codeblockinterpreter/interpreter/Interpreter.kt:201 | `result /= divisor` for a non-zero divisor; `DivTruncates` proves it rounds toward zero, with `MIN_VALUE / -1` wrapping |
| Int32s.Rem | src/main/java/com/example/codeblockinterpreter/interpreter/Interpreter.kt:207 | `result %= divisor` for a non-zero divisor; `RemBounds` and `DivRemIdentity` prove its sign, size and its identity with `/` |
| Text.IsBlank | src/main/java/com/example/codeblockinterpreter/interpreter/Interpreter.kt:63 | `isBlank`: every character is whitespace; `TrimmedPart` proves a text is blank exactly when its trimmed form is empty |
| Text.Trim | src/main/java/com/example/codeblockinterpreter/interpreter/Interpreter.kt:152-153 | `trim`; `TrimmedPart`, `TrimStartSkipsWhitespace` and `TrimEndSkipsWhitespace` prove it removes exactly the outer whitespace |
| Text.ToIntOrNull | src/main/java/com/example/codeblockinterpreter/interpreter/Interpreter.kt:111 | `toIntOrNull`: an optional sign, ASCII digits only and a value in the `Int` range, else null; `IntToStringRoundTrip` proves it reads back every printed `Int` |
| Text.IntToString | src/main/java/com/example/codeblockinterpreter/interpreter/Interpreter.kt:78 | an `Int` in a string template; `NatToString` and `IntToStringRoundTrip` prove the digits carry the value |
| ExprParser.AddOrSubtract | src/main/java/com/example/codeblockinterpreter/interpreter/Interpreter.kt:184-185 | one `+` or `-` step of the expression loop; `ParsePrinted` proves the loop agrees with `Eval` |
| ExprParser.MultiplyOrDivide | src/main/java/com/example/codeblockinterpreter/interpreter/Interpreter.kt:196-207 | one `* / %` step of the term loop, failing on a zero divisor with "Division by zero" or "Modulo by zero"; `ParsePrinted` proves the loop agrees with `Eval` |
| ExprParser.ParseFrom | src/main/java/com/example/codeblockinterpreter/interpreter/Interpreter.kt:172-178 | `parse`: the expression from the position, then "Unexpected character at position" unless the text ends there; `ParsePrinted`, `TrailingTextRejected` and `LeadingCharacter` prove what it accepts and rejects |
| Errors.ErrorMessage | src/main/java/com/example/codeblockinterpreter/interpreter/Interpreter.kt:46-249 | the message of each exception, word for word as thrown for text made of characters up to U+FFFF; `InterpretTrace` proves it is written after `Error: ` as the last line |
| Conditions.Compare | src/main/java/com/example/codeblockinterpreter/interpreter/Interpreter.kt:158-166 | the six comparisons, and "Unknown operator" for any other text; `CompareTotal` proves the six never reach that branch |
| Conditions.EvaluateExpression | src/main/java/com/example/codeblockinterpreter/interpreter/Interpreter.kt:142-144 | `evaluateExpression`: a fresh parser over the current variables; `ParsePrinted` proves its value |
| Conditions.EvaluateCondition | src/main/java/com/example/codeblockinterpreter/interpreter/Interpreter.kt:146-167 | `evaluateCondition`; `EvaluateConditionSelects`, `Selection` and `NoOperatorInvalid` prove where it splits the condition and when it fails |
| Semantics.Render | src/main/java/com/example/codeblockinterpreter/interpreter/Interpreter.kt:50-136 | the exact text of each trace line the handlers add; `Lines` proves the output is one rendered line per trace entry |
| Semantics.ExecBlocks | src/main/java/com/example/codeblockinterpreter/interpreter/Interpreter.kt:30-43 | `executeBlocks` on the state, stopping at the first error; `ExecBlocksAppend`, `FailureStopsRun`, `ExecBlocksExtends` and `ExecBlocksFuel` prove it runs blocks in order, stops at an error, only grows the state and does not depend on spare fuel |
| Semantics.ExecBlock | src/main/java/com/example/codeblockinterpreter/interpreter/Interpreter.kt:32-41 | the dispatch on the block kind; `NoBlockIsSilent` and `ExecBlockExtends` prove every block that finishes writes a line and only grows the state |
| Semantics.If | src/main/java/com/example/codeblockinterpreter/interpreter/Interpreter.kt:87-97 | `handleIf`; `IfBranchFirst` proves the condition line comes first and a false condition writes nothing more |
| Semantics.IfElse | src/main/java/com/example/codeblockinterpreter/interpreter/Interpreter.kt:45-56 | `handleIfElse`; `IfElseBranchFirst` and `BranchesPartition` prove the branch line comes first and each child runs in exactly one branch |
| Semantics.While | src/main/java/com/example/codeblockinterpreter/interpreter/Interpreter.kt:99-107 | `handleWhile`, running its body at most `fuel` times each time the block is entered; `WhileFalseAtOnce` and `WhileExtends` prove a false condition writes only the FALSE line and the loop only grows the state |
| Semantics.Loop | src/main/java/com/example/codeblockinterpreter/interpreter/Interpreter.kt:102-106 | the loop of `handleWhile`; `LoopTestFirst`, `LoopExtends` and `LoopFuel` prove each test writes its line first, each iteration grows the state and spare fuel changes nothing |
| Semantics.DeclareVariables | src/main/java/com/example/codeblockinterpreter/interpreter/Interpreter.kt:58-68 | `handleVariableDeclaration`: split at commas, trim, declare in order; `DeclareNamesFresh` and `DeclareNamesStops` prove its effect and its errors |
| Semantics.DeclareNames | src/main/java/com/example/codeblockinterpreter/interpreter/Interpreter.kt:62-67 | the loop over the names; `DeclareNamesAppend` proves it stops at the first failure, keeping the names declared before it |
| Semantics.Assign | src/main/java/com/example/codeblockinterpreter/interpreter/Interpreter.kt:70-79 | `handleAssignment`; `AssignChecksDeclaration` and `AssignChangesOneVariable` prove its checks and that it changes only its variable |
| Semantics.Arithmetic | src/main/java/com/example/codeblockinterpreter/interpreter/Interpreter.kt:81-85 | `handleArithmetic`; `ArithmeticKeepsState` proves it changes no variable or array |
| Semantics.DeclareArray | src/main/java/com/example/codeblockinterpreter/interpreter/Interpreter.kt:109-119 | `handleArrayDeclaration`; `DeclareArrayZeros` and `DeclareArrayChecksNameFirst` prove the zero-filled new array and the order of its checks |
| Semantics.AccessArray | src/main/java/com/example/codeblockinterpreter/interpreter/Interpreter.kt:121-140 | `handleArrayAccess`; `AccessChecksBoundsFirst` and `AccessChangesOneElement` prove the order of its checks and that `set` changes one element only |
| Semantics.Interpret | src/main/java/com/example/codeblockinterpreter/interpreter/Interpreter.kt:12-21 | `interpret` from the empty state; `InterpretTrace` proves the output is the trace with one final `Error:` line exactly when an exception stopped the run |
| Engine.Interpreter.constructor | src/main/java/com/example/codeblockinterpreter/interpreter/Interpreter.kt:6-10 | a new interpreter has no variables, arrays or output |
| Engine.Interpreter.ClearState | src/main/java/com/example/codeblockinterpreter/interpreter/Interpreter.kt:23-28 | variables, arrays and output are all empty afterwards |
| Engine.Interpreter.Interpret | src/main/java/com/example/codeblockinterpreter/interpreter/Interpreter.kt:12-21 | the returned lines are the rendered output list and equal `Semantics.Interpret` |
| Engine.Interpreter.ExecuteBlocks | src/main/java/com/example/codeblockinterpreter/interpreter/Interpreter.kt:30-43 | running the blocks in turn gives `Semantics.ExecBlocks` |
| Engine.Interpreter.ExecuteBlock | src/main/java/com/example/codeblockinterpreter/interpreter/Interpreter.kt:32-41 | each kind goes to its handler, as `Semantics.ExecBlock` |
| Engine.Interpreter.HandleIfElse | src/main/java/com/example/codeblockinterpreter/interpreter/Interpreter.kt:45-56 | the new state and status are those of `Semantics.IfElse` |
| Engine.Interpreter.HandleVariableDeclaration | src/main/java/com/example/codeblockinterpreter/interpreter/Interpreter.kt:58-68 | the new state and status are those of `Semantics.DeclareVariables` |
| Engine.Interpreter.HandleAssignment | src/main/java/com/example/codeblockinterpreter/interpreter/Interpreter.kt:70-79 | the new state and status are those of `Semantics.Assign` |
| Engine.Interpreter.HandleArithmetic | src/main/java/com/example/codeblockinterpreter/interpreter/Interpreter.kt:81-85 | the new state and status are those of `Semantics.Arithmetic` |
| Engine.Interpreter.HandleIf | src/main/java/com/example/codeblockinterpreter/interpreter/Interpreter.kt:87-97 | the new state and status are those of `Semantics.If` |
| Engine.Interpreter.HandleWhile | src/main/java/com/example/codeblockinterpreter/interpreter/Interpreter.kt:99-107 | the new state and status are those of `Semantics.While` |
| Engine.Interpreter.WhileStep | src/main/java/com/example/codeblockinterpreter/interpreter/Interpreter.kt:102-105 | one test of the while condition, and one run of the body when it holds, keeps the loop on course to its `Semantics.Loop` outcome |
| Engine.Interpreter.HandleArrayDeclaration | src/main/java/com/example/codeblockinterpreter/interpreter/Interpreter.kt:109-119 | the new state and status are those of `Semantics.DeclareArray` |
| Engine.Interpreter.AddArray | src/main/java/com/example/codeblockinterpreter/interpreter/Interpreter.kt:117-118 | a fresh zero-filled array of the size is added under the name, with its trace line; variables are unchanged |
| Engine.Interpreter.Zeros | src/main/java/com/example/codeblockinterpreter/interpreter/Interpreter.kt:117 | `IntArray(size) { 0 }` is a fresh array of `size` zeros |
| Engine.Interpreter.HandleArrayAccess | src/main/java/com/example/codeblockinterpreter/interpreter/Interpreter.kt:121-140 | the new state and status are those of `Semantics.AccessArray` |
| Engine.Interpreter.Store | src/main/java/com/example/codeblockinterpreter/interpreter/Interpreter.kt:135-136 | exactly one element of the named array changes, and the `Set` line is written |
| Engine.Interpreter.EvaluateExpression | src/main/java/com/example/codeblockinterpreter/interpreter/Interpreter.kt:142-144 | a fresh parser over the current variables gives `Conditions.EvaluateExpression` |
| Engine.Interpreter.EvaluateCondition | src/main/java/com/example/codeblockinterpreter/interpreter/Interpreter.kt:146-167 | the result is `Conditions.EvaluateCondition` over the current variables |
| EngineProperties.ExtendsTransitive | src/main/java/com/example/codeblockinterpreter/interpreter/Interpreter.kt:7-9 | growing the state twice is growing it once |
| EngineProperties.DeclareNamesExtends | src/main/java/com/example/codeblockinterpreter/interpreter/Interpreter.kt:62-67 | declaring names only appends lines and adds variables |
| EngineProperties.ExecBlocksExtends | src/main/java/com/example/codeblockinterpreter/interpreter/Interpreter.kt:30-43 | a run only appends output (never an error line), never removes a variable or an array, and never resizes an array |
| EngineProperties.ExecBlockExtends | src/main/java/com/example/codeblockinterpreter/interpreter/Interpreter.kt:32-41 | every block grows the state in that sense |
| EngineProperties.IfExtends | src/main/java/com/example/codeblockinterpreter/interpreter/Interpreter.kt:87-97 | an if block grows the state |
| EngineProperties.IfElseExtends | src/main/java/com/example/codeblockinterpreter/interpreter/Interpreter.kt:45-56 | an if-else block grows the state |
| EngineProperties.WhileExtends | src/main/java/com/example/codeblockinterpreter/interpreter/Interpreter.kt:99-107 | a while block grows the state |
| EngineProperties.LoopExtends | src/main/java/com/example/codeblockinterpreter/interpreter/Interpreter.kt:102-106 | every iteration of the loop grows the state |
| EngineProperties.ExecBlocksAppend | src/main/java/com/example/codeblockinterpreter/interpreter/Interpreter.kt:30-43 | running `xs + ys` runs `xs`, then `ys` only if `xs` finished normally |
| EngineProperties.FailureStopsRun | src/main/java/com/example/codeblockinterpreter/interpreter/Interpreter.kt:14-19 | an exception in `xs` means the blocks after it never run |
| EngineProperties.LinesAppend | src/main/java/com/example/codeblockinterpreter/interpreter/Interpreter.kt:9 | rendering is line by line |
| EngineProperties.InterpretTrace | src/main/java/com/example/codeblockinterpreter/interpreter/Interpreter.kt:12-21 | `interpret` returns the trace of a run from the empty state, with one `Error: message` line last exactly when an exception stopped it |
| EngineProperties.BranchAppend | src/main/java/com/example/codeblockinterpreter/interpreter/Interpreter.kt:51-54 | the branch filter keeps the children's order |
| EngineProperties.BranchSingle | src/main/java/com/example/codeblockinterpreter/interpreter/Interpreter.kt:51-54 | a child goes to the else branch exactly when its `branch` parameter is `else` |
| EngineProperties.BranchesPartition | src/main/java/com/example/codeblockinterpreter/interpreter/Interpreter.kt:51-54 | every child is in exactly one of the two branches, and the right one |
| EngineProperties.IfBranchFirst | src/main/java/com/example/codeblockinterpreter/interpreter/Interpreter.kt:87-97 | an if block first writes its condition line; when the condition is false it writes nothing else |
| EngineProperties.IfElseBranchFirst | src/main/java/com/example/codeblockinterpreter/interpreter/Interpreter.kt:45-56 | an if-else block first writes the line naming the branch taken |
| EngineProperties.WhileFalseAtOnce | src/main/java/com/example/codeblockinterpreter/interpreter/Interpreter.kt:99-107 | a while whose condition is false at once only writes the FALSE line |
| EngineProperties.LoopFinishesAfterTest | src/main/java/com/example/codeblockinterpreter/interpreter/Interpreter.kt:102-106 | a loop that finishes normally had a condition that evaluated, and an iteration to spare whenever it held |
| EngineProperties.LoopTestFirst | src/main/java/com/example/codeblockinterpreter/interpreter/Interpreter.kt:102-106 | each test of the while condition writes its TRUE or FALSE line before anything else |
| EngineProperties.ExecBlocksFuel | src/main/java/com/example/codeblockinterpreter/interpreter/Interpreter.kt:30-43 | a run that finished with some fuel finishes the same with more |
| EngineProperties.ExecBlockFuel | src/main/java/com/example/codeblockinterpreter/interpreter/Interpreter.kt:32-41 | the same for one block |
| EngineProperties.IfFuel | src/main/java/com/example/codeblockinterpreter/interpreter/Interpreter.kt:87-97 | the same for an if block |
| EngineProperties.IfElseFuel | src/main/java/com/example/codeblockinterpreter/interpreter/Interpreter.kt:45-56 | the same for an if-else block |
| EngineProperties.LoopFuel | src/main/java/com/example/codeblockinterpreter/interpreter/Interpreter.kt:102-106 | the same for a loop given more iterations |
| EngineProperties.DeclareNamesAppend | src/main/java/com/example/codeblockinterpreter/interpreter/Interpreter.kt:62-67 | names are declared in order, stopping at the first failure |
| EngineProperties.DeclareNamesFresh | src/main/java/com/example/codeblockinterpreter/interpreter/Interpreter.kt:62-67 | fresh, non-blank, distinct names are all declared as 0 with one line each; nothing else changes |
| EngineProperties.DeclareNamesStops | src/main/java/com/example/codeblockinterpreter/interpreter/Interpreter.kt:63-64 | the first blank or repeated name aborts with its error, keeping the names declared before it |
| EngineProperties.AssignChecksDeclaration | src/main/java/com/example/codeblockinterpreter/interpreter/Interpreter.kt:74 | assigning to an undeclared variable fails before the expression is evaluated |
| EngineProperties.AssignChangesOneVariable | src/main/java/com/example/codeblockinterpreter/interpreter/Interpreter.kt:70-79 | an assignment changes only its variable, to the expression's value, and writes one line |
| EngineProperties.ArithmeticKeepsState | src/main/java/com/example/codeblockinterpreter/interpreter/Interpreter.kt:81-85 | an arithmetic block changes no variable or array and writes at most one line |
| EngineProperties.DeclareArrayZeros | src/main/java/com/example/codeblockinterpreter/interpreter/Interpreter.kt:109-119 | a declared array is new, has a positive size and holds zeros; other arrays and variables are unchanged |
| EngineProperties.DeclareArrayChecksNameFirst | src/main/java/com/example/codeblockinterpreter/interpreter/Interpreter.kt:114-115 | an existing name fails as "already exists" even when the size is not positive |
| EngineProperties.AccessChecksBoundsFirst | src/main/java/com/example/codeblockinterpreter/interpreter/Interpreter.kt:128-130 | an index out of bounds fails before the operation is looked at |
| EngineProperties.AccessChangesOneElement | src/main/java/com/example/codeblockinterpreter/interpreter/Interpreter.kt:121-140 | `get` changes nothing but the output; `set` changes exactly the one element, and each writes its line |
| EngineProperties.NoBlockIsSilent | src/main/java/com/example/codeblockinterpreter/interpreter/Interpreter.kt:30-140 | every block that finishes normally writes at least one line |

## Left out

- The user interface (`ui/`), `MainActivity` and the block editor are not part of this model. Only the interpreter and the two model types are.
- Semantics.Loop, Engine.Interpreter.HandleWhile: a `while` whose condition never turns false runs forever in the source. Here each `while` runs its body at most `fuel` times each time the block is entered, testing its condition at most `fuel + 1` times. Running out ends the run as `OutOfFuel`, and `Interpret` returns `None` instead of looping.
- Text.IsWhitespace, Text.IsIdentChar, Text.IsDigit: Kotlin's `isWhitespace`, `isLetterOrDigit` and `isDigit` accept Unicode characters. The model accepts only ASCII ones.
- Engine.Interpreter.Interpret: the source returns its own mutable `output` list, which aliases the interpreter's state. The model returns the rendered lines as a value.
- The `error` field is written on failure and never read, so it is not modelled.
- `lastModified` defaults to `System.currentTimeMillis()`. In the model it is a plain parameter of the block.
- The `hashCode` of a `BlockType` constant is the JVM's identity hash. The model takes it as the parameter `kindHash`.
- `Map.hashCode` sums over entries. The model defines it by induction over the keys, in no particular order. Because the sum is commutative, this does not change its value.
- Exceptions become `Error` values. Their messages are produced by `ErrorMessage` and `Message` with the source's wording.
- Semantics.DeclareArray, Engine.Interpreter.AddArray, Engine.Interpreter.Zeros: the heap is unbounded here. In the source, a size too large for memory (such as `2147483647`) makes `IntArray(size)` throw `OutOfMemoryError`. That is not an `Exception`, so `interpret` does not catch it and the app stops. The model declares the array instead.
- ExprParser.FactorAt, ExprParser.Parser.ParseFactor, Semantics.ExecBlocks, Engine.Interpreter.ExecuteBlocks: the call stack is unbounded here. In the source, deeply nested parentheses or deeply nested blocks end in an uncaught `StackOverflowError`. The model returns a value for any depth.
- Text.ToIntOrNull: Kotlin's `toIntOrNull` also accepts non-ASCII decimal digits, such as the Arabic-Indic `٣`. The model rejects them, so where the source declares an array of size 3 from `٣` the model reports "Invalid array size". The same applies to an index or a value.
- CodeBlocks.StringHash, ExprParser.Message, Errors.ErrorMessage: strings are sequences of Unicode characters here, while a Kotlin `String` is a sequence of UTF-16 code units. For characters above U+FFFF the two differ. `String.hashCode` sums two surrogate units where `StringHash` sums one character: `"😀".hashCode()` is 1772899, while `StringHash` gives 128512. For the expression `😀`, the source's "Unexpected character" message shows only the high surrogate `\uD83D`, while the model's shows the whole character. The positions in messages count characters, not code units. Text of characters up to U+FFFF behaves identically in both.
- Errors.ErrorMessage: because of the string model above, an "Unexpected character" message matches the source's exact text only when the offending character and everything before it lie at or below U+FFFF.
