# GoodMath practice core in Dafny

GoodMath is a child-facing arithmetic practice web app. This project models
the logic inside its `GoodMath` component (good-math-app.tsx) and proves
properties of it:

- **Problem generator** (`getRandomNumber`, `generateProblem`): each
  difficulty tier is an inclusive operand range (easy [1,10], medium [1,20],
  hard [1,50]). Subtraction swaps its operands so that the answer is never
  negative. Division builds an exact quotient from an easy-tier divisor and
  an answer drawn from the requested tier. An unknown operation falls back
  to addition. The random draws are explicit parameters: each one is the
  floored value `Math.floor(Math.random() * (max - min + 1))`, a natural
  number no larger than `max - min`.
- **Answer check** (`checkAnswer`): the typed answer is read with
  JavaScript's `parseInt`. That means leading white space, an optional sign,
  a `0x` prefix for hexadecimal, then the longest run of digits; no digit
  at all gives `NaN`. A correct answer appends a solved record to the log
  and adds one to the streak. A wrong answer resets the streak to zero and
  leaves the log alone.
- **Test sheet**: `addTestProblem` appends the current problem under a
  clock id. The remove button filters out every problem with that id and
  keeps the rest in order.
- **Calculator display** (`handleCalcNumber`, `handleCalcOperation`,
  `handleCalcBackspace`, `calculateResult`, `clearCalc`): a state machine
  over the display text. The arithmetic result is an evaluator function
  passed in as a parameter.
- **Symbols**: `getOperationSymbol` (an unknown operation shows as `+`) and
  the print template's chooser (an unknown operation prints as `÷`). Also
  the manual test creator's symbol-to-operation switch, which inverts
  `getOperationSymbol`.

Files: `options.dfy` (Option), `decimal.dfy` (integer rendering and
`parseInt`), `problems.dfy` (tiers, generator, symbols), `practice.dfy`
(answer check and bookkeeping), `testsheet.dfy` (add and remove),
`calculator.dfy` (display state machine).

Two behaviours of the code are easy to misread:

- The answer check uses `parseInt`, not a strict integer parse. An answer
  typed as `12.7` therefore counts as `12` (`Practice.FractionalInputIsAccepted`).
- `calculateResult` with no operator pending returns without changing
  anything. It does not treat this as an error.

## Model

| member | source | states |
|---|---|---|
| Problems.GetRandomNumber | good-math-app.tsx:25-33 | every valid draw gives a value inside the tier's inclusive range (easy [1,10], medium [1,20], hard [1,50]) |
| Problems.RandomNumberCoversTier | good-math-app.tsx:25-33 | every value of the tier comes from exactly one draw, so no value of the range is missed or doubled |
| Problems.GenerateProblem | good-math-app.tsx:35-63 | the answer is the exact result of the operation; answers are never negative; non-division operands are the two draws in draw order, swapped only for a subtraction whose second draw is larger, and stay in the tier; subtraction has num1 >= num2; division takes num2 from the easy-tier divisor draw and the answer from the requested-tier answer draw, with num1 % num2 == 0 and num1 / num2 == answer |
| Problems.GeneratedIsGeneratable | good-math-app.tsx:35-63 | every generated problem meets the generator's promise for its operation and tier |
| Problems.GeneratableIsGenerated | good-math-app.tsx:35-63 | conversely, every problem meeting that promise comes from some valid draws |
| Problems.DivisionIsGenerated | good-math-app.tsx:43-51 | any exact division with an easy-tier divisor and an answer in the tier is produced by the divisor and answer draws |
| Problems.OperandsAreGenerated | good-math-app.tsx:36-62 | any addition, multiplication, unknown-operation or non-negative subtraction problem with operands in the tier is produced by drawing its operands |
| Problems.DivideExactProduct | good-math-app.tsx:43-51 | dividing divisor × answer by a positive divisor leaves no remainder and gives the answer back |
| Problems.SymbolChoosersAgreeOnKnownOperations | good-math-app.tsx:129-149 | the print chooser and `getOperationSymbol` agree exactly on the four known operations; an unknown one shows as `+` on screen and `÷` in print |
| Problems.OperationSymbol | good-math-app.tsx:141-149 | addition, subtraction, multiplication and division show as + - × ÷ and anything else as +: the creator's switch reads each symbol back as its operation, and an unknown one as addition (see also SymbolChoosersAgreeOnKnownOperations and SymbolRoundTrip) |
| Problems.PrintSymbol | good-math-app.tsx:129-131 | the print template's chooser gives + - × ÷ for the four operations and ÷ for anything else: the creator's switch reads each symbol back as its operation, and an unknown one as division |
| Problems.OperationOfSymbol | good-math-app.tsx:596-612 | the manual creator's operator switch only ever names one of the four known operations |
| Problems.SymbolRoundTrip | good-math-app.tsx:596-612 | the creator's switch and `getOperationSymbol` are inverse on the four known operations |
| Decimal.IntToDecimal | good-math-app.tsx:75 | the text a user types for an integer answer (`String(n)`): non-empty, a leading minus exactly for negatives, then a canonical numeral with no leading zero; ParseIntOfRendering proves `parseInt` inverts it |
| Decimal.ParseInt | good-math-app.tsx:75 | `parseInt` of the typed answer: an input with no decimal digit anywhere is `NaN`; ParseIntOfRendering and ParseIntOfRenderingThen give the values it reads |
| Decimal.DropWhiteSpace | good-math-app.tsx:75 | `parseInt` skips exactly the leading white space: what is dropped is all white space, and what remains starts with none |
| Decimal.DigitPrefix | good-math-app.tsx:75 | `parseInt` reads the longest prefix made of digits of the radix |
| Decimal.ParseIntOfRendering | good-math-app.tsx:75 | `parseInt` of the decimal rendering of any integer gives that integer |
| Decimal.ParseIntOfRenderingThen | good-math-app.tsx:75 | `parseInt` stops at the first character that does not continue the numeral, such as a decimal point, an exponent or an `x` after a non-zero number; only "0x" switches to hexadecimal |
| Practice.CheckAnswer | good-math-app.tsx:74-99 | correct iff `parseInt` of the input equals the answer; a correct answer appends one record holding the answer and raises the streak by one; a wrong one keeps the log and zeroes the streak |
| Practice.RenderedAnswerCheck | good-math-app.tsx:75 | typing the rendering of an integer passes the check exactly when that integer is the answer |
| Practice.GeneratedAnswerIsAccepted | good-math-app.tsx:75 | for every generated problem, typing its answer passes and typing the answer plus one fails |
| Practice.FractionalInputIsAccepted | good-math-app.tsx:75 | a typed decimal fraction whose integer part is the answer passes the check |
| Practice.ReplayLog | good-math-app.tsx:79-98 | over any series of submissions the log only grows, by one record per accepted submission, in order |
| Practice.ReplayStreak | good-math-app.tsx:79-98 | the streak equals the number of accepted submissions since the last rejected one, plus the starting streak if none was rejected |
| Practice.ReplayKeepsLogSound | good-math-app.tsx:80-86 | every logged record's user answer equals its problem's answer |
| TestSheet.AddTestProblem | good-math-app.tsx:101-107 | with a current problem, exactly one entry carrying it and the clock id is appended; without one, the sheet is unchanged |
| TestSheet.RemoveTestProblem | good-math-app.tsx:731 | a problem remains after removal iff it was on the sheet and its id differs from the removed id |
| TestSheet.RemoveKeepsOrder | good-math-app.tsx:731 | the remaining problems form a subsequence of the sheet, in their original order |
| TestSheet.RemoveDistributes | good-math-app.tsx:731 | removal filters each part of a sheet in place: removing from a + b is removing from a, then from b |
| TestSheet.RemoveCount | good-math-app.tsx:731 | the number removed is exactly the number of problems carrying the id |
| TestSheet.RemoveAbsentId | good-math-app.tsx:731 | removing an id no problem carries leaves the sheet unchanged |
| TestSheet.RemoveIdempotent | good-math-app.tsx:731 | removing the same id twice is the same as removing it once |
| TestSheet.RemoveUndoesAdd | good-math-app.tsx:101-107 | removing the id of a problem just added under a fresh id restores the sheet |
| Calculator.HandleNumber | good-math-app.tsx:184-194 | after a result or over "0" the digit replaces the display; otherwise it is appended; the pending operand and operator stay, and the result flag is cleared |
| Calculator.HandleOperation | good-math-app.tsx:196-201 | the current display becomes the pending left operand, the operator is pending, and the display restarts at "0" |
| Calculator.HandleBackspace | good-math-app.tsx:203-210 | a display longer than one character loses its last character, otherwise it becomes "0"; nothing else pending changes |
| Calculator.CalculateResult | good-math-app.tsx:212-231 | with no operator pending nothing changes; otherwise the display shows the evaluator's result, the operator and left operand are cleared, and the result flag is set |
| Calculator.ClearCalc | good-math-app.tsx:233-238 | clearing gives a zero entry with no operator or operand pending |
| Calculator.StepKeepsPendingConsistent | good-math-app.tsx:196-238 | every key keeps an operator pending exactly when a left operand is; evaluation leaves no operator pending |
| Calculator.EntryKeysStartEntry | good-math-app.tsx:184-238 | clear, an operator, or a digit typed over a result or over "0" always leaves a canonical digit entry |
| Calculator.DigitEntryValue | good-math-app.tsx:184-194 | on a canonical entry, a digit key turns the entered number n into 10n + digit and keeps the entry canonical |
| Calculator.BackspaceValue | good-math-app.tsx:203-210 | on a canonical entry, backspace turns the entered number n into n / 10 and keeps the entry canonical |
| Calculator.EditingKeyKeepsEntry | good-math-app.tsx:184-238 | from a canonical entry, digit, backspace, operator and clear keys keep the display non-empty, all digits, and free of a leading zero unless it is "0" |
| Calculator.EditingKeysKeepEntry | good-math-app.tsx:184-238 | the same holds for any series of those keys |
| Calculator.TypedDigitsShowTheirValue | good-math-app.tsx:184-194 | typing digits into a display of "0" shows the canonical numeral of the number they spell, so "5" then "3" shows "53" and leading zeros are absorbed |
| Calculator.OperatorThenDigitStartsFresh | good-math-app.tsx:184-201 | after an operator the next digit starts a new number, and the old display is the pending operand |
| Calculator.ResultThenDigitStartsFresh | good-math-app.tsx:184-231 | after a result the next digit replaces it instead of extending it |

## Left out

- Rendering, screen-mode switching and JSX markup: these are presentation.
- `localStorage` loading and saving of the solved log, with its JSON encoding: this is browser I/O.
- The 1.5-second deferred advance to the next problem after a correct answer: this is asynchronous UI behaviour.
- `printTest`'s window and HTML writing: this is browser I/O. Only its symbol chooser is modelled.
- `Math.random()`, `Date.now()` and `new Date().toISOString()`: these become parameters (draws, the id `now`, the `date` string).
- Calculator.CalculateResult: floating-point arithmetic is not modelled. That covers `parseFloat` of the display, the four operations (including `NaN` and `Infinity` on division by zero) and `result.toString()`. They sit behind the evaluator parameter, and the pending operand is kept as the captured display text rather than its float value.
- Calculator.HandleOperation: keeps the pending left operand as the captured display text, not as `parseFloat` of it (good-math-app.tsx:197), because the floating-point value is outside the model. An evaluator given that text can still compute `parseFloat` itself.
- The calculator history strings and the date filter of the progress screen: they are built from floats and from the clock.
- `addManualProblem`'s float answers: only its operator-symbol switch is modelled (`Problems.OperationOfSymbol`).
- Decimal.ParseIntOfRendering: the model's `parseInt` reads digits with exact integers, and JavaScript loses precision past 2^53. Also `parseInt("-0")` is `-0` in JavaScript, which compares equal to 0; the model reads it as 0. Generated answers stay below 2,501, so precision never matters.
- Decimal.IntToDecimal: it matches JavaScript's `String(n)` only for integers below 10^21 in magnitude. Beyond that JavaScript switches to exponent notation.
- TestSheet.AddTestProblem: models only the append. `addTestProblem` also replaces the current problem with a newly generated one and clears the typed answer (good-math-app.tsx:104-105); those are screen state the sheet does not hold. No control in the application calls `addTestProblem`: the sheet grows only through `addManualProblem`, so TestSheet.RemoveUndoesAdd is about an operation the screens never reach.
- main.tsx holds only the DOM mount and has no logic.
