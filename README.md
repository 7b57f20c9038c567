# Calculator input state machine in Dafny

This project models the core of a browser calculator (`script.js`). Seven
module-level variables hold the calculator's state:

- `firstNumber`
- `operator`
- `secondNumber`
- `displayValue`
- `shouldResetDisplay`
- `justEvaluated`
- `hasError`

The handlers `clearAll`, `backspace`, `inputDigit`, `inputDecimal`,
`inputOperator` and `inputEquals` update these variables. Operator and
equals presses both reach the shared `evaluateCurrent`. That step calls the
dispatcher `operate` over `add`, `subtract`, `multiply` and `divide`. A
division by zero makes `divide` return a message rather than a number, which
puts the calculator in its error state.

Files and modules:

- `wrappers.dfy` (`Wrappers`): `Option`, for the variables that are either a value or `null`.
- `arithmetic.dfy` (`Arithmetic`): the operator enum `Op`, the `Outcome` of an operation (a number or a message), the four operations and `Operate`.
- `formatting.dfy` (`Formatting`): `normalizeResult`. Rounding to eight decimal places (`Round8`) is modelled exactly on reals. JavaScript's `Number(text)` and `String(number)` are the two fields of `Conversions`, a parameter the model is given rather than defines.
- `transitions.dfy` (`Transitions`): the seven variables as one value, `CalcState`, and each handler as a function from the state before to the state after. It also holds the invariant `WellFormed` and the properties of each handler.
- `calculator.dfy` (`Handlers`): the class `Calculator`. Its fields are the seven variables plus a ghost `rendered` (what `updateDisplay` last showed). Each handler is a method that assigns the fields step by step, as the source does. Each handler method is proved to leave exactly the state its `Transitions` function computes. Every handler method except `EvaluateCurrent` also keeps `Valid()`: the invariant holds and the screen shows `displayValue`. `EvaluateCurrent` only promises that the screen shows `displayValue`, and `UpdateDisplay` only sets `rendered`.
- `sessions.dfy` (`Sessions`): sequences of key presses run from the initial state. It proves that every reachable state is well formed, what typing digits shows, and the outcome of typical sessions (`3 + 4 =`, chained operators, `5 / 0 =`, backspacing to zero).

Behaviour of `script.js` that a reader might not expect, which the model follows:

- In the error state, a digit or a decimal point is not ignored. `inputDigit` and `inputDecimal` first run `clearAll` and then take effect. So `clearAll` is not the only way out of the error state (`Transitions.ErrorExits`, `Sessions.DivisionByZeroSession`).
- `inputDecimal`'s fresh start after `=` does not clear `secondNumber`, unlike `inputDigit`'s. This changes nothing in reachable states, because `secondNumber` is already empty there (`Transitions.WellFormed`).
- `inputEquals` clears the pending operator even when the evaluation failed. `inputOperator` keeps it in that case.
- A non-finite result does not set `hasError` in the code (see Left out).

## Model

| member | source | states |
|---|---|---|
| `Arithmetic.Quotient` | script.js:16-21 | fails exactly when the divisor is zero, with the fixed message; otherwise the quotient times the divisor gives back the dividend |
| `Arithmetic.Operate` | script.js:23-36 | the dispatch fails exactly for `/` with a zero right operand, and then with the division-by-zero message |
| `Arithmetic.SubtractUndoesAdd` | script.js:4-10 | `subtract` undoes `add` and `add` undoes `subtract` |
| `Arithmetic.DivideUndoesMultiply` | script.js:12-21 | for a non-zero divisor, `divide` undoes `multiply` and `multiply` undoes `divide` |
| `Formatting.Round8` | script.js:59 | the rounded value lies on the grid of multiples of 10^-8 and within half a grid step of the input (halves round up) |
| `Formatting.Round8KeepsGridPoints` | script.js:59 | a value already on the 10^-8 grid is unchanged by the rounding |
| `Formatting.Round8Idempotent` | script.js:59 | rounding twice equals rounding once |
| `Formatting.Round8KeepsIntegers` | script.js:59-60 | integer results are never changed by the rounding |
| `Formatting.NormalizedText` | script.js:50-61 | a message is shown verbatim; a result with at most eight decimal places is shown exactly as `String` writes it; normalizing the rounded result shows the same text |
| `Transitions.ClearedWellFormed` | script.js:38-44 | the initial values of the seven variables satisfy the invariant |
| `Transitions.BackspaceEdits` | script.js:74-86 | with reset mode, just-evaluated or error set, nothing changes; otherwise only the display changes and never becomes empty: length at most one, or a sign and one digit, gives "0", else exactly the last character is dropped; the invariant is kept |
| `Transitions.BackspaceUndoesDigit` | script.js:74-110 | while a number is being typed, a digit followed by backspace restores the state exactly |
| `Transitions.DigitEntry` | script.js:88-110 | error state: acts as on a cleared calculator; after `=`: starts a fresh calculation with no operands; in reset mode the display becomes the digit; a display of exactly "0" is replaced by the digit; otherwise the digit is appended; afterwards no error, reset or just-evaluated flag is set; the invariant is kept |
| `Transitions.DecimalIdempotent` | script.js:112-134 | two decimal presses in a row leave the same state as one |
| `Transitions.DecimalEntry` | script.js:112-134 | afterwards the display holds a point; in the error state or reset mode it is exactly "0."; an existing point is never doubled; otherwise one point is appended; after `=` the operands are cleared, and otherwise (outside the error state) the left operand and operator are kept; the invariant is kept |
| `Transitions.EvaluateOutcome` | script.js:136-157 | does nothing unless operator and left operand are stored, reset mode is off and there is no error; fails exactly on `/` by a zero right operand, then sets the error flag and shows the message, keeping left operand, operator, reset mode and just-evaluated; a number is shown through `normalizeResult` (rounded, then `String`), becomes the left operand via `Number`, clears the right operand and sets reset mode and just-evaluated |
| `Transitions.OperatorEntry` | script.js:159-176 | inert in the error state; with an operator pending and reset mode on, only the operator is replaced; with an operator pending and a new number typed, it evaluates first and fails exactly when that evaluation fails, keeping the old operator and left operand and showing the message, and on success shows the rounded result and makes it the left operand; otherwise it stores the display as left operand if none is stored; every exit without error leaves the new operator pending, reset mode on and just-evaluated off; the invariant is kept |
| `Transitions.EqualsEntry` | script.js:178-189 | inert in the error state, with no operator, or in reset mode; otherwise the evaluation always runs and the operator is left empty either way; it fails exactly when the operation fails, keeping the left operand and showing the message; on success it shows the rounded result, makes it the left operand and sets reset mode and just-evaluated; the invariant is kept |
| `Transitions.ErrorExits` | script.js:74-181 | in the error state, operator, equals, backspace and evaluation change nothing; digit and decimal act as on a cleared calculator and leave the error state |
| `Sessions.StepKeepsWellFormed` | script.js:63-189 | every handler keeps the invariant |
| `Sessions.RunWellFormed` | script.js:38-189 | every state reached by any sequence of key presses from the initial state satisfies the invariant |
| `Sessions.ReachableDisplay` | script.js:74-157 | in every reachable state, the error state shows the division-by-zero message; outside it and reset mode, the display is non-empty, has at most one point and no minus sign, so backspace's sign branch is never taken |
| `Sessions.TypingDigits` | script.js:100-107 | typing digits from the initial state shows them with leading zeros suppressed ("0" if all are zeros) and stores no operand or operator |
| `Sessions.ThreePlusFour` | script.js:159-189 | given that `Number` reads "3" and "4" and `String` writes 7 as "7": `3 + 4 =` shows "7" |
| `Sessions.ChainedOperators` | script.js:164-176 | `3 + 4 + 2 =` shows "9": the second `+` evaluates `3 + 4` and carries 7 forward |
| `Sessions.FreshNumberAfterEquals` | script.js:93-98 | `3 + 4 = 9` shows "9" with no operand or operator kept |
| `Sessions.DivisionByZeroSession` | script.js:136-148 | `5 / 0 =` sets the error flag and shows the message; a following digit acts as on a cleared calculator |
| `Sessions.BackspaceToZero` | script.js:79-80 | `7`, backspace, backspace shows "0" |
| `Handlers.Calculator.constructor` | script.js:38-44 | the variables start at their initial values and the display shows "0" |
| `Handlers.Calculator.UpdateDisplay` | script.js:46-48 | the screen shows `displayValue` |
| `Handlers.Calculator.ClearAll` | script.js:63-72 | from any state, including the error state, all seven variables return to their initial values |
| `Handlers.Calculator.Backspace` | script.js:74-86 | leaves exactly `Transitions.AfterBackspace` of the old state and keeps the invariant |
| `Handlers.Calculator.InputDigit` | script.js:88-110 | leaves exactly `Transitions.AfterDigit` of the old state and keeps the invariant |
| `Handlers.Calculator.InputDecimal` | script.js:112-134 | leaves exactly `Transitions.AfterDecimal` of the old state and keeps the invariant |
| `Handlers.Calculator.EvaluateCurrent` | script.js:136-157 | leaves exactly `Transitions.AfterEvaluate` of the old state, with the screen showing the display |
| `Handlers.Calculator.InputOperator` | script.js:159-176 | leaves exactly `Transitions.AfterOperator` of the old state and keeps the invariant |
| `Handlers.Calculator.InputEquals` | script.js:178-189 | leaves exactly `Transitions.AfterEquals` of the old state and keeps the invariant |

## Left out

- DOM access and event plumbing are not modelled: the element lookups (script.js:1-2), `handleButtonPress`, the click listener and the keydown key mapping (script.js:191-265). `Sessions.Key` and `Sessions.Step` stand for the handler call each press ends in.
- Rendering is not modelled beyond the ghost field `rendered`.
- JavaScript's `Number(text)` and `String(number)` are given as the parameter `Formatting.Conversions`, not defined. Statements that depend on their values take those values as hypotheses, as `Sessions.ThreePlusFour` does.
- Numbers are exact reals, not IEEE doubles. The rounding `Math.round(result * 1e8) / 1e8` is modelled without the floating-point error of the multiplication.
- The non-finite branch of `normalizeResult` (`'Math exploded.'`, script.js:55-56) is not modelled. It only arises from overflow or NaN, which exact reals cannot produce. In the code that path does not set `hasError`.
- The `default` case of `operate` (script.js:33-34) is not modelled, because `Op` has exactly the four operators.
- Arithmetic.SubtractUndoesAdd: holds for exact reals only. With IEEE doubles the round trip can fail (0.1 + 0.2 - 0.2 is not 0.1).
- Arithmetic.DivideUndoesMultiply: holds for exact reals only. With IEEE doubles `a * b / b` can differ from `a`, and can overflow to Infinity.
- Arithmetic.Quotient: the clause that the quotient times the divisor gives back the dividend holds for exact reals only, not for IEEE doubles.
- Handlers.Calculator.EvaluateCurrent: does not promise the invariant afterwards. On success it shows a result while its operator is still pending, and only its callers restore the invariant.
- Handlers.Calculator.InputDigit: requires a digit '0'-'9', which is all the key mapping and the digit buttons ever pass. The invariant that typed text is a number depends on it.
