/** The calculator's input state machine (script.js, lines 38-189) as pure
    functions: the seven module-level variables become one value, and each
    handler becomes the function from the state before it to the state after it.
    The class in calculator.dfy runs the handlers step by step and is proved to
    agree with these functions; the properties of the machine are proved here. */
module Transitions {
  import opened Wrappers
  import opened Arithmetic
  import opened Formatting

  /** The seven state variables (script.js, lines 38-44). */
  datatype CalcState = CalcState(
    firstNumber: Option<real>,
    operator: Option<Op>,
    secondNumber: Option<real>,
    displayValue: string,
    shouldResetDisplay: bool,
    justEvaluated: bool,
    hasError: bool)

  /** The values the variables start with, which clearAll restores. */
  function Cleared(): (r: CalcState) {
    CalcState(None, None, None, "0", false, false, false)
  }

  predicate IsDigit(c: char) {
    '0' <= c <= '9'
  }

  /** A number as the user types it: a digit first, then digits and at most one
      decimal point, and a leading zero only as "0" itself or before the point. */
  predicate IsTypedNumber(t: string) {
    |t| > 0 && IsDigit(t[0]) &&
    (forall i :: 0 <= i < |t| ==> IsDigit(t[i]) || t[i] == '.') &&
    multiset(t)['.'] <= 1 &&
    (t[0] == '0' && |t| > 1 ==> t[1] == '.')
  }

  /** What holds between any two handler calls (proved in Sessions.RunWellFormed):
      - a pending operator always has its left operand;
      - right after `=` the display is in reset mode and nothing is pending;
      - in reset mode an operand is stored: an operator is pending or a result was just shown;
      - the error state shows the division-by-zero message;
      - outside the error state the right operand is never kept, and a left
        operand is stored only while an operator is pending or right after `=`;
      - outside the error state and reset mode, the display is a typed number. */
  ghost predicate WellFormed(s: CalcState) {
    (s.operator.Some? ==> s.firstNumber.Some?) &&
    (s.justEvaluated ==> s.shouldResetDisplay && s.operator.None? && s.firstNumber.Some?) &&
    (s.shouldResetDisplay ==> s.operator.Some? || s.justEvaluated) &&
    (s.hasError ==> s.displayValue == DivideByZeroMessage && !s.justEvaluated) &&
    (!s.hasError ==> s.secondNumber.None? && (s.firstNumber.Some? ==> s.operator.Some? || s.justEvaluated)) &&
    (!s.hasError && !s.shouldResetDisplay ==> IsTypedNumber(s.displayValue))
  }

  // ---------------------------------------------------------------------------
  // The handlers
  // ---------------------------------------------------------------------------

  /** backspace (script.js, lines 74-86). */
  function AfterBackspace(s: CalcState): (r: CalcState) {
    if s.shouldResetDisplay || s.justEvaluated || s.hasError then s
    else if |s.displayValue| <= 1 || (|s.displayValue| == 2 && s.displayValue[0] == '-') then
      s.(displayValue := "0")
    else
      s.(displayValue := s.displayValue[..|s.displayValue| - 1])
  }

  /** inputDigit (script.js, lines 88-110). */
  function AfterDigit(s: CalcState, digit: char): (r: CalcState) {
    var s1 := if s.hasError then Cleared() else s;
    var s2 := if s1.justEvaluated && s1.operator.None? then
                s1.(firstNumber := None, secondNumber := None, displayValue := "0", justEvaluated := false)
              else s1;
    if s2.shouldResetDisplay then s2.(displayValue := [digit], shouldResetDisplay := false)
    else if s2.displayValue == "0" then s2.(displayValue := [digit])
    else s2.(displayValue := s2.displayValue + [digit])
  }

  /** inputDecimal (script.js, lines 112-134). Unlike inputDigit, starting a
      fresh number after `=` leaves secondNumber alone. */
  function AfterDecimal(s: CalcState): (r: CalcState) {
    var s1 := if s.hasError then Cleared() else s;
    var s2 := if s1.justEvaluated && s1.operator.None? then
                s1.(firstNumber := None, displayValue := "0", justEvaluated := false)
              else s1;
    if s2.shouldResetDisplay then s2.(displayValue := "0.", shouldResetDisplay := false)
    else if '.' !in s2.displayValue then s2.(displayValue := s2.displayValue + ".")
    else s2
  }

  /** The guard of evaluateCurrent: it does nothing unless an operator and its
      left operand are stored, a new right operand has been typed and no error is shown. */
  predicate CanEvaluate(s: CalcState) {
    s.operator.Some? && s.firstNumber.Some? && !s.shouldResetDisplay && !s.hasError
  }

  /** What evaluateCurrent computes from a state that passes its guard. */
  function PendingOutcome(s: CalcState, conv: Conversions): (r: Outcome)
    requires CanEvaluate(s)
  {
    Operate(s.operator.value, s.firstNumber.value, conv.toNumber(s.displayValue))
  }

  /** evaluateCurrent (script.js, lines 136-157). */
  function AfterEvaluate(s: CalcState, conv: Conversions): (r: CalcState) {
    if !CanEvaluate(s) then s
    else
      var second := conv.toNumber(s.displayValue);
      var rawResult := Operate(s.operator.value, s.firstNumber.value, second);
      if rawResult.Err? then
        s.(secondNumber := Some(second), hasError := true, displayValue := rawResult.message)
      else
        var shown := NormalizeResult(rawResult, conv);
        s.(displayValue := shown, firstNumber := Some(conv.toNumber(shown)), secondNumber := None,
           shouldResetDisplay := true, justEvaluated := true)
  }

  /** inputOperator (script.js, lines 159-176). */
  function AfterOperator(s: CalcState, nextOperator: Op, conv: Conversions): (r: CalcState) {
    if s.hasError then s
    else if s.operator.Some? && !s.shouldResetDisplay then
      var e := AfterEvaluate(s, conv);
      if e.hasError then e
      else e.(operator := Some(nextOperator), shouldResetDisplay := true, justEvaluated := false)
    else
      var s1 := if s.firstNumber.None? then s.(firstNumber := Some(conv.toNumber(s.displayValue))) else s;
      s1.(operator := Some(nextOperator), shouldResetDisplay := true, justEvaluated := false)
  }

  /** inputEquals (script.js, lines 178-189). */
  function AfterEquals(s: CalcState, conv: Conversions): (r: CalcState) {
    if s.hasError then s
    else if s.operator.None? || s.shouldResetDisplay then s
    else AfterEvaluate(s, conv).(operator := None)
  }

  // ---------------------------------------------------------------------------
  // Properties of each handler
  // ---------------------------------------------------------------------------

  /** The initial state satisfies the invariant. */
  lemma ClearedWellFormed()
    ensures WellFormed(Cleared())
  {
  }

  /** backspace edits only a number being typed and never leaves the display
      empty: a display of at most one character, or a sign and one digit,
      becomes "0"; otherwise exactly the last character goes. */
  lemma BackspaceEdits(s: CalcState)
    ensures s.shouldResetDisplay || s.justEvaluated || s.hasError ==> AfterBackspace(s) == s
    ensures !s.shouldResetDisplay && !s.justEvaluated && !s.hasError ==>
              AfterBackspace(s) == s.(displayValue := AfterBackspace(s).displayValue) &&
              |AfterBackspace(s).displayValue| > 0
    ensures !s.shouldResetDisplay && !s.justEvaluated && !s.hasError &&
            (|s.displayValue| <= 1 || (|s.displayValue| == 2 && s.displayValue[0] == '-')) ==>
              AfterBackspace(s).displayValue == "0"
    ensures !s.shouldResetDisplay && !s.justEvaluated && !s.hasError &&
            |s.displayValue| > 1 && !(|s.displayValue| == 2 && s.displayValue[0] == '-') ==>
              AfterBackspace(s).displayValue + [s.displayValue[|s.displayValue| - 1]] == s.displayValue
    ensures WellFormed(s) ==> WellFormed(AfterBackspace(s))
  {
  }

  /** Typing a digit and then pressing backspace gives back the state before
      the digit, while a number is being typed. */
  lemma BackspaceUndoesDigit(s: CalcState, digit: char)
    requires !s.hasError && !s.shouldResetDisplay && !s.justEvaluated
    requires IsTypedNumber(s.displayValue)
    ensures AfterBackspace(AfterDigit(s, digit)) == s
  {
  }

  /** inputDigit, from a state satisfying the invariant: in the error state it
      first clears everything; after `=` it starts a fresh calculation; in reset
      mode the display becomes exactly the digit; a display of exactly "0" is
      replaced by the digit; otherwise the digit is appended. */
  lemma DigitEntry(s: CalcState, digit: char)
    requires WellFormed(s)
    ensures !AfterDigit(s, digit).hasError && !AfterDigit(s, digit).shouldResetDisplay
    ensures !AfterDigit(s, digit).justEvaluated
    ensures s.hasError ==> AfterDigit(s, digit) == AfterDigit(Cleared(), digit) &&
                           AfterDigit(s, digit).displayValue == [digit] &&
                           AfterDigit(s, digit).firstNumber.None?
    ensures !s.hasError && s.shouldResetDisplay ==> AfterDigit(s, digit).displayValue == [digit]
    ensures !s.hasError && !s.shouldResetDisplay && s.displayValue == "0" ==>
              AfterDigit(s, digit).displayValue == [digit]
    ensures !s.hasError && !s.shouldResetDisplay && s.displayValue != "0" ==>
              AfterDigit(s, digit).displayValue == s.displayValue + [digit]
    ensures s.justEvaluated ==> AfterDigit(s, digit).firstNumber.None? && AfterDigit(s, digit).operator.None?
    ensures !s.justEvaluated && !s.hasError ==>
              AfterDigit(s, digit).firstNumber == s.firstNumber && AfterDigit(s, digit).operator == s.operator
    ensures IsDigit(digit) ==> WellFormed(AfterDigit(s, digit))
  {
  }

  /** inputDecimal never puts a second point on the display, so pressing it
      twice is the same as pressing it once. */
  lemma DecimalIdempotent(s: CalcState)
    ensures AfterDecimal(AfterDecimal(s)) == AfterDecimal(s)
  {
  }

  /** Appending a point to a typed number without one gives a typed number. */
  lemma AppendPointKeepsTyped(t: string)
    requires IsTypedNumber(t) && '.' !in t
    ensures IsTypedNumber(t + ".")
  {
  }

  /** inputDecimal, from a state satisfying the invariant: in the error state
      or in reset mode the display becomes exactly "0."; otherwise a point is
      appended only if there is none. */
  lemma DecimalEntry(s: CalcState)
    requires WellFormed(s)
    ensures !AfterDecimal(s).hasError && !AfterDecimal(s).shouldResetDisplay
    ensures '.' in AfterDecimal(s).displayValue
    ensures s.hasError || s.shouldResetDisplay ==> AfterDecimal(s).displayValue == "0."
    ensures !s.hasError && !s.shouldResetDisplay && '.' in s.displayValue ==> AfterDecimal(s) == s
    ensures !s.hasError && !s.shouldResetDisplay && '.' !in s.displayValue ==>
              AfterDecimal(s) == s.(displayValue := s.displayValue + ".")
    ensures s.justEvaluated ==> AfterDecimal(s).firstNumber.None? && AfterDecimal(s).operator.None?
    ensures !s.hasError && !s.justEvaluated ==>
              AfterDecimal(s).firstNumber == s.firstNumber && AfterDecimal(s).operator == s.operator
    ensures WellFormed(AfterDecimal(s))
  {
    if s.hasError || s.shouldResetDisplay {
      DecimalStartsNumber(s);
    } else if '.' !in s.displayValue {
      DecimalAppendsPoint(s);
    }
  }

  lemma DecimalStartsNumber(s: CalcState)
    requires WellFormed(s) && (s.hasError || s.shouldResetDisplay)
    ensures AfterDecimal(s).displayValue == "0." && WellFormed(AfterDecimal(s))
  {
  }

  lemma DecimalAppendsPoint(s: CalcState)
    requires WellFormed(s) && !s.hasError && !s.shouldResetDisplay && '.' !in s.displayValue
    ensures '.' in AfterDecimal(s).displayValue && WellFormed(AfterDecimal(s))
  {
    AppendPointKeepsTyped(s.displayValue);
  }

  /** evaluateCurrent does nothing unless its guard holds. When it runs, the
      operation fails exactly on a division by zero; the failure shows the
      message and sets the error flag, keeping the left operand, the operator
      and both flags; a numeric result is shown rounded, becomes the new left
      operand, and puts the display in reset mode. */
  lemma EvaluateOutcome(s: CalcState, conv: Conversions)
    ensures !CanEvaluate(s) ==> AfterEvaluate(s, conv) == s
    ensures CanEvaluate(s) ==> AfterEvaluate(s, conv).operator == s.operator
    ensures CanEvaluate(s) ==>
              (PendingOutcome(s, conv).Err? <==> s.operator == Some(Divide) && conv.toNumber(s.displayValue) == 0.0)
    ensures CanEvaluate(s) && PendingOutcome(s, conv).Err? ==>
              var r := AfterEvaluate(s, conv);
              r.hasError && r.displayValue == DivideByZeroMessage && r.firstNumber == s.firstNumber &&
              r.secondNumber == Some(conv.toNumber(s.displayValue)) &&
              r.shouldResetDisplay == s.shouldResetDisplay && r.justEvaluated == s.justEvaluated
    ensures CanEvaluate(s) && PendingOutcome(s, conv).Num? ==>
              var r := AfterEvaluate(s, conv);
              !r.hasError && r.secondNumber.None? && r.shouldResetDisplay && r.justEvaluated &&
              r.displayValue == conv.toText(Round8(PendingOutcome(s, conv).value)) &&
              r.firstNumber == Some(conv.toNumber(r.displayValue))
  {
  }

  /** inputOperator: inert in the error state; with an operator pending and
      nothing new typed it only replaces that operator; with an operator pending
      and a new number typed it first evaluates (chaining) and, if that fails,
      stops with the old operator and left operand in place; otherwise it stores
      the display as the left operand if there is none. Every exit without an
      error leaves the new operator pending, the display in reset mode and the
      just-evaluated flag clear. */
  lemma OperatorEntry(s: CalcState, nextOperator: Op, conv: Conversions)
    requires WellFormed(s)
    ensures s.hasError ==> AfterOperator(s, nextOperator, conv) == s
    ensures !AfterOperator(s, nextOperator, conv).hasError ==>
              var r := AfterOperator(s, nextOperator, conv);
              r.operator == Some(nextOperator) && r.shouldResetDisplay && !r.justEvaluated
    ensures !s.hasError && s.operator.Some? && s.shouldResetDisplay ==>
              AfterOperator(s, nextOperator, conv) == s.(operator := Some(nextOperator), justEvaluated := false)
    ensures !s.hasError && s.operator.Some? && !s.shouldResetDisplay ==>
              CanEvaluate(s) &&
              (AfterOperator(s, nextOperator, conv).hasError <==> PendingOutcome(s, conv).Err?)
    ensures !s.hasError && s.operator.Some? && !s.shouldResetDisplay && PendingOutcome(s, conv).Err? ==>
              var r := AfterOperator(s, nextOperator, conv);
              r.operator == s.operator && r.firstNumber == s.firstNumber &&
              r.displayValue == DivideByZeroMessage
    ensures !s.hasError && s.operator.Some? && !s.shouldResetDisplay && PendingOutcome(s, conv).Num? ==>
              var r := AfterOperator(s, nextOperator, conv);
              r.displayValue == conv.toText(Round8(PendingOutcome(s, conv).value)) &&
              r.firstNumber == Some(conv.toNumber(r.displayValue)) && r.secondNumber.None?
    ensures !s.hasError && s.operator.None? ==>
              var r := AfterOperator(s, nextOperator, conv);
              !r.hasError && r.displayValue == s.displayValue &&
              r.firstNumber == (if s.firstNumber.None? then Some(conv.toNumber(s.displayValue)) else s.firstNumber)
    ensures WellFormed(AfterOperator(s, nextOperator, conv))
  {
  }

  /** inputEquals: inert in the error state, with no operator pending, or with
      nothing typed since the operator; otherwise it evaluates (which then
      always runs), and it leaves no operator pending whether or not the
      evaluation failed. */
  lemma EqualsEntry(s: CalcState, conv: Conversions)
    requires WellFormed(s)
    ensures s.hasError || s.operator.None? || s.shouldResetDisplay ==> AfterEquals(s, conv) == s
    ensures !s.hasError && s.operator.Some? && !s.shouldResetDisplay ==>
              CanEvaluate(s) && AfterEquals(s, conv).operator.None? &&
              (AfterEquals(s, conv).hasError <==> PendingOutcome(s, conv).Err?)
    ensures !s.hasError && s.operator.Some? && !s.shouldResetDisplay && PendingOutcome(s, conv).Err? ==>
              var r := AfterEquals(s, conv);
              r.firstNumber == s.firstNumber && r.displayValue == DivideByZeroMessage
    ensures !s.hasError && s.operator.Some? && !s.shouldResetDisplay && PendingOutcome(s, conv).Num? ==>
              var r := AfterEquals(s, conv);
              r.justEvaluated && r.shouldResetDisplay &&
              r.displayValue == conv.toText(Round8(PendingOutcome(s, conv).value)) &&
              r.firstNumber == Some(conv.toNumber(r.displayValue))
    ensures WellFormed(AfterEquals(s, conv))
  {
  }

  /** In the error state, operators, equals and backspace change nothing, while
      a digit or a decimal point acts as on a freshly cleared calculator: those
      two and clearAll are the only ways out. */
  lemma ErrorExits(s: CalcState, digit: char, nextOperator: Op, conv: Conversions)
    requires s.hasError
    ensures AfterOperator(s, nextOperator, conv) == s
    ensures AfterEquals(s, conv) == s
    ensures AfterBackspace(s) == s
    ensures AfterEvaluate(s, conv) == s
    ensures AfterDigit(s, digit) == AfterDigit(Cleared(), digit)
    ensures !AfterDigit(s, digit).hasError
    ensures AfterDecimal(s) == AfterDecimal(Cleared())
    ensures AfterDecimal(s).displayValue == "0."
  {
  }
}
