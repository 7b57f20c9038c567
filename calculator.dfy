/** The calculator as the source runs it: the seven module-level variables of
    script.js (lines 38-44) are the fields of one object, and each handler
    assigns them step by step. Each method is proved to leave exactly the state
    that the matching function of module Transitions computes; every handler
    except EvaluateCurrent also keeps the invariant Transitions.WellFormed. */
module Handlers {
  import opened Wrappers
  import opened Arithmetic
  import opened Formatting
  import opened Transitions

  class Calculator {
    /** `Number(text)` and `String(number)`, which the handlers call. */
    const conv: Conversions

    var firstNumber: Option<real>
    var operator: Option<Op>
    var secondNumber: Option<real>
    var displayValue: string
    var shouldResetDisplay: bool
    var justEvaluated: bool
    var hasError: bool

    /** The text last written to the display element by updateDisplay. */
    ghost var rendered: string

    /** The seven variables as one value. */
    function State(): (s: CalcState)
      reads this
    {
      CalcState(firstNumber, operator, secondNumber, displayValue, shouldResetDisplay, justEvaluated, hasError)
    }

    /** The invariant kept between handler calls; in particular the screen
        always shows displayValue. */
    ghost predicate Valid()
      reads this
    {
      WellFormed(State()) && rendered == displayValue
    }

    /** Loading the script: the variables take their initial values and the
        display is rendered once (line 267). */
    constructor (conv: Conversions)
      ensures Valid()
      ensures State() == Cleared() && rendered == "0"
      ensures this.conv == conv
    {
      this.conv := conv;
      firstNumber := None;
      operator := None;
      secondNumber := None;
      displayValue := "0";
      shouldResetDisplay := false;
      justEvaluated := false;
      hasError := false;
      rendered := "0";
      ClearedWellFormed();
    }

    /** updateDisplay: show displayValue. */
    method UpdateDisplay()
      modifies this`rendered
      ensures rendered == displayValue
    {
      rendered := displayValue;
    }

    /** clearAll: every variable back to its initial value, from any state,
        the error state included. */
    method ClearAll()
      modifies this
      ensures Valid()
      ensures State() == Cleared()
    {
      firstNumber := None;
      operator := None;
      secondNumber := None;
      displayValue := "0";
      shouldResetDisplay := false;
      justEvaluated := false;
      hasError := false;
      UpdateDisplay();
      ClearedWellFormed();
    }

    /** backspace. */
    method Backspace()
      requires Valid()
      modifies this
      ensures Valid()
      ensures State() == AfterBackspace(old(State()))
    {
      BackspaceEdits(State());
      if shouldResetDisplay || justEvaluated || hasError {
        return;
      }
      if |displayValue| <= 1 || (|displayValue| == 2 && displayValue[0] == '-') {
        displayValue := "0";
      } else {
        displayValue := displayValue[..|displayValue| - 1];
      }
      UpdateDisplay();
    }

    /** inputDigit, called with the digits '0' to '9' only. */
    method InputDigit(digit: char)
      requires Valid() && IsDigit(digit)
      modifies this
      ensures Valid()
      ensures State() == AfterDigit(old(State()), digit)
    {
      if hasError {
        ClearAll();
      }
      if justEvaluated && operator.None? {
        firstNumber := None;
        secondNumber := None;
        displayValue := "0";
        justEvaluated := false;
      }
      if shouldResetDisplay {
        displayValue := [digit];
        shouldResetDisplay := false;
      } else if displayValue == "0" {
        displayValue := [digit];
      } else {
        displayValue := displayValue + [digit];
      }
      UpdateDisplay();
      DigitEntry(old(State()), digit);
    }

    /** inputDecimal. When a point is already present it neither changes nor
        renders anything. */
    method InputDecimal()
      requires Valid()
      modifies this
      ensures Valid()
      ensures State() == AfterDecimal(old(State()))
    {
      if hasError {
        ClearAll();
      }
      if justEvaluated && operator.None? {
        firstNumber := None;
        displayValue := "0";
        justEvaluated := false;
      }
      if shouldResetDisplay {
        displayValue := "0.";
        shouldResetDisplay := false;
        UpdateDisplay();
        DecimalEntry(old(State()));
        return;
      }
      if '.' !in displayValue {
        displayValue := displayValue + ".";
        UpdateDisplay();
      }
      DecimalEntry(old(State()));
    }

    /** evaluateCurrent, shared by inputOperator and inputEquals. The state it
        leaves may break the invariant (a result is shown while its operator is
        still pending); both callers restore it. */
    method EvaluateCurrent()
      requires Valid()
      modifies this
      ensures rendered == displayValue
      ensures State() == AfterEvaluate(old(State()), conv)
    {
      if operator.None? || firstNumber.None? || shouldResetDisplay || hasError {
        return;
      }
      ghost var s0 := State();
      var second := conv.toNumber(displayValue);
      secondNumber := Some(second);
      var rawResult := Operate(operator.value, firstNumber.value, second);
      assert rawResult == PendingOutcome(s0, conv);
      if rawResult.Err? {
        hasError := true;
        displayValue := rawResult.message;
        UpdateDisplay();
        return;
      }
      displayValue := NormalizeResult(rawResult, conv);
      firstNumber := Some(conv.toNumber(displayValue));
      secondNumber := None;
      shouldResetDisplay := true;
      justEvaluated := true;
      UpdateDisplay();
    }

    /** inputOperator. */
    method InputOperator(nextOperator: Op)
      requires Valid()
      modifies this
      ensures Valid()
      ensures State() == AfterOperator(old(State()), nextOperator, conv)
    {
      if hasError {
        return;
      }
      if operator.Some? && !shouldResetDisplay {
        EvaluateCurrent();
        if hasError {
          OperatorEntry(old(State()), nextOperator, conv);
          return;
        }
      } else if firstNumber.None? {
        firstNumber := Some(conv.toNumber(displayValue));
      }
      operator := Some(nextOperator);
      shouldResetDisplay := true;
      justEvaluated := false;
      OperatorEntry(old(State()), nextOperator, conv);
    }

    /** inputEquals. */
    method InputEquals()
      requires Valid()
      modifies this
      ensures Valid()
      ensures State() == AfterEquals(old(State()), conv)
    {
      if hasError {
        return;
      }
      if operator.None? || shouldResetDisplay {
        return;
      }
      EvaluateCurrent();
      operator := None;
      EqualsEntry(old(State()), conv);
    }
  }
}
