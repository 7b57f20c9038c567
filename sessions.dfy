/** Sequences of key presses, each handled to completion before the next, run
    from the initial state: the states the calculator can reach, and what a
    user sees after typical sessions. */
module Sessions {
  import opened Wrappers
  import opened Arithmetic
  import opened Formatting
  import opened Transitions

  /** One press, already translated to the handler it triggers. */
  datatype Key = Digit(digit: char) | Point | Operator(op: Op) | Equals | Clear | Backspace

  /** Only the digits '0' to '9' reach inputDigit. */
  predicate IsValidKey(k: Key) {
    k.Digit? ==> IsDigit(k.digit)
  }

  /** The handler a key press triggers. */
  function Step(s: CalcState, k: Key, conv: Conversions): (r: CalcState) {
    match k
    case Digit(d) => AfterDigit(s, d)
    case Point => AfterDecimal(s)
    case Operator(op) => AfterOperator(s, op, conv)
    case Equals => AfterEquals(s, conv)
    case Clear => Cleared()
    case Backspace => AfterBackspace(s)
  }

  /** The state after pressing `keys`, in order, from the initial state. */
  function Run(conv: Conversions, keys: seq<Key>): (s: CalcState)
    decreases |keys|
  {
    if keys == [] then Cleared()
    else Step(Run(conv, keys[..|keys| - 1]), keys[|keys| - 1], conv)
  }

  /** The state after the first n presses follows from the state after the first n - 1. */
  lemma RunPrefix(conv: Conversions, keys: seq<Key>, n: nat)
    requires 0 < n <= |keys|
    ensures Run(conv, keys[..n]) == Step(Run(conv, keys[..n - 1]), keys[n - 1], conv)
  {
    assert keys[..n][..n - 1] == keys[..n - 1];
  }

  /** Every handler keeps the invariant. */
  lemma StepKeepsWellFormed(s: CalcState, k: Key, conv: Conversions)
    requires WellFormed(s) && IsValidKey(k)
    ensures WellFormed(Step(s, k, conv))
  {
    match k
    case Digit(d) => DigitEntry(s, d);
    case Point => DecimalEntry(s);
    case Operator(op) => OperatorEntry(s, op, conv);
    case Equals => EqualsEntry(s, conv);
    case Clear => ClearedWellFormed();
    case Backspace => BackspaceEdits(s);
  }

  /** Every state reachable by key presses satisfies the invariant. */
  lemma {:induction false} RunWellFormed(conv: Conversions, keys: seq<Key>)
    requires forall i :: 0 <= i < |keys| ==> IsValidKey(keys[i])
    ensures WellFormed(Run(conv, keys))
    decreases |keys|
  {
    if keys == [] {
      ClearedWellFormed();
    } else {
      var n := |keys| - 1;
      RunWellFormed(conv, keys[..n]);
      StepKeepsWellFormed(Run(conv, keys[..n]), keys[n], conv);
    }
  }

  /** What the display holds in any reachable state: the error message in the
      error state; outside it and outside reset mode, a typed number, never
      empty, with at most one decimal point and no sign, so backspace's branch
      for a sign and one digit is never taken. */
  lemma ReachableDisplay(conv: Conversions, keys: seq<Key>)
    requires forall i :: 0 <= i < |keys| ==> IsValidKey(keys[i])
    ensures var s := Run(conv, keys);
      var t := s.displayValue;
      (s.hasError ==> t == DivideByZeroMessage) &&
      (!s.hasError && !s.shouldResetDisplay ==>
        |t| > 0 && multiset(t)['.'] <= 1 && '-' !in t)
  {
    RunWellFormed(conv, keys);
    var s := Run(conv, keys);
    if !s.hasError && !s.shouldResetDisplay {
      TypedNumberIsUnsigned(s.displayValue);
    }
  }

  /** A typed number holds only digits and at most one point, so no sign. */
  lemma TypedNumberIsUnsigned(t: string)
    requires IsTypedNumber(t)
    ensures |t| > 0 && multiset(t)['.'] <= 1 && '-' !in t
  {
  }

  // ---------------------------------------------------------------------------
  // Typing a number
  // ---------------------------------------------------------------------------

  /** The key presses for typing the characters of `ds`. */
  function DigitKeys(ds: string): (keys: seq<Key>) {
    seq(|ds|, i requires 0 <= i < |ds| => Digit(ds[i]))
  }

  function StripLeadingZeros(ds: string): (t: string) {
    if ds != [] && ds[0] == '0' then StripLeadingZeros(ds[1..]) else ds
  }

  /** Digits with leading zeros suppressed, and "0" when nothing is left. */
  function WithoutLeadingZeros(ds: string): (t: string) {
    var t := StripLeadingZeros(ds);
    if t == [] then "0" else t
  }

  lemma {:induction false} StripLeadingZerosStartsNonZero(ds: string)
    ensures StripLeadingZeros(ds) == [] || StripLeadingZeros(ds)[0] != '0'
  {
    if ds != [] && ds[0] == '0' {
      StripLeadingZerosStartsNonZero(ds[1..]);
    }
  }

  lemma {:induction false} StripLeadingZerosAppend(ds: string, d: char)
    ensures StripLeadingZeros(ds + [d]) ==
      if StripLeadingZeros(ds) == [] then (if d == '0' then [] else [d])
      else StripLeadingZeros(ds) + [d]
  {
    if ds != [] && ds[0] == '0' {
      assert (ds + [d])[1..] == ds[1..] + [d];
      StripLeadingZerosAppend(ds[1..], d);
    }
  }

  /** Typing digits from the initial state shows them with leading zeros
      suppressed ("0", "0", "5" shows "5"), and nothing else is stored. */
  lemma {:induction false} TypingDigits(conv: Conversions, ds: string)
    requires forall i :: 0 <= i < |ds| ==> IsDigit(ds[i])
    ensures var s := Run(conv, DigitKeys(ds));
      s.displayValue == WithoutLeadingZeros(ds) &&
      !s.hasError && !s.shouldResetDisplay && !s.justEvaluated &&
      s.firstNumber.None? && s.operator.None? && s.secondNumber.None?
  {
    if ds != [] {
      var n := |ds| - 1;
      var pre := ds[..n];
      assert DigitKeys(ds)[..n] == DigitKeys(pre);
      assert pre + [ds[n]] == ds;
      TypingDigits(conv, pre);
      StripLeadingZerosAppend(pre, ds[n]);
      StripLeadingZerosStartsNonZero(pre);
    }
  }

  // ---------------------------------------------------------------------------
  // Sessions
  // ---------------------------------------------------------------------------

  /** 3 + 4 = shows 7. */
  lemma ThreePlusFour(conv: Conversions)
    requires conv.toNumber("3") == 3.0 && conv.toNumber("4") == 4.0 && conv.toText(7.0) == "7"
    ensures Run(conv, [Digit('3'), Operator(Add), Digit('4'), Equals]).displayValue == "7"
  {
    var keys := [Digit('3'), Operator(Add), Digit('4'), Equals];
    RunPrefix(conv, keys, 1);
    assert Run(conv, keys[..1]).displayValue == "3";
    RunPrefix(conv, keys, 2);
    assert Run(conv, keys[..2]).firstNumber == Some(3.0);
    RunPrefix(conv, keys, 3);
    var s3 := Run(conv, keys[..3]);
    assert s3.displayValue == "4" && s3.operator == Some(Add) && !s3.shouldResetDisplay;
    RunPrefix(conv, keys, 4);
    assert PendingOutcome(s3, conv) == Num(7.0);
    Round8KeepsIntegers(7);
    assert keys[..4] == keys;
  }

  /** 3 + 4 + 2 = shows 9: the second '+' evaluates 3 + 4 at once and carries 7 forward. */
  lemma ChainedOperators(conv: Conversions)
    requires conv.toNumber("3") == 3.0 && conv.toNumber("4") == 4.0 && conv.toText(7.0) == "7"
    requires conv.toNumber("7") == 7.0 && conv.toNumber("2") == 2.0 && conv.toText(9.0) == "9"
    ensures Run(conv, [Digit('3'), Operator(Add), Digit('4'), Operator(Add), Digit('2'), Equals]).displayValue == "9"
  {
    var keys := [Digit('3'), Operator(Add), Digit('4'), Operator(Add), Digit('2'), Equals];
    assert keys[..4] == [Digit('3'), Operator(Add), Digit('4'), Operator(Add)];
    CarryAfterSecondPlus(conv);
    RunPrefix(conv, keys, 5);
    var s5 := Run(conv, keys[..5]);
    assert s5.displayValue == "2" && !s5.shouldResetDisplay;
    RunPrefix(conv, keys, 6);
    assert PendingOutcome(s5, conv) == Num(9.0);
    Round8KeepsIntegers(9);
    assert keys[..6] == keys;
  }

  /** After 3 + 4 +, the sum 7 is the left operand and '+' is pending again. */
  lemma CarryAfterSecondPlus(conv: Conversions)
    requires conv.toNumber("3") == 3.0 && conv.toNumber("4") == 4.0 && conv.toText(7.0) == "7"
    requires conv.toNumber("7") == 7.0
    ensures var s := Run(conv, [Digit('3'), Operator(Add), Digit('4'), Operator(Add)]);
      s.firstNumber == Some(7.0) && s.operator == Some(Add) && s.shouldResetDisplay &&
      !s.hasError && !s.justEvaluated && s.secondNumber.None?
  {
    var keys := [Digit('3'), Operator(Add), Digit('4'), Operator(Add)];
    RunPrefix(conv, keys, 1);
    assert Run(conv, keys[..1]).displayValue == "3";
    RunPrefix(conv, keys, 2);
    assert Run(conv, keys[..2]).firstNumber == Some(3.0);
    RunPrefix(conv, keys, 3);
    var s3 := Run(conv, keys[..3]);
    assert s3.displayValue == "4" && s3.operator == Some(Add) && !s3.shouldResetDisplay;
    RunPrefix(conv, keys, 4);
    assert PendingOutcome(s3, conv) == Num(7.0);
    Round8KeepsIntegers(7);
    assert keys[..4] == keys;
  }

  /** A digit typed right after `=` starts a new number: 3 + 4 = 9 shows 9 and
      keeps no operand, whatever the conversions do. */
  lemma FreshNumberAfterEquals(conv: Conversions)
    ensures var s := Run(conv, [Digit('3'), Operator(Add), Digit('4'), Equals, Digit('9')]);
      s.displayValue == "9" && s.firstNumber.None? && s.operator.None? && !s.hasError
  {
    var keys := [Digit('3'), Operator(Add), Digit('4'), Equals, Digit('9')];
    RunPrefix(conv, keys, 1);
    RunPrefix(conv, keys, 2);
    assert Run(conv, keys[..2]).firstNumber.Some?;
    RunPrefix(conv, keys, 3);
    var s3 := Run(conv, keys[..3]);
    assert s3.operator == Some(Add) && s3.firstNumber.Some? && !s3.shouldResetDisplay && !s3.hasError;
    assert PendingOutcome(s3, conv).Num?;
    RunPrefix(conv, keys, 4);
    var s4 := Run(conv, keys[..4]);
    assert s4.justEvaluated && s4.operator.None? && s4.shouldResetDisplay && !s4.hasError;
    RunPrefix(conv, keys, 5);
    assert keys[..5] == keys;
  }

  /** 5 / 0 = enters the error state and shows the message. A digit typed next
      is not ignored: it clears everything first and then starts a new number. */
  lemma DivisionByZeroSession(conv: Conversions, digit: char)
    requires conv.toNumber("5") == 5.0 && conv.toNumber("0") == 0.0
    ensures var s := Run(conv, [Digit('5'), Operator(Divide), Digit('0'), Equals]);
      s.hasError && s.displayValue == DivideByZeroMessage &&
      AfterDigit(s, digit) == AfterDigit(Cleared(), digit) &&
      AfterDigit(s, digit).displayValue == [digit]
  {
    var keys := [Digit('5'), Operator(Divide), Digit('0'), Equals];
    RunPrefix(conv, keys, 1);
    assert Run(conv, keys[..1]).displayValue == "5";
    RunPrefix(conv, keys, 2);
    assert Run(conv, keys[..2]).firstNumber == Some(5.0);
    RunPrefix(conv, keys, 3);
    var s3 := Run(conv, keys[..3]);
    assert s3.displayValue == "0" && s3.operator == Some(Divide) && !s3.shouldResetDisplay;
    assert PendingOutcome(s3, conv).Err?;
    RunPrefix(conv, keys, 4);
    assert keys[..4] == keys;
  }

  /** 7, backspace, backspace shows 0: backspace never empties the display. */
  lemma BackspaceToZero(conv: Conversions)
    ensures Run(conv, [Digit('7'), Backspace, Backspace]).displayValue == "0"
  {
    var keys := [Digit('7'), Backspace, Backspace];
    RunPrefix(conv, keys, 1);
    RunPrefix(conv, keys, 2);
    RunPrefix(conv, keys, 3);
    assert keys[..3] == keys;
  }
}
