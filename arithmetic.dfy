/** The four binary operations of the calculator and the dispatcher that picks one
    of them by operator symbol (script.js, lines 4-36). */
module Arithmetic {

  /** The operator symbols '+', '-', '*' and '/'. */
  datatype Op = Add | Subtract | Multiply | Divide

  /** What an operation returns: a number, or (for division by zero) a message
      to show instead of one. */
  datatype Outcome = Num(value: real) | Err(message: string)

  const DivideByZeroMessage: string := "Nice try. Dividing by 0 breaks reality."

  function Sum(a: real, b: real): (r: real) { a + b }

  function Difference(a: real, b: real): (r: real) { a - b }

  function Product(a: real, b: real): (r: real) { a * b }

  /** Division, refusing a zero divisor with a message rather than a number. */
  function Quotient(a: real, b: real): (r: Outcome)
    ensures r.Err? <==> b == 0.0
    ensures r.Err? ==> r.message == DivideByZeroMessage
    ensures r.Num? ==> Product(r.value, b) == a
  {
    if b == 0.0 then Err(DivideByZeroMessage) else Num(a / b)
  }

  /** Applies the operator to the two operands. Only a division by zero fails. */
  function Operate(op: Op, a: real, b: real): (r: Outcome)
    ensures r.Err? <==> op == Divide && b == 0.0
    ensures r.Err? ==> r.message == DivideByZeroMessage
  {
    match op
    case Add => Num(Sum(a, b))
    case Subtract => Num(Difference(a, b))
    case Multiply => Num(Product(a, b))
    case Divide => Quotient(a, b)
  }

  /** Subtracting undoes adding, and adding undoes subtracting. */
  lemma SubtractUndoesAdd(a: real, b: real)
    ensures Operate(Subtract, Operate(Add, a, b).value, b) == Num(a)
    ensures Operate(Add, Operate(Subtract, a, b).value, b) == Num(a)
  {
  }

  /** Dividing by a non-zero number undoes multiplying by it, and the other way round. */
  lemma DivideUndoesMultiply(a: real, b: real)
    requires b != 0.0
    ensures Operate(Divide, Operate(Multiply, a, b).value, b) == Num(a)
    ensures Operate(Multiply, Operate(Divide, a, b).value, b) == Num(a)
  {
  }
}
