/*
 * `BinaryExpression::apply_op` of src/ir/expression/binary_expression.rs:
 * which operand kinds each operator accepts, and what it yields.
 */
module Apply {
  import opened Values
  import opened Ops

  predicate IsArithmetic(op: BinaryOperator)
  {
    op.Plus? || op.Minus? || op.Times? || op.Over?
  }

  predicate IsComparison(op: BinaryOperator)
  {
    op.Equal? || op.NotEqual? || op.StrictEqual? || op.StrictNotEqual? ||
    op.LessThan? || op.GreaterThan? || op.LessThanEqual? || op.GreaterThanEqual?
  }

  /**
   * Numbers combine under every operator except `||` and `&&`; two strings
   * only under `===`; two Undefineds only under `==` and `===`, which hold.
   * Every other combination panics. Division by zero yields the number 0
   * here, a stand-in for the IEEE infinities and NaN that are not modelled.
   */
  function ApplyOp(op: BinaryOperator, l: Value, r: Value): (res: Fallible<Value>)
    ensures res.Ok? <==>
              ((l.Number? && r.Number? && (IsArithmetic(op) || IsComparison(op))) ||
               (l.String? && r.String? && op.StrictEqual?) ||
               (l.Undefined? && r.Undefined? && (op.Equal? || op.StrictEqual?)))
    ensures res.Ok? && IsComparison(op) ==> res.value.Boolean?
    ensures res.Ok? && IsArithmetic(op) ==> res.value.Number?
  {
    match (l, r)
    case (Number(x), Number(y)) =>
      (match op
       case Plus => Ok(Number(x + y))
       case Minus => Ok(Number(x - y))
       case Equal => Ok(Boolean(x == y))
       case NotEqual => Ok(Boolean(x != y))
       case StrictEqual => Ok(Boolean(x == y))
       case StrictNotEqual => Ok(Boolean(x != y))
       case LessThan => Ok(Boolean(x < y))
       case GreaterThan => Ok(Boolean(x > y))
       case LessThanEqual => Ok(Boolean(x <= y))
       case GreaterThanEqual => Ok(Boolean(x >= y))
       case Times => Ok(Number(x * y))
       case Over => Ok(Number(if y == 0.0 then 0.0 else x / y))
       case Or => Panic
       case And => Panic)
    case (String(x), String(y)) =>
      if op.StrictEqual? then Ok(Boolean(x == y)) else Panic
    case (Undefined, Undefined) =>
      if op.Equal? || op.StrictEqual? then Ok(Boolean(true)) else Panic
    case _ => Panic
  }

  /** On numbers each equality operator and its negation give opposite answers. */
  lemma NegationOnNumbers(op: BinaryOperator, x: real, y: real)
    requires Negation(op).Some?
    ensures ApplyOp(op, Number(x), Number(y)).Ok?
    ensures ApplyOp(Negation(op).value, Number(x), Number(y)) ==
            Ok(Boolean(!ApplyOp(op, Number(x), Number(y)).value.b))
  {
  }

  /** Two Undefineds are `==`, yet asking whether they are `!=` panics. */
  lemma UndefinedNegationPanics()
    ensures ApplyOp(BinaryOperator.Equal, Undefined, Undefined) == Ok(Boolean(true))
    ensures ApplyOp(BinaryOperator.NotEqual, Undefined, Undefined).Panic?
    ensures ApplyOp(BinaryOperator.StrictNotEqual, Undefined, Undefined).Panic?
  {
  }

  /** Loose and strict equality coincide wherever they are defined: there is no coercion. */
  lemma LooseIsStrict(l: Value, r: Value)
    requires ApplyOp(BinaryOperator.Equal, l, r).Ok?
    ensures ApplyOp(BinaryOperator.StrictEqual, l, r) == ApplyOp(BinaryOperator.Equal, l, r)
    ensures ApplyOp(BinaryOperator.Equal, l, r).value == Boolean(l == r)
  {
  }

  /** The orderings mirror each other and the non-strict ones complement the strict ones. */
  lemma OrderingDuality(x: real, y: real)
    ensures ApplyOp(BinaryOperator.LessThan, Number(x), Number(y)) ==
            ApplyOp(BinaryOperator.GreaterThan, Number(y), Number(x))
    ensures ApplyOp(BinaryOperator.LessThanEqual, Number(x), Number(y)) ==
            Ok(Boolean(!ApplyOp(BinaryOperator.GreaterThan, Number(x), Number(y)).value.b))
    ensures ApplyOp(BinaryOperator.GreaterThanEqual, Number(x), Number(y)) ==
            Ok(Boolean(!ApplyOp(BinaryOperator.LessThan, Number(x), Number(y)).value.b))
  {
  }

  /** Subtraction undoes addition and multiplication undoes a division by a non-zero number. */
  lemma ArithmeticInverses(x: real, y: real)
    ensures ApplyOp(BinaryOperator.Minus, ApplyOp(BinaryOperator.Plus, Number(x), Number(y)).value, Number(y)) == Ok(Number(x))
    ensures y != 0.0 ==>
      var p := ApplyOp(BinaryOperator.Times, ApplyOp(BinaryOperator.Over, Number(x), Number(y)).value, Number(y));
      p.Ok? && p.value == Number(x)
  {
    if y != 0.0 {
      var q := ApplyOp(BinaryOperator.Over, Number(x), Number(y)).value;
      assert q == Number(x / y);
      assert (x / y) * y == x;
      assert ApplyOp(BinaryOperator.Times, q, Number(y)).value.n == (x / y) * y;
    }
  }

  /** Addition, multiplication and the (in)equalities do not depend on the operand order. */
  lemma Symmetric(op: BinaryOperator, l: Value, r: Value)
    requires op.Plus? || op.Times? || op.Equal? || op.NotEqual? || op.StrictEqual? || op.StrictNotEqual?
    ensures ApplyOp(op, l, r) == ApplyOp(op, r, l)
  {
    match (l, r)
    case (Number(x), Number(y)) =>
      if op.Plus? {
        assert ApplyOp(op, l, r) == Ok(Number(x + y)) && ApplyOp(op, r, l) == Ok(Number(y + x));
      } else if op.Times? {
        assert x * y == y * x;
        assert ApplyOp(op, l, r).value.n == x * y && ApplyOp(op, r, l).value.n == y * x;
      }
    case _ =>
  }
}
