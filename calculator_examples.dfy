/**
 * The cases of the unit tests of calculator_ast_kata/src/day_04.rs, as
 * consequences of the general properties of `Calculator.Parse`. A leaf holds
 * the literal as written (`"1"` where the test compares with `1.0`).
 */
module CalculatorExamples {
  import opened Calculator

  /** Test `error`: a single operand that is no number. */
  lemma NotANumber()
    ensures Parse("abc") == Err
  {
    ParseErrExactly("abc");
  }

  /** The empty input: an empty operand, which is no number. */
  lemma EmptyInput()
    ensures Parse("") == Err
  {
    ParseErrExactly("");
  }

  /** Test `number`. */
  lemma SingleNumber()
    ensures Parse("1") == Ok(Num("1"))
  {
    IntegerIsOperand("1");
    ParseComplete(Num("1"));
  }

  /** Test `negative_number`: the leading `-` is the sign of the number. */
  lemma NegativeNumber()
    ensures Parse("-5") == Ok(Num("-5"))
  {
    IntegerIsOperand("-5");
    ParseComplete(Num("-5"));
  }

  /** Test `addition`. */
  lemma Addition()
    ensures Parse("4+3") == Ok(Op('+', Num("4"), Num("3")))
  {
    BinaryNode('+', "4", "3");
    assert "4" + ['+'] + "3" == "4+3";
  }

  /** Test `subtraction`: the `-` after a number is an operator, not a sign. */
  lemma Subtraction()
    ensures Parse("5-2") == Ok(Op('-', Num("5"), Num("2")))
  {
    BinaryNode('-', "5", "2");
    assert "5" + ['-'] + "2" == "5-2";
  }

  /** Test `multiplication`. */
  lemma Multiplication()
    ensures Parse("5*8") == Ok(Op('*', Num("5"), Num("8")))
  {
    BinaryNode('*', "5", "8");
    assert "5" + ['*'] + "8" == "5*8";
  }

  /** Test `division`. */
  lemma Division()
    ensures Parse("9/3") == Ok(Op('/', Num("9"), Num("3")))
  {
    BinaryNode('/', "9", "3");
    assert "9" + ['/'] + "3" == "9/3";
  }

  /** One operator between two integers. */
  lemma BinaryNode(op: char, x: string, y: string)
    requires IsOperator(op) && IsInteger(x) && IsInteger(y)
    ensures Parse(x + [op] + y) == Ok(Op(op, Num(x), Num(y)))
  {
    IntegerIsOperand(x);
    IntegerIsOperand(y);
    assert IsTerm(Num(x)) && IsTerm(Num(y));
    ParseComplete(Op(op, Num(x), Num(y)));
  }

  /** Test `multiple_operations`: `*` and `/` bind tighter, and both levels group to the left. */
  lemma MultipleOperations()
    ensures Parse("3-8*2+45/5") ==
            Ok(Op('+', Op('-', Num("3"), Op('*', Num("8"), Num("2"))), Op('/', Num("45"), Num("5"))))
  {
    IntegerIsOperand("3");
    IntegerIsOperand("8");
    IntegerIsOperand("2");
    IntegerIsOperand("45");
    IntegerIsOperand("5");
    var product := Op('*', Num("8"), Num("2"));
    var quotient := Op('/', Num("45"), Num("5"));
    var difference := Op('-', Num("3"), product);
    var t := Op('+', difference, quotient);
    assert IsExpr(t) by {
      assert IsTerm(product) && IsTerm(quotient) && IsExpr(difference);
    }
    assert Text(t) == "3-8*2+45/5" by {
      assert Text(product) == "8*2";
      assert Text(quotient) == "45/5";
      assert Text(difference) == "3-8*2";
    }
    ParseComplete(t);
  }

  /** An operator with no number before it panics: the first operand is empty. */
  lemma LeadingOperatorPanics()
    ensures Parse("+3") == Panic
  {
    FirstOperandFailurePanics("+3");
  }

  /** An operator after an operand that is no number panics at `unwrap`. */
  lemma FailedOperandPanics()
    ensures Parse("a*3") == Panic
  {
    FirstOperandFailurePanics("a*3");
  }

  /**
   * A negative exponent is cut at its `-`: `1e` is no number, and the `-`
   * after it is taken as an operator, so `unwrap` panics.
   */
  lemma NegativeExponentPanics()
    ensures Parse("1e-5") == Panic
  {
    FirstOperandFailurePanics("1e-5");
  }
}
