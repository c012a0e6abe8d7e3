/** The failures of the calculator: one constructor per message constant of
    Calculator.java, plus the two runtime faults Java would raise instead. */
module Errors {
  import opened Wrappers

  const WRONG_VARIABLE_POSITION := "Wrong variable position"
  const UNKNOWN_LITERAL_TYPE := "Unkown literal type"
  const UNDEFINED_VARIABLE := "Undefined variable"
  const WRONG_NUM_OF_OPERANDS := "Wrong number of operands"
  // in two parts so that its characters can be read off cheaply
  const FIRST_LET_OPERAND_SHOULD_BE_VARIABLE := "Leftmost operand of the let construct " + "should be a variable"
  const UNREACHABLE_CODE_REACHED := "This code should not have been reached."
  const BAD_EXPRESSION := "Bad expression (empty/malformed)."
  const INVALID_INPUT := "Invalid input."

  datatype Error =
    /** a variable token where no operator encloses it */
    | WrongVariablePosition
    /** a token that is no keyword, no variable name and no 32-bit integer */
    | UnknownLiteralType
    /** the evaluator met a node whose operation name it does not know */
    | UnknownOperation(opName: string)
    /** a variable read before any `let` bound it */
    | UndefinedVariable(name: string)
    /** an operation node whose child count differs from its arity */
    | WrongNumberOfOperands(opName: string)
    /** a `let` whose first operand is not a variable node */
    | FirstLetOperandShouldBeVariable
    /** the fall-through after the operator dispatch of the evaluator */
    | UnreachableCodeReached
    /** no token where one is needed, or tokens left after the expression */
    | BadExpression
    /** a null token array handed to the token tree */
    | InvalidInput
    /** a dereference of an unset field (Java's NullPointerException) */
    | NullDereference
    /** a zero divisor (Java's double division would yield an infinity or NaN) */
    | DivisionByZero

  /** The message constant an error of each kind carries, which is what a
      caller matching on the message sees first; the two faults Java would
      raise on its own carry none of them. */
  function Headline(e: Error): Option<string> {
    match e
    case WrongVariablePosition => Some(WRONG_VARIABLE_POSITION)
    case UnknownLiteralType => Some(UNKNOWN_LITERAL_TYPE)
    case UnknownOperation(_) => Some(UNKNOWN_LITERAL_TYPE)
    case UndefinedVariable(_) => Some(UNDEFINED_VARIABLE)
    case WrongNumberOfOperands(_) => Some(WRONG_NUM_OF_OPERANDS)
    case FirstLetOperandShouldBeVariable => Some(FIRST_LET_OPERAND_SHOULD_BE_VARIABLE)
    case UnreachableCodeReached => Some(UNREACHABLE_CODE_REACHED)
    case BadExpression => Some(BAD_EXPRESSION)
    case InvalidInput => Some(INVALID_INPUT)
    case NullDereference => None
    case DivisionByZero => None
  }

  /** The message of the exception of each kind: it starts with the
      constant of its kind, followed for some kinds by the operation or
      variable name involved. */
  function Message(e: Error): (m: string)
    ensures Headline(e).Some? ==> Headline(e).value <= m
    ensures e.UnknownOperation? ==> m == UNKNOWN_LITERAL_TYPE + ": " + e.opName
    ensures e.UndefinedVariable? ==> m == UNDEFINED_VARIABLE + ": " + e.name
    ensures e.WrongNumberOfOperands? ==> m == WRONG_NUM_OF_OPERANDS + " for " + e.opName
  {
    match e
    case WrongVariablePosition => WRONG_VARIABLE_POSITION
    case UnknownLiteralType => UNKNOWN_LITERAL_TYPE
    case UnknownOperation(op) => UNKNOWN_LITERAL_TYPE + ": " + op
    case UndefinedVariable(name) => UNDEFINED_VARIABLE + ": " + name
    case WrongNumberOfOperands(op) => WRONG_NUM_OF_OPERANDS + " for " + op
    case FirstLetOperandShouldBeVariable => FIRST_LET_OPERAND_SHOULD_BE_VARIABLE
    case UnreachableCodeReached => UNREACHABLE_CODE_REACHED
    case BadExpression => BAD_EXPRESSION
    case InvalidInput => INVALID_INPUT + " The array of tokes can not be null."
    case NullDereference => "null"
    case DivisionByZero => "division by zero"
  }

  /** Characters 0, 2 and 6 of the eight message constants tell them apart. */
  function Signature(c: string): (char, char, char)
    requires |c| > 6
  {
    (c[0], c[2], c[6])
  }

  lemma {:induction false} SignatureOfHeadline(e: Error)
    requires Headline(e).Some?
    ensures |Headline(e).value| > 6
    ensures Signature(Headline(e).value) ==
      match e
      case WrongVariablePosition => ('W', 'o', 'v')
      case UnknownLiteralType => ('U', 'k', ' ')
      case UnknownOperation(_) => ('U', 'k', ' ')
      case UndefinedVariable(_) => ('U', 'd', 'n')
      case WrongNumberOfOperands(_) => ('W', 'o', 'n')
      case FirstLetOperandShouldBeVariable => ('L', 'f', 's')
      case UnreachableCodeReached => ('T', 'i', 'o')
      case BadExpression => ('B', 'd', 'p')
      case InvalidInput => ('I', 'v', 'd')
      case _ => (' ', ' ', ' ')
  {
    match e
    case WrongVariablePosition => assert WRONG_VARIABLE_POSITION[0] == 'W' && WRONG_VARIABLE_POSITION[2] == 'o' && WRONG_VARIABLE_POSITION[6] == 'v';
    case UnknownLiteralType => assert UNKNOWN_LITERAL_TYPE[0] == 'U' && UNKNOWN_LITERAL_TYPE[2] == 'k' && UNKNOWN_LITERAL_TYPE[6] == ' ';
    case UnknownOperation(_) => assert UNKNOWN_LITERAL_TYPE[0] == 'U' && UNKNOWN_LITERAL_TYPE[2] == 'k' && UNKNOWN_LITERAL_TYPE[6] == ' ';
    case UndefinedVariable(_) => assert UNDEFINED_VARIABLE[0] == 'U' && UNDEFINED_VARIABLE[2] == 'd' && UNDEFINED_VARIABLE[6] == 'n';
    case WrongNumberOfOperands(_) => assert WRONG_NUM_OF_OPERANDS[0] == 'W' && WRONG_NUM_OF_OPERANDS[2] == 'o' && WRONG_NUM_OF_OPERANDS[6] == 'n';
    case FirstLetOperandShouldBeVariable =>
      assert FIRST_LET_OPERAND_SHOULD_BE_VARIABLE[0] == 'L' && FIRST_LET_OPERAND_SHOULD_BE_VARIABLE[2] == 'f' && FIRST_LET_OPERAND_SHOULD_BE_VARIABLE[6] == 's';
    case UnreachableCodeReached => assert UNREACHABLE_CODE_REACHED[0] == 'T' && UNREACHABLE_CODE_REACHED[2] == 'i' && UNREACHABLE_CODE_REACHED[6] == 'o';
    case BadExpression => assert BAD_EXPRESSION[0] == 'B' && BAD_EXPRESSION[2] == 'd' && BAD_EXPRESSION[6] == 'p';
    case InvalidInput => assert INVALID_INPUT[0] == 'I' && INVALID_INPUT[2] == 'v' && INVALID_INPUT[6] == 'd';
    case _ =>
  }

  lemma HeadlinesHaveDistinctSignatures(e1: Error, e2: Error)
    requires Headline(e1).Some? && Headline(e2).Some?
    ensures |Headline(e1).value| > 6 && |Headline(e2).value| > 6
    ensures Signature(Headline(e1).value) == Signature(Headline(e2).value) ==> Headline(e1) == Headline(e2)
  {
    SignatureOfHeadline(e1);
    SignatureOfHeadline(e2);
  }

  /** A message starts with the constant of no other kind: whoever matches
      the start of a message against a constant learns the kind of error. */
  lemma MessageIdentifiesKind(e1: Error, e2: Error)
    requires Headline(e1).Some? && Headline(e2).Some?
    requires Headline(e1).value <= Message(e2)
    ensures Headline(e1) == Headline(e2)
  {
    var c1, c2, m := Headline(e1).value, Headline(e2).value, Message(e2);
    HeadlinesHaveDistinctSignatures(e1, e2);
    assert c1[0] == m[0] == c2[0] && c1[2] == m[2] == c2[2] && c1[6] == m[6] == c2[6];
  }
}
