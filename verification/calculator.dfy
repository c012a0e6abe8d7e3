/** `Calculator.evaluate(String)` and the TokenTree it creates: tokenize,
    build the tree from the root, evaluate it under a fresh table, and cast
    the result to `int`. */
module Calculator {
  import opened Wrappers
  import opened Errors
  import opened Syntax
  import opened Nodes
  import opened Tokenizer
  import opened Parser
  import opened Evaluator

  /** A TokenTree as its constructor leaves it: the token queue, a fresh
      root and no table yet. */
  datatype TokenTree = TokenTree(tokens: seq<string>)

  /** `new TokenTree(tokenArr)`: a null array is invalid input. */
  function NewTokenTree(tokenArr: Option<seq<string>>): (r: Result<TokenTree, Error>)
    ensures r.Failure? <==> tokenArr.None?
    ensures r.Failure? ==> r.error == InvalidInput
    ensures r.Success? ==> r.value.tokens == tokenArr.value
  {
    match tokenArr
    case None => Failure(InvalidInput)
    case Some(arr) => Success(TokenTree(arr))
  }

  /** `TokenTree.evaluate()`: build the tree from a fresh root, then
      evaluate it under an empty table. */
  function EvaluateTree(t: TokenTree): (r: Result<real, Error>)
    ensures r.Failure? ==> IsParseError(r.error) || IsRuntimeError(r.error)
    ensures |t.tokens| == 0 ==> r == Failure(BadExpression)
  {
    var built :- MakeTree(NewNode(), t.tokens);
    EvalOfWellFormed(built.0, map[]);
    var result :- Eval(built.0, map[]);
    Success(result.0)
  }

  /** Truncation toward zero. */
  function Truncate(x: real): (t: int)
    ensures x >= 0.0 ==> 0 <= t && t as real <= x < t as real + 1.0
    ensures x < 0.0 ==> t <= 0 && t as real - 1.0 < x <= t as real
  {
    if x >= 0.0 then x.Floor else -((-x).Floor)
  }

  /** Java's `(int)` cast of a finite double: truncate toward zero, then
      saturate at the bounds of `int`. */
  function ToInt(x: real): (i: int)
    ensures InIntRange(i)
    ensures InIntRange(Truncate(x)) ==> i == Truncate(x)
    ensures Truncate(x) > INT_MAX ==> i == INT_MAX
    ensures Truncate(x) < INT_MIN ==> i == INT_MIN
  {
    var t := Truncate(x);
    if t > INT_MAX then INT_MAX else if t < INT_MIN then INT_MIN else t
  }

  /** `evaluate(expr)`: each call builds its own token tree and table, so
      the result depends on the text alone. Empty, blank and
      delimiter-only input is a bad expression, and the token tree never
      sees a null array. */
  function Calculate(expr: Option<string>): (r: Result<int, Error>)
    ensures expr.None? || IsBlank(expr.value) || AllDelimiters(expr.value) ==> r == Failure(BadExpression)
    ensures r.Failure? ==> IsParseError(r.error) || IsRuntimeError(r.error)
    ensures r.Success? ==> InIntRange(r.value)
  {
    var tokens := Tokenize(expr);
    match NewTokenTree(Some(tokens))
    case Failure(e) => Failure(e)
    case Success(tree) =>
      var v :- EvaluateTree(tree);
      Success(ToInt(v))
  }

  /** The value `evaluate` returns for a tree, when its evaluation succeeds. */
  function EvalToInt(t: Node): Result<int, Error> {
    match Eval(t, map[])
    case Failure(e) => Failure(e)
    case Success((v, _)) => Success(ToInt(v))
  }

  /** Text that tokenizes to the tokens of a tree evaluates to that tree's
      value under an empty table. */
  lemma CalculateOfTreeText(s: string, t: Node)
    requires WellFormed(t) && !t.hasParent
    requires Tokenize(Some(s)) == Serialize(t)
    ensures Calculate(Some(s)) == EvalToInt(t)
  {
    MakeTreeOfSerialize(t, []);
    assert Serialize(t) + [] == Serialize(t);
    assert SetParent(NewNode(), false) == NewNode();
  }

  /** Printing a tree with single spaces and calculating the text evaluates
      the tree: tokenize and makeTree invert the printer. */
  lemma PrintThenCalculate(t: Node)
    requires WellFormed(t) && !t.hasParent
    ensures Calculate(Some(Join(Serialize(t)))) == EvalToInt(t)
  {
    var ts := Serialize(t);
    SerializeIsPlain(t);
    forall i | 0 <= i < |ts|
      ensures ts[i] != "" && DelimiterFree(ts[i])
    {
      assert IsPlainToken(ts[i]);
    }
    TokenizeJoin(ts);
    JoinStartsWithFirst(ts);
    assert IsPlainToken(ts[0]);
    CalculateOfTreeText(Join(ts), t);
  }

  /** Text holding a complete operand expression followed by further tokens
      is rejected as a whole, though its prefix alone would be accepted:
      `add(3,4,2)` and `let(a,a,5) b` are bad expressions. */
  lemma CalculateWithLeftovers(s: string, t: Node, rest: seq<string>)
    requires WellFormed(t) && t.hasParent && t.opName != Some(OP_VAR)
    requires rest != [] && Tokenize(Some(s)) == Serialize(t) + rest
    ensures Calculate(Some(s)) == Failure(BadExpression)
  {
    var ts := Serialize(t) + rest;
    MakeTreeOfSerialize(t, rest);
    assert SetParent(NewNode(), true) == ChildNode();
    var op := t.opName.value;
    if !IsKeyword(op) {
      var w := ShowInt(t.value.value.Floor);
      assert ts[0] == w && !IsLetter(w[0]);
    }
    RootIsOperandWithoutLeftovers(ts);
  }

  /** An error makeTree reports is the error the calculation reports. */
  lemma CalculateOfParseError(s: string)
    requires MakeTree(NewNode(), Tokenize(Some(s))).Failure?
    ensures Calculate(Some(s)) == Failure(MakeTree(NewNode(), Tokenize(Some(s))).error)
  {
  }
}
