/** `TokenTree.evaluate(Node)`: a post-order walk over the tree that threads
    one variable table through the whole traversal. `let` writes to the
    table and nothing ever removes an entry. Values are exact reals. */
module Evaluator {
  import opened Wrappers
  import opened Errors
  import opened Syntax
  import opened Nodes
  import Parser

  /** The varMap: variable name to value. */
  type Env = map<string, real>

  /** Evaluate a node under a table, giving its value and the table after
      every `let` beneath it has stored its binding. A field the walk needs
      but finds unset is a null dereference; an operation name outside the
      seven known ones is an unknown literal type. */
  function Eval(n: Node, env: Env): (r: Result<(real, Env), Error>)
    ensures r.Success? ==> env.Keys <= r.value.1.Keys
    ensures r != Failure(UnreachableCodeReached)
    decreases n, 1
  {
    match n.opName
    case None => Failure(NullDereference)
    case Some(op) =>
      if IsKeyword(op) then
        match n.children
        case Unassigned => Failure(NullDereference)
        case Assigned(kids) =>
          if |kids| != Arity(op) then Failure(WrongNumberOfOperands(op))
          else EvalOperation(n, op, env)
      else if op == OP_VAR then
        match n.varName
        case None => Failure(NullDereference)
        case Some(name) =>
          if name !in env then Failure(UndefinedVariable(name)) else Success((env[name], env))
      else if op == OP_INT then
        match n.value
        case None => Failure(NullDereference)
        case Some(v) => Success((v, env))
      else Failure(UnknownOperation(op))
  }

  /** An operation node that passed the operand count check. Binary
      operations evaluate the left operand, then the right, under the table
      the left one left behind; `let` requires a variable node first,
      evaluates its value operand, binds the name, then evaluates its body. */
  function EvalOperation(n: Node, op: string, env: Env): (r: Result<(real, Env), Error>)
    requires IsKeyword(op) && n.children.Assigned? && |n.children.nodes| == Arity(op)
    ensures r.Success? ==> env.Keys <= r.value.1.Keys
    ensures r != Failure(UnreachableCodeReached)
    decreases n, 0
  {
    var kids := n.children.nodes;
    if op == OP_ADD || op == OP_SUB || op == OP_MUL || op == OP_DIV then
      var a :- Eval(kids[0], env);
      var b :- Eval(kids[1], a.1);
      var v :- Apply(op, a.0, b.0);
      Success((v, b.1))
    else if op == OP_LET then
      match kids[0].opName
      case None => Failure(NullDereference)
      case Some(firstOp) =>
        if firstOp != OP_VAR then Failure(FirstLetOperandShouldBeVariable)
        else
          var b :- Eval(kids[1], env);
          match kids[0].varName
          case None => Failure(NullDereference)
          case Some(name) => Eval(kids[2], b.1[name := b.0])
    else Failure(UnreachableCodeReached)
  }

  /** The arithmetic of the four binary operations on exact values; a zero
      divisor is an error here where Java's double division would yield an
      infinity or NaN. */
  function Apply(op: string, x: real, y: real): (r: Result<real, Error>)
    requires op == OP_ADD || op == OP_SUB || op == OP_MUL || op == OP_DIV
    ensures r.Failure? <==> op == OP_DIV && y == 0.0
    ensures r.Failure? ==> r.error == DivisionByZero
    ensures r.Success? && op == OP_DIV ==> r.value * y == x
  {
    if op == OP_ADD then Success(x + y)
    else if op == OP_SUB then Success(x - y)
    else if op == OP_MUL then Success(x * y)
    else if y == 0.0 then Failure(DivisionByZero)
    else Success(x / y)
  }

  /** Errors that a tree makeTree built can still raise when evaluated. */
  predicate IsRuntimeError(e: Error) {
    e.UndefinedVariable? || e.FirstLetOperandShouldBeVariable? || e.DivisionByZero?
  }

  /** On a tree makeTree built, the operand count check always passes, the
      default and fall-through branches are never taken and no unset field
      is read: evaluation fails only on an unbound variable, a `let` whose
      first operand is no variable, or a zero divisor. */
  lemma {:induction false} EvalOfWellFormed(n: Node, env: Env)
    requires Parser.WellFormed(n)
    ensures Eval(n, env).Failure? ==> IsRuntimeError(Eval(n, env).error)
    decreases n, 1
  {
    var op := n.opName.value;
    if IsKeyword(op) {
      EvalOperationOfWellFormed(n, op, env);
    }
  }

  lemma {:induction false} EvalOperationOfWellFormed(n: Node, op: string, env: Env)
    requires Parser.WellFormed(n) && n.opName == Some(op) && IsKeyword(op)
    ensures EvalOperation(n, op, env).Failure? ==> IsRuntimeError(EvalOperation(n, op, env).error)
    decreases n, 0
  {
    var kids := n.children.nodes;
    assert Parser.WellFormed(kids[0]) && Parser.WellFormed(kids[1]);
    if op == OP_LET {
      if kids[0].opName == Some(OP_VAR) {
        EvalOfWellFormed(kids[1], env);
        if Eval(kids[1], env).Success? {
          var b := Eval(kids[1], env).value;
          assert Parser.WellFormed(kids[2]);
          EvalOfWellFormed(kids[2], b.1[kids[0].varName.value := b.0]);
        }
      }
    } else {
      EvalOfWellFormed(kids[0], env);
      if Eval(kids[0], env).Success? {
        EvalOfWellFormed(kids[1], Eval(kids[0], env).value.1);
      }
    }
  }

  /** The names the `let` nodes of a tree bind. */
  function BoundNames(n: Node): set<string>
    decreases n
  {
    match n.children
    case Unassigned => {}
    case Assigned(kids) =>
      BoundNamesAll(kids)
      + if n.opName == Some(OP_LET) && |kids| > 0 && kids[0].varName.Some? then {kids[0].varName.value} else {}
  }

  function BoundNamesAll(kids: seq<Node>): set<string>
    decreases kids
  {
    if |kids| == 0 then {} else BoundNames(kids[0]) + BoundNamesAll(kids[1..])
  }

  lemma BoundNamesOfOperands(kids: seq<Node>)
    requires |kids| >= 2
    ensures BoundNamesAll(kids) == BoundNames(kids[0]) + BoundNames(kids[1]) + BoundNamesAll(kids[2..])
    ensures |kids| == 3 ==> BoundNamesAll(kids[2..]) == BoundNames(kids[2])
  {
    assert kids[1..][1..] == kids[2..];
    if |kids| == 3 {
      assert kids[2..][1..] == [];
    }
  }

  /** A successful evaluation adds exactly the names its `let`s bind to the
      table and leaves every other entry as it was: no binding is ever
      removed, so one made inside an operand stays visible to the operands
      evaluated after it. */
  lemma {:induction false} EvalBindings(n: Node, env: Env)
    requires Parser.WellFormed(n)
    requires Eval(n, env).Success?
    ensures Eval(n, env).value.1.Keys == env.Keys + BoundNames(n)
    ensures forall x :: x in env && x !in BoundNames(n) ==> Eval(n, env).value.1[x] == env[x]
    decreases n, 1
  {
    var op := n.opName.value;
    if IsKeyword(op) {
      BoundNamesOfOperands(n.children.nodes);
      if op == OP_LET {
        LetBindings(n, env);
      } else {
        BinaryBindings(n, op, env);
      }
    }
  }

  lemma {:induction false} BinaryBindings(n: Node, op: string, env: Env)
    requires Parser.WellFormed(n) && n.opName == Some(op) && IsKeyword(op) && op != OP_LET
    requires EvalOperation(n, op, env).Success?
    ensures EvalOperation(n, op, env).value.1.Keys == env.Keys + BoundNamesAll(n.children.nodes)
    ensures forall x :: x in env && x !in BoundNamesAll(n.children.nodes) ==>
      EvalOperation(n, op, env).value.1[x] == env[x]
    decreases n, 0
  {
    var kids := n.children.nodes;
    BoundNamesOfOperands(kids);
    assert kids[2..] == [];
    assert Parser.WellFormed(kids[0]) && Parser.WellFormed(kids[1]);
    var a := Eval(kids[0], env).value;
    EvalBindings(kids[0], env);
    EvalBindings(kids[1], a.1);
  }

  lemma {:induction false} LetBindings(n: Node, env: Env)
    requires Parser.WellFormed(n) && n.opName == Some(OP_LET)
    requires EvalOperation(n, OP_LET, env).Success?
    ensures EvalOperation(n, OP_LET, env).value.1.Keys == env.Keys + BoundNames(n)
    ensures forall x :: x in env && x !in BoundNames(n) ==> EvalOperation(n, OP_LET, env).value.1[x] == env[x]
    decreases n, 0
  {
    var kids := n.children.nodes;
    BoundNamesOfOperands(kids);
    assert Parser.WellFormed(kids[0]) && Parser.WellFormed(kids[1]) && Parser.WellFormed(kids[2]);
    assert BoundNames(kids[0]) == {};
    var name := kids[0].varName.value;
    var b := Eval(kids[1], env).value;
    EvalBindings(kids[1], env);
    EvalBindings(kids[2], b.1[name := b.0]);
  }
}
