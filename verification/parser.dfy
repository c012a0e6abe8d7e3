/** `TokenTree.makeTree`: recursive descent over the token queue. The queue
    is a sequence whose head is the next token; each call returns the node it
    filled in and the tokens it left unconsumed. */
module Parser {
  import opened Wrappers
  import opened Errors
  import opened Syntax
  import opened Nodes

  /** A node made to be filled in as an operand: `new Node()` followed by
      `setParent`. */
  function ChildNode(): (n: Node)
    ensures IsUnset(n) && n.hasParent
  {
    SetParent(NewNode(), true)
  }

  /** The errors tree building can raise. */
  predicate IsParseError(e: Error) {
    e.BadExpression? || e.UnknownLiteralType? || e.WrongVariablePosition?
  }

  predicate Suffix(rest: seq<string>, tokens: seq<string>) {
    |rest| <= |tokens| && rest == tokens[|tokens| - |rest|..]
  }

  /** The trees makeTree builds: every node has a known operation name and
      exactly the fields that operation uses; an operation has as many
      operands as its arity, each with a parent; a variable has a name that
      is no keyword and a parent; an integer holds a 32-bit whole value. */
  predicate WellFormed(n: Node)
    decreases n
  {
    match n.opName
    case None => false
    case Some(op) =>
      if IsKeyword(op) then
        && n.varName.None? && n.value.None?
        && n.children.Assigned? && |n.children.nodes| == Arity(op)
        && forall i :: 0 <= i < |n.children.nodes| ==>
             n.children.nodes[i].hasParent && WellFormed(n.children.nodes[i])
      else if op == OP_VAR then
        && n.varName.Some? && IsLiteral(n.varName.value) && !IsKeyword(n.varName.value)
        && n.value.None? && n.children.Unassigned? && n.hasParent
      else if op == OP_INT then
        && n.value.Some? && n.value.value == n.value.value.Floor as real
        && InIntRange(n.value.value.Floor)
        && n.varName.None? && n.children.Unassigned?
      else false
  }

  /** An operation node while its operands are being appended: at least its
      first operand is there and no more than its arity. */
  predicate PartialOperation(n: Node, arity: nat) {
    && n.opName.Some? && IsKeyword(n.opName.value) && arity == Arity(n.opName.value)
    && n.varName.None? && n.value.None?
    && n.children.Assigned? && 1 <= |n.children.nodes| <= arity
    && forall i :: 0 <= i < |n.children.nodes| ==>
         n.children.nodes[i].hasParent && WellFormed(n.children.nodes[i])
  }

  /** `makeTree(n)` on a node fresh from the constructor. A keyword becomes
      an operation node whose operands are built one after the other; else a
      letters-only token becomes a variable, which needs a parent; else a
      32-bit integer token becomes an integer node; anything else is an
      unknown literal. At the root, tokens left over are a bad expression. */
  function MakeTree(n: Node, tokens: seq<string>): (r: Result<(Node, seq<string>), Error>)
    requires IsUnset(n)
    ensures r.Success? ==> WellFormed(r.value.0) && r.value.0.hasParent == n.hasParent
    ensures r.Success? ==> Suffix(r.value.1, tokens) && |r.value.1| < |tokens|
    ensures r.Success? && !n.hasParent ==> r.value.1 == []
    ensures r.Failure? ==> IsParseError(r.error)
    ensures |tokens| == 0 ==> r == Failure(BadExpression)
    decreases |tokens|, 0
  {
    if |tokens| == 0 then Failure(BadExpression)
    else
      var top := tokens[0];
      var built: Result<(Node, seq<string>), Error> :=
        if IsKeyword(top) then
          (match MakeTree(ChildNode(), tokens[1..])
           case Failure(e) => Failure(e)
           case Success((child, rest)) =>
             AppendOperands(AppendChild(SetOpName(n, Some(top)), child), rest, Arity(top)))
        else if IsLiteral(top) then
          if !n.hasParent then Failure(WrongVariablePosition)
          else Success((SetVarName(SetOpName(n, Some(OP_VAR)), Some(top)), tokens[1..]))
        else if IsNumeric(top) then
          Success((SetValue(SetOpName(n, Some(OP_INT)), Some(ParseInt(top) as real)), tokens[1..]))
        else Failure(UnknownLiteralType);
      if built.Success? && !n.hasParent && |built.value.1| > 0 then Failure(BadExpression)
      else built
  }

  /** The operand loop of makeTree: while the operation has fewer children
      than its arity, append a fresh operand node and build it from the
      queue. The child list is assigned whenever the loop reads its size. */
  function AppendOperands(n: Node, tokens: seq<string>, arity: nat): (r: Result<(Node, seq<string>), Error>)
    requires PartialOperation(n, arity)
    ensures r.Success? ==> WellFormed(r.value.0) && r.value.0.hasParent == n.hasParent
    ensures r.Success? ==> r.value.0.opName == n.opName
    ensures r.Success? ==> Suffix(r.value.1, tokens)
    ensures r.Failure? ==> IsParseError(r.error)
    decreases |tokens|, 1
  {
    if |n.children.nodes| < arity then
      match MakeTree(ChildNode(), tokens)
      case Failure(e) => Failure(e)
      case Success((child, rest)) => AppendOperands(AppendChild(n, child), rest, arity)
    else Success((n, tokens))
  }

  /** The variable node makeTree builds for a name. */
  function VarLeaf(name: string, hasParent: bool): Node {
    Node(Some(OP_VAR), Some(name), None, Unassigned, hasParent)
  }

  /** The integer node makeTree builds for a value. */
  function IntLeaf(i: int, hasParent: bool): Node {
    Node(Some(OP_INT), None, Some(i as real), Unassigned, hasParent)
  }

  /** A non-empty token of letters, digits and minus signs only. */
  predicate IsPlainToken(w: string) {
    |w| > 0 && forall i :: 0 <= i < |w| ==> IsLetter(w[i]) || IsDigit(w[i]) || w[i] == '-'
  }

  /** The operation node makeTree builds for an operation and its operands. */
  function OpNode(op: string, kids: seq<Node>, hasParent: bool): Node {
    Node(Some(op), None, None, Assigned(kids), hasParent)
  }

  /** The canonical token sequence of a tree, in prefix order: the inverse
      of makeTree on the trees it builds. A field a well-formed tree always
      has prints as nothing when missing. */
  function Serialize(t: Node): (ts: seq<string>)
    ensures WellFormed(t) ==> |ts| > 0
    decreases t
  {
    match t.opName
    case None => []
    case Some(op) =>
      if IsKeyword(op) then
        [op] + (match t.children case Assigned(kids) => SerializeAll(kids) case Unassigned => [])
      else if op == OP_VAR then
        (match t.varName case Some(name) => [name] case None => [])
      else
        (match t.value case Some(x) => [ShowInt(x.Floor)] case None => [])
  }

  function SerializeAll(ns: seq<Node>): (ts: seq<string>)
    decreases ns
  {
    if |ns| == 0 then [] else Serialize(ns[0]) + SerializeAll(ns[1..])
  }

  /** Every printed token is a nonempty run of letters, digits and minus
      signs, so no delimiter can split or join tokens. */
  lemma {:induction false} SerializeIsPlain(t: Node)
    requires WellFormed(t)
    ensures forall i :: 0 <= i < |Serialize(t)| ==> IsPlainToken(Serialize(t)[i])
    decreases t
  {
    var op := t.opName.value;
    if IsKeyword(op) {
      SerializeAllIsPlain(t.children.nodes);
    }
  }

  lemma {:induction false} SerializeAllIsPlain(ns: seq<Node>)
    requires forall i :: 0 <= i < |ns| ==> WellFormed(ns[i])
    ensures forall i :: 0 <= i < |SerializeAll(ns)| ==> IsPlainToken(SerializeAll(ns)[i])
    decreases ns
  {
    if |ns| > 0 {
      SerializeIsPlain(ns[0]);
      SerializeAllIsPlain(ns[1..]);
    }
  }

  /** Parsing the tokens of a tree gives the tree back and leaves the
      following tokens alone; at the root the tree must be all there is. */
  lemma {:induction false} MakeTreeOfSerialize(t: Node, rest: seq<string>)
    requires WellFormed(t) && (t.hasParent || rest == [])
    ensures MakeTree(SetParent(NewNode(), t.hasParent), Serialize(t) + rest) == Success((t, rest))
    decreases t, 2
  {
    var op := t.opName.value;
    if IsKeyword(op) {
      MakeTreeOfOperation(t, rest);
    } else if op == OP_VAR {
      assert (Serialize(t) + rest)[1..] == rest;
    } else {
      ShowIntClassifies(t.value.value.Floor);
      assert (Serialize(t) + rest)[1..] == rest;
    }
  }

  lemma {:induction false} MakeTreeOfOperation(t: Node, rest: seq<string>)
    requires WellFormed(t) && (t.hasParent || rest == [])
    requires t.opName.Some? && IsKeyword(t.opName.value)
    ensures MakeTree(SetParent(NewNode(), t.hasParent), Serialize(t) + rest) == Success((t, rest))
    decreases t, 1
  {
    var n := SetParent(NewNode(), t.hasParent);
    var op := t.opName.value;
    var kids := t.children.nodes;
    var tokens := Serialize(t) + rest;
    assert tokens == [op] + (SerializeAll(kids) + rest);
    FirstOperandOfSerialize(kids, rest);
    AppendOperandsOfSerialize(op, [kids[0]], kids[1..], rest, t.hasParent);
    assert [kids[0]] + kids[1..] == kids;
    MakeTreeOfKeyword(n, tokens, kids[0], SerializeAll(kids[1..]) + rest);
  }

  /** The tokens of several operands start with the first operand's. */
  lemma FirstOperandOfSerialize(kids: seq<Node>, rest: seq<string>)
    requires |kids| > 0 && forall i :: 0 <= i < |kids| ==> kids[i].hasParent && WellFormed(kids[i])
    ensures MakeTree(ChildNode(), SerializeAll(kids) + rest) == Success((kids[0], SerializeAll(kids[1..]) + rest))
    decreases kids, 0
  {
    var tail := SerializeAll(kids[1..]) + rest;
    assert SerializeAll(kids) + rest == Serialize(kids[0]) + tail;
    MakeTreeOfSerialize(kids[0], tail);
    assert SetParent(NewNode(), true) == ChildNode();
  }

  /** One round of the operand loop: parse an operand and append it. */
  lemma AppendOperandsStep(op: string, done: seq<Node>, tokens: seq<string>, child: Node, rest: seq<string>, hasParent: bool)
    requires IsKeyword(op) && 1 <= |done| < Arity(op)
    requires forall i :: 0 <= i < |done| ==> done[i].hasParent && WellFormed(done[i])
    requires MakeTree(ChildNode(), tokens) == Success((child, rest))
    ensures AppendOperands(OpNode(op, done, hasParent), tokens, Arity(op))
      == AppendOperands(OpNode(op, done + [child], hasParent), rest, Arity(op))
  {
    assert AppendChild(OpNode(op, done, hasParent), child) == OpNode(op, done + [child], hasParent);
  }

  /** makeTree on a keyword: build the first operand from the following
      tokens, then hand the rest to the operand loop. */
  lemma MakeTreeOfKeyword(n: Node, tokens: seq<string>, child: Node, rest: seq<string>)
    requires IsUnset(n) && |tokens| > 0 && IsKeyword(tokens[0])
    requires MakeTree(ChildNode(), tokens[1..]) == Success((child, rest))
    ensures MakeTree(n, tokens) ==
      var r := AppendOperands(OpNode(tokens[0], [child], n.hasParent), rest, Arity(tokens[0]));
      if r.Success? && !n.hasParent && |r.value.1| > 0 then Failure(BadExpression) else r
  {
    assert AppendChild(SetOpName(n, Some(tokens[0])), child) == OpNode(tokens[0], [child], n.hasParent);
  }

  /** The printed form of an int in range is classified as an int. */
  lemma ShowIntClassifies(i: int)
    requires InIntRange(i)
    ensures !IsKeyword(ShowInt(i)) && !IsLiteral(ShowInt(i))
    ensures IsNumeric(ShowInt(i)) && ParseInt(ShowInt(i)) == i
  {
    ShowIntNumeric(i);
    assert !IsLetter(ShowInt(i)[0]);
    if IsKeyword(ShowInt(i)) {
      KeywordsAreLiterals(ShowInt(i));
    }
  }

  /** The operand loop, fed the tokens of the missing operands, appends
      exactly those operands. */
  lemma {:induction false} AppendOperandsOfSerialize(op: string, done: seq<Node>, kids: seq<Node>, rest: seq<string>, hasParent: bool)
    requires IsKeyword(op) && 1 <= |done| && |done| + |kids| == Arity(op)
    requires forall i :: 0 <= i < |done| ==> done[i].hasParent && WellFormed(done[i])
    requires forall i :: 0 <= i < |kids| ==> kids[i].hasParent && WellFormed(kids[i])
    ensures AppendOperands(OpNode(op, done, hasParent), SerializeAll(kids) + rest, Arity(op))
      == Success((OpNode(op, done + kids, hasParent), rest))
    decreases kids, 1
  {
    if |kids| == 0 {
      assert done + kids == done;
      assert SerializeAll(kids) + rest == rest;
    } else {
      var next := done + [kids[0]];
      assert next + kids[1..] == done + kids;
      assert forall i :: 0 <= i < |next| ==> next[i].hasParent && WellFormed(next[i]);
      FirstOperandOfSerialize(kids, rest);
      AppendOperandsStep(op, done, SerializeAll(kids) + rest, kids[0], SerializeAll(kids[1..]) + rest, hasParent);
      AppendOperandsOfSerialize(op, next, kids[1..], rest, hasParent);
    }
  }

  /** An error while building the first operand of an operation is the
      error of the whole operation: nothing after it is looked at. */
  lemma FirstOperandErrorAborts(n: Node, tokens: seq<string>)
    requires IsUnset(n) && |tokens| > 0 && IsKeyword(tokens[0])
    requires MakeTree(ChildNode(), tokens[1..]).Failure?
    ensures MakeTree(n, tokens) == MakeTree(ChildNode(), tokens[1..])
  {
  }

  /** An error while building a later operand ends the operand loop with
      that error. */
  lemma NextOperandErrorAborts(n: Node, tokens: seq<string>, arity: nat)
    requires PartialOperation(n, arity) && |n.children.nodes| < arity
    requires MakeTree(ChildNode(), tokens).Failure?
    ensures AppendOperands(n, tokens, arity) == MakeTree(ChildNode(), tokens)
  {
  }

  /** An error of the operand loop is the error of the operation. */
  lemma OperandLoopErrorAborts(n: Node, tokens: seq<string>, child: Node, rest: seq<string>)
    requires IsUnset(n) && |tokens| > 0 && IsKeyword(tokens[0])
    requires MakeTree(ChildNode(), tokens[1..]) == Success((child, rest))
    requires AppendOperands(OpNode(tokens[0], [child], n.hasParent), rest, Arity(tokens[0])).Failure?
    ensures MakeTree(n, tokens) == AppendOperands(OpNode(tokens[0], [child], n.hasParent), rest, Arity(tokens[0]))
  {
    MakeTreeOfKeyword(n, tokens, child, rest);
  }

  /** The fixed classification order for a token under a parent: keyword,
      then variable name, then 32-bit integer, else an unknown literal. */
  lemma ClassifyOperand(t: string, rest: seq<string>)
    ensures IsKeyword(t) && MakeTree(ChildNode(), [t] + rest).Success? ==>
      MakeTree(ChildNode(), [t] + rest).value.0.opName == Some(t)
    ensures !IsKeyword(t) && IsLiteral(t) ==>
      MakeTree(ChildNode(), [t] + rest) == Success((VarLeaf(t, true), rest))
    ensures !IsKeyword(t) && !IsLiteral(t) && IsNumeric(t) ==>
      MakeTree(ChildNode(), [t] + rest) == Success((IntLeaf(ParseInt(t), true), rest))
    ensures !IsKeyword(t) && !IsLiteral(t) && !IsNumeric(t) ==>
      MakeTree(ChildNode(), [t] + rest) == Failure(UnknownLiteralType)
  {
    assert ([t] + rest)[1..] == rest;
  }

  /** At the root a variable is rejected before leftover tokens are looked
      at, while a lone integer is a whole expression. */
  lemma ClassifyRoot(t: string, rest: seq<string>)
    ensures !IsKeyword(t) && IsLiteral(t) ==>
      MakeTree(NewNode(), [t] + rest) == Failure(WrongVariablePosition)
    ensures !IsKeyword(t) && !IsLiteral(t) && IsNumeric(t) ==>
      MakeTree(NewNode(), [t] + rest) ==
        if rest == [] then Success((IntLeaf(ParseInt(t), false), [])) else Failure(BadExpression)
  {
    assert ([t] + rest)[1..] == rest;
  }

  /** The operand loop does not look at the parent flag of the node it fills. */
  lemma {:induction false} AppendOperandsIgnoresParent(n: Node, tokens: seq<string>, arity: nat, b: bool)
    requires PartialOperation(n, arity)
    ensures AppendOperands(SetParent(n, b), tokens, arity) ==
      match AppendOperands(n, tokens, arity)
      case Failure(e) => Failure(e)
      case Success((m, rest)) => Success((SetParent(m, b), rest))
    decreases |tokens|
  {
    if |n.children.nodes| < arity {
      match MakeTree(ChildNode(), tokens)
      case Failure(e) =>
      case Success((child, rest)) =>
        assert AppendChild(SetParent(n, b), child) == SetParent(AppendChild(n, child), b);
        AppendOperandsIgnoresParent(AppendChild(n, child), rest, arity, b);
    }
  }

  /** Building the root is building an operand followed by the check that no
      token is left over, for any input that does not start with a
      variable: `add(3,4,2)` parses `add(3,4)` and then fails on `2`. */
  lemma RootIsOperandWithoutLeftovers(tokens: seq<string>)
    requires |tokens| > 0 ==> IsKeyword(tokens[0]) || !IsLiteral(tokens[0])
    ensures MakeTree(NewNode(), tokens) ==
      match MakeTree(ChildNode(), tokens)
      case Failure(e) => Failure(e)
      case Success((t, rest)) => if rest == [] then Success((SetParent(t, false), [])) else Failure(BadExpression)
  {
    if |tokens| > 0 && IsKeyword(tokens[0]) {
      RootOperationIsOperand(tokens);
    }
  }

  lemma RootOperationIsOperand(tokens: seq<string>)
    requires |tokens| > 0 && IsKeyword(tokens[0])
    ensures MakeTree(NewNode(), tokens) ==
      match MakeTree(ChildNode(), tokens)
      case Failure(e) => Failure(e)
      case Success((t, rest)) => if rest == [] then Success((SetParent(t, false), [])) else Failure(BadExpression)
  {
    var top := tokens[0];
    match MakeTree(ChildNode(), tokens[1..])
    case Failure(e) =>
    case Success((child, rest)) =>
      var m := AppendChild(SetOpName(ChildNode(), Some(top)), child);
      assert AppendChild(SetOpName(NewNode(), Some(top)), child) == SetParent(m, false);
      AppendOperandsIgnoresParent(m, rest, Arity(top), false);
  }
}
