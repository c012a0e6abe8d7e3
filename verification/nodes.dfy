/** The expression tree node of Node.java as an immutable record. Every Java
    field may be null, so each is optional here; the parent back-pointer is
    reduced to whether the node has a parent. Setters return the updated
    record, and a getter is the field selector of the same name. */
module Nodes {
  import opened Wrappers

  /** Node.children: null until the first appendChild, then a list. */
  datatype ChildList = Unassigned | Assigned(nodes: seq<Node>)

  datatype Node = Node(
    opName: Option<string>,
    varName: Option<string>,
    value: Option<real>,
    children: ChildList,
    hasParent: bool)

  /** The child list as a sequence, empty while it is unassigned. */
  function ChildrenOf(n: Node): seq<Node> {
    match n.children
    case Unassigned => []
    case Assigned(kids) => kids
  }

  /** Every field of a node is null, as the constructor leaves it. */
  predicate IsUnset(n: Node) {
    n.opName.None? && n.varName.None? && n.value.None? && n.children.Unassigned?
  }

  /** `new Node()`: every field null, no children, no parent. */
  function NewNode(): (n: Node)
    ensures IsUnset(n) && !n.hasParent
    ensures NumChildren(n) == 0
  {
    Node(None, None, None, Unassigned, false)
  }

  /** `numChildren()`: 0 while the list is unassigned, else its size. */
  function NumChildren(n: Node): (k: nat)
    ensures n.children.Unassigned? ==> k == 0
    ensures n.children.Assigned? ==> k == |n.children.nodes|
  {
    match n.children
    case Unassigned => 0
    case Assigned(kids) => |kids|
  }

  /** `appendChild(child)`: creates the list if needed and adds the child at
      its end; no other field changes. */
  function AppendChild(n: Node, child: Node): (r: Node)
    ensures r.children == Assigned(ChildrenOf(n) + [child])
    ensures NumChildren(r) == NumChildren(n) + 1
    ensures r.opName == n.opName && r.varName == n.varName && r.value == n.value
    ensures r.hasParent == n.hasParent
  {
    match n.children
    case Unassigned =>
      assert ChildrenOf(n) + [child] == [child];
      n.(children := Assigned([child]))
    case Assigned(kids) => n.(children := Assigned(kids + [child]))
  }

  function SetOpName(n: Node, opName: Option<string>): (r: Node)
    ensures r.opName == opName
    ensures r.varName == n.varName && r.value == n.value && r.children == n.children && r.hasParent == n.hasParent
  {
    n.(opName := opName)
  }

  function SetVarName(n: Node, varName: Option<string>): (r: Node)
    ensures r.varName == varName
    ensures r.opName == n.opName && r.value == n.value && r.children == n.children && r.hasParent == n.hasParent
  {
    n.(varName := varName)
  }

  function SetValue(n: Node, value: Option<real>): (r: Node)
    ensures r.value == value
    ensures r.opName == n.opName && r.varName == n.varName && r.children == n.children && r.hasParent == n.hasParent
  {
    n.(value := value)
  }

  function SetChildren(n: Node, children: ChildList): (r: Node)
    ensures r.children == children
    ensures r.opName == n.opName && r.varName == n.varName && r.value == n.value && r.hasParent == n.hasParent
  {
    n.(children := children)
  }

  function SetParent(n: Node, hasParent: bool): (r: Node)
    ensures r.hasParent == hasParent
    ensures r.opName == n.opName && r.varName == n.varName && r.value == n.value && r.children == n.children
  {
    n.(hasParent := hasParent)
  }

  /** Appending k children one by one leaves exactly those children, in order. */
  lemma {:induction false} AppendChildrenInOrder(n: Node, kids: seq<Node>)
    ensures ChildrenOf(AppendAll(n, kids)) == ChildrenOf(n) + kids
    ensures NumChildren(AppendAll(n, kids)) == NumChildren(n) + |kids|
    decreases |kids|
  {
    if |kids| > 0 {
      AppendChildrenInOrder(AppendChild(n, kids[0]), kids[1..]);
      assert ChildrenOf(n) + [kids[0]] + kids[1..] == ChildrenOf(n) + kids;
    }
  }

  /** appendChild applied to each node of a sequence in turn. */
  function AppendAll(n: Node, kids: seq<Node>): Node
    decreases |kids|
  {
    if |kids| == 0 then n else AppendAll(AppendChild(n, kids[0]), kids[1..])
  }
}
