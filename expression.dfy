/**
 * Expression trees. The source represents an expression as a variable name
 * (a leaf) or a list `[operator, operand, ...]`; here the list's tail is a
 * sequence of children, so a node may carry any number of them, as a list
 * may. Arity is not enforced by the type: `WellFormed` states it.
 */
module Expression {
  import opened Operations

  datatype Expr = Var(name: string) | Node(op: Op, args: seq<Expr>)

  /** Levels from the root to the deepest leaf; a leaf has depth 1. */
  function Depth(e: Expr): (d: nat)
    ensures d >= 1
    decreases e, 1
  {
    match e
    case Var(_) => 1
    case Node(_, args) => 1 + MaxDepth(args)
  }

  /** The largest depth among a node's children, 0 for none. */
  function MaxDepth(args: seq<Expr>): (d: nat)
    ensures forall i :: 0 <= i < |args| ==> Depth(args[i]) <= d
    ensures |args| > 0 ==> exists i :: 0 <= i < |args| && Depth(args[i]) == d
    ensures |args| == 0 ==> d == 0
    decreases args, 0
  {
    if |args| == 0 then 0
    else
      var rest := MaxDepth(args[1..]);
      assert forall i :: 1 <= i < |args| ==> args[i] == args[1..][i - 1];
      if Depth(args[0]) >= rest then Depth(args[0]) else rest
  }

  /** Number of nodes and leaves. */
  function Size(e: Expr): (n: nat)
    ensures n >= 1
    decreases e, 1
  {
    match e
    case Var(_) => 1
    case Node(_, args) => 1 + SizeAll(args)
  }

  function SizeAll(args: seq<Expr>): (n: nat)
    ensures forall i :: 0 <= i < |args| ==> Size(args[i]) <= n
    decreases args, 0
  {
    if |args| == 0 then 0
    else
      assert forall i :: 1 <= i < |args| ==> args[i] == args[1..][i - 1];
      Size(args[0]) + SizeAll(args[1..])
  }

  /** Every operator node has exactly its table arity of children. */
  predicate WellFormed(e: Expr) {
    match e
    case Var(_) => true
    case Node(op, args) =>
      |args| == Arity(op) && forall i :: 0 <= i < |args| ==> WellFormed(args[i])
  }

  /** Every operator node has at least one child, as a source list of length two or more does. */
  predicate HasOperands(e: Expr) {
    match e
    case Var(_) => true
    case Node(_, args) =>
      |args| >= 1 && forall i :: 0 <= i < |args| ==> HasOperands(args[i])
  }

  /** The variable names at the leaves. */
  function LeafNames(e: Expr): set<string>
    decreases e, 1
  {
    match e
    case Var(name) => {name}
    case Node(_, args) => LeafNamesAll(args)
  }

  function LeafNamesAll(args: seq<Expr>): (names: set<string>)
    ensures forall i :: 0 <= i < |args| ==> LeafNames(args[i]) <= names
    decreases args, 0
  {
    if |args| == 0 then {}
    else
      assert forall i :: 1 <= i < |args| ==> args[i] == args[1..][i - 1];
      LeafNames(args[0]) + LeafNamesAll(args[1..])
  }

  /** Each element of a sequence of names, as a set. */
  function NameSet(names: seq<string>): set<string> {
    set n | n in names
  }

  /** A well-formed tree has operands at every operator node. */
  lemma {:induction false} WellFormedHasOperands(e: Expr)
    requires WellFormed(e)
    ensures HasOperands(e)
  {
    match e
    case Var(_) =>
    case Node(op, args) =>
      forall i | 0 <= i < |args| ensures HasOperands(args[i]) {
        WellFormedHasOperands(args[i]);
      }
  }

  /** An operator node with operands is at least two levels deep. */
  lemma NodeDepth(e: Expr)
    requires e.Node? && |e.args| >= 1
    ensures Depth(e) >= 2
  {
    assert Depth(e.args[0]) >= 1;
  }

  /** The leaf names of a sequence of children are those of its elements. */
  lemma {:induction false} LeafNamesAllMembers(args: seq<Expr>, n: string)
    ensures n in LeafNamesAll(args) <==> exists i :: 0 <= i < |args| && n in LeafNames(args[i])
  {
    if |args| > 0 {
      LeafNamesAllMembers(args[1..], n);
      if n in LeafNamesAll(args[1..]) {
        var i :| 0 <= i < |args[1..]| && n in LeafNames(args[1..][i]);
        assert args[1..][i] == args[i + 1];
      }
    }
  }
}
