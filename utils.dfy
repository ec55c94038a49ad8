/**
 * The infix renderer and the parenthesis trimmer. A small parser for the
 * rendered language serves as the renderer's reference inverse.
 */
module Utils {
  import opened Wrappers
  import opened Operations
  import opened Expression

  /** The `ValueError("Invalid expression format")` of a node with neither one nor two operands. */
  datatype RenderError = InvalidFormat

  predicate IsDelimiter(c: char) {
    c == '(' || c == ')' || c == ' '
  }

  /** The operator's key in the operator table. */
  function OpSymbol(op: Op): (s: string)
    ensures |s| > 0
    ensures forall i :: 0 <= i < |s| ==> !IsDelimiter(s[i])
  {
    match op
    case Add => "+"
    case Sub => "-"
    case Mul => "*"
    case Div => "/"
    case Exp => "exp"
  }

  /** The table lookup from a key back to its operator. */
  function SymbolOp(w: string): (r: Option<Op>)
    ensures forall op :: r == Some(op) <==> w == OpSymbol(op)
  {
    if w == "+" then Some(Add)
    else if w == "-" then Some(Sub)
    else if w == "*" then Some(Mul)
    else if w == "/" then Some(Div)
    else if w == "exp" then Some(Exp)
    else None
  }

  /**
   * `expression_to_string(expression)`: a leaf is its name, a node with one
   * operand is `op(operand)`, a node with two is `(left op right)`, and any
   * other node is rejected.
   */
  function ExprToString(e: Expr): (r: Result<string, RenderError>)
    ensures e.Var? ==> r == Ok(e.name)
    ensures e.Node? && |e.args| != 1 && |e.args| != 2 ==> r == Err(InvalidFormat)
    decreases e
  {
    match e
    case Var(name) => Ok(name)
    case Node(op, args) =>
      if |args| == 1 then
        var operand :- ExprToString(args[0]);
        Ok(Prefix(OpSymbol(op), operand))
      else if |args| == 2 then
        var left :- ExprToString(args[0]);
        var right :- ExprToString(args[1]);
        Ok(Infix(left, OpSymbol(op), right))
      else Err(InvalidFormat)
  }

  /** `f"{operator}({operand})"`, with where each part lies. */
  function Prefix(sym: string, a: string): (t: string)
    ensures |t| == |sym| + |a| + 2
    ensures t[|sym|] == '(' && t[|t| - 1] == ')'
  {
    sym + "(" + a + ")"
  }

  /** The symbol and the operand lie in a prefix rendering as written. */
  lemma PrefixParts(sym: string, a: string)
    ensures forall k :: 0 <= k < |sym| ==> Prefix(sym, a)[k] == sym[k]
    ensures forall k :: 0 <= k < |a| ==> Prefix(sym, a)[|sym| + 1 + k] == a[k]
  {
  }

  /** `f"({left} {operator} {right})"`, with where each part lies. */
  function Infix(l: string, sym: string, r: string): (t: string)
    ensures |t| == |l| + |sym| + |r| + 4
    ensures t[0] == '(' && t[1 + |l|] == ' ' && t[2 + |l| + |sym|] == ' ' && t[|t| - 1] == ')'
  {
    "(" + l + " " + sym + " " + r + ")"
  }

  /** The operands and the symbol lie in an infix rendering as written. */
  lemma InfixParts(l: string, sym: string, r: string)
    ensures forall k :: 0 <= k < |l| ==> Infix(l, sym, r)[1 + k] == l[k]
    ensures forall k :: 0 <= k < |sym| ==> Infix(l, sym, r)[2 + |l| + k] == sym[k]
    ensures forall k :: 0 <= k < |r| ==> Infix(l, sym, r)[3 + |l| + |sym| + k] == r[k]
  {
  }

  /** Every operator node has one or two operands. */
  predicate Renderable(e: Expr) {
    match e
    case Var(_) => true
    case Node(_, args) => 1 <= |args| <= 2 && forall i :: 0 <= i < |args| ==> Renderable(args[i])
  }

  /** Rendering succeeds exactly on trees whose every node has one or two operands. */
  lemma {:induction false} RenderOkIff(e: Expr)
    ensures ExprToString(e).Ok? <==> Renderable(e)
    decreases e
  {
    match e
    case Var(_) =>
    case Node(op, args) =>
      if |args| == 1 {
        RenderOkIff(args[0]);
      } else if |args| == 2 {
        RenderOkIff(args[0]);
        RenderOkIff(args[1]);
      }
  }

  /** A well-formed tree always renders. */
  lemma {:induction false} WellFormedRenders(e: Expr)
    requires WellFormed(e)
    ensures ExprToString(e).Ok?
  {
    WellFormedRenderable(e);
    RenderOkIff(e);
  }

  lemma {:induction false} WellFormedRenderable(e: Expr)
    requires WellFormed(e)
    ensures Renderable(e)
    decreases e
  {
    match e
    case Var(_) =>
    case Node(op, args) =>
      forall i | 0 <= i < |args| ensures Renderable(args[i]) {
        WellFormedRenderable(args[i]);
      }
  }

  /** The two shapes a crossover can leave behind still render, though neither evaluates. */
  lemma IllFormedRenderings()
    ensures ExprToString(Node(Exp, [Node(Add, [Var("x"), Var("x")]), Var("x")])) == Ok("((x + x) exp x)")
    ensures ExprToString(Node(Add, [Var("x")])) == Ok("+(x)")
  {
    var x := Var("x");
    assert ExprToString(Node(Add, [x, x])) == Ok("(" + "x" + " " + "+" + " " + "x" + ")");
    assert "(" + "x" + " " + "+" + " " + "x" + ")" == "(x + x)";
    assert ExprToString(Node(Exp, [Node(Add, [x, x]), x])) == Ok("(" + "(x + x)" + " " + "exp" + " " + "x" + ")");
    assert "(" + "(x + x)" + " " + "exp" + " " + "x" + ")" == "((x + x) exp x)";
    assert ExprToString(Node(Add, [x])) == Ok("+" + "(" + "x" + ")");
    assert "+" + "(" + "x" + ")" == "+(x)";
  }

  // ---------------------------------------------------------------------------
  // The rendered language read back
  // ---------------------------------------------------------------------------

  /** A leaf name that the rendered text keeps apart from its surroundings. */
  predicate ValidName(name: string) {
    |name| > 0 && forall i :: 0 <= i < |name| ==> !IsDelimiter(name[i])
  }

  predicate NamesValid(e: Expr) {
    match e
    case Var(name) => ValidName(name)
    case Node(_, args) => forall i :: 0 <= i < |args| ==> NamesValid(args[i])
  }

  /** The end of the longest run of non-delimiters starting at `i`. */
  function WordEnd(s: string, i: nat): (j: nat)
    requires i <= |s|
    ensures i <= j <= |s|
    ensures j < |s| ==> IsDelimiter(s[j])
    decreases |s| - i
  {
    if i == |s| || IsDelimiter(s[i]) then i else WordEnd(s, i + 1)
  }

  /** A run of non-delimiters ending at the text's end or at a delimiter is read whole. */
  lemma {:induction false} WordEndAt(s: string, i: nat, j: nat)
    requires i <= j <= |s|
    requires forall k :: i <= k < j ==> !IsDelimiter(s[k])
    requires j == |s| || IsDelimiter(s[j])
    ensures WordEnd(s, i) == j
    decreases j - i
  {
    if i < j {
      WordEndAt(s, i + 1, j);
    }
  }

  /**
   * Reads one rendered expression starting at `i`, returning it with the
   * index just past it: `(` opens an infix node, anything else is a word
   * naming a leaf or, when `(` follows it, a prefix operator.
   */
  function ParseAt(s: string, i: nat): (r: Option<(Expr, nat)>)
    ensures r.Some? ==> i < r.value.1 <= |s|
    decreases |s| - i, 1
  {
    if i >= |s| then None
    else if s[i] == '(' then ParseInfix(s, i + 1)
    else ParsePrefix(s, i)
  }

  /** After `(`: the left operand, then the operator and the rest of the node. */
  function ParseInfix(s: string, i: nat): (r: Option<(Expr, nat)>)
    ensures r.Some? ==> i < r.value.1 <= |s|
    decreases |s| - i, 2
  {
    match ParseAt(s, i)
    case None => None
    case Some((left, j)) => ParseOperator(s, left, j)
  }

  /** After the left operand: ` op `, the right operand and `)`. */
  function ParseOperator(s: string, left: Expr, j: nat): (r: Option<(Expr, nat)>)
    requires j <= |s|
    ensures r.Some? ==> j < r.value.1 <= |s|
    decreases |s| - j, 0
  {
    if j >= |s| || s[j] != ' ' then None
    else
      var k := WordEnd(s, j + 1);
      match SymbolOp(s[j + 1..k])
      case None => None
      case Some(op) =>
        if k >= |s| || s[k] != ' ' then None
        else
          match ParseAt(s, k + 1)
          case None => None
          case Some((right, m)) =>
            if m >= |s| || s[m] != ')' then None
            else Some((Node(op, [left, right]), m + 1))
  }

  /** A word at `i`: a prefix operator when `(` follows it, a leaf name otherwise. */
  function ParsePrefix(s: string, i: nat): (r: Option<(Expr, nat)>)
    requires i < |s|
    ensures r.Some? ==> i < r.value.1 <= |s|
    decreases |s| - i, 0
  {
    var k := WordEnd(s, i);
    if k == i then None
    else if k < |s| && s[k] == '(' then
      match SymbolOp(s[i..k])
      case None => None
      case Some(op) =>
        match ParseAt(s, k + 1)
        case None => None
        case Some((operand, m)) =>
          if m >= |s| || s[m] != ')' then None
          else Some((Node(op, [operand]), m + 1))
    else Some((Var(s[i..k]), k))
  }

  /** The whole text is one rendered expression. */
  function Parse(s: string): (r: Option<Expr>)
    ensures r.Some? ==> ReadsAt(s, 0, r.value, |s|)
  {
    match ParseAt(s, 0)
    case Some((e, j)) => if j == |s| then Some(e) else None
    case None => None
  }

  /** Reading at `i` gives `e` and stops at `j`. */
  predicate ReadsAt(s: string, i: nat, e: Expr, j: nat) {
    ParseAt(s, i).Some? && ParseAt(s, i).value.0 == e && ParseAt(s, i).value.1 == j
  }

  /** `t` occurs in `s` at index `i`. */
  predicate Occurs(s: string, i: nat, t: string) {
    i + |t| <= |s| && forall k :: 0 <= k < |t| ==> s[i + k] == t[k]
  }

  /** An occurring word free of delimiters, followed by a delimiter or the end, is what `WordEnd` reads. */
  lemma OccursWord(s: string, i: nat, w: string)
    requires Occurs(s, i, w)
    requires forall k :: 0 <= k < |w| ==> !IsDelimiter(w[k])
    requires i + |w| == |s| || IsDelimiter(s[i + |w|])
    ensures WordEnd(s, i) == i + |w|
    ensures s[i..i + |w|] == w
  {
    forall k | i <= k < i + |w| ensures !IsDelimiter(s[k]) {
      assert s[i + (k - i)] == w[k - i];
    }
    WordEndAt(s, i, i + |w|);
  }

  /** One step of `ParseOperator` on the characters it inspects. */
  lemma ParseOperatorUnfold(s: string, left: Expr, j: nat, k: nat, op: Op, right: Expr, r: nat, m: nat)
    requires j < |s| && s[j] == ' '
    requires WordEnd(s, j + 1) == k && SymbolOp(s[j + 1..k]) == Some(op)
    requires k < |s| && s[k] == ' '
    requires r == k + 1 && ReadsAt(s, r, right, m)
    requires m < |s| && s[m] == ')'
    ensures ParseOperator(s, left, j) == Some((Node(op, [left, right]), m + 1))
  {
  }

  /** One step of `ParseAt` on an opening parenthesis. */
  lemma ParseInfixUnfold(s: string, i: nat, left: Expr, j: nat)
    requires i < |s| && s[i] == '('
    requires ReadsAt(s, i + 1, left, j)
    ensures ParseAt(s, i) == ParseOperator(s, left, j)
  {
  }

  /** One step of `ParseAt` on a word followed by `(`. */
  lemma ParsePrefixUnfold(s: string, i: nat, k: nat, op: Op, operand: Expr, j: nat, m: nat)
    requires i < |s| && s[i] != '('
    requires WordEnd(s, i) == k && k > i && k < |s| && s[k] == '('
    requires SymbolOp(s[i..k]) == Some(op)
    requires j == k + 1 && ReadsAt(s, j, operand, m)
    requires m < |s| && s[m] == ')'
    ensures ReadsAt(s, i, Node(op, [operand]), m + 1)
  {
  }

  /** One step of `ParseAt` on a word not followed by `(`. */
  lemma ParseVarUnfold(s: string, i: nat, k: nat)
    requires i < |s| && s[i] != '('
    requires WordEnd(s, i) == k && k > i
    requires k == |s| || s[k] != '('
    ensures ReadsAt(s, i, Var(s[i..k]), k)
  {
  }

  /** Reading a leaf name stops at the delimiter after it. */
  lemma ParseVarStep(s: string, i: nat, name: string)
    requires ValidName(name) && Occurs(s, i, name)
    requires i + |name| == |s| || s[i + |name|] == ' ' || s[i + |name|] == ')'
    ensures ReadsAt(s, i, Var(name), i + |name|)
  {
    OccursWord(s, i, name);
    assert s[i + 0] == name[0];
    ParseVarUnfold(s, i, i + |name|);
  }

  /** Where the parts of an occurring prefix rendering lie in the text. */
  lemma PrefixLayout(s: string, i: nat, sym: string, ta: string, j: nat)
    requires Occurs(s, i, Prefix(sym, ta)) && |sym| > 0 && j == i + |sym| + 1
    ensures j + |ta| + 1 <= |s|
    ensures Occurs(s, i, sym) && s[i] == sym[0]
    ensures s[i + |sym|] == '('
    ensures Occurs(s, j, ta)
    ensures s[j + |ta|] == ')'
  {
    var t := Prefix(sym, ta);
    PrefixParts(sym, ta);
    assert s[i + 0] == t[0];
    assert s[i + |sym|] == t[|sym|];
    assert s[i + (|t| - 1)] == t[|t| - 1];
    assert j + |ta| == i + (|t| - 1);
    forall k | 0 <= k < |ta| ensures s[j + k] == ta[k] {
      assert s[i + (|sym| + 1 + k)] == t[|sym| + 1 + k];
    }
  }

  /** The parts of `({tl} {sym} {tr})` lie in `s` from position `i` on. */
  predicate InfixAt(s: string, i: nat, tl: string, sym: string, tr: string) {
    && i + |tl| + |sym| + |tr| + 4 <= |s|
    && s[i] == '('
    && Occurs(s, i + 1, tl)
    && s[i + 1 + |tl|] == ' '
    && Occurs(s, i + 2 + |tl|, sym)
    && s[i + 2 + |tl| + |sym|] == ' '
    && Occurs(s, i + 3 + |tl| + |sym|, tr)
    && s[i + 3 + |tl| + |sym| + |tr|] == ')'
  }

  /** Where the parts of an occurring infix rendering lie in the text. */
  lemma InfixLayout(s: string, i: nat, tl: string, sym: string, tr: string)
    requires Occurs(s, i, Infix(tl, sym, tr))
    ensures InfixAt(s, i, tl, sym, tr)
  {
    var t := Infix(tl, sym, tr);
    InfixParts(tl, sym, tr);
    assert s[i + 0] == t[0];
    assert s[i + (1 + |tl|)] == t[1 + |tl|];
    assert s[i + (2 + |tl| + |sym|)] == t[2 + |tl| + |sym|];
    assert s[i + (|t| - 1)] == t[|t| - 1];
    forall k | 0 <= k < |tl| ensures s[i + 1 + k] == tl[k] {
      assert s[i + (1 + k)] == t[1 + k];
    }
    forall k | 0 <= k < |sym| ensures s[i + 2 + |tl| + k] == sym[k] {
      assert s[i + (2 + |tl| + k)] == t[2 + |tl| + k];
    }
    forall k | 0 <= k < |tr| ensures s[i + 3 + |tl| + |sym| + k] == tr[k] {
      assert s[i + (3 + |tl| + |sym| + k)] == t[3 + |tl| + |sym| + k];
    }
  }

  /** Reading `op(` followed by an operand, which starts at `j`, and `)`. */
  lemma ParseUnaryStep(s: string, i: nat, op: Op, a: Expr, ta: string, j: nat)
    requires Occurs(s, i, Prefix(OpSymbol(op), ta))
    requires j == i + |OpSymbol(op)| + 1
    requires ReadsAt(s, j, a, j + |ta|)
    ensures ReadsAt(s, i, Node(op, [a]), j + |ta| + 1)
  {
    var sym := OpSymbol(op);
    PrefixLayout(s, i, sym, ta, j);
    OccursWord(s, i, sym);
    assert SymbolOp(sym) == Some(op);
    ParsePrefixUnfold(s, i, i + |sym|, op, a, j, j + |ta|);
  }

  /** Reading `(`, a left operand, ` op `, a right operand and `)`, where `InfixAt` places them. */
  lemma ParseBinaryStep(s: string, i: nat, op: Op, a: Expr, b: Expr, tl: string, tr: string, r: nat)
    requires InfixAt(s, i, tl, OpSymbol(op), tr)
    requires ReadsAt(s, i + 1, a, i + 1 + |tl|)
    requires r == i + 3 + |tl| + |OpSymbol(op)| && ReadsAt(s, r, b, r + |tr|)
    ensures ReadsAt(s, i, Node(op, [a, b]), r + |tr| + 1)
  {
    var sym := OpSymbol(op);
    var j := i + 1 + |tl|;
    var k := i + 2 + |tl| + |sym|;
    OccursWord(s, i + 2 + |tl|, sym);
    assert SymbolOp(sym) == Some(op);
    assert s[r + |tr|] == ')';
    ParseOperatorUnfold(s, a, j, k, op, b, r, r + |tr|);
    ParseInfixUnfold(s, i, a, j);
  }

  /**
   * Reading a rendering that occurs at `i`, followed by text that cannot
   * extend a leaf name, gives the tree back and stops just past it.
   */
  lemma {:induction false} ParseRendered(e: Expr, t: string, s: string, i: nat)
    requires NamesValid(e) && ExprToString(e) == Ok(t) && Occurs(s, i, t)
    requires e.Var? ==> i + |t| == |s| || s[i + |t|] == ' ' || s[i + |t|] == ')'
    ensures ReadsAt(s, i, e, i + |t|)
    decreases e, 2
  {
    if e.Var? {
      ParseVarStep(s, i, e.name);
    } else if |e.args| == 1 {
      RenderedUnary(e);
      ParseRenderedUnary(e, e.op, e.args[0], ExprToString(e.args[0]).value, t, s, i);
    } else {
      assert |e.args| == 2;
      RenderedBinary(e);
      var tl, tr := ExprToString(e.args[0]).value, ExprToString(e.args[1]).value;
      InfixLayout(s, i, tl, OpSymbol(e.op), tr);
      ParseRenderedBinary(e, e.op, e.args[0], e.args[1], tl, tr, s, i);
      assert i + |tl| + |OpSymbol(e.op)| + |tr| + 4 == i + |t|;
    }
  }

  /**
   * A one-operand node renders as `op(operand)`, and exactly when its
   * operand renders.
   */
  lemma RenderedUnary(e: Expr)
    requires e.Node? && |e.args| == 1
    ensures e == Node(e.op, [e.args[0]])
    ensures ExprToString(e).Ok? <==> ExprToString(e.args[0]).Ok?
    ensures ExprToString(e).Ok? ==> ExprToString(e).value == Prefix(OpSymbol(e.op), ExprToString(e.args[0]).value)
  {
    assert e.args == [e.args[0]];
  }

  /**
   * A two-operand node renders as `(left op right)`, and exactly when both
   * operands render.
   */
  lemma RenderedBinary(e: Expr)
    requires e.Node? && |e.args| == 2
    ensures e == Node(e.op, [e.args[0], e.args[1]])
    ensures ExprToString(e).Ok? <==> ExprToString(e.args[0]).Ok? && ExprToString(e.args[1]).Ok?
    ensures ExprToString(e).Ok? ==>
              ExprToString(e).value == Infix(ExprToString(e.args[0]).value, OpSymbol(e.op), ExprToString(e.args[1]).value)
  {
    assert e.args == [e.args[0], e.args[1]];
  }

  lemma {:induction false} ParseRenderedUnary(e: Expr, op: Op, a: Expr, ta: string, t: string, s: string, i: nat)
    requires e == Node(op, [a]) && NamesValid(a) && ExprToString(a) == Ok(ta)
    requires t == Prefix(OpSymbol(op), ta) && Occurs(s, i, t)
    ensures ReadsAt(s, i, e, i + |t|)
    decreases e, 0
  {
    var sym := OpSymbol(op);
    var j := i + |sym| + 1;
    PrefixLayout(s, i, sym, ta, j);
    assert a == e.args[0];
    ParseRendered(a, ta, s, j);
    ParseUnaryStep(s, i, op, a, ta, j);
    assert j + |ta| + 1 == i + |t|;
  }

  lemma {:induction false} ParseRenderedBinary(e: Expr, op: Op, a: Expr, b: Expr, tl: string, tr: string, s: string, i: nat)
    requires e == Node(op, [a, b]) && NamesValid(a) && NamesValid(b)
    requires ExprToString(a) == Ok(tl) && ExprToString(b) == Ok(tr)
    requires InfixAt(s, i, tl, OpSymbol(op), tr)
    ensures ReadsAt(s, i, e, i + |tl| + |OpSymbol(op)| + |tr| + 4)
    decreases e, 1
  {
    var r := i + 3 + |tl| + |OpSymbol(op)|;
    ParseLeftOperand(e, a, tl, OpSymbol(op), tr, s, i);
    ParseRightOperand(e, b, tl, OpSymbol(op), tr, s, i, r);
    ParseBinaryStep(s, i, op, a, b, tl, tr, r);
  }

  /** The left operand of a rendered two-operand node reads back where `InfixAt` places it. */
  lemma {:induction false} ParseLeftOperand(e: Expr, a: Expr, tl: string, sym: string, tr: string, s: string, i: nat)
    requires e.Node? && |e.args| == 2 && e.args[0] == a && NamesValid(a) && ExprToString(a) == Ok(tl)
    requires InfixAt(s, i, tl, sym, tr)
    ensures ReadsAt(s, i + 1, a, i + 1 + |tl|)
    decreases e, 0
  {
    ParseRendered(a, tl, s, i + 1);
  }

  /** The right operand of a rendered two-operand node reads back where `InfixAt` places it. */
  lemma {:induction false} ParseRightOperand(e: Expr, b: Expr, tl: string, sym: string, tr: string, s: string, i: nat, r: nat)
    requires e.Node? && |e.args| == 2 && e.args[1] == b && NamesValid(b) && ExprToString(b) == Ok(tr)
    requires InfixAt(s, i, tl, sym, tr) && r == i + 3 + |tl| + |sym|
    ensures ReadsAt(s, r, b, r + |tr|)
    decreases e, 0
  {
    ParseRendered(b, tr, s, r);
  }

  /** Rendering is injective on trees with delimiter-free names: the text determines the tree. */
  lemma ParseRender(e: Expr)
    requires NamesValid(e) && ExprToString(e).Ok?
    ensures Parse(ExprToString(e).value) == Some(e)
  {
    var t := ExprToString(e).value;
    assert Occurs(t, 0, t);
    ParseRendered(e, t, t, 0);
  }

  // ---------------------------------------------------------------------------
  // Trimming
  // ---------------------------------------------------------------------------

  /** `s.find(c)`: the first index holding `c`, or -1. */
  function Find(s: string, c: char): (i: int)
    ensures -1 <= i < |s|
    ensures i == -1 <==> c !in s
    ensures i >= 0 ==> s[i] == c && c !in s[..i]
    decreases |s|
  {
    if |s| == 0 then -1
    else if s[0] == c then 0
    else
      var k := Find(s[1..], c);
      if k == -1 then -1
      else
        assert s[..k + 1] == [s[0]] + s[1..][..k];
        k + 1
  }

  /** `s.rfind(c)`: the last index holding `c`, or -1. */
  function RFind(s: string, c: char): (i: int)
    ensures -1 <= i < |s|
    ensures i == -1 <==> c !in s
    ensures i >= 0 ==> s[i] == c && c !in s[i + 1..]
    decreases |s|
  {
    if |s| == 0 then -1
    else if s[|s| - 1] == c then |s| - 1
    else
      var k := RFind(s[..|s| - 1], c);
      RFindDropLast(s, c, k);
      k
  }

  /** A search that misses the last character finds what the search of the rest finds. */
  lemma RFindDropLast(s: string, c: char, k: int)
    requires |s| > 0 && s[|s| - 1] != c
    requires -1 <= k < |s| - 1
    requires k == -1 <==> c !in s[..|s| - 1]
    requires k >= 0 ==> s[..|s| - 1][k] == c && c !in s[..|s| - 1][k + 1..]
    ensures k == -1 <==> c !in s
    ensures k >= 0 ==> s[k] == c && c !in s[k + 1..]
  {
    NotInDropLast(s, c);
    if k >= 0 {
      assert s[k] == s[..|s| - 1][k];
      NotInTailDropLast(s, c, k + 1);
    }
  }

  /** Dropping a last character other than `c` does not change whether `c` occurs. */
  lemma NotInDropLast(s: string, c: char)
    requires |s| > 0 && s[|s| - 1] != c
    ensures c in s <==> c in s[..|s| - 1]
  {
    if c in s {
      var i :| 0 <= i < |s| && s[i] == c;
      assert s[..|s| - 1][i] == c;
    }
    if c in s[..|s| - 1] {
      var i :| 0 <= i < |s| - 1 && s[..|s| - 1][i] == c;
      assert s[i] == c;
    }
  }

  /** The same for the suffix from `j`. */
  lemma NotInTailDropLast(s: string, c: char, j: nat)
    requires j < |s| && s[|s| - 1] != c
    requires c !in s[..|s| - 1][j..]
    ensures c !in s[j..]
  {
    forall i | j <= i < |s| - 1 ensures s[i] != c {
      assert s[i] == s[..|s| - 1][j..][i - j];
    }
  }

  /**
   * `trim_to_parentheses(s)`: the text from the first `(` to the last `)`
   * when both occur (empty when the last `)` comes first), else `s` itself.
   */
  function TrimToParentheses(s: string): (r: string)
    ensures '(' !in s || ')' !in s ==> r == s
    ensures '(' in s && ')' in s && Find(s, '(') < RFind(s, ')') ==>
              r == s[Find(s, '(')..RFind(s, ')') + 1] && |r| >= 2 && r[0] == '(' && r[|r| - 1] == ')'
    ensures '(' in s && ')' in s && RFind(s, ')') < Find(s, '(') ==> r == ""
  {
    var first := Find(s, '(');
    var last := RFind(s, ')');
    if first != -1 && last != -1 then
      if first <= last then s[first..last + 1] else ""
    else s
  }

  /** Trimming twice is trimming once. */
  lemma TrimIdempotent(s: string)
    ensures TrimToParentheses(TrimToParentheses(s)) == TrimToParentheses(s)
  {
    var r := TrimToParentheses(s);
    if '(' in s && ')' in s && Find(s, '(') < RFind(s, ')') {
      assert Find(r, '(') == 0;
      assert RFind(r, ')') == |r| - 1;
      assert r[0..|r|] == r;
    }
  }

  /** The rendering of a binary root is already trimmed. */
  lemma TrimBinaryRendering(op: Op, a: Expr, b: Expr)
    requires ExprToString(Node(op, [a, b])).Ok?
    ensures var t := ExprToString(Node(op, [a, b])).value;
            TrimToParentheses(t) == t
  {
    var t := ExprToString(Node(op, [a, b])).value;
    assert t[0] == '(' && t[|t| - 1] == ')';
    assert Find(t, '(') == 0;
    assert RFind(t, ')') == |t| - 1;
    assert t[0..|t|] == t;
  }

  /** The first index holding `c` is the one `find` reports. */
  lemma FindAt(s: string, c: char, k: nat)
    requires k < |s| && s[k] == c
    requires forall j :: 0 <= j < k ==> s[j] != c
    ensures Find(s, c) == k
  {
    var f := Find(s, c);
    assert s[k] in s;
  }

  /** Trimming the rendering of a unary root drops the operator name and keeps the parenthesised operand. */
  lemma TrimUnaryRendering(op: Op, a: Expr)
    requires ExprToString(a).Ok?
    ensures TrimToParentheses(ExprToString(Node(op, [a])).value) == "(" + ExprToString(a).value + ")"
  {
    var sym := OpSymbol(op);
    var ta := ExprToString(a).value;
    var t := Prefix(sym, ta);
    assert ExprToString(Node(op, [a])).value == t;
    forall j | 0 <= j < |sym| ensures t[j] != '(' {
      assert t[j] == sym[j];
    }
    FindAt(t, '(', |sym|);
    assert RFind(t, ')') == |t| - 1;
    PrefixTail(sym, ta);
  }

  lemma PrefixTail(sym: string, ta: string)
    ensures Prefix(sym, ta)[|sym|..] == "(" + ta + ")"
  {
    var inner := "(" + ta + ")";
    assert Prefix(sym, ta) == sym + inner;
    assert (sym + inner)[|sym|..] == inner;
  }
}
