/**
 * The operator table and its clamped arithmetic primitives, over the reals.
 *
 * Each binary primitive computes its raw result and clamps it into
 * [-MAX, MAX]; division by zero gives 0; `exp` caps its argument at 709 and
 * its result at MAX; the squaring primitive used by the fitness evaluator
 * saturates at MAX. `math.exp` and `np.sqrt` are not defined here: they are
 * carried in a `MathLib` value, and every property holds for any choice of them.
 */
module Operations {
  import opened Oracle

  /** The operator symbols of the table, in the table's insertion order. */
  datatype Op = Add | Sub | Mul | Div | Exp

  /** The table's key order: `+`, `-`, `*`, `/`, `exp`. */
  const OpOrder: seq<Op> := [Add, Sub, Mul, Div, Exp]

  /** `sys.float_info.max`, the largest finite double, (2 - 2^-52) * 2^1023. */
  const MAX: real := 179769313486231570814527423731704356798070567525844996598917476803157260780028538760589558632766878171540458953514382464234321326889464182768467546703537516986049910576551282076245490090389328944075868508455133942304583236903222948165808559332123348274797826204144723168738177180919299881250404026184124858368.0

  /** The largest argument `safe_exp` passes to the exponential. */
  const EXP_CAP: real := 709.0

  /** The two library functions the primitives and the fitness use, left abstract. */
  datatype MathLib = MathLib(exp: real -> real, sqrt: real -> real)

  predicate IsBinary(op: Op) {
    op != Exp
  }

  /** The table's `arity` entry. */
  function Arity(op: Op): (n: nat)
    ensures 1 <= n <= 2
    ensures n == 2 <==> IsBinary(op)
  {
    if op == Exp then 1 else 2
  }

  /** The table's `weight` entry. */
  function Weight(op: Op): (w: real)
    ensures w > 0.0
    ensures w == 1.0 <==> IsBinary(op)
  {
    if op == Exp then 0.5 else 1.0
  }

  /** The four binary operators have arity 2 and weight 1; `exp` has arity 1 and weight 0.5. */
  lemma OpTable()
    ensures forall op :: IsBinary(op) ==> Arity(op) == 2 && Weight(op) == 1.0
    ensures Arity(Exp) == 1 && Weight(Exp) == 0.5
    ensures forall op :: op in OpOrder
  {
    forall op ensures op in OpOrder {
      match op
      case Add => assert OpOrder[0] == op;
      case Sub => assert OpOrder[1] == op;
      case Mul => assert OpOrder[2] == op;
      case Div => assert OpOrder[3] == op;
      case Exp => assert OpOrder[4] == op;
    }
  }

  function Min(a: real, b: real): real {
    if a <= b then a else b
  }

  function Max(a: real, b: real): real {
    if a >= b then a else b
  }

  /** `min(max(v, -MAX), MAX)`. */
  function Clamp(v: real): (r: real)
    ensures -MAX <= r <= MAX
    ensures -MAX <= v <= MAX ==> r == v
    ensures v > MAX ==> r == MAX
    ensures v < -MAX ==> r == -MAX
  {
    Min(Max(v, -MAX), MAX)
  }

  /** Clamping a value already in range changes nothing, so clamping twice is clamping once. */
  lemma ClampIdempotent(v: real)
    ensures Clamp(Clamp(v)) == Clamp(v)
  {
  }

  function SafeAdd(x: real, y: real): (r: real)
    ensures -MAX <= r <= MAX
    ensures -MAX <= x + y <= MAX ==> r == x + y
    ensures x + y > MAX ==> r == MAX
    ensures x + y < -MAX ==> r == -MAX
  {
    Clamp(x + y)
  }

  function SafeSub(x: real, y: real): (r: real)
    ensures -MAX <= r <= MAX
    ensures -MAX <= x - y <= MAX ==> r == x - y
    ensures x - y > MAX ==> r == MAX
    ensures x - y < -MAX ==> r == -MAX
  {
    Clamp(x - y)
  }

  function SafeMul(x: real, y: real): (r: real)
    ensures -MAX <= r <= MAX
    ensures -MAX <= x * y <= MAX ==> r == x * y
    ensures x * y > MAX ==> r == MAX
    ensures x * y < -MAX ==> r == -MAX
  {
    Clamp(x * y)
  }

  function SafeDiv(x: real, y: real): (r: real)
    ensures y == 0.0 ==> r == 0.0
    ensures -MAX <= r <= MAX
    ensures y != 0.0 && -MAX <= x / y <= MAX ==> r == x / y
    ensures y != 0.0 && x / y > MAX ==> r == MAX
    ensures y != 0.0 && x / y < -MAX ==> r == -MAX
  {
    if y == 0.0 then 0.0 else Clamp(x / y)
  }

  /** `min(exp(min(x, 709)), MAX)` for the given exponential. */
  function SafeExp(exp: real -> real, x: real): (r: real)
    ensures r <= MAX
    ensures r == MAX || r == exp(Min(x, EXP_CAP))
    ensures exp(Min(x, EXP_CAP)) <= MAX ==> r == exp(Min(x, EXP_CAP))
  {
    Min(exp(Min(x, EXP_CAP)), MAX)
  }

  /** Every argument at or above the cap gives the same result as the cap itself. */
  lemma SafeExpCapsArgument(exp: real -> real, x: real)
    requires x >= EXP_CAP
    ensures SafeExp(exp, x) == SafeExp(exp, EXP_CAP)
  {
  }

  /** `x ** 2`. */
  function Square(x: real): real {
    x * x
  }

  lemma MulPositive(a: real, b: real)
    requires a > 0.0 && b > 0.0
    ensures a * b > 0.0
  {
  }

  /** A square is positive except at zero. */
  lemma SquareSign(x: real)
    ensures x != 0.0 ==> Square(x) > 0.0
    ensures x == 0.0 ==> Square(x) == 0.0
  {
    if x > 0.0 {
      calc { Square(x); == x * x; > { MulPositive(x, x); } 0.0; }
    } else if x < 0.0 {
      calc { Square(x); == x * x; == (-x) * (-x); > { MulPositive(-x, -x); } 0.0; }
    }
  }

  /**
   * `safe_sqr`: MAX when |x| exceeds sqrt(MAX), otherwise x squared. Over the
   * reals, |x| > sqrt(MAX) holds exactly when x * x > MAX.
   */
  function SafeSqr(x: real): (r: real)
    ensures 0.0 <= r <= MAX
    ensures Square(x) <= MAX ==> r == Square(x)
    ensures Square(x) > MAX ==> r == MAX
    ensures r == 0.0 <==> x == 0.0
  {
    SquareSign(x);
    if Square(x) > MAX then MAX else Square(x)
  }

  /** The table's `func` entry applied to already evaluated operands. */
  function Apply(op: Op, operands: seq<real>, m: MathLib): (r: real)
    requires |operands| == Arity(op)
    ensures IsBinary(op) ==> -MAX <= r <= MAX
    ensures r <= MAX
    ensures op == Div && operands[1] == 0.0 ==> r == 0.0
  {
    match op
    case Add => SafeAdd(operands[0], operands[1])
    case Sub => SafeSub(operands[0], operands[1])
    case Mul => SafeMul(operands[0], operands[1])
    case Div => SafeDiv(operands[0], operands[1])
    case Exp => SafeExp(m.exp, operands[0])
  }

  /** The table's weights in key order, as `random.choices` receives them. */
  function Weights(): (ws: seq<real>)
    ensures |ws| == |OpOrder|
    ensures forall i :: 0 <= i < |ws| ==> ws[i] == Weight(OpOrder[i])
  {
    seq(|OpOrder|, i requires 0 <= i < |OpOrder| => Weight(OpOrder[i]))
  }

  /** `itertools.accumulate`: running sums. */
  function Accumulate(ws: seq<real>): (cs: seq<real>)
    ensures |cs| == |ws|
    ensures |ws| > 0 ==> cs[0] == ws[0]
    ensures forall i :: 0 < i < |cs| ==> cs[i] == cs[i - 1] + ws[i]
    decreases |ws|
  {
    if |ws| == 0 then []
    else
      var prefix := Accumulate(ws[..|ws| - 1]);
      prefix + [(if |prefix| == 0 then 0.0 else prefix[|prefix| - 1]) + ws[|ws| - 1]]
  }

  /**
   * `bisect.bisect_right(a, x, lo, hi)` on an ascending list: the first index
   * in [lo, hi) whose entry exceeds x, or hi when there is none.
   */
  function BisectRight(a: seq<real>, x: real, lo: nat, hi: nat): (i: nat)
    requires lo <= hi <= |a|
    ensures lo <= i <= hi
    ensures forall k :: lo <= k < i ==> a[k] <= x
    ensures i < hi ==> x < a[i]
    decreases hi - lo
  {
    if lo == hi || x < a[lo] then lo else BisectRight(a, x, lo + 1, hi)
  }

  /** The cumulative weights [1, 2, 3, 4, 4.5]. */
  function CumWeights(): seq<real> {
    Accumulate(Weights())
  }

  function TotalWeight(): real {
    CumWeights()[|OpOrder| - 1]
  }

  /**
   * `random.choices(keys, weights=..., k=1)[0]` for draw u: scale u by the
   * total weight and bisect the cumulative weights over the first n - 1 entries.
   */
  function ChooseOp(u: Unit): (r: Op)
    ensures WeightBefore(r) <= u * 4.5 < WeightBefore(r) + Weight(r)
  {
    CumWeightsValues();
    BisectCumWeights(CumWeights(), u * 4.5);
    OpOrder[BisectRight(CumWeights(), u * TotalWeight(), 0, |OpOrder| - 1)]
  }

  /** The total weight before `op` in key order. */
  function WeightBefore(op: Op): real {
    match op
    case Add => 0.0
    case Sub => 1.0
    case Mul => 2.0
    case Div => 3.0
    case Exp => 4.0
  }

  /**
   * A draw selects `op` exactly when the scaled draw falls in an interval whose
   * width is `op`'s weight: the weights are the selection masses.
   */
  lemma ChooseOpInterval(u: Unit, op: Op)
    ensures TotalWeight() == 4.5
    ensures ChooseOp(u) == op <==>
              WeightBefore(op) <= u * TotalWeight() < WeightBefore(op) + Weight(op)
  {
    ChooseOpByDraw(u);
  }

  /** The operator a draw selects, by the unit interval of the scaled draw it falls in. */
  lemma ChooseOpByDraw(u: Unit)
    ensures TotalWeight() == 4.5
    ensures ChooseOp(u) == if u * 4.5 < 1.0 then Add else if u * 4.5 < 2.0 then Sub
                           else if u * 4.5 < 3.0 then Mul else if u * 4.5 < 4.0 then Div else Exp
  {
    CumWeightsValues();
    BisectCumWeights(CumWeights(), u * 4.5);
  }

  /** The running sums of the weights are 1, 2, 3, 4 and 4.5. */
  lemma CumWeightsValues()
    ensures var cs := CumWeights();
            |cs| == 5 && cs[0] == 1.0 && cs[1] == 2.0 && cs[2] == 3.0 && cs[3] == 4.0 && cs[4] == 4.5
  {
    var ws, cs := Weights(), CumWeights();
    assert ws[0] == ws[1] == ws[2] == ws[3] == 1.0 && ws[4] == 0.5;
    assert cs[1] == cs[0] + ws[1] && cs[2] == cs[1] + ws[2] && cs[3] == cs[2] + ws[3] && cs[4] == cs[3] + ws[4];
  }

  /** Bisecting [1, 2, 3, 4, 4.5] over its first four entries. */
  lemma BisectCumWeights(a: seq<real>, x: real)
    requires |a| == 5 && a[0] == 1.0 && a[1] == 2.0 && a[2] == 3.0 && a[3] == 4.0
    ensures BisectRight(a, x, 0, 4) == if x < 1.0 then 0 else if x < 2.0 then 1 else if x < 3.0 then 2 else if x < 4.0 then 3 else 4
  {
    assert BisectRight(a, x, 3, 4) == if x < 4.0 then 3 else 4;
    assert BisectRight(a, x, 2, 4) == if x < 3.0 then 2 else BisectRight(a, x, 3, 4);
    assert BisectRight(a, x, 1, 4) == if x < 2.0 then 1 else BisectRight(a, x, 2, 4);
  }

  /** Every operator of the table is chosen by some draw. */
  lemma ChooseOpReaches(op: Op)
    ensures exists u: Unit :: ChooseOp(u) == op
  {
    var u: Unit := WeightBefore(op) / 4.5;
    ChooseOpInterval(u, op);
  }
}
