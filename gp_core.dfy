/**
 * The genetic operators of the engine: random construction, evaluation,
 * the deviation score, tournament selection, prefix crossover and
 * depth-bounded mutation. Every random choice is a draw of the oracle.
 */
module GpCore {
  import opened Wrappers
  import opened Oracle
  import opened Operations
  import opened Expression

  /** The exceptions the core raises: a node whose child count is not its arity, and `0 / 0` for an empty dataset. */
  datatype Error = ArityMismatch(op: Op, expected: nat, got: nat) | EmptyDataset

  // ---------------------------------------------------------------------------
  // Construction
  // ---------------------------------------------------------------------------

  /**
   * `create_expression(max_depth, ops, variables)`. With a budget of 1 the
   * result is a leaf; otherwise a first draw above 0.5 gives a leaf and any
   * other gives an operator chosen by weight, with one child per arity
   * built at budget `maxDepth - 1`.
   */
  function Create(maxDepth: nat, vars: seq<string>, rng: Rng, pos: nat): (r: Drawn<Expr>)
    requires maxDepth >= 1 && |vars| > 0
    ensures WellFormed(r.value)
    ensures Depth(r.value) <= maxDepth
    ensures LeafNames(r.value) <= NameSet(vars)
    ensures r.next > pos
    decreases maxDepth, 0
  {
    if maxDepth == 1 then
      Drawn(Var(vars[Pick(rng(pos), |vars|)]), pos + 1)
    else if rng(pos) > 0.5 then
      Drawn(Var(vars[Pick(rng(pos + 1), |vars|)]), pos + 2)
    else
      var op := ChooseOp(rng(pos + 1));
      var operands := CreateAll(Arity(op), maxDepth - 1, vars, rng, pos + 2);
      LeafNamesAllBound(operands.value, NameSet(vars));
      Drawn(Node(op, operands.value), operands.next)
  }

  /** `[create_expression(max_depth, ...) for _ in range(count)]`. */
  function CreateAll(count: nat, maxDepth: nat, vars: seq<string>, rng: Rng, pos: nat): (r: Drawn<seq<Expr>>)
    requires maxDepth >= 1 && |vars| > 0
    ensures |r.value| == count
    ensures forall i :: 0 <= i < count ==>
              WellFormed(r.value[i]) && Depth(r.value[i]) <= maxDepth && LeafNames(r.value[i]) <= NameSet(vars)
    ensures r.next >= pos
    decreases maxDepth, count
  {
    if count == 0 then Drawn([], pos)
    else
      var first := Create(maxDepth, vars, rng, pos);
      var rest := CreateAll(count - 1, maxDepth, vars, rng, first.next);
      Drawn([first.value] + rest.value, rest.next)
  }

  /** A bound on every child's leaf names bounds the node's. */
  lemma LeafNamesAllBound(args: seq<Expr>, names: set<string>)
    requires forall i :: 0 <= i < |args| ==> LeafNames(args[i]) <= names
    ensures LeafNamesAll(args) <= names
  {
    forall n | n in LeafNamesAll(args) ensures n in names {
      LeafNamesAllMembers(args, n);
    }
  }

  // ---------------------------------------------------------------------------
  // Evaluation
  // ---------------------------------------------------------------------------

  /**
   * `evaluate_expression(expression, input_variables)`: a leaf takes its
   * binding, or 0 when unbound; a node evaluates its children left to right,
   * fails when their number is not the operator's arity, and applies the
   * operator otherwise.
   */
  function Evaluate(e: Expr, env: map<string, real>, m: MathLib): (r: Result<real, Error>)
    ensures e.Var? && e.name !in env ==> r == Ok(0.0)
    ensures e.Var? && e.name in env ==> r == Ok(env[e.name])
    ensures r.Ok? && e.Node? ==> r.value <= MAX
    ensures r.Ok? && e.Node? && IsBinary(e.op) ==> -MAX <= r.value
    ensures r.Err? ==> r.error.ArityMismatch?
    decreases e, 1
  {
    match e
    case Var(name) => Ok(if name in env then env[name] else 0.0)
    case Node(op, args) =>
      var operands :- EvaluateAll(args, env, m);
      if |operands| != Arity(op) then Err(ArityMismatch(op, Arity(op), |operands|))
      else Ok(Apply(op, operands, m))
  }

  /** `[evaluate_expression(arg, ...) for arg in args]`; the first failing child's error propagates. */
  function EvaluateAll(args: seq<Expr>, env: map<string, real>, m: MathLib): (r: Result<seq<real>, Error>)
    ensures r.Ok? ==> |r.value| == |args|
    ensures r.Err? ==> r.error.ArityMismatch?
    decreases args, 0
  {
    if |args| == 0 then Ok([])
    else
      var first :- Evaluate(args[0], env, m);
      var rest :- EvaluateAll(args[1..], env, m);
      Ok([first] + rest)
  }

  /** Evaluation fails exactly on trees that are not well-formed, whatever the bindings. */
  lemma {:induction false} EvaluateFailsIffIllFormed(e: Expr, env: map<string, real>, m: MathLib)
    ensures Evaluate(e, env, m).Err? <==> !WellFormed(e)
    decreases e, 1
  {
    match e
    case Var(_) =>
    case Node(op, args) =>
      EvaluateAllFailsIffIllFormed(args, env, m);
  }

  lemma {:induction false} EvaluateAllFailsIffIllFormed(args: seq<Expr>, env: map<string, real>, m: MathLib)
    ensures EvaluateAll(args, env, m).Err? <==> exists i :: 0 <= i < |args| && !WellFormed(args[i])
    decreases args, 0
  {
    if |args| > 0 {
      EvaluateFailsIffIllFormed(args[0], env, m);
      EvaluateAllFailsIffIllFormed(args[1..], env, m);
      assert forall i :: 1 <= i < |args| ==> args[i] == args[1..][i - 1];
      if exists i :: 1 <= i < |args| && !WellFormed(args[i]) {
        var i :| 1 <= i < |args| && !WellFormed(args[i]);
        assert !WellFormed(args[1..][i - 1]);
      }
    }
  }

  /** A node whose children all evaluate but whose child count is not its arity raises the arity error. */
  lemma NodeArityMismatch(op: Op, args: seq<Expr>, env: map<string, real>, m: MathLib)
    requires EvaluateAll(args, env, m).Ok?
    requires |args| != Arity(op)
    ensures Evaluate(Node(op, args), env, m) == Err(ArityMismatch(op, Arity(op), |args|))
  {
  }

  // ---------------------------------------------------------------------------
  // Fitness
  // ---------------------------------------------------------------------------

  /** One dataset row: an input vector and the expected output. */
  datatype Row = Row(inputs: seq<real>, output: real)

  function ZipLength(vars: seq<string>, inputs: seq<real>): nat {
    if |vars| <= |inputs| then |vars| else |inputs|
  }

  /**
   * `dict(zip(variables, inputs))`: names are paired with inputs up to the
   * shorter length; a repeated name keeps the value of its last pair
   * (`BindLastWins`).
   */
  function Bind(vars: seq<string>, inputs: seq<real>): (env: map<string, real>)
    ensures env.Keys == NameSet(vars[..ZipLength(vars, inputs)])
    decreases |vars|
  {
    if |vars| == 0 || |inputs| == 0 then map[]
    else
      var rest := Bind(vars[1..], inputs[1..]);
      assert vars[..ZipLength(vars, inputs)] == [vars[0]] + vars[1..][..ZipLength(vars[1..], inputs[1..])];
      map[vars[0] := inputs[0]] + rest
  }

  /** The binding of a name is the input paired with its last occurrence among the zipped names. */
  lemma {:induction false} BindLastWins(vars: seq<string>, inputs: seq<real>, i: nat)
    requires i < ZipLength(vars, inputs)
    requires vars[i] !in vars[i + 1..ZipLength(vars, inputs)]
    ensures vars[i] in Bind(vars, inputs) && Bind(vars, inputs)[vars[i]] == inputs[i]
    decreases i
  {
    var n := ZipLength(vars, inputs);
    var rest := Bind(vars[1..], inputs[1..]);
    assert vars[1..][..n - 1] == vars[1..n];
    if i == 0 {
      assert vars[0] !in NameSet(vars[1..][..n - 1]);
    } else {
      assert vars[1..][i - 1] == vars[i];
      assert vars[1..][i..n - 1] == vars[i + 1..n];
      BindLastWins(vars[1..], inputs[1..], i - 1);
    }
  }

  /**
   * The sum over the rows of the clamped squared error between the
   * expression's value, with the variables bound to the row's inputs, and
   * the row's output; the first row that fails to evaluate aborts the sum.
   */
  function TotalError(e: Expr, vars: seq<string>, data: seq<Row>, m: MathLib): (r: Result<real, Error>)
    ensures r.Ok? ==> r.value >= 0.0
    ensures r.Err? ==> r.error.ArityMismatch?
    decreases |data|
  {
    if |data| == 0 then Ok(0.0)
    else
      var predicted :- Evaluate(e, Bind(vars, data[0].inputs), m);
      var rest :- TotalError(e, vars, data[1..], m);
      Ok(SafeSqr(predicted - data[0].output) + rest)
  }

  /** The mean of the clamped squared errors, `total_error / len(data)`. */
  function MeanSquaredError(e: Expr, vars: seq<string>, data: seq<Row>, m: MathLib): (r: Result<real, Error>)
    ensures |data| == 0 ==> r == Err(EmptyDataset)
    ensures r.Ok? ==> r.value >= 0.0
    ensures r.Ok? <==> |data| > 0 && TotalError(e, vars, data, m).Ok?
  {
    var total :- TotalError(e, vars, data, m);
    if |data| == 0 then Err(EmptyDataset)
    else
      assert total / (|data| as real) >= 0.0;
      Ok(total / (|data| as real))
  }

  /** `deviation(expression, data)`: the square root of the mean squared error. */
  function Deviation(e: Expr, vars: seq<string>, data: seq<Row>, m: MathLib): (r: Result<real, Error>)
    ensures r.Ok? <==> MeanSquaredError(e, vars, data, m).Ok?
    ensures r.Ok? ==> r.value == m.sqrt(MeanSquaredError(e, vars, data, m).value)
    ensures r.Err? ==> r.error == MeanSquaredError(e, vars, data, m).error
  {
    var mse :- MeanSquaredError(e, vars, data, m);
    Ok(m.sqrt(mse))
  }

  /** A well-formed expression has a total error on every dataset. */
  lemma {:induction false} WellFormedTotalError(e: Expr, vars: seq<string>, data: seq<Row>, m: MathLib)
    requires WellFormed(e)
    ensures TotalError(e, vars, data, m).Ok?
    decreases |data|
  {
    if |data| > 0 {
      EvaluateFailsIffIllFormed(e, Bind(vars, data[0].inputs), m);
      WellFormedTotalError(e, vars, data[1..], m);
    }
  }

  /** A well-formed expression has a deviation on every non-empty dataset. */
  lemma WellFormedDeviation(e: Expr, vars: seq<string>, data: seq<Row>, m: MathLib)
    requires WellFormed(e) && |data| > 0
    ensures Deviation(e, vars, data, m).Ok?
  {
    WellFormedTotalError(e, vars, data, m);
  }

  /** One row's contribution to a total error whose first row and tail both succeed. */
  lemma TotalErrorStep(e: Expr, vars: seq<string>, data: seq<Row>, m: MathLib)
    requires |data| > 0
    requires Evaluate(e, Bind(vars, data[0].inputs), m).Ok?
    requires TotalError(e, vars, data[1..], m).Ok?
    ensures TotalError(e, vars, data, m).Ok?
    ensures TotalError(e, vars, data, m).value ==
              SafeSqr(Evaluate(e, Bind(vars, data[0].inputs), m).value - data[0].output) + TotalError(e, vars, data[1..], m).value
  {
  }

  /** The expression reproduces the row's output exactly. */
  predicate Exact(e: Expr, vars: seq<string>, row: Row, m: MathLib) {
    Evaluate(e, Bind(vars, row.inputs), m) == Ok(row.output)
  }

  /** Every row is exact exactly when the first row is and every later row is. */
  lemma AllExactSplit(e: Expr, vars: seq<string>, data: seq<Row>, m: MathLib)
    requires |data| > 0
    ensures (forall i :: 0 <= i < |data| ==> Exact(e, vars, data[i], m)) <==>
            Exact(e, vars, data[0], m) && forall i :: 0 <= i < |data[1..]| ==> Exact(e, vars, data[1..][i], m)
  {
    assert forall i :: 1 <= i < |data| ==> data[i] == data[1..][i - 1];
  }

  /**
   * When the first row evaluates, the total is zero exactly when that row is
   * exact and the remaining rows total zero.
   */
  lemma FirstRowZero(e: Expr, vars: seq<string>, data: seq<Row>, m: MathLib)
    requires |data| > 0 && Evaluate(e, Bind(vars, data[0].inputs), m).Ok?
    ensures (TotalError(e, vars, data, m).Ok? && TotalError(e, vars, data, m).value == 0.0) <==>
            Exact(e, vars, data[0], m) && TotalError(e, vars, data[1..], m).Ok? && TotalError(e, vars, data[1..], m).value == 0.0
  {
    var first := Evaluate(e, Bind(vars, data[0].inputs), m);
    EvaluateFailsIffIllFormed(e, Bind(vars, data[0].inputs), m);
    WellFormedTotalError(e, vars, data[1..], m);
    TotalErrorStep(e, vars, data, m);
    var sq := SafeSqr(first.value - data[0].output);
    assert Exact(e, vars, data[0], m) <==> sq == 0.0;
  }

  /** The total error is zero exactly when every row's prediction equals its output. */
  lemma {:induction false} TotalErrorZeroIff(e: Expr, vars: seq<string>, data: seq<Row>, m: MathLib)
    ensures (TotalError(e, vars, data, m).Ok? && TotalError(e, vars, data, m).value == 0.0) <==>
            forall i :: 0 <= i < |data| ==> Exact(e, vars, data[i], m)
    decreases |data|
  {
    if |data| > 0 {
      TotalErrorZeroIff(e, vars, data[1..], m);
      AllExactSplit(e, vars, data, m);
      if Evaluate(e, Bind(vars, data[0].inputs), m).Ok? {
        FirstRowZero(e, vars, data, m);
      } else {
        assert !Exact(e, vars, data[0], m);
      }
    }
  }

  lemma QuotientZero(t: real, n: real)
    requires n > 0.0
    ensures t / n == 0.0 <==> t == 0.0
  {
    if t / n == 0.0 {
      calc { t; == (t / n) * n; == 0.0 * n; == 0.0; }
    }
  }

  /** On a non-empty dataset the mean squared error is zero exactly when every prediction is exact. */
  lemma MeanSquaredErrorZeroIff(e: Expr, vars: seq<string>, data: seq<Row>, m: MathLib)
    requires |data| > 0
    ensures (MeanSquaredError(e, vars, data, m).Ok? && MeanSquaredError(e, vars, data, m).value == 0.0) <==>
            forall i :: 0 <= i < |data| ==> Exact(e, vars, data[i], m)
  {
    TotalErrorZeroIff(e, vars, data, m);
    var t := TotalError(e, vars, data, m);
    if t.Ok? {
      QuotientZero(t.value, |data| as real);
    }
  }

  // ---------------------------------------------------------------------------
  // Selection
  // ---------------------------------------------------------------------------

  /** The indices `0 .. n - 1` in order, `range(n)`. */
  function Iota(n: nat): (s: seq<nat>)
    ensures |s| == n
    ensures forall i :: 0 <= i < n ==> s[i] == i
  {
    seq(n, i => i)
  }

  predicate Distinct(s: seq<nat>) {
    forall i, j :: 0 <= i < j < |s| ==> s[i] != s[j]
  }

  /** The pool with the element at `j` replaced by the last one and the last slot dropped. */
  function RemoveAt(pool: seq<nat>, j: nat): (r: seq<nat>)
    requires j < |pool|
    ensures |r| == |pool| - 1
    ensures forall x :: x in r ==> x in pool
    ensures Distinct(pool) ==> Distinct(r) && pool[j] !in r
  {
    var r := pool[j := pool[|pool| - 1]][..|pool| - 1];
    assert forall i :: 0 <= i < |r| ==> r[i] == (if i == j then pool[|pool| - 1] else pool[i]);
    r
  }

  /** A pool step removes one copy of the picked entry and keeps every other entry. */
  lemma RemoveAtMultiset(pool: seq<nat>, j: nat)
    requires j < |pool|
    ensures multiset(RemoveAt(pool, j)) == multiset(pool) - multiset{pool[j]}
  {
    var n := |pool| - 1;
    var init := pool[..n];
    assert pool == init + [pool[n]];
    if j < n {
      assert pool[j := pool[n]][..n] == init[j := pool[n]];
      assert init[j] == pool[j];
    } else {
      assert pool[j := pool[n]][..n] == init;
    }
  }

  /**
   * `random.sample(pool, k)` by the pool strategy: each step picks a
   * position among the remaining candidates, emits it and fills its slot
   * with the last candidate.
   */
  function SampleFrom(pool: seq<nat>, k: nat, rng: Rng, pos: nat): (r: Drawn<seq<nat>>)
    requires k <= |pool|
    ensures |r.value| == k
    ensures forall i :: 0 <= i < k ==> r.value[i] in pool
    ensures Distinct(pool) ==> Distinct(r.value)
    ensures r.next == pos + k
    decreases k
  {
    if k == 0 then Drawn([], pos)
    else
      var j := Pick(rng(pos), |pool|);
      var rest := SampleFrom(RemoveAt(pool, j), k - 1, rng, pos + 1);
      Drawn([pool[j]] + rest.value, rest.next)
  }

  /** `random.sample(range(n), k)`: `k` distinct indices below `n`. */
  function Sample(n: nat, k: nat, rng: Rng, pos: nat): (r: Drawn<seq<nat>>)
    requires k <= n
    ensures |r.value| == k
    ensures forall i :: 0 <= i < k ==> r.value[i] < n
    ensures Distinct(r.value)
    ensures r.next == pos + k
  {
    var r := SampleFrom(Iota(n), k, rng, pos);
    assert forall i :: 0 <= i < k ==> r.value[i] in Iota(n);
    r
  }

  /**
   * `min(indices, key=lambda i: scores[i])`: the position of the first
   * index whose score is least.
   */
  function ArgMin(indices: seq<nat>, scores: seq<real>): (p: nat)
    requires |indices| > 0
    requires forall i :: 0 <= i < |indices| ==> indices[i] < |scores|
    ensures p < |indices|
    ensures forall i :: 0 <= i < |indices| ==> scores[indices[p]] <= scores[indices[i]]
    ensures forall i :: 0 <= i < p ==> scores[indices[i]] > scores[indices[p]]
    decreases |indices|
  {
    if |indices| == 1 then 0
    else
      var b := ArgMin(indices[..|indices| - 1], scores);
      if scores[indices[|indices| - 1]] < scores[indices[b]] then |indices| - 1 else b
  }

  /**
   * `tournament_selection(population, deviations, size)`: the member at the
   * sampled index of least deviation, the earliest drawn one on a tie.
   */
  function TournamentSelection(population: seq<Expr>, deviations: seq<real>, size: nat, rng: Rng, pos: nat): (r: Drawn<Expr>)
    requires 1 <= size <= |population| <= |deviations|
    ensures r.value in population
    ensures r.next == pos + size
  {
    var s := Sample(|population|, size, rng, pos);
    var p := ArgMin(s.value, deviations);
    Drawn(population[s.value[p]], s.next)
  }

  /**
   * The winner is the sampled member of least deviation, and no member
   * sampled before it ties with it.
   */
  lemma TournamentWinner(population: seq<Expr>, deviations: seq<real>, size: nat, rng: Rng, pos: nat)
    requires 1 <= size <= |population| <= |deviations|
    ensures exists p :: 0 <= p < size &&
              TournamentSelection(population, deviations, size, rng, pos).value == population[Sample(|population|, size, rng, pos).value[p]] &&
              (forall q :: 0 <= q < size ==>
                 deviations[Sample(|population|, size, rng, pos).value[p]] <= deviations[Sample(|population|, size, rng, pos).value[q]]) &&
              (forall q :: 0 <= q < p ==>
                 deviations[Sample(|population|, size, rng, pos).value[q]] > deviations[Sample(|population|, size, rng, pos).value[p]])
  {
    var s := Sample(|population|, size, rng, pos);
    var p := ArgMin(s.value, deviations);
    assert TournamentSelection(population, deviations, size, rng, pos).value == population[s.value[p]];
  }

  /** The set of values a sequence takes. */
  function Values(s: seq<nat>): set<nat> {
    set x | x in s
  }

  /** A sequence without repetitions takes as many values as it has entries. */
  lemma {:induction false} DistinctCard(s: seq<nat>)
    requires Distinct(s)
    ensures |Values(s)| == |s|
  {
    if |s| > 0 {
      var init := s[..|s| - 1];
      var last := s[|s| - 1];
      assert Distinct(init);
      DistinctCard(init);
      assert s == init + [last];
      assert Values(s) == Values(init) + {last};
      assert last !in Values(init);
      assert Values(init) * {last} == {};
    }
  }

  /** `n` distinct indices below `n` cover every index below `n`. */
  lemma DistinctCovers(s: seq<nat>, n: nat)
    requires |s| == n && Distinct(s)
    requires forall i :: 0 <= i < |s| ==> s[i] < n
    ensures forall j :: 0 <= j < n ==> j in s
  {
    var range := Values(Iota(n));
    DistinctCard(s);
    DistinctCard(Iota(n));
    forall j | 0 <= j < n ensures j in s {
      if j !in s {
        assert Iota(n)[j] == j;
        assert j in range;
        forall x | x in Values(s) ensures x in range - {j} {
          var i :| 0 <= i < |s| && s[i] == x;
          assert Iota(n)[x] == x;
        }
        assert |range - {j}| == n - 1;
        SubsetCard(Values(s), range - {j});
        assert false;
      }
    }
  }

  lemma SubsetCard(a: set<nat>, b: set<nat>)
    requires a <= b
    ensures |a| <= |b|
  {
    assert b == a + (b - a);
    assert a * (b - a) == {};
  }

  /** The least score over a sequence covering `0 .. n - 1` is the least of all those indices' scores. */
  lemma ArgMinOverCover(s: seq<nat>, scores: seq<real>, n: nat)
    requires |s| > 0 && n <= |scores|
    requires forall i :: 0 <= i < |s| ==> s[i] < |scores|
    requires forall j :: 0 <= j < n ==> j in s
    ensures forall j :: 0 <= j < n ==> scores[s[ArgMin(s, scores)]] <= scores[j]
  {
    var p := ArgMin(s, scores);
    forall j | 0 <= j < n ensures scores[s[p]] <= scores[j] {
      assert j in s;
      var q :| 0 <= q < |s| && s[q] == j;
    }
  }

  /** A tournament over the whole population selects a member of globally least deviation. */
  lemma FullTournamentSelectsBest(population: seq<Expr>, deviations: seq<real>, rng: Rng, pos: nat)
    requires 1 <= |population| <= |deviations|
    ensures exists w :: 0 <= w < |population| &&
              TournamentSelection(population, deviations, |population|, rng, pos).value == population[w] &&
              forall j :: 0 <= j < |population| ==> deviations[w] <= deviations[j]
  {
    var n := |population|;
    var s := Sample(n, n, rng, pos).value;
    DistinctCovers(s, n);
    ArgMinOverCover(s, deviations, n);
    var w := s[ArgMin(s, deviations)];
    assert TournamentSelection(population, deviations, n, rng, pos).value == population[w];
  }

  // ---------------------------------------------------------------------------
  // Crossover
  // ---------------------------------------------------------------------------

  /**
   * The zero-based child positions below both parents' child counts at
   * which both children are operator nodes; the source's points are these
   * plus one, and it cuts each argument list at `point - 1`.
   */
  function ValidPoints(a1: seq<Expr>, a2: seq<Expr>): (ps: seq<nat>)
    ensures forall j :: j in ps <==> 0 <= j < |a1| && j < |a2| && a1[j].Node? && a2[j].Node?
  {
    ValidPointsFrom(a1, a2, 0)
  }

  /** The valid points are listed in ascending order, which decides the cut a draw picks. */
  lemma ValidPointsAscending(a1: seq<Expr>, a2: seq<Expr>)
    ensures forall i, k :: 0 <= i < k < |ValidPoints(a1, a2)| ==> ValidPoints(a1, a2)[i] < ValidPoints(a1, a2)[k]
  {
    ValidPointsFromAscending(a1, a2, 0);
  }

  lemma {:induction false} ValidPointsFromAscending(a1: seq<Expr>, a2: seq<Expr>, j: nat)
    ensures forall i, k :: 0 <= i < k < |ValidPointsFrom(a1, a2, j)| ==> ValidPointsFrom(a1, a2, j)[i] < ValidPointsFrom(a1, a2, j)[k]
    decreases |a1| - j
  {
    if j < |a1| && j < |a2| {
      var rest := ValidPointsFrom(a1, a2, j + 1);
      ValidPointsFromAscending(a1, a2, j + 1);
      assert forall k :: 0 <= k < |rest| ==> rest[k] in rest;
    }
  }

  function ValidPointsFrom(a1: seq<Expr>, a2: seq<Expr>, j: nat): (ps: seq<nat>)
    ensures forall k :: k in ps <==> j <= k < |a1| && k < |a2| && a1[k].Node? && a2[k].Node?
    decreases |a1| - j
  {
    if j >= |a1| || j >= |a2| then []
    else (if a1[j].Node? && a2[j].Node? then [j] else []) + ValidPointsFrom(a1, a2, j + 1)
  }

  /** `random.choice([parent1, parent2])`. */
  function EitherParent(p1: Expr, p2: Expr, rng: Rng, pos: nat): (r: Drawn<Expr>)
    ensures r.value == p1 || r.value == p2
    ensures r.next == pos + 1
  {
    Drawn(if Pick(rng(pos), 2) == 0 then p1 else p2, pos + 1)
  }

  /** The children of the first list before `j` followed by those of the second from `j`. */
  function Splice(a1: seq<Expr>, a2: seq<Expr>, j: nat): (c: seq<Expr>)
    requires j <= |a1| && j <= |a2|
    ensures |c| == |a2|
    ensures forall i :: 0 <= i < |c| ==> c[i] == (if i < j then a1[i] else a2[i])
  {
    a1[..j] + a2[j..]
  }

  /** Both parents are operator nodes sharing a position whose children are both operator nodes. */
  predicate Spliceable(p1: Expr, p2: Expr) {
    p1.Node? && p2.Node? && ValidPoints(p1.args, p2.args) != []
  }

  /** `random.choice(valid_points)`, as a zero-based cut position. */
  function CutPoint(p1: Expr, p2: Expr, rng: Rng, pos: nat): (j: nat)
    requires Spliceable(p1, p2)
    ensures j < |p1.args| && j < |p2.args| && p1.args[j].Node? && p2.args[j].Node?
  {
    var points := ValidPoints(p1.args, p2.args);
    var j := points[Pick(rng(pos), |points|)];
    assert j in points;
    j
  }

  /**
   * `crossover(parent1, parent2)`: unless both parents are operator nodes
   * with operands and a common operator child position exists, one parent
   * is returned whole; otherwise the child is the first parent's operator
   * over its own children before the cut and the second parent's from it.
   */
  function Crossover(p1: Expr, p2: Expr, rng: Rng, pos: nat): (r: Drawn<Expr>)
    ensures Spliceable(p1, p2) ==>
              r.value.Node? && r.value.op == p1.op && |r.value.args| == |p2.args| &&
              r.value.args == Splice(p1.args, p2.args, CutPoint(p1, p2, rng, pos))
    ensures !Spliceable(p1, p2) ==> r.value == p1 || r.value == p2
    ensures r.next == pos + 1
  {
    if p1.Var? || p2.Var? then EitherParent(p1, p2, rng, pos)
    else if |p1.args| >= 1 && |p2.args| >= 1 then
      if Spliceable(p1, p2) then
        Drawn(Node(p1.op, Splice(p1.args, p2.args, CutPoint(p1, p2, rng, pos))), pos + 1)
      else EitherParent(p1, p2, rng, pos)
    else EitherParent(p1, p2, rng, pos)
  }

  /** A spliced child is well-formed exactly when the parents' operators have the same arity. */
  lemma CrossoverWellFormedIff(p1: Expr, p2: Expr, rng: Rng, pos: nat)
    requires WellFormed(p1) && WellFormed(p2) && Spliceable(p1, p2)
    ensures WellFormed(Crossover(p1, p2, rng, pos).value) <==> Arity(p1.op) == Arity(p2.op)
  {
  }

  /** Crossover never yields a tree deeper than the deeper parent. */
  lemma CrossoverDepth(p1: Expr, p2: Expr, rng: Rng, pos: nat)
    ensures var c := Crossover(p1, p2, rng, pos).value;
            Depth(c) <= Depth(p1) || Depth(c) <= Depth(p2)
  {
    var c := Crossover(p1, p2, rng, pos).value;
    if Spliceable(p1, p2) {
      var bound := if MaxDepth(p1.args) <= MaxDepth(p2.args) then MaxDepth(p2.args) else MaxDepth(p1.args);
      assert forall i :: 0 <= i < |c.args| ==> Depth(c.args[i]) <= bound;
    }
  }

  /** Crossover keeps at least one operand on every operator node. */
  lemma CrossoverHasOperands(p1: Expr, p2: Expr, rng: Rng, pos: nat)
    requires HasOperands(p1) && HasOperands(p2)
    ensures HasOperands(Crossover(p1, p2, rng, pos).value)
  {
  }

  /** Crossover only uses variable names that occur in a parent. */
  lemma CrossoverLeafNames(p1: Expr, p2: Expr, rng: Rng, pos: nat)
    ensures LeafNames(Crossover(p1, p2, rng, pos).value) <= LeafNames(p1) + LeafNames(p2)
  {
    var c := Crossover(p1, p2, rng, pos).value;
    if Spliceable(p1, p2) {
      var j := CutPoint(p1, p2, rng, pos);
      forall n | n in LeafNames(c) ensures n in LeafNames(p1) + LeafNames(p2) {
        LeafNamesAllMembers(c.args, n);
        var i :| 0 <= i < |c.args| && n in LeafNames(c.args[i]);
        if i < j {
          LeafNamesAllMembers(p1.args, n);
        } else {
          LeafNamesAllMembers(p2.args, n);
        }
      }
    }
  }

  /**
   * Crossover does not compare arities: splicing a one-operand `exp` node
   * with a binary node whose first child is an operator node hands `exp` two
   * children, and evaluating the child raises the arity error.
   */
  lemma CrossoverCanBreakArity(rng: Rng, pos: nat, env: map<string, real>, m: MathLib)
    ensures var x := Var("x");
            var p1 := Node(Exp, [Node(Add, [x, x])]);
            var p2 := Node(Add, [Node(Add, [x, x]), x]);
            var c := Crossover(p1, p2, rng, pos).value;
            WellFormed(p1) && WellFormed(p2) &&
            c == Node(Exp, [Node(Add, [x, x]), x]) &&
            Evaluate(c, env, m) == Err(ArityMismatch(Exp, 1, 2))
  {
    var x := Var("x");
    var sum := Node(Add, [x, x]);
    var p1 := Node(Exp, [sum]);
    var p2 := Node(Add, [sum, x]);
    assert WellFormed(sum) by { assert forall i :: 0 <= i < |sum.args| ==> sum.args[i] == x; }
    assert WellFormed(p1) by { assert forall i :: 0 <= i < |p1.args| ==> p1.args[i] == sum; }
    assert WellFormed(p2) by { assert p2.args[0] == sum && p2.args[1] == x; }
    assert ValidPoints(p1.args, p2.args) == [0] by {
      assert ValidPointsFrom(p1.args, p2.args, 1) == [];
    }
    assert CutPoint(p1, p2, rng, pos) == 0;
    var c := Crossover(p1, p2, rng, pos).value;
    assert c.args == [sum, x];
    assert WellFormed(c.args[0]) && WellFormed(c.args[1]);
    EvaluateAllFailsIffIllFormed(c.args, env, m);
    var operands := EvaluateAll(c.args, env, m);
    assert operands.Ok? && |operands.value| == 2;
    assert Evaluate(c, env, m) == Err(ArityMismatch(Exp, 1, 2));
  }

  // ---------------------------------------------------------------------------
  // Mutation
  // ---------------------------------------------------------------------------

  /** What remains of the depth budget at `depth`; the measure mutation descends on. */
  function Budget(depth: nat, maxDepth: nat): nat {
    if depth < maxDepth then maxDepth - depth else 0
  }

  /** A bound on every child's depth bounds the deepest child. */
  lemma MaxDepthBound(args: seq<Expr>, b: nat)
    requires forall i :: 0 <= i < |args| ==> Depth(args[i]) <= b
    ensures MaxDepth(args) <= b
  {
  }

  /**
   * `mutate(expression, max_depth, mutation_rate, depth)`. One draw below
   * the rate replaces an operator node by the same operator over freshly
   * created, then mutated, operands (one per arity) and replaces a leaf by a
   * fresh tree of budget `maxDepth - depth`; otherwise an operator node keeps
   * its operator over its mutated children and a leaf is kept.
   */
  function Mutate(e: Expr, maxDepth: nat, rate: real, depth: nat, vars: seq<string>, rng: Rng, pos: nat): (r: Drawn<Expr>)
    requires |vars| > 0
    requires depth + Depth(e) <= maxDepth
    requires HasOperands(e)
    ensures depth + Depth(r.value) <= maxDepth
    ensures HasOperands(r.value)
    ensures r.next > pos
    decreases Budget(depth, maxDepth), Size(e), 0
  {
    if rng(pos) < rate then
      if e.Node? then
        NodeDepth(e);
        var operands := MutateFresh(Arity(e.op), maxDepth, rate, depth, vars, rng, pos + 1);
        MaxDepthBound(operands.value, maxDepth - depth - 1);
        Drawn(Node(e.op, operands.value), operands.next)
      else
        WellFormedHasOperands(Create(maxDepth - depth, vars, rng, pos + 1).value);
        Create(maxDepth - depth, vars, rng, pos + 1)
    else if e.Node? then
      var operands := MutateAll(e.args, maxDepth, rate, depth, vars, rng, pos + 1);
      MaxDepthBound(operands.value, maxDepth - depth - 1);
      Drawn(Node(e.op, operands.value), operands.next)
    else
      Drawn(e, pos + 1)
  }

  /** `[mutate(create_expression(max_depth - depth - 1, ...), ..., depth + 1) for _ in range(count)]`. */
  function MutateFresh(count: nat, maxDepth: nat, rate: real, depth: nat, vars: seq<string>, rng: Rng, pos: nat): (r: Drawn<seq<Expr>>)
    requires |vars| > 0 && depth + 2 <= maxDepth
    ensures |r.value| == count
    ensures forall i :: 0 <= i < count ==> depth + 1 + Depth(r.value[i]) <= maxDepth && HasOperands(r.value[i])
    ensures r.next >= pos
    decreases Budget(depth, maxDepth), 0, count
  {
    if count == 0 then Drawn([], pos)
    else
      var created := Create(maxDepth - depth - 1, vars, rng, pos);
      WellFormedHasOperands(created.value);
      var first := Mutate(created.value, maxDepth, rate, depth + 1, vars, rng, created.next);
      var rest := MutateFresh(count - 1, maxDepth, rate, depth, vars, rng, first.next);
      Drawn([first.value] + rest.value, rest.next)
  }

  /** Children of a node at `depth` that may be mutated one level down. */
  predicate ChildrenFit(args: seq<Expr>, maxDepth: nat, depth: nat) {
    forall i :: 0 <= i < |args| ==> depth + 1 + Depth(args[i]) <= maxDepth && HasOperands(args[i])
  }

  /** `[mutate(arg, ..., depth + 1) for arg in args]` for the children of a node at `depth`. */
  function MutateAll(args: seq<Expr>, maxDepth: nat, rate: real, depth: nat, vars: seq<string>, rng: Rng, pos: nat): (r: Drawn<seq<Expr>>)
    requires |vars| > 0 && ChildrenFit(args, maxDepth, depth)
    ensures |r.value| == |args|
    ensures forall i :: 0 <= i < |args| ==> depth + 1 + Depth(r.value[i]) <= maxDepth && HasOperands(r.value[i])
    ensures r.next >= pos
    decreases Budget(depth, maxDepth), SizeAll(args), 1
  {
    if |args| == 0 then Drawn([], pos)
    else
      assert forall i :: 1 <= i < |args| ==> args[1..][i - 1] == args[i];
      var first := Mutate(args[0], maxDepth, rate, depth + 1, vars, rng, pos);
      var rest := MutateAll(args[1..], maxDepth, rate, depth, vars, rng, first.next);
      Drawn([first.value] + rest.value, rest.next)
  }

  /** The first child's names and the remaining children's names make up a node's names. */
  lemma LeafNamesAllHead(args: seq<Expr>)
    requires |args| > 0
    ensures LeafNamesAll(args) == LeafNames(args[0]) + LeafNamesAll(args[1..])
  {
    forall n ensures n in LeafNamesAll(args) <==> n in LeafNames(args[0]) + LeafNamesAll(args[1..]) {
      LeafNamesAllMembers(args, n);
      LeafNamesAllMembers(args[1..], n);
      assert forall i :: 1 <= i < |args| ==> args[1..][i - 1] == args[i];
      if n in LeafNamesAll(args) {
        var i :| 0 <= i < |args| && n in LeafNames(args[i]);
        if i > 0 {
          assert n in LeafNames(args[1..][i - 1]);
        }
      }
    }
  }

  /**
   * A mutated operator node keeps its operator and receives one operand per
   * arity; an operator node left alone keeps its operator and child count;
   * a leaf left alone is returned as it is.
   */
  lemma MutateShape(e: Expr, maxDepth: nat, rate: real, depth: nat, vars: seq<string>, rng: Rng, pos: nat)
    requires |vars| > 0 && depth + Depth(e) <= maxDepth && HasOperands(e)
    ensures var r := Mutate(e, maxDepth, rate, depth, vars, rng, pos).value;
            (e.Node? ==> r.Node? && r.op == e.op) &&
            (e.Node? && rng(pos) < rate ==> |r.args| == Arity(e.op)) &&
            (e.Node? && rng(pos) >= rate ==> |r.args| == |e.args|) &&
            (e.Var? && rng(pos) >= rate ==> r == e)
  {
  }

  /** Mutation keeps a well-formed tree well-formed, and a mutated root is always well-formed. */
  lemma {:induction false} MutateWellFormed(e: Expr, maxDepth: nat, rate: real, depth: nat, vars: seq<string>, rng: Rng, pos: nat)
    requires |vars| > 0 && depth + Depth(e) <= maxDepth && HasOperands(e)
    requires WellFormed(e) || rng(pos) < rate
    ensures WellFormed(Mutate(e, maxDepth, rate, depth, vars, rng, pos).value)
    decreases Budget(depth, maxDepth), Size(e), 0
  {
    if rng(pos) < rate {
      if e.Node? {
        NodeDepth(e);
        MutateFreshWellFormed(Arity(e.op), maxDepth, rate, depth, vars, rng, pos + 1);
      }
    } else if e.Node? {
      MutateAllWellFormed(e.args, maxDepth, rate, depth, vars, rng, pos + 1);
    }
  }

  lemma {:induction false} MutateFreshWellFormed(count: nat, maxDepth: nat, rate: real, depth: nat, vars: seq<string>, rng: Rng, pos: nat)
    requires |vars| > 0 && depth + 2 <= maxDepth
    ensures forall i :: 0 <= i < count ==> WellFormed(MutateFresh(count, maxDepth, rate, depth, vars, rng, pos).value[i])
    decreases Budget(depth, maxDepth), 0, count
  {
    if count > 0 {
      var created := Create(maxDepth - depth - 1, vars, rng, pos);
      WellFormedHasOperands(created.value);
      MutateWellFormed(created.value, maxDepth, rate, depth + 1, vars, rng, created.next);
      var first := Mutate(created.value, maxDepth, rate, depth + 1, vars, rng, created.next);
      MutateFreshWellFormed(count - 1, maxDepth, rate, depth, vars, rng, first.next);
    }
  }

  lemma {:induction false} MutateAllWellFormed(args: seq<Expr>, maxDepth: nat, rate: real, depth: nat, vars: seq<string>, rng: Rng, pos: nat)
    requires |vars| > 0 && ChildrenFit(args, maxDepth, depth)
    ensures forall i :: 0 <= i < |args| && WellFormed(args[i]) ==>
              WellFormed(MutateAll(args, maxDepth, rate, depth, vars, rng, pos).value[i])
    decreases Budget(depth, maxDepth), SizeAll(args), 1
  {
    if |args| > 0 {
      assert forall i :: 1 <= i < |args| ==> args[1..][i - 1] == args[i];
      if WellFormed(args[0]) {
        MutateWellFormed(args[0], maxDepth, rate, depth + 1, vars, rng, pos);
      }
      var first := Mutate(args[0], maxDepth, rate, depth + 1, vars, rng, pos);
      MutateAllWellFormed(args[1..], maxDepth, rate, depth, vars, rng, first.next);
    }
  }

  /** Mutation only introduces names from the variable list. */
  lemma {:induction false} MutateLeafNames(e: Expr, maxDepth: nat, rate: real, depth: nat, vars: seq<string>, rng: Rng, pos: nat)
    requires |vars| > 0 && depth + Depth(e) <= maxDepth && HasOperands(e)
    ensures LeafNames(Mutate(e, maxDepth, rate, depth, vars, rng, pos).value) <= LeafNames(e) + NameSet(vars)
    decreases Budget(depth, maxDepth), Size(e), 0
  {
    var r := Mutate(e, maxDepth, rate, depth, vars, rng, pos).value;
    if rng(pos) < rate {
      if e.Node? {
        NodeDepth(e);
        MutateFreshLeafNames(Arity(e.op), maxDepth, rate, depth, vars, rng, pos + 1);
        assert r.args == MutateFresh(Arity(e.op), maxDepth, rate, depth, vars, rng, pos + 1).value;
        LeafNamesAllBound(r.args, NameSet(vars));
      }
    } else if e.Node? {
      MutateAllLeafNames(e.args, maxDepth, rate, depth, vars, rng, pos + 1);
      assert r.args == MutateAll(e.args, maxDepth, rate, depth, vars, rng, pos + 1).value;
      LeafNamesAllBound(r.args, LeafNames(e) + NameSet(vars));
    }
  }

  lemma {:induction false} MutateFreshLeafNames(count: nat, maxDepth: nat, rate: real, depth: nat, vars: seq<string>, rng: Rng, pos: nat)
    requires |vars| > 0 && depth + 2 <= maxDepth
    ensures forall i :: 0 <= i < count ==>
              LeafNames(MutateFresh(count, maxDepth, rate, depth, vars, rng, pos).value[i]) <= NameSet(vars)
    decreases Budget(depth, maxDepth), 0, count
  {
    if count > 0 {
      var created := Create(maxDepth - depth - 1, vars, rng, pos);
      WellFormedHasOperands(created.value);
      MutateLeafNames(created.value, maxDepth, rate, depth + 1, vars, rng, created.next);
      var first := Mutate(created.value, maxDepth, rate, depth + 1, vars, rng, created.next);
      MutateFreshLeafNames(count - 1, maxDepth, rate, depth, vars, rng, first.next);
    }
  }

  lemma {:induction false} MutateAllLeafNames(args: seq<Expr>, maxDepth: nat, rate: real, depth: nat, vars: seq<string>, rng: Rng, pos: nat)
    requires |vars| > 0 && ChildrenFit(args, maxDepth, depth)
    ensures forall i :: 0 <= i < |args| ==>
              LeafNames(MutateAll(args, maxDepth, rate, depth, vars, rng, pos).value[i]) <= LeafNamesAll(args) + NameSet(vars)
    decreases Budget(depth, maxDepth), SizeAll(args), 1
  {
    if |args| > 0 {
      assert forall i :: 1 <= i < |args| ==> args[1..][i - 1] == args[i];
      LeafNamesAllHead(args);
      MutateLeafNames(args[0], maxDepth, rate, depth + 1, vars, rng, pos);
      var first := Mutate(args[0], maxDepth, rate, depth + 1, vars, rng, pos);
      MutateAllLeafNames(args[1..], maxDepth, rate, depth, vars, rng, first.next);
    }
  }

  /** With no draw below the rate, mutation returns the tree unchanged. */
  lemma {:induction false} MutateNoDrawBelowRate(e: Expr, maxDepth: nat, rate: real, depth: nat, vars: seq<string>, rng: Rng, pos: nat)
    requires |vars| > 0 && depth + Depth(e) <= maxDepth && HasOperands(e)
    requires forall k :: rng(k) >= rate
    ensures Mutate(e, maxDepth, rate, depth, vars, rng, pos).value == e
    decreases Budget(depth, maxDepth), Size(e), 0
  {
    if e.Node? {
      MutateAllNoDrawBelowRate(e.args, maxDepth, rate, depth, vars, rng, pos + 1);
    }
  }

  lemma {:induction false} MutateAllNoDrawBelowRate(args: seq<Expr>, maxDepth: nat, rate: real, depth: nat, vars: seq<string>, rng: Rng, pos: nat)
    requires |vars| > 0 && ChildrenFit(args, maxDepth, depth)
    requires forall k :: rng(k) >= rate
    ensures MutateAll(args, maxDepth, rate, depth, vars, rng, pos).value == args
    decreases Budget(depth, maxDepth), SizeAll(args), 1
  {
    if |args| > 0 {
      assert forall i :: 1 <= i < |args| ==> args[1..][i - 1] == args[i];
      MutateNoDrawBelowRate(args[0], maxDepth, rate, depth + 1, vars, rng, pos);
      var first := Mutate(args[0], maxDepth, rate, depth + 1, vars, rng, pos);
      MutateAllNoDrawBelowRate(args[1..], maxDepth, rate, depth, vars, rng, first.next);
      assert args == [args[0]] + args[1..];
    }
  }

  /** A rate of zero or less never mutates. */
  lemma MutateRateZero(e: Expr, maxDepth: nat, rate: real, depth: nat, vars: seq<string>, rng: Rng, pos: nat)
    requires |vars| > 0 && depth + Depth(e) <= maxDepth && HasOperands(e)
    requires rate <= 0.0
    ensures Mutate(e, maxDepth, rate, depth, vars, rng, pos).value == e
  {
    MutateNoDrawBelowRate(e, maxDepth, rate, depth, vars, rng, pos);
  }
}
