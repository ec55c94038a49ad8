# Genetic programming engine, modelled in Dafny

This project models the evolutionary engine of a tree-based genetic-programming
system that fits a symbolic expression to a dataset. It covers four parts:

- The operator table and its clamped arithmetic primitives (`operations.py`).
- The expression operators (`gp_core.py`): random construction, evaluation,
  the deviation score, tournament selection, crossover and mutation.
- The generational loop (`gp_algorithm.py`). Each generation scores the
  population, sorts it stably by deviation, and keeps the best and worst
  shares. It breeds the rest by two tournaments, a crossover and a mutation,
  then records the best member of the new population.
- The infix renderer and the parenthesis trimmer (`utils.py`).

An expression is `Var(name)` or `Node(op, args)`. The child sequence may have
any length, as a Python list may, so `WellFormed` states the arity invariant
separately. Every use of `random` draws from an explicit stream,
`rng: nat -> Unit`, of values in [0, 1). A drawing function takes the position
of its next draw and returns it after its last one. Every property is
therefore proved for every stream.

Files:

- `wrappers.dfy`: the `Result` type that stands for raised exceptions, and `Option`.
- `oracle.dfy`: the stream of draws and `random.choice`'s index.
- `operations.dfy`: the operator table, the clamped primitives, and the
  weighted operator choice.
- `expression.dfy`: trees, depth, size, leaf names and `WellFormed`.
- `gp_core.dfy`: the genetic operators and the fitness.
- `utils.dfy`: the renderer, plus a parser for the rendered language that
  serves as its reference inverse, and the trimmer.
- `gp_algorithm.dfy`: the generational loop. One generation is the pure
  function `Step`, and the run is `RunFrom`/`RunAll`. The source's loops are
  the methods `BreedInto` (the `while` loop of lines 33-38), `NextGeneration`
  and `RunAlgorithm` (the `for` loop of lines 25-45, whose body is the method
  `Advance`). Each method is proved equal to its specification function; the
  `for` loop's invariant is `Remains`, the outcome of the rest of the run.

Two behaviours of the code that are easy to miss are modelled as written and
exhibited by lemmas:

- Crossover takes `parent1`'s operator and `parent2`'s child count, so it can
  break arity. `CrossoverCanBreakArity` builds such a child and shows that it
  fails to evaluate. `IllFormedRenderings` shows that such shapes still render.
- A worst share of 0 percent gives the slice `[-0:]`, which keeps the whole
  sorted population. The new population is then larger than
  `population_size` (`ZeroWorstShareGrows`).

## Model

| member | source | states |
|---|---|---|
| `Operations.Arity` | GeneticProgramming/GeneticProgramming/configuration/operations.py:51-57 | Every arity is 1 or 2. It is 2 exactly for the four binary operators. |
| `Operations.Weight` | GeneticProgramming/GeneticProgramming/configuration/operations.py:51-57 | Every weight is positive. It is 1 exactly for the binary operators. |
| `Operations.OpTable` | GeneticProgramming/GeneticProgramming/configuration/operations.py:51-57 | `+ - * /` have arity 2 and weight 1, and `exp` has arity 1 and weight 0.5. Every operator appears in the table's key order. |
| `Operations.Clamp` | GeneticProgramming/GeneticProgramming/configuration/operations.py:7 | The result lies in [-MAX, MAX]. An in-range value is unchanged; a value above MAX gives MAX, and one below -MAX gives -MAX. |
| `Operations.ClampIdempotent` | GeneticProgramming/GeneticProgramming/configuration/operations.py:7 | Clamping twice is clamping once. |
| `Operations.SafeAdd` | GeneticProgramming/GeneticProgramming/configuration/operations.py:5-9 | The result lies in [-MAX, MAX]. It is exactly `x + y` when the raw sum lies in that range, MAX above it and -MAX below it. |
| `Operations.SafeSub` | GeneticProgramming/GeneticProgramming/configuration/operations.py:12-16 | The result lies in [-MAX, MAX]. It is exactly `x - y` when the raw difference lies in that range, MAX above it and -MAX below it. |
| `Operations.SafeMul` | GeneticProgramming/GeneticProgramming/configuration/operations.py:19-23 | The result lies in [-MAX, MAX]. It is exactly `x * y` when the raw product lies in that range, MAX above it and -MAX below it. |
| `Operations.SafeDiv` | GeneticProgramming/GeneticProgramming/configuration/operations.py:26-32 | Division by zero gives 0. The result lies in [-MAX, MAX], and it is exactly `x / y` when that quotient lies in the range, MAX above it and -MAX below it. |
| `Operations.SafeExp` | GeneticProgramming/GeneticProgramming/configuration/operations.py:35-39 | The result never exceeds MAX. It is MAX or `exp(min(x, 709))`, and it is the latter whenever that is at most MAX. |
| `Operations.SafeExpCapsArgument` | GeneticProgramming/GeneticProgramming/configuration/operations.py:37 | Every argument at or above 709 gives the same result as 709. |
| `Operations.SquareSign` | GeneticProgramming/GeneticProgramming/configuration/operations.py:46 | `x ** 2` is positive for x ≠ 0 and zero at 0. |
| `Operations.SafeSqr` | GeneticProgramming/GeneticProgramming/configuration/operations.py:42-48 | The result lies in [0, MAX]. It is x² when x² ≤ MAX and MAX otherwise, and it is zero exactly when x is zero. |
| `Operations.Apply` | GeneticProgramming/GeneticProgramming/configuration/operations.py:51-57 | The table's `func` applied to its operands. A binary result lies in [-MAX, MAX], every result is at most MAX, and division by a zero operand gives 0. |
| `Operations.Weights` | GeneticProgramming/GeneticProgramming/core/gp_core.py:22 | The weights list passed to `random.choices`: one entry per key, in key order. |
| `Operations.Accumulate` | GeneticProgramming/GeneticProgramming/core/gp_core.py:22 | The running sums `random.choices` bisects: the first entry is the first weight, and each later entry adds its weight to the one before. |
| `Operations.BisectRight` | GeneticProgramming/GeneticProgramming/core/gp_core.py:22 | `bisect_right`: every entry before the result is ≤ x, and the entry at the result, if any, is > x. |
| `Operations.CumWeightsValues` | GeneticProgramming/GeneticProgramming/core/gp_core.py:22 | The cumulative weights are 1, 2, 3, 4 and 4.5. |
| `Operations.ChooseOp` | GeneticProgramming/GeneticProgramming/core/gp_core.py:22 | `random.choices(list(ops), weights=..., k=1)[0]` as CPython computes it: `bisect_right` over the cumulative weights [1, 2, 3, 4, 4.5] with `hi = n - 1`, at the draw scaled by the total weight 4.5. The scaled draw lies in the chosen operator's weight interval, from the weight of the operators before it to that plus its own weight. |
| `Operations.ChooseOpInterval` | GeneticProgramming/GeneticProgramming/core/gp_core.py:22 | The weighted choice picks an operator exactly when the draw, scaled by the total weight 4.5, falls in that operator's weight interval. |
| `Operations.ChooseOpByDraw` | GeneticProgramming/GeneticProgramming/core/gp_core.py:22 | The chosen operator for each range of the scaled draw (below 1, 2, 3, 4, or above). |
| `Operations.ChooseOpReaches` | GeneticProgramming/GeneticProgramming/core/gp_core.py:22 | Every operator is chosen by some draw. |
| `Oracle.Pick` | GeneticProgramming/GeneticProgramming/core/gp_core.py:21 | `random.choice` of an n-element list takes an index below n: the one whose unit interval holds `u * n`. |
| `Oracle.PickReaches` | GeneticProgramming/GeneticProgramming/core/gp_core.py:21 | Every index below n is chosen by some draw. |
| `Expression.WellFormedHasOperands` | GeneticProgramming/GeneticProgramming/core/gp_core.py:43-45 | A tree that passes every arity check has at least one operand at every node. |
| `GpCore.Create` | GeneticProgramming/GeneticProgramming/core/gp_core.py:7-24 | The result is well-formed, no deeper than `max_depth`, and its leaves come from `variables`. It consumes at least one draw. |
| `GpCore.CreateAll` | GeneticProgramming/GeneticProgramming/core/gp_core.py:23 | Exactly `count` operands, each well-formed, within the depth bound and over `variables`. |
| `GpCore.Evaluate` | GeneticProgramming/GeneticProgramming/core/gp_core.py:27-47 | A leaf absent from the bindings gives 0, and a bound leaf gives its value. A node's value is at most MAX, and a binary node's lies in [-MAX, MAX]. The only failure is the arity `ValueError`. |
| `GpCore.EvaluateAll` | GeneticProgramming/GeneticProgramming/core/gp_core.py:41 | One value per operand. The only failure is the arity error. |
| `GpCore.EvaluateFailsIffIllFormed` | GeneticProgramming/GeneticProgramming/core/gp_core.py:38-47 | For any bindings, evaluation fails exactly when the tree is not well-formed. |
| `GpCore.EvaluateAllFailsIffIllFormed` | GeneticProgramming/GeneticProgramming/core/gp_core.py:41 | Evaluating the operands fails exactly when one of them is not well-formed. |
| `GpCore.NodeArityMismatch` | GeneticProgramming/GeneticProgramming/core/gp_core.py:43-45 | A node whose operands evaluate but whose count is not its arity raises the error with the expected and actual counts. |
| `GpCore.Bind` | GeneticProgramming/GeneticProgramming/core/gp_core.py:61 | `dict(zip(VARIABLES, inputs))` binds exactly the names of the zipped prefix, which is the shorter of the two lists. |
| `GpCore.BindLastWins` | GeneticProgramming/GeneticProgramming/core/gp_core.py:61 | A name is bound to the input paired with its last occurrence among the zipped names. |
| `GpCore.TotalError` | GeneticProgramming/GeneticProgramming/core/gp_core.py:61-62 | The sum of clamped squared errors is non-negative. The only failure is the arity error. |
| `GpCore.TotalErrorStep` | GeneticProgramming/GeneticProgramming/core/gp_core.py:61-62 | The total is the first row's clamped squared error plus the total over the remaining rows. |
| `GpCore.TotalErrorZeroIff` | GeneticProgramming/GeneticProgramming/core/gp_core.py:61-62 | The total error exists and is zero exactly when every row's prediction equals its output. |
| `GpCore.WellFormedTotalError` | GeneticProgramming/GeneticProgramming/core/gp_core.py:61-62 | A well-formed tree has a total error on every dataset. |
| `GpCore.MeanSquaredError` | GeneticProgramming/GeneticProgramming/core/gp_core.py:61-63 | An empty dataset raises the division by zero. The mean is non-negative, and it exists exactly when there are rows and the total exists. |
| `GpCore.MeanSquaredErrorZeroIff` | GeneticProgramming/GeneticProgramming/core/gp_core.py:61-63 | On a non-empty dataset the mean exists and is zero exactly when every prediction is exact. |
| `GpCore.Deviation` | GeneticProgramming/GeneticProgramming/core/gp_core.py:50-63 | The deviation exists exactly when the mean does, and it is `sqrt` of the mean. Otherwise the mean's error propagates. |
| `GpCore.WellFormedDeviation` | GeneticProgramming/GeneticProgramming/core/gp_core.py:50-63 | A well-formed tree has a deviation on every non-empty dataset. |
| `GpCore.Iota` | GeneticProgramming/GeneticProgramming/core/gp_core.py:78 | `range(n)`: n entries, entry i being i. |
| `GpCore.RemoveAt` | GeneticProgramming/GeneticProgramming/core/gp_core.py:78 | One pool step of `random.sample`. The pool shrinks by one and keeps only its own entries. A pool without repeats stays without them and loses the removed entry. |
| `GpCore.RemoveAtMultiset` | GeneticProgramming/GeneticProgramming/core/gp_core.py:78 | A pool step keeps every other entry: the new pool is the old one less one copy of the picked entry. |
| `GpCore.SampleFrom` | GeneticProgramming/GeneticProgramming/core/gp_core.py:78 | It takes k entries of the pool, without repeats when the pool has none, using k draws. |
| `GpCore.Sample` | GeneticProgramming/GeneticProgramming/core/gp_core.py:78 | `random.sample(range(n), k)`: k distinct indices below n, using k draws (the pool strategy). |
| `GpCore.ArgMin` | GeneticProgramming/GeneticProgramming/core/gp_core.py:79 | `min(..., key=...)`: no sampled index scores lower, and every earlier position scores strictly higher, so the first minimum wins. |
| `GpCore.TournamentSelection` | GeneticProgramming/GeneticProgramming/core/gp_core.py:66-80 | The winner is a member of the population, and the tournament consumes `tournament_size` draws (the pool strategy). |
| `GpCore.TournamentWinner` | GeneticProgramming/GeneticProgramming/core/gp_core.py:78-80 | The winner is `population[i]` for a sampled i whose deviation is at most every sampled deviation. Every sample position before it scores strictly higher. |
| `GpCore.FullTournamentSelectsBest` | GeneticProgramming/GeneticProgramming/core/gp_core.py:78-80 | A tournament as large as the population returns a member of globally least deviation. |
| `GpCore.ValidPoints` | GeneticProgramming/GeneticProgramming/core/gp_core.py:96-97 | The candidate crossover points are exactly the child positions where both parents hold an operator node (0-based). |
| `GpCore.ValidPointsAscending` | GeneticProgramming/GeneticProgramming/core/gp_core.py:96-99 | The candidate points are listed in ascending order, the order `random.choice` indexes when it picks the cut. |
| `GpCore.EitherParent` | GeneticProgramming/GeneticProgramming/core/gp_core.py:94 | `random.choice([parent1, parent2])` returns one of the parents, using one draw. |
| `GpCore.Splice` | GeneticProgramming/GeneticProgramming/core/gp_core.py:100 | `parent1[:k] + parent2[k:]` on the children: as many children as `parent2`, those before the cut from `parent1` and the rest from `parent2`. |
| `GpCore.CutPoint` | GeneticProgramming/GeneticProgramming/core/gp_core.py:99 | The drawn cut is a valid point. |
| `GpCore.Crossover` | GeneticProgramming/GeneticProgramming/core/gp_core.py:83-101 | With a valid point, the child has `parent1`'s operator and exactly `parent2`'s child count, spliced at the drawn cut. Otherwise (a leaf parent, or no valid point) it is one of the parents. It uses one draw. |
| `GpCore.CrossoverWellFormedIff` | GeneticProgramming/GeneticProgramming/core/gp_core.py:95-100 | For well-formed parents, a spliced child is well-formed exactly when the two operators have the same arity. |
| `GpCore.CrossoverDepth` | GeneticProgramming/GeneticProgramming/core/gp_core.py:93-101 | The child is no deeper than the deeper parent. |
| `GpCore.CrossoverHasOperands` | GeneticProgramming/GeneticProgramming/core/gp_core.py:100 | Crossover keeps at least one operand at every node. |
| `GpCore.CrossoverLeafNames` | GeneticProgramming/GeneticProgramming/core/gp_core.py:93-101 | The child's leaf names come from the parents. |
| `GpCore.CrossoverCanBreakArity` | GeneticProgramming/GeneticProgramming/core/gp_core.py:100 | Crossing `exp((x + x))` with `((x + x) + x)` gives an `exp` node with two children, whose evaluation raises the arity error. |
| `GpCore.Mutate` | GeneticProgramming/GeneticProgramming/core/gp_core.py:104-128 | For an input within the depth budget, the result stays within the budget and keeps operands at every node. It uses at least one draw. |
| `GpCore.MutateFresh` | GeneticProgramming/GeneticProgramming/core/gp_core.py:120-122 | Exactly `required_arity` fresh children, each within the budget one level down. |
| `GpCore.MutateAll` | GeneticProgramming/GeneticProgramming/core/gp_core.py:127 | One mutated child per child, each within the budget one level down. |
| `GpCore.MutateShape` | GeneticProgramming/GeneticProgramming/core/gp_core.py:116-128 | A node keeps its operator. A mutated node gets exactly its arity of children, and an unmutated one keeps its child count. An unmutated leaf is returned as it is. |
| `GpCore.MutateWellFormed` | GeneticProgramming/GeneticProgramming/core/gp_core.py:117-125 | Mutation keeps a well-formed tree well-formed, and a mutated root is well-formed whatever it was. |
| `GpCore.MutateFreshWellFormed` | GeneticProgramming/GeneticProgramming/core/gp_core.py:121 | Fresh mutated children are well-formed. |
| `GpCore.MutateAllWellFormed` | GeneticProgramming/GeneticProgramming/core/gp_core.py:127 | Each well-formed child stays well-formed. |
| `GpCore.MutateLeafNames` | GeneticProgramming/GeneticProgramming/core/gp_core.py:116-128 | Mutation adds only names from the variable list. |
| `GpCore.MutateFreshLeafNames` | GeneticProgramming/GeneticProgramming/core/gp_core.py:121 | Fresh children use only names from the variable list. |
| `GpCore.MutateAllLeafNames` | GeneticProgramming/GeneticProgramming/core/gp_core.py:127 | Mutated children use only their own names and the variable list. |
| `GpCore.MutateNoDrawBelowRate` | GeneticProgramming/GeneticProgramming/core/gp_core.py:116-128 | When no draw falls below the rate, mutation returns the tree unchanged. |
| `GpCore.MutateAllNoDrawBelowRate` | GeneticProgramming/GeneticProgramming/core/gp_core.py:126-127 | When no draw falls below the rate, the children come back unchanged. |
| `GpCore.MutateRateZero` | GeneticProgramming/GeneticProgramming/core/gp_core.py:116 | A rate of zero or less never mutates. |
| `Utils.OpSymbol` | GeneticProgramming/GeneticProgramming/configuration/operations.py:51-57 | Every operator key is non-empty and free of parentheses and spaces. |
| `Utils.SymbolOp` | GeneticProgramming/GeneticProgramming/configuration/operations.py:51-57 | Looking a key up gives the operator exactly when the key is that operator's symbol. |
| `Utils.ExprToString` | GeneticProgramming/GeneticProgramming/utilities/utils.py:1-28 | A leaf renders as its name. A node with neither one nor two operands raises `ValueError`. |
| `Utils.RenderedUnary` | GeneticProgramming/GeneticProgramming/utilities/utils.py:20-22 | A one-operand node renders as `op(operand)`, and it renders exactly when its operand does. |
| `Utils.RenderedBinary` | GeneticProgramming/GeneticProgramming/utilities/utils.py:23-26 | A two-operand node renders as `(left op right)`, and it renders exactly when both operands do. |
| `Utils.Prefix` | GeneticProgramming/GeneticProgramming/utilities/utils.py:22 | `f"{operator}({operand})"` has the parts' lengths plus 2, with `(` after the operator and `)` last. |
| `Utils.PrefixParts` | GeneticProgramming/GeneticProgramming/utilities/utils.py:22 | The operator and the operand lie in the prefix rendering as written. |
| `Utils.Infix` | GeneticProgramming/GeneticProgramming/utilities/utils.py:26 | `f"({left} {operator} {right})"` has the parts' lengths plus 4, with its parentheses and the two spaces in place. |
| `Utils.InfixParts` | GeneticProgramming/GeneticProgramming/utilities/utils.py:26 | The operands and the operator lie in the infix rendering as written. |
| `Utils.RenderOkIff` | GeneticProgramming/GeneticProgramming/utilities/utils.py:17-28 | Rendering succeeds exactly on trees whose every node has one or two operands. |
| `Utils.WellFormedRenders` | GeneticProgramming/GeneticProgramming/utilities/utils.py:17-28 | A well-formed tree never raises. |
| `Utils.WellFormedRenderable` | GeneticProgramming/GeneticProgramming/utilities/utils.py:17-28 | A well-formed tree has one or two operands at every node. |
| `Utils.IllFormedRenderings` | GeneticProgramming/GeneticProgramming/utilities/utils.py:20-26 | The shapes a crossover can leave render as `((x + x) exp x)` and `+(x)`. |
| `Utils.ParseRendered` | GeneticProgramming/GeneticProgramming/utilities/utils.py:17-26 | A rendering that occurs inside a text reads back as the same tree, ending where the rendering ends. |
| `Utils.ParseRender` | GeneticProgramming/GeneticProgramming/utilities/utils.py:17-26 | Rendering is injective on trees with delimiter-free names: parsing the rendered text gives back the tree. |
| `Utils.Find` | GeneticProgramming/GeneticProgramming/utilities/utils.py:43 | `s.find(c)`: -1 exactly when c is absent, otherwise an index of c with no c before it. |
| `Utils.RFind` | GeneticProgramming/GeneticProgramming/utilities/utils.py:44 | `s.rfind(c)`: -1 exactly when c is absent, otherwise an index of c with no c after it. |
| `Utils.TrimToParentheses` | GeneticProgramming/GeneticProgramming/utilities/utils.py:31-47 | A text lacking `(` or `)` is returned unchanged. When the first `(` precedes the last `)`, the result is the slice between them, inclusive, starting with `(` and ending with `)`. When the last `)` precedes the first `(`, the result is empty. |
| `Utils.TrimIdempotent` | GeneticProgramming/GeneticProgramming/utilities/utils.py:43-47 | Trimming twice equals trimming once. |
| `Utils.TrimBinaryRendering` | GeneticProgramming/GeneticProgramming/utilities/utils.py:43-47 | The rendering of a two-operand root is already trimmed. |
| `Utils.TrimUnaryRendering` | GeneticProgramming/GeneticProgramming/utilities/utils.py:43-47 | Trimming the rendering of a one-operand root drops the operator name and keeps the parenthesised operand. |
| `GpAlgorithm.InitialPopulation` | GeneticProgramming/GeneticProgramming/core/gp_algorithm.py:22 | The initial population has exactly `population_size` members. All are well-formed, within the depth bound and over the variables. |
| `GpAlgorithm.Fitness` | GeneticProgramming/GeneticProgramming/core/gp_algorithm.py:26 | The scores exist exactly when every member has a deviation. There is one score per member, and each is that member's deviation. |
| `GpAlgorithm.EmptyDataFitness` | GeneticProgramming/GeneticProgramming/core/gp_algorithm.py:26 | With no data rows a non-empty population cannot be scored: the mean divides by zero. |
| `GpAlgorithm.Insert` | GeneticProgramming/GeneticProgramming/core/gp_algorithm.py:27 | Inserting an index adds exactly that index to the order, which stays within range. |
| `GpAlgorithm.InsertAscending` | GeneticProgramming/GeneticProgramming/core/gp_algorithm.py:27 | Inserting a new index into a stable ascending order keeps it ascending. |
| `GpAlgorithm.SortOrder` | GeneticProgramming/GeneticProgramming/core/gp_algorithm.py:27 | The sort gives n indices, all below n, and they are exactly 0 .. n-1, each once (a permutation). |
| `GpAlgorithm.SortOrderSorts` | GeneticProgramming/GeneticProgramming/core/gp_algorithm.py:27 | `sorted(..., key=score)` is a permutation of the indices 0 .. n-1 in stable ascending order: a smaller score first, and equal scores in original order. |
| `GpAlgorithm.Ranked` | GeneticProgramming/GeneticProgramming/core/gp_algorithm.py:27 | The k-th ranked member is the member at the k-th sorted index. |
| `GpAlgorithm.CandidateCountFloor` | GeneticProgramming/GeneticProgramming/core/gp_algorithm.py:29-30 | `int(percent * population_size / 100)` is the floor of the non-negative quotient. |
| `GpAlgorithm.CandidateCount` | GeneticProgramming/GeneticProgramming/core/gp_algorithm.py:29-30 | `int(percent * population_size / 100)`: the count times 100 is at most the product and more than the product minus 100, the floor of the quotient (with the product spelled out as `Scaled`; `CandidateCountFloor` restates it as `percent * size / 100`). |
| `GpAlgorithm.Take` | GeneticProgramming/GeneticProgramming/core/gp_algorithm.py:29 | `s[:count]`: the first `min(count, len(s))` entries. |
| `GpAlgorithm.PyTail` | GeneticProgramming/GeneticProgramming/core/gp_algorithm.py:30 | `s[-count:]` is the last `count` entries. It is all of s when count is 0 (the `[-0:]` slice) or exceeds the length. |
| `GpAlgorithm.SurvivorCounts` | GeneticProgramming/GeneticProgramming/core/gp_algorithm.py:29-30 | The elites number `min(best, size)`. The worst share is the requested count, or everything when that count is 0 or too large. |
| `GpAlgorithm.EliteCount` | GeneticProgramming/GeneticProgramming/core/gp_algorithm.py:29 | The length of `sorted_population[:best]`: at most both the requested count and the size, and equal to one of them. |
| `GpAlgorithm.WorstCount` | GeneticProgramming/GeneticProgramming/core/gp_algorithm.py:30 | The length of `sorted_population[-worst:]`: at most the size, the whole population for a count of 0, the count itself when it is positive and within the size, and fewer than all only in that case. |
| `GpAlgorithm.Shortfall` | GeneticProgramming/GeneticProgramming/core/gp_algorithm.py:33-38 | The number of passes of the `while` loop: appending that many children reaches the target, and when any are appended the list ends exactly at the target. |
| `GpAlgorithm.NextSize` | GeneticProgramming/GeneticProgramming/core/gp_algorithm.py:32-41 | `len(new_population)`: never below `population_size`, and never below the elites plus the worst share. |
| `GpAlgorithm.SurvivorScores` | GeneticProgramming/GeneticProgramming/core/gp_algorithm.py:27-30 | Every elite scores no worse than every member left out of the elites. Every member of the worst share scores no better than every member left out of it. |
| `GpAlgorithm.NextSizeAtLeast` | GeneticProgramming/GeneticProgramming/core/gp_algorithm.py:32-41 | A new population is never smaller than `population_size`. |
| `GpAlgorithm.NextSizeExact` | GeneticProgramming/GeneticProgramming/core/gp_algorithm.py:32-41 | With a worst count of at least 1 and elites plus worst within `population_size`, the new population has exactly `population_size` members. |
| `GpAlgorithm.NextSizeIff` | GeneticProgramming/GeneticProgramming/core/gp_algorithm.py:29-41 | From a population of at least `population_size`, the new one has exactly `population_size` members if and only if the elites and the worst share together fit within it; otherwise it is larger. |
| `GpAlgorithm.ZeroWorstShareGrows` | GeneticProgramming/GeneticProgramming/core/gp_algorithm.py:30-40 | With a worst count of 0 the worst share is the whole population. The new population then has `size + elites` members, more than `population_size` when there is an elite. |
| `GpAlgorithm.TournamentFits` | GeneticProgramming/GeneticProgramming/core/gp_algorithm.py:34-35 | Parents are drawn from the previous generation's population. |
| `GpAlgorithm.BreedOne` | GeneticProgramming/GeneticProgramming/core/gp_algorithm.py:34-37 | A bred child stays within the depth bound, has operands everywhere and uses only the variables. It consumes draws. |
| `GpAlgorithm.Breed` | GeneticProgramming/GeneticProgramming/core/gp_algorithm.py:33-38 | Exactly `count` children, all fitting, bred one after another from the previous population. |
| `GpAlgorithm.NextPopulation` | GeneticProgramming/GeneticProgramming/core/gp_algorithm.py:27-40 | The new population has `NextSize` members, at least `population_size`, and all of them fit. |
| `GpAlgorithm.NextPopulationParts` | GeneticProgramming/GeneticProgramming/core/gp_algorithm.py:32-40 | The new population is the elites, then exactly the shortfall of bred children, then the worst share. The draw position is the one after breeding. |
| `GpAlgorithm.NextPopulationSurvivors` | GeneticProgramming/GeneticProgramming/core/gp_algorithm.py:27-40 | The first `elite count` members are the first members of the stable sort, in order. The last `worst count` members are the last members of the sort, in order. |
| `GpAlgorithm.AllFitSurvivors` | GeneticProgramming/GeneticProgramming/core/gp_algorithm.py:29-30 | The best and worst slices of a population that fits also fit: every member of either slice comes from the population. |
| `GpAlgorithm.Refill` | GeneticProgramming/GeneticProgramming/core/gp_algorithm.py:32-40 | From the two slices on, the new population starts with the elites, ends with the worst share, and holds exactly the shortfall of children between them. It fits whenever both slices fit. |
| `GpAlgorithm.NextPopulationRefill` | GeneticProgramming/GeneticProgramming/core/gp_algorithm.py:27-40 | After the sort and the two slices, the next population is what lines 32-40 make of those slices. |
| `GpAlgorithm.RefillBreeds` | GeneticProgramming/GeneticProgramming/core/gp_algorithm.py:33-40 | The children between the slices are exactly those bred for the shortfall below `population_size` minus the worst share, and the draw position is the one after the last of them. |
| `GpAlgorithm.NextPopulationBuilt` | GeneticProgramming/GeneticProgramming/core/gp_algorithm.py:27-40 | The sorted, sliced and bred parts, concatenated in the source's order, are the next population and its draw position. |
| `GpAlgorithm.BreedAdvance` | GeneticProgramming/GeneticProgramming/core/gp_algorithm.py:33-38 | One pass of the `while` loop keeps its invariant: the children so far followed by what remains to breed are the full bred list. |
| `GpAlgorithm.BestIndex` | GeneticProgramming/GeneticProgramming/core/gp_algorithm.py:43 | `min(population, key=deviation)`: a member of least score, the first such. |
| `GpAlgorithm.Step` | GeneticProgramming/GeneticProgramming/core/gp_algorithm.py:26-45 | One generation. It fails with EmptyDataset on no data, and with the scoring's own error when scoring fails. On success the population has `NextSize` fitting members, and the recorded deviation is the recorded member's deviation. |
| `GpAlgorithm.StepBest` | GeneticProgramming/GeneticProgramming/core/gp_algorithm.py:43-44 | The recorded member belongs to the new population, and its deviation is at most every member's deviation. |
| `GpAlgorithm.StepFirstFails` | GeneticProgramming/GeneticProgramming/core/gp_algorithm.py:26 | A failing first scoring fails the generation with its error. |
| `GpAlgorithm.StepSecondFails` | GeneticProgramming/GeneticProgramming/core/gp_algorithm.py:43 | A failing scoring of the new population fails the generation with its error. |
| `GpAlgorithm.StepSucceeds` | GeneticProgramming/GeneticProgramming/core/gp_algorithm.py:26-45 | When both scorings succeed, the generation is the new population with its first least-deviation member and that member's deviation. |
| `GpAlgorithm.RunFrom` | GeneticProgramming/GeneticProgramming/core/gp_algorithm.py:25-45 | A run that succeeds ends with exactly `generations` records, and every record is scored. When there are generations left, no data means EmptyDataset. |
| `GpAlgorithm.RunFromKeeps` | GeneticProgramming/GeneticProgramming/core/gp_algorithm.py:23-45 | A run that succeeds begins with the records made before it, in order: `best_solutions` is only ever appended to. |
| `GpAlgorithm.RunAll` | GeneticProgramming/GeneticProgramming/core/gp_algorithm.py:6-47 | The result has exactly `populations_amount` entries, and each recorded deviation is its expression's deviation. With generations and no data, the run fails with EmptyDataset. |
| `GpAlgorithm.RunFromStops` | GeneticProgramming/GeneticProgramming/core/gp_algorithm.py:25-45 | A generation that fails ends the run with its failure. |
| `GpAlgorithm.RunFromStep` | GeneticProgramming/GeneticProgramming/core/gp_algorithm.py:41-45 | A successful generation continues the run from its population and draw position, with its best member appended and one generation fewer. |
| `GpAlgorithm.RunFromAdvance` | GeneticProgramming/GeneticProgramming/core/gp_algorithm.py:41-45 | The outcome of the whole run is unchanged by one successful generation of the loop. |
| `GpAlgorithm.RunStarts` | GeneticProgramming/GeneticProgramming/core/gp_algorithm.py:22-25 | Before the first generation, the whole run's outcome is what remains from the initial population with no records, and that population fits. |
| `GpAlgorithm.RunContinues` | GeneticProgramming/GeneticProgramming/core/gp_algorithm.py:25-45 | One pass of the `for` loop: a failed generation is the whole run's failure, and a successful one leaves the rest of the outcome to the next population, draw position and records (the best member appended). |
| `GpAlgorithm.RunFinished` | GeneticProgramming/GeneticProgramming/core/gp_algorithm.py:25-47 | Once all `populations_amount` generations are recorded, the run returns exactly the records made. |
| `GpAlgorithm.Advance` | GeneticProgramming/GeneticProgramming/core/gp_algorithm.py:25-45 | One pass of the loop body, as a method: its failure is the run's failure, and its success keeps the loop invariant for the next pass. |
| `GpAlgorithm.BreedChild` | GeneticProgramming/GeneticProgramming/core/gp_algorithm.py:34-37 | The loop body's two tournaments, crossover and mutation compute `BreedOne`. |
| `GpAlgorithm.BreedInto` | GeneticProgramming/GeneticProgramming/core/gp_algorithm.py:33-38 | The `while` loop leaves the start list followed by exactly the shortfall of bred children, and the draw position after them. |
| `GpAlgorithm.BuildNextPopulation` | GeneticProgramming/GeneticProgramming/core/gp_algorithm.py:27-40 | The imperative sort, slice, breed and extend build exactly `NextPopulation`. |
| `GpAlgorithm.NextGeneration` | GeneticProgramming/GeneticProgramming/core/gp_algorithm.py:26-44 | One pass of the loop body computes exactly `Step`'s outcome, error included. |
| `GpAlgorithm.RunAlgorithm` | GeneticProgramming/GeneticProgramming/core/gp_algorithm.py:6-47 | The imperative `run_algorithm` returns exactly `RunAll`'s result, failures included. |

## Left out

- Floating point: the primitives compute over the reals. IEEE-754 rounding, infinities, NaN and the `OverflowError` branches of `operations.py` are not modelled; MAX is the exact value of `sys.float_info.max`.
- `math.exp` and `np.sqrt` are parameters (`MathLib`); every property holds for any choice of them.
- `Operations.SafeSqr`: the test `abs(x) > sqrt(MAX)` is stated as `x * x > MAX`, which is the same test over the reals but not over doubles.
- The `random` module is a stream of draws. `random.choice` takes index `floor(u * n)`, and `random.choices` bisects the cumulative weights as CPython does. `random.sample` follows CPython's pool strategy only; the set-based strategy CPython uses for small samples of large populations is not modelled. The example configuration (`population_size` 50, `tournament_size` 5) already falls under the set strategy, because 50 exceeds CPython's set size of 21 for k = 5. Under that strategy the sampled indices are still distinct and the first minimum still wins, but a tournament may consume more than `tournament_size` draws, since repeated indices are drawn again. Distributions, seeding and statistical outcomes (convergence) are not modelled.
- `configuration/config.py` is not part of this model: `GA_PARAMETERS`, `DATA` and `VARIABLES` are parameters. The percentages `best_candidates` and `worst_candidates` are whole numbers.
- `GpAlgorithm.RunAlgorithm` requires a valid configuration (`ValidConfig`): a tournament size between 1 and `population_size`, a `max_depth` of at least 1, and at least one variable. This is the documented configuration domain. Outside it the source does not always fail. A tournament larger than the population raises in `random.sample` only when a child is bred, and shares that already fill `population_size` breed none. A `max_depth` of 0 or less does not make the run fail: `create_expression` never reaches its depth-1 leaf case, but with variables it still returns a leaf on each draw above 0.5, so its trees end almost surely and only lose the depth bound. An empty variable list raises once `create_expression` runs: `random.choice([])` fails at depth 1, and below depth 1 the recursion never stops. Runs outside the domain, failing or not, are not modelled.
- `GpCore.Create`: requires `max_depth >= 1` and a non-empty variable list. With a `max_depth` of 0 or less the source's `create_expression` skips the depth-1 leaf case, so its trees have no depth bound, though they still end almost surely through the 0.5 leaf draw; such unbounded trees are not modelled. With no variables `random.choice([])` raises at depth 1, and below depth 1 the recursion never ends.
- `GpCore.Mutate`: requires `depth + Depth(e) <= max_depth` and an operand at every node. Under that bound every `create_expression` call inside `mutate` gets a budget of at least 1; deeper inputs are not modelled.
- A `KeyError` for an operator missing from the table cannot arise: operators are the `Op` enumeration.
- Leaves are variable names. The source's `str(expression)` on non-string, non-list values (numeric constants) is not modelled.
- `__main__.py`, `visualization/visualization.py`, `utilities/coordinates_converter.py` and `utilities/gaussian_generator.py` are not part of this model: they are plotting, printing, sympy simplification and float conversions.
