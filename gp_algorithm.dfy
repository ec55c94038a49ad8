/**
 * The generational loop of `run_algorithm`: score every member, sort by
 * deviation, keep a share of the best and of the worst, breed the rest by
 * tournament, crossover and mutation, and record the best member of each new
 * population.
 */
module GpAlgorithm {
  import opened Wrappers
  import opened Oracle
  import opened Operations
  import opened Expression
  import opened GpCore

  /** The run parameters `GA_PARAMETERS` holds. */
  datatype Config = Config(
    populationSize: nat,
    populationsAmount: nat,
    tournamentSize: nat,
    maxDepth: nat,
    mutationRate: real,
    bestCandidates: nat,
    worstCandidates: nat)

  /** What the run needs before it can start: a population to sample from and trees to build. */
  predicate ValidConfig(cfg: Config, vars: seq<string>) {
    1 <= cfg.tournamentSize <= cfg.populationSize && cfg.maxDepth >= 1 && |vars| > 0
  }

  /** A member the operators may be applied to: within the depth bound, with operands everywhere, over the variables. */
  predicate Fits(e: Expr, cfg: Config, vars: seq<string>) {
    Depth(e) <= cfg.maxDepth && HasOperands(e) && LeafNames(e) <= NameSet(vars)
  }

  predicate AllFit(population: seq<Expr>, cfg: Config, vars: seq<string>) {
    forall e :: e in population ==> Fits(e, cfg, vars)
  }

  lemma AllFitConcat(a: seq<Expr>, b: seq<Expr>, cfg: Config, vars: seq<string>)
    requires AllFit(a, cfg, vars) && AllFit(b, cfg, vars)
    ensures AllFit(a + b, cfg, vars)
  {
  }

  function Min(a: int, b: int): int {
    if a <= b then a else b
  }

  function Max(a: int, b: int): int {
    if a <= b then b else a
  }

  // ---------------------------------------------------------------------------
  // Initial population and scores
  // ---------------------------------------------------------------------------

  /** `[create_expression(max_depth, ops, VARIABLES) for _ in range(population_size)]`. */
  function InitialPopulation(cfg: Config, vars: seq<string>, rng: Rng): (r: Drawn<seq<Expr>>)
    requires ValidConfig(cfg, vars)
    ensures |r.value| == cfg.populationSize
    ensures AllFit(r.value, cfg, vars)
    ensures forall i :: 0 <= i < |r.value| ==> WellFormed(r.value[i])
  {
    var created := CreateAll(cfg.populationSize, cfg.maxDepth, vars, rng, 0);
    forall i | 0 <= i < |created.value| ensures HasOperands(created.value[i]) {
      WellFormedHasOperands(created.value[i]);
    }
    created
  }

  /** `d` is the deviation of `e` on the data. */
  predicate Scores(e: Expr, vars: seq<string>, data: seq<Row>, m: MathLib, d: real) {
    Deviation(e, vars, data, m).Ok? && Deviation(e, vars, data, m).value == d
  }

  /** `[deviation(ind, DATA) for ind in population]`, failing on the first member that fails. */
  function Fitness(population: seq<Expr>, vars: seq<string>, data: seq<Row>, m: MathLib): (r: Result<seq<real>, Error>)
    ensures r.Ok? <==> forall i :: 0 <= i < |population| ==> Deviation(population[i], vars, data, m).Ok?
    ensures r.Ok? ==> |r.value| == |population|
    ensures r.Ok? ==> forall i :: 0 <= i < |population| ==> Scores(population[i], vars, data, m, r.value[i])
  {
    if |population| == 0 then Ok([])
    else
      var first :- Deviation(population[0], vars, data, m);
      var rest :- Fitness(population[1..], vars, data, m);
      assert forall i :: 1 <= i < |population| ==> population[i] == population[1..][i - 1];
      Ok([first] + rest)
  }

  /** With no data rows a non-empty population cannot be scored: the mean divides by zero. */
  lemma EmptyDataFitness(population: seq<Expr>, vars: seq<string>, data: seq<Row>, m: MathLib)
    ensures |population| > 0 && |data| == 0 ==>
              Fitness(population, vars, data, m).Err? && Fitness(population, vars, data, m).error == EmptyDataset
  {
    if |population| > 0 && |data| == 0 {
      assert MeanSquaredError(population[0], vars, data, m).Err?;
    }
  }

  // ---------------------------------------------------------------------------
  // Stable ascending order by deviation
  // ---------------------------------------------------------------------------

  /** Index `a` comes before `b` in a stable ascending sort of `scores`: smaller score, or equal score and earlier. */
  predicate Precedes(scores: seq<real>, a: nat, b: nat) {
    a < |scores| && b < |scores| && (scores[a] < scores[b] || (scores[a] == scores[b] && a < b))
  }

  predicate InRange(order: seq<nat>, n: nat) {
    forall k :: 0 <= k < |order| ==> order[k] < n
  }

  /** Every earlier position of `order` precedes every later one. */
  predicate Ascending(scores: seq<real>, order: seq<nat>) {
    forall p, q :: 0 <= p < q < |order| ==> Precedes(scores, order[p], order[q])
  }

  /** Places index `j` into an ascending order of indices below `n`. */
  function Insert(scores: seq<real>, order: seq<nat>, j: nat, n: nat): (r: seq<nat>)
    requires n <= |scores| && InRange(order, n) && j < n
    ensures |r| == |order| + 1
    ensures multiset(r) == multiset(order) + multiset{j}
    ensures InRange(r, n)
  {
    if |order| == 0 then [j]
    else if Precedes(scores, j, order[0]) then [j] + order
    else
      assert order == [order[0]] + order[1..];
      [order[0]] + Insert(scores, order[1..], j, n)
  }

  lemma {:induction false} InsertAscending(scores: seq<real>, order: seq<nat>, j: nat, n: nat)
    requires n <= |scores| && InRange(order, n) && j < n
    requires Ascending(scores, order) && j !in order
    ensures Ascending(scores, Insert(scores, order, j, n))
  {
    if |order| == 0 {
    } else if Precedes(scores, j, order[0]) {
      AscendingFront(scores, order, j);
    } else {
      var tail := order[1..];
      assert j !in tail by {
        assert forall x :: x in tail ==> x in order;
      }
      InsertAscending(scores, tail, j, n);
      AscendingBehind(scores, order, j, Insert(scores, tail, j, n));
    }
  }

  /** An index that precedes the first of an ascending order may go in front of it. */
  lemma AscendingFront(scores: seq<real>, order: seq<nat>, j: nat)
    requires |order| > 0 && Ascending(scores, order) && Precedes(scores, j, order[0])
    ensures Ascending(scores, [j] + order)
  {
    var r := [j] + order;
    forall p, q | 0 <= p < q < |r| ensures Precedes(scores, r[p], r[q]) {
      if p == 0 && q > 1 {
        assert Precedes(scores, order[0], order[q - 1]);
      }
    }
  }

  /** The first of an ascending order may go in front of its other entries with `j` placed among them. */
  lemma AscendingBehind(scores: seq<real>, order: seq<nat>, j: nat, rest: seq<nat>)
    requires |order| > 0 && Ascending(scores, order) && Ascending(scores, rest)
    requires order[0] < |scores| && j < |scores| && j != order[0] && !Precedes(scores, j, order[0])
    requires multiset(rest) == multiset(order[1..]) + multiset{j}
    ensures Ascending(scores, [order[0]] + rest)
  {
    var tail := order[1..];
    forall q | 0 <= q < |rest| ensures Precedes(scores, order[0], rest[q]) {
      assert rest[q] in multiset(rest);
      if rest[q] != j {
        assert rest[q] in multiset(tail);
        var k :| 0 <= k < |tail| && tail[k] == rest[q];
        assert order[k + 1] == rest[q];
      }
    }
    var r := [order[0]] + rest;
    forall p, q | 0 <= p < q < |r| ensures Precedes(scores, r[p], r[q]) {
      assert r[q] == rest[q - 1];
      if p > 0 {
        assert r[p] == rest[p - 1];
      }
    }
  }

  /**
   * `sorted(zip(population, fitness_scores), key=lambda x: x[1])` as the
   * order of the indices `0 .. n-1`: Python's sort is stable, so ties keep
   * their index order.
   */
  function SortOrder(scores: seq<real>, n: nat): (r: seq<nat>)
    requires n <= |scores|
    ensures |r| == n && InRange(r, n)
    ensures multiset(r) == multiset(Iota(n))
    decreases n
  {
    if n == 0 then [] else IotaGrows(n); Insert(scores, SortOrder(scores, n - 1), n - 1, n)
  }

  /** The sort is a permutation of the indices `0 .. n-1` in stable ascending order of score. */
  lemma SortOrderSorts(scores: seq<real>, n: nat)
    requires n <= |scores|
    ensures multiset(SortOrder(scores, n)) == multiset(Iota(n))
    ensures Ascending(scores, SortOrder(scores, n))
    ensures forall i :: 0 <= i < n ==> i in SortOrder(scores, n)
  {
    SortOrderAscending(scores, n);
    var r := SortOrder(scores, n);
    forall i | 0 <= i < n ensures i in r {
      assert Iota(n)[i] == i;
      assert i in multiset(Iota(n));
    }
  }

  lemma IotaGrows(n: nat)
    requires n > 0
    ensures multiset(Iota(n)) == multiset(Iota(n - 1)) + multiset{(n - 1) as nat}
  {
    assert Iota(n) == Iota(n - 1) + [n - 1];
  }

  lemma {:induction false} SortOrderAscending(scores: seq<real>, n: nat)
    requires n <= |scores|
    ensures Ascending(scores, SortOrder(scores, n))
  {
    if n > 0 {
      var prev := SortOrder(scores, n - 1);
      SortOrderAscending(scores, n - 1);
      assert n - 1 !in prev;
      InsertAscending(scores, prev, n - 1, n);
    }
  }

  /** The members in sorted order. */
  function Ranked(population: seq<Expr>, order: seq<nat>): (r: seq<Expr>)
    requires InRange(order, |population|)
    ensures |r| == |order|
    ensures forall k {:trigger r[k]} :: 0 <= k < |order| ==> r[k] == population[order[k]]
  {
    if |order| == 0 then [] else [population[order[0]]] + Ranked(population, order[1..])
  }

  // ---------------------------------------------------------------------------
  // Elites and the worst share
  // ---------------------------------------------------------------------------

  /** `percent * size`, by repeated addition. */
  function Scaled(percent: nat, size: nat): nat {
    if size == 0 then 0 else percent + Scaled(percent, size - 1)
  }

  /** `x // 100`, by repeated subtraction. */
  function Hundredths(x: nat): nat {
    if x < 100 then 0 else 1 + Hundredths(x - 100)
  }

  /**
   * `int(percent * population_size / 100)`. The products and quotients are
   * spelled out recursively so that they do not bring nonlinear arithmetic
   * into every proof about a generation; `CandidateCountFloor` states the
   * value.
   */
  function CandidateCount(percent: nat, size: nat): (r: nat)
    ensures r * 100 <= Scaled(percent, size) < r * 100 + 100
  {
    HundredthsFloor(Scaled(percent, size));
    Hundredths(Scaled(percent, size))
  }

  lemma {:induction false} ScaledProduct(percent: nat, size: nat)
    ensures Scaled(percent, size) == percent * size
  {
    if size > 0 {
      ScaledProduct(percent, size - 1);
      assert percent * size == percent + percent * (size - 1);
    }
  }

  lemma {:induction false} HundredthsFloor(x: nat)
    ensures Hundredths(x) * 100 <= x < (Hundredths(x) + 1) * 100
    decreases x
  {
    if x >= 100 {
      HundredthsFloor(x - 100);
    }
  }

  /** The count is the floor of `percent` percent of `size`: the truncation of `int()` on a non-negative quotient. */
  lemma CandidateCountFloor(percent: nat, size: nat)
    ensures CandidateCount(percent, size) * 100 <= percent * size < (CandidateCount(percent, size) + 1) * 100
    ensures CandidateCount(percent, size) == percent * size / 100
  {
    ScaledProduct(percent, size);
    HundredthsFloor(percent * size);
  }

  /** `s[:count]`. */
  function Take<T>(s: seq<T>, count: nat): (r: seq<T>)
    ensures |r| == Min(count, |s|)
    ensures forall k {:trigger r[k]} :: 0 <= k < |r| ==> r[k] == s[k]
  {
    if count <= |s| then s[..count] else s
  }

  /** `s[-count:]`: the last `count` entries, all of `s` when `count` exceeds it, and all of `s` when `count` is 0. */
  function PyTail<T>(s: seq<T>, count: nat): (r: seq<T>)
    ensures count == 0 ==> r == s
    ensures 0 < count <= |s| ==> |r| == count
    ensures count > |s| ==> r == s
    ensures |r| <= |s|
    ensures forall k :: 0 <= k < |r| ==> r[k] == s[|s| - |r| + k]
  {
    if count == 0 || count > |s| then s else s[|s| - count..]
  }

  /** The number of elites kept from a sorted population of `size` members: the length of `s[:best]`. */
  function EliteCount(best: nat, size: nat): (r: nat)
    ensures r <= best && r <= size
    ensures r == best || r == size
  {
    Min(best, size)
  }

  /**
   * The number of worst members kept: the length of `s[-worst:]`, which is
   * the requested count, or everything when that count is 0 or too large.
   */
  function WorstCount(worst: nat, size: nat): (r: nat)
    ensures r <= size
    ensures worst == 0 ==> r == size
    ensures 0 < worst <= size ==> r == worst
    ensures r < size ==> r == worst
  {
    if worst == 0 || worst > size then size else worst
  }

  /**
   * How many children the `while` loop of lines 33-38 appends to a list of
   * `size` members: it stops at the first length that reaches `target`.
   */
  function Shortfall(size: nat, target: int): (r: nat)
    ensures size + r >= target
    ensures r > 0 ==> size + r == target
  {
    if size < target then target - size else 0
  }

  /** The size of the population built from one of `size` members. */
  function NextSize(cfg: Config, best: nat, worst: nat, size: nat): (r: nat)
    ensures r >= cfg.populationSize
    ensures r >= EliteCount(best, size) + WorstCount(worst, size)
  {
    EliteCount(best, size) + Shortfall(EliteCount(best, size), cfg.populationSize - WorstCount(worst, size)) + WorstCount(worst, size)
  }

  lemma AllFitSurvivors(ranked: seq<Expr>, cfg: Config, vars: seq<string>, best: nat, worst: nat)
    requires AllFit(ranked, cfg, vars)
    ensures AllFit(Take(ranked, best), cfg, vars)
    ensures AllFit(PyTail(ranked, worst), cfg, vars)
  {
    var t := Take(ranked, best);
    forall e | e in t ensures e in ranked {
      var k :| 0 <= k < |t| && t[k] == e;
      assert t[k] == ranked[k];
    }
    forall e | e in PyTail(ranked, worst) ensures e in ranked {
      var k :| 0 <= k < |PyTail(ranked, worst)| && PyTail(ranked, worst)[k] == e;
      assert PyTail(ranked, worst)[k] == ranked[|ranked| - |PyTail(ranked, worst)| + k];
    }
  }

  /** The elites are the first members of the sorted population, the worst share its last. */
  lemma SurvivorCounts(ranked: seq<Expr>, best: nat, worst: nat)
    ensures |Take(ranked, best)| == EliteCount(best, |ranked|)
    ensures |PyTail(ranked, worst)| == WorstCount(worst, |ranked|)
  {
  }

  /** A new population is never smaller than `population_size`. */
  lemma NextSizeAtLeast(cfg: Config, best: nat, worst: nat, size: nat)
    ensures NextSize(cfg, best, worst, size) >= cfg.populationSize
  {
  }

  /**
   * With a positive worst share and the two shares together within the
   * population, a population of at least `population_size` members is
   * replaced by one of exactly `population_size`.
   */
  lemma NextSizeExact(cfg: Config, best: nat, worst: nat, size: nat)
    requires worst >= 1 && best + worst <= cfg.populationSize <= size
    ensures NextSize(cfg, best, worst, size) == cfg.populationSize
  {
  }

  /**
   * From a population of at least `population_size` members, the new one has
   * exactly `population_size` members when the elites and the worst share fit
   * within it together, and more otherwise.
   */
  lemma NextSizeIff(cfg: Config, best: nat, worst: nat, size: nat)
    requires size >= cfg.populationSize
    ensures NextSize(cfg, best, worst, size) == cfg.populationSize <==>
            EliteCount(best, size) + WorstCount(worst, size) <= cfg.populationSize
    ensures NextSize(cfg, best, worst, size) != cfg.populationSize ==> NextSize(cfg, best, worst, size) > cfg.populationSize
  {
  }

  /**
   * When the worst share rounds down to 0, `sorted_population[-0:]` is the
   * whole sorted population, so every member survives and the elites are
   * kept a second time: the population grows by the elite count.
   */
  lemma ZeroWorstShareGrows(cfg: Config, best: nat, size: nat)
    requires size >= cfg.populationSize
    ensures NextSize(cfg, best, 0, size) == size + EliteCount(best, size)
    ensures best >= 1 && size >= 1 ==> NextSize(cfg, best, 0, size) > cfg.populationSize
  {
  }

  // ---------------------------------------------------------------------------
  // Breeding
  // ---------------------------------------------------------------------------

  /** Lines 34-37: two tournaments over the previous population, a crossover of the winners, then a mutation from depth 0. */
  function BreedOne(population: seq<Expr>, fitness: seq<real>, cfg: Config, vars: seq<string>, rng: Rng, pos: nat): (r: Drawn<Expr>)
    requires ValidConfig(cfg, vars)
    requires cfg.tournamentSize <= |population| <= |fitness| && AllFit(population, cfg, vars)
    ensures Fits(r.value, cfg, vars)
    ensures r.next > pos
  {
    var parent1 := TournamentSelection(population, fitness, cfg.tournamentSize, rng, pos);
    var parent2 := TournamentSelection(population, fitness, cfg.tournamentSize, rng, parent1.next);
    TournamentFits(population, fitness, cfg, vars, rng, pos);
    TournamentFits(population, fitness, cfg, vars, rng, parent1.next);
    var child := Crossover(parent1.value, parent2.value, rng, parent2.next);
    CrossoverDepth(parent1.value, parent2.value, rng, parent2.next);
    CrossoverHasOperands(parent1.value, parent2.value, rng, parent2.next);
    CrossoverLeafNames(parent1.value, parent2.value, rng, parent2.next);
    var mutated := Mutate(child.value, cfg.maxDepth, cfg.mutationRate, 0, vars, rng, child.next);
    MutateLeafNames(child.value, cfg.maxDepth, cfg.mutationRate, 0, vars, rng, child.next);
    mutated
  }

  /** A tournament winner is a member of the population it was held in. */
  lemma TournamentFits(population: seq<Expr>, fitness: seq<real>, cfg: Config, vars: seq<string>, rng: Rng, pos: nat)
    requires 1 <= cfg.tournamentSize <= |population| <= |fitness| && AllFit(population, cfg, vars)
    ensures TournamentSelection(population, fitness, cfg.tournamentSize, rng, pos).value in population
    ensures Fits(TournamentSelection(population, fitness, cfg.tournamentSize, rng, pos).value, cfg, vars)
  {
  }

  /** `count` children bred one after the other, parents always drawn from `population`. */
  function Breed(population: seq<Expr>, fitness: seq<real>, cfg: Config, vars: seq<string>, rng: Rng,
                 count: nat, pos: nat): (r: Drawn<seq<Expr>>)
    requires ValidConfig(cfg, vars)
    requires cfg.tournamentSize <= |population| <= |fitness| && AllFit(population, cfg, vars)
    ensures |r.value| == count
    ensures AllFit(r.value, cfg, vars)
    ensures r.next >= pos
    decreases count
  {
    if count == 0 then Drawn([], pos)
    else
      var child := BreedOne(population, fitness, cfg, vars, rng, pos);
      var rest := Breed(population, fitness, cfg, vars, rng, count - 1, child.next);
      AllFitConcat([child.value], rest.value, cfg, vars);
      Drawn([child.value] + rest.value, rest.next)
  }

  /** Once the list has reached its target no children remain to be bred. */
  lemma ShortfallMet(size: nat, added: nat, remaining: nat, target: int)
    requires added + remaining == Shortfall(size, target) && size + added >= target
    ensures remaining == 0
  {
  }


  // ---------------------------------------------------------------------------
  // One generation
  // ---------------------------------------------------------------------------

  /**
   * Lines 27-40: sort by deviation, keep the elites, breed until
   * `population_size` minus the worst share, then append the worst share.
   */
  function NextPopulation(population: seq<Expr>, fitness: seq<real>, cfg: Config, bestCount: nat, worstCount: nat,
                          vars: seq<string>, rng: Rng, pos: nat): (r: Drawn<seq<Expr>>)
    requires ValidConfig(cfg, vars)
    requires |population| >= cfg.populationSize && |fitness| == |population| && AllFit(population, cfg, vars)
    ensures |r.value| == NextSize(cfg, bestCount, worstCount, |population|) >= cfg.populationSize
    ensures AllFit(r.value, cfg, vars)
  {
    var order := SortOrder(fitness, |population|);
    var ranked := Ranked(population, order);
    RankedFits(population, order, cfg, vars);
    var elites := Take(ranked, bestCount);
    var worst := PyTail(ranked, worstCount);
    SurvivorCounts(ranked, bestCount, worstCount);
    AllFitSurvivors(ranked, cfg, vars, bestCount, worstCount);
    Refill(population, fitness, cfg, vars, rng, pos, elites, worst)
  }

  /** Lines 33-40 from the slices on: the elites, children bred up to `population_size` minus the worst share, the worst share. */
  function Refill(population: seq<Expr>, fitness: seq<real>, cfg: Config, vars: seq<string>, rng: Rng, pos: nat,
                  elites: seq<Expr>, worst: seq<Expr>): (r: Drawn<seq<Expr>>)
    requires ValidConfig(cfg, vars)
    requires |population| >= cfg.populationSize && |fitness| == |population| && AllFit(population, cfg, vars)
    ensures |r.value| == |elites| + Shortfall(|elites|, cfg.populationSize - |worst|) + |worst|
    ensures r.value[..|elites|] == elites && r.value[|r.value| - |worst|..] == worst
    ensures AllFit(elites, cfg, vars) && AllFit(worst, cfg, vars) ==> AllFit(r.value, cfg, vars)
  {
    var bred := Breed(population, fitness, cfg, vars, rng, Shortfall(|elites|, cfg.populationSize - |worst|), pos);
    assert (elites + bred.value + worst)[..|elites|] == elites;
    Drawn(elites + bred.value + worst, bred.next)
  }

  /**
   * The new population starts with the elites, the first members in sorted
   * order, and ends with the worst share, the last members in sorted order.
   */
  lemma NextPopulationSurvivors(population: seq<Expr>, fitness: seq<real>, cfg: Config, bestCount: nat, worstCount: nat,
                                 vars: seq<string>, rng: Rng, pos: nat, next: seq<Expr>)
    requires ValidConfig(cfg, vars)
    requires |population| >= cfg.populationSize && |fitness| == |population| && AllFit(population, cfg, vars)
    requires next == NextPopulation(population, fitness, cfg, bestCount, worstCount, vars, rng, pos).value
    ensures forall k :: 0 <= k < EliteCount(bestCount, |population|) ==> next[k] == population[SortOrder(fitness, |population|)[k]]
    ensures forall p :: |next| - WorstCount(worstCount, |population|) <= p < |next| ==>
              next[p] == population[SortOrder(fitness, |population|)[p - (|next| - |population|)]]
  {
    var order := SortOrder(fitness, |population|);
    var ranked := Ranked(population, order);
    var elites := Take(ranked, bestCount);
    var worst := PyTail(ranked, worstCount);
    SurvivorCounts(ranked, bestCount, worstCount);
    var bred := Breed(population, fitness, cfg, vars, rng, Shortfall(|elites|, cfg.populationSize - |worst|), pos);
    NextPopulationParts(population, fitness, cfg, bestCount, worstCount, vars, rng, pos, elites, worst, bred);
    SurvivorPositions(next, population, order, bestCount, worstCount, elites, bred.value, worst,
                      EliteCount(bestCount, |population|), WorstCount(worstCount, |population|));
  }

  /**
   * The new population is the elites, then the bred children, then the worst
   * share, and breeding them leaves the draw position where the population ends.
   */
  lemma NextPopulationParts(population: seq<Expr>, fitness: seq<real>, cfg: Config, bestCount: nat, worstCount: nat,
                            vars: seq<string>, rng: Rng, pos: nat, elites: seq<Expr>, worst: seq<Expr>,
                            bred: Drawn<seq<Expr>>)
    requires ValidConfig(cfg, vars)
    requires |population| >= cfg.populationSize && |fitness| == |population| && AllFit(population, cfg, vars)
    requires elites == Take(Ranked(population, SortOrder(fitness, |population|)), bestCount)
    requires worst == PyTail(Ranked(population, SortOrder(fitness, |population|)), worstCount)
    requires bred == Breed(population, fitness, cfg, vars, rng, Shortfall(|elites|, cfg.populationSize - |worst|), pos)
    ensures NextPopulation(population, fitness, cfg, bestCount, worstCount, vars, rng, pos) ==
              Drawn(elites + bred.value + worst, bred.next)
  {
    NextPopulationRefill(population, fitness, cfg, bestCount, worstCount, vars, rng, pos, elites, worst);
    RefillBreeds(population, fitness, cfg, vars, rng, pos, elites, worst, cfg.populationSize - |worst|, bred);
  }

  /** Sorting and slicing done, the next population is what `Refill` makes of the two slices. */
  lemma NextPopulationRefill(population: seq<Expr>, fitness: seq<real>, cfg: Config, bestCount: nat, worstCount: nat,
                             vars: seq<string>, rng: Rng, pos: nat, elites: seq<Expr>, worst: seq<Expr>)
    requires ValidConfig(cfg, vars)
    requires |population| >= cfg.populationSize && |fitness| == |population| && AllFit(population, cfg, vars)
    requires elites == Take(Ranked(population, SortOrder(fitness, |population|)), bestCount)
    requires worst == PyTail(Ranked(population, SortOrder(fitness, |population|)), worstCount)
    ensures NextPopulation(population, fitness, cfg, bestCount, worstCount, vars, rng, pos) ==
              Refill(population, fitness, cfg, vars, rng, pos, elites, worst)
  {
  }

  /** `Refill` breeds as many children as `target`, the size to reach before the worst share, falls short by. */
  lemma RefillBreeds(population: seq<Expr>, fitness: seq<real>, cfg: Config, vars: seq<string>, rng: Rng, pos: nat,
                     elites: seq<Expr>, worst: seq<Expr>, target: int, bred: Drawn<seq<Expr>>)
    requires ValidConfig(cfg, vars)
    requires |population| >= cfg.populationSize && |fitness| == |population| && AllFit(population, cfg, vars)
    requires target == cfg.populationSize - |worst|
    requires bred == Breed(population, fitness, cfg, vars, rng, Shortfall(|elites|, target), pos)
    ensures Refill(population, fitness, cfg, vars, rng, pos, elites, worst) == Drawn(elites + bred.value + worst, bred.next)
  {
    assert Shortfall(|elites|, target) == Shortfall(|elites|, cfg.populationSize - |worst|);
  }

  /** The sliced and bred parts, assembled, are the next population. */
  lemma NextPopulationBuilt(population: seq<Expr>, fitness: seq<real>, cfg: Config, vars: seq<string>, rng: Rng, pos: nat,
                            ranked: seq<Expr>, elites: seq<Expr>, worst: seq<Expr>, target: int, bred: Drawn<seq<Expr>>)
    requires ValidConfig(cfg, vars)
    requires |population| >= cfg.populationSize && |fitness| == |population| && AllFit(population, cfg, vars)
    requires ranked == Ranked(population, SortOrder(fitness, |population|))
    requires elites == Take(ranked, CandidateCount(cfg.bestCandidates, cfg.populationSize))
    requires worst == PyTail(ranked, CandidateCount(cfg.worstCandidates, cfg.populationSize))
    requires target == cfg.populationSize - |worst|
    requires bred == Breed(population, fitness, cfg, vars, rng, Shortfall(|elites|, target), pos)
    ensures Built(population, fitness, cfg, vars, rng, pos, elites + bred.value + worst, bred.next)
  {
    NextPopulationRefill(population, fitness, cfg, CandidateCount(cfg.bestCandidates, cfg.populationSize),
                         CandidateCount(cfg.worstCandidates, cfg.populationSize), vars, rng, pos, elites, worst);
    RefillBreeds(population, fitness, cfg, vars, rng, pos, elites, worst, target, bred);
  }

  /** Where the elites and the worst share of `Ranked(population, order)` land around the bred children. */
  lemma SurvivorPositions(next: seq<Expr>, population: seq<Expr>, order: seq<nat>, bestCount: nat, worstCount: nat,
                          elites: seq<Expr>, bred: seq<Expr>, worst: seq<Expr>, eliteCount: nat, worstShare: nat)
    requires InRange(order, |population|) && |order| == |population|
    requires elites == Take(Ranked(population, order), bestCount) && |elites| == eliteCount
    requires worst == PyTail(Ranked(population, order), worstCount) && |worst| == worstShare
    requires next == elites + bred + worst
    ensures forall k :: 0 <= k < eliteCount ==> next[k] == population[order[k]]
    ensures forall p :: |next| - worstShare <= p < |next| ==> next[p] == population[order[p - (|next| - |population|)]]
  {
    ElitesLand(next, population, order, bestCount, elites, bred, worst);
    WorstLands(next, population, order, worstCount, elites, bred, worst);
  }

  lemma ElitesLand(next: seq<Expr>, population: seq<Expr>, order: seq<nat>, bestCount: nat,
                   elites: seq<Expr>, bred: seq<Expr>, worst: seq<Expr>)
    requires InRange(order, |population|)
    requires elites == Take(Ranked(population, order), bestCount)
    requires next == elites + bred + worst
    ensures forall k :: 0 <= k < |elites| ==> next[k] == population[order[k]]
  {
    var ranked := Ranked(population, order);
    forall k | 0 <= k < |elites| ensures next[k] == population[order[k]] {
      assert next[k] == elites[k] == ranked[k];
    }
  }

  lemma WorstLands(next: seq<Expr>, population: seq<Expr>, order: seq<nat>, worstCount: nat,
                   elites: seq<Expr>, bred: seq<Expr>, worst: seq<Expr>)
    requires InRange(order, |population|) && |order| == |population|
    requires worst == PyTail(Ranked(population, order), worstCount)
    requires next == elites + bred + worst
    ensures forall p :: |next| - |worst| <= p < |next| ==> next[p] == population[order[p - (|next| - |population|)]]
  {
    var ranked := Ranked(population, order);
    forall p | |next| - |worst| <= p < |next| ensures next[p] == population[order[p - (|next| - |population|)]] {
      var j := p - (|elites| + |bred|);
      var k := p - (|next| - |population|);
      ConcatLast(elites, bred, worst, p, j);
      PyTailAt(ranked, worstCount, k, j);
    }
  }

  /** Index `i` of a three-part concatenation is index `j` of its last part. */
  lemma ConcatLast<T>(a: seq<T>, b: seq<T>, c: seq<T>, i: nat, j: nat)
    requires j < |c| && i == |a| + |b| + j
    ensures (a + b + c)[i] == c[j]
  {
  }

  /** Index `j` of a tail is index `i` of the whole sequence. */
  lemma PyTailAt<T>(s: seq<T>, count: nat, i: nat, j: nat)
    requires j < |PyTail(s, count)| && i == |s| - |PyTail(s, count)| + j
    ensures PyTail(s, count)[j] == s[i]
  {
  }

  lemma RankedFits(population: seq<Expr>, order: seq<nat>, cfg: Config, vars: seq<string>)
    requires InRange(order, |population|) && AllFit(population, cfg, vars)
    ensures AllFit(Ranked(population, order), cfg, vars)
  {
  }

  /**
   * Every elite scored no worse than every member left out of the elites,
   * and every member of the worst share no better than every member left out
   * of it.
   */
  lemma SurvivorScores(fitness: seq<real>, n: nat, e: nat, w: nat)
    requires n <= |fitness| && e <= n && w <= n
    ensures var order := SortOrder(fitness, n);
            forall k, i :: 0 <= k < e && 0 <= i < n && i !in order[..e] ==> fitness[order[k]] <= fitness[i]
    ensures var order := SortOrder(fitness, n);
            forall k, i :: n - w <= k < n && 0 <= i < n && i !in order[n - w..] ==> fitness[i] <= fitness[order[k]]
  {
    var order := SortOrder(fitness, n);
    SortOrderSorts(fitness, n);
    forall k, i | 0 <= k < e && 0 <= i < n && i !in order[..e] ensures fitness[order[k]] <= fitness[i] {
      assert i in order;
      var q :| 0 <= q < n && order[q] == i;
      assert Precedes(fitness, order[k], order[q]);
    }
    forall k, i | n - w <= k < n && 0 <= i < n && i !in order[n - w..] ensures fitness[i] <= fitness[order[k]] {
      assert i in order;
      var q :| 0 <= q < n && order[q] == i;
      assert Precedes(fitness, order[q], order[k]);
    }
  }

  /** A generation's outcome: the new population, its best member with that member's deviation, and the next draw. */
  datatype Generation = Generation(population: seq<Expr>, best: Expr, deviation: real, next: nat)

  /** The index of the first member of least deviation: `min(population, key=...)`. */
  function BestIndex(scores: seq<real>): (b: nat)
    requires |scores| > 0
    ensures b < |scores|
    ensures forall i :: 0 <= i < |scores| ==> scores[b] <= scores[i]
    ensures forall i :: 0 <= i < b ==> scores[i] > scores[b]
  {
    var indices := Iota(|scores|);
    var p := ArgMin(indices, scores);
    assert indices[p] == p;
    assert forall i {:trigger scores[i]} :: 0 <= i < |scores| ==> indices[i] == i;
    p
  }

  /** Lines 26-45 of one iteration: score, build the next population, then score it and pick its best member. */
  function Step(population: seq<Expr>, cfg: Config, bestCount: nat, worstCount: nat, vars: seq<string>, data: seq<Row>, m: MathLib,
                rng: Rng, pos: nat): (r: Result<Generation, Error>)
    requires ValidConfig(cfg, vars)
    requires |population| >= cfg.populationSize && AllFit(population, cfg, vars)
    ensures |data| == 0 ==> r.Err? && r.error == EmptyDataset
    ensures Fitness(population, vars, data, m).Err? ==> r.Err? && r.error == Fitness(population, vars, data, m).error
    ensures r.Ok? ==> |r.value.population| == NextSize(cfg, bestCount, worstCount, |population|) >= cfg.populationSize
    ensures r.Ok? ==> AllFit(r.value.population, cfg, vars)
    ensures r.Ok? ==> Scores(r.value.best, vars, data, m, r.value.deviation)
  {
    EmptyDataFitness(population, vars, data, m);
    var fitness :- Fitness(population, vars, data, m);
    var next := NextPopulation(population, fitness, cfg, bestCount, worstCount, vars, rng, pos);
    var scores :- Fitness(next.value, vars, data, m);
    var b := BestIndex(scores);
    Ok(Generation(next.value, next.value[b], scores[b], next.next))
  }

  /**
   * Line 43: the recorded member is one of the new population, and no member
   * of it has a smaller deviation.
   */
  lemma StepBest(population: seq<Expr>, cfg: Config, bestCount: nat, worstCount: nat, vars: seq<string>, data: seq<Row>,
                 m: MathLib, rng: Rng, pos: nat, g: Generation)
    requires ValidConfig(cfg, vars)
    requires |population| >= cfg.populationSize && AllFit(population, cfg, vars)
    requires Step(population, cfg, bestCount, worstCount, vars, data, m, rng, pos) == Ok(g)
    ensures g.best in g.population
    ensures forall i :: 0 <= i < |g.population| ==>
              Deviation(g.population[i], vars, data, m).Ok? && g.deviation <= Deviation(g.population[i], vars, data, m).value
  {
    var fitness := Fitness(population, vars, data, m);
    assert fitness.Ok?;
    var next := NextPopulation(population, fitness.value, cfg, bestCount, worstCount, vars, rng, pos);
    var scores := Fitness(next.value, vars, data, m);
    assert scores.Ok?;
    var b := BestIndex(scores.value);
    assert g == Generation(next.value, next.value[b], scores.value[b], next.next);
    forall i | 0 <= i < |g.population|
      ensures Deviation(g.population[i], vars, data, m).Ok? && g.deviation <= Deviation(g.population[i], vars, data, m).value
    {
      assert Scores(next.value[i], vars, data, m, scores.value[i]);
    }
  }

  // ---------------------------------------------------------------------------
  // The whole run
  // ---------------------------------------------------------------------------

  /** Each recorded deviation is that of the member recorded with it. */
  predicate AllScored(results: seq<(Expr, real)>, vars: seq<string>, data: seq<Row>, m: MathLib) {
    forall k :: 0 <= k < |results| ==> Scores(results[k].0, vars, data, m, results[k].1)
  }

  /** Recording one more scored member keeps every record scored. */
  lemma AllScoredSnoc(done: seq<(Expr, real)>, x: (Expr, real), vars: seq<string>, data: seq<Row>, m: MathLib)
    requires Scores(x.0, vars, data, m, x.1)
    ensures AllScored(done, vars, data, m) ==> AllScored(done + [x], vars, data, m)
  {
    if AllScored(done, vars, data, m) {
      forall k | 0 <= k < |done + [x]| ensures Scores((done + [x])[k].0, vars, data, m, (done + [x])[k].1) {
        if k < |done| {
          assert (done + [x])[k] == done[k];
        }
      }
    }
  }

  /**
   * The records `best_solutions` holds once it has `generations` entries,
   * continuing from the records `done` with `population` at draw position
   * `pos`, or the failure that ends the run.
   */
  function RunFrom(done: seq<(Expr, real)>, population: seq<Expr>, cfg: Config, bestCount: nat, worstCount: nat,
                   vars: seq<string>, data: seq<Row>, m: MathLib, rng: Rng, generations: nat, pos: nat)
    : (r: Result<seq<(Expr, real)>, Error>)
    requires ValidConfig(cfg, vars)
    requires |population| >= cfg.populationSize && AllFit(population, cfg, vars)
    requires |done| <= generations
    ensures r.Ok? ==> |r.value| == generations
    ensures r.Ok? && AllScored(done, vars, data, m) ==> AllScored(r.value, vars, data, m)
    ensures |done| < generations && |data| == 0 ==> r == Err(EmptyDataset)
    decreases generations - |done|
  {
    if |done| == generations then Ok(done)
    else
      var g :- Step(population, cfg, bestCount, worstCount, vars, data, m, rng, pos);
      AllScoredSnoc(done, (g.best, g.deviation), vars, data, m);
      RunFrom(done + [(g.best, g.deviation)], g.population, cfg, bestCount, worstCount, vars, data, m, rng, generations, g.next)
  }

  /** A run that succeeds keeps the records made before it, in order, as the start of its result. */
  lemma {:induction false} RunFromKeeps(done: seq<(Expr, real)>, population: seq<Expr>, cfg: Config, bestCount: nat, worstCount: nat,
                                        vars: seq<string>, data: seq<Row>, m: MathLib, rng: Rng, generations: nat, pos: nat)
    requires ValidConfig(cfg, vars)
    requires |population| >= cfg.populationSize && AllFit(population, cfg, vars)
    requires |done| <= generations
    ensures var r := RunFrom(done, population, cfg, bestCount, worstCount, vars, data, m, rng, generations, pos);
            r.Ok? ==> r.value[..|done|] == done
    decreases generations - |done|
  {
    if |done| < generations {
      var step := Step(population, cfg, bestCount, worstCount, vars, data, m, rng, pos);
      if step.Ok? {
        var g := step.value;
        var recorded := done + [(g.best, g.deviation)];
        RunFromStep(done, population, cfg, bestCount, worstCount, vars, data, m, rng, generations, pos, g, recorded);
        RunFromKeeps(recorded, g.population, cfg, bestCount, worstCount, vars, data, m, rng, generations, g.next);
        var r := RunFrom(recorded, g.population, cfg, bestCount, worstCount, vars, data, m, rng, generations, g.next);
        if r.Ok? {
          PrefixKept(r.value, done, (g.best, g.deviation));
        }
      } else {
        RunFromStops(done, population, cfg, bestCount, worstCount, vars, data, m, rng, generations, pos, step);
      }
    }
  }

  /** A sequence that starts with `done + [x]` starts with `done`. */
  lemma PrefixKept<T>(s: seq<T>, done: seq<T>, x: T)
    requires |done| < |s| && s[..|done| + 1] == done + [x]
    ensures s[..|done|] == done
  {
    assert s[..|done|] == s[..|done| + 1][..|done|];
  }

  /** `run_algorithm()`: an initial population, then `populations_amount` generations, from no records. */
  function RunAll(cfg: Config, vars: seq<string>, data: seq<Row>, m: MathLib, rng: Rng): (r: Result<seq<(Expr, real)>, Error>)
    requires ValidConfig(cfg, vars)
    ensures r.Ok? ==> |r.value| == cfg.populationsAmount
    ensures r.Ok? ==> AllScored(r.value, vars, data, m)
    ensures cfg.populationsAmount > 0 && |data| == 0 ==> r == Err(EmptyDataset)
  {
    var init := InitialPopulation(cfg, vars, rng);
    var bestCount := CandidateCount(cfg.bestCandidates, cfg.populationSize);
    var worstCount := CandidateCount(cfg.worstCandidates, cfg.populationSize);
    RunFrom([], init.value, cfg, bestCount, worstCount, vars, data, m, rng, cfg.populationsAmount, init.next)
  }

  /** `step` is the outcome of one generation from `population` at draw position `pos`. */
  predicate Generates(population: seq<Expr>, cfg: Config, bestCount: nat, worstCount: nat, vars: seq<string>, data: seq<Row>,
                      m: MathLib, rng: Rng, pos: nat, step: Result<Generation, Error>)
    requires ValidConfig(cfg, vars)
    requires |population| >= cfg.populationSize && AllFit(population, cfg, vars)
  {
    step == Step(population, cfg, bestCount, worstCount, vars, data, m, rng, pos)
  }

  /** A generation that fails ends the run with its failure, whatever was recorded before it. */
  lemma RunFromStops(done: seq<(Expr, real)>, population: seq<Expr>, cfg: Config, bestCount: nat, worstCount: nat,
                     vars: seq<string>, data: seq<Row>, m: MathLib, rng: Rng, generations: nat, pos: nat,
                     step: Result<Generation, Error>)
    requires ValidConfig(cfg, vars)
    requires |population| >= cfg.populationSize && AllFit(population, cfg, vars)
    requires |done| < generations
    requires Generates(population, cfg, bestCount, worstCount, vars, data, m, rng, pos, step) && step.Err?
    ensures RunFrom(done, population, cfg, bestCount, worstCount, vars, data, m, rng, generations, pos) == Err(step.error)
  {
  }

  /**
   * One generation that succeeds, in terms of its outcome `g`: the run goes
   * on from the records `recorded`, one longer.
   */
  lemma RunFromStep(done: seq<(Expr, real)>, population: seq<Expr>, cfg: Config, bestCount: nat, worstCount: nat,
                    vars: seq<string>, data: seq<Row>, m: MathLib, rng: Rng, generations: nat, pos: nat, g: Generation,
                    recorded: seq<(Expr, real)>)
    requires ValidConfig(cfg, vars)
    requires |population| >= cfg.populationSize && AllFit(population, cfg, vars)
    requires |done| < generations && recorded == done + [(g.best, g.deviation)]
    requires Generates(population, cfg, bestCount, worstCount, vars, data, m, rng, pos, Ok(g))
    ensures |g.population| >= cfg.populationSize && AllFit(g.population, cfg, vars)
    ensures RunFrom(done, population, cfg, bestCount, worstCount, vars, data, m, rng, generations, pos)
            == RunFrom(recorded, g.population, cfg, bestCount, worstCount, vars, data, m, rng, generations, g.next)
  {
  }

  /** `total` is the outcome of the run of `generations` generations continued from `done`, `population` and `pos`. */
  predicate Remains(total: Result<seq<(Expr, real)>, Error>, done: seq<(Expr, real)>, population: seq<Expr>, cfg: Config,
                    bestCount: nat, worstCount: nat, vars: seq<string>, data: seq<Row>, m: MathLib, rng: Rng,
                    generations: nat, pos: nat)
    requires ValidConfig(cfg, vars)
    requires |population| >= cfg.populationSize && AllFit(population, cfg, vars)
    requires |done| <= generations
  {
    total == RunFrom(done, population, cfg, bestCount, worstCount, vars, data, m, rng, generations, pos)
  }

  /** A successful generation leaves the outcome of the run where it was: it is what remains from the next state. */
  lemma RunFromAdvance(total: Result<seq<(Expr, real)>, Error>, done: seq<(Expr, real)>, population: seq<Expr>, cfg: Config,
                       bestCount: nat, worstCount: nat, vars: seq<string>, data: seq<Row>, m: MathLib, rng: Rng,
                       generations: nat, pos: nat, g: Generation, recorded: seq<(Expr, real)>)
    requires ValidConfig(cfg, vars)
    requires |population| >= cfg.populationSize && AllFit(population, cfg, vars)
    requires |done| < generations && recorded == done + [(g.best, g.deviation)]
    requires Generates(population, cfg, bestCount, worstCount, vars, data, m, rng, pos, Ok(g))
    requires Remains(total, done, population, cfg, bestCount, worstCount, vars, data, m, rng, generations, pos)
    ensures |g.population| >= cfg.populationSize && AllFit(g.population, cfg, vars)
    ensures Remains(total, recorded, g.population, cfg, bestCount, worstCount, vars, data, m, rng, generations, g.next)
  {
    RunFromStep(done, population, cfg, bestCount, worstCount, vars, data, m, rng, generations, pos, g, recorded);
  }

  /**
   * One pass of the loop, in terms of what remains of the run: a failed
   * generation is the run's failure, and a successful one leaves the rest of
   * the run to the next state.
   */
  lemma RunContinues(total: Result<seq<(Expr, real)>, Error>, done: seq<(Expr, real)>, population: seq<Expr>, cfg: Config,
                     bestCount: nat, worstCount: nat, vars: seq<string>, data: seq<Row>, m: MathLib, rng: Rng,
                     generations: nat, pos: nat, step: Result<Generation, Error>)
    requires ValidConfig(cfg, vars)
    requires |population| >= cfg.populationSize && AllFit(population, cfg, vars)
    requires |done| < generations
    requires Generates(population, cfg, bestCount, worstCount, vars, data, m, rng, pos, step)
    requires Remains(total, done, population, cfg, bestCount, worstCount, vars, data, m, rng, generations, pos)
    ensures step.Err? ==> total == Err(step.error)
    ensures step.Ok? ==> |step.value.population| >= cfg.populationSize && AllFit(step.value.population, cfg, vars)
    ensures step.Ok? ==> Remains(total, done + [(step.value.best, step.value.deviation)], step.value.population, cfg,
                                 bestCount, worstCount, vars, data, m, rng, generations, step.value.next)
  {
    if step.Err? {
      RunFromStops(done, population, cfg, bestCount, worstCount, vars, data, m, rng, generations, pos, step);
    } else {
      RunFromAdvance(total, done, population, cfg, bestCount, worstCount, vars, data, m, rng, generations, pos, step.value,
                     done + [(step.value.best, step.value.deviation)]);
    }
  }

  /** Before the first generation, the whole run is what remains from the initial population with no records. */
  lemma RunStarts(cfg: Config, vars: seq<string>, data: seq<Row>, m: MathLib, rng: Rng, init: Drawn<seq<Expr>>)
    requires ValidConfig(cfg, vars)
    requires init == InitialPopulation(cfg, vars, rng)
    ensures |init.value| >= cfg.populationSize && AllFit(init.value, cfg, vars)
    ensures Remains(RunAll(cfg, vars, data, m, rng), [], init.value, cfg, CandidateCount(cfg.bestCandidates, cfg.populationSize),
                    CandidateCount(cfg.worstCandidates, cfg.populationSize), vars, data, m, rng, cfg.populationsAmount, init.next)
  {
  }

  /** Once every generation is recorded, what remains is the records made so far. */
  lemma RunFinished(total: Result<seq<(Expr, real)>, Error>, done: seq<(Expr, real)>, population: seq<Expr>, cfg: Config,
                    bestCount: nat, worstCount: nat, vars: seq<string>, data: seq<Row>, m: MathLib, rng: Rng, pos: nat)
    requires ValidConfig(cfg, vars)
    requires |population| >= cfg.populationSize && AllFit(population, cfg, vars)
    requires Remains(total, done, population, cfg, bestCount, worstCount, vars, data, m, rng, |done|, pos)
    ensures total == Ok(done)
  {
  }

  /** The outcome of one generation as the loop body computes it: the first scoring fails, or the second, or both succeed. */
  lemma StepFirstFails(population: seq<Expr>, cfg: Config, bestCount: nat, worstCount: nat, vars: seq<string>, data: seq<Row>,
                       m: MathLib, rng: Rng, pos: nat)
    requires ValidConfig(cfg, vars)
    requires |population| >= cfg.populationSize && AllFit(population, cfg, vars)
    requires Fitness(population, vars, data, m).Err?
    ensures Step(population, cfg, bestCount, worstCount, vars, data, m, rng, pos).Err?
    ensures Step(population, cfg, bestCount, worstCount, vars, data, m, rng, pos).error == Fitness(population, vars, data, m).error
  {
  }

  lemma StepSecondFails(population: seq<Expr>, cfg: Config, bestCount: nat, worstCount: nat, vars: seq<string>, data: seq<Row>,
                        m: MathLib, rng: Rng, pos: nat, fitness: seq<real>, next: Drawn<seq<Expr>>)
    requires ValidConfig(cfg, vars)
    requires |population| >= cfg.populationSize && AllFit(population, cfg, vars)
    requires Fitness(population, vars, data, m) == Ok(fitness)
    requires next == NextPopulation(population, fitness, cfg, bestCount, worstCount, vars, rng, pos)
    requires Fitness(next.value, vars, data, m).Err?
    ensures Step(population, cfg, bestCount, worstCount, vars, data, m, rng, pos).Err?
    ensures Step(population, cfg, bestCount, worstCount, vars, data, m, rng, pos).error == Fitness(next.value, vars, data, m).error
  {
  }

  lemma StepSucceeds(population: seq<Expr>, cfg: Config, bestCount: nat, worstCount: nat, vars: seq<string>, data: seq<Row>,
                     m: MathLib, rng: Rng, pos: nat, fitness: seq<real>, next: Drawn<seq<Expr>>, scores: seq<real>, deviation: real)
    requires ValidConfig(cfg, vars)
    requires |population| >= cfg.populationSize && AllFit(population, cfg, vars)
    requires Fitness(population, vars, data, m) == Ok(fitness)
    requires next == NextPopulation(population, fitness, cfg, bestCount, worstCount, vars, rng, pos)
    requires Fitness(next.value, vars, data, m) == Ok(scores) && |scores| > 0
    requires Deviation(next.value[BestIndex(scores)], vars, data, m) == Ok(deviation)
    ensures Step(population, cfg, bestCount, worstCount, vars, data, m, rng, pos).Ok?
    ensures Step(population, cfg, bestCount, worstCount, vars, data, m, rng, pos).value ==
            Generation(next.value, next.value[BestIndex(scores)], deviation, next.next)
  {
  }

  lemma AppendOne<T>(done: seq<T>, more: seq<T>, x: T)
    ensures (done + more) + [x] == done + (more + [x])
  {
  }

  /** Lines 34-37: two tournaments, a crossover of their winners, a mutation of the child. */
  method BreedChild(population: seq<Expr>, fitnessScores: seq<real>, cfg: Config, vars: seq<string>, rng: Rng, pos: nat)
    returns (child: Expr, next: nat)
    requires ValidConfig(cfg, vars)
    requires cfg.tournamentSize <= |population| <= |fitnessScores| && AllFit(population, cfg, vars)
    ensures Drawn(child, next) == BreedOne(population, fitnessScores, cfg, vars, rng, pos)
  {
    var parent1 := TournamentSelection(population, fitnessScores, cfg.tournamentSize, rng, pos);
    var parent2 := TournamentSelection(population, fitnessScores, cfg.tournamentSize, rng, parent1.next);
    TournamentFits(population, fitnessScores, cfg, vars, rng, pos);
    TournamentFits(population, fitnessScores, cfg, vars, rng, parent1.next);
    var crossed := Crossover(parent1.value, parent2.value, rng, parent2.next);
    CrossoverDepth(parent1.value, parent2.value, rng, parent2.next);
    CrossoverHasOperands(parent1.value, parent2.value, rng, parent2.next);
    var mutated := Mutate(crossed.value, cfg.maxDepth, cfg.mutationRate, 0, vars, rng, crossed.next);
    child, next := mutated.value, mutated.next;
  }

  /**
   * Lines 27-40 as the source writes them: sort, slice, then the `while`
   * loop of lines 33-38 appending one bred child per iteration, then the
   * worst share.
   */
  method BuildNextPopulation(population: seq<Expr>, fitnessScores: seq<real>, cfg: Config, vars: seq<string>, rng: Rng, pos: nat)
    returns (newPopulation: seq<Expr>, next: nat)
    requires ValidConfig(cfg, vars)
    requires |population| >= cfg.populationSize && |fitnessScores| == |population| && AllFit(population, cfg, vars)
    ensures Built(population, fitnessScores, cfg, vars, rng, pos, newPopulation, next)
  {
    var sortedOrder := SortOrder(fitnessScores, |population|);
    var sortedPopulation := Ranked(population, sortedOrder);
    var bestIndividuals := Take(sortedPopulation, CandidateCount(cfg.bestCandidates, cfg.populationSize));
    var worstIndividuals := PyTail(sortedPopulation, CandidateCount(cfg.worstCandidates, cfg.populationSize));
    var target := cfg.populationSize - |worstIndividuals|;
    ghost var bred := Breed(population, fitnessScores, cfg, vars, rng, Shortfall(|bestIndividuals|, target), pos);
    NextPopulationBuilt(population, fitnessScores, cfg, vars, rng, pos, sortedPopulation, bestIndividuals, worstIndividuals, target, bred);
    newPopulation, next := BreedInto(population, fitnessScores, cfg, vars, rng, bestIndividuals, target, pos);
    newPopulation := newPopulation + worstIndividuals;
  }

  /** `newPopulation`, with the draw position after it, is the next population of lines 27-40. */
  predicate Built(population: seq<Expr>, fitnessScores: seq<real>, cfg: Config, vars: seq<string>, rng: Rng, pos: nat,
                  newPopulation: seq<Expr>, next: nat)
    requires ValidConfig(cfg, vars)
    requires |population| >= cfg.populationSize && |fitnessScores| == |population| && AllFit(population, cfg, vars)
  {
    Drawn(newPopulation, next) == NextPopulation(population, fitnessScores, cfg, CandidateCount(cfg.bestCandidates, cfg.populationSize),
                                                 CandidateCount(cfg.worstCandidates, cfg.populationSize), vars, rng, pos)
  }

  /** The `while` loop of lines 33-38: append bred children to `start` until it holds `target` members. */
  method BreedInto(population: seq<Expr>, fitnessScores: seq<real>, cfg: Config, vars: seq<string>, rng: Rng,
                   start: seq<Expr>, target: int, pos: nat) returns (newPopulation: seq<Expr>, next: nat)
    requires ValidConfig(cfg, vars)
    requires cfg.tournamentSize <= |population| <= |fitnessScores| && AllFit(population, cfg, vars)
    ensures newPopulation == start + Breed(population, fitnessScores, cfg, vars, rng, Shortfall(|start|, target), pos).value
    ensures next == Breed(population, fitnessScores, cfg, vars, rng, Shortfall(|start|, target), pos).next
  {
    ghost var bred := Breed(population, fitnessScores, cfg, vars, rng, Shortfall(|start|, target), pos);
    ghost var children: seq<Expr> := [];
    ghost var remaining := Shortfall(|start|, target);
    newPopulation := start;
    next := pos;
    while |newPopulation| < target
      invariant |children| + remaining == Shortfall(|start|, target)
      invariant newPopulation == start + children
      invariant Continues(bred, children, population, fitnessScores, cfg, vars, rng, remaining, next)
      decreases remaining
    {
      var child, after := BreedChild(population, fitnessScores, cfg, vars, rng, next);
      BreedAdvance(bred, children, population, fitnessScores, cfg, vars, rng, remaining, next, child, after);
      AppendOne(start, children, child);
      newPopulation := newPopulation + [child];
      children := children + [child];
      next := after;
      remaining := remaining - 1;
    }
    ShortfallMet(|start|, |children|, remaining, target);
    BreedFinished(bred, children, population, fitnessScores, cfg, vars, rng, next);
  }

  /** `bred` is `children` followed by `remaining` more children bred from `pos`. */
  predicate Continues(bred: Drawn<seq<Expr>>, children: seq<Expr>, population: seq<Expr>, fitness: seq<real>, cfg: Config,
                      vars: seq<string>, rng: Rng, remaining: nat, pos: nat)
    requires ValidConfig(cfg, vars)
    requires cfg.tournamentSize <= |population| <= |fitness| && AllFit(population, cfg, vars)
  {
    var rest := Breed(population, fitness, cfg, vars, rng, remaining, pos);
    bred.value == children + rest.value && bred.next == rest.next
  }

  lemma BreedAdvance(bred: Drawn<seq<Expr>>, children: seq<Expr>, population: seq<Expr>, fitness: seq<real>, cfg: Config,
                     vars: seq<string>, rng: Rng, remaining: nat, pos: nat, child: Expr, after: nat)
    requires ValidConfig(cfg, vars)
    requires cfg.tournamentSize <= |population| <= |fitness| && AllFit(population, cfg, vars)
    requires remaining > 0 && Continues(bred, children, population, fitness, cfg, vars, rng, remaining, pos)
    requires Drawn(child, after) == BreedOne(population, fitness, cfg, vars, rng, pos)
    ensures Continues(bred, children + [child], population, fitness, cfg, vars, rng, remaining - 1, after)
  {
    BreedUnfold(population, fitness, cfg, vars, rng, remaining, pos, child, after);
    ConsAfter(children, child, Breed(population, fitness, cfg, vars, rng, remaining - 1, after).value);
  }

  lemma ConsAfter<T>(done: seq<T>, x: T, rest: seq<T>)
    ensures done + ([x] + rest) == (done + [x]) + rest
  {
  }

  /** Breeding `count` children is breeding one, then `count - 1` more from the position after it. */
  lemma BreedUnfold(population: seq<Expr>, fitness: seq<real>, cfg: Config, vars: seq<string>, rng: Rng, count: nat, pos: nat,
                    child: Expr, after: nat)
    requires ValidConfig(cfg, vars)
    requires cfg.tournamentSize <= |population| <= |fitness| && AllFit(population, cfg, vars)
    requires count > 0 && Drawn(child, after) == BreedOne(population, fitness, cfg, vars, rng, pos)
    ensures Breed(population, fitness, cfg, vars, rng, count, pos) ==
              Drawn([child] + Breed(population, fitness, cfg, vars, rng, count - 1, after).value,
                    Breed(population, fitness, cfg, vars, rng, count - 1, after).next)
  {
  }

  lemma BreedFinished(bred: Drawn<seq<Expr>>, children: seq<Expr>, population: seq<Expr>, fitness: seq<real>, cfg: Config,
                      vars: seq<string>, rng: Rng, pos: nat)
    requires ValidConfig(cfg, vars)
    requires cfg.tournamentSize <= |population| <= |fitness| && AllFit(population, cfg, vars)
    requires Continues(bred, children, population, fitness, cfg, vars, rng, 0, pos)
    ensures bred.value == children && bred.next == pos
  {
    assert children + [] == children;
  }

  /** One pass of the loop of lines 25-45: score, build the next population, score it and pick its best member. */
  method NextGeneration(population: seq<Expr>, cfg: Config, vars: seq<string>, data: seq<Row>, m: MathLib, rng: Rng, pos: nat)
    returns (r: Result<Generation, Error>)
    requires ValidConfig(cfg, vars)
    requires |population| >= cfg.populationSize && AllFit(population, cfg, vars)
    ensures Generates(population, cfg, CandidateCount(cfg.bestCandidates, cfg.populationSize),
                      CandidateCount(cfg.worstCandidates, cfg.populationSize), vars, data, m, rng, pos, r)
  {
    ghost var bestCount := CandidateCount(cfg.bestCandidates, cfg.populationSize);
    ghost var worstCount := CandidateCount(cfg.worstCandidates, cfg.populationSize);
    var fitnessScores := Fitness(population, vars, data, m);
    if fitnessScores.Err? {
      StepFirstFails(population, cfg, bestCount, worstCount, vars, data, m, rng, pos);
      return Err(fitnessScores.error);
    }
    var newPopulation, next := BuildNextPopulation(population, fitnessScores.value, cfg, vars, rng, pos);
    ghost var built := Drawn(newPopulation, next);
    var scores := Fitness(newPopulation, vars, data, m);
    if scores.Err? {
      StepSecondFails(population, cfg, bestCount, worstCount, vars, data, m, rng, pos, fitnessScores.value, built);
      return Err(scores.error);
    }
    var best := BestIndex(scores.value);
    var bestSolution := newPopulation[best];
    var bestDeviation := Deviation(bestSolution, vars, data, m).value;
    StepSucceeds(population, cfg, bestCount, worstCount, vars, data, m, rng, pos, fitnessScores.value, built, scores.value, bestDeviation);
    return Ok(Generation(newPopulation, bestSolution, bestDeviation, next));
  }

  /** One pass of the loop of lines 25-45: a generation, and the run's outcome seen from after it. */
  method Advance(ghost total: Result<seq<(Expr, real)>, Error>, done: seq<(Expr, real)>, population: seq<Expr>, cfg: Config,
                 vars: seq<string>, data: seq<Row>, m: MathLib, rng: Rng, pos: nat) returns (step: Result<Generation, Error>)
    requires ValidConfig(cfg, vars)
    requires |population| >= cfg.populationSize && AllFit(population, cfg, vars)
    requires |done| < cfg.populationsAmount
    requires Remains(total, done, population, cfg, CandidateCount(cfg.bestCandidates, cfg.populationSize),
                     CandidateCount(cfg.worstCandidates, cfg.populationSize), vars, data, m, rng, cfg.populationsAmount, pos)
    ensures step.Err? ==> total == Err(step.error)
    ensures step.Ok? ==> |step.value.population| >= cfg.populationSize && AllFit(step.value.population, cfg, vars)
    ensures step.Ok? ==> Remains(total, done + [(step.value.best, step.value.deviation)], step.value.population, cfg,
                                 CandidateCount(cfg.bestCandidates, cfg.populationSize),
                                 CandidateCount(cfg.worstCandidates, cfg.populationSize), vars, data, m, rng,
                                 cfg.populationsAmount, step.value.next)
  {
    step := NextGeneration(population, cfg, vars, data, m, rng, pos);
    RunContinues(total, done, population, cfg, CandidateCount(cfg.bestCandidates, cfg.populationSize),
                 CandidateCount(cfg.worstCandidates, cfg.populationSize), vars, data, m, rng, cfg.populationsAmount, pos, step);
  }

  /** `run_algorithm()` as the source writes it: the `for` loop of lines 25-45 over the generations. */
  method RunAlgorithm(cfg: Config, vars: seq<string>, data: seq<Row>, m: MathLib, rng: Rng) returns (r: Result<seq<(Expr, real)>, Error>)
    requires ValidConfig(cfg, vars)
    ensures r == RunAll(cfg, vars, data, m, rng)
  {
    var initial := InitialPopulation(cfg, vars, rng);
    var population := initial.value;
    var pos := initial.next;
    var bestSolutions: seq<(Expr, real)> := [];
    ghost var total := RunAll(cfg, vars, data, m, rng);
    ghost var bestCount := CandidateCount(cfg.bestCandidates, cfg.populationSize);
    ghost var worstCount := CandidateCount(cfg.worstCandidates, cfg.populationSize);
    RunStarts(cfg, vars, data, m, rng, initial);
    for generation := 0 to cfg.populationsAmount
      invariant |bestSolutions| == generation
      invariant |population| >= cfg.populationSize && AllFit(population, cfg, vars)
      invariant Remains(total, bestSolutions, population, cfg, bestCount, worstCount, vars, data, m, rng, cfg.populationsAmount, pos)
    {
      var step := Advance(total, bestSolutions, population, cfg, vars, data, m, rng, pos);
      if step.Err? {
        return Err(step.error);
      }
      bestSolutions := bestSolutions + [(step.value.best, step.value.deviation)];
      population := step.value.population;
      pos := step.value.next;
    }
    RunFinished(total, bestSolutions, population, cfg, bestCount, worstCount, vars, data, m, rng, pos);
    return Ok(bestSolutions);
  }
}
