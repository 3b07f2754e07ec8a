/**
 * The genetic-algorithm engine of src/algorithm/genetic.cpp.
 *
 * Genomes are bit strings, a population is a sequence of genomes and the
 * fitness callback is a pure function from genomes to C++ `int` values.
 * Every random draw of the source is an explicit argument: the standalone
 * operations take the value the C++ distribution would have produced, and
 * RunEvolution takes raw draws that it clamps into each distribution's range.
 */
module Genetic {
  import opened Results

  type Genome = seq<bool>
  type Population = seq<Genome>

  /** The range of a C++ `int`, the result type of the fitness callback. */
  type int32 = x: int | -0x8000_0000 <= x < 0x8000_0000
  /** The range of a C++ `uint32_t`. */
  type uint32 = x: int | 0 <= x < 0x1_0000_0000

  type FitnessFunc = Genome -> int32

  /** Defaults of generatePopulation (src/algorithm/genetic.h). */
  const GenomeLength: nat := 256
  const GenomesInPopulation: nat := 6

  // ---------------------------------------------------------------------
  // Generating genomes and populations
  // ---------------------------------------------------------------------

  /** Fills a genome of `genomeLength` bits; `coin(n)` is the Bernoulli draw for bit n. */
  method GenerateGenome(genomeLength: nat, coin: nat -> bool) returns (g: Genome)
    ensures |g| == genomeLength
    ensures forall n :: 0 <= n < genomeLength ==> g[n] == coin(n)
  {
    var result := new bool[genomeLength](_ => false);
    for n := 0 to genomeLength
      invariant forall k :: 0 <= k < n ==> result[k] == coin(k)
    {
      result[n] := coin(n);
    }
    g := result[..];
  }

  /** Fills a population of `populationSize` genomes; `coin(m, n)` is the draw for bit n of member m. */
  method GeneratePopulation(populationSize: nat, genomeLength: nat, coin: (nat, nat) -> bool)
    returns (pop: Population)
    ensures |pop| == populationSize
    ensures forall m :: 0 <= m < populationSize ==> |pop[m]| == genomeLength
    ensures forall m, n :: 0 <= m < populationSize && 0 <= n < genomeLength ==> pop[m][n] == coin(m, n)
  {
    var result := new Genome[populationSize](_ => []);
    for m := 0 to populationSize
      invariant forall k :: 0 <= k < m ==> |result[k]| == genomeLength
      invariant forall k, n :: 0 <= k < m && 0 <= n < genomeLength ==> result[k][n] == coin(k, n)
    {
      var member: nat := m;
      result[m] := GenerateGenome(genomeLength, (n: nat) => coin(member, n));
    }
    pop := result[..];
  }

  // ---------------------------------------------------------------------
  // Crossover
  // ---------------------------------------------------------------------

  /**
   * What std::merge writes for two ranges of bools (false < true): while both
   * ranges are non-empty it takes the head of the second range only when that
   * head is false and the head of the first is true, otherwise the head of the
   * first; then it copies whatever remains.
   */
  function Merge(xs: seq<bool>, ys: seq<bool>): (r: seq<bool>)
    ensures |r| == |xs| + |ys|
    ensures multiset(r) == multiset(xs) + multiset(ys)
    decreases |xs| + |ys|
  {
    if xs == [] then ys
    else if ys == [] then xs
    else if !ys[0] && xs[0] then
      assert ys == [ys[0]] + ys[1..];
      [ys[0]] + Merge(xs, ys[1..])
    else
      assert xs == [xs[0]] + xs[1..];
      [xs[0]] + Merge(xs[1..], ys)
  }

  /** No true bit comes before a false one: the order std::merge expects of its ranges. */
  predicate SortedBits(s: seq<bool>) {
    forall i, j :: 0 <= i < j < |s| ==> (s[i] ==> s[j])
  }

  /** On ranges that meet std::merge's precondition the interleave is sorted again. */
  lemma {:induction false} MergeOfSortedIsSorted(xs: seq<bool>, ys: seq<bool>)
    requires SortedBits(xs) && SortedBits(ys)
    ensures SortedBits(Merge(xs, ys))
    decreases |xs| + |ys|
  {
    if xs == [] || ys == [] {
    } else if !ys[0] && xs[0] {
      MergeOfSortedIsSorted(xs, ys[1..]);
    } else {
      MergeOfSortedIsSorted(xs[1..], ys);
      var r := Merge(xs[1..], ys);
      if xs[0] {
        // then ys[0] is true as well, so both remaining ranges hold only true bits
        assert forall k :: 0 <= k < |xs[1..]| ==> xs[1..][k] by {
          forall k | 0 <= k < |xs[1..]| ensures xs[1..][k] { assert xs[0] ==> xs[k + 1]; }
        }
        assert false !in multiset(xs[1..]) + multiset(ys);
        forall k | 0 <= k < |r| ensures r[k] {
          assert r[k] in multiset(r);
        }
      }
    }
  }

  datatype CrossoverError = LengthMismatch

  /**
   * singlePointCrossover with the split point `p` drawn from [0, length - 1].
   * The first child merges first[0, p) with second[p + 1, end), the second
   * merges second[0, p) with first[p + 1, end): both are one bit shorter than
   * their parents.
   */
  function SinglePointCrossover(first: Genome, second: Genome, p: nat): (r: Result<(Genome, Genome), CrossoverError>)
    requires |first| == |second| >= 2 ==> p < |first|
    ensures r.Err? <==> |first| != |second|
    ensures r.Err? ==> r.error == LengthMismatch
    ensures |first| == |second| < 2 ==> r == Ok((first, second))
    ensures |first| == |second| >= 2 ==> r.Ok? && |r.value.0| == |first| - 1 && |r.value.1| == |first| - 1
  {
    if |first| != |second| then Err(LengthMismatch)
    else if |first| < 2 then Ok((first, second))
    else Ok((Merge(first[..p], second[p + 1..]), Merge(second[..p], first[p + 1..])))
  }

  /**
   * Each child holds exactly the bits of its two source slices, and the two
   * children together hold every bit of the parents except the two at the
   * split point.
   */
  lemma CrossoverConservesBits(first: Genome, second: Genome, p: nat)
    requires |first| == |second| >= 2 && p < |first|
    ensures var r := SinglePointCrossover(first, second, p);
      && multiset(r.value.0) == multiset(first[..p]) + multiset(second[p + 1..])
      && multiset(r.value.1) == multiset(second[..p]) + multiset(first[p + 1..])
      && multiset(r.value.0) + multiset(r.value.1) + multiset{first[p], second[p]}
         == multiset(first) + multiset(second)
  {
    assert first == first[..p] + [first[p]] + first[p + 1..];
    assert second == second[..p] + [second[p]] + second[p + 1..];
  }

  // ---------------------------------------------------------------------
  // Mutation
  // ---------------------------------------------------------------------

  /** One mutation attempt: whether the probability draw fired, and the drawn index. */
  datatype Draw = Draw(fires: bool, idx: nat)

  /** Every drawn index lies in [0, len - 1], the range of the index distribution. */
  predicate DrawsFit(draws: seq<Draw>, len: nat) {
    forall i :: 0 <= i < |draws| ==> draws[i].idx < len
  }

  /** The genome after the attempts `draws`, applied in order. */
  function Mutated(g: Genome, draws: seq<Draw>): (r: Genome)
    requires DrawsFit(draws, |g|)
    ensures |r| == |g|
    decreases |draws|
  {
    if draws == [] then g
    else
      var prev := Mutated(g, draws[..|draws| - 1]);
      var d := draws[|draws| - 1];
      if d.fires then prev[d.idx := !prev[d.idx]] else prev
  }

  /** mutation: `num` attempts, each flipping the drawn index in place when its draw fires. */
  method Mutation(genome: array<bool>, num: nat, draws: seq<Draw>)
    requires |draws| == num && DrawsFit(draws, genome.Length)
    modifies genome
    ensures genome[..] == Mutated(old(genome[..]), draws)
  {
    for i := 0 to num
      invariant genome[..] == Mutated(old(genome[..]), draws[..i])
    {
      assert draws[..i + 1][..i] == draws[..i];
      var d := draws[i];
      if d.fires {
        genome[d.idx] := !genome[d.idx];
      }
    }
    assert draws[..num] == draws;
  }

  /** Number of positions where two genomes of equal length differ. */
  function Hamming(a: Genome, b: Genome): (d: nat)
    requires |a| == |b|
    ensures d <= |a|
  {
    if a == [] then 0 else (if a[0] != b[0] then 1 else 0) + Hamming(a[1..], b[1..])
  }

  /** Flipping one bit of `b` moves it one step closer to, or further from, `a`. */
  lemma {:induction false} HammingFlip(a: Genome, b: Genome, i: nat)
    requires |a| == |b| && i < |b|
    ensures Hamming(a, b[i := !b[i]]) == Hamming(a, b) + (if a[i] == b[i] then 1 else -1)
  {
    if i > 0 {
      assert b[i := !b[i]][1..] == b[1..][i - 1 := !b[i]];
      HammingFlip(a[1..], b[1..], i - 1);
    }
  }

  /** Number of attempts whose draw fires. */
  function Fires(draws: seq<Draw>): nat {
    if draws == [] then 0 else Fires(draws[..|draws| - 1]) + (if draws[|draws| - 1].fires then 1 else 0)
  }

  /**
   * Each firing attempt flips exactly one bit, so the mutated genome differs
   * from the original in at most as many positions as attempts fired, and in a
   * number of positions of the same parity.
   */
  lemma {:induction false} MutationDistance(g: Genome, draws: seq<Draw>)
    requires DrawsFit(draws, |g|)
    ensures Hamming(g, Mutated(g, draws)) <= Fires(draws)
    ensures (Fires(draws) - Hamming(g, Mutated(g, draws))) % 2 == 0
    decreases |draws|
  {
    if draws != [] {
      var init := draws[..|draws| - 1];
      MutationDistance(g, init);
      var d := draws[|draws| - 1];
      var prev := Mutated(g, init);
      if d.fires {
        HammingFlip(g, prev, d.idx);
        assert Mutated(g, draws) == prev[d.idx := !prev[d.idx]];
        assert Fires(draws) == Fires(init) + 1;
      } else {
        assert Mutated(g, draws) == prev;
        assert Fires(draws) == Fires(init);
      }
    } else {
      HammingSelf(g);
    }
  }

  /** With no firing attempt (in particular with num = 0) the genome is unchanged. */
  lemma {:induction false} MutationWithoutFiringIsIdentity(g: Genome, draws: seq<Draw>)
    requires DrawsFit(draws, |g|) && Fires(draws) == 0
    ensures Mutated(g, draws) == g
    decreases |draws|
  {
    if draws != [] {
      MutationWithoutFiringIsIdentity(g, draws[..|draws| - 1]);
    }
  }

  /** One attempt that fires changes exactly the drawn bit: the Hamming distance is 1. */
  lemma SingleFiringMutationFlipsOneBit(g: Genome, idx: nat)
    requires idx < |g|
    ensures DrawsFit([Draw(true, idx)], |g|)
    ensures var r := Mutated(g, [Draw(true, idx)]);
      && r[idx] != g[idx]
      && (forall j :: 0 <= j < |g| && j != idx ==> r[j] == g[j])
      && Hamming(g, r) == 1
  {
    var ds := [Draw(true, idx)];
    assert ds[..0] == [];
    HammingFlip(g, g, idx);
    HammingSelf(g);
  }

  lemma {:induction false} HammingSelf(g: Genome)
    ensures Hamming(g, g) == 0
  {
    if g != [] {
      HammingSelf(g[1..]);
    }
  }

  // ---------------------------------------------------------------------
  // Population fitness
  // ---------------------------------------------------------------------

  /** Sum of the members' scores (in unbounded integers). */
  function TotalFitness(pop: Population, fitness: FitnessFunc): int {
    if pop == [] then 0 else TotalFitness(pop[..|pop| - 1], fitness) + fitness(pop[|pop| - 1])
  }

  /** populationFitness: the running sum over the population. */
  method PopulationFitness(population: Population, fitness: FitnessFunc) returns (sum: int)
    ensures sum == TotalFitness(population, fitness)
  {
    sum := 0;
    for i := 0 to |population|
      invariant sum == TotalFitness(population[..i], fitness)
    {
      assert population[..i + 1][..i] == population[..i];
      sum := sum + fitness(population[i]);
    }
    assert population[..|population|] == population;
  }

  /** The total of two populations put together is the sum of their totals. */
  lemma {:induction false} TotalFitnessAppend(p: Population, q: Population, fitness: FitnessFunc)
    ensures TotalFitness(p + q, fitness) == TotalFitness(p, fitness) + TotalFitness(q, fitness)
    decreases |q|
  {
    if q == [] {
      assert p + q == p;
    } else {
      assert (p + q)[..|p + q| - 1] == p + q[..|q| - 1];
      TotalFitnessAppend(p, q[..|q| - 1], fitness);
    }
  }

  // ---------------------------------------------------------------------
  // The weighted distribution: a std::map<int, Genome> keyed by score
  // ---------------------------------------------------------------------

  /** One map entry: a score and the genome stored under it. */
  datatype Entry = Entry(weight: int32, genome: Genome)

  /** The map as its entries in ascending key order, the order std::map iterates in. */
  type Weighted = seq<Entry>

  predicate KeySorted(wp: Weighted) {
    forall i, j :: 0 <= i < j < |wp| ==> wp[i].weight < wp[j].weight
  }

  /** The genome stored under key `w`, if any. */
  function Lookup(wp: Weighted, w: int): Option<Genome> {
    if wp == [] then None
    else if wp[0].weight == w then Some(wp[0].genome)
    else Lookup(wp[1..], w)
  }

  lemma {:induction false} LookupBelowFirstKey(wp: Weighted, w: int)
    requires KeySorted(wp) && wp != [] && w < wp[0].weight
    ensures Lookup(wp, w) == None
    decreases |wp|
  {
    if |wp| > 1 {
      LookupBelowFirstKey(wp[1..], w);
    }
  }

  /** `wp[w] = g`: insert the key, or overwrite the genome it already holds. */
  function Insert(wp: Weighted, w: int32, g: Genome): (r: Weighted)
    requires KeySorted(wp)
    ensures KeySorted(r)
    ensures forall v :: Lookup(r, v) == if v == w then Some(g) else Lookup(wp, v)
    ensures |r| == if Lookup(wp, w).None? then |wp| + 1 else |wp|
    ensures forall e :: e in r ==> e in wp || e == Entry(w, g)
    decreases |wp|
  {
    if wp == [] then [Entry(w, g)]
    else if w < wp[0].weight then
      LookupBelowFirstKey(wp, w);
      assert ([Entry(w, g)] + wp)[1..] == wp;
      [Entry(w, g)] + wp
    else if w == wp[0].weight then
      assert ([Entry(w, g)] + wp[1..])[1..] == wp[1..];
      [Entry(w, g)] + wp[1..]
    else
      var rest := Insert(wp[1..], w, g);
      assert ([wp[0]] + rest)[1..] == rest;
      KeysAboveFirst(wp, w, g, rest);
      [wp[0]] + rest
  }

  /** Re-inserting behind the first entry keeps every key above the first one. */
  lemma KeysAboveFirst(wp: Weighted, w: int32, g: Genome, rest: Weighted)
    requires KeySorted(wp) && wp != [] && w > wp[0].weight && KeySorted(rest)
    requires forall e :: e in rest ==> e in wp[1..] || e == Entry(w, g)
    ensures KeySorted([wp[0]] + rest)
  {
    var r := [wp[0]] + rest;
    forall j | 0 <= j < |rest|
      ensures wp[0].weight < rest[j].weight
    {
      if rest[j] != Entry(w, g) {
        assert rest[j] in wp[1..];
        var k :| 0 <= k < |wp[1..]| && wp[1..][k] == rest[j];
        assert wp[k + 1] == rest[j];
      }
    }
    forall i, j | 0 <= i < j < |r|
      ensures r[i].weight < r[j].weight
    {
      assert r[j] == rest[j - 1];
      if 0 < i {
        assert r[i] == rest[i - 1];
      }
    }
  }

  /** The genome of the last (highest-index) member scoring `w`: the reference for the map's contents. */
  function LastScored(pop: Population, fitness: FitnessFunc, w: int): Option<Genome> {
    if pop == [] then None
    else if fitness(pop[|pop| - 1]) == w then Some(pop[|pop| - 1])
    else LastScored(pop[..|pop| - 1], fitness, w)
  }

  /**
   * The map generateWeightedDistribution builds: every member inserted under
   * its score in population order, so a later member overwrites an earlier
   * one with the same score.
   */
  function Distribution(pop: Population, fitness: FitnessFunc): (wp: Weighted)
    ensures KeySorted(wp)
    ensures forall i :: 0 <= i < |wp| ==> wp[i].weight == fitness(wp[i].genome) && wp[i].genome in pop
    ensures forall w :: Lookup(wp, w) == LastScored(pop, fitness, w)
    decreases |pop|
  {
    if pop == [] then []
    else
      var last := pop[|pop| - 1];
      var init := Distribution(pop[..|pop| - 1], fitness);
      var r := Insert(init, fitness(last), last);
      assert forall i :: 0 <= i < |r| ==> r[i] in init || r[i] == Entry(fitness(last), last);
      r
  }

  /** generateWeightedDistribution: the insertion loop. */
  method GenerateWeightedDistribution(population: Population, fitness: FitnessFunc) returns (wp: Weighted)
    ensures wp == Distribution(population, fitness)
  {
    wp := [];
    for i := 0 to |population|
      invariant wp == Distribution(population[..i], fitness)
    {
      var gene := population[i];
      var weight := fitness(gene);
      wp := Insert(wp, weight, gene);
      assert population[..i + 1][..i] == population[..i];
      DistributionStep(population[..i + 1], fitness);
    }
    assert population[..|population|] == population;
  }

  /** The distinct scores of the members. */
  ghost function Scores(pop: Population, fitness: FitnessFunc): set<int> {
    set i | 0 <= i < |pop| :: fitness(pop[i])
  }

  lemma {:induction false} LastScoredFindsEveryScore(pop: Population, fitness: FitnessFunc, w: int)
    ensures LastScored(pop, fitness, w).Some? <==> w in Scores(pop, fitness)
    decreases |pop|
  {
    if pop != [] {
      var init := pop[..|pop| - 1];
      LastScoredFindsEveryScore(init, fitness, w);
      ScoresOfAppend(pop, fitness);
    }
  }

  lemma ScoresOfAppend(pop: Population, fitness: FitnessFunc)
    requires pop != []
    ensures Scores(pop, fitness) == Scores(pop[..|pop| - 1], fitness) + {fitness(pop[|pop| - 1])}
  {
    var init := pop[..|pop| - 1];
    forall v | v in Scores(pop, fitness) ensures v in Scores(init, fitness) + {fitness(pop[|pop| - 1])} {
      var i :| 0 <= i < |pop| && fitness(pop[i]) == v;
      if i < |pop| - 1 {
        assert fitness(init[i]) == v;
      }
    }
    forall v | v in Scores(init, fitness) ensures v in Scores(pop, fitness) {
      var i :| 0 <= i < |init| && fitness(init[i]) == v;
      assert fitness(pop[i]) == v;
    }
  }

  /** The map has one entry per distinct score, so never more entries than members. */
  lemma {:induction false} DistributionSize(pop: Population, fitness: FitnessFunc)
    ensures |Distribution(pop, fitness)| == |Scores(pop, fitness)| <= |pop|
    decreases |pop|
  {
    if pop == [] {
      assert Scores(pop, fitness) == {};
    } else {
      var init := pop[..|pop| - 1];
      var w := fitness(pop[|pop| - 1]);
      DistributionSize(init, fitness);
      ScoresOfAppend(pop, fitness);
      LastScoredFindsEveryScore(init, fitness, w);
    }
  }

  /** Two members with the same score make the map, and so the sorted population, shrink. */
  lemma {:induction false} DistributionShrinksOnTie(pop: Population, fitness: FitnessFunc, i: nat, j: nat)
    requires i < j < |pop| && fitness(pop[i]) == fitness(pop[j])
    ensures |Distribution(pop, fitness)| < |pop|
    decreases |pop|
  {
    var init := pop[..|pop| - 1];
    DistributionSize(init, fitness);
    if j == |pop| - 1 {
      assert fitness(init[i]) == fitness(pop[j]);
      LastScoredFindsEveryScore(init, fitness, fitness(pop[j]));
    } else {
      DistributionShrinksOnTie(init, fitness, i, j);
    }
  }

  /** The genomes of the map, in ascending key order. */
  function Genomes(wp: Weighted): (r: seq<Genome>)
    ensures |r| == |wp|
    ensures forall i :: 0 <= i < |wp| ==> r[i] == wp[i].genome
  {
    if wp == [] then [] else [wp[0].genome] + Genomes(wp[1..])
  }

  lemma {:induction false} InsertNewKeyAddsGenome(wp: Weighted, w: int32, g: Genome)
    requires KeySorted(wp) && Lookup(wp, w).None?
    ensures multiset(Genomes(Insert(wp, w, g))) == multiset(Genomes(wp)) + multiset{g}
    decreases |wp|
  {
    if wp == [] {
      assert Genomes(Insert(wp, w, g)) == [g];
    } else if w < wp[0].weight {
      InsertedGenomesInFront(wp, w, g);
    } else {
      assert w != wp[0].weight;
      InsertNewKeyAddsGenome(wp[1..], w, g);
      InsertedGenomesBehindFirst(wp, w, g);
      assert Genomes(wp) == [wp[0].genome] + Genomes(wp[1..]);
    }
  }

  lemma InsertedGenomesInFront(wp: Weighted, w: int32, g: Genome)
    requires KeySorted(wp) && wp != [] && w < wp[0].weight
    ensures Genomes(Insert(wp, w, g)) == [g] + Genomes(wp)
  {
    var r := Insert(wp, w, g);
    assert r[1..] == wp;
  }

  lemma InsertedGenomesBehindFirst(wp: Weighted, w: int32, g: Genome)
    requires KeySorted(wp) && wp != [] && w > wp[0].weight
    ensures Genomes(Insert(wp, w, g)) == [wp[0].genome] + Genomes(Insert(wp[1..], w, g))
  {
    var r := Insert(wp, w, g);
    assert r[1..] == Insert(wp[1..], w, g);
  }

  /** With pairwise distinct scores no member is overwritten: the map holds the whole population. */
  lemma {:induction false} DistributionKeepsAllOnDistinctScores(pop: Population, fitness: FitnessFunc)
    requires DistinctScores(pop, fitness)
    ensures multiset(Genomes(Distribution(pop, fitness))) == multiset(pop)
    decreases |pop|
  {
    if pop != [] {
      var init := pop[..|pop| - 1];
      var last := pop[|pop| - 1];
      LastHasNewScore(pop, fitness);
      DistributionKeepsAllOnDistinctScores(init, fitness);
      var wp := Distribution(init, fitness);
      InsertNewKeyAddsGenome(wp, fitness(last), last);
      DistributionStep(pop, fitness);
      MultisetOfSplitLast(pop);
    }
  }

  lemma MultisetOfSplitLast<T>(s: seq<T>)
    requires s != []
    ensures multiset(s) == multiset(s[..|s| - 1]) + multiset{s[|s| - 1]}
  {
    assert s == s[..|s| - 1] + [s[|s| - 1]];
  }

  lemma DistributionStep(pop: Population, fitness: FitnessFunc)
    requires pop != []
    ensures Distribution(pop, fitness)
      == Insert(Distribution(pop[..|pop| - 1], fitness), fitness(pop[|pop| - 1]), pop[|pop| - 1])
  {
  }

  predicate DistinctScores(pop: Population, fitness: FitnessFunc) {
    forall i, j :: 0 <= i < j < |pop| ==> fitness(pop[i]) != fitness(pop[j])
  }

  /** Under distinct scores, the prefix has distinct scores and the last member's score is new to it. */
  lemma LastHasNewScore(pop: Population, fitness: FitnessFunc)
    requires pop != [] && DistinctScores(pop, fitness)
    ensures DistinctScores(pop[..|pop| - 1], fitness)
    ensures Lookup(Distribution(pop[..|pop| - 1], fitness), fitness(pop[|pop| - 1])).None?
  {
    var init := pop[..|pop| - 1];
    var w := fitness(pop[|pop| - 1]);
    forall i | 0 <= i < |init| ensures fitness(init[i]) != w {
      assert init[i] == pop[i];
    }
    assert w !in Scores(init, fitness);
    LastScoredFindsEveryScore(init, fitness, w);
  }

  // ---------------------------------------------------------------------
  // Sorting
  // ---------------------------------------------------------------------

  /** `s` backwards. */
  function Reversed<T>(s: seq<T>): (r: seq<T>)
    ensures |r| == |s|
    ensures forall i :: 0 <= i < |s| ==> r[i] == s[|s| - 1 - i]
  {
    seq(|s|, i requires 0 <= i < |s| => s[|s| - 1 - i])
  }

  lemma {:induction false} ReversedKeepsMultiset<T>(s: seq<T>)
    ensures multiset(Reversed(s)) == multiset(s)
    decreases |s|
  {
    if s != [] {
      var init := s[..|s| - 1];
      ReversedKeepsMultiset(init);
      assert Reversed(s) == [s[|s| - 1]] + Reversed(init);
      assert s == init + [s[|s| - 1]];
    }
  }

  /**
   * sortPopulation: the genomes of the map, by descending score when
   * `reversed`, ascending otherwise. Scores strictly decrease (increase), and
   * every genome listed is a member of the population.
   */
  function SortedPopulation(pop: Population, fitness: FitnessFunc, reversed: bool): (r: Population)
    ensures |r| == |Distribution(pop, fitness)|
    ensures forall i :: 0 <= i < |r| ==> r[i] in pop
    ensures reversed ==> forall i, j :: 0 <= i < j < |r| ==> fitness(r[i]) > fitness(r[j])
    ensures !reversed ==> forall i, j :: 0 <= i < j < |r| ==> fitness(r[i]) < fitness(r[j])
  {
    var ascending := Genomes(Distribution(pop, fitness));
    if reversed then Reversed(ascending) else ascending
  }

  /** sortPopulation: builds the map, then walks it backwards or forwards, pushing each genome. */
  method SortPopulation(population: Population, fitness: FitnessFunc, reversed: bool) returns (result: Population)
    ensures result == SortedPopulation(population, fitness, reversed)
  {
    var wp := GenerateWeightedDistribution(population, fitness);
    result := WalkMap(wp, reversed);
  }

  /** The walk of sortPopulation over the map: from the highest key down, or from the lowest up. */
  method WalkMap(wp: Weighted, reversed: bool) returns (result: Population)
    ensures result == if reversed then Reversed(Genomes(wp)) else Genomes(wp)
  {
    result := [];
    ghost var ascending := Genomes(wp);
    if reversed {
      var k := |wp|;
      while k > 0
        invariant 0 <= k <= |wp|
        invariant |result| == |wp| - k
        invariant forall i :: 0 <= i < |result| ==> result[i] == ascending[|wp| - 1 - i]
      {
        k := k - 1;
        result := result + [wp[k].genome];
      }
      assert result == Reversed(ascending);
    } else {
      for k := 0 to |wp|
        invariant result == ascending[..k]
      {
        assert ascending[..k + 1] == ascending[..k] + [wp[k].genome];
        result := result + [wp[k].genome];
      }
      assert ascending[..|wp|] == ascending;
    }
  }

  /** The descending and the ascending orders are exact reverses of each other. */
  lemma SortOrdersAreReverses(pop: Population, fitness: FitnessFunc)
    ensures SortedPopulation(pop, fitness, true) == Reversed(SortedPopulation(pop, fitness, false))
  {
  }

  /** The sorted population has one genome per distinct score, never more than the population. */
  lemma SortedSize(pop: Population, fitness: FitnessFunc, reversed: bool)
    ensures |SortedPopulation(pop, fitness, reversed)| == |Scores(pop, fitness)| <= |pop|
  {
    DistributionSize(pop, fitness);
  }

  /** With pairwise distinct scores the sorted population is a permutation of the population. */
  lemma SortIsPermutationOnDistinctScores(pop: Population, fitness: FitnessFunc, reversed: bool)
    requires DistinctScores(pop, fitness)
    ensures multiset(SortedPopulation(pop, fitness, reversed)) == multiset(pop)
  {
    DistributionKeepsAllOnDistinctScores(pop, fitness);
    ReversedKeepsMultiset(Genomes(Distribution(pop, fitness)));
  }

  // ---------------------------------------------------------------------
  // Roulette-wheel selection
  // ---------------------------------------------------------------------

  /** Sum of the map's weights, accumulated in key order. */
  function WeightSum(wp: Weighted): int {
    if wp == [] then 0 else WeightSum(wp[..|wp| - 1]) + wp[|wp| - 1].weight
  }

  /** Cumulative weight of the first k entries. */
  function PrefixSum(wp: Weighted, k: nat): int
    requires k <= |wp|
  {
    WeightSum(wp[..k])
  }

  /**
   * The inner loop of selectionPair for one draw: walk the entries in key
   * order, stop at the first whose weight exceeds what is left of `rnd`,
   * subtracting each passed weight; no such entry leaves the empty genome.
   */
  function Pick(wp: Weighted, rnd: int): (r: Genome)
    ensures r == [] || exists i :: 0 <= i < |wp| && wp[i].genome == r
  {
    if wp == [] then []
    else if rnd < wp[0].weight then wp[0].genome
    else Pick(wp[1..], rnd - wp[0].weight)
  }

  lemma PrefixSumStep(wp: Weighted, k: nat)
    requires k < |wp|
    ensures PrefixSum(wp, k + 1) == PrefixSum(wp, k) + wp[k].weight
  {
    assert wp[..k + 1][..k] == wp[..k];
  }

  /** Dropping the first entry lowers every later prefix sum by its weight. */
  lemma {:induction false} PrefixSumOfTail(wp: Weighted, j: nat)
    requires j < |wp|
    ensures PrefixSum(wp[1..], j) == PrefixSum(wp, j + 1) - wp[0].weight
  {
    if j == 0 {
      PrefixSumStep(wp, 0);
      assert wp[1..][..0] == [] && wp[..0] == [];
    } else {
      PrefixSumOfTail(wp, j - 1);
      PrefixSumStep(wp[1..], j - 1);
      PrefixSumStep(wp, j);
    }
  }

  /**
   * The wheel picks the first entry, in ascending-score order, whose
   * cumulative weight exceeds the draw.
   */
  lemma {:induction false} PickFirstExceeding(wp: Weighted, rnd: int, k: nat)
    requires k < |wp|
    requires forall j :: 1 <= j <= k ==> PrefixSum(wp, j) <= rnd
    requires rnd < PrefixSum(wp, k + 1)
    ensures Pick(wp, rnd) == wp[k].genome
    decreases k
  {
    PrefixSumStep(wp, 0);
    assert wp[..0] == [];
    if k > 0 {
      assert PrefixSum(wp, 1) <= rnd;
      var rest := rnd - wp[0].weight;
      forall j | 1 <= j <= k - 1 ensures PrefixSum(wp[1..], j) <= rest {
        PrefixSumOfTail(wp, j);
      }
      PrefixSumOfTail(wp, k);
      PickFirstExceeding(wp[1..], rest, k - 1);
    }
  }

  /** A draw that no cumulative weight exceeds falls through and leaves the empty genome. */
  lemma {:induction false} PickFallsThrough(wp: Weighted, rnd: int)
    requires forall j :: 1 <= j <= |wp| ==> PrefixSum(wp, j) <= rnd
    ensures Pick(wp, rnd) == []
    decreases |wp|
  {
    if wp != [] {
      PrefixSumStep(wp, 0);
      assert wp[..0] == [];
      assert PrefixSum(wp, 1) <= rnd;
      var rest := rnd - wp[0].weight;
      forall j | 1 <= j <= |wp| - 1 ensures PrefixSum(wp[1..], j) <= rest {
        PrefixSumOfTail(wp, j);
      }
      PickFallsThrough(wp[1..], rest);
    }
  }

  /** With positive weights the prefix sums only grow. */
  lemma {:induction false} PrefixSumMonotone(wp: Weighted, j: nat, k: nat)
    requires j <= k <= |wp|
    requires forall i :: 0 <= i < |wp| ==> wp[i].weight > 0
    ensures PrefixSum(wp, j) <= PrefixSum(wp, k)
    decreases k - j
  {
    if j < k {
      PrefixSumStep(wp, k - 1);
      PrefixSumMonotone(wp, j, k - 1);
    }
  }

  /** With positive weights a draw equal to the total weight selects nothing: the slot stays empty. */
  lemma PickAtTotalWeight(wp: Weighted)
    requires forall i :: 0 <= i < |wp| ==> wp[i].weight > 0
    ensures Pick(wp, WeightSum(wp)) == []
  {
    assert wp[..|wp|] == wp;
    forall j | 1 <= j <= |wp| ensures PrefixSum(wp, j) <= WeightSum(wp) {
      PrefixSumMonotone(wp, j, |wp|);
    }
    PickFallsThrough(wp, WeightSum(wp));
  }

  /** The accumulation of `sumWeights` over the map, in key order. */
  method SumWeights(wp: Weighted) returns (sum: int)
    ensures sum == WeightSum(wp)
  {
    sum := 0;
    for k := 0 to |wp|
      invariant sum == PrefixSum(wp, k)
    {
      PrefixSumStep(wp, k);
      sum := sum + wp[k].weight;
    }
    assert wp[..|wp|] == wp;
  }

  /** One spin of the wheel: the inner loop of selectionPair for the draw `rnd`. */
  method Spin(wp: Weighted, rnd: int) returns (picked: Genome)
    ensures picked == Pick(wp, rnd)
  {
    picked := [];
    var left := rnd;
    var k := 0;
    while k < |wp|
      invariant 0 <= k <= |wp|
      invariant Pick(wp, rnd) == Pick(wp[k..], left)
    {
      assert wp[k..][1..] == wp[k + 1..];
      if left < wp[k].weight {
        picked := wp[k].genome;
        return;
      }
      left := left - wp[k].weight;
      k := k + 1;
    }
  }

  /**
   * selectionPair: builds the map, sums its weights, then spins the wheel
   * once per slot with the draws `draws[0]` and `draws[1]`, each drawn from
   * [0, total weight]. A slot the wheel does not fill keeps the empty genome.
   */
  method SelectionPair(population: Population, fitness: FitnessFunc, draws: seq<int>)
    returns (first: Genome, second: Genome)
    requires |draws| == 2
    requires forall i :: 0 <= i < 2 ==> 0 <= draws[i] <= WeightSum(Distribution(population, fitness))
    ensures first == Pick(Distribution(population, fitness), draws[0])
    ensures second == Pick(Distribution(population, fitness), draws[1])
    ensures first == [] || first in population
    ensures second == [] || second in population
  {
    var wp := GenerateWeightedDistribution(population, fitness);
    var sumWeights := SumWeights(wp);
    var result: seq<Genome> := [[], []];
    for i := 0 to 2
      invariant |result| == 2
      invariant forall j :: 0 <= j < i ==> result[j] == Pick(wp, draws[j])
    {
      var picked := Spin(wp, draws[i]);
      result := result[i := picked];
    }
    first, second := result[0], result[1];
    PickIsMember(population, fitness, draws[0]);
    PickIsMember(population, fitness, draws[1]);
  }

  /** Selection returns the empty genome or a member of the population. */
  lemma PickIsMember(pop: Population, fitness: FitnessFunc, rnd: int)
    ensures var g := Pick(Distribution(pop, fitness), rnd); g == [] || g in pop
  {
    var wp := Distribution(pop, fitness);
    if Pick(wp, rnd) != [] {
      var i :| 0 <= i < |wp| && wp[i].genome == Pick(wp, rnd);
      assert wp[i].genome in pop;
    }
  }

  // ---------------------------------------------------------------------
  // The generation loop
  // ---------------------------------------------------------------------

  /**
   * Ways runEvolution ends without a population: singlePointCrossover throws
   * on parents of different lengths; with fewer than two distinct scores the
   * elitism step reads past the sorted population; a uniform integer
   * distribution over an empty range (a negative total weight, an empty
   * genome to mutate) is undefined.
   */
  datatype EvolutionError = LengthMismatchThrown | TooFewDistinctScores | EmptyDrawRange

  /** Raw random draws for one breeding round. */
  datatype Breeding = Breeding(pick0: nat, pick1: nat, split: nat, fireA: bool, idxA: nat, fireB: bool, idxB: nat)

  /**
   * A raw draw brought into the range [0, hi] of a uniform integer
   * distribution: every value of the range is the clamp of itself, so every
   * outcome the distribution can produce is reachable.
   */
  function Clamp(raw: nat, hi: nat): (r: nat)
    ensures r <= hi
    ensures raw <= hi ==> r == raw
  {
    if raw <= hi then raw else hi
  }

  /**
   * The termination test `fitness(population[0]) >= fitnessLimit`: the int
   * score is converted to uint32_t before the comparison.
   */
  function Stops(score: int32, fitnessLimit: uint32): (stop: bool)
    ensures 0 <= score ==> (stop <==> score >= fitnessLimit)
    ensures score < 0 && fitnessLimit <= 0x8000_0000 ==> stop
  {
    score % 0x1_0000_0000 >= fitnessLimit
  }

  /** All members have `len` bits. */
  predicate Uniform(pop: Population, len: nat) {
    forall k :: 0 <= k < |pop| ==> |pop[k]| == len
  }

  /**
   * What one iteration of the breeding loop produces from the weighted map
   * `wp` of the sorted population: two parents selected by the wheel,
   * crossed at a drawn point, each child given one mutation attempt.
   * Selection draws are clamped into [0, total weight], the crossover point
   * into [0, |parentA| - 1], the mutation index into the child's positions.
   */
  function Offspring(wp: Weighted, d: Breeding): (r: Result<(Genome, Genome), EvolutionError>)
    ensures r.Err? ==> r.error != TooFewDistinctScores
    ensures r.Ok? ==> |r.value.0| > 0 && |r.value.1| > 0
  {
    if WeightSum(wp) < 0 then Err(EmptyDrawRange) else Bred(Parents(wp, d), d)
  }

  /** Crossover of the selected parents at the drawn point, then one mutation attempt per child. */
  function Bred(parents: (Genome, Genome), d: Breeding): (r: Result<(Genome, Genome), EvolutionError>)
    ensures r.Err? ==> r.error != TooFewDistinctScores
    ensures r.Ok? ==> |r.value.0| > 0 && |r.value.1| > 0
  {
    var (parentA, parentB) := parents;
    var split := if |parentA| >= 1 then Clamp(d.split, |parentA| - 1) else 0;
    var crossed := SinglePointCrossover(parentA, parentB, split);
    if crossed.Err? then Err(LengthMismatchThrown)
    else
      var (childA, childB) := crossed.value;
      if |childA| == 0 || |childB| == 0 then Err(EmptyDrawRange)
      else Ok((Mutated(childA, [Draw(d.fireA, Clamp(d.idxA, |childA| - 1))]), Mutated(childB, [Draw(d.fireB, Clamp(d.idxB, |childB| - 1))])))
  }

  /** The two genomes the wheel selects for a round, each draw clamped into [0, total weight]. */
  function Parents(wp: Weighted, d: Breeding): (parents: (Genome, Genome))
    requires WeightSum(wp) >= 0
  {
    (Pick(wp, Clamp(d.pick0, WeightSum(wp))), Pick(wp, Clamp(d.pick1, WeightSum(wp))))
  }

  /**
   * When a round fails: a negative total weight or two empty picks leave an
   * empty draw range, picks of different lengths make the crossover throw;
   * every other round succeeds.
   */
  lemma OffspringOutcome(wp: Weighted, d: Breeding)
    ensures WeightSum(wp) < 0 ==> Offspring(wp, d) == Err(EmptyDrawRange)
    ensures WeightSum(wp) >= 0 ==>
      var (a, b) := Parents(wp, d);
      && (Offspring(wp, d) == Err(EmptyDrawRange) <==> a == [] && b == [])
      && (Offspring(wp, d) == Err(LengthMismatchThrown) <==> |a| != |b|)
      && (Offspring(wp, d).Ok? <==> |a| == |b| && a != [])
  {
  }

  /** Every genome stored in the map has `len` bits. */
  predicate StoredLength(wp: Weighted, len: nat) {
    forall i :: 0 <= i < |wp| ==> |wp[i].genome| == len
  }

  /** The map of a population of `len`-bit genomes stores only `len`-bit genomes. */
  lemma DistributionStoredLength(pop: Population, fitness: FitnessFunc, len: nat)
    requires Uniform(pop, len)
    ensures StoredLength(Distribution(pop, fitness), len)
  {
    var wp := Distribution(pop, fitness);
    forall i | 0 <= i < |wp| ensures |wp[i].genome| == len {
      MemberLength(pop, wp[i].genome, len);
    }
  }

  lemma MemberLength(pop: Population, g: Genome, len: nat)
    requires g in pop && Uniform(pop, len)
    ensures |g| == len
  {
  }

  /** Parents of `len` bits give children of `len - 1` bits, and mutation keeps that length. */
  lemma OffspringLength(wp: Weighted, d: Breeding, len: nat)
    requires len >= 2 && StoredLength(wp, len)
    requires Offspring(wp, d).Ok?
    ensures |Offspring(wp, d).value.0| == len - 1
    ensures |Offspring(wp, d).value.1| == len - 1
  {
    var (a, b) := Parents(wp, d);
    OffspringOutcome(wp, d);
    assert a != [];
  }

  /** A draw below the total weight of a non-empty map always lands on a stored genome. */
  lemma {:induction false} PickBelowTotal(wp: Weighted, rnd: int)
    requires wp != [] && rnd < WeightSum(wp)
    ensures exists i :: 0 <= i < |wp| && wp[i].genome == Pick(wp, rnd)
    decreases |wp|
  {
    if rnd >= wp[0].weight {
      assert wp[..|wp|] == wp && wp[1..][..|wp| - 1] == wp[1..];
      PrefixSumOfTail(wp, |wp| - 1);
      PickBelowTotal(wp[1..], rnd - wp[0].weight);
      var i :| 0 <= i < |wp| - 1 && wp[1..][i].genome == Pick(wp[1..], rnd - wp[0].weight);
      assert wp[i + 1].genome == Pick(wp, rnd);
    } else {
      assert wp[0].genome == Pick(wp, rnd);
    }
  }

  /**
   * Over stored genomes of one length, a round succeeds whenever neither
   * clamped selection draw equals the total weight: both picks then land on
   * stored genomes.
   */
  lemma OffspringSucceeds(wp: Weighted, d: Breeding, len: nat)
    requires len >= 1 && StoredLength(wp, len)
    requires WeightSum(wp) >= 0
    requires Clamp(d.pick0, WeightSum(wp)) < WeightSum(wp) && Clamp(d.pick1, WeightSum(wp)) < WeightSum(wp)
    ensures Offspring(wp, d).Ok?
  {
    assert wp != [];
    PickBelowTotal(wp, Clamp(d.pick0, WeightSum(wp)));
    PickBelowTotal(wp, Clamp(d.pick1, WeightSum(wp)));
    OffspringOutcome(wp, d);
  }

  /** With a non-negative total weight a round breeds from the parents the wheel selects. */
  lemma OffspringOfParents(wp: Weighted, d: Breeding, parents: (Genome, Genome))
    requires WeightSum(wp) >= 0
    requires parents.0 == Pick(wp, Clamp(d.pick0, WeightSum(wp))) && parents.1 == Pick(wp, Clamp(d.pick1, WeightSum(wp)))
    ensures Offspring(wp, d) == Bred(parents, d)
  {
  }

  /** One iteration of the breeding loop, drawing its randomness from `d`. */
  method BreedPair(sorted: Population, fitness: FitnessFunc, d: Breeding)
    returns (outcome: Result<(Genome, Genome), EvolutionError>)
    ensures outcome == Offspring(Distribution(sorted, fitness), d)
  {
    var total := WeightSum(Distribution(sorted, fitness));
    if total < 0 {
      return Err(EmptyDrawRange);
    }
    var parentA, parentB := SelectionPair(sorted, fitness, [Clamp(d.pick0, total), Clamp(d.pick1, total)]);
    OffspringOfParents(Distribution(sorted, fitness), d, (parentA, parentB));
    outcome := CrossAndMutate(parentA, parentB, d);
  }

  /** The part of a breeding round after selection: crossover, then a mutation attempt on each child's copy. */
  method CrossAndMutate(parentA: Genome, parentB: Genome, d: Breeding) returns (outcome: Result<(Genome, Genome), EvolutionError>)
    ensures outcome == Bred((parentA, parentB), d)
  {
    var split := if |parentA| >= 1 then Clamp(d.split, |parentA| - 1) else 0;
    var crossed := SinglePointCrossover(parentA, parentB, split);
    if crossed.Err? {
      return Err(LengthMismatchThrown);
    }
    var childA, childB := crossed.value.0, crossed.value.1;
    if |childA| == 0 || |childB| == 0 {
      return Err(EmptyDrawRange);
    }
    var offspringA := MutateCopy(childA, d.fireA, Clamp(d.idxA, |childA| - 1));
    var offspringB := MutateCopy(childB, d.fireB, Clamp(d.idxB, |childB| - 1));
    outcome := Ok((offspringA, offspringB));
  }

  /** A child copied into its own vector and given one mutation attempt. */
  method MutateCopy(child: Genome, fires: bool, idx: nat) returns (offspring: Genome)
    requires idx < |child|
    ensures offspring == Mutated(child, [Draw(fires, idx)])
    ensures |offspring| == |child|
  {
    var genome := new bool[|child|](k requires 0 <= k < |child| => child[k]);
    assert genome[..] == child;
    Mutation(genome, 1, [Draw(fires, idx)]);
    offspring := genome[..];
  }

  /** A breeding round's outcome: two offspring, or the error that ends the generation. */
  type RoundOutcome = Result<(Genome, Genome), EvolutionError>

  /** The rounds of generation `generation`, selecting from the map `wp` of the sorted population. */
  function RoundOutcomes(wp: Weighted, draws: (nat, nat) -> Breeding, generation: nat): (round: nat -> RoundOutcome) {
    (i: nat) => Offspring(wp, draws(generation, i))
  }

  /**
   * The next generation after the first `n` rounds of breeding: the two best
   * members, then two children per round; the first failing round ends it
   * with that round's error.
   */
  function Rounds(sorted: Population, round: nat -> RoundOutcome, n: nat): (r: Result<Population, EvolutionError>)
    requires |sorted| >= 2
    ensures r.Ok? ==> |r.value| == 2 + 2 * n && r.value[0] == sorted[0] && r.value[1] == sorted[1]
  {
    if n == 0 then Ok([sorted[0], sorted[1]])
    else
      var prev := Rounds(sorted, round, n - 1);
      if prev.Err? then prev
      else if round(n - 1).Err? then Err(round(n - 1).error)
      else Ok(prev.value + [round(n - 1).value.0, round(n - 1).value.1])
  }

  /** Once a round has failed, later rounds do not change the outcome. */
  lemma {:induction false} RoundsErrorPersists(sorted: Population, round: nat -> RoundOutcome, n: nat, m: nat)
    requires |sorted| >= 2 && n <= m
    requires Rounds(sorted, round, n).Err?
    ensures Rounds(sorted, round, m) == Rounds(sorted, round, n)
    decreases m
  {
    if n < m {
      RoundsErrorPersists(sorted, round, n, m - 1);
    }
  }

  /** The rounds succeed exactly when every round does. */
  lemma {:induction false} RoundsSucceed(sorted: Population, round: nat -> RoundOutcome, n: nat)
    requires |sorted| >= 2
    ensures Rounds(sorted, round, n).Ok? <==> forall i :: 0 <= i < n ==> round(i).Ok?
  {
    if n > 0 {
      RoundsSucceed(sorted, round, n - 1);
    }
  }

  /** In a successful breeding, round i contributes the members at 2 + 2i and 3 + 2i. */
  lemma {:induction false} RoundsChildren(sorted: Population, round: nat -> RoundOutcome, n: nat)
    requires |sorted| >= 2
    requires Rounds(sorted, round, n).Ok?
    ensures forall i :: 0 <= i < n ==>
      && round(i).Ok?
      && Rounds(sorted, round, n).value[2 + 2 * i] == round(i).value.0
      && Rounds(sorted, round, n).value[3 + 2 * i] == round(i).value.1
  {
    if n > 0 {
      var prev := Rounds(sorted, round, n - 1);
      RoundsChildren(sorted, round, n - 1);
      var next := Rounds(sorted, round, n).value;
      assert next == prev.value + [round(n - 1).value.0, round(n - 1).value.1];
      assert next[..2 * n] == prev.value;
    }
  }

  /** A failed breeding carries the error of its first failing round. */
  lemma {:induction false} RoundsFirstFailure(sorted: Population, round: nat -> RoundOutcome, n: nat)
    requires |sorted| >= 2
    requires Rounds(sorted, round, n).Err?
    ensures exists i :: && 0 <= i < n
                        && round(i) == Err(Rounds(sorted, round, n).error)
                        && forall j :: 0 <= j < i ==> round(j).Ok?
  {
    var prev := Rounds(sorted, round, n - 1);
    if prev.Err? {
      RoundsFirstFailure(sorted, round, n - 1);
    } else {
      RoundsSucceed(sorted, round, n - 1);
      assert round(n - 1).Err?;
    }
  }

  /** When every successful round yields two `len`-bit children, so does a successful breeding. */
  lemma {:induction false} RoundsLength(sorted: Population, round: nat -> RoundOutcome, n: nat, len: nat)
    requires |sorted| >= 2
    requires forall i: nat :: round(i).Ok? ==> |round(i).value.0| == len && |round(i).value.1| == len
    requires Rounds(sorted, round, n).Ok?
    ensures forall k :: 2 <= k < 2 + 2 * n ==> |Rounds(sorted, round, n).value[k]| == len
  {
    if n > 0 {
      RoundsLength(sorted, round, n - 1, len);
      var prev := Rounds(sorted, round, n - 1).value;
      assert Rounds(sorted, round, n).value == prev + [round(n - 1).value.0, round(n - 1).value.1];
    }
  }

  /**
   * The body of one generation after the termination test: the two best
   * members survive, then (|sorted| / 2 - 1) rounds of BreedPair append two
   * children each.
   */
  method Breed(sorted: Population, fitness: FitnessFunc, draws: (nat, nat) -> Breeding, generation: nat)
    returns (outcome: Result<Population, EvolutionError>)
    ensures outcome == BredGeneration(sorted, fitness, draws, generation)
  {
    if |sorted| < 2 {
      return Err(TooFewDistinctScores);
    }
    outcome := BreedRounds(sorted, fitness, draws, generation,
                           RoundOutcomes(Distribution(sorted, fitness), draws, generation), |sorted| / 2 - 1);
  }

  /**
   * The breeding loop: the elites, then `n` rounds of BreedPair, where
   * `round(i)` is what round i yields; the first failing round ends it.
   */
  method BreedRounds(sorted: Population, fitness: FitnessFunc, draws: (nat, nat) -> Breeding, generation: nat,
                     ghost round: nat -> RoundOutcome, n: nat)
    returns (outcome: Result<Population, EvolutionError>)
    requires |sorted| >= 2
    requires forall i: nat :: round(i) == Offspring(Distribution(sorted, fitness), draws(generation, i))
    ensures outcome == Rounds(sorted, round, n)
  {
    var nextGeneration := [sorted[0], sorted[1]];
    for i := 0 to n
      invariant Rounds(sorted, round, i) == Ok(nextGeneration)
    {
      var pair := BreedPair(sorted, fitness, draws(generation, i));
      assert round(i) == pair;
      if pair.Err? {
        RoundFails(sorted, round, i, n);
        return Err(pair.error);
      }
      RoundSucceeds(sorted, round, i);
      nextGeneration := nextGeneration + [pair.value.0, pair.value.1];
    }
    outcome := Ok(nextGeneration);
  }

  /** A round that fails after successful ones is the outcome of all `n` rounds. */
  lemma {:induction false} RoundFails(sorted: Population, round: nat -> RoundOutcome, i: nat, n: nat)
    requires |sorted| >= 2 && i < n
    requires Rounds(sorted, round, i).Ok? && round(i).Err?
    ensures Rounds(sorted, round, n) == Err(round(i).error)
  {
    RoundsErrorPersists(sorted, round, i + 1, n);
  }

  /** A round that succeeds after successful ones appends its two children. */
  lemma {:induction false} RoundSucceeds(sorted: Population, round: nat -> RoundOutcome, i: nat)
    requires |sorted| >= 2
    requires Rounds(sorted, round, i).Ok? && round(i).Ok?
    ensures Rounds(sorted, round, i + 1) == Ok(Rounds(sorted, round, i).value + [round(i).value.0, round(i).value.1])
  {
  }

  /** A population the generation loop can keep working on: non-empty, paired, no empty genome. */
  predicate Viable(pop: Population) {
    && 0 < |pop| <= GenomesInPopulation && |pop| % 2 == 0
    && forall k :: 0 <= k < |pop| ==> |pop[k]| > 0
  }

  /** When every successful round yields non-empty offspring, a successful breeding holds no empty child. */
  lemma {:induction false} RoundsNonEmpty(sorted: Population, round: nat -> RoundOutcome, n: nat)
    requires |sorted| >= 2
    requires forall i: nat :: round(i).Ok? ==> |round(i).value.0| > 0 && |round(i).value.1| > 0
    requires Rounds(sorted, round, n).Ok?
    ensures forall k :: 2 <= k < 2 + 2 * n ==> |Rounds(sorted, round, n).value[k]| > 0
  {
    if n > 0 {
      RoundsNonEmpty(sorted, round, n - 1);
      var prev := Rounds(sorted, round, n - 1).value;
      assert Rounds(sorted, round, n).value == prev + [round(n - 1).value.0, round(n - 1).value.1];
    }
  }

  /** The rounds bred from the sorted members of a viable population give a viable population. */
  lemma BredViable(pop: Population, sorted: Population, round: nat -> RoundOutcome)
    requires Viable(pop)
    requires 2 <= |sorted| <= |pop| && forall i :: 0 <= i < |sorted| ==> sorted[i] in pop
    requires forall i: nat :: round(i).Ok? ==> |round(i).value.0| > 0 && |round(i).value.1| > 0
    requires Rounds(sorted, round, |sorted| / 2 - 1).Ok?
    ensures 0 < |Rounds(sorted, round, |sorted| / 2 - 1).value| <= GenomesInPopulation
    ensures |Rounds(sorted, round, |sorted| / 2 - 1).value| % 2 == 0
    ensures var next := Rounds(sorted, round, |sorted| / 2 - 1).value; forall k :: 0 <= k < |next| ==> |next[k]| > 0
    ensures Viable(Rounds(sorted, round, |sorted| / 2 - 1).value)
  {
    var n := |sorted| / 2 - 1;
    RoundsNonEmpty(sorted, round, n);
    assert sorted[0] in pop && sorted[1] in pop;
  }

  /** Every successful round of a generation yields two non-empty offspring. */
  lemma RoundOutcomesNonEmpty(wp: Weighted, draws: (nat, nat) -> Breeding, generation: nat)
    ensures var round := RoundOutcomes(wp, draws, generation);
      forall i: nat :: round(i).Ok? ==> |round(i).value.0| > 0 && |round(i).value.1| > 0
  {
    var round := RoundOutcomes(wp, draws, generation);
    forall i: nat | round(i).Ok? ensures |round(i).value.0| > 0 && |round(i).value.1| > 0 {
      assert round(i) == Offspring(wp, draws(generation, i));
    }
  }

  /**
   * The generation bred from the population sorted by descending score: the
   * elites and the children of |sorted| / 2 - 1 rounds; fewer than two
   * distinct scores leave no elites to copy.
   */
  function BredGeneration(sorted: Population, fitness: FitnessFunc, draws: (nat, nat) -> Breeding, generation: nat)
    : (r: Result<Population, EvolutionError>)
  {
    if |sorted| < 2 then Err(TooFewDistinctScores)
    else Rounds(sorted, RoundOutcomes(Distribution(sorted, fitness), draws, generation), |sorted| / 2 - 1)
  }

  /** A generation that breeds is the outcome of its rounds over the sorted members' wheel. */
  lemma BredGenerationRounds(sorted: Population, fitness: FitnessFunc, draws: (nat, nat) -> Breeding, generation: nat)
    requires BredGeneration(sorted, fitness, draws, generation).Ok?
    ensures |sorted| >= 2
    ensures BredGeneration(sorted, fitness, draws, generation)
         == Rounds(sorted, RoundOutcomes(Distribution(sorted, fitness), draws, generation), |sorted| / 2 - 1)
  {
  }

  /** One generation's breeding from a viable population, which stays viable. */
  function NextGeneration(pop: Population, fitness: FitnessFunc, draws: (nat, nat) -> Breeding, generation: nat)
    : (r: Result<Population, EvolutionError>)
    requires Viable(pop)
    ensures r.Ok? ==> Viable(r.value)
  {
    var sorted := SortedPopulation(pop, fitness, true);
    var next := BredGeneration(sorted, fitness, draws, generation);
    if next.Ok? then
      var wp := Distribution(sorted, fitness);
      SortedSize(pop, fitness, true);
      RoundOutcomesNonEmpty(wp, draws, generation);
      BredGenerationRounds(sorted, fitness, draws, generation);
      BredViable(pop, sorted, RoundOutcomes(wp, draws, generation));
      next
    else next
  }

  /**
   * Over a wheel that stores `len`-bit genomes, every child the rounds of a
   * generation breed has `len - 1` bits, while the two elites keep theirs.
   * The rounds of BredGeneration (RoundOutcomes) are such rounds, with the
   * wheel of the sorted members (BredGenerationRounds, DistributionStoredLength).
   */
  lemma BredChildrenLength(sorted: Population, wp: Weighted, draws: (nat, nat) -> Breeding, generation: nat,
                           round: nat -> RoundOutcome, n: nat, len: nat)
    requires |sorted| >= 2 && len >= 2 && StoredLength(wp, len)
    requires forall i: nat :: round(i) == Offspring(wp, draws(generation, i))
    requires Rounds(sorted, round, n).Ok?
    ensures var next := Rounds(sorted, round, n).value;
      forall k :: 2 <= k < |next| ==> |next[k]| == len - 1
  {
    forall i: nat | round(i).Ok? ensures |round(i).value.0| == len - 1 && |round(i).value.1| == len - 1 {
      OffspringLength(wp, draws(generation, i), len);
    }
    RoundsLength(sorted, round, n, len - 1);
  }

  /**
   * In a generation that breeds, round i selects from the wheel `wp` with
   * the draws of round i, and its two offspring are the members at 2 + 2i
   * and 3 + 2i.
   */
  lemma BredChildren(sorted: Population, wp: Weighted, draws: (nat, nat) -> Breeding, generation: nat,
                     round: nat -> RoundOutcome, n: nat)
    requires |sorted| >= 2
    requires forall i: nat :: round(i) == Offspring(wp, draws(generation, i))
    requires Rounds(sorted, round, n).Ok?
    ensures var next := Rounds(sorted, round, n).value;
      forall i :: 0 <= i < n ==>
        && Offspring(wp, draws(generation, i)).Ok?
        && next[2 + 2 * i] == Offspring(wp, draws(generation, i)).value.0
        && next[3 + 2 * i] == Offspring(wp, draws(generation, i)).value.1
  {
    RoundsChildren(sorted, round, n);
  }

  /**
   * A generation that fails after the elites fails with the error of its
   * first failing round: round i fails (OffspringOutcome says when) and
   * every earlier round succeeds.
   */
  lemma BredFailure(sorted: Population, wp: Weighted, draws: (nat, nat) -> Breeding, generation: nat,
                    round: nat -> RoundOutcome, n: nat)
    requires |sorted| >= 2
    requires forall i: nat :: round(i) == Offspring(wp, draws(generation, i))
    requires Rounds(sorted, round, n).Err?
    ensures Rounds(sorted, round, n).error != TooFewDistinctScores
    ensures exists i :: && 0 <= i < n
                        && Offspring(wp, draws(generation, i)) == Err(Rounds(sorted, round, n).error)
                        && forall j :: 0 <= j < i ==> Offspring(wp, draws(generation, j)).Ok?
  {
    RoundsFirstFailure(sorted, round, n);
  }

  /**
   * The generation loop from generation `genNum` on: stop with the
   * population once `generationLimit` generations have bred or the first
   * member's score reaches `fitnessLimit`; otherwise go on with the next
   * generation, or end with the breeding's error.
   */
  function Evolve(pop: Population, fitness: FitnessFunc, fitnessLimit: uint32, draws: (nat, nat) -> Breeding,
                  genNum: nat, generationLimit: nat): (r: Result<Population, EvolutionError>)
    requires Viable(pop)
    ensures r.Ok? ==> Viable(r.value)
    decreases generationLimit - genNum
  {
    if genNum >= generationLimit || Stops(fitness(pop[0]), fitnessLimit) then Ok(pop)
    else
      var next := NextGeneration(pop, fitness, draws, genNum);
      if next.Err? then next
      else Evolve(next.value, fitness, fitnessLimit, draws, genNum + 1, generationLimit)
  }

  /** How many generations the loop breeds, from generation `genNum` on, before it ends. */
  ghost function BredCount(pop: Population, fitness: FitnessFunc, fitnessLimit: uint32, draws: (nat, nat) -> Breeding,
                           genNum: nat, generationLimit: nat): nat
    requires Viable(pop)
    decreases generationLimit - genNum
  {
    if genNum >= generationLimit || Stops(fitness(pop[0]), fitnessLimit) then 0
    else
      var next := NextGeneration(pop, fitness, draws, genNum);
      if next.Err? then 0 else 1 + BredCount(next.value, fitness, fitnessLimit, draws, genNum + 1, generationLimit)
  }

  /**
   * A run that returns a population breeds no generation past the limit,
   * and when it ends before the limit the first member of what it returns
   * meets the fitness limit.
   */
  lemma {:induction false} EvolveEndsAtStopOrLimit(pop: Population, fitness: FitnessFunc, fitnessLimit: uint32,
                                                   draws: (nat, nat) -> Breeding, genNum: nat, generationLimit: nat)
    requires Viable(pop) && genNum <= generationLimit
    requires Evolve(pop, fitness, fitnessLimit, draws, genNum, generationLimit).Ok?
    ensures var bred := BredCount(pop, fitness, fitnessLimit, draws, genNum, generationLimit);
      var r := Evolve(pop, fitness, fitnessLimit, draws, genNum, generationLimit).value;
      && genNum + bred <= generationLimit
      && (genNum + bred < generationLimit ==> Stops(fitness(r[0]), fitnessLimit))
    decreases generationLimit - genNum
  {
    if genNum < generationLimit && !Stops(fitness(pop[0]), fitnessLimit) {
      var next := NextGeneration(pop, fitness, draws, genNum);
      assert next.Ok?;
      assert Evolve(pop, fitness, fitnessLimit, draws, genNum, generationLimit)
          == Evolve(next.value, fitness, fitnessLimit, draws, genNum + 1, generationLimit);
      assert BredCount(pop, fitness, fitnessLimit, draws, genNum, generationLimit)
          == 1 + BredCount(next.value, fitness, fitnessLimit, draws, genNum + 1, generationLimit);
      EvolveEndsAtStopOrLimit(next.value, fitness, fitnessLimit, draws, genNum + 1, generationLimit);
    }
  }

  /** The default population: `coin(m, n)` is bit n of member m. */
  function InitialPopulation(coin: (nat, nat) -> bool): (pop: Population)
    ensures Viable(pop) && Uniform(pop, GenomeLength)
  {
    seq(GenomesInPopulation, m requires 0 <= m => seq(GenomeLength, n requires 0 <= n => coin(m, n)))
  }

  /** The population drawn bit by bit from `coin` is the default population. */
  lemma GeneratedIsInitial(pop: Population, coin: (nat, nat) -> bool)
    requires |pop| == GenomesInPopulation
    requires forall m :: 0 <= m < GenomesInPopulation ==> |pop[m]| == GenomeLength
    requires forall m, n :: 0 <= m < GenomesInPopulation && 0 <= n < GenomeLength ==> pop[m][n] == coin(m, n)
    ensures pop == InitialPopulation(coin)
  {
    var initial := InitialPopulation(coin);
    forall m | 0 <= m < GenomesInPopulation ensures pop[m] == initial[m] {
      assert |initial[m]| == GenomeLength;
    }
  }

  /**
   * One pass of the generation loop: sort the population, test the unsorted
   * first member against the fitness limit, and breed when it falls short.
   */
  method Generation(population: Population, fitness: FitnessFunc, fitnessLimit: uint32,
                    draws: (nat, nat) -> Breeding, genNum: nat)
    returns (stop: bool, next: Result<Population, EvolutionError>)
    requires Viable(population)
    ensures stop == Stops(fitness(population[0]), fitnessLimit)
    ensures !stop ==> next == NextGeneration(population, fitness, draws, genNum)
  {
    var sortedPopulation := SortPopulation(population, fitness, true);
    stop := Stops(fitness(population[0]), fitnessLimit);
    if stop {
      return stop, Ok(population);
    }
    next := Breed(sortedPopulation, fitness, draws, genNum);
  }

  /**
   * runEvolution: starting from a default population (six genomes of 256
   * bits drawn by `coin`), run at most `generationLimit` generations, each
   * sorting the population and stopping as soon as the unsorted first
   * member's score, read as uint32_t, reaches `fitnessLimit`; otherwise the
   * population is replaced by the next generation.
   */
  method RunEvolution(fitness: FitnessFunc, fitnessLimit: uint32, generationLimit: uint32,
                      coin: (nat, nat) -> bool, draws: (nat, nat) -> Breeding)
    returns (outcome: Result<Population, EvolutionError>)
    ensures outcome == Evolve(InitialPopulation(coin), fitness, fitnessLimit, draws, 0, generationLimit)
    ensures generationLimit == 0 || Stops(fitness(InitialPopulation(coin)[0]), fitnessLimit) ==>
      outcome == Ok(InitialPopulation(coin))
  {
    var population := GeneratePopulation(GenomesInPopulation, GenomeLength, coin);
    ghost var initial := InitialPopulation(coin);
    GeneratedIsInitial(population, coin);
    var genNum := 0;
    while genNum < generationLimit
      invariant genNum <= generationLimit
      invariant Viable(population)
      invariant Evolve(population, fitness, fitnessLimit, draws, genNum, generationLimit)
             == Evolve(initial, fitness, fitnessLimit, draws, 0, generationLimit)
    {
      var stop, next := Generation(population, fitness, fitnessLimit, draws, genNum);
      if stop {
        outcome := Ok(population);
        return;
      }
      if next.Err? {
        outcome := Err(next.error);
        return;
      }
      population := next.value;
      genNum := genNum + 1;
    }
    outcome := Ok(population);
  }
}
