/** The tuner of Evaluation.cpp: `mutateParameters`, the initial population,
    `createRandomTestPositions`, `measureFitness` and the generation loop of
    `trainEvalParameters` (evaluate, sort by fitness descending, keep the top
    half and refill the bottom half with mutations). The random draws are
    parameters, and so is the order `std::sort` picks among equal fitnesses:
    the model takes any sorting function that yields a descending
    permutation. Fitness is the integer -sum|eval|, which orders candidates
    as the source's -sum(|eval| / 100.0) does. */
module Training {
  import opened ChessTypes
  import opened Boards
  import opened Evaluation

  /** A population member: its piece values and its last measured fitness. */
  datatype Candidate = Candidate(params: EvalParameters, fitness: int)

  /** Five draws of a random generator, one per piece value, in the order
      the source draws them: pawn, knight, bishop, rook, queen. */
  datatype Draws = Draws(pawn: int, knight: int, bishop: int, rook: int, queen: int)

  /** Every draw lies in [lo, hi], as `uniform_int_distribution(lo, hi)`
      guarantees. */
  predicate DrawsIn(d: Draws, lo: int, hi: int) {
    lo <= d.pawn <= hi && lo <= d.knight <= hi && lo <= d.bishop <= hi
    && lo <= d.rook <= hi && lo <= d.queen <= hi
  }

  // ---------------------------------------------------------------------
  // mutateParameters
  // ---------------------------------------------------------------------

  /** `mutateParameters`: each piece value plus its draw. */
  function MutateParameters(p: EvalParameters, d: Draws): EvalParameters {
    EvalParameters(p.pawnValue + d.pawn, p.knightValue + d.knight, p.bishopValue + d.bishop,
                   p.rookValue + d.rook, p.queenValue + d.queen)
  }

  /** Every piece value of `q` lies within 10 of that of `p`. */
  predicate WithinTen(p: EvalParameters, q: EvalParameters) {
    Abs(q.pawnValue - p.pawnValue) <= 10 && Abs(q.knightValue - p.knightValue) <= 10
    && Abs(q.bishopValue - p.bishopValue) <= 10 && Abs(q.rookValue - p.rookValue) <= 10
    && Abs(q.queenValue - p.queenValue) <= 10
  }

  /** With draws in [-10, 10] a mutation moves each piece value by at most
      10, and every such vector is the mutation of some draws. */
  lemma MutationReach(p: EvalParameters, q: EvalParameters)
    ensures (exists d :: DrawsIn(d, -10, 10) && MutateParameters(p, d) == q) <==> WithinTen(p, q)
  {
    if WithinTen(p, q) {
      var d := Draws(q.pawnValue - p.pawnValue, q.knightValue - p.knightValue, q.bishopValue - p.bishopValue,
                     q.rookValue - p.rookValue, q.queenValue - p.queenValue);
      assert DrawsIn(d, -10, 10) && MutateParameters(p, d) == q;
    }
  }

  // ---------------------------------------------------------------------
  // The initial population
  // ---------------------------------------------------------------------

  /** The piece values of an initial candidate: a draw in [80, 120] for the
      pawn, and draws times 3, 3, 5 and 9 for knight, bishop, rook and queen. */
  function InitialParams(d: Draws): EvalParameters {
    EvalParameters(d.pawn, d.knight * 3, d.bishop * 3, d.rook * 5, d.queen * 9)
  }

  /** The piece values the initialisation can produce. */
  predicate PlausibleStart(q: EvalParameters) {
    80 <= q.pawnValue <= 120
    && q.knightValue % 3 == 0 && 240 <= q.knightValue <= 360
    && q.bishopValue % 3 == 0 && 240 <= q.bishopValue <= 360
    && q.rookValue % 5 == 0 && 400 <= q.rookValue <= 600
    && q.queenValue % 9 == 0 && 720 <= q.queenValue <= 1080
  }

  /** Initial piece values are exactly the plausible starts: pawn in
      [80, 120], knight and bishop multiples of 3 in [240, 360], rook a
      multiple of 5 in [400, 600], queen a multiple of 9 in [720, 1080]. */
  lemma InitialParamsRange(q: EvalParameters)
    ensures (exists d :: DrawsIn(d, 80, 120) && InitialParams(d) == q) <==> PlausibleStart(q)
  {
    if PlausibleStart(q) {
      var d := Draws(q.pawnValue, q.knightValue / 3, q.bishopValue / 3, q.rookValue / 5, q.queenValue / 9);
      assert DrawsIn(d, 80, 120) && InitialParams(d) == q;
    }
  }

  /** The initial population: one candidate per draw set, fitness 0. When
      the draws lie in [80, 120], as the source's distribution guarantees,
      every candidate starts from plausible piece values. */
  function InitialPopulation(draws: seq<Draws>): (pop: seq<Candidate>)
    ensures |pop| == |draws|
    ensures forall i :: 0 <= i < |pop| ==> pop[i].params == InitialParams(draws[i]) && pop[i].fitness == 0
    ensures (forall i :: 0 <= i < |draws| ==> DrawsIn(draws[i], 80, 120)) ==>
              forall i :: 0 <= i < |pop| ==> PlausibleStart(pop[i].params)
  {
    InitialDrawsArePlausible(draws);
    seq(|draws|, i requires 0 <= i < |draws| => Candidate(InitialParams(draws[i]), 0))
  }

  lemma InitialDrawsArePlausible(draws: seq<Draws>)
    ensures (forall i :: 0 <= i < |draws| ==> DrawsIn(draws[i], 80, 120)) ==>
              forall i :: 0 <= i < |draws| ==> PlausibleStart(InitialParams(draws[i]))
  {
    forall i | 0 <= i < |draws| && DrawsIn(draws[i], 80, 120)
      ensures PlausibleStart(InitialParams(draws[i]))
    {
      InitialParamsRange(InitialParams(draws[i]));
    }
  }

  // ---------------------------------------------------------------------
  // Test positions and fitness
  // ---------------------------------------------------------------------

  /** `createRandomTestPositions(n)`: n copies of the start position. */
  function CreateTestPositions(n: nat): (tests: seq<Board>)
    ensures |tests| == n
  {
    seq(n, _ => NewBoard())
  }

  /** `measureFitness`: minus the sum of the absolute evaluations over the
      test positions, in the integer units the source divides by 100. */
  function MeasureFitness(params: EvalParameters, tests: seq<Board>): int {
    if |tests| == 0 then 0 else -Abs(EvaluateBoard(tests[0], params)) + MeasureFitness(params, tests[1..])
  }

  /** Fitness is never positive, and it is 0 exactly when every test
      position evaluates to 0. */
  lemma {:induction false} FitnessIsNonPositive(params: EvalParameters, tests: seq<Board>)
    ensures MeasureFitness(params, tests) <= 0
    ensures MeasureFitness(params, tests) == 0 <==> forall i :: 0 <= i < |tests| ==> EvaluateBoard(tests[i], params) == 0
  {
    if |tests| > 0 {
      FitnessIsNonPositive(params, tests[1..]);
      assert forall i :: 1 <= i < |tests| ==> tests[i] == tests[1..][i - 1];
    }
  }

  /** On the generated test positions every candidate has fitness 0: the
      start position is materially balanced. */
  lemma StartPositionsAreNeutral(params: EvalParameters, n: nat)
    ensures MeasureFitness(params, CreateTestPositions(n)) == 0
  {
    var tests := CreateTestPositions(n);
    forall i | 0 <= i < |tests|
      ensures EvaluateBoard(tests[i], params) == 0
    {
      InitialEvaluationIsZero(params);
    }
    FitnessIsNonPositive(params, tests);
  }

  /** The fitness loop of a generation: every candidate's fitness measured
      on the test positions. The piece values are untouched, no fitness is
      positive, and a fitness is 0 exactly when the candidate evaluates
      every test position to 0. */
  function Evaluate(pop: seq<Candidate>, tests: seq<Board>): (e: seq<Candidate>)
    ensures |e| == |pop|
    ensures forall i :: 0 <= i < |e| ==> e[i] == pop[i].(fitness := MeasureFitness(pop[i].params, tests))
    ensures forall i :: 0 <= i < |e| ==> e[i].params == pop[i].params && e[i].fitness <= 0
    ensures forall i :: 0 <= i < |e| ==>
              (e[i].fitness == 0 <==> forall t :: 0 <= t < |tests| ==> EvaluateBoard(tests[t], pop[i].params) == 0)
  {
    forall i | 0 <= i < |pop| {
      FitnessIsNonPositive(pop[i].params, tests);
    }
    seq(|pop|, i requires 0 <= i < |pop| => pop[i].(fitness := MeasureFitness(pop[i].params, tests)))
  }

  // ---------------------------------------------------------------------
  // Sorting
  // ---------------------------------------------------------------------

  /** Fitness never increases along the sequence. */
  predicate Descending(s: seq<Candidate>) {
    forall i, j :: 0 <= i < j < |s| ==> s[i].fitness >= s[j].fitness
  }

  /** `sorted` is `pop` rearranged with fitness descending, as `std::sort`
      with `a.fitness > b.fitness` leaves it. */
  predicate SortsTo(pop: seq<Candidate>, sorted: seq<Candidate>) {
    multiset(sorted) == multiset(pop) && Descending(sorted)
  }

  /** A sort that may order equal fitnesses any way it likes. */
  ghost predicate IsSorter(sort: seq<Candidate> -> seq<Candidate>) {
    forall pop :: SortsTo(pop, sort(pop))
  }

  /** Insert `c` into a descending sequence before the first entry it beats
      or equals. */
  function Insert(c: Candidate, s: seq<Candidate>): seq<Candidate> {
    if |s| == 0 || c.fitness >= s[0].fitness then [c] + s else [s[0]] + Insert(c, s[1..])
  }

  /** Insertion sort by fitness, descending: one sort among those `std::sort`
      may produce. */
  function SortDescending(pop: seq<Candidate>): seq<Candidate> {
    if |pop| == 0 then [] else Insert(pop[0], SortDescending(pop[1..]))
  }

  lemma {:induction false} InsertCounts(c: Candidate, s: seq<Candidate>)
    ensures multiset(Insert(c, s)) == multiset(s) + multiset{c}
  {
    if |s| > 0 && c.fitness < s[0].fitness {
      InsertCounts(c, s[1..]);
      assert s == [s[0]] + s[1..];
    }
  }

  /** No entry of the sequence has fitness above `v`. */
  predicate AtMost(s: seq<Candidate>, v: int) {
    forall i :: 0 <= i < |s| ==> s[i].fitness <= v
  }

  lemma {:induction false} InsertBounded(c: Candidate, s: seq<Candidate>, v: int)
    requires AtMost(s, v) && c.fitness <= v
    ensures AtMost(Insert(c, s), v)
  {
    if |s| > 0 && c.fitness < s[0].fitness {
      InsertBounded(c, s[1..], v);
      var r := Insert(c, s);
      forall i | 0 <= i < |r|
        ensures r[i].fitness <= v
      {
        if i > 0 {
          assert r[i] == Insert(c, s[1..])[i - 1];
        }
      }
    } else {
      var r := Insert(c, s);
      forall i | 0 <= i < |r|
        ensures r[i].fitness <= v
      {
        if i > 0 {
          assert r[i] == s[i - 1];
        }
      }
    }
  }

  lemma {:induction false} InsertSorted(c: Candidate, s: seq<Candidate>)
    requires Descending(s)
    ensures Descending(Insert(c, s))
  {
    var r := Insert(c, s);
    if |s| > 0 && c.fitness < s[0].fitness {
      var rest := Insert(c, s[1..]);
      InsertSorted(c, s[1..]);
      InsertBounded(c, s[1..], s[0].fitness);
      forall i, j | 0 <= i < j < |r|
        ensures r[i].fitness >= r[j].fitness
      {
        assert r[j] == rest[j - 1];
        if i > 0 {
          assert r[i] == rest[i - 1];
        }
      }
    } else {
      forall i, j | 0 <= i < j < |r|
        ensures r[i].fitness >= r[j].fitness
      {
        assert r[j] == s[j - 1];
        if i > 0 {
          assert r[i] == s[i - 1];
        }
      }
    }
  }

  lemma {:induction false} SortDescendingSorts(pop: seq<Candidate>)
    ensures SortsTo(pop, SortDescending(pop))
  {
    if |pop| > 0 {
      SortDescendingSorts(pop[1..]);
      InsertCounts(pop[0], SortDescending(pop[1..]));
      InsertSorted(pop[0], SortDescending(pop[1..]));
      assert pop == [pop[0]] + pop[1..];
    }
  }

  /** Sorts in the sense above exist, so a tuner that takes one can run. */
  lemma SortersExist()
    ensures IsSorter(SortDescending)
  {
    forall pop
      ensures SortsTo(pop, SortDescending(pop))
    {
      SortDescendingSorts(pop);
    }
  }

  // ---------------------------------------------------------------------
  // The best fitness
  // ---------------------------------------------------------------------

  /** The largest fitness of a non-empty population. */
  function Best(pop: seq<Candidate>): (m: int)
    requires |pop| > 0
    ensures forall i :: 0 <= i < |pop| ==> pop[i].fitness <= m
    ensures exists i :: 0 <= i < |pop| && pop[i].fitness == m
  {
    if |pop| == 1 then pop[0].fitness
    else
      var rest := Best(pop[1..]);
      assert forall i :: 1 <= i < |pop| ==> pop[i] == pop[1..][i - 1];
      Max(pop[0].fitness, rest)
  }

  /** The head of a sorted population is a member of the original with the
      best fitness. */
  lemma SortedHeadIsBest(pop: seq<Candidate>, sorted: seq<Candidate>)
    requires |pop| > 0 && SortsTo(pop, sorted)
    ensures |sorted| == |pop| && sorted[0] in pop && sorted[0].fitness == Best(pop)
  {
    assert |sorted| == |multiset(sorted)| == |multiset(pop)| == |pop|;
    assert sorted[0] in multiset(sorted);
    var i :| 0 <= i < |pop| && pop[i].fitness == Best(pop);
    assert pop[i] in multiset(pop);
    var k :| 0 <= k < |sorted| && sorted[k] == pop[i];
    assert sorted[0].fitness >= sorted[k].fitness || k == 0;
  }

  // ---------------------------------------------------------------------
  // Keep the top half, mutate into the bottom half
  // ---------------------------------------------------------------------

  /** The replacement loop from slot i on, in place: slot i takes the
      mutation of slot i - s as it stands when slot i is reached. Only the
      piece values change; the fitness field keeps its old value until the
      next evaluation. */
  function ReplaceFrom(pop: seq<Candidate>, s: nat, i: nat, draws: seq<Draws>): (next: seq<Candidate>)
    requires s <= i <= |pop| && |draws| == |pop| - s
    ensures |next| == |pop|
    decreases |pop| - i
  {
    if i == |pop| then pop
    else
      var slot := pop[i].(params := MutateParameters(pop[i - s].params, draws[i - s]));
      ReplaceFrom(pop[i := slot], s, i + 1, draws)
  }

  /** What the in-place loop leaves: slots before i as they were, and every
      later slot j the mutation of slot j - s after the loop, or of its own
      old value when s is 0. */
  lemma {:induction false} ReplaceFromResult(pop: seq<Candidate>, s: nat, i: nat, draws: seq<Draws>)
    requires s <= i <= |pop| && |draws| == |pop| - s
    ensures var next := ReplaceFrom(pop, s, i, draws);
            (forall j :: 0 <= j < i ==> next[j] == pop[j])
            && (forall j :: i <= j < |pop| ==>
                  next[j] == pop[j].(params := MutateParameters(if s == 0 then pop[j].params else next[j - s].params, draws[j - s])))
    decreases |pop| - i
  {
    if i < |pop| {
      var slot := pop[i].(params := MutateParameters(pop[i - s].params, draws[i - s]));
      ReplaceFromResult(pop[i := slot], s, i + 1, draws);
    }
  }

  /** The replacement step of a generation: with `survivors = n / 2`, slots
      `survivors .. n-1` are refilled. */
  function Replace(pop: seq<Candidate>, draws: seq<Draws>): seq<Candidate>
    requires |draws| == |pop| - |pop| / 2
  {
    ReplaceFrom(pop, |pop| / 2, |pop| / 2, draws)
  }

  /** The replacement in closed form, for n candidates and s = n / 2: the
      first s slots are kept; slot s + j, for j < s, gets the mutation of
      slot j; for odd n >= 3 the last slot reads slot s after it was
      overwritten, so it holds a mutation of a mutation of slot 0; and for
      n = 1 the sole candidate is replaced by its own mutation. */
  lemma ReplaceHalf(pop: seq<Candidate>, draws: seq<Draws>)
    requires |draws| == |pop| - |pop| / 2
    ensures var n, s, next := |pop|, |pop| / 2, Replace(pop, draws);
            |next| == n
            && (forall j :: 0 <= j < s ==> next[j] == pop[j])
            && (forall j :: 0 <= j < s ==> next[s + j] == pop[s + j].(params := MutateParameters(pop[j].params, draws[j])))
            && (n % 2 == 1 && n >= 3 ==>
                  next[n - 1] == pop[n - 1].(params := MutateParameters(MutateParameters(pop[0].params, draws[0]), draws[s])))
            && (n == 1 ==> next[0] == pop[0].(params := MutateParameters(pop[0].params, draws[0])))
  {
    var n, s := |pop|, |pop| / 2;
    ReplaceFromResult(pop, s, s, draws);
  }

  // ---------------------------------------------------------------------
  // Generations and the tuner
  // ---------------------------------------------------------------------

  /** One pass of the evolution loop: measure every candidate, sort by
      fitness descending, keep the top half and refill the bottom half. */
  function Generation(pop: seq<Candidate>, tests: seq<Board>, draws: seq<Draws>,
                      sort: seq<Candidate> -> seq<Candidate>): (next: seq<Candidate>)
    requires IsSorter(sort) && |draws| == |pop| - |pop| / 2
    ensures |next| == |pop|
  {
    var sorted := sort(Evaluate(pop, tests));
    assert |sorted| == |multiset(sorted)| == |multiset(Evaluate(pop, tests))| == |pop|;
    Replace(sorted, draws)
  }

  /** Draw sets for every generation: one per refilled slot. */
  predicate DrawsFit(n: nat, draws: seq<seq<Draws>>) {
    forall g :: 0 <= g < |draws| ==> |draws[g]| == n - n / 2
  }

  /** The evolution loop: one generation per draw list. */
  function Evolve(pop: seq<Candidate>, tests: seq<Board>, draws: seq<seq<Draws>>,
                  sort: seq<Candidate> -> seq<Candidate>): (last: seq<Candidate>)
    requires IsSorter(sort) && DrawsFit(|pop|, draws)
    ensures |last| == |pop|
    decreases |draws|
  {
    if |draws| == 0 then pop
    else Evolve(Generation(pop, tests, draws[0], sort), tests, draws[1..], sort)
  }

  /** `trainEvalParameters(generations, populationSize, testPositionsCount)`
      with the initial draws, the per-generation mutation draws and the sort
      as parameters: the piece values of `population[0]` after the loop. A
      population of 0 is excluded: `population[0]` does not exist then. */
  function Train(generations: nat, populationSize: nat, testPositionsCount: nat,
                 initial: seq<Draws>, draws: seq<seq<Draws>>,
                 sort: seq<Candidate> -> seq<Candidate>): EvalParameters
    requires populationSize >= 1 && |initial| == populationSize
    requires |draws| == generations && DrawsFit(populationSize, draws) && IsSorter(sort)
  {
    Evolve(InitialPopulation(initial), CreateTestPositions(testPositionsCount), draws, sort)[0].params
  }

  // ---------------------------------------------------------------------
  // Properties of the loop
  // ---------------------------------------------------------------------

  /** With at least two candidates the fittest candidate survives a
      generation unchanged, so the best measured fitness never decreases
      from one generation to the next. */
  lemma BestFitnessNeverDecreases(pop: seq<Candidate>, tests: seq<Board>, draws: seq<Draws>,
                                  sort: seq<Candidate> -> seq<Candidate>)
    requires |pop| >= 2 && IsSorter(sort) && |draws| == |pop| - |pop| / 2
    ensures Best(Evaluate(Generation(pop, tests, draws, sort), tests)) >= Best(Evaluate(pop, tests))
  {
    var e := Evaluate(pop, tests);
    var sorted := sort(e);
    SortedHeadIsBest(e, sorted);
    ReplaceHalf(sorted, draws);
    var next := Generation(pop, tests, draws, sort);
    assert next[0] == sorted[0];
    var k :| 0 <= k < |e| && e[k] == sorted[0];
    assert Evaluate(next, tests)[0].fitness == sorted[0].fitness;
  }

  /** With a single candidate, survivors = 0 and the candidate is replaced
      by its own mutation: the best is not kept. */
  lemma SoleCandidateIsMutated(pop: seq<Candidate>, tests: seq<Board>, draws: seq<Draws>,
                               sort: seq<Candidate> -> seq<Candidate>)
    requires |pop| == 1 && IsSorter(sort) && |draws| == 1
    ensures Generation(pop, tests, draws, sort)[0].params == MutateParameters(pop[0].params, draws[0])
  {
    var e := Evaluate(pop, tests);
    var sorted := sort(e);
    SortedHeadIsBest(e, sorted);
    ReplaceHalf(sorted, draws);
  }

  /** The last generation is the one the final draw list applies to. */
  lemma {:induction false} EvolveLast(pop: seq<Candidate>, tests: seq<Board>, draws: seq<seq<Draws>>,
                                      sort: seq<Candidate> -> seq<Candidate>)
    requires IsSorter(sort) && DrawsFit(|pop|, draws) && |draws| >= 1
    ensures var before := Evolve(pop, tests, draws[..|draws| - 1], sort);
            |before| == |pop|
            && Evolve(pop, tests, draws, sort) == Generation(before, tests, draws[|draws| - 1], sort)
    decreases |draws|
  {
    if |draws| > 1 {
      var next := Generation(pop, tests, draws[0], sort);
      EvolveLast(next, tests, draws[1..], sort);
      assert draws[1..][..|draws[1..]| - 1] == draws[..|draws| - 1][1..];
    }
  }

  /** With at least one generation and two candidates, the tuner returns the
      piece values of a candidate of the last measured generation with the
      best fitness of that generation. */
  lemma TrainReturnsFittest(generations: nat, populationSize: nat, testPositionsCount: nat,
                            initial: seq<Draws>, draws: seq<seq<Draws>>,
                            sort: seq<Candidate> -> seq<Candidate>)
    requires populationSize >= 2 && |initial| == populationSize && generations >= 1
    requires |draws| == generations && DrawsFit(populationSize, draws) && IsSorter(sort)
    ensures var tests := CreateTestPositions(testPositionsCount);
            var measured := Evaluate(Evolve(InitialPopulation(initial), tests, draws[..generations - 1], sort), tests);
            exists c :: c in measured && c.params == Train(generations, populationSize, testPositionsCount, initial, draws, sort)
                        && c.fitness == Best(measured)
  {
    var tests := CreateTestPositions(testPositionsCount);
    var pop := InitialPopulation(initial);
    EvolveLast(pop, tests, draws, sort);
    var before := Evolve(pop, tests, draws[..generations - 1], sort);
    var measured := Evaluate(before, tests);
    var sorted := sort(measured);
    SortedHeadIsBest(measured, sorted);
    ReplaceHalf(sorted, draws[generations - 1]);
    assert Generation(before, tests, draws[generations - 1], sort)[0] == sorted[0];
  }
}
