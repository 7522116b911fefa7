# A verified model of the TSP genetic algorithm

The system searches for a short closed tour through a set of points in the
plane with a genetic algorithm.

- **Individual.** An `Individual` is one candidate tour. It holds:
  - a *chromosome*: an array holding every point once, in visiting order;
  - its cached tour length.

  Its operators are evaluation, two mutation operators (reverse a random
  segment; a 2-opt move that reverses a segment only when that shortens the
  tour) and `mate`. `mate` either applies order crossover or clones both
  parents, and then mutates each child once.
- **Population.** A `Population` holds a generation of individuals, the
  number of the generation, and the best tour ever seen. `createNextGen`:
  1. carries over the shortest tours (elitism);
  2. fills the rest by tournament selection and mating;
  3. cuts the new generation back to the population size;
  4. replaces the best tour ever seen only by a strictly shorter one.
- **Helpers.** A memoised factorial counts the possible routes. A
  Fisher–Yates shuffle builds the first generation. A memoised, symmetric
  distance oracle serves every length computation.

## How the model is organised

The model keeps the source's imperative form. Each class becomes a Dafny
`class`:

| Source | Dafny class | State |
|---|---|---|
| `Individual` | `Individuals.Individual` | a chromosome `array<Point>`, changed in place, and a `distance` field |
| `Population` | `Populations.Population` | the `currentGen`, `genNumber` and `fittestEver` fields, which `CreateNextGen` reassigns |
| factorial memo | `Util.FactorialMemo` | a `map` field |
| distance cache | `Util.DistanceOracle` | a `map` field |

Each loop of the source is a `while` or `for` loop with invariants. The
methods of the individual, the shuffle, `getFittest` and the tournament are
proved equal to a specification function, and the properties of those
functions are proved as lemmas:

- `MutationSpec`: `ReverseRange`, `TwoOptOutcome`, `MutateOutcome`.
- `CrossoverSpec`: `OrderCrossover`.
- `Util`: `FisherYates`.
- `Populations`: `FittestIndex`, `TournamentPick`, `SortByDistance`.

The population's breeding methods (`BreedRound`, `Breed`, `CreateNextGen`,
`Advance`, `MateMembers`, `FirstGeneration`) are not tied to one function.
They state properties instead: every individual is a member, the elites
come first, and the best tour ever seen never lengthens.

`Geometry` defines points, the abstract distance (`Metric`), and the length
of a path and of a closed tour.

Every random draw of the source is a parameter. The parameter datatypes are
`MutationDraws`, `CrossoverDraw`, `MateDraws`, the per-round `Breeding`
draws, and the shuffle draws. Each comes with a predicate that states the
range the source's draw, or its rejection loop, can produce.

## Model

| member | source | states |
|---|---|---|
| Util.Fact | src/util.js:2-10 | the reference definition of n! that the memo and the loop are proved against; at least 1 and at least n |
| Util.FisherYates | src/util.js:12-19 | the reference definition of the shuffle: swap position i with the drawn j ≤ i for i from len - 1 down to 1 (`FisherYatesPermutes`, `FisherYatesLast` state its properties) |
| Util.FactorialMemo.constructor | src/util.js:1 | the memo starts as {0 ↦ 1, 1 ↦ 1}, and every entry is the factorial of its key |
| Util.FactorialMemo.Factorial | src/util.js:2-10 | returns n! whether memoised or computed; the memo keeps mapping every key to its factorial and gains at most the one new key |
| Util.ShuffleCoordinates | src/util.js:12-19 | the loop's result is the Fisher–Yates shuffle of the input under the drawn indices, and a permutation of the input |
| Util.FisherYatesPermutes | src/util.js:12-19 | every shuffle keeps the length and the multiset of points |
| Util.ShuffleFromKeepsAbove | src/util.js:14-17 | once position i is swapped, later steps never touch it again |
| Util.FisherYatesLast | src/util.js:14-16 | the last position receives the point at the first drawn index |
| Util.DistanceOracle.constructor | src/util.js:21-23 | a new oracle has an empty cache over a symmetric, non-negative distance |
| Util.DistanceOracle.Calc | src/util.js:25-34 | the answer is the distance of the pair in either orientation, whether cached or computed; a miss adds only the forward key; cached values stay correct, and no pair is cached in both orientations |
| Geometry.PathLength | src/individual.js:11-14 | the reference definition of the summed consecutive edges, accumulated from the left |
| Geometry.TourLength | src/individual.js:10-17 | the reference definition of a tour's length: the consecutive edges plus the edge from the first point to the last, in that argument order (`TourNonNegative`, `TwoOptDelta` state its properties) |
| Geometry.TourNonNegative | src/individual.js:10-18 | a closed tour under a non-negative distance has non-negative length |
| Geometry.PathReverse | src/individual.js:87-93 | under a symmetric distance, a reversed path has the same length |
| Geometry.PathThree | src/individual.js:76-93 | a path cut into three parts is as long as the parts plus the two joining edges |
| MutationSpec.ReverseRange | src/individual.js:52-55 | the reference definition of reversing the closed range [i, j]; `ReverseRangeAt` and `ReverseRangePermutes` state its contents |
| MutationSpec.ReverseSegmentOutcome | src/individual.js:40-58 | the reference definition of reverseSegmentMutation: decline below 2 points, else reverse between the ordered draws |
| MutationSpec.CurrentEdges | src/individual.js:79-81 | the two boundary edges of the range now: (before idx1, idx1) and (idx2, after idx2) |
| MutationSpec.SwappedEdges | src/individual.js:83-85 | the two boundary edges the reversal creates: (before idx1, idx2) and (idx1, after idx2) |
| MutationSpec.TwoOptOutcome | src/individual.js:60-96 | the reference definition of twoOptMutation: decline below 4 points, reverse only when the swapped edges are strictly shorter (`TwoOptShortens` states its effect on the length) |
| MutationSpec.Attempt | src/individual.js:24-27 | the operator a strategy name stands for |
| MutationSpec.StrategyOrder | src/individual.js:24-31 | the order the operators are tried in: the picked one of [reverseSegment, twoOpt] first, the other second |
| MutationSpec.TryInOrder | src/individual.js:29-33 | the reference definition of the strategy loop: try each operator in order and stop at the first success |
| MutationSpec.MutateOutcome | src/individual.js:20-38 | the reference definition of mutate: the strategy loop when the roll is below mutProb, no change otherwise (`MutatePermutes`, `MutateChangesExactly`, `MutateAtMostOneStrategy` state its properties) |
| MutationSpec.ReverseRangeAt | src/individual.js:52-55 | after reversing [i, j], position k holds s[i + j - k] inside the range and s[k] outside it |
| MutationSpec.ReverseRangePermutes | src/individual.js:52-55 | reversing a range keeps the length and the multiset of points |
| MutationSpec.Before | src/individual.js:76 | the index before idx1, wrapping round, is a valid index |
| MutationSpec.After | src/individual.js:77 | the index after idx2, wrapping round, is a valid index |
| MutationSpec.TwoOptDrawsOrdered | src/individual.js:64-74 | the ordered draws accepted by the rejection loop are two indices at least two apart that are not the first and the last |
| MutationSpec.TwoOptDelta | src/individual.js:76-93 | under a symmetric distance, the reversed tour's length is the old length minus the two current boundary edges plus the two new ones |
| MutationSpec.TwoOptShortens | src/individual.js:60-96 | a 2-opt success strictly shortens the tour, by exactly the boundary saving; a 2-opt that declines leaves the chromosome unchanged |
| MutationSpec.AttemptAtMostOneReversal | src/individual.js:40-96 | an operator either declines and leaves the chromosome alone, or reverses exactly one range |
| MutationSpec.AttemptSucceeds | src/individual.js:40-96 | segment reversal succeeds iff there are at least 2 points; 2-opt succeeds iff there are at least 4 points and the swap shortens the boundary edges |
| MutationSpec.MutateAtMostOneStrategy | src/individual.js:20-38 | `mutate` reverses at most one range: the first successful operator ends the search |
| MutationSpec.MutatePermutes | src/individual.js:20-38 | every mutation outcome is a permutation of the chromosome it started from |
| MutationSpec.MutateChangesExactly | src/individual.js:20-38 | `mutate` changes the chromosome iff the roll is below mutProb and there are at least 2 points |
| CrossoverSpec.Ceil | src/individual.js:113 | `Math.ceil` over the reals, as minus the floor of the negation (`CeilRange` bounds it) |
| CrossoverSpec.SliceEnd | src/individual.js:113 | the second cut, idx1 + ceil(draw × (len - idx1)) |
| CrossoverSpec.Rotated | src/individual.js:126-129 | the filler read from idx2 onwards, wrapping round; it has the filler's length |
| CrossoverSpec.SliceGenes | src/individual.js:121-124 | the key set of the donor slice [idx1, idx2) |
| CrossoverSpec.Without | src/individual.js:132-139 | the points in order, skipping those already in the key set |
| CrossoverSpec.Fillers | src/individual.js:126-139 | the filler points not in the donor slice, in the order the reordered filler meets them |
| CrossoverSpec.OrderCrossover | src/individual.js:115-139 | the reference definition of the crossover child, of the donor's length; `OrderCrossoverSlots` and `OrderCrossoverPermutes` state its contents |
| CrossoverSpec.SliceEndRange | src/individual.js:109-113 | the second cut lies in [idx1, len] and equals idx1 only for a zero draw |
| CrossoverSpec.RotatedPermutes | src/individual.js:126-129 | the filler read from idx2 onwards, wrapping round, is a permutation of the filler |
| CrossoverSpec.FillersComplement | src/individual.js:121-139 | the donor slice together with the filler points outside the slice make exactly the donor's points, so the fillers fit the free slots |
| CrossoverSpec.FillSlot | src/individual.js:131-139 | the m-th filler goes to slot (idx2 + m) mod len, which lies outside the slice while m is below the number of free slots |
| CrossoverSpec.FillIndexCovers | src/individual.js:131-139 | every slot outside the slice receives some filler |
| CrossoverSpec.OrderCrossoverSlots | src/individual.js:115-139 | the child keeps the donor's points on [idx1, idx2) and holds the m-th filler at (idx2 + m) mod len |
| CrossoverSpec.SlotsDetermineChild | src/individual.js:115-139 | any chromosome with those slot contents is the order-crossover child |
| CrossoverSpec.OrderCrossoverPermutes | src/individual.js:99-142 | the crossover child is a permutation of the donor with no point twice |
| Individuals.Individual.constructor | src/individual.js:2-8 | the chromosome is a fresh copy of the coordinates, and the cached distance is the tour length |
| Individuals.Individual.CalculateDistance | src/individual.js:10-18 | the summed edges plus the closing edge equal the tour length, which is stored and returned |
| Individuals.Individual.ReverseChromosome | src/individual.js:52-55 | the in-place swap loop leaves exactly the range reversal of the old chromosome |
| Individuals.Individual.ReverseSegmentMutation | src/individual.js:40-58 | declines below 2 points; otherwise reverses the range between the ordered draws and reports success |
| Individuals.Individual.BoundaryEdges | src/individual.js:76-85 | the current and the swapped boundary sums are the two edges around the range before and after the reversal |
| Individuals.TwoEdges | src/individual.js:79-85 | the sum of two oracle lookups is the sum of the two underlying distances |
| Individuals.Individual.TwoOptMutation | src/individual.js:60-96 | the outcome and the new chromosome are exactly the 2-opt specification: decline below 4 points, reverse only on a strict improvement |
| Individuals.Individual.Mutate | src/individual.js:20-38 | the new chromosome and flag are the mutation specification; the distance is re-evaluated and unchanged when nothing changed |
| Individuals.Individual.TryStrategies | src/individual.js:24-33 | the loop tries the drawn operator first and the other second, stopping at the first success |
| Individuals.Individual.Mate | src/individual.js:98-158 | two distinct fresh children, evaluated, sharing the oracle and mutProb; their chromosomes are exactly the mating specification, each a permutation of the parents' points with no point twice |
| Individuals.Individual.CrossoverChromosomes | src/individual.js:100-142 | the first child has this individual as donor and the second the other parent |
| Individuals.Individual.CrossoverChildren | src/individual.js:144-150 | each crossover chromosome becomes a fresh evaluated child, mutated once |
| Individuals.Individual.CloneChildren | src/individual.js:153-157 | the clones copy each parent, each is mutated once, and each is evaluated |
| Individuals.Offspring | src/individual.js:99-157 | a child's starting chromosome, crossed or cloned, is a permutation of the donor with no point twice |
| Individuals.ChildChromosome | src/individual.js:144-157 | after its one mutation, a child is still a permutation of its donor with no point twice |
| Individuals.MateOutcome | src/individual.js:98-158 | both children of `mate` hold the parents' points, each exactly once |
| Individuals.Spawn | src/individual.js:145-149 | a fresh evaluated child whose chromosome is the mutation outcome of the given genes |
| Individuals.CrossoverRound | src/individual.js:104-141 | one round with the drawn cuts builds exactly the order-crossover child |
| Individuals.CopySlice | src/individual.js:115-119 | an empty chromosome holding the donor slice [idx1, idx2) at its own positions |
| Individuals.CollectKeys | src/individual.js:121-124 | the keys collected are exactly the points of the donor slice |
| Individuals.Reorder | src/individual.js:126-129 | position i holds filler[(idx2 + i) mod len] |
| Individuals.PlaceNext | src/individual.js:135 | writing the next filler to its slot keeps the slice and every earlier placement |
| Individuals.FillFromFiller | src/individual.js:131-139 | the slice is untouched, and the m-th point of the filler not yet present lands at slot (idx2 + m) mod len |
| Individuals.Unwrap | src/individual.js:141 | the filled slots read off as the child's chromosome |
| Individuals.BuildChild | src/individual.js:107-141 | the child built in place is exactly the order-crossover specification |
| Populations.FittestIndex | dist/main.js:351-359 | the left-to-right scan settles on a minimal distance, and the first of the minimal ones |
| Populations.TournamentPick | dist/main.js:311-320 | the winning draw is no longer than any drawn candidate and strictly shorter than every earlier draw |
| Populations.InsertByDistance | dist/main.js:346 | one insertion step of the sort; the result holds only x and the given individuals |
| Populations.SortByDistance | dist/main.js:346 | the reference definition of the sorted copy, by insertion; `SortSortsByDistance` states that it is sorted and a permutation |
| Populations.EliteCount | dist/main.js:347 | numElites, floor(elitismRate × popSize) over the reals (`ScaledFloor` bounds it) |
| Populations.InsertKeepsSorted | dist/main.js:346 | inserting into a list sorted by distance keeps it sorted |
| Populations.InsertAddsOne | dist/main.js:346 | inserting adds exactly the one individual |
| Populations.SortSortsByDistance | dist/main.js:346 | the sorted copy is sorted by distance and holds the same individuals |
| Populations.PrefixLength | dist/main.js:348 | `slice(0, n)` keeps at most the whole array |
| Populations.ScaledFloor | dist/main.js:347 | for a rate in [0, 1], the elite count lies in [0, popSize] |
| Populations.SortedPrefixSmallest | dist/main.js:346-348 | the first n of a sorted list are a sub-multiset, and none is longer than any individual left behind |
| Populations.FittestOfGeneration | dist/main.js:351-359 | the fittest of a generation is a member, and no member is shorter |
| Populations.MembersCompatible | dist/main.js:330 | two tours through the same distinct points can be mated |
| Populations.KeepsBest | dist/main.js:339-342 | keeping the better of the old best and the new fittest gives a member that no individual of the generation beats |
| Populations.MatingRounds | dist/main.js:326-332 | the breeding loop runs zero rounds iff the elites already fill the population, and stops at the first round that reaches popSize |
| Populations.MateMembers | dist/main.js:330 | two members mate into two fresh members |
| Populations.FirstGeneration | dist/main.js:289-293 | popSize fresh members, the i-th built from the i-th shuffle of the coordinates |
| Populations.PrefixGeneration | dist/main.js:334 | the first popSize individuals of a generation are a generation |
| Populations.SubGeneration | dist/main.js:324 | individuals taken from a generation are members |
| Populations.GenerationAppend | dist/main.js:331 | concatenating two generations gives a generation |
| Populations.NewPopulation | dist/main.js:277-297 | a valid population at generation 0, with the routes count n!, a generation of shuffles, and a best-ever member that none beats |
| Populations.Population.constructor | dist/main.js:277-297 | the fields as given; the population is valid |
| Populations.Population.GetFittest | dist/main.js:351-359 | returns the member at the first minimal distance, and none is shorter |
| Populations.Population.SelectParentTournament | dist/main.js:311-320 | none for k = 0; otherwise the tournament winner among the drawn members |
| Populations.Population.PassElites | dist/main.js:345-349 | floor(elitismRate × popSize) individuals, clamped as `slice` clamps: a sub-multiset of the generation, none longer than any individual left out |
| Populations.Population.Carried | dist/main.js:324 | the elites when the rate is non-zero, none otherwise |
| Populations.Population.CarriedMembers | dist/main.js:324 | the carried individuals are at most popSize members |
| Populations.Population.BreedRound | dist/main.js:327-331 | two tournaments and one `mate` give two fresh members |
| Populations.Population.Breed | dist/main.js:326-332 | starts from the elites and adds two members per round until the size reaches popSize or popSize + 1 |
| Populations.Population.CreateNextGen | dist/main.js:322-343 | the population stays valid, the count goes up by one, the new generation starts with the carried elites, and the best ever is replaced only by a strictly shorter member of the new generation, namely the first member of minimal distance that `getFittest` returns, so it never lengthens |
| Populations.Population.Advance | dist/main.js:334-342 | the first popSize individuals become the generation; the best ever stays the same or becomes the new generation's first member of minimal distance, which is strictly shorter |

## Left out

- Point: the source turns points into strings to compare them. The model
  compares point values, so two points are the same point exactly when
  both coordinates are equal.
- Metric: `Math.hypot` becomes an abstract distance that is required to be
  symmetric and non-negative. Floating-point rounding is not modelled:
  distances are `real`.
- Populations.EliteCount: the rate times popSize is a product of reals, and
  JavaScript multiplies doubles. The double product can land just below an
  integer: `Math.floor(0.29 * 100)` is 28 in the source, and
  `EliteCount(0.29, 100)` is 29.
- Populations.Population.PassElites: takes `EliteCount` elites, so it
  inherits that difference from the source.
- CrossoverSpec.SliceEnd: `Math.ceil(Math.random() * (len - idx1))` is taken
  over reals. A double product can round differently.
- Randomness rolls: the comparisons of a roll with mutProb or crossProb are
  over reals rather than doubles.
- Util.DistanceOracle.constructor: the source passes the coordinates to
  `createDistanceCalculator`, which never uses them. The model leaves the
  argument out.
- Util.FactorialMemo.Factorial: returns the exact natural number n!. In the
  source, products above 2^53 lose precision, and 171! is `Infinity`.
- Randomness: every draw of `Math.random()` is a parameter.
  - The predicates `SegmentDraws`, `TwoOptDraws`, `CrossoverDrawFits`,
    `ShuffleDraws` and `BreedingFits` state the values the draws, or their
    rejection loops, can produce.
  - Whether a rejection loop terminates is not modelled.
  - `mate` on a one-point chromosome never leaves its first rejection loop.
    `CrossoverDrawFits` admits no draw there, so the crossover branch of a
    one-point `mate` is excluded.
- assignFitness: not modelled. It stores `1 / distance` and its normalised
  share on each individual. Nothing in the modelled files or in src/controller.js reads these values, and they
  become `Infinity` or `NaN` for a zero-length tour. The `totalFitness`
  field is not modelled either.
- The controller, the canvas drawing, the UI and the timers of
  src/controller.js and the rest of dist/main.js are not part of this model.
- Populations.Population.constructor: the constructor of the source is split
  in two:
  - `NewPopulation` creates the oracle, the factorial and the first
    generation;
  - the field-only constructor stores the results.
- Populations.NewPopulation: states that the best ever is a member that no
  member beats. It does not state that this is the first such member in
  order, as `getFittest` would pick. `GetFittest` states that order.
- Populations.Population: the model requires `popSize >= 1` and at least one
  coordinate. With no individual, `getFittest` returns `undefined`, and
  `createNextGen` then fails on `undefined.distance`.
- Populations.Population: the model requires the coordinates to be distinct.
  With a repeated point, crossover's key set drops the repeat and leaves an
  empty slot in the child.
- Populations.Population.BreedRound: states that the children are members
  of the population. It does not tie them to the tournament winners.
  `Individuals.Individual.Mate` states the exact children of given parents.
- Populations.MateMembers: states membership of the children only, as
  BreedRound does.
- Populations.Population.Breed: does not state that the bred individuals
  are new objects.
- Populations.Population.CreateNextGen: does not state that the bred
  individuals are new objects, and does not tie the children to the
  tournament winners.
- Populations.Population.PassElites: the source sorts with a comparator
  that never answers "equal", so the order of ties depends on the engine's
  sort. The model sorts by insertion and proves only what holds for any
  order of ties: the elites are as short as any individual left out.
- Individuals.Individual.Mutate: the source returns the chromosome array;
  the model returns the success flag instead. The chromosome remains
  readable through the field.
- Helper splits that follow the source's steps:
  - `mutate`'s strategy loop is `TryStrategies`;
  - `mate`'s clone branch is `CloneChildren`;
  - the children loop of the crossover branch is two `Spawn` calls;
  - the breeding loop of `createNextGen` is `Breed` with `BreedRound`, and
    its tail is `Advance`.

  The clones are both created before either is mutated, as in the source.
