# Greedy weighted set cover, modelled in Dafny

This project models the core of a Java program that solves the weighted
set-cover problem with greedy heuristics. It also proves properties of the
model.

A problem instance (`SCPModel`) is a collection of candidate sets. Each set
(`ElementSet`) is a triple: an integer id, a cost and a set of integer
elements. The instance holds the sets in a `TreeSet` ordered by id, through
`compareTo`.

A solver (`GreedySolver`) is given a coverage level alpha. It computes how
many elements may stay uncovered: `numE - ceil(alpha * numE)`, where `numE`
is the number of distinct elements. Starting with every element uncovered, it
repeats one step. It asks its selection rule (`nextBestSet`) for a set. It
then removes that set's elements from the uncovered ones, adds the set to the
solution and adds its cost to the objective. It stops on any of:

- few enough elements are left uncovered;
- the rule has no set;
- every set has been chosen.

It then records the coverage reached and flags a warning when that is below
alpha.

There are three selection rules:

- the most uncovered elements (`GreedyCoverageSolver`);
- the cheapest set that covers something (`GreedyCostSolver`);
- the least cost per uncovered element (`ChvatalSolver`).

Each rule scans the sets in id order, keeps a running best and compares
strictly. So each returns the first best set by id, or no set.

The files, one module each:

- `util.dfy` (module `Util`):
  - `ElementSet` as a datatype;
  - its constructor from a list of elements;
  - `compareTo`.
- `model.dfy` (module `Model`):
  - the id-ordered collection as a sequence strictly sorted by id;
  - `TreeSet.add` as `InsertById`;
  - the class `SCPModel`, whose `sets` field `addSetToCover` updates in place.
- `strategies.dfy` (module `Strategies`):
  - the three `nextBestSet` loops as methods;
  - their common specification. `Best` is the running best of the scan, as a recursive function. `Choice` is the scan's result. `IsChoice` is the declarative "first best by id, or none exactly when no set has an uncovered element".
- `solver.dfy` (module `Solver`):
  - the class `GreedySolver` with the Java fields;
  - `reset`;
  - `solve`, with its selection loop in `SelectSets`;
  - the functional account of a run. `After(sets, trace)` is the state reached by choosing the sets of `trace` in that order. `ChosenInTurn` says that each set of `trace` was the rule's choice at its turn. `Finished` says why a run may stop.
- `scenarios.dfy` (module `Scenarios`): the six-set instance of `src/TestSCP.java`, built with `addSetToCover` and solved by all three rules at alpha 0.5.

How the pieces fit: `Solve` ensures that its final state is `After` of its
recorded choices, made turn by turn, and that the run was finished. The
lemmas then prove the following about any such run:

- the uncovered elements are the universe minus the chosen sets' elements;
- the solution holds exactly the chosen sets, none twice, in id order;
- the objective is the cost total, and the coverage bounds hold;
- the run is the only finished one (`RunsAgree`).

## Verifying

To verify the project, pass all five files to Dafny 4.11 together:

    dafny verify util.dfy model.dfy strategies.dfy solver.dfy scenarios.dfy

The same command with `--resource-limit 2000000 --verification-time-limit 0`
needs `--warn-contradictory-assumptions` as well: without that flag
`GreedySolver.Solve` needs more than that resource limit.

## Model

| member | source | states |
|---|---|---|
| Util.SetOfSeq | src/util/ElementSet.java:29 | the TreeSet copy of a list holds exactly the list's values and is no longer than the list |
| Util.NewElementSet | src/util/ElementSet.java:25-31 | the constructor keeps id and cost unchanged and stores exactly the given elements, without duplicates |
| Util.CompareTo | src/util/ElementSet.java:34-56 | the result is -1, 0 or 1; negative, zero or positive exactly as this id is below, equal to or above the other id; -1 for an argument that is not an ElementSet |
| Util.CompareToIgnoresCostAndElements | src/util/ElementSet.java:45-47 | two sets with the same id compare as 0 whatever their costs and elements |
| Util.CompareToAntisymmetric | src/util/ElementSet.java:41-51 | comparing b with a gives the negation of comparing a with b |
| Util.CompareToTransitive | src/util/ElementSet.java:41-51 | the order is transitive, and strict when one of the two steps is strict |
| Model.StrictlySorted | src/model/SCPModel.java:25 | the `TreeSet` ordered by `compareTo`: each set's id is strictly below the next one's, so no id occurs twice |
| Model.SortedAt | src/model/SCPModel.java:25 | in the id-ordered collection every earlier set has a strictly lower id than every later one |
| Model.Union | src/model/SCPModel.java:50-58 | an element is in the universe exactly when some set contains it |
| Model.UnionContainsEach | src/model/SCPModel.java:50-58 | every set's elements are a subset of the universe |
| Model.UnionAppend | src/model/SCPModel.java:53-55 | adding one more set's elements extends the universe by exactly that set's elements |
| Model.Ids | src/model/SCPModel.java:45-48 | an id is in the result exactly when some set carries it |
| Model.SortedIdsCount | src/model/SCPModel.java:45-48 | in the id-ordered collection the number of sets equals the number of distinct ids |
| Model.SortedSubcollectionShorter | src/model/SCPModel.java:25 | an id-ordered collection whose sets all lie in another id-ordered collection is no longer than it |
| Model.DistinctSetsDistinctIds | src/model/SCPModel.java:25 | two different sets of the collection have different ids |
| Model.InsertById | src/model/SCPModel.java:31-34 | `TreeSet.add` keeps the collection id-ordered; with the id already present the collection is unchanged; otherwise it gains exactly the new set (one more set, multiset grows by it) |
| Model.InsertByIdFront | src/model/SCPModel.java:31-34 | a set with an id lower than every id present goes in front |
| Model.InsertByIdBack | src/model/SCPModel.java:31-34 | a set with an id higher than every id present goes at the end |
| Model.SCPModel.constructor | src/model/SCPModel.java:27-29 | a new model holds no sets |
| Model.SCPModel.AddSetToCover | src/model/SCPModel.java:31-34 | the model becomes the `add` of the new ElementSet: unchanged when the id is present; otherwise one more set, exactly the new one |
| Model.SCPModel.GetNumE | src/model/SCPModel.java:36-43 | the count of distinct elements over all sets, that is the size of the universe |
| Model.SCPModel.GetNumS | src/model/SCPModel.java:45-48 | the number of sets, which equals the number of distinct ids |
| Model.SCPModel.GetAllE | src/model/SCPModel.java:50-58 | exactly the elements that some set contains |
| Model.SCPModel.GetSCP | src/model/SCPModel.java:60-62 | the sets themselves, strictly ascending by id |
| Strategies.Best | src/solver/GreedyCoverageSolver.java:33-48 | the running best after n sets is one of them and has an uncovered element |
| Strategies.Choice | src/solver/GreedyCoverageSolver.java:29-51 | the scan's result, when there is one, is a set of the instance that has an uncovered element |
| Strategies.KeepBest | src/solver/GreedyCoverageSolver.java:42 | a set that does not strictly beat the running best leaves it the first best |
| Strategies.FirstCandidateIsBest | src/solver/GreedyCoverageSolver.java:29-42 | the first set with an uncovered element becomes the first best |
| Strategies.ReplaceBest | src/solver/GreedyCoverageSolver.java:42-47 | a set that strictly beats the running best becomes the first best |
| Strategies.BestIsFirstBest | src/solver/GreedyCoverageSolver.java:33-48 | after n sets the scan has no best exactly when none of them has an uncovered element; otherwise its best beats every earlier candidate and no candidate beats it |
| Strategies.CountUncovered | src/solver/GreedyCoverageSolver.java:34-40 | the inner counting loop yields the number of the set's elements still uncovered |
| Strategies.NewlyCovered | src/solver/GreedyCoverageSolver.java:34-40 | the count `uncE` of a set's still-uncovered elements: no more than the set's size or the number uncovered, and zero exactly when the set holds no uncovered element |
| Strategies.Eligible | src/solver/GreedyCostSolver.java:35-44 | a set takes part in a rule's scan exactly when it has at least one uncovered element (`covers` in the cost rule, `uncE > 0` in the others) |
| Strategies.Ratio | src/solver/ChvatalSolver.java:55 | `costCovRatio`, the cost per newly covered element: the ratio times the count is the set's cost |
| Strategies.Beats | src/solver/GreedyCostSolver.java:47 | the strict test by which a later set replaces the running best: more uncovered elements for the coverage rule, a lower cost for the cost rule, a lower cost-per-element ratio for the ratio rule |
| Strategies.CoverageNextBest | src/solver/GreedyCoverageSolver.java:27-52 | the loop returns the scan's result for the coverage rule |
| Strategies.MarkIfCovers | src/solver/GreedyCostSolver.java:39-45 | on a set with an uncovered element `covers` becomes true and `cost` the set's cost; otherwise both keep their earlier values |
| Strategies.CostNextBest | src/solver/GreedyCostSolver.java:31-55 | the loop, with `covers` and `cost` never reset, returns the scan's result for the cost rule |
| Strategies.ChvatalNextBest | src/solver/ChvatalSolver.java:35-69 | the loop returns the scan's result for the ratio rule, dividing by the count read before the post-increment |
| Strategies.NextBestSet | src/solver/GreedySolver.java:119-130 | the rule the solver was built with returns the scan's result for that rule |
| Strategies.ChoiceIsUnique | src/solver/GreedySolver.java:119-130 | at most one result meets what a rule must return |
| Strategies.ChoiceIsChoice | src/solver/GreedyCoverageSolver.java:33-48 | the scan's result meets what a rule must return |
| Strategies.ChoiceCharacterized | src/solver/GreedyCoverageSolver.java:33-48 | a result meets what a rule must return exactly when it is the scan's result |
| Strategies.NoChoiceIffNothingCoverable | src/solver/GreedyCoverageSolver.java:29-42 | no set is returned exactly when no uncovered element lies in any set |
| Strategies.ChoiceCoversNewElement | src/solver/GreedyCostSolver.java:39-47 | a returned set is one of the instance's sets and contains an uncovered element |
| Strategies.NeverChosenTwice | src/solver/GreedySolver.java:97-100 | once a set's elements are removed from the uncovered ones, the rule never returns that set again |
| Strategies.CoverageChoiceIsMaximal | src/solver/GreedyCoverageSolver.java:33-48 | the coverage rule's set covers at least as many uncovered elements as any set |
| Strategies.CostChoiceIsCheapest | src/solver/GreedyCostSolver.java:38-51 | the cost rule's set costs no more than any set with an uncovered element |
| Strategies.ChvatalChoiceHasLeastRatio | src/solver/ChvatalSolver.java:45-64 | the ratio rule's set has an uncovered element and a ratio no higher than any other such set |
| Strategies.ChoiceWinsTiesByLowerId | src/solver/GreedyCoverageSolver.java:33-42 | a candidate with a lower id than the returned set is strictly beaten by it, so ties go to the lowest id |
| Strategies.CostPrefersZeroCost | src/solver/GreedyCostSolver.java:47 | with a zero-cost candidate present no positive-cost set is returned; with non-negative costs the returned set costs nothing |
| Strategies.ChvatalPrefersZeroCost | src/solver/ChvatalSolver.java:55-63 | with non-negative costs, a zero-cost candidate is returned unless a lower-id candidate also costs nothing |
| Strategies.NoChoiceMeansAllCovered | src/solver/GreedySolver.java:91-94 | the rule returns no set for uncovered elements of the universe only when none are left |
| Solver.Ceil | src/solver/GreedySolver.java:73 | `Math.ceil`: the least integer not below x |
| Solver.Slack | src/solver/GreedySolver.java:73-74 | `num_can_leave_uncovered`: the number of elements to cover, numE minus the slack, is the least integer not below alpha times numE |
| Solver.CoverageOf | src/solver/GreedySolver.java:111 | the `_coverage` fraction: for a non-empty universe, coverage times numE is the number of covered elements; 0 for an empty universe |
| Solver.SumCost | src/solver/GreedySolver.java:101 | the `_objFn` total of the chosen sets' costs, which is never negative when no cost is |
| Solver.Finished | src/solver/GreedySolver.java:87-105 | the loop's exits as one condition: no more than the slack uncovered, nothing left uncovered (the rule has no set), or every set chosen |
| Solver.SlackBounds | src/solver/GreedySolver.java:73-74 | alpha 0 leaves all numE elements uncoverable; alpha at most 0 lets at least numE stay uncovered; alpha in [0, 1] gives a slack in [0, numE] |
| Solver.CoverageInUnitInterval | src/solver/GreedySolver.java:111 | the coverage lies in [0, 1] |
| Solver.GoalMetReachesAlpha | src/solver/GreedySolver.java:111-114 | leaving no more than the slack uncovered gives coverage at least alpha, so no warning |
| Solver.NothingCoveredIsZero | src/solver/GreedySolver.java:111 | with every element uncovered the coverage is 0 |
| Solver.After | src/solver/GreedySolver.java:97-101 | the solution reached by any sequence of choices is id-ordered |
| Solver.RemovingShrinks | src/solver/GreedySolver.java:97 | removing a set that holds an uncovered element strictly shrinks the uncovered elements |
| Solver.SumCostAppend | src/solver/GreedySolver.java:101 | one more set adds its cost to the total |
| Solver.NoRepeatsDistinct | src/solver/GreedySolver.java:100 | in a choice sequence without repeats, two positions hold different sets |
| Solver.ChosenInTurnExtend | src/solver/GreedySolver.java:87-101 | appending the rule's choice at a turn with more than the slack uncovered extends a turn-by-turn run |
| Solver.ChosenInTurnPrefix | src/solver/GreedySolver.java:87-107 | every prefix of a turn-by-turn run is one too |
| Solver.LastTurn | src/solver/GreedySolver.java:87-101 | the last set of a run was the rule's choice after the sets before it |
| Solver.TurnAt | src/solver/GreedySolver.java:87-101 | the set a run takes at any position was the rule's choice after the sets before it, and the sets before it are a run too |
| Solver.CommonPrefix | src/solver/GreedySolver.java:87-107 | of two turn-by-turn runs the shorter is a prefix of the longer |
| Solver.SameTurn | src/solver/GreedySolver.java:89 | after the same sets the rule chooses the same set |
| Solver.NextTurn | src/solver/GreedySolver.java:87-101 | the set a longer run takes after a shorter one is the rule's choice after the shorter one |
| Solver.RoomForChoice | src/solver/GreedySolver.java:100-105 | while the rule still has a set, the solution has fewer sets than the instance, so the all-sets-chosen exit has not been reached |
| Solver.ExtendedRunUnfinished | src/solver/GreedySolver.java:87-107 | a run that a longer run extends had not met any exit condition of the loop |
| Solver.RunsAgree | src/solver/GreedySolver.java:87-107 | the greedy run is determined: two finished turn-by-turn runs on the same instance, rule and slack are equal |
| Solver.ChoiceIsNew | src/solver/GreedySolver.java:97-100 | the set chosen at a turn is a set of the instance, not chosen before, and its id is not yet in the solution, so `add` really adds it |
| Solver.UncoveredAfterTurn | src/solver/GreedySolver.java:97 | after `removeAll` the uncovered elements are the universe minus the elements of all chosen sets |
| Solver.RunEnd | src/solver/GreedySolver.java:100-105 | the solution has as many sets as turns were taken, at most the number of sets and at most the number of elements |
| Solver.ChosenFromSets | src/solver/GreedySolver.java:89-100 | every chosen set is a set of the instance, and none is chosen twice |
| Solver.AfterSolution | src/solver/GreedySolver.java:100 | the solution holds exactly the chosen sets, each once |
| Solver.AfterCost | src/solver/GreedySolver.java:101 | the objective is the total cost of the chosen sets |
| Solver.AfterCount | src/solver/GreedySolver.java:97-105 | each turn covers at least one more element, so there are no more turns than covered elements |
| Solver.RunFacts | src/solver/GreedySolver.java:76-105 | the state of every turn-by-turn run meets the loop's invariant: uncovered = universe minus chosen, the solution holds exactly the chosen sets, the objective is their cost, and each turn covered something |
| Solver.AfterUncovered | src/solver/GreedySolver.java:76-97 | the uncovered elements after a run are the universe minus the chosen sets' elements, never more than the universe |
| Solver.Turn | src/solver/GreedySolver.java:89-101 | one turn extends the run, applies `removeAll`, `add` and the cost sum to the state, and strictly shrinks the uncovered elements |
| Solver.AfterAppend | src/solver/GreedySolver.java:97-101 | choosing one more set applies the loop body's three updates |
| Solver.NoChoiceFinishes | src/solver/GreedySolver.java:89-94 | when the rule has no set, nothing is left uncovered |
| Solver.ChosenBeyondSlack | src/solver/GreedySolver.java:87 | a run that chose something had more elements than the slack |
| Solver.RunOutcome | src/solver/GreedySolver.java:73-115 | a finished run has no more turns than sets or elements. For alpha in [0, 1] it ends with the goal met or every set chosen. The coverage lies in [0, 1] and reaches alpha when the goal is met. For alpha at most 0 nothing is chosen, the objective is 0 and the coverage is 0 |
| Solver.GreedySolver.constructor | src/solver/GreedySolver.java:25-34 | a new solver has its rule, no model, alpha 0, objective and coverage 0, and an empty solution and uncovered set (null in Java until the first reset) |
| Solver.GreedySolver.SetMinCoverage | src/solver/GreedySolver.java:37 | sets alpha |
| Solver.GreedySolver.SetModel | src/solver/GreedySolver.java:38 | sets the model |
| Solver.GreedySolver.Reset | src/solver/GreedySolver.java:47-53 | coverage and objective become 0 and the solution and uncovered elements become empty |
| Solver.GreedySolver.Prepare | src/solver/GreedySolver.java:73-76 | the set-up of `solve`: numE is the universe's size, the slack is `Slack(alpha, numE)`, and it hands over the universe and the sets |
| Solver.GreedySolver.Solve | src/solver/GreedySolver.java:64-117 | the final uncovered elements, solution and objective are the state after the recorded choices. Each choice was the rule's set at its turn, with more than `numE - ceil(alpha*numE)` uncovered. The run stopped finished. The coverage is `(numE - uncovered)/numE`. The warning is set exactly when the coverage is below alpha |
| Solver.GreedySolver.SelectSets | src/solver/GreedySolver.java:87-107 | the loop's final state is the state after its choices; each was the rule's set at its turn; it ends only when a stop condition holds |
| Scenarios.UniverseSize | src/TestSCP.java:35-40 | the example has ten distinct elements |
| Scenarios.ExampleUniverse | src/TestSCP.java:35-40 | the example's universe is {1, ..., 9, 100} |
| Scenarios.ExampleSlack | src/solver/GreedySolver.java:73-74 | at alpha 0.5 five of the ten elements may stay uncovered |
| Scenarios.ExampleCounts | src/TestSCP.java:35-40 | with everything uncovered the sets cover 5, 3, 3, 5, 3 and 2 new elements |
| Scenarios.HalfCovered | src/solver/GreedySolver.java:111 | five of ten uncovered is coverage 0.5 |
| Scenarios.SevenCovered | src/solver/GreedySolver.java:111 | three of ten uncovered is coverage 0.7 |
| Scenarios.CoverageTakesSet1 | src/solver/GreedyCoverageSolver.java:42 | the coverage rule takes Set 1, which ties with Set 4 and wins on its lower id |
| Scenarios.ExampleRatios | src/solver/ChvatalSolver.java:55 | the first-turn ratios are 3/5, 2/3, 2/3, 1, 2/3 and 1 |
| Scenarios.ChvatalTakesSet1 | src/solver/ChvatalSolver.java:59 | the ratio rule takes Set 1 |
| Scenarios.Set1Leaves | src/solver/GreedySolver.java:97 | Set 1 leaves {2, 4, 6, 8, 100} uncovered |
| Scenarios.ExampleStart | src/solver/GreedySolver.java:76 | at the start all ten elements are uncovered, so the run is not finished |
| Scenarios.Set1Run | src/solver/GreedySolver.java:87-107 | under a rule that takes Set 1 first, choosing Set 1 alone is a finished run at cost 3.0 |
| Scenarios.CostTakesSet2 | src/solver/GreedyCostSolver.java:47 | the cost rule first takes Set 2, the lowest id of cost 2.0 |
| Scenarios.EligibleAfterSet2 | src/solver/GreedyCostSolver.java:39-45 | after Set 2 every other set still has an uncovered element |
| Scenarios.EligibleAfterSet3 | src/solver/GreedyCostSolver.java:39-45 | after Sets 2 and 3 every other set still has an uncovered element |
| Scenarios.CostTakesSet3 | src/solver/GreedyCostSolver.java:47 | next it takes Set 3; Set 2 no longer covers anything |
| Scenarios.CostTakesSet5 | src/solver/GreedyCostSolver.java:47 | then it takes Set 5 |
| Scenarios.CostLeaves | src/solver/GreedySolver.java:97 | Sets 2, 3 and 5 in turn leave 7, 6 and 3 elements uncovered |
| Scenarios.CostTurn1 | src/solver/GreedySolver.java:87-101 | the cost rule's first turn and the state after it |
| Scenarios.CostTurn2 | src/solver/GreedySolver.java:87-101 | its second turn and the state after it |
| Scenarios.CostRun | src/solver/GreedySolver.java:87-107 | Sets 2, 3 and 5 form a finished run at cost 6.0 with {3, 4, 8} uncovered |
| Scenarios.ExampleSorted | src/model/SCPModel.java:25 | the example's sets are in strictly ascending id order |
| Scenarios.Set1Outcome | src/solver/GreedySolver.java:64-117 | under the coverage or ratio rule at alpha 0.5, every finished turn-by-turn run on the example is Set 1 alone, leaving {2, 4, 6, 8, 100} at cost 3.0 and coverage 0.5 |
| Scenarios.CostOutcome | src/solver/GreedySolver.java:64-117 | under the cost rule at alpha 0.5, every finished turn-by-turn run on the example is Sets 2, 3 and 5, leaving {3, 4, 8} at cost 6.0 and coverage 0.7 |
| Scenarios.AddInFront | src/model/SCPModel.java:31-34 | adding a set with an id below every id present puts it in front |
| Scenarios.BuildExample | src/TestSCP.java:35-40 | adding the six sets from id 6 down to 1 gives the instance in id order |
| Scenarios.SolveExample | src/TestSCP.java:35-49 | the coverage and ratio solvers at alpha 0.5 choose Set 1 alone, with objective 3.0, coverage 0.5 and no warning |
| Scenarios.SolveExampleByCost | src/TestSCP.java:35-49 | the cost solver at alpha 0.5 chooses Sets 2, 3 and 5, with objective 6.0, coverage 0.7 and no warning |

## Left out

- Printing is not modelled:
  - `printSelectedSet`, `print` and `printRowMetrics`;
  - the console lines in `solve` and `SCPModel.toString`.
  - The coverage warning is kept as the boolean field `coverageWarning`.
- Timing (`System.currentTimeMillis`, `_compTime`, `getCompTime`) is not modelled: it is wall-clock time and only observed.
- Nothing of `src/TestSCP.java` is modelled except the in-code example. That leaves out `main`, `ReadModel` (file input) and `printComparison` (console tables and time-dependent winners). The example's sets come from the `addSetToCover` calls at lines 35-40. Those calls sit inside a commented-out block. The comment above them lists Set 1 as {1, 8, 3, 5, 7, 9}, while the call passes {1, 3, 5, 7, 9}. The model follows the call.
- The null path of a rule: each Java rule calls `printSelectedSet(bset)` before returning. When `bset` is null, that call throws a NullPointerException, so `solve`'s null branch is never reached in Java. The model drops the print and returns `None`, and `solve` stops.
- IEEE-754 arithmetic is not modelled:
  - costs, alpha and coverage are exact reals;
  - the `Double.MAX_VALUE` sentinels of the cost and ratio rules are "no best yet" (`None`). So a set whose cost or ratio is at least `Double.MAX_VALUE`, or infinite, is treated as comparable here, whereas Java would never take it;
  - rounding in `cost / uncE` and in the coverage division is ignored.
  - `Solver.Slack` uses the exact product alpha times numE. Java rounds `_alpha * _model.getNumE()` before `Math.ceil`, and that rounding can move the ceiling up by one. For example, alpha 0.07 and numE 100 give 7.000000000000001 in Java, so the ceiling is 8 and the slack 92, where the model's slack is 93. A run may then take one turn more in Java than in the model.
- Solver.Slack: uses unbounded integers. At GreedySolver.java:73-74 Java's `(int) Math.ceil(...)` saturates at -2^31 and 2^31-1, and `numE - num_to_cover` wraps around in 32-bit `int`. The two agree unless alpha times numE is at most numE - 2^31, which needs a very negative alpha. There the subtraction wraps to a negative slack. For example, alpha -1e9 and numE 10 give `num_to_cover` -2147483648 and a slack of -2147483638, where the model's slack is 10000000010. On the positive side saturation only makes a negative slack less negative, and with no element count below 0 the loop behaves the same.
- Solver.SlackBounds: its clauses for alpha at most 0 are about the model's unbounded slack. For an alpha at most (numE - 2^31)/numE the Java slack wraps to a negative number instead.
- Solver.RunOutcome: its clause for alpha at most 0 (nothing chosen, objective 0) likewise holds for the unbounded slack only. With the wrapped Java slack the loop does run turns, and once the rule has no set left the null return ends in the NullPointerException described above.
- Strategies.ChvatalNextBest: a set without uncovered elements is ineligible. Java computes cost/0, which is Infinity, or NaN for a zero cost, and neither passes the strict test. For a negative cost Java gets -Infinity, which would be taken; the model does not follow Java there.
- Solver.CoverageOf: for an empty universe Java computes 0/0.0 = NaN, and `NaN < alpha` is false, so no warning is raised. The model gives coverage 0.0 and also raises no warning.
- The element iteration order of the inner loops (ascending, from a TreeSet) is not modelled. The elements are a mathematical set and the loops pick any remaining element. No result depends on that order.
- The getters `getSetID`, `getCost` and `getESet` are the datatype fields `id`, `cost` and `elems`. The solver getters `getMinCoverage`, `getObjFn` and `getCoverage` are the class fields. `getName` and `_name` are left out, because the name is only printed.
- Aliasing of returned collections: `GetSCP` and the `elems` field hand back values. Java's `getSCP` (SCPModel.java:61) and `getESet` (ElementSet.java:68) return the live TreeSets, through which a caller could change the instance. Nothing in the core changes them: the solver copies the universe with `addAll` and only reads the sets.
- Java inheritance and dynamic dispatch of `nextBestSet` are modelled as the `Strategy` datatype, dispatched in `NextBestSet`.
- The rules take the instance's sets and the uncovered elements as parameters instead of reading the solver's fields. They change neither, which the value parameters make evident.
- The constructor starts `solnSets` and `uncElements` as an empty sequence and an empty set. In Java both fields stay null until the first `reset()`, which `solve` calls before it reads them, so no behaviour within this model depends on the difference.
- `Solve` runs the selection loop on local variables in `SelectSets` and writes the fields back once after it. Java updates the fields in each iteration. `Reset` runs first, as in Java, so whatever a previous run left does not affect the result; `Solve`'s contract does not mention the old state.
- The Chvátal denominator: `cost / (double) uncE++` reads `uncE` before incrementing it. So the code divides by the number of uncovered elements itself, not by that number plus one, and the model does the same. The increment is dead, because the counter is reset before it is read again.
