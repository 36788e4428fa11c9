/** The six-set instance that TestSCP.java builds (in a commented-out block)
    and solves with coverage level 0.5. The coverage and ratio rules both
    take Set 1 first, which leaves exactly the allowed 5 of the 10 elements
    uncovered, so the run ends after one turn with cost 3.0. The cost rule
    takes Sets 2, 3 and 5, at cost 6.0, leaving 3 elements uncovered. Each
    outcome follows from exhibiting one finished turn-by-turn run: by
    `RunsAgree` it is the only one, so it is the run `Solve` made. */
module Scenarios {
  import opened Util
  import opened Model
  import opened Strategies
  import opened Solver

  const Set1 := ElementSet(1, 3.0, {1, 3, 5, 7, 9})
  const Set2 := ElementSet(2, 2.0, {1, 5, 9})
  const Set3 := ElementSet(3, 2.0, {5, 7, 9})
  const Set4 := ElementSet(4, 5.0, {2, 4, 6, 8, 100})
  const Set5 := ElementSet(5, 2.0, {2, 6, 100})
  const Set6 := ElementSet(6, 2.0, {4, 8})

  /** The instance in id order, as the TreeSet holds it. */
  const Example := [Set1, Set2, Set3, Set4, Set5, Set6]

  /** Its ten elements. */
  const Universe: set<int> := {1, 2, 3, 4, 5, 6, 7, 8, 9, 100}

  /** The list given to `addSetToCover` becomes the set of its values. */
  lemma NewElementSetOf(id: int, cost: real, xs: seq<int>, s: set<int>)
    requires forall x :: x in xs <==> x in s
    ensures NewElementSet(id, cost, xs) == ElementSet(id, cost, s)
  {
    var es := NewElementSet(id, cost, xs);
    forall x ensures x in es.elems <==> x in s {
      assert x in es.elems <==> x in xs;
    }
    assert es.elems == s;
  }

  /** The universe has ten elements. */
  lemma UniverseSize()
    ensures |Universe| == 10
  {
  }

  /** The union of the example's sets is the ten-element universe. */
  lemma ExampleUniverse()
    ensures Union(Example) == Universe
  {
    forall x | x in Universe ensures x in Union(Example) {
      if x in Set1.elems {
        assert Example[0] == Set1;
      } else {
        assert Example[3] == Set4;
      }
    }
    forall x | x in Union(Example) ensures x in Universe {
      var k :| 0 <= k < |Example| && x in Example[k].elems;
    }
  }

  /** 10 - ceil(0.5 * 10) = 5 elements may stay uncovered. */
  lemma ExampleSlack()
    ensures Slack(0.5, 10) == 5
  {
    assert 0.5 * 10 as real == 5.0;
  }

  /** With everything uncovered each set covers all its elements:
      5, 3, 3, 5, 3 and 2 of them. */
  lemma ExampleCounts()
    ensures NewlyCovered(Set1, Universe) == 5 && NewlyCovered(Set2, Universe) == 3
    ensures NewlyCovered(Set3, Universe) == 3 && NewlyCovered(Set4, Universe) == 5
    ensures NewlyCovered(Set5, Universe) == 3 && NewlyCovered(Set6, Universe) == 2
  {
    assert Set1.elems * Universe == Set1.elems && Set4.elems * Universe == Set4.elems;
    assert Set2.elems * Universe == Set2.elems && Set3.elems * Universe == Set3.elems;
    assert Set5.elems * Universe == Set5.elems && Set6.elems * Universe == Set6.elems;
  }

  /** Five of ten elements covered is coverage 0.5. */
  lemma HalfCovered()
    ensures CoverageOf(10, 5) == 0.5
  {
  }

  /** Seven of ten elements covered is coverage 0.7. */
  lemma SevenCovered()
    ensures CoverageOf(10, 3) == 0.7
  {
  }

  /** Scanning all sets with everything uncovered, the coverage rule keeps
      Set 1: Set 4 also covers five new elements but does not beat it. */
  lemma CoverageTakesSet1()
    ensures Choice(Coverage, Example, Universe) == Some(Set1)
  {
    ExampleCounts();
    assert Best(Coverage, Example, Universe, 1) == Some(0);
    assert Best(Coverage, Example, Universe, 2) == Some(0);
    assert Best(Coverage, Example, Universe, 3) == Some(0);
    assert Best(Coverage, Example, Universe, 4) == Some(0);
    assert Best(Coverage, Example, Universe, 5) == Some(0);
    assert Best(Coverage, Example, Universe, 6) == Some(0);
  }

  /** With everything uncovered the ratios are 3/5, 2/3, 2/3, 1, 2/3 and 1. */
  lemma ExampleRatios()
    ensures Eligible(Set1, Universe) && Eligible(Set2, Universe) && Eligible(Set3, Universe)
    ensures Eligible(Set4, Universe) && Eligible(Set5, Universe) && Eligible(Set6, Universe)
    ensures Ratio(Set1, Universe) == 3.0 / 5.0
    ensures Ratio(Set2, Universe) == 2.0 / 3.0 && Ratio(Set3, Universe) == 2.0 / 3.0
    ensures Ratio(Set4, Universe) == 1.0 && Ratio(Set5, Universe) == 2.0 / 3.0
    ensures Ratio(Set6, Universe) == 1.0
  {
    ExampleCounts();
  }

  /** The ratio rule also keeps Set 1: 3/5 is below every other set's ratio
      (2/3, 2/3, 1, 2/3 and 1). */
  lemma ChvatalTakesSet1()
    ensures Choice(Chvatal, Example, Universe) == Some(Set1)
  {
    ExampleRatios();
    assert Best(Chvatal, Example, Universe, 1) == Some(0);
    assert Best(Chvatal, Example, Universe, 2) == Some(0);
    assert Best(Chvatal, Example, Universe, 3) == Some(0);
    assert Best(Chvatal, Example, Universe, 4) == Some(0);
    assert Best(Chvatal, Example, Universe, 5) == Some(0);
    assert Best(Chvatal, Example, Universe, 6) == Some(0);
  }

  /** Set 1 leaves the five elements 2, 4, 6, 8 and 100 uncovered. */
  lemma Set1Leaves()
    ensures Universe - Set1.elems == {2, 4, 6, 8, 100}
    ensures |Universe - Set1.elems| == 5
  {
    assert Universe - Set1.elems == {2, 4, 6, 8, 100};
  }

  /** Before any turn all ten elements are uncovered, so the run is not finished. */
  lemma ExampleStart()
    ensures After(Example, []) == Tally(Universe, [], 0.0)
    ensures !Finished(Example, 5, After(Example, []))
  {
    ExampleUniverse();
    UniverseSize();
  }

  /** Under a rule that takes Set 1 first, choosing Set 1 alone is a finished
      turn-by-turn run on the example, leaving five elements uncovered at cost 3.0. */
  lemma Set1Run(kind: Strategy)
    requires Choice(kind, Example, Universe) == Some(Set1)
    ensures ChosenInTurn(kind, Example, 5, [Set1]) && Finished(Example, 5, After(Example, [Set1]))
    ensures After(Example, [Set1]) == Tally({2, 4, 6, 8, 100}, [Set1], 3.0)
  {
    ExampleStart();
    Set1Leaves();
    ChosenInTurnExtend(kind, Example, 5, [], Set1);
    AfterAppend(Example, [], Set1);
    assert [] + [Set1] == [Set1];
  }

  /** The cost rule first takes Set 2, the lowest id among the sets of cost 2.0. */
  lemma CostTakesSet2()
    ensures Choice(Cost, Example, Universe) == Some(Set2)
  {
    ExampleCounts();
    assert Best(Cost, Example, Universe, 1) == Some(0);
    assert Best(Cost, Example, Universe, 2) == Some(1);
    assert Best(Cost, Example, Universe, 3) == Some(1);
    assert Best(Cost, Example, Universe, 4) == Some(1);
    assert Best(Cost, Example, Universe, 5) == Some(1);
    assert Best(Cost, Example, Universe, 6) == Some(1);
  }

  /** After Set 2 every set but Set 2 still has an uncovered element. */
  lemma EligibleAfterSet2()
    ensures var u: set<int> := {2, 3, 4, 6, 7, 8, 100};
      && Eligible(Set1, u) && !Eligible(Set2, u) && Eligible(Set3, u)
      && Eligible(Set4, u) && Eligible(Set5, u) && Eligible(Set6, u)
  {
    var u: set<int> := {2, 3, 4, 6, 7, 8, 100};
    assert 3 in Set1.elems * u && Set2.elems * u == {} && 7 in Set3.elems * u;
    assert 2 in Set4.elems * u && 2 in Set5.elems * u && 4 in Set6.elems * u;
  }

  /** After Sets 2 and 3 every set but those two still has an uncovered element. */
  lemma EligibleAfterSet3()
    ensures var u: set<int> := {2, 3, 4, 6, 8, 100};
      && Eligible(Set1, u) && !Eligible(Set2, u) && !Eligible(Set3, u)
      && Eligible(Set4, u) && Eligible(Set5, u) && Eligible(Set6, u)
  {
    var u: set<int> := {2, 3, 4, 6, 8, 100};
    assert 3 in Set1.elems * u && Set2.elems * u == {} && Set3.elems * u == {};
    assert 2 in Set4.elems * u && 2 in Set5.elems * u && 4 in Set6.elems * u;
  }

  /** After Set 2 the cheapest set with an uncovered element is Set 3: Set 2
      itself no longer covers anything new. */
  lemma CostTakesSet3()
    ensures Choice(Cost, Example, {2, 3, 4, 6, 7, 8, 100}) == Some(Set3)
  {
    var u: set<int> := {2, 3, 4, 6, 7, 8, 100};
    EligibleAfterSet2();
    assert Best(Cost, Example, u, 1) == Some(0);
    assert Best(Cost, Example, u, 2) == Some(0);
    assert Best(Cost, Example, u, 3) == Some(2);
    assert Best(Cost, Example, u, 4) == Some(2);
    assert Best(Cost, Example, u, 5) == Some(2);
    assert Best(Cost, Example, u, 6) == Some(2);
  }

  /** After Sets 2 and 3 the cheapest set with an uncovered element is Set 5. */
  lemma CostTakesSet5()
    ensures Choice(Cost, Example, {2, 3, 4, 6, 8, 100}) == Some(Set5)
  {
    var u: set<int> := {2, 3, 4, 6, 8, 100};
    EligibleAfterSet3();
    assert Best(Cost, Example, u, 1) == Some(0);
    assert Best(Cost, Example, u, 2) == Some(0);
    assert Best(Cost, Example, u, 3) == Some(0);
    assert Best(Cost, Example, u, 4) == Some(0);
    assert Best(Cost, Example, u, 5) == Some(4);
    assert Best(Cost, Example, u, 6) == Some(4);
  }

  /** Sets 2, 3 and 5 in turn leave 7, then 6, then 3 elements uncovered. */
  lemma CostLeaves()
    ensures Universe - Set2.elems == {2, 3, 4, 6, 7, 8, 100}
    ensures {2, 3, 4, 6, 7, 8, 100} - Set3.elems == {2, 3, 4, 6, 8, 100}
    ensures {2, 3, 4, 6, 8, 100} - Set5.elems == {3, 4, 8}
    ensures |{2, 3, 4, 6, 7, 8, 100}| == 7 && |{2, 3, 4, 6, 8, 100}| == 6 && |{3, 4, 8}| == 3
  {
    assert Universe - Set2.elems == {2, 3, 4, 6, 7, 8, 100};
    assert {2, 3, 4, 6, 7, 8, 100} - Set3.elems == {2, 3, 4, 6, 8, 100};
    assert {2, 3, 4, 6, 8, 100} - Set5.elems == {3, 4, 8};
  }

  // Sequence literal fact for the runs below: appending the second choice to a one-set run.
  lemma AppendTwo(a: ElementSet, b: ElementSet)
    ensures [a] + [b] == [a, b]
  {
  }

  // Sequence literal fact for the runs below: appending the third choice to a two-set run.
  lemma AppendThree(a: ElementSet, b: ElementSet, c: ElementSet)
    ensures [a, b] + [c] == [a, b, c]
  {
  }

  /** The cost rule's first turn. */
  lemma CostTurn1()
    ensures ChosenInTurn(Cost, Example, 5, [Set2])
    ensures After(Example, [Set2]) == Tally({2, 3, 4, 6, 7, 8, 100}, [Set2], 2.0)
  {
    ExampleStart();
    CostTakesSet2();
    CostLeaves();
    ChosenInTurnExtend(Cost, Example, 5, [], Set2);
    AfterAppend(Example, [], Set2);
    assert [] + [Set2] == [Set2];
  }

  /** The cost rule's second turn: seven elements are still uncovered. */
  lemma CostTurn2()
    ensures ChosenInTurn(Cost, Example, 5, [Set2, Set3])
    ensures After(Example, [Set2, Set3]) == Tally({2, 3, 4, 6, 8, 100}, [Set2, Set3], 4.0)
  {
    CostTurn1();
    CostTakesSet3();
    CostLeaves();
    ChosenInTurnExtend(Cost, Example, 5, [Set2], Set3);
    AfterAppend(Example, [Set2], Set3);
    InsertByIdBack([Set2], Set3);
    AppendTwo(Set2, Set3);
  }

  /** The cost rule's third turn: six elements are still uncovered; afterwards
      three are, within the slack of five, so the run is finished. */
  lemma CostRun()
    ensures ChosenInTurn(Cost, Example, 5, [Set2, Set3, Set5])
    ensures After(Example, [Set2, Set3, Set5]) == Tally({3, 4, 8}, [Set2, Set3, Set5], 6.0)
    ensures Finished(Example, 5, After(Example, [Set2, Set3, Set5]))
  {
    CostTurn2();
    CostTakesSet5();
    CostLeaves();
    ChosenInTurnExtend(Cost, Example, 5, [Set2, Set3], Set5);
    AfterAppend(Example, [Set2, Set3], Set5);
    InsertByIdBack([Set2, Set3], Set5);
    AppendThree(Set2, Set3, Set5);
  }

  /** `addSetToCover` with the elements of `es` and an id below every id present
      puts `es` in front. */
  method AddInFront(m: SCPModel, xs: seq<int>, es: ElementSet)
    requires m.Valid() && (m.sets == [] || es.id < m.sets[0].id)
    requires forall x :: x in xs <==> x in es.elems
    modifies m
    ensures m.Valid() && m.sets == [es] + old(m.sets)
  {
    NewElementSetOf(es.id, es.cost, xs, es.elems);
    InsertByIdFront(m.sets, es);
    m.AddSetToCover(es.id, es.cost, xs);
  }

  /** Adding the six sets from Set 6 down to Set 1, as the example does, yields
      the instance in id order: each new set has the lowest id so far and goes
      in front. */
  method BuildExample() returns (m: SCPModel)
    ensures m.Valid() && m.sets == Example
  {
    m := new SCPModel();
    AddInFront(m, [4, 8], Set6);
    AddInFront(m, [2, 6, 100], Set5);
    AddInFront(m, [2, 4, 6, 8, 100], Set4);
    AddInFront(m, [5, 7, 9], Set3);
    AddInFront(m, [1, 5, 9], Set2);
    AddInFront(m, [1, 3, 5, 7, 9], Set1);
    assert m.sets == [Set1] + [Set2] + [Set3] + [Set4] + [Set5] + [Set6];
  }

  /** The example lists its sets in ascending id order. */
  lemma ExampleSorted()
    ensures StrictlySorted(Example)
  {
    assert StrictlySorted(Example[5..]);
    assert Example[4..][1..] == Example[5..];
    assert StrictlySorted(Example[4..]);
    assert Example[3..][1..] == Example[4..];
    assert StrictlySorted(Example[3..]);
    assert Example[2..][1..] == Example[3..];
    assert StrictlySorted(Example[2..]);
    assert Example[1..][1..] == Example[2..];
    assert StrictlySorted(Example[1..]);
  }

  /** Under the coverage or the ratio rule at coverage level 0.5, the only
      finished run on the example chooses Set 1 alone, at cost 3.0, leaving
      half of the elements uncovered. */
  lemma Set1Outcome(kind: Strategy, trace: seq<ElementSet>, t: Tally)
    requires kind == Coverage || kind == Chvatal
    requires ChosenInTurn(kind, Example, Slack(0.5, |Union(Example)|), trace)
    requires t == After(Example, trace) && Finished(Example, Slack(0.5, |Union(Example)|), t)
    ensures trace == [Set1] && t == Tally({2, 4, 6, 8, 100}, [Set1], 3.0)
    ensures CoverageOf(|Union(Example)|, |t.unc|) == 0.5
  {
    ExampleUniverse();
    UniverseSize();
    ExampleSlack();
    if kind == Coverage {
      CoverageTakesSet1();
    } else {
      ChvatalTakesSet1();
    }
    Set1Run(kind);
    ExampleSorted();
    assert Slack(0.5, |Union(Example)|) == 5;
    RunsAgree(kind, Example, 5, trace, [Set1]);
    Set1Leaves();
    HalfCovered();
  }

  /** Under the cost rule at coverage level 0.5, the only finished run on the
      example chooses Sets 2, 3 and 5, at cost 6.0, leaving three elements
      uncovered. */
  lemma CostOutcome(trace: seq<ElementSet>, t: Tally)
    requires ChosenInTurn(Cost, Example, Slack(0.5, |Union(Example)|), trace)
    requires t == After(Example, trace) && Finished(Example, Slack(0.5, |Union(Example)|), t)
    ensures trace == [Set2, Set3, Set5] && t == Tally({3, 4, 8}, [Set2, Set3, Set5], 6.0)
    ensures CoverageOf(|Union(Example)|, |t.unc|) == 0.7
  {
    ExampleUniverse();
    UniverseSize();
    ExampleSlack();
    CostRun();
    ExampleSorted();
    assert Slack(0.5, |Union(Example)|) == 5;
    RunsAgree(Cost, Example, 5, trace, [Set2, Set3, Set5]);
    CostLeaves();
    SevenCovered();
  }

  /** The coverage and ratio solvers on the example at coverage level 0.5 choose
      Set 1 alone, at cost 3.0, covering half of the elements, with no warning. */
  method SolveExample(kind: Strategy) returns (solver: GreedySolver)
    requires kind == Coverage || kind == Chvatal
    ensures solver.strategy == kind && solver.trace == [Set1]
    ensures solver.solnSets == [Set1] && solver.objFn == 3.0
    ensures solver.uncElements == {2, 4, 6, 8, 100}
    ensures solver.coverage == 0.5 && !solver.coverageWarning
  {
    var m := BuildExample();
    solver := new GreedySolver(kind);
    solver.SetMinCoverage(0.5);
    solver.SetModel(m);
    solver.Solve();
    Set1Outcome(kind, solver.trace, Tally(solver.uncElements, solver.solnSets, solver.objFn));
  }

  /** The cost solver on the example at coverage level 0.5 chooses Sets 2, 3
      and 5, at cost 6.0, covering seven of the ten elements, with no warning. */
  method SolveExampleByCost() returns (solver: GreedySolver)
    ensures solver.strategy == Cost && solver.trace == [Set2, Set3, Set5]
    ensures solver.solnSets == [Set2, Set3, Set5] && solver.objFn == 6.0
    ensures solver.uncElements == {3, 4, 8}
    ensures solver.coverage == 0.7 && !solver.coverageWarning
  {
    var m := BuildExample();
    solver := new GreedySolver(Cost);
    solver.SetMinCoverage(0.5);
    solver.SetModel(m);
    solver.Solve();
    CostOutcome(solver.trace, Tally(solver.uncElements, solver.solnSets, solver.objFn));
  }
}
