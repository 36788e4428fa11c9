/** The three `nextBestSet` selection rules (GreedyCoverageSolver,
    GreedyCostSolver, ChvatalSolver). Each scans the instance's sets in
    ascending id order with a running best and a strict comparison, so each
    returns the FIRST best set by id, or `None` when no set contains an
    uncovered element. They read the sets and the uncovered elements and
    change neither (both are values here). */
module Strategies {
  import opened Util
  import opened Model

  /** The selection rule a solver is built with (one per Java subclass). */
  datatype Strategy = Coverage | Cost | Chvatal

  /** How many still-uncovered elements the set would cover. */
  function NewlyCovered(es: ElementSet, unc: set<int>): (n: nat)
    ensures n <= |es.elems| && n <= |unc|
    ensures n == 0 <==> es.elems * unc == {}
  {
    SubsetCardinality(es.elems * unc, es.elems);
    SubsetCardinality(es.elems * unc, unc);
    |es.elems * unc|
  }

  /** A set is a candidate when it contains at least one uncovered element. */
  predicate Eligible(es: ElementSet, unc: set<int>) {
    NewlyCovered(es, unc) > 0
  }

  /** The cost-coverage ratio of a candidate. */
  function Ratio(es: ElementSet, unc: set<int>): (r: real)
    requires Eligible(es, unc)
    ensures r * (NewlyCovered(es, unc) as real) == es.cost
  {
    es.cost / (NewlyCovered(es, unc) as real)
  }

  /** Candidate `a` is strictly better than candidate `b` under the rule. */
  predicate Beats(kind: Strategy, a: ElementSet, b: ElementSet, unc: set<int>)
    requires Eligible(a, unc) && Eligible(b, unc)
  {
    match kind
    case Coverage => NewlyCovered(a, unc) > NewlyCovered(b, unc)
    case Cost => a.cost < b.cost
    case Chvatal => Ratio(a, unc) < Ratio(b, unc)
  }

  /** Among the first `n` sets, `sets[k]` is a candidate that no candidate beats
      and that beats every candidate before it (the lowest id wins a tie). */
  ghost predicate IsFirstBestAmong(kind: Strategy, sets: seq<ElementSet>, unc: set<int>, n: int, k: int) {
    && 0 <= k < n <= |sets|
    && Eligible(sets[k], unc)
    && (forall j :: 0 <= j < n && Eligible(sets[j], unc) ==> !Beats(kind, sets[j], sets[k], unc))
    && (forall j :: 0 <= j < k && Eligible(sets[j], unc) ==> Beats(kind, sets[k], sets[j], unc))
  }

  /** A scan step that does not replace the running best keeps it the first best. */
  lemma KeepBest(kind: Strategy, sets: seq<ElementSet>, unc: set<int>, i: int, bk: int)
    requires IsFirstBestAmong(kind, sets, unc, i, bk) && i < |sets|
    requires Eligible(sets[i], unc) ==> !Beats(kind, sets[i], sets[bk], unc)
    ensures IsFirstBestAmong(kind, sets, unc, i + 1, bk)
  {
  }

  /** The first candidate of a scan is the first best so far. */
  lemma FirstCandidateIsBest(kind: Strategy, sets: seq<ElementSet>, unc: set<int>, i: int)
    requires 0 <= i < |sets| && Eligible(sets[i], unc)
    requires forall j :: 0 <= j < i ==> !Eligible(sets[j], unc)
    ensures IsFirstBestAmong(kind, sets, unc, i + 1, i)
  {
    match kind
    case Coverage =>
    case Cost =>
    case Chvatal =>
  }

  /** A candidate that beats the running best becomes the first best. */
  lemma ReplaceBest(kind: Strategy, sets: seq<ElementSet>, unc: set<int>, i: int, bk: int)
    requires IsFirstBestAmong(kind, sets, unc, i, bk) && i < |sets|
    requires Eligible(sets[i], unc) && Beats(kind, sets[i], sets[bk], unc)
    ensures IsFirstBestAmong(kind, sets, unc, i + 1, i)
  {
    forall j | 0 <= j < i + 1 && Eligible(sets[j], unc)
      ensures !Beats(kind, sets[j], sets[i], unc)
      ensures j < i ==> Beats(kind, sets[i], sets[j], unc)
    {
      if j < i {
        assert !Beats(kind, sets[j], sets[bk], unc);
      }
    }
  }

  /** What a rule must return: no set exactly when no set contains an uncovered
      element, and otherwise the first best candidate of the whole scan. */
  ghost predicate IsChoice(kind: Strategy, sets: seq<ElementSet>, unc: set<int>, r: Option<ElementSet>) {
    match r
    case None => forall j :: 0 <= j < |sets| ==> !Eligible(sets[j], unc)
    case Some(b) => exists k :: IsFirstBestAmong(kind, sets, unc, |sets|, k) && sets[k] == b
  }

  /** The index of the scan's running best after the first `n` sets: a set
      takes the place of the running best when it is a candidate and strictly
      beats it (or there is none yet). */
  ghost function Best(kind: Strategy, sets: seq<ElementSet>, unc: set<int>, n: nat): (r: Option<nat>)
    requires n <= |sets|
    ensures r.Some? ==> r.value < n && Eligible(sets[r.value], unc)
    decreases n
  {
    if n == 0 then None
    else
      var p := Best(kind, sets, unc, n - 1);
      if Eligible(sets[n - 1], unc) && (p.None? || Beats(kind, sets[n - 1], sets[p.value], unc)) then Some(n - 1)
      else p
  }

  /** The set a rule returns after scanning every set, or none. */
  ghost function Choice(kind: Strategy, sets: seq<ElementSet>, unc: set<int>): (r: Option<ElementSet>)
    ensures r.Some? ==> r.value in sets && Eligible(r.value, unc)
  {
    match Best(kind, sets, unc, |sets|)
    case None => None
    case Some(k) => Some(sets[k])
  }

  /** The scan's running best is the first best of the sets scanned so far,
      and there is none exactly when none of them is a candidate. */
  lemma {:induction false} BestIsFirstBest(kind: Strategy, sets: seq<ElementSet>, unc: set<int>, n: nat)
    requires n <= |sets|
    ensures Best(kind, sets, unc, n).None? <==> forall j :: 0 <= j < n ==> !Eligible(sets[j], unc)
    ensures Best(kind, sets, unc, n).Some? ==> IsFirstBestAmong(kind, sets, unc, n, Best(kind, sets, unc, n).value)
    decreases n
  {
    if n > 0 {
      BestIsFirstBest(kind, sets, unc, n - 1);
      var p := Best(kind, sets, unc, n - 1);
      if p.None? {
        if Eligible(sets[n - 1], unc) {
          FirstCandidateIsBest(kind, sets, unc, n - 1);
        }
      } else if Eligible(sets[n - 1], unc) && Beats(kind, sets[n - 1], sets[p.value], unc) {
        ReplaceBest(kind, sets, unc, n - 1, p.value);
      } else {
        KeepBest(kind, sets, unc, n - 1, p.value);
      }
    }
  }


  /** The inner loop shared by the coverage and ratio rules: count the set's
      elements that are still uncovered. (Java visits them in ascending order;
      the count does not depend on the order.) */
  method CountUncovered(es: ElementSet, unc: set<int>) returns (uncE: nat)
    ensures uncE == NewlyCovered(es, unc)
  {
    uncE := 0;
    var rest := es.elems;
    while rest != {}
      invariant rest <= es.elems
      invariant uncE == |(es.elems - rest) * unc|
      decreases |rest|
    {
      EmptyOrHasElement(rest);
      var element :| element in rest;
      ghost var seen := (es.elems - rest) * unc;
      assert element !in seen;
      if element in unc {
        assert (es.elems - (rest - {element})) * unc == seen + {element};
        uncE := uncE + 1;
      } else {
        assert (es.elems - (rest - {element})) * unc == seen;
      }
      rest := rest - {element};
    }
    assert es.elems - rest == es.elems;
  }

  /** GreedyCoverageSolver.nextBestSet: the set with the most uncovered elements.
      The running maximum starts at 0, so a set without uncovered elements is never taken. */
  method CoverageNextBest(sets: seq<ElementSet>, unc: set<int>) returns (bset: Option<ElementSet>)
    ensures bset == Choice(Coverage, sets, unc)
  {
    bset := None;
    var mostUncE := 0;
    var uncE := 0;
    ghost var bk: nat := 0;
    for i := 0 to |sets|
      invariant Best(Coverage, sets, unc, i) == if bset.None? then None else Some(bk)
      invariant bset.None? ==> mostUncE == 0
      invariant bset.Some? ==> bset.value == sets[bk] && mostUncE == NewlyCovered(sets[bk], unc)
    {
      var es := sets[i];
      uncE := CountUncovered(es, unc);
      if uncE > mostUncE {
        mostUncE := uncE;
        bset := Some(es);
        bk := i;
      }
    }
  }

  /** The inner loop of the cost rule: on meeting the set's first uncovered
      element it sets `covers` and takes the set's cost, and otherwise leaves
      both as they were. */
  method MarkIfCovers(es: ElementSet, unc: set<int>, covers0: bool, cost0: real) returns (covers: bool, cost: real)
    ensures Eligible(es, unc) ==> covers && cost == es.cost
    ensures !Eligible(es, unc) ==> covers == covers0 && cost == cost0
  {
    covers, cost := covers0, cost0;
    var rest := es.elems;
    while rest != {}
      invariant rest <= es.elems
      invariant (es.elems - rest) * unc == {}
      invariant covers == covers0 && cost == cost0
      decreases |rest|
    {
      EmptyOrHasElement(rest);
      var element :| element in rest;
      if element in unc {
        covers := true;
        cost := es.cost;
        assert element in es.elems * unc;
        return;
      }
      rest := rest - {element};
    }
    assert es.elems - rest == es.elems;
  }

  /** GreedyCostSolver.nextBestSet: the cheapest set with an uncovered element.
      As in Java, `covers` and `cost` are NOT reset per set: after a set without
      uncovered elements they still hold the values of the last candidate, whose
      cost is at least the running minimum, so the strict test rejects it.
      `bset == None` plays the part of `smallestCost == Double.MAX_VALUE`. */
  method CostNextBest(sets: seq<ElementSet>, unc: set<int>) returns (bset: Option<ElementSet>)
    ensures bset == Choice(Cost, sets, unc)
  {
    bset := None;
    var smallestCost: real := 0.0;
    var covers := false;
    var cost: real := 0.0;
    ghost var bk: nat := 0;
    for i := 0 to |sets|
      invariant covers <==> bset.Some?
      invariant Best(Cost, sets, unc, i) == if bset.None? then None else Some(bk)
      invariant bset.Some? ==> bset.value == sets[bk] && smallestCost == sets[bk].cost <= cost
    {
      var es := sets[i];
      covers, cost := MarkIfCovers(es, unc, covers, cost);
      if covers && (bset.None? || cost < smallestCost) {
        smallestCost := cost;
        bset := Some(es);
        bk := i;
      }
    }
  }

  /** ChvatalSolver.nextBestSet: the least cost per uncovered element.
      A set without uncovered elements gets Infinity or NaN in Java, which fails
      the strict test; here its ratio is `None`. The division reads the count
      before the post-increment `uncE++`, which is dead because the count is
      reset before it is read again. */
  method ChvatalNextBest(sets: seq<ElementSet>, unc: set<int>) returns (bset: Option<ElementSet>)
    ensures bset == Choice(Chvatal, sets, unc)
  {
    bset := None;
    var costCovRatio: Option<real> := None;
    var smallestRatio: real := 0.0;
    var uncE := 0;
    ghost var bk: nat := 0;
    for i := 0 to |sets|
      invariant Best(Chvatal, sets, unc, i) == if bset.None? then None else Some(bk)
      invariant bset.Some? ==> bset.value == sets[bk] && smallestRatio == Ratio(sets[bk], unc)
    {
      var es := sets[i];
      uncE := CountUncovered(es, unc);
      costCovRatio := if uncE > 0 then Some(es.cost / (uncE as real)) else None;
      uncE := uncE + 1;
      if costCovRatio.Some? && (bset.None? || costCovRatio.value < smallestRatio) {
        smallestRatio := costCovRatio.value;
        bset := Some(es);
        bk := i;
      }
    }
  }

  /** `nextBestSet()`, dispatched on the solver's rule. */
  method NextBestSet(kind: Strategy, sets: seq<ElementSet>, unc: set<int>) returns (bset: Option<ElementSet>)
    ensures bset == Choice(kind, sets, unc)
  {
    match kind
    case Coverage => bset := CoverageNextBest(sets, unc);
    case Cost => bset := CostNextBest(sets, unc);
    case Chvatal => bset := ChvatalNextBest(sets, unc);
  }

  /** The choice is determined by the sets and the uncovered elements: a rule is deterministic. */
  lemma ChoiceIsUnique(kind: Strategy, sets: seq<ElementSet>, unc: set<int>, r1: Option<ElementSet>, r2: Option<ElementSet>)
    requires IsChoice(kind, sets, unc, r1) && IsChoice(kind, sets, unc, r2)
    ensures r1 == r2
  {
    if r1.Some? {
      var k1 :| IsFirstBestAmong(kind, sets, unc, |sets|, k1) && sets[k1] == r1.value;
      if r2.Some? {
        var k2 :| IsFirstBestAmong(kind, sets, unc, |sets|, k2) && sets[k2] == r2.value;
        assert !(k1 < k2) && !(k2 < k1);
      } else {
        assert false;
      }
    } else if r2.Some? {
      assert false;
    }
  }

  /** The scan's result is what a rule must return. */
  lemma ChoiceIsChoice(kind: Strategy, sets: seq<ElementSet>, unc: set<int>)
    ensures IsChoice(kind, sets, unc, Choice(kind, sets, unc))
  {
    BestIsFirstBest(kind, sets, unc, |sets|);
  }

  /** A result is what a rule must return exactly when it is the scan's result. */
  lemma ChoiceCharacterized(kind: Strategy, sets: seq<ElementSet>, unc: set<int>, r: Option<ElementSet>)
    ensures IsChoice(kind, sets, unc, r) <==> r == Choice(kind, sets, unc)
  {
    ChoiceIsChoice(kind, sets, unc);
    if IsChoice(kind, sets, unc, r) {
      ChoiceIsUnique(kind, sets, unc, r, Choice(kind, sets, unc));
    }
  }

  /** No set is returned exactly when every uncovered element lies outside every set. */
  lemma NoChoiceIffNothingCoverable(kind: Strategy, sets: seq<ElementSet>, unc: set<int>, r: Option<ElementSet>)
    requires IsChoice(kind, sets, unc, r)
    ensures r.None? <==> unc * Union(sets) == {}
  {
    if r.None? {
      forall x | x in unc ensures x !in Union(sets) {
        forall k | 0 <= k < |sets| ensures x !in sets[k].elems {
          assert sets[k].elems * unc == {};
          assert x !in sets[k].elems * unc;
        }
      }
      assert unc * Union(sets) == {};
    } else {
      var k :| IsFirstBestAmong(kind, sets, unc, |sets|, k) && sets[k] == r.value;
      EmptyOrHasElement(sets[k].elems * unc);
      var x :| x in sets[k].elems * unc;
      assert x in unc * Union(sets);
    }
  }

  /** A returned set is one of the instance's sets and covers a new element. */
  lemma ChoiceCoversNewElement(kind: Strategy, sets: seq<ElementSet>, unc: set<int>, b: ElementSet)
    requires IsChoice(kind, sets, unc, Some(b))
    ensures b in sets && b.elems * unc != {}
  {
    var k :| IsFirstBestAmong(kind, sets, unc, |sets|, k) && sets[k] == b;
  }

  /** A set already chosen, whose elements were all removed from the uncovered
      ones, is never returned again. */
  lemma {:induction false} NeverChosenTwice(kind: Strategy, sets: seq<ElementSet>, chosen: seq<ElementSet>, b: ElementSet)
    requires Choice(kind, sets, Union(sets) - Union(chosen)) == Some(b)
    ensures b !in chosen
  {
    forall k | 0 <= k < |chosen| ensures chosen[k] != b {
      UnionContainsEach(chosen, k);
      assert chosen[k].elems * (Union(sets) - Union(chosen)) == {};
    }
  }

  /** The coverage rule's choice covers at least as many new elements as any set, candidate or not. */
  lemma CoverageChoiceIsMaximal(sets: seq<ElementSet>, unc: set<int>, b: ElementSet)
    requires IsChoice(Coverage, sets, unc, Some(b))
    ensures forall j :: 0 <= j < |sets| ==> NewlyCovered(sets[j], unc) <= NewlyCovered(b, unc)
  {
    var k :| IsFirstBestAmong(Coverage, sets, unc, |sets|, k) && sets[k] == b;
    forall j | 0 <= j < |sets| ensures NewlyCovered(sets[j], unc) <= NewlyCovered(b, unc) {
      if Eligible(sets[j], unc) {
        assert !Beats(Coverage, sets[j], sets[k], unc);
      }
    }
  }

  /** The cost rule's choice is no dearer than any set with an uncovered element. */
  lemma CostChoiceIsCheapest(sets: seq<ElementSet>, unc: set<int>, b: ElementSet)
    requires IsChoice(Cost, sets, unc, Some(b))
    ensures forall j :: 0 <= j < |sets| && Eligible(sets[j], unc) ==> b.cost <= sets[j].cost
  {
    var k :| IsFirstBestAmong(Cost, sets, unc, |sets|, k) && sets[k] == b;
    forall j | 0 <= j < |sets| && Eligible(sets[j], unc) ensures b.cost <= sets[j].cost {
      assert !Beats(Cost, sets[j], sets[k], unc);
    }
  }

  /** The ratio rule's choice has the least cost per uncovered element among the
      sets with an uncovered element. */
  lemma ChvatalChoiceHasLeastRatio(sets: seq<ElementSet>, unc: set<int>, b: ElementSet)
    requires IsChoice(Chvatal, sets, unc, Some(b))
    ensures Eligible(b, unc)
    ensures forall j :: 0 <= j < |sets| && Eligible(sets[j], unc) ==> Ratio(b, unc) <= Ratio(sets[j], unc)
  {
    var k :| IsFirstBestAmong(Chvatal, sets, unc, |sets|, k) && sets[k] == b;
    forall j | 0 <= j < |sets| && Eligible(sets[j], unc) ensures Ratio(b, unc) <= Ratio(sets[j], unc) {
      assert !Beats(Chvatal, sets[j], sets[k], unc);
    }
  }

  /** In an id-ordered instance every candidate with a lower id than the choice
      is strictly worse, so of two equally good candidates the lower id is chosen. */
  lemma ChoiceWinsTiesByLowerId(kind: Strategy, sets: seq<ElementSet>, unc: set<int>, b: ElementSet, j: int)
    requires StrictlySorted(sets) && IsChoice(kind, sets, unc, Some(b))
    requires 0 <= j < |sets| && sets[j].id < b.id && Eligible(sets[j], unc)
    ensures Eligible(b, unc) && Beats(kind, b, sets[j], unc)
  {
    var k :| IsFirstBestAmong(kind, sets, unc, |sets|, k) && sets[k] == b;
    if k < j {
      SortedAt(sets, k, j);
    }
  }

  /** A zero-cost candidate keeps every positive-cost set from being the cost
      rule's choice; with non-negative costs the choice then costs nothing. */
  lemma CostPrefersZeroCost(sets: seq<ElementSet>, unc: set<int>, z: int, b: ElementSet)
    requires 0 <= z < |sets| && Eligible(sets[z], unc) && sets[z].cost == 0.0
    requires IsChoice(Cost, sets, unc, Some(b))
    ensures b.cost <= 0.0
    ensures (forall j :: 0 <= j < |sets| ==> sets[j].cost >= 0.0) ==> b.cost == 0.0
  {
    var k :| IsFirstBestAmong(Cost, sets, unc, |sets|, k) && sets[k] == b;
    assert !Beats(Cost, sets[z], sets[k], unc);
  }

  /** With non-negative costs, a zero-cost candidate is the ratio rule's choice
      unless a lower-id candidate also costs nothing. */
  lemma ChvatalPrefersZeroCost(sets: seq<ElementSet>, unc: set<int>, z: int)
    requires forall j :: 0 <= j < |sets| ==> sets[j].cost >= 0.0
    requires 0 <= z < |sets| && Eligible(sets[z], unc) && sets[z].cost == 0.0
    requires forall j :: 0 <= j < z && Eligible(sets[j], unc) ==> sets[j].cost > 0.0
    ensures IsChoice(Chvatal, sets, unc, Some(sets[z]))
  {
    forall j | 0 <= j < |sets| && Eligible(sets[j], unc)
      ensures Ratio(sets[j], unc) >= 0.0
      ensures j < z ==> Ratio(sets[j], unc) > 0.0
    {
      var n := NewlyCovered(sets[j], unc) as real;
      assert n > 0.0;
    }
    assert Ratio(sets[z], unc) == 0.0;
    assert IsFirstBestAmong(Chvatal, sets, unc, |sets|, z);
  }

  /** A rule returns no set only once every element of the universe is covered. */
  lemma NoChoiceMeansAllCovered(kind: Strategy, sets: seq<ElementSet>, unc: set<int>)
    requires unc <= Union(sets) && IsChoice(kind, sets, unc, None)
    ensures unc == {}
  {
    NoChoiceIffNothingCoverable(kind, sets, unc, None);
    assert unc * Union(sets) == unc;
  }
}
