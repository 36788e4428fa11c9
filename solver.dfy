/** The greedy covering loop of GreedySolver: starting from every element
    uncovered, it keeps asking its selection rule for the next set, removes
    that set's elements from the uncovered ones, records the set and adds its
    cost, until few enough elements are left uncovered, the rule has no set,
    or every set has been chosen. */
module Solver {
  import opened Util
  import opened Model
  import opened Strategies

  /** `(int) Math.ceil(x)`: the least integer not below `x`. */
  function Ceil(x: real): (c: int)
    ensures x <= c as real < x + 1.0
  {
    -((-x).Floor)
  }

  /** `num_can_leave_uncovered`: the number of elements that may stay uncovered
      once `ceil(alpha * numE)` elements are covered. */
  function Slack(alpha: real, numE: nat): (k: int)
    ensures alpha * numE as real <= (numE - k) as real < alpha * numE as real + 1.0
  {
    numE - Ceil(alpha * numE as real)
  }

  /** The total cost of the sets, added up in the order given. */
  function SumCost(s: seq<ElementSet>): (total: real)
    ensures (forall i :: 0 <= i < |s| ==> s[i].cost >= 0.0) ==> total >= 0.0
  {
    if s == [] then 0.0
    else
      assert forall i :: 0 <= i < |s| - 1 ==> s[..|s| - 1][i] == s[i];
      SumCost(s[..|s| - 1]) + s[|s| - 1].cost
  }

  /** The covered fraction of `numE` elements when `uncovered` of them are not
      covered. Java computes 0/0.0 = NaN for an empty universe; that case is 0 here. */
  function CoverageOf(numE: nat, uncovered: int): (c: real)
    ensures numE > 0 ==> c * numE as real == (numE - uncovered) as real
    ensures numE == 0 ==> c == 0.0
  {
    if numE == 0 then 0.0 else (numE - uncovered) as real / numE as real
  }

  /** The order of the chosen sets: each one was the rule's choice for the
      elements still uncovered after the sets before it, and at each turn more
      elements than the slack were uncovered. */
  ghost predicate ChosenInTurn(kind: Strategy, sets: seq<ElementSet>, slack: int, chosen: seq<ElementSet>)
    decreases |chosen|
  {
    || chosen == []
    || (var before := chosen[..|chosen| - 1];
        ChosenInTurn(kind, sets, slack, before) && ChosenAfter(kind, sets, slack, before, chosen[|chosen| - 1]))
  }

  /** `b` is the rule's choice once the sets `before` have been chosen, and
      more elements than the slack were still uncovered at that point. */
  ghost predicate ChosenAfter(kind: Strategy, sets: seq<ElementSet>, slack: int, before: seq<ElementSet>, b: ElementSet) {
    && |After(sets, before).unc| > slack
    && Choice(kind, sets, After(sets, before).unc) == Some(b)
  }

  /** A non-empty sequence is its prefix followed by its last set. */
  lemma SplitLast(s: seq<ElementSet>)
    requires s != []
    ensures s == s[..|s| - 1] + [s[|s| - 1]]
  {
  }

  /** No set occurs twice: each one differs from every set before it. */
  ghost predicate NoRepeats(s: seq<ElementSet>)
    decreases |s|
  {
    s == [] || (s[|s| - 1] !in s[..|s| - 1] && NoRepeats(s[..|s| - 1]))
  }

  /** Two positions of a sequence without repeats hold different sets. */
  lemma {:induction false} NoRepeatsDistinct(s: seq<ElementSet>, i: int, j: int)
    requires NoRepeats(s) && 0 <= i < j < |s|
    ensures s[i] != s[j]
    decreases |s|
  {
    var before := s[..|s| - 1];
    if j < |s| - 1 {
      NoRepeatsDistinct(before, i, j);
    } else {
      assert s[i] == before[i];
    }
  }

  /** The state of a run: the uncovered elements, the chosen sets in id
      order (the TreeSet solnSets) and their total cost. */
  datatype Tally = Tally(unc: set<int>, soln: seq<ElementSet>, objFn: real)

  /** The state reached by choosing the sets of `trace` in that order, from
      every element uncovered, nothing chosen and cost 0. */
  function After(sets: seq<ElementSet>, trace: seq<ElementSet>): (t: Tally)
    ensures StrictlySorted(t.soln)
    decreases |trace|
  {
    if trace == [] then Tally(Union(sets), [], 0.0)
    else
      var t := After(sets, trace[..|trace| - 1]);
      var b := trace[|trace| - 1];
      Tally(t.unc - b.elems, InsertById(t.soln, b), t.objFn + b.cost)
  }

  /** Why a run stopped: the coverage goal is met, nothing is left uncovered
      (the rule returned none), or every set was chosen. */
  predicate Finished(sets: seq<ElementSet>, slack: int, t: Tally) {
    |t.unc| <= slack || t.unc == {} || |t.soln| == |sets|
  }

  /** The coverage fraction lies in [0, 1]. */
  lemma {:induction false} CoverageInUnitInterval(numE: nat, u: int)
    requires 0 <= u <= numE
    ensures 0.0 <= CoverageOf(numE, u) <= 1.0
  {
    if numE > 0 {
      var n := numE as real;
      var c := (numE - u) as real;
      assert 0.0 <= c <= n;
      assert c / n <= 1.0 by {
        assert c / n == c * (1.0 / n);
        assert 1.0 / n > 0.0;
        assert c * (1.0 / n) <= n * (1.0 / n);
      }
    }
  }

  /** Leaving no more than the slack uncovered reaches coverage alpha. */
  lemma {:induction false} GoalMetReachesAlpha(alpha: real, numE: nat, u: int)
    requires numE > 0 && u <= Slack(alpha, numE)
    ensures CoverageOf(numE, u) >= alpha
  {
    var n := numE as real;
    var c := (numE - u) as real;
    assert c >= alpha * n;
    assert c / n >= (alpha * n) / n;
  }

  /** How the slack depends on alpha. */
  lemma {:induction false} SlackBounds(alpha: real, numE: nat)
    ensures alpha <= 0.0 ==> Slack(alpha, numE) >= numE
    ensures alpha == 0.0 ==> Slack(alpha, numE) == numE
    ensures 0.0 <= alpha ==> Slack(alpha, numE) <= numE
    ensures alpha <= 1.0 ==> Slack(alpha, numE) >= 0
  {
    var n := numE as real;
    if alpha <= 0.0 {
      assert alpha * n <= 0.0;
    }
    if 0.0 <= alpha {
      assert alpha * n >= 0.0;
    }
    if alpha <= 1.0 {
      assert alpha * n <= n;
    }
  }

  /** Removing a set that holds an uncovered element shrinks the uncovered elements. */
  lemma {:induction false} RemovingShrinks(unc: set<int>, e: set<int>)
    requires e * unc != {}
    ensures |unc - e| < |unc|
  {
    assert unc == (unc - e) + (unc * e);
    assert (unc - e) * (unc * e) == {};
    assert |unc * e| > 0;
  }

  /** Adding one set to the end adds its cost. */
  lemma {:induction false} SumCostAppend(s: seq<ElementSet>, es: ElementSet)
    ensures SumCost(s + [es]) == SumCost(s) + es.cost
  {
    assert (s + [es])[..|s|] == s;
  }

  /** One turn of the loop keeps the turn-by-turn record. */
  lemma {:induction false} ChosenInTurnExtend(kind: Strategy, sets: seq<ElementSet>, slack: int, chosen: seq<ElementSet>, b: ElementSet)
    requires ChosenInTurn(kind, sets, slack, chosen)
    requires ChosenAfter(kind, sets, slack, chosen, b)
    ensures ChosenInTurn(kind, sets, slack, chosen + [b])
  {
    assert (chosen + [b])[..|chosen|] == chosen;
  }

  /** Every prefix of a turn-by-turn run is one too. */
  lemma {:induction false} ChosenInTurnPrefix(kind: Strategy, sets: seq<ElementSet>, slack: int, chosen: seq<ElementSet>, k: int)
    requires ChosenInTurn(kind, sets, slack, chosen) && 0 <= k <= |chosen|
    ensures ChosenInTurn(kind, sets, slack, chosen[..k])
    decreases |chosen| - k
  {
    if k < |chosen| {
      var before := chosen[..|chosen| - 1];
      assert ChosenInTurn(kind, sets, slack, before);
      assert ChosenInTurn(kind, sets, slack, before[..k]) by {
        ChosenInTurnPrefix(kind, sets, slack, before, k);
      }
      assert before[..k] == chosen[..k];
    } else {
      assert chosen[..k] == chosen;
    }
  }

  /** The last set of a turn-by-turn run was the rule's choice after the sets before it. */
  lemma {:induction false} LastTurn(kind: Strategy, sets: seq<ElementSet>, slack: int, t: seq<ElementSet>)
    requires ChosenInTurn(kind, sets, slack, t) && t != []
    ensures ChosenInTurn(kind, sets, slack, t[..|t| - 1])
    ensures ChosenAfter(kind, sets, slack, t[..|t| - 1], t[|t| - 1])
  {
  }

  /** Of two turn-by-turn runs, the shorter is a prefix of the longer: every
      turn's choice is determined by the turns before it. */
  lemma {:induction false} CommonPrefix(kind: Strategy, sets: seq<ElementSet>, slack: int, t1: seq<ElementSet>, t2: seq<ElementSet>)
    requires ChosenInTurn(kind, sets, slack, t1) && ChosenInTurn(kind, sets, slack, t2)
    requires |t1| <= |t2|
    ensures t1 == t2[..|t1|]
    decreases |t1|
  {
    if t1 != [] {
      var n := |t1| - 1;
      var before := t1[..n];
      assert ChosenInTurn(kind, sets, slack, before) && ChosenAfter(kind, sets, slack, before, t1[n]) by {
        LastTurn(kind, sets, slack, t1);
      }
      assert before == t2[..n] by {
        CommonPrefix(kind, sets, slack, before, t2);
      }
      assert ChosenAfter(kind, sets, slack, before, t2[n]) by {
        TurnAt(kind, sets, slack, t2, n);
      }
      assert t1[n] == t2[n] by {
        SameTurn(kind, sets, slack, before, t1[n], t2[n]);
      }
      SameLast(t1, t2, n);
    }
  }

  /** The set a turn-by-turn run takes at position `n` was the rule's choice after the sets before it. */
  lemma {:induction false} TurnAt(kind: Strategy, sets: seq<ElementSet>, slack: int, t: seq<ElementSet>, n: nat)
    requires ChosenInTurn(kind, sets, slack, t) && n < |t|
    ensures ChosenInTurn(kind, sets, slack, t[..n])
    ensures ChosenAfter(kind, sets, slack, t[..n], t[n])
  {
    var p := t[..n + 1];
    assert ChosenInTurn(kind, sets, slack, p) by {
      ChosenInTurnPrefix(kind, sets, slack, t, n + 1);
    }
    assert p[..n] == t[..n] && p[n] == t[n];
    assert ChosenInTurn(kind, sets, slack, p[..n]) && ChosenAfter(kind, sets, slack, p[..n], p[n]) by {
      LastTurn(kind, sets, slack, p);
    }
  }

  /** The rule's choice after the same sets is the same set. */
  lemma SameTurn(kind: Strategy, sets: seq<ElementSet>, slack: int, before: seq<ElementSet>, a: ElementSet, b: ElementSet)
    requires ChosenAfter(kind, sets, slack, before, a) && ChosenAfter(kind, sets, slack, before, b)
    ensures a == b
  {
  }

  /** Sequences that agree up to position `n` and at `n` agree up to `n + 1`. */
  lemma SameLast(t1: seq<ElementSet>, t2: seq<ElementSet>, n: nat)
    requires |t1| == n + 1 <= |t2|
    requires t1[..n] == t2[..n] && t1[n] == t2[n]
    ensures t1 == t2[..n + 1]
  {
    assert forall i :: 0 <= i < n ==> t1[i] == t1[..n][i];
  }

  /** The set a longer run takes after a shorter one is the rule's choice after it. */
  lemma {:induction false} NextTurn(kind: Strategy, sets: seq<ElementSet>, slack: int, t1: seq<ElementSet>, t2: seq<ElementSet>)
    requires ChosenInTurn(kind, sets, slack, t1) && ChosenInTurn(kind, sets, slack, t2)
    requires |t1| < |t2|
    ensures ChosenAfter(kind, sets, slack, t1, t2[|t1|])
  {
    assert t1 == t2[..|t1|] by {
      CommonPrefix(kind, sets, slack, t1, t2);
    }
    TurnAt(kind, sets, slack, t2, |t1|);
  }

  /** A run after which the rule still has a choice has chosen fewer sets than
      there are: the choice is a set whose id the solution does not hold yet. */
  lemma {:induction false} RoomForChoice(kind: Strategy, sets: seq<ElementSet>, slack: int, t1: seq<ElementSet>, b: ElementSet)
    requires StrictlySorted(sets)
    requires ChosenInTurn(kind, sets, slack, t1) && Choice(kind, sets, After(sets, t1).unc) == Some(b)
    ensures |After(sets, t1).soln| < |sets|
  {
    var soln := After(sets, t1).soln;
    ChosenFromSets(kind, sets, slack, t1);
    AfterSolution(kind, sets, slack, t1);
    ChoiceIsNew(kind, sets, t1, soln, b);
    var r := InsertById(soln, b);
    assert multiset(r) == multiset(t1) + multiset{b};
    forall i | 0 <= i < |r| ensures r[i] in sets {
      assert r[i] in multiset(r);
      if r[i] != b {
        assert r[i] in multiset(t1);
      }
    }
    SortedSubcollectionShorter(r, sets);
  }

  /** A run that some longer run extends was not finished: the next turn found
      more than the slack uncovered and a set not yet chosen. */
  lemma {:induction false} ExtendedRunUnfinished(kind: Strategy, sets: seq<ElementSet>, slack: int, t1: seq<ElementSet>, t2: seq<ElementSet>)
    requires StrictlySorted(sets)
    requires ChosenInTurn(kind, sets, slack, t1) && ChosenInTurn(kind, sets, slack, t2)
    requires |t1| < |t2|
    ensures !Finished(sets, slack, After(sets, t1))
  {
    NextTurn(kind, sets, slack, t1, t2);
    var b := t2[|t1|];
    var unc := After(sets, t1).unc;
    assert |unc| > slack && Choice(kind, sets, unc) == Some(b);
    assert unc != {} by {
      assert Eligible(b, unc);
    }
    RoomForChoice(kind, sets, slack, t1, b);
  }

  /** The greedy run is determined: two finished turn-by-turn runs on the same
      instance, rule and slack are the same run. */
  lemma {:induction false} RunsAgree(kind: Strategy, sets: seq<ElementSet>, slack: int, t1: seq<ElementSet>, t2: seq<ElementSet>)
    requires StrictlySorted(sets)
    requires ChosenInTurn(kind, sets, slack, t1) && Finished(sets, slack, After(sets, t1))
    requires ChosenInTurn(kind, sets, slack, t2) && Finished(sets, slack, After(sets, t2))
    ensures t1 == t2
  {
    if |t1| < |t2| {
      ExtendedRunUnfinished(kind, sets, slack, t1, t2);
      assert false;
    } else if |t2| < |t1| {
      ExtendedRunUnfinished(kind, sets, slack, t2, t1);
      assert false;
    } else {
      CommonPrefix(kind, sets, slack, t1, t2);
      assert t2[..|t1|] == t2;
    }
  }

  /** The set chosen at a turn is new, and its id is not yet in the id-ordered solution. */
  lemma {:induction false} ChoiceIsNew(kind: Strategy, sets: seq<ElementSet>, chosen: seq<ElementSet>, solnSets: seq<ElementSet>, b: ElementSet)
    requires StrictlySorted(sets)
    requires forall i :: 0 <= i < |chosen| ==> chosen[i] in sets
    requires multiset(solnSets) == multiset(chosen)
    requires Choice(kind, sets, After(sets, chosen).unc) == Some(b)
    ensures b in sets && b !in chosen && !HasId(solnSets, b.id)
  {
    AfterUncovered(sets, chosen);
    ChoiceIsChoice(kind, sets, Union(sets) - Union(chosen));
    ChoiceCoversNewElement(kind, sets, Union(sets) - Union(chosen), b);
    NeverChosenTwice(kind, sets, chosen, b);
    forall k | 0 <= k < |solnSets| ensures solnSets[k].id != b.id {
      var t := solnSets[k];
      assert t in multiset(solnSets);
      assert t in chosen;
      DistinctSetsDistinctIds(sets, t, b);
    }
  }

  /** What holds of the solver's state after every turn of the loop: the
      uncovered elements are the universe minus the chosen sets' elements, the
      chosen sets come from the instance with none twice, the solution holds
      them in id order, the cost is their total, and each turn covered at
      least one element. */
  ghost predicate RunState(kind: Strategy, sets: seq<ElementSet>, slack: int, unc: set<int>,
                           trace: seq<ElementSet>, solnSets: seq<ElementSet>, objFn: real)
  {
    && StrictlySorted(sets)
    && unc == Union(sets) - Union(trace)
    && (forall i :: 0 <= i < |trace| ==> trace[i] in sets)
    && NoRepeats(trace)
    && StrictlySorted(solnSets) && multiset(solnSets) == multiset(trace)
    && objFn == SumCost(trace)
    && |unc| + |trace| <= |Union(sets)|
    && ChosenInTurn(kind, sets, slack, trace)
  }

  /** After a turn the uncovered elements are the universe minus the chosen sets' elements. */
  lemma {:induction false} UncoveredAfterTurn(sets: seq<ElementSet>, trace: seq<ElementSet>, unc: set<int>, b: ElementSet)
    requires unc == Union(sets) - Union(trace)
    ensures unc - b.elems == Union(sets) - Union(trace + [b])
  {
    UnionAppend(trace, b);
  }

  /** Appending a set of the instance keeps every chosen set one of the instance's. */
  lemma {:induction false} FromSetsAfterTurn(sets: seq<ElementSet>, trace: seq<ElementSet>, b: ElementSet)
    requires forall i :: 0 <= i < |trace| ==> trace[i] in sets
    requires b in sets
    ensures forall i :: 0 <= i < |trace + [b]| ==> (trace + [b])[i] in sets
  {
  }

  /** Appending a new set keeps a sequence free of repeats. */
  lemma {:induction false} NoRepeatsAppend(trace: seq<ElementSet>, b: ElementSet)
    requires NoRepeats(trace) && b !in trace
    ensures NoRepeats(trace + [b])
  {
    assert (trace + [b])[..|trace|] == trace;
  }

  /** What the run state gives at the end of a run: no more turns than sets
      or elements, and no set chosen when nothing was to be covered. */
  lemma {:induction false} RunEnd(sets: seq<ElementSet>, slack: int, unc: set<int>, trace: seq<ElementSet>, solnSets: seq<ElementSet>)
    requires StrictlySorted(sets)
    requires forall i :: 0 <= i < |trace| ==> trace[i] in sets
    requires StrictlySorted(solnSets) && multiset(solnSets) == multiset(trace)
    requires |unc| + |trace| <= |Union(sets)|
    ensures |solnSets| == |trace| <= |sets| && |trace| <= |Union(sets)|
    ensures trace == [] ==> solnSets == []
  {
    assert |solnSets| == |multiset(solnSets)| == |multiset(trace)| == |trace|;
    forall i | 0 <= i < |solnSets| ensures solnSets[i] in sets {
      assert solnSets[i] in multiset(trace);
    }
    SortedSubcollectionShorter(solnSets, sets);
  }

  /** The sets of a turn-by-turn run are sets of the instance, none chosen twice. */
  lemma {:induction false} ChosenFromSets(kind: Strategy, sets: seq<ElementSet>, slack: int, trace: seq<ElementSet>)
    requires ChosenInTurn(kind, sets, slack, trace)
    ensures forall i :: 0 <= i < |trace| ==> trace[i] in sets
    ensures NoRepeats(trace)
    decreases |trace|
  {
    if trace != [] {
      var before := trace[..|trace| - 1];
      var b := trace[|trace| - 1];
      ChosenFromSets(kind, sets, slack, before);
      AfterUncovered(sets, before);
      NeverChosenTwice(kind, sets, before, b);
      FromSetsAfterTurn(sets, before, b);
      NoRepeatsAppend(before, b);
      SplitLast(trace);
    }
  }

  /** The solution of a turn-by-turn run holds exactly the chosen sets, each once. */
  lemma {:induction false} AfterSolution(kind: Strategy, sets: seq<ElementSet>, slack: int, trace: seq<ElementSet>)
    requires StrictlySorted(sets) && ChosenInTurn(kind, sets, slack, trace)
    ensures multiset(After(sets, trace).soln) == multiset(trace)
    decreases |trace|
  {
    if trace != [] {
      var before := trace[..|trace| - 1];
      var b := trace[|trace| - 1];
      AfterSolution(kind, sets, slack, before);
      ChosenFromSets(kind, sets, slack, before);
      ChoiceIsNew(kind, sets, before, After(sets, before).soln, b);
      AfterAppend(sets, before, b);
      SplitLast(trace);
    }
  }

  /** The cost after a run is the total cost of the chosen sets. */
  lemma {:induction false} AfterCost(sets: seq<ElementSet>, trace: seq<ElementSet>)
    ensures After(sets, trace).objFn == SumCost(trace)
    decreases |trace|
  {
    if trace != [] {
      var before := trace[..|trace| - 1];
      var b := trace[|trace| - 1];
      AfterCost(sets, before);
      AfterAppend(sets, before, b);
      SumCostAppend(before, b);
      SplitLast(trace);
    }
  }

  /** Every turn of a run covers at least one more element. */
  lemma {:induction false} AfterCount(kind: Strategy, sets: seq<ElementSet>, slack: int, trace: seq<ElementSet>)
    requires ChosenInTurn(kind, sets, slack, trace)
    ensures |After(sets, trace).unc| + |trace| <= |Union(sets)|
    decreases |trace|
  {
    if trace != [] {
      var before := trace[..|trace| - 1];
      var b := trace[|trace| - 1];
      var unc := After(sets, before).unc;
      AfterCount(kind, sets, slack, before);
      RemovingShrinks(unc, b.elems);
      AfterAppend(sets, before, b);
      SplitLast(trace);
    }
  }

  /** The state after a turn-by-turn run is the run state of its choices:
      the uncovered elements are the universe minus the chosen sets, the
      solution holds exactly the chosen sets, each once, in id order, and the
      cost is their total. */
  lemma {:induction false} RunFacts(kind: Strategy, sets: seq<ElementSet>, slack: int, trace: seq<ElementSet>)
    requires StrictlySorted(sets) && ChosenInTurn(kind, sets, slack, trace)
    ensures RunState(kind, sets, slack, After(sets, trace).unc, trace, After(sets, trace).soln, After(sets, trace).objFn)
  {
    AfterUncovered(sets, trace);
    ChosenFromSets(kind, sets, slack, trace);
    AfterSolution(kind, sets, slack, trace);
    AfterCost(sets, trace);
    AfterCount(kind, sets, slack, trace);
  }

  /** The uncovered elements after a run are the universe minus the chosen sets' elements. */
  lemma {:induction false} AfterUncovered(sets: seq<ElementSet>, trace: seq<ElementSet>)
    ensures After(sets, trace).unc == Union(sets) - Union(trace)
    ensures After(sets, trace).unc <= Union(sets)
    decreases |trace|
  {
    if trace == [] {
      assert Union(trace) == {};
    } else {
      var before := trace[..|trace| - 1];
      AfterUncovered(sets, before);
      UncoveredAfterTurn(sets, before, After(sets, before).unc, trace[|trace| - 1]);
      SplitLast(trace);
    }
  }

  /** One turn of the loop: the rule's choice `b` for what `trace` left
      uncovered extends the turn-by-turn record, the state is updated as the
      loop body does, and fewer elements stay uncovered. */
  lemma {:induction false} Turn(kind: Strategy, sets: seq<ElementSet>, slack: int, trace: seq<ElementSet>, t: Tally, b: ElementSet)
    requires ChosenInTurn(kind, sets, slack, trace) && After(sets, trace) == t
    requires |t.unc| > slack && Choice(kind, sets, t.unc) == Some(b)
    ensures ChosenInTurn(kind, sets, slack, trace + [b])
    ensures After(sets, trace + [b]) == Tally(t.unc - b.elems, InsertById(t.soln, b), t.objFn + b.cost)
    ensures |t.unc - b.elems| < |t.unc|
  {
    assert (trace + [b])[..|trace|] == trace;
    ChosenInTurnExtend(kind, sets, slack, trace, b);
    AfterAppend(sets, trace, b);
    RemovingShrinks(t.unc, b.elems);
  }

  /** Choosing one more set applies the loop body's update to the state. */
  lemma {:induction false} AfterAppend(sets: seq<ElementSet>, trace: seq<ElementSet>, b: ElementSet)
    ensures After(sets, trace + [b]) ==
              Tally(After(sets, trace).unc - b.elems, InsertById(After(sets, trace).soln, b), After(sets, trace).objFn + b.cost)
  {
    assert (trace + [b])[..|trace|] == trace;
  }

  /** When the rule has no set for what a run left uncovered, nothing is left uncovered. */
  lemma {:induction false} NoChoiceFinishes(kind: Strategy, sets: seq<ElementSet>, trace: seq<ElementSet>)
    requires Choice(kind, sets, After(sets, trace).unc) == None
    ensures After(sets, trace).unc == {}
  {
    AfterUncovered(sets, trace);
    ChoiceIsChoice(kind, sets, After(sets, trace).unc);
    NoChoiceMeansAllCovered(kind, sets, After(sets, trace).unc);
  }

  /** A chosen set means more elements than the slack were there to cover. */
  lemma {:induction false} ChosenBeyondSlack(kind: Strategy, sets: seq<ElementSet>, slack: int, trace: seq<ElementSet>)
    requires ChosenInTurn(kind, sets, slack, trace) && trace != []
    ensures slack < |Union(sets)|
  {
    var before := trace[..|trace| - 1];
    AfterUncovered(sets, before);
    SubsetCardinality(After(sets, before).unc, Union(sets));
  }

  /** What a finished run guarantees, with `numE` the universe's size and
      `slack` the number of elements allowed to stay uncovered: no more turns
      than sets or elements; for alpha in [0, 1] the loop ends with the goal
      met or every set chosen (the rule never runs dry first); the coverage is
      a fraction, reaching alpha when the goal is met; and for alpha <= 0
      nothing is chosen. */
  lemma {:induction false} RunOutcome(kind: Strategy, sets: seq<ElementSet>, alpha: real, trace: seq<ElementSet>)
    requires StrictlySorted(sets)
    requires ChosenInTurn(kind, sets, Slack(alpha, |Union(sets)|), trace)
    requires Finished(sets, Slack(alpha, |Union(sets)|), After(sets, trace))
    ensures |trace| <= |sets| && |trace| <= |Union(sets)|
    ensures 0.0 <= alpha <= 1.0 ==>
              |After(sets, trace).unc| <= Slack(alpha, |Union(sets)|) || |After(sets, trace).soln| == |sets|
    ensures 0.0 <= CoverageOf(|Union(sets)|, |After(sets, trace).unc|) <= 1.0
    ensures |Union(sets)| > 0 && |After(sets, trace).unc| <= Slack(alpha, |Union(sets)|) ==>
              CoverageOf(|Union(sets)|, |After(sets, trace).unc|) >= alpha
    ensures alpha <= 0.0 ==>
              trace == [] && After(sets, trace) == Tally(Union(sets), [], 0.0) &&
              CoverageOf(|Union(sets)|, |After(sets, trace).unc|) == 0.0
  {
    var numE := |Union(sets)|;
    var slack := Slack(alpha, numE);
    var t := After(sets, trace);
    RunFacts(kind, sets, slack, trace);
    SlackBounds(alpha, numE);
    RunEnd(sets, slack, t.unc, trace, t.soln);
    CoverageInUnitInterval(numE, |t.unc|);
    if numE > 0 && |t.unc| <= slack {
      GoalMetReachesAlpha(alpha, numE, |t.unc|);
    }
    if trace != [] {
      ChosenBeyondSlack(kind, sets, slack, trace);
    } else {
      NothingCoveredIsZero(numE, |t.unc|);
    }
  }

  /** With every element uncovered the coverage is zero. */
  lemma {:induction false} NothingCoveredIsZero(numE: nat, u: int)
    requires u == numE
    ensures CoverageOf(numE, u) == 0.0
  {
    if numE > 0 {
      assert (numE - u) as real == 0.0;
    }
  }

  /** A solver: the rule it is built with, its settings and the state of its last run. */
  class GreedySolver {
    /** The selection rule (the Java subclass). */
    const strategy: Strategy
    /** The minimum coverage level. */
    var alpha: real
    var model: SCPModel?
    /** The total cost of the chosen sets. */
    var objFn: real
    /** The covered fraction reached. */
    var coverage: real
    /** The chosen sets, ordered by id as in the TreeSet<ElementSet>. */
    var solnSets: seq<ElementSet>
    /** The elements not yet covered. */
    var uncElements: set<int>
    /** Set when the run ends below the required coverage (Java prints a warning). */
    var coverageWarning: bool
    /** The chosen sets in the order they were chosen. */
    ghost var trace: seq<ElementSet>

    constructor (strategy: Strategy)
      ensures this.strategy == strategy && model == null && alpha == 0.0
      ensures objFn == 0.0 && coverage == 0.0 && solnSets == [] && uncElements == {}
      ensures trace == [] && !coverageWarning
    {
      this.strategy := strategy;
      alpha := 0.0;
      model := null;
      objFn := 0.0;
      coverage := 0.0;
      solnSets := [];
      uncElements := {};
      coverageWarning := false;
      trace := [];
    }

    method SetMinCoverage(alpha: real)
      modifies this`alpha
      ensures this.alpha == alpha
    {
      this.alpha := alpha;
    }

    method SetModel(model: SCPModel)
      modifies this`model
      ensures this.model == model
    {
      this.model := model;
    }

    /** Clears the state of a previous run so that a new run starts fresh. */
    method Reset()
      modifies this`objFn, this`coverage, this`solnSets, this`uncElements, this`trace
      ensures objFn == 0.0 && coverage == 0.0 && solnSets == [] && uncElements == {} && trace == []
    {
      coverage := 0.0;
      objFn := 0.0;
      solnSets := [];
      uncElements := {};
      trace := [];
    }

    /** One greedy run over the model with the solver's rule and coverage
        level: the state it leaves is the state after its choices, made turn
        by turn, and the run ran until it was finished. */
    method Solve()
      requires model != null && model.Valid()
      modifies this`objFn, this`coverage, this`solnSets, this`uncElements, this`coverageWarning, this`trace
      ensures ChosenInTurn(strategy, model.sets, Slack(alpha, |Union(model.sets)|), trace)
      ensures Tally(uncElements, solnSets, objFn) == After(model.sets, trace)
      ensures Finished(model.sets, Slack(alpha, |Union(model.sets)|), Tally(uncElements, solnSets, objFn))
      ensures coverage == CoverageOf(|Union(model.sets)|, |uncElements|)
      ensures coverageWarning <==> |Union(model.sets)| > 0 && coverage < alpha
    {
      Reset();
      var numE, numCanLeaveUncovered, allE, sets := Prepare();
      var unc, soln, obj, chosen := SelectSets(sets, numCanLeaveUncovered, uncElements + allE);
      var cov := CoverageOf(numE, |unc|);
      var warn := numE > 0 && cov < alpha;
      uncElements, solnSets, objFn, trace, coverage, coverageWarning := unc, soln, obj, chosen, cov, warn;
    }

    /** The set-up of `solve`: the number of elements, how many of them may
        stay uncovered at the coverage level, the universe and the sets. */
    method Prepare() returns (numE: nat, numCanLeaveUncovered: int, allE: set<int>, sets: seq<ElementSet>)
      requires model != null && model.Valid()
      ensures numE == |Union(model.sets)| && numCanLeaveUncovered == Slack(alpha, numE)
      ensures allE == Union(model.sets) && sets == model.sets
    {
      numE := model.GetNumE();
      var numToCover := Ceil(alpha * numE as real);
      numCanLeaveUncovered := numE - numToCover;
      allE := model.GetAllE();
      sets := model.GetSCP();
    }

    /** The greedy selection loop of `solve`, from nothing chosen and `unc0`
        uncovered: adds the rule's next set while more than `slack` elements
        are uncovered and not every set has been chosen, and stops early when
        the rule has none. */
    method SelectSets(sets: seq<ElementSet>, slack: int, unc0: set<int>)
      returns (unc: set<int>, soln: seq<ElementSet>, obj: real, ghost chosen: seq<ElementSet>)
      requires model != null && model.Valid() && sets == model.sets
      requires unc0 == Union(sets)
      ensures ChosenInTurn(strategy, sets, slack, chosen)
      ensures Tally(unc, soln, obj) == After(sets, chosen)
      ensures Finished(sets, slack, Tally(unc, soln, obj))
    {
      unc, soln, obj, chosen := unc0, [], 0.0, [];
      var allPSetsSelected := false;
      while |unc| > slack && !allPSetsSelected
        invariant ChosenInTurn(strategy, sets, slack, chosen)
        invariant Tally(unc, soln, obj) == After(sets, chosen)
        invariant allPSetsSelected ==> |soln| == |sets|
        decreases |unc|
      {
        var bSet := NextBestSet(strategy, sets, unc);
        if bSet.None? {
          NoChoiceFinishes(strategy, sets, chosen);
          break;
        }
        var b := bSet.value;
        Turn(strategy, sets, slack, chosen, Tally(unc, soln, obj), b);
        unc := unc - b.elems;
        soln := InsertById(soln, b);
        obj := obj + b.cost;
        chosen := chosen + [b];
        if |soln| == model.GetNumS() {
          allPSetsSelected := true;
        }
      }
    }
  }
}
