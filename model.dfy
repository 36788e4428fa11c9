/** The weighted set-cover instance: a collection of candidate sets kept in
    ascending id order with no two sharing an id (the TreeSet<ElementSet> of
    SCPModel, ordered by `compareTo`). */
module Model {
  import opened Util

  /** Ids strictly ascend: the order in which a TreeSet under `compareTo` iterates. */
  ghost predicate StrictlySorted(s: seq<ElementSet>) {
    |s| <= 1 || (s[0].id < s[1].id && StrictlySorted(s[1..]))
  }

  /** In an id-ordered collection an earlier set has a lower id than every later one. */
  lemma {:induction false} SortedAt(s: seq<ElementSet>, i: int, j: int)
    requires StrictlySorted(s) && 0 <= i < j < |s|
    ensures s[i].id < s[j].id
    decreases |s|
  {
    if i == 0 {
      if j > 1 {
        SortedAt(s[1..], 0, j - 1);
      }
    } else {
      SortedAt(s[1..], i - 1, j - 1);
    }
  }

  /** The head of an id-ordered collection has the lowest id. */
  lemma SortedHead(s: seq<ElementSet>)
    requires StrictlySorted(s)
    ensures forall k :: 0 < k < |s| ==> s[0].id < s[k].id
  {
    forall k | 0 < k < |s| ensures s[0].id < s[k].id {
      SortedAt(s, 0, k);
    }
  }

  /** Some set of `s` carries the id. */
  ghost predicate HasId(s: seq<ElementSet>, id: int) {
    exists k :: 0 <= k < |s| && s[k].id == id
  }

  /** The union of the sets' elements. */
  function Union(s: seq<ElementSet>): (u: set<int>)
    ensures forall x :: x in u <==> exists k :: 0 <= k < |s| && x in s[k].elems
  {
    set k, x | 0 <= k < |s| && x in s[k].elems :: x
  }

  /** Every set's elements lie inside the union. */
  lemma UnionContainsEach(s: seq<ElementSet>, k: int)
    requires 0 <= k < |s|
    ensures s[k].elems <= Union(s)
  {
  }

  /** The union of a sequence extended by one set. */
  lemma UnionAppend(s: seq<ElementSet>, es: ElementSet)
    ensures Union(s + [es]) == Union(s) + es.elems
  {
    var t := s + [es];
    forall x | x in Union(t) ensures x in Union(s) + es.elems {
      var k :| 0 <= k < |t| && x in t[k].elems;
      if k < |s| {
        assert t[k] == s[k];
      }
    }
    forall x | x in Union(s) ensures x in Union(t) {
      var k :| 0 <= k < |s| && x in s[k].elems;
      assert t[k] == s[k];
    }
    forall x | x in es.elems ensures x in Union(t) {
      assert t[|s|] == es;
    }
  }

  /** The ids carried by the sets of `s`. */
  function Ids(s: seq<ElementSet>): (r: set<int>)
    ensures forall id :: id in r <==> HasId(s, id)
  {
    if s == [] then {}
    else
      assert forall k :: 1 <= k < |s| ==> s[1..][k - 1] == s[k];
      {s[0].id} + Ids(s[1..])
  }

  /** In an id-ordered collection, the number of distinct ids is the number of sets. */
  lemma {:induction false} SortedIdsCount(s: seq<ElementSet>)
    requires StrictlySorted(s)
    ensures |Ids(s)| == |s|
  {
    if s != [] {
      SortedIdsCount(s[1..]);
      SortedHead(s);
      assert s[0].id !in Ids(s[1..]);
    }
  }

  /** A subset is no larger than its superset. */
  lemma SubsetCardinality(a: set<int>, b: set<int>)
    requires a <= b
    ensures |a| <= |b|
  {
    assert b == a + (b - a);
    assert a * (b - a) == {};
  }

  /** Every set of an id-ordered `a` that also lies in an id-ordered `b` makes `a` no longer than `b`. */
  lemma SortedSubcollectionShorter(a: seq<ElementSet>, b: seq<ElementSet>)
    requires StrictlySorted(a) && StrictlySorted(b)
    requires forall i :: 0 <= i < |a| ==> a[i] in b
    ensures |a| <= |b|
  {
    SortedIdsCount(a);
    SortedIdsCount(b);
    forall id | id in Ids(a) ensures id in Ids(b) {
      var k :| 0 <= k < |a| && a[k].id == id;
      var j :| 0 <= j < |b| && b[j] == a[k];
    }
    SubsetCardinality(Ids(a), Ids(b));
  }

  /** Ids identify the sets of an id-ordered collection: two different sets in it have different ids. */
  lemma DistinctSetsDistinctIds(s: seq<ElementSet>, a: ElementSet, b: ElementSet)
    requires StrictlySorted(s) && a in s && b in s && a != b
    ensures a.id != b.id
  {
    var i :| 0 <= i < |s| && s[i] == a;
    var j :| 0 <= j < |s| && s[j] == b;
    if i < j {
      SortedAt(s, i, j);
    } else {
      SortedAt(s, j, i);
    }
  }

  /** `TreeSet.add`: puts `es` in its id position, or leaves the collection as it
      is when a set with the same id is already there (the stored one stays). */
  function InsertById(s: seq<ElementSet>, es: ElementSet): (r: seq<ElementSet>)
    requires StrictlySorted(s)
    ensures StrictlySorted(r)
    ensures |r| > 0 && (r[0] == es || (|s| > 0 && r[0] == s[0]))
    ensures HasId(s, es.id) ==> r == s
    ensures !HasId(s, es.id) ==> |r| == |s| + 1 && multiset(r) == multiset(s) + multiset{es}
  {
    if s == [] then [es]
    else if es.id < s[0].id then
      SortedHead(s);
      assert !HasId(s, es.id);
      assert ([es] + s)[1..] == s;
      [es] + s
    else if es.id == s[0].id then s
    else
      var t := s[1..];
      HasIdPastHead(s, es.id);
      var u := InsertById(t, es);
      var r := [s[0]] + u;
      assert s == [s[0]] + t && r[1..] == u;
      assert multiset(r) == multiset{s[0]} + multiset(u) && multiset(s) == multiset{s[0]} + multiset(t);
      r
  }

  /** A set whose id is lower than every id present goes in front. */
  lemma InsertByIdFront(s: seq<ElementSet>, es: ElementSet)
    requires StrictlySorted(s) && (s == [] || es.id < s[0].id)
    ensures InsertById(s, es) == [es] + s
  {
  }

  /** A set whose id is higher than every id present goes at the end. */
  lemma {:induction false} InsertByIdBack(s: seq<ElementSet>, es: ElementSet)
    requires StrictlySorted(s) && (s == [] || s[|s| - 1].id < es.id)
    ensures InsertById(s, es) == s + [es]
    decreases |s|
  {
    if s != [] {
      if |s| > 1 {
        SortedAt(s, 0, |s| - 1);
      }
      var t := s[1..];
      InsertByIdBack(t, es);
      assert s == [s[0]] + t;
    }
  }

  /** An id other than the head's is carried by the head-less tail exactly when by the whole. */
  lemma HasIdPastHead(s: seq<ElementSet>, id: int)
    requires |s| > 0 && id != s[0].id
    ensures HasId(s, id) <==> HasId(s[1..], id)
  {
    if HasId(s, id) {
      var k :| 0 <= k < |s| && s[k].id == id;
      assert s[1..][k - 1].id == id;
    }
    if HasId(s[1..], id) {
      var k :| 0 <= k < |s[1..]| && s[1..][k].id == id;
      assert s[k + 1].id == id;
    }
  }

  /** The problem instance. */
  class SCPModel {
    /** The sets in ascending id order. */
    var sets: seq<ElementSet>

    ghost predicate Valid()
      reads this
    {
      StrictlySorted(sets)
    }

    constructor ()
      ensures Valid() && sets == []
    {
      sets := [];
    }

    /** Adds the set (id, cost, elements) unless a set with that id is present. */
    method AddSetToCover(id: int, cost: real, elements: seq<int>)
      requires Valid()
      modifies this
      ensures Valid()
      ensures sets == InsertById(old(sets), NewElementSet(id, cost, elements))
      ensures HasId(old(sets), id) ==> sets == old(sets)
      ensures !HasId(old(sets), id) ==>
                |sets| == |old(sets)| + 1 &&
                multiset(sets) == multiset(old(sets)) + multiset{NewElementSet(id, cost, elements)}
    {
      var es := NewElementSet(id, cost, elements);
      sets := InsertById(sets, es);
    }

    /** The number of distinct elements over all sets. */
    method GetNumE() returns (n: nat)
      ensures n == |Union(sets)|
    {
      var numE: set<int> := {};
      for i := 0 to |sets|
        invariant numE == Union(sets[..i])
      {
        assert sets[..i + 1][..i] == sets[..i];
        numE := numE + sets[i].elems;
      }
      assert sets[..|sets|] == sets;
      n := |numE|;
    }

    /** The number of sets, which is the number of distinct ids. */
    function GetNumS(): (n: nat)
      reads this
      requires Valid()
      ensures n == |Ids(sets)|
    {
      SortedIdsCount(sets);
      |sets|
    }

    /** The universe: every element of every set, and nothing else. */
    method GetAllE() returns (allE: set<int>)
      ensures forall x :: x in allE <==> exists k :: 0 <= k < |sets| && x in sets[k].elems
      ensures allE == Union(sets)
    {
      allE := {};
      for i := 0 to |sets|
        invariant allE == Union(sets[..i])
      {
        assert sets[..i + 1][..i] == sets[..i];
        allE := allE + sets[i].elems;
      }
      assert sets[..|sets|] == sets;
    }

    /** The sets themselves, in strictly ascending id order. */
    function GetSCP(): (s: seq<ElementSet>)
      reads this
      requires Valid()
      ensures s == sets && StrictlySorted(s)
    {
      sets
    }
  }
}
