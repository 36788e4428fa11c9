/** The value types of the set-cover solver: the optional result of a
    selection rule and the tuple (set id, cost, elements to cover). */
module Util {

  /** The result of a selection rule: `None` where the Java code returns null. */
  datatype Option<T> = None | Some(value: T)

  /** A candidate set. It is immutable once built; the elements are a
      mathematical set, as the TreeSet<Integer> it replaces has no duplicates. */
  datatype ElementSet = ElementSet(id: int, cost: real, elems: set<int>)

  /** The argument of `compareTo(Object)`: another candidate set or any other object. */
  datatype Object = AnElementSet(es: ElementSet) | OtherObject

  /** The distinct values of a list of elements. */
  function SetOfSeq(xs: seq<int>): (s: set<int>)
    ensures forall x :: x in s <==> x in xs
    ensures |s| <= |xs|
  {
    if xs == [] then {} else {xs[0]} + SetOfSeq(xs[1..])
  }

  /** A set is empty or has an element (stated without assuming either). */
  lemma EmptyOrHasElement(s: set<int>)
    ensures s == {} || exists x :: x in s
  {
    if forall x :: x !in s {
      assert s == {};
    }
  }

  /** The constructor: keeps id and cost and a duplicate-free copy of the elements. */
  function NewElementSet(id: int, cost: real, elements: seq<int>): (es: ElementSet)
    ensures es.id == id && es.cost == cost
    ensures forall x :: x in es.elems <==> x in elements
    ensures |es.elems| <= |elements|
  {
    ElementSet(id, cost, SetOfSeq(elements))
  }

  /** `compareTo`: orders candidate sets by id alone; any other object compares as -1. */
  function CompareTo(self: ElementSet, o: Object): (r: int)
    ensures r == -1 || r == 0 || r == 1
    ensures o.OtherObject? ==> r == -1
    ensures o.AnElementSet? ==> (r < 0 <==> self.id < o.es.id)
    ensures o.AnElementSet? ==> (r == 0 <==> self.id == o.es.id)
    ensures o.AnElementSet? ==> (r > 0 <==> self.id > o.es.id)
  {
    match o
    case AnElementSet(es) =>
      if self.id < es.id then -1
      else if self.id == es.id then 0
      else 1
    case OtherObject => -1
  }

  /** Equality under `compareTo` ignores cost and elements. */
  lemma CompareToIgnoresCostAndElements(a: ElementSet, c: real, xs: set<int>)
    ensures CompareTo(a, AnElementSet(ElementSet(a.id, c, xs))) == 0
  {
  }

  /** Between candidate sets, `compareTo` is antisymmetric ... */
  lemma CompareToAntisymmetric(a: ElementSet, b: ElementSet)
    ensures CompareTo(a, AnElementSet(b)) == -CompareTo(b, AnElementSet(a))
  {
  }

  /** ... and transitive, so it is a total order on the ids. */
  lemma CompareToTransitive(a: ElementSet, b: ElementSet, c: ElementSet)
    requires CompareTo(a, AnElementSet(b)) <= 0 && CompareTo(b, AnElementSet(c)) <= 0
    ensures CompareTo(a, AnElementSet(c)) <= 0
    ensures CompareTo(a, AnElementSet(b)) < 0 || CompareTo(b, AnElementSet(c)) < 0 ==> CompareTo(a, AnElementSet(c)) < 0
  {
  }
}
