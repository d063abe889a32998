/** The rules registered for one event type are offered the event in one
    fixed order, each once: the outcome is a left-to-right fold of one
    rule's guarded action over that order. */
module RuleOrder {

  /** The rules offered the event one after another, in the given order;
      `offer` is one rule's guarded action on the state it finds. */
  function Fold<R, V>(rules: seq<R>, offer: (R, V) -> V, v: V): V
    decreases |rules|
  {
    if rules == [] then v else Fold(rules[1..], offer, offer(rules[0], v))
  }

  /** Offering two orders one after the other is offering their concatenation. */
  lemma {:induction false} FoldAppend<R, V>(first: seq<R>, second: seq<R>, offer: (R, V) -> V, v: V)
    ensures Fold(first + second, offer, v) == Fold(second, offer, Fold(first, offer, v))
    decreases |first|
  {
    if first != [] {
      assert (first + second)[1..] == first[1..] + second;
      FoldAppend(first[1..], second, offer, offer(first[0], v));
    } else {
      assert first + second == second;
    }
  }

  predicate Distinct<T(==)>(rules: seq<T>)
  {
    forall i, j :: 0 <= i < j < |rules| ==> rules[i] != rules[j]
  }

  lemma DistinctTail<T>(rules: seq<T>)
    requires rules != [] && Distinct(rules)
    ensures Distinct(rules[1..]) && rules[0] !in rules[1..]
  {
  }
}
