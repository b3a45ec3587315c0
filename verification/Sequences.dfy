// Picking items of a list by their places, in the order they stand in.
module Sequences {

  /** `kept` are the items at the places `at`, which ascend. */
  predicate Picks<T(==)>(items: seq<T>, kept: seq<T>, at: seq<nat>) {
    && |at| == |kept|
    && (forall j | 0 <= j < |at| :: at[j] < |items| && kept[j] == items[at[j]])
    && forall i, j | 0 <= i < j < |at| :: at[i] < at[j]
  }

  lemma PicksMore<T>(items: seq<T>, kept: seq<T>, at: seq<nat>, last: T)
    requires Picks(items, kept, at)
    ensures Picks(items + [last], kept, at) && Picks(items + [last], kept + [last], at + [|items|])
    ensures forall i | 0 <= i < |items| :: i in at + [|items|] <==> i in at
    ensures |items| !in at && |items| in at + [|items|]
  {
  }

  function Shift(at: seq<nat>): seq<nat> { seq(|at|, j requires 0 <= j < |at| => at[j] + 1) }

  lemma ShiftHolds(at: seq<nat>, i: nat)
    ensures i in Shift(at) <==> i > 0 && i - 1 in at
  {
    if i > 0 && i - 1 in at {
      var j :| 0 <= j < |at| && at[j] == i - 1;
      assert Shift(at)[j] == i;
    }
  }

  lemma PicksBehind<T>(first: T, items: seq<T>, kept: seq<T>, at: seq<nat>)
    requires Picks(items, kept, at)
    ensures Picks([first] + items, kept, Shift(at)) && Picks([first] + items, [first] + kept, [0] + Shift(at))
  {
    var both := [first] + items;
    assert forall j | 0 <= j < |at| :: both[Shift(at)[j]] == items[at[j]];
    var more, places := [first] + kept, [0] + Shift(at);
    forall j | 0 <= j < |places| ensures places[j] < |both| && more[j] == both[places[j]] {
      if j > 0 {
        assert more[j] == kept[j - 1] && places[j] == at[j - 1] + 1;
      }
    }
  }

  function Places(n: nat): seq<nat> { seq(n, i requires 0 <= i < n => i) }

  lemma PicksAll<T>(items: seq<T>)
    ensures Picks(items, items, Places(|items|)) && forall i | 0 <= i < |items| :: i in Places(|items|)
  {
    forall i: nat | i < |items| ensures i in Places(|items|) {
      assert Places(|items|)[i] == i;
    }
  }
}
