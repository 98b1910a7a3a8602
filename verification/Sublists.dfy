/** Lists that keep some of the rows of another, in their order. */
module Sublists {
  ghost predicate Ascending(at: seq<nat>) { forall i, j | 0 <= i < j < |at| :: at[i] < at[j] }

  /** `kept` is the rows at the positions `at`, in their order. */
  ghost predicate Picks<T>(rows: seq<T>, kept: seq<T>, at: seq<nat>) {
    && Ascending(at) && |at| == |kept|
    && forall k | 0 <= k < |at| :: at[k] < |rows| && kept[k] == rows[at[k]]
  }

  /** The positions as they are behind one more row. */
  function Onward(at: seq<nat>): seq<nat> { seq(|at|, k requires 0 <= k < |at| => at[k] + 1) }

  lemma OnwardHas(at: seq<nat>, m: nat)
    ensures m in Onward(at) <==> m > 0 && m - 1 in at
  {
    if m > 0 && m - 1 in at {
      var k :| 0 <= k < |at| && at[k] == m - 1;
      assert Onward(at)[k] == m;
    }
  }

  /** The first row is kept in front of the rest, or left out. */
  lemma PicksOnward<T>(rows: seq<T>, kept: seq<T>, at: seq<nat>)
    requires rows != [] && Picks(rows[1..], kept, at)
    ensures Picks(rows, kept, Onward(at))
    ensures Picks(rows, [rows[0]] + kept, [0] + Onward(at))
  {
  }
}
