/**
 * `orderBy: { createdAt: 'asc' | 'desc' }`: the database's sort of the
 * selected rows, given here as a selection loop over their ids.  Rows with
 * equal timestamps may come out in either order, as in the database.
 */
module Ordering {
  import opened Common

  /** `a` may stand before `b` in the requested direction. */
  predicate InOrder(a: int, b: int, descending: bool) {
    if descending then a >= b else a <= b
  }

  /** Every non-empty finite set of rows has a row that may go first. */
  lemma {:induction false} FirstExists(rest: set<Id>, stamps: map<Id, int>, descending: bool)
    requires rest != {} && rest <= stamps.Keys
    ensures exists k :: k in rest && forall k' | k' in rest :: InOrder(stamps[k], stamps[k'], descending)
    decreases rest
  {
    var x :| x in rest;
    if rest == {x} {
      assert InOrder(stamps[x], stamps[x], descending);
    } else {
      FirstExists(rest - {x}, stamps, descending);
      var k :| k in rest - {x} && forall k' | k' in rest - {x} :: InOrder(stamps[k], stamps[k'], descending);
      if InOrder(stamps[k], stamps[x], descending) {
        assert forall k' | k' in rest :: InOrder(stamps[k], stamps[k'], descending);
      } else {
        forall k' | k' in rest
          ensures InOrder(stamps[x], stamps[k'], descending)
        {
          if k' != x {
            assert InOrder(stamps[k], stamps[k'], descending);
          }
        }
      }
    }
  }

  /**
   * The keys of `stamps` (row id to createdAt), each exactly once, sorted by
   * their stamp in the requested direction.
   */
  method OrderByCreatedAt(stamps: map<Id, int>, descending: bool) returns (ids: seq<Id>)
    ensures forall k :: k in ids <==> k in stamps
    ensures forall i, j | 0 <= i < j < |ids| :: ids[i] != ids[j]
    ensures forall i, j | 0 <= i < j < |ids| :: InOrder(stamps[ids[i]], stamps[ids[j]], descending)
  {
    var rest := stamps.Keys;
    ids := [];
    while rest != {}
      invariant rest <= stamps.Keys
      invariant forall k :: k in ids ==> k in stamps && k !in rest
      invariant forall k :: k in stamps ==> k in ids || k in rest
      invariant forall i, j | 0 <= i < j < |ids| :: ids[i] != ids[j]
      invariant forall i, j | 0 <= i < j < |ids| :: InOrder(stamps[ids[i]], stamps[ids[j]], descending)
      invariant forall i, k | 0 <= i < |ids| && k in rest :: InOrder(stamps[ids[i]], stamps[k], descending)
      decreases rest
    {
      FirstExists(rest, stamps, descending);
      var k :| k in rest && forall k' | k' in rest :: InOrder(stamps[k], stamps[k'], descending);
      ids := ids + [k];
      rest := rest - {k};
    }
  }
}
