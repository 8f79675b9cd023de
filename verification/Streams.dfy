/** Stream identifiers and the bound their width puts on any collection of them. */
module Streams {

  /** A 16-bit stream identifier. */
  type StreamId = x: int | 0 <= x < 0x1_0000

  /** Pigeonhole: a set of integers from [0, n) has at most n members. */
  lemma {:induction false} SetBelow(s: set<int>, n: nat)
    requires forall x: int | x in s :: 0 <= x < n
    ensures |s| <= n
  {
    if n == 0 {
      assert forall x: int :: x !in s;
      assert s == {};
    } else {
      var t := s - {n - 1};
      SetBelow(t, n - 1);
      assert s == t || s == t + {n - 1};
    }
  }

  lemma StreamSetBound(s: set<StreamId>)
    ensures |s| <= 0x1_0000
  {
    SetBelow(set x: int | x in s, 0x1_0000);
    assert s == set x: int | x in s;
  }
}
