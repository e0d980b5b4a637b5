/** Facts about cutting and joining sequences. */
module Sequences {

  /** Putting `x` at position `q` of the middle part is putting it at `|pre| + q` of the whole. */
  lemma {:induction false} InsertInMiddle<T>(pre: seq<T>, mid: seq<T>, post: seq<T>, x: seq<T>, q: nat)
    requires q <= |mid|
    ensures var s := pre + mid + post;
            var k := |pre| + q;
            s[..k] + x + s[k..] == pre + (mid[..q] + x + mid[q..]) + post
  {
    var s := pre + mid + post;
    assert s[..|pre| + q] == pre + mid[..q];
    assert s[|pre| + q..] == mid[q..] + post;
  }
}
