/** Lists of lists, and lists in the opposite order. */
module Sequences {

  /** The lists one after another. */
  function Flatten<T>(lists: seq<seq<T>>): seq<T> {
    if lists == [] then [] else Flatten(lists[..|lists| - 1]) + lists[|lists| - 1]
  }

  lemma FlattenMore<T>(lists: seq<seq<T>>, list: seq<T>)
    ensures Flatten(lists + [list]) == Flatten(lists) + list
  {
    assert (lists + [list])[..|lists|] == lists;
  }

  /** Its members are those of the lists. */
  lemma {:induction false} FlattenMembers<T>(lists: seq<seq<T>>, x: T)
    ensures x in Flatten(lists) <==> exists l :: 0 <= l < |lists| && x in lists[l]
  {
    if lists != [] {
      var n := |lists| - 1;
      FlattenMembers(lists[..n], x);
      if x in Flatten(lists[..n]) {
        var l :| 0 <= l < n && x in lists[..n][l];
        assert x in lists[l];
      }
      if l :| 0 <= l < |lists| && x in lists[l] {
        assert l < n ==> x in lists[..n][l];
      }
    }
  }

  function Reversed<T>(s: seq<T>): (r: seq<T>)
    ensures |r| == |s|
  {
    seq(|s|, k requires 0 <= k < |s| => s[|s| - 1 - k])
  }

  lemma ReversedJoin<T>(a: seq<T>, b: seq<T>)
    ensures Reversed(a + b) == Reversed(b) + Reversed(a)
  {
  }

  lemma NothingReversed<T>()
    ensures Reversed<T>([]) == []
  {
  }

  lemma {:induction false} ReversedCount<T>(q: seq<T>)
    ensures multiset(Reversed(q)) == multiset(q)
  {
    if q != [] {
      var init, last := q[..|q| - 1], q[|q| - 1];
      ReversedCount(init);
      assert Reversed(q) == [last] + Reversed(init);
      assert q == init + [last];
    }
  }
}
