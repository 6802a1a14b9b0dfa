/** Small facts about sequences that proofs name instead of rediscovering. */
module Sequences {

  lemma TakeOneMore<T>(s: seq<T>, i: nat)
    requires i < |s|
    ensures s[..i + 1] == s[..i] + [s[i]]
    ensures s[..i + 1][..i] == s[..i]
  {
  }

  lemma DropOneMore<T>(s: seq<T>, i: nat)
    requires i < |s|
    ensures s[i..][0] == s[i] && s[i..][1..] == s[i + 1..]
  {
  }

  lemma MembersOfInit<T>(s: seq<T>)
    requires s != []
    ensures forall x :: x in s <==> x in s[..|s| - 1] || x == s[|s| - 1]
  {
    assert s == s[..|s| - 1] + [s[|s| - 1]];
  }

  /** An element x stands before an element y. */
  predicate Precedes<T(==)>(s: seq<T>, x: T, y: T) {
    exists p, q :: 0 <= p < q < |s| && s[p] == x && s[q] == y
  }

  lemma PrecedesInInit<T>(s: seq<T>, x: T, y: T)
    requires s != []
    ensures Precedes(s, x, y) <==> Precedes(s[..|s| - 1], x, y) || (x in s[..|s| - 1] && y == s[|s| - 1])
  {
    var init := s[..|s| - 1];
    if p, q :| 0 <= p < q < |init| && init[p] == x && init[q] == y {
      assert s[p] == x && s[q] == y;
    }
    if x in init && y == s[|s| - 1] {
      var p :| 0 <= p < |init| && init[p] == x;
      assert s[p] == x && s[|s| - 1] == y;
    }
    if p, q :| 0 <= p < q < |s| && s[p] == x && s[q] == y {
      assert init[p] == x;
      if q < |init| { assert init[q] == y; }
    }
  }

  lemma BothEmpty<T>(a: seq<T>, b: seq<T>)
    ensures a + b == [] <==> a == [] && b == []
  {
    assert |a + b| == |a| + |b|;
  }
}
