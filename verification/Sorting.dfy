/** `Array.prototype.toSorted` as a stable insertion sort, and what any sort must return. */
module Sorting {
  import opened CodeUnits

  ghost predicate StrictOrder<T(!new)>(less: (T, T) -> bool) {
    && (forall x :: !less(x, x))
    && (forall x, y, z :: less(x, y) && less(y, z) ==> less(x, z))
  }

  // Distinct elements of s are comparable.
  ghost predicate TotalOn<T>(less: (T, T) -> bool, s: seq<T>) {
    forall x, y :: x in s && y in s && x != y ==> less(x, y) || less(y, x)
  }

  ghost predicate Ordered<T>(less: (T, T) -> bool, s: seq<T>) {
    forall i, j :: 0 <= i < j < |s| ==> s[i] == s[j] || less(s[i], s[j])
  }

  function Insert<T>(less: (T, T) -> bool, x: T, s: seq<T>): seq<T> {
    if s == [] || less(x, s[0]) then [x] + s else [s[0]] + Insert(less, x, s[1..])
  }

  function Sort<T>(less: (T, T) -> bool, s: seq<T>): seq<T> {
    if s == [] then [] else Insert(less, s[|s| - 1], Sort(less, s[..|s| - 1]))
  }

  lemma {:induction false} InsertPermutes<T>(less: (T, T) -> bool, x: T, s: seq<T>)
    ensures multiset(Insert(less, x, s)) == multiset(s) + multiset{x}
  {
    if s != [] && !less(x, s[0]) {
      InsertPermutes(less, x, s[1..]);
      assert s == [s[0]] + s[1..];
    }
  }

  lemma {:induction false} SortPermutes<T>(less: (T, T) -> bool, s: seq<T>)
    ensures multiset(Sort(less, s)) == multiset(s)
    ensures |Sort(less, s)| == |s|
  {
    if s != [] {
      var init := s[..|s| - 1];
      SortPermutes(less, init);
      InsertPermutes(less, s[|s| - 1], Sort(less, init));
      assert s == init + [s[|s| - 1]];
    }
    assert |multiset(Sort(less, s))| == |multiset(s)|;
  }

  lemma SameMembers<T>(a: seq<T>, b: seq<T>)
    requires multiset(a) == multiset(b)
    ensures forall x :: x in a <==> x in b
    ensures |a| == |b|
  {
    forall x ensures x in a <==> x in b {
      assert x in a <==> x in multiset(a);
      assert x in b <==> x in multiset(b);
    }
    assert |multiset(a)| == |multiset(b)|;
  }

  lemma {:induction false} InsertOrders<T(!new)>(less: (T, T) -> bool, x: T, s: seq<T>)
    requires StrictOrder(less) && Ordered(less, s)
    requires forall y :: y in s && y != x ==> less(x, y) || less(y, x)
    ensures Ordered(less, Insert(less, x, s))
  {
    if s != [] && !less(x, s[0]) {
      var rest := Insert(less, x, s[1..]);
      InsertOrders(less, x, s[1..]);
      InsertMembers(less, x, s[1..]);
      forall j | 0 <= j < |rest| ensures s[0] == rest[j] || less(s[0], rest[j]) {
        assert rest[j] in rest && s[0] in s;
      }
    }
  }

  lemma {:induction false} InsertMembers<T>(less: (T, T) -> bool, x: T, s: seq<T>)
    ensures forall y :: y in Insert(less, x, s) <==> y == x || y in s
  {
    if s != [] && !less(x, s[0]) {
      InsertMembers(less, x, s[1..]);
      assert s == [s[0]] + s[1..];
    }
  }

  lemma {:induction false} SortOrders<T(!new)>(less: (T, T) -> bool, s: seq<T>)
    requires StrictOrder(less) && TotalOn(less, s)
    ensures Ordered(less, Sort(less, s))
  {
    if s != [] {
      var init, last := s[..|s| - 1], s[|s| - 1];
      SortOrders(less, init);
      SortPermutes(less, init);
      SameMembers(Sort(less, init), init);
      forall y | y in Sort(less, init) && y != last ensures less(last, y) || less(y, last) {
        assert y in s && last in s;
      }
      InsertOrders(less, last, Sort(less, init));
    }
  }

  /** Two ordered lists of the same elements are equal, so the sorting algorithm does not matter. */
  lemma {:induction false} OrderedIsUnique<T(!new)>(less: (T, T) -> bool, a: seq<T>, b: seq<T>)
    requires StrictOrder(less) && Ordered(less, a) && Ordered(less, b)
    requires multiset(a) == multiset(b)
    ensures a == b
  {
    SameMembers(a, b);
    if a != [] {
      SameFirst(less, a, b);
      RestOf(a);
      RestOf(b);
      OrderedIsUnique(less, a[1..], b[1..]);
    }
  }

  lemma RestOf<T>(s: seq<T>)
    requires s != []
    ensures s == [s[0]] + s[1..] && multiset(s[1..]) == multiset(s) - multiset{s[0]}
  {
    assert s == [s[0]] + s[1..];
  }

  lemma FirstLeads<T>(less: (T, T) -> bool, s: seq<T>, x: T)
    requires Ordered(less, s) && x in s
    ensures x == s[0] || less(s[0], x)
  {
    var j :| 0 <= j < |s| && s[j] == x;
  }

  lemma SameFirst<T(!new)>(less: (T, T) -> bool, a: seq<T>, b: seq<T>)
    requires StrictOrder(less) && Ordered(less, a) && Ordered(less, b)
    requires a != [] && b != [] && a[0] in b && b[0] in a
    ensures a[0] == b[0]
  {
    FirstLeads(less, a, b[0]);
    FirstLeads(less, b, a[0]);
  }

  /** Sorting forgets the original order and nothing else. */
  lemma SortIsCanonical<T(!new)>(less: (T, T) -> bool, a: seq<T>, b: seq<T>)
    requires StrictOrder(less) && TotalOn(less, a)
    ensures Sort(less, a) == Sort(less, b) <==> multiset(a) == multiset(b)
  {
    SortPermutes(less, a);
    SortPermutes(less, b);
    if multiset(a) == multiset(b) {
      SameMembers(a, b);
      SortOrders(less, a);
      SortOrders(less, b);
      OrderedIsUnique(less, Sort(less, a), Sort(less, b));
    }
  }

  /** The first element of a sorted list precedes all others. */
  lemma SortHeadIsLeast<T(!new)>(less: (T, T) -> bool, s: seq<T>)
    requires StrictOrder(less) && TotalOn(less, s) && s != []
    ensures Sort(less, s) != [] && Sort(less, s)[0] in s
    ensures forall y :: y in s ==> y == Sort(less, s)[0] || less(Sort(less, s)[0], y)
  {
    SortPermutes(less, s);
    SortOrders(less, s);
    var r := Sort(less, s);
    SameMembers(r, s);
    forall y | y in s ensures y == r[0] || less(r[0], y) {
      var j :| 0 <= j < |r| && r[j] == y;
    }
  }

  lemma CodeUnitOrder(s: seq<string>)
    ensures StrictOrder(Less) && TotalOn(Less, s)
  {
    forall x ensures !Less(x, x) { LessIsIrreflexive(x); }
    forall x, y, z | Less(x, y) && Less(y, z) ensures Less(x, z) { LessIsTransitive(x, y, z); }
    forall x, y | x in s && y in s && x != y ensures Less(x, y) || Less(y, x) { LessIsTotal(x, y); }
  }
}
