/** Summary statistics of benchmark samples, over the reals. */
module BenchStats {
  import opened Results
  import opened Sorting
  import opened RealFacts

  predicate Below(a: real, b: real) {
    a < b
  }

  function Ascending(values: seq<real>): seq<real> {
    Sort(Below, values)
  }

  function Sum(values: seq<real>): real {
    if values == [] then 0.0 else Sum(values[..|values| - 1]) + values[|values| - 1]
  }

  function Max(values: seq<real>): real
    requires values != []
  {
    if |values| == 1 || values[0] >= Max(values[1..]) then values[0] else Max(values[1..])
  }

  function Min(values: seq<real>): real
    requires values != []
  {
    if |values| == 1 || values[0] <= Min(values[1..]) then values[0] else Min(values[1..])
  }

  function Median(values: seq<real>): real
    requires values != []
  {
    SortPermutes(Below, values);
    var sorted := Ascending(values);
    var middle := |sorted| / 2;
    if |sorted| % 2 == 0 then (sorted[middle - 1] + sorted[middle]) / 2.0 else sorted[middle]
  }

  // The value at floor(p / 100 * n), or the last one.
  function Percentile(values: seq<real>, p: nat): real {
    SortPermutes(Below, values);
    var sorted := Ascending(values);
    var index := if |sorted| - 1 < p * |sorted| / 100 then |sorted| - 1 else p * |sorted| / 100;
    if 0 <= index < |sorted| then sorted[index] else 0.0
  }

  datatype SummaryStats = SummaryStats(avg: real, max: real, min: real, p50: real, p95: real)

  function SummarizeNumbers(values: seq<real>): Option<SummaryStats> {
    if values == [] then None
    else Some(SummaryStats(Sum(values) / (|values| as real), Max(values), Min(values), Median(values),
      Percentile(values, 95)))
  }

  lemma BelowIsStrict(s: seq<real>)
    ensures StrictOrder(Below) && TotalOn(Below, s)
  {
  }

  lemma {:induction false} ExtremesAreElements(values: seq<real>)
    requires values != []
    ensures Max(values) in values && forall v :: v in values ==> v <= Max(values)
    ensures Min(values) in values && forall v :: v in values ==> Min(values) <= v
  {
    if |values| > 1 {
      ExtremesAreElements(values[1..]);
    }
    forall v | v in values ensures v == values[0] || v in values[1..] {}
  }

  lemma {:induction false} SumIsBounded(values: seq<real>, low: real, high: real)
    requires forall k :: 0 <= k < |values| ==> low <= values[k] <= high
    ensures low * (|values| as real) <= Sum(values) <= high * (|values| as real)
  {
    if values != [] {
      var n := |values| - 1;
      SumIsBounded(values[..n], low, high);
      assert |values| as real == n as real + 1.0;
      assert low * (n as real + 1.0) == low * (n as real) + low &&
        high * (n as real + 1.0) == high * (n as real) + high;
    }
  }

  lemma SortedFacts(values: seq<real>)
    ensures var sorted := Ascending(values);
      |sorted| == |values| && (forall i, j :: 0 <= i <= j < |sorted| ==> sorted[i] <= sorted[j])
      && forall v :: v in sorted <==> v in values
  {
    BelowIsStrict(values);
    SortPermutes(Below, values);
    SortOrders(Below, values);
    SameMembers(Ascending(values), values);
  }

  lemma MiddlesAreOrdered(values: seq<real>)
    requires values != []
    ensures Min(values) <= Median(values) <= Percentile(values, 95) <= Max(values)
  {
    SortedFacts(values);
    ExtremesAreElements(values);
    var sorted, n := Ascending(values), |values|;
    var index := if n - 1 < 95 * n / 100 then n - 1 else 95 * n / 100;
    assert n / 2 <= index < n;
    assert Percentile(values, 95) == sorted[index];
    assert sorted[index] in sorted && sorted[n / 2] in sorted && sorted[n / 2] <= sorted[index];
    if n % 2 == 0 {
      assert sorted[n / 2 - 1] in sorted && sorted[n / 2 - 1] <= sorted[n / 2];
    }
  }

  lemma AverageIsWithin(values: seq<real>, low: real, high: real)
    requires values != [] && forall k :: 0 <= k < |values| ==> low <= values[k] <= high
    ensures low <= Sum(values) / (|values| as real) <= high
  {
    SumIsBounded(values, low, high);
    QuotientBounds(Sum(values), |values| as real, low, high);
  }

  /** The five statistics are ordered as their names say. */
  lemma StatisticsAreOrdered(values: seq<real>)
    requires values != []
    ensures var s := SummarizeNumbers(values).value;
      s.min <= s.p50 <= s.p95 <= s.max && s.min <= s.avg <= s.max
  {
    MiddlesAreOrdered(values);
    ExtremesAreElements(values);
    forall k | 0 <= k < |values| ensures Min(values) <= values[k] <= Max(values) { assert values[k] in values; }
    AverageIsWithin(values, Min(values), Max(values));
  }

  lemma {:induction false} InsertSums(x: real, s: seq<real>)
    ensures Sum(Insert(Below, x, s)) == Sum(s) + x
  {
    if s == [] || x < s[0] {
      SumOfConcat([x], s);
    } else {
      InsertSums(x, s[1..]);
      SumOfConcat([s[0]], Insert(Below, x, s[1..]));
      SumOfConcat([s[0]], s[1..]);
      assert s == [s[0]] + s[1..];
    }
  }

  lemma {:induction false} SumOfConcat(a: seq<real>, b: seq<real>)
    ensures Sum(a + b) == Sum(a) + Sum(b)
  {
    if b == [] {
      assert a + b == a;
    } else {
      assert (a + b)[..|a + b| - 1] == a + b[..|b| - 1];
      SumOfConcat(a, b[..|b| - 1]);
    }
  }

  lemma {:induction false} SortKeepsSum(values: seq<real>)
    ensures Sum(Ascending(values)) == Sum(values)
  {
    if values != [] {
      var init := values[..|values| - 1];
      SortKeepsSum(init);
      InsertSums(values[|values| - 1], Ascending(init));
    }
  }

  lemma ExtremesIgnoreOrder(values: seq<real>, values': seq<real>)
    requires multiset(values) == multiset(values') && values != []
    ensures values' != [] && Max(values) == Max(values') && Min(values) == Min(values')
  {
    SameMembers(values, values');
    ExtremesAreElements(values);
    ExtremesAreElements(values');
  }

  lemma SumIgnoresOrder(values: seq<real>, values': seq<real>)
    requires multiset(values) == multiset(values')
    ensures Ascending(values) == Ascending(values') && Sum(values) == Sum(values') && |values| == |values'|
  {
    SameMembers(values, values');
    BelowIsStrict(values);
    SortIsCanonical(Below, values, values');
    SortKeepsSum(values);
    SortKeepsSum(values');
  }

  /** The order in which samples were taken does not matter. */
  lemma StatisticsIgnoreOrder(values: seq<real>, values': seq<real>)
    requires multiset(values) == multiset(values')
    ensures SummarizeNumbers(values) == SummarizeNumbers(values')
  {
    SumIgnoresOrder(values, values');
    if values != [] { ExtremesIgnoreOrder(values, values'); }
  }

  // ----- what the statistics are

  function CountWhere(holds: real -> bool, values: seq<real>): nat {
    if values == [] then 0
    else CountWhere(holds, values[..|values| - 1]) + if holds(values[|values| - 1]) then 1 else 0
  }

  lemma {:induction false} CountOfConcat(holds: real -> bool, a: seq<real>, b: seq<real>)
    ensures CountWhere(holds, a + b) == CountWhere(holds, a) + CountWhere(holds, b)
  {
    if b == [] {
      assert a + b == a;
    } else {
      assert (a + b)[..|a + b| - 1] == a + b[..|b| - 1];
      CountOfConcat(holds, a, b[..|b| - 1]);
    }
  }

  lemma {:induction false} InsertCounts(holds: real -> bool, x: real, s: seq<real>)
    ensures CountWhere(holds, Insert(Below, x, s)) == CountWhere(holds, s) + CountWhere(holds, [x])
  {
    if s == [] || x < s[0] {
      CountOfConcat(holds, [x], s);
    } else {
      InsertCounts(holds, x, s[1..]);
      CountOfConcat(holds, [s[0]], Insert(Below, x, s[1..]));
      CountOfConcat(holds, [s[0]], s[1..]);
      assert s == [s[0]] + s[1..];
    }
  }

  lemma {:induction false} SortKeepsCount(holds: real -> bool, values: seq<real>)
    ensures CountWhere(holds, Ascending(values)) == CountWhere(holds, values)
  {
    if values != [] {
      var init, last := values[..|values| - 1], values[|values| - 1];
      SortKeepsCount(holds, init);
      InsertCounts(holds, last, Ascending(init));
      CountOfConcat(holds, init, [last]);
      assert values == init + [last];
    }
  }

  lemma {:induction false} CountIsSize(holds: real -> bool, s: seq<real>)
    ensures (forall k :: 0 <= k < |s| ==> !holds(s[k])) ==> CountWhere(holds, s) == 0
    ensures (forall k :: 0 <= k < |s| ==> holds(s[k])) ==> CountWhere(holds, s) == |s|
    ensures CountWhere(holds, s) <= |s|
  {
    if s != [] { CountIsSize(holds, s[..|s| - 1]); }
  }

  function SmallerThan(x: real): real -> bool {
    v => v < x
  }

  function AtMost(x: real): real -> bool {
    v => v <= x
  }

  /** With the samples in ascending order, x stands at place k: at most k are smaller, and more than k are not
      larger. */
  ghost predicate StandsAtPlace(values: seq<real>, k: nat, x: real) {
    x in values && CountWhere(SmallerThan(x), values) <= k < CountWhere(AtMost(x), values)
  }

  lemma CountPrefix(holds: real -> bool, s: seq<real>, k: nat)
    requires k <= |s|
    ensures (forall j :: k <= j < |s| ==> !holds(s[j])) ==> CountWhere(holds, s) <= k
    ensures (forall j :: 0 <= j < k ==> holds(s[j])) ==> CountWhere(holds, s) >= k
  {
    assert s == s[..k] + s[k..];
    CountOfConcat(holds, s[..k], s[k..]);
    CountIsSize(holds, s[..k]);
    CountIsSize(holds, s[k..]);
  }

  lemma SortedStandsAt(values: seq<real>, k: nat)
    requires k < |values|
    ensures k < |Ascending(values)| && StandsAtPlace(values, k, Ascending(values)[k])
  {
    SortedFacts(values);
    var sorted := Ascending(values);
    var x := sorted[k];
    assert x in sorted;
    CountPrefix(SmallerThan(x), sorted, k);
    CountPrefix(AtMost(x), sorted, k + 1);
    SortKeepsCount(SmallerThan(x), values);
    SortKeepsCount(AtMost(x), values);
  }

  lemma {:induction false} MoreHold(f: real -> bool, g: real -> bool, values: seq<real>)
    requires forall v :: f(v) ==> g(v)
    ensures CountWhere(f, values) <= CountWhere(g, values)
  {
    if values != [] { MoreHold(f, g, values[..|values| - 1]); }
  }

  /** Only one value stands at a place. */
  lemma PlaceIsUnique(values: seq<real>, k: nat, x: real, y: real)
    requires StandsAtPlace(values, k, x) && StandsAtPlace(values, k, y)
    ensures x == y
  {
    if x < y {
      MoreHold(AtMost(x), SmallerThan(y), values);
    } else if y < x {
      MoreHold(AtMost(y), SmallerThan(x), values);
    }
  }

  // The two values in the middle of an even number.
  ghost predicate AreMiddles(values: seq<real>, a: real, b: real) {
    |values| >= 2 && StandsAtPlace(values, |values| / 2 - 1, a) && StandsAtPlace(values, |values| / 2, b)
  }

  /** The median of an odd number of values stands in the middle; of an even number it is halfway between the two
      values that do. */
  lemma MedianIs(values: seq<real>, a: real, b: real)
    requires values != []
    ensures |values| % 2 == 1 ==> StandsAtPlace(values, |values| / 2, Median(values))
    ensures |values| % 2 == 0 && AreMiddles(values, a, b) ==> Median(values) == (a + b) / 2.0
  {
    var n := |values|;
    SortedFacts(values);
    SortedStandsAt(values, n / 2);
    if n % 2 == 0 {
      SortedStandsAt(values, n / 2 - 1);
      if AreMiddles(values, a, b) {
        PlaceIsUnique(values, n / 2 - 1, a, Ascending(values)[n / 2 - 1]);
        PlaceIsUnique(values, n / 2, b, Ascending(values)[n / 2]);
      }
    }
  }

  /** The p-th percentile stands at place p n / 100, rounded down, and at most at the last. */
  lemma PercentileIs(values: seq<real>, p: nat)
    requires values != []
    ensures var place := p * |values| / 100;
      StandsAtPlace(values, if place < |values| then place else |values| - 1, Percentile(values, p))
  {
    SortedFacts(values);
    var place := p * |values| / 100;
    SortedStandsAt(values, if place < |values| then place else |values| - 1);
  }

  /** As many times the average as there are samples make their sum. */
  ghost predicate IsAverage(average: real, values: seq<real>) {
    average * (|values| as real) == Sum(values)
  }

  lemma QuotientIsAverage(values: seq<real>)
    requires values != []
    ensures IsAverage(Sum(values) / (|values| as real), values)
  {
    QuotientTimes(Sum(values), |values| as real);
  }

  /** The summary holds the average, the median, the 95th percentile and the extremes. */
  lemma AverageIs(values: seq<real>)
    requires values != []
    ensures SummarizeNumbers(values).Some?
    ensures var s := SummarizeNumbers(values).value;
      && IsAverage(s.avg, values) && s.p50 == Median(values) && s.p95 == Percentile(values, 95)
      && s.max == Max(values) && s.min == Min(values)
  {
    QuotientIsAverage(values);
  }

  /** The sum adds up: that of one number is the number, and of two lists the sum of both. */
  lemma SumsAdd(x: real, a: seq<real>, b: seq<real>)
    ensures Sum([x]) == x && Sum(a + b) == Sum(a) + Sum(b)
  {
    assert [x][..0] == [];
    SumOfConcat(a, b);
  }
}
