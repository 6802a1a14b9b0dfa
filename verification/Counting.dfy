/** Occurrence counts kept in a Map, the idiom shared by placeholder checks and translation selection. */
module Counting {
  import opened CodeUnits
  import opened Sorting
  import JsMap

  function CountsOf(tokens: seq<string>): JsMap.Map<string, nat> {
    if tokens == [] then JsMap.Empty()
    else
      var counts, last := CountsOf(tokens[..|tokens| - 1]), tokens[|tokens| - 1];
      counts.Set(last, counts.Get(last).GetOr(0) + 1)
  }

  lemma {:induction false} CountsAreMultiplicities(tokens: seq<string>)
    ensures CountsOf(tokens).Valid()
    ensures forall x :: x in CountsOf(tokens).values <==> x in tokens
    ensures forall x :: x in tokens ==> CountsOf(tokens).values[x] == multiset(tokens)[x]
  {
    if tokens != [] {
      var init, last := tokens[..|tokens| - 1], tokens[|tokens| - 1];
      CountsAreMultiplicities(init);
      assert tokens == init + [last];
      CountsOf(init).SetKeepsValid(last, CountsOf(init).Get(last).GetOr(0) + 1);
      assert last !in init ==> multiset(init)[last] == 0;
    }
  }

  lemma {:induction false} CountsStep(tokens: seq<string>, x: string)
    ensures CountsOf(tokens + [x]) == CountsOf(tokens).Set(x, CountsOf(tokens).Get(x).GetOr(0) + 1)
  {
    assert (tokens + [x])[..|tokens|] == tokens;
  }

  method CountValues(values: seq<string>) returns (counts: JsMap.Map<string, nat>)
    ensures counts == CountsOf(values)
  {
    counts := JsMap.Empty();
    for i := 0 to |values|
      invariant counts == CountsOf(values[..i])
    {
      CountsStep(values[..i], values[i]);
      assert values[..i + 1] == values[..i] + [values[i]];
      counts := counts.Set(values[i], counts.Get(values[i]).GetOr(0) + 1);
    }
    assert values[..|values|] == values;
  }

  function ByKey(left: (string, nat), right: (string, nat)): bool {
    Less(left.0, right.0)
  }

  function SortedCounts(tokens: seq<string>): seq<(string, nat)>
  {
    CountsAreMultiplicities(tokens);
    Sort(ByKey, CountsOf(tokens).Entries())
  }

  lemma EntriesAreCounts(tokens: seq<string>)
    ensures CountsOf(tokens).Valid()
    ensures forall e :: e in CountsOf(tokens).Entries() <==> e.0 in tokens && e.1 == multiset(tokens)[e.0]
    ensures JsMap.Distinct(CountsOf(tokens).Entries())
  {
    CountsAreMultiplicities(tokens);
    var counts := CountsOf(tokens);
    forall e: (string, nat) | e.0 in tokens && e.1 == multiset(tokens)[e.0] ensures e in counts.Entries() {
      var i :| 0 <= i < |counts.keys| && counts.keys[i] == e.0;
      assert counts.Entries()[i] == e;
    }
  }

  lemma ByKeyIsStrict()
    ensures StrictOrder(ByKey)
  {
    CodeUnitOrder([]);
    forall x, y, z | ByKey(x, y) && ByKey(y, z) ensures ByKey(x, z) { LessIsTransitive(x.0, y.0, z.0); }
    forall x ensures !ByKey(x, x) { LessIsIrreflexive(x.0); }
  }

  /** Equal sorted counts mean equal multisets, and the other way round. */
  lemma SortedCountsCompareMultisets(a: seq<string>, b: seq<string>)
    ensures SortedCounts(a) == SortedCounts(b) <==> multiset(a) == multiset(b)
  {
    EntriesAreCounts(a);
    EntriesAreCounts(b);
    var ea, eb := CountsOf(a).Entries(), CountsOf(b).Entries();
    ByKeyIsStrict();
    forall x, y | x in ea && y in ea && x != y ensures ByKey(x, y) || ByKey(y, x) {
      LessIsTotal(x.0, y.0);
    }
    SortIsCanonical(ByKey, ea, eb);
    if multiset(a) == multiset(b) {
      SameMembers(a, b);
      JsMap.DistinctSequencesOfOneSet(ea, eb);
    }
    if multiset(ea) == multiset(eb) {
      SameMembers(ea, eb);
      forall x ensures multiset(a)[x] == multiset(b)[x] {
        var e, e' := (x, multiset(a)[x]), (x, multiset(b)[x]);
        assert x in a ==> e in ea && e in eb;
        assert x in b ==> e' in eb && e' in ea;
      }
    }
  }
}
