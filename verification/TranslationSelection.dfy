/** Choosing one translation among the candidates of a source text, on Android and on Apple platforms. */
module TranslationSelection {
  import opened CodeUnits
  import opened Sorting
  import opened Counting
  import JsMap

  type Count = (string, nat)

  function Without(values: seq<string>, source: string): seq<string> {
    if values == [] then []
    else (if values[0] != source then [values[0]] else []) + Without(values[1..], source)
  }

  predicate ByFrequency(left: Count, right: Count) {
    left.1 > right.1 || (left.1 == right.1 && Less(left.0, right.0))
  }

  predicate BySourceThenFrequency(source: string, left: Count, right: Count) {
    || (left.0 != source && right.0 == source)
    || ((left.0 == source) == (right.0 == source) && ByFrequency(left, right))
  }

  function AppleRank(source: string): (Count, Count) -> bool {
    (left, right) => BySourceThenFrequency(source, left, right)
  }

  // The key of the first entry of the sorted counts, or a default when there is none.
  function FirstKey(less: (Count, Count) -> bool, counts: JsMap.Map<string, nat>, default: string): string
    requires counts.Valid()
  {
    var sorted := Sort(less, counts.Entries());
    if sorted == [] then default else sorted[0].0
  }

  function AndroidChoice(source: string, values: seq<string>): string {
    var translated := Without(values, source);
    var candidates := if |translated| > 0 then translated else values;
    CountsAreMultiplicities(candidates);
    FirstKey(ByFrequency, CountsOf(candidates), "")
  }

  function AppleChoice(source: string, translations: seq<string>): string {
    CountsAreMultiplicities(translations);
    FirstKey(AppleRank(source), CountsOf(translations), source)
  }

  method SelectDeterministicTranslation(source: string, values: seq<string>) returns (selected: string)
    ensures values != [] ==> IsBest(source, values, selected)
    ensures values == [] ==> selected == ""
    ensures selected == AndroidChoice(source, values)
  {
    var translated := Without(values, source);
    var candidates := if |translated| > 0 then translated else values;
    CountsAreMultiplicities(candidates);
    var counts := CountValues(candidates);
    selected := FirstKey(ByFrequency, counts, "");
    if values != [] { AndroidPicksBest(source, values); }
  }

  method ChooseTranslation(source: string, translations: seq<string>) returns (chosen: string)
    ensures translations != [] ==> IsBest(source, translations, chosen)
    ensures translations == [] ==> chosen == source
    ensures chosen == AppleChoice(source, translations)
  {
    CountsAreMultiplicities(translations);
    var counts := CountValues(translations);
    chosen := FirstKey(AppleRank(source), counts, source);
    if translations != [] { ApplePicksBest(source, translations); }
  }

  // ----- what both rules promise

  /** r is a candidate, not the source if any other was offered, most frequent among those, least on ties. */
  ghost predicate IsBest(source: string, values: seq<string>, r: string) {
    && r in values
    && forall v :: v in values && v != source && v != r ==>
         && r != source && multiset(values)[r] >= multiset(values)[v]
         && (multiset(values)[r] == multiset(values)[v] ==> Less(r, v))
  }

  lemma ByFrequencyIsStrict()
    ensures StrictOrder(ByFrequency)
    ensures forall x: Count, y: Count :: x.0 != y.0 ==> ByFrequency(x, y) || ByFrequency(y, x)
  {
    CodeUnitOrder([]);
    forall x: Count, y: Count, z: Count | ByFrequency(x, y) && ByFrequency(y, z) ensures ByFrequency(x, z) {
      if x.1 == z.1 { LessIsTransitive(x.0, y.0, z.0); }
    }
    forall x: Count ensures !ByFrequency(x, x) { LessIsIrreflexive(x.0); }
    forall x: Count, y: Count | x.0 != y.0 ensures ByFrequency(x, y) || ByFrequency(y, x) {
      LessIsTotal(x.0, y.0);
    }
  }

  lemma {:induction false} WithoutKeepsOthers(values: seq<string>, source: string)
    ensures forall v :: v in Without(values, source) <==> v in values && v != source
    ensures forall v :: v != source ==> multiset(Without(values, source))[v] == multiset(values)[v]
  {
    if values != [] {
      WithoutKeepsOthers(values[1..], source);
      assert values == [values[0]] + values[1..];
    }
  }

  // Sorting the counts of some candidates by any order that ranks distinct keys finds the first of them.
  lemma FirstKeyLeads(less: (Count, Count) -> bool, candidates: seq<string>, default: string)
    requires StrictOrder(less) && candidates != [] && CountsOf(candidates).Valid()
    requires forall x: Count, y: Count :: x.0 != y.0 ==> less(x, y) || less(y, x)
    ensures FirstKey(less, CountsOf(candidates), default) in candidates
    ensures var r := FirstKey(less, CountsOf(candidates), default);
      forall v :: v in candidates && v != r ==> less((r, multiset(candidates)[r]), (v, multiset(candidates)[v]))
  {
    EntriesAreCounts(candidates);
    var entries := CountsOf(candidates).Entries();
    assert (candidates[0], multiset(candidates)[candidates[0]]) in entries;
    forall x, y | x in entries && y in entries && x != y ensures less(x, y) || less(y, x) {
      assert x.0 != y.0;
    }
    SortHeadIsLeast(less, entries);
    var r := FirstKey(less, CountsOf(candidates), default);
    forall v | v in candidates && v != r ensures less((r, multiset(candidates)[r]), (v, multiset(candidates)[v])) {
      assert (v, multiset(candidates)[v]) in entries;
    }
  }

  lemma AndroidPicksBest(source: string, values: seq<string>)
    requires values != []
    ensures IsBest(source, values, AndroidChoice(source, values))
  {
    WithoutKeepsOthers(values, source);
    ByFrequencyIsStrict();
    var translated := Without(values, source);
    var candidates := if |translated| > 0 then translated else values;
    CountsAreMultiplicities(candidates);
    FirstKeyLeads(ByFrequency, candidates, "");
    assert forall v :: v in values && v != source ==> v in translated;
  }

  lemma ApplePicksBest(source: string, values: seq<string>)
    requires values != []
    ensures IsBest(source, values, AppleChoice(source, values))
  {
    ByFrequencyIsStrict();
    var less := AppleRank(source);
    assert StrictOrder(less) by {
      forall x, y, z | less(x, y) && less(y, z) ensures less(x, z) {
        assert BySourceThenFrequency(source, x, y) && BySourceThenFrequency(source, y, z);
      }
    }
    CountsAreMultiplicities(values);
    FirstKeyLeads(less, values, source);
  }

  lemma BestIsUnique(source: string, values: seq<string>, r: string, r': string)
    requires IsBest(source, values, r) && IsBest(source, values, r')
    ensures r == r'
  {
    if r != r' {
      LessIsTransitive(r, r', r);
      LessIsIrreflexive(r);
    }
  }

  /** Both platforms converge on the same string exactly when there is a candidate (or the source is empty). */
  lemma PlatformsAgree(source: string, values: seq<string>)
    ensures AndroidChoice(source, values) == AppleChoice(source, values) <==> values != [] || source == ""
  {
    if values != [] {
      AndroidPicksBest(source, values);
      ApplePicksBest(source, values);
      BestIsUnique(source, values, AndroidChoice(source, values), AppleChoice(source, values));
    }
  }

  /** The order in which the candidates were collected does not matter. */
  lemma ChoiceIgnoresOrder(source: string, values: seq<string>, values': seq<string>)
    requires multiset(values) == multiset(values')
    ensures AndroidChoice(source, values) == AndroidChoice(source, values')
    ensures AppleChoice(source, values) == AppleChoice(source, values')
  {
    SameMembers(values, values');
    if values != [] {
      AndroidPicksBest(source, values);
      AndroidPicksBest(source, values');
      BestIsUnique(source, values, AndroidChoice(source, values), AndroidChoice(source, values'));
      PlatformsAgree(source, values);
      PlatformsAgree(source, values');
    }
  }
}
