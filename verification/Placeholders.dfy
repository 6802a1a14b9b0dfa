/** The `{name}` placeholders of a translatable text. */
module Placeholders {
  import opened CodeUnits
  import opened Sorting
  import opened JsMap

  predicate IsWordChar(c: char) {
    'A' <= c <= 'Z' || 'a' <= c <= 'z' || '0' <= c <= '9' || c == '_'
  }

  function WordEnd(text: string, i: nat): (end: nat)
    requires i <= |text|
    ensures i <= end <= |text| && forall k :: i <= k < end ==> IsWordChar(text[k])
    ensures end < |text| ==> !IsWordChar(text[end])
    decreases |text| - i
  {
    if i < |text| && IsWordChar(text[i]) then WordEnd(text, i + 1) else i
  }

  // The names matched by /\{(\w+)\}/g from i on, in order.
  function Names(text: string, i: nat): seq<string>
    requires i <= |text|
    decreases |text| - i
  {
    if i == |text| then []
    else
      var end := if text[i] == '{' then WordEnd(text, i + 1) else i;
      if i + 1 < end < |text| && text[end] == '}' then [text[i + 1..end]] + Names(text, end + 1)
      else Names(text, i + 1)
  }

  function Dedupe<T(==, !new)>(s: seq<T>): (r: seq<T>)
    ensures Distinct(r) && forall x :: x in r <==> x in s
  {
    if s == [] then []
    else
      var init, last := Dedupe(s[..|s| - 1]), s[|s| - 1];
      if last in init then init else init + [last]
  }

  // The distinct names, as `new Set` keeps them.
  function NameSet(text: string): (names: seq<string>)
    ensures Distinct(names)
  {
    Dedupe(Names(text, 0))
  }

  function ExtractPlaceholders(text: string): seq<string> {
    Sort(Less, NameSet(text))
  }

  /** The name stands between braces at k. */
  predicate NameAt(text: string, k: nat, name: string) {
    && name != [] && k + |name| + 1 < |text|
    && text[k] == '{' && text[k + 1..k + 1 + |name|] == name && text[k + |name| + 1] == '}'
    && forall c :: c in name ==> 'A' <= c <= 'Z' || 'a' <= c <= 'z' || '0' <= c <= '9' || c == '_'
  }

  ghost predicate IsPlaceholder(text: string, name: string) {
    exists k: nat :: NameAt(text, k, name)
  }

  ghost predicate SamePlaceholders(a: string, b: string) {
    forall name :: IsPlaceholder(a, name) <==> IsPlaceholder(b, name)
  }

  // The placeholder the scanner reads at i, if any.
  function ReadAt(text: string, i: nat): (end: nat)
    requires i < |text|
    ensures end == 0 || i + 1 < end < |text|
  {
    var end := if text[i] == '{' then WordEnd(text, i + 1) else i;
    if i + 1 < end < |text| && text[end] == '}' then end else 0
  }

  lemma ReadAtIsExact(text: string, i: nat, name: string)
    requires i < |text|
    ensures NameAt(text, i, name) <==> ReadAt(text, i) != 0 && name == text[i + 1..ReadAt(text, i)]
  {
    if text[i] == '{' {
      var end := WordEnd(text, i + 1);
      if NameAt(text, i, name) {
        forall k | i + 1 <= k < i + 1 + |name| ensures IsWordChar(text[k]) {
          assert text[k] == name[k - i - 1] && name[k - i - 1] in name;
        }
        assert end == i + 1 + |name|;
      }
      if ReadAt(text, i) != 0 {
        var found := text[i + 1..end];
        forall c | c in found ensures IsWordChar(c) {}
        assert NameAt(text, i, found);
      }
    }
  }

  ghost predicate FoundFrom(text: string, i: nat, name: string) {
    exists k: nat :: i <= k && NameAt(text, k, name)
  }

  lemma FoundLater(text: string, i: nat, j: nat, name: string)
    requires i < j && forall k :: i < k < j ==> !NameAt(text, k, name)
    ensures FoundFrom(text, i, name) <==> NameAt(text, i, name) || FoundFrom(text, j, name)
  {
  }

  // Where the scanner goes on from i.
  function NextFrom(text: string, i: nat): nat
    requires i < |text|
  {
    if ReadAt(text, i) != 0 then ReadAt(text, i) + 1 else i + 1
  }

  lemma NamesStep(text: string, i: nat, name: string)
    requires i < |text|
    ensures i < NextFrom(text, i) <= |text|
    ensures name in Names(text, i) <==> NameAt(text, i, name) || name in Names(text, NextFrom(text, i))
  {
    ReadAtIsExact(text, i, name);
    var end := ReadAt(text, i);
    if end != 0 {
      assert Names(text, i) == [text[i + 1..end]] + Names(text, end + 1);
    }
  }

  lemma FoundStep(text: string, i: nat, name: string)
    requires i < |text|
    ensures FoundFrom(text, i, name) <==> NameAt(text, i, name) || FoundFrom(text, NextFrom(text, i), name)
  {
    var end := ReadAt(text, i);
    if end != 0 {
      assert forall k :: i < k < end ==> IsWordChar(text[k]);
    }
    FoundLater(text, i, NextFrom(text, i), name);
  }

  lemma {:induction false} NamesAreAll(text: string, i: nat, name: string)
    requires i <= |text|
    ensures name in Names(text, i) <==> FoundFrom(text, i, name)
    decreases |text| - i
  {
    if i < |text| {
      NamesStep(text, i, name);
      FoundStep(text, i, name);
      NamesAreAll(text, NextFrom(text, i), name);
    }
  }

  lemma NameSetIsAll(text: string, name: string)
    ensures name in NameSet(text) <==> IsPlaceholder(text, name)
  {
    NamesAreAll(text, 0, name);
    assert FoundFrom(text, 0, name) <==> IsPlaceholder(text, name);
  }

  lemma ExtractsCompareNameSets(a: seq<string>, b: seq<string>)
    requires Distinct(a) && Distinct(b)
    ensures Sort(Less, a) == Sort(Less, b) <==> forall x :: x in a <==> x in b
  {
    assert Sort(Less, a) == Sort(Less, b) <==> multiset(a) == multiset(b) by {
      CodeUnitOrder(a);
      SortIsCanonical(Less, a, b);
    }
    if multiset(a) == multiset(b) {
      SameMembers(a, b);
    }
    if forall x :: x in a <==> x in b {
      DistinctSequencesOfOneSet(a, b);
    }
  }

  /** Comparing the extracted lists compares the sets of placeholders. */
  lemma ComparingExtractsComparesSets(a: string, b: string)
    ensures ExtractPlaceholders(a) == ExtractPlaceholders(b) <==> SamePlaceholders(a, b)
  {
    ExtractsCompareNameSets(NameSet(a), NameSet(b));
    forall name
      ensures name in NameSet(a) <==> IsPlaceholder(a, name)
      ensures name in NameSet(b) <==> IsPlaceholder(b, name)
    {
      NameSetIsAll(a, name);
      NameSetIsAll(b, name);
    }
  }
}
