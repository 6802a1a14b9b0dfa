/** Comparing flattened locale catalogs with the English one: errors, and keys that fall back to English. */
module CatalogAnalysis {
  import opened Results
  import opened Sequences
  import opened Sorting
  import opened Placeholders
  import JsMap

  type Flat = JsMap.Map<string, string>
  datatype Locale = Locale(name: string, flat: Flat)
  datatype AnalysisError = OrphanKeys(locale: string, keys: seq<string>) | OutOfOrder(locale: string)
    | WrongPlaceholders(locale: string, key: string)
  datatype Fallback = Fallback(key: string, locales: seq<string>)
  type Fallbacks = JsMap.Map<string, seq<string>>

  // The keys of one catalog that are (or are not) in another, in order.
  function Kept(keys: seq<string>, m: map<string, string>, present: bool): seq<string> {
    if keys == [] then [] else (if (keys[0] in m) == present then [keys[0]] else []) + Kept(keys[1..], m, present)
  }

  // The keys present in both catalogs whose translation changes the placeholders.
  function WrongKeys(keys: seq<string>, source: map<string, string>, flat: map<string, string>): seq<string>
    requires forall k :: k in keys ==> k in source
  {
    if keys == [] then []
    else
      var n := |keys| - 1;
      WrongKeys(keys[..n], source, flat) +
        if keys[n] in flat && ExtractPlaceholders(source[keys[n]]) != ExtractPlaceholders(flat[keys[n]]) then [keys[n]]
        else []
  }

  function Wrong(locale: string, keys: seq<string>): seq<AnalysisError> {
    seq(|keys|, i requires 0 <= i < |keys| => WrongPlaceholders(locale, keys[i]))
  }

  function LocaleErrors(source: Flat, locale: Locale): seq<AnalysisError>
    requires source.Valid()
  {
    var orphans := Kept(locale.flat.keys, source.values, false);
    (if |orphans| > 0 then [OrphanKeys(locale.name, orphans)] else []) +
    (if Kept(locale.flat.keys, source.values, true) != Kept(source.keys, locale.flat.values, true)
      then [OutOfOrder(locale.name)] else []) +
    Wrong(locale.name, WrongKeys(source.keys, source.values, locale.flat.values))
  }

  function AddFallbacks(m: Fallbacks, keys: seq<string>, flat: map<string, string>, locale: string): Fallbacks {
    if keys == [] then m
    else
      var n := |keys| - 1;
      var before := AddFallbacks(m, keys[..n], flat, locale);
      if keys[n] in flat then before else before.Set(keys[n], before.Get(keys[n]).GetOr([]) + [locale])
  }

  function AllErrors(source: Flat, locales: seq<Locale>): seq<AnalysisError>
    requires source.Valid()
  {
    if locales == [] then []
    else AllErrors(source, locales[..|locales| - 1]) + LocaleErrors(source, locales[|locales| - 1])
  }

  function AllFallbacks(source: Flat, locales: seq<Locale>): Fallbacks {
    if locales == [] then JsMap.Empty()
    else
      var last := locales[|locales| - 1];
      AddFallbacks(AllFallbacks(source, locales[..|locales| - 1]), source.keys, last.flat.values, last.name)
  }

  // How `localeCompare` orders two strings; the results below hold for any collation.
  type Collation = (string, string) -> bool

  function ByName(collate: Collation): (Locale, Locale) -> bool {
    (left: Locale, right: Locale) => collate(left.name, right.name)
  }

  function ByFallbackKey(collate: Collation): (Fallback, Fallback) -> bool {
    (left: Fallback, right: Fallback) => collate(left.key, right.key)
  }

  // The report's record: keys sorted, and the locales of each key sorted.
  function Report(m: Fallbacks, collate: Collation): seq<Fallback>
    requires m.Valid()
  {
    Sort(ByFallbackKey(collate),
      seq(|m.keys|, i requires 0 <= i < |m.keys| => Fallback(m.keys[i], Sort(collate, m.values[m.keys[i]]))))
  }

  lemma OneMoreKey(source: map<string, string>, flat: map<string, string>, m: Fallbacks, locale: string,
      keys: seq<string>, key: string)
    requires (forall k :: k in keys ==> k in source) && key in source
    ensures forall k :: k in keys + [key] ==> k in source
    ensures WrongKeys(keys + [key], source, flat) == WrongKeys(keys, source, flat) +
      if key in flat && ExtractPlaceholders(source[key]) != ExtractPlaceholders(flat[key]) then [key] else []
    ensures AddFallbacks(m, keys + [key], flat, locale) == var before := AddFallbacks(m, keys, flat, locale);
      if key in flat then before else before.Set(key, before.Get(key).GetOr([]) + [locale])
  {
    assert (keys + [key])[..|keys|] == keys;
  }

  lemma WrongOneMore(locale: string, wrong: seq<string>, key: string)
    ensures Wrong(locale, wrong + [key]) == Wrong(locale, wrong) + [WrongPlaceholders(locale, key)]
    ensures wrong + [] == wrong
  {
  }

  // The loop over the English keys.
  method CheckKeys(source: Flat, locale: Locale, before: Fallbacks)
    returns (errors: seq<AnalysisError>, fallbacks: Fallbacks)
    requires source.Valid()
    ensures errors == Wrong(locale.name, WrongKeys(source.keys, source.values, locale.flat.values))
    ensures fallbacks == AddFallbacks(before, source.keys, locale.flat.values, locale.name)
  {
    errors := [];
    fallbacks := before;
    ghost var seen: seq<string> := [];
    ghost var wrong: seq<string> := [];
    for i := 0 to |source.keys|
      invariant seen == source.keys[..i]
      invariant wrong == WrongKeys(seen, source.values, locale.flat.values) && errors == Wrong(locale.name, wrong)
      invariant fallbacks == AddFallbacks(before, seen, locale.flat.values, locale.name)
    {
      var key := source.keys[i];
      OneMoreKey(source.values, locale.flat.values, before, locale.name, seen, key);
      WrongOneMore(locale.name, wrong, key);
      seen := seen + [key];
      if key !in locale.flat.values {
        fallbacks := fallbacks.Set(key, fallbacks.Get(key).GetOr([]) + [locale.name]);
        continue;
      }
      if ExtractPlaceholders(source.values[key]) != ExtractPlaceholders(locale.flat.values[key]) {
        wrong := wrong + [key];
        errors := errors + [WrongPlaceholders(locale.name, key)];
      }
    }
    assert seen == source.keys;
  }

  method AnalyzeLocale(source: Flat, locale: Locale, before: Fallbacks)
    returns (errors: seq<AnalysisError>, fallbacks: Fallbacks)
    requires source.Valid()
    ensures errors == LocaleErrors(source, locale)
    ensures fallbacks == AddFallbacks(before, source.keys, locale.flat.values, locale.name)
  {
    errors := [];
    var orphanKeys := Kept(locale.flat.keys, source.values, false);
    if |orphanKeys| > 0 {
      errors := errors + [OrphanKeys(locale.name, orphanKeys)];
    }
    var expectedPresentOrder := Kept(source.keys, locale.flat.values, true);
    var actualPresentOrder := Kept(locale.flat.keys, source.values, true);
    if actualPresentOrder != expectedPresentOrder {
      errors := errors + [OutOfOrder(locale.name)];
    }
    var wrong, next := CheckKeys(source, locale, before);
    return errors + wrong, next;
  }

  method AnalyzeControlUiCatalogs(source: Flat, locales: seq<Locale>, collate: Collation)
    returns (errors: seq<AnalysisError>, fallbacks: seq<Fallback>)
    requires source.Valid()
    ensures errors == AllErrors(source, Sort(ByName(collate), locales))
    ensures AllFallbacks(source, Sort(ByName(collate), locales)).Valid() &&
      fallbacks == Report(AllFallbacks(source, Sort(ByName(collate), locales)), collate)
  {
    errors := [];
    var fallbackLocalesByKey: Fallbacks := JsMap.Empty();
    var sorted := Sort(ByName(collate), locales);
    for i := 0 to |sorted|
      invariant errors == AllErrors(source, sorted[..i])
      invariant fallbackLocalesByKey == AllFallbacks(source, sorted[..i])
    {
      assert sorted[..i + 1][..i] == sorted[..i];
      var found, next := AnalyzeLocale(source, sorted[i], fallbackLocalesByKey);
      errors := errors + found;
      fallbackLocalesByKey := next;
    }
    assert sorted[..|sorted|] == sorted;
    FallbacksAreMissingKeys(source, sorted);
    fallbacks := Report(fallbackLocalesByKey, collate);
  }

  // ----- what the report means

  lemma {:induction false} AddFallbacksAddsMissing(m: Fallbacks, keys: seq<string>, flat: map<string, string>,
      locale: string)
    requires m.Valid() && JsMap.Distinct(keys)
    ensures AddFallbacks(m, keys, flat, locale).Valid()
    ensures forall k ::
      AddFallbacks(m, keys, flat, locale).Get(k) == if k in keys && k !in flat then Some(m.Get(k).GetOr([]) + [locale])
        else m.Get(k)
  {
    if keys != [] {
      var n := |keys| - 1;
      AddFallbacksAddsMissing(m, keys[..n], flat, locale);
      assert keys == keys[..n] + [keys[n]] && keys[n] !in keys[..n];
      var before := AddFallbacks(m, keys[..n], flat, locale);
      before.SetKeepsValid(keys[n], before.Get(keys[n]).GetOr([]) + [locale]);
    }
  }

  // The names of the locales that lack a key, in order.
  function Lacking(locales: seq<Locale>, key: string): seq<string> {
    if locales == [] then []
    else
      var last := locales[|locales| - 1];
      Lacking(locales[..|locales| - 1], key) + if key in last.flat.values then [] else [last.name]
  }

  lemma {:induction false} FallbacksAreMissingKeys(source: Flat, locales: seq<Locale>)
    requires source.Valid()
    ensures AllFallbacks(source, locales).Valid()
    ensures forall k ::
      AllFallbacks(source, locales).Get(k) == if k in source.keys && Lacking(locales, k) != []
        then Some(Lacking(locales, k)) else None
  {
    if locales != [] {
      var init, last := locales[..|locales| - 1], locales[|locales| - 1];
      FallbacksAreMissingKeys(source, init);
      AddFallbacksAddsMissing(AllFallbacks(source, init), source.keys, last.flat.values, last.name);
      forall k ensures Lacking(init, k) + [] == Lacking(init, k) {}
    }
  }

  lemma {:induction false} LackingMeansMissing(locales: seq<Locale>, key: string, name: string)
    ensures name in Lacking(locales, key) <==> Lacks(locales, key, name)
  {
    if locales != [] {
      var init, last := locales[..|locales| - 1], locales[|locales| - 1];
      LackingMeansMissing(init, key, name);
      assert locales == init + [last];
    }
  }

  lemma ReportHoldsEntries(m: Fallbacks, collate: Collation)
    requires m.Valid()
    ensures forall f :: f in Report(m, collate) <==> f.key in m.values && f.locales == Sort(collate, m.values[f.key])
  {
    var entries := seq(|m.keys|,
      i requires 0 <= i < |m.keys| => Fallback(m.keys[i], Sort(collate, m.values[m.keys[i]])));
    SortPermutes(ByFallbackKey(collate), entries);
    SameMembers(Report(m, collate), entries);
    forall f: Fallback | f.key in m.values && f.locales == Sort(collate, m.values[f.key]) ensures f in entries {
      var i :| 0 <= i < |m.keys| && m.keys[i] == f.key;
      assert entries[i] == f;
    }
  }

  lemma SortedHasSameMembers(names: seq<string>, name: string, collate: Collation)
    ensures name in Sort(collate, names) <==> name in names
    ensures Sort(collate, names) == [] <==> names == []
  {
    SortPermutes(collate, names);
    SameMembers(Sort(collate, names), names);
  }

  ghost predicate Reports(report: seq<Fallback>, key: string, name: string) {
    exists f :: f in report && f.key == key && name in f.locales
  }

  ghost predicate Lacks(locales: seq<Locale>, key: string, name: string) {
    exists l :: l in locales && l.name == name && key !in l.flat.values
  }

  lemma ReportsIsMembership(m: Fallbacks, key: string, name: string, collate: Collation)
    requires m.Valid()
    ensures Reports(Report(m, collate), key, name) <==> key in m.values && name in m.values[key]
  {
    ReportHoldsEntries(m, collate);
    if key in m.values {
      SortedHasSameMembers(m.values[key], name, collate);
      assert Fallback(key, Sort(collate, m.values[key])) in Report(m, collate);
    }
  }

  /** A pair is reported exactly when the locale lacks the key. */
  lemma ReportedPairsAreMissingPairs(source: Flat, locales: seq<Locale>, key: string, name: string, collate: Collation)
    requires source.Valid()
    ensures AllFallbacks(source, locales).Valid()
    ensures Reports(Report(AllFallbacks(source, locales), collate), key, name) <==>
      key in source.keys && Lacks(locales, key, name)
  {
    FallbacksAreMissingKeys(source, locales);
    var m := AllFallbacks(source, locales);
    ReportsIsMembership(m, key, name, collate);
    LackingMeansMissing(locales, key, name);
    assert m.Get(key) == if key in source.keys && Lacking(locales, key) != [] then Some(Lacking(locales, key))
      else None;
  }

  lemma ReportedKeysHaveLocales(source: Flat, locales: seq<Locale>, f: Fallback, collate: Collation)
    requires source.Valid() && AllFallbacks(source, locales).Valid() &&
      f in Report(AllFallbacks(source, locales), collate)
    ensures f.locales != []
  {
    FallbacksAreMissingKeys(source, locales);
    var m := AllFallbacks(source, locales);
    ReportHoldsEntries(m, collate);
    assert m.Get(f.key) == Some(Lacking(locales, f.key));
    SortedHasSameMembers(m.values[f.key], "", collate);
  }

  lemma {:induction false} KeptAll(keys: seq<string>, m: map<string, string>, present: bool)
    ensures forall k :: k in Kept(keys, m, present) <==> k in keys && (k in m) == present
    ensures Kept(keys, m, present) == keys <==> forall k :: k in keys ==> (k in m) == present
    ensures |Kept(keys, m, present)| <= |keys|
  {
    if keys != [] {
      KeptAll(keys[1..], m, present);
      assert keys == [keys[0]] + keys[1..];
      var rest := Kept(keys[1..], m, present);
      if (keys[0] in m) == present {
        assert Kept(keys, m, present) == [keys[0]] + rest;
        assert rest == keys[1..] <==> [keys[0]] + rest == keys;
      } else {
        assert Kept(keys, m, present) == rest;
      }
    }
  }

  lemma {:induction false} NoWrongKeysIff(keys: seq<string>, source: map<string, string>, flat: map<string, string>)
    requires forall k :: k in keys ==> k in source
    ensures WrongKeys(keys, source, flat) == [] <==>
      forall k :: k in keys && k in flat ==> SamePlaceholders(source[k], flat[k])
  {
    if keys != [] {
      var n := |keys| - 1;
      NoWrongKeysIff(keys[..n], source, flat);
      assert keys == keys[..n] + [keys[n]];
      if keys[n] in flat { ComparingExtractsComparesSets(source[keys[n]], flat[keys[n]]); }
    }
  }

  /** The locale has exactly the English keys in the English order, each with the English placeholders. */
  ghost predicate Complete(source: Flat, flat: Flat) {
    flat.keys == source.keys &&
      forall k :: k in source.values && k in flat.values ==> SamePlaceholders(source.values[k], flat.values[k])
  }

  lemma NoLocaleErrorsIff(source: Flat, locale: Locale)
    requires source.Valid()
    ensures LocaleErrors(source, locale) == [] <==>
      && Kept(locale.flat.keys, source.values, false) == []
      && Kept(locale.flat.keys, source.values, true) == Kept(source.keys, locale.flat.values, true)
      && WrongKeys(source.keys, source.values, locale.flat.values) == []
  {
    assert |Wrong(locale.name, WrongKeys(source.keys, source.values, locale.flat.values))|
      == |WrongKeys(source.keys, source.values, locale.flat.values)|;
  }

  // No orphans, English order and nothing missing together mean the same list of keys.
  lemma SameKeysIff(keys: seq<string>, flat: map<string, string>, sourceKeys: seq<string>, source: map<string, string>)
    requires forall k :: k in keys <==> k in flat
    requires forall k :: k in sourceKeys <==> k in source
    ensures keys == sourceKeys <==>
      && Kept(keys, source, false) == [] && Kept(keys, source, true) == Kept(sourceKeys, flat, true)
      && forall k :: k in sourceKeys ==> k in flat
  {
    KeptAll(keys, source, false);
    KeptAll(keys, source, true);
    KeptAll(sourceKeys, flat, true);
    var orphans := Kept(keys, source, false);
    assert orphans != [] ==> orphans[0] in orphans;
  }

  lemma CleanLocaleIff(source: Flat, locale: Locale)
    requires source.Valid() && locale.flat.Valid()
    ensures LocaleErrors(source, locale) == [] && (forall k :: k in source.keys ==> k in locale.flat.values) <==>
      Complete(source, locale.flat)
  {
    NoLocaleErrorsIff(source, locale);
    SameKeysIff(locale.flat.keys, locale.flat.values, source.keys, source.values);
    NoWrongKeysIff(source.keys, source.values, locale.flat.values);
  }

  // What an error says about a locale.
  ghost predicate Applies(source: Flat, l: Locale, e: AnalysisError) {
    e.locale == l.name && match e
      case OrphanKeys(_, keys) => keys != [] && keys == Kept(l.flat.keys, source.values, false)
      case OutOfOrder(_) => Kept(l.flat.keys, source.values, true) != Kept(source.keys, l.flat.values, true)
      case WrongPlaceholders(_, key) =>
        key in source.values && key in l.flat.values && !SamePlaceholders(source.values[key], l.flat.values[key])
  }

  lemma {:induction false} WrongKeysAre(keys: seq<string>, source: map<string, string>, flat: map<string, string>,
      key: string)
    requires forall k :: k in keys ==> k in source
    ensures key in WrongKeys(keys, source, flat) <==>
      key in keys && key in flat && !SamePlaceholders(source[key], flat[key])
  {
    if keys != [] {
      var n := |keys| - 1;
      WrongKeysAre(keys[..n], source, flat, key);
      assert keys == keys[..n] + [keys[n]];
      if keys[n] in flat { ComparingExtractsComparesSets(source[keys[n]], flat[keys[n]]); }
    }
  }

  lemma WrongHolds(locale: string, keys: seq<string>, e: AnalysisError)
    ensures e in Wrong(locale, keys) <==> e.WrongPlaceholders? && e.locale == locale && e.key in keys
  {
    if e.WrongPlaceholders? && e.locale == locale && e.key in keys {
      var i :| 0 <= i < |keys| && keys[i] == e.key;
      assert Wrong(locale, keys)[i] == e;
    }
  }

  lemma LocaleErrorsApply(source: Flat, l: Locale, e: AnalysisError)
    requires source.Valid()
    ensures e in LocaleErrors(source, l) <==> Applies(source, l, e)
  {
    var wrong := WrongKeys(source.keys, source.values, l.flat.values);
    WrongHolds(l.name, wrong, e);
    if e.WrongPlaceholders? { WrongKeysAre(source.keys, source.values, l.flat.values, e.key); }
  }

  /** Exactly the errors that apply to some locale are reported. */
  lemma {:induction false} ErrorIsReportedIff(source: Flat, locales: seq<Locale>, e: AnalysisError)
    requires source.Valid()
    ensures e in AllErrors(source, locales) <==> exists l :: l in locales && Applies(source, l, e)
  {
    if locales != [] {
      var init, last := locales[..|locales| - 1], locales[|locales| - 1];
      ErrorIsReportedIff(source, init, e);
      LocaleErrorsApply(source, last, e);
      assert locales == init + [last];
    }
  }

  lemma {:induction false} NoErrorsIff(source: Flat, locales: seq<Locale>)
    requires source.Valid()
    ensures AllErrors(source, locales) == [] <==> forall l :: l in locales ==> LocaleErrors(source, l) == []
  {
    if locales != [] {
      var init, last := locales[..|locales| - 1], locales[|locales| - 1];
      NoErrorsIff(source, init);
      MembersOfInit(locales);
      BothEmpty(AllErrors(source, init), LocaleErrors(source, last));
    }
  }

  lemma NoReportIff(source: Flat, locales: seq<Locale>, collate: Collation)
    requires source.Valid()
    ensures AllFallbacks(source, locales).Valid()
    ensures Report(AllFallbacks(source, locales), collate) == [] <==>
      forall l, k :: l in locales && k in source.keys ==> k in l.flat.values
  {
    FallbacksAreMissingKeys(source, locales);
    var report := Report(AllFallbacks(source, locales), collate);
    if report == [] {
      forall l, k | l in locales && k in source.keys ensures k in l.flat.values {
        ReportedPairsAreMissingPairs(source, locales, k, l.name, collate);
        assert !Reports(report, k, l.name);
      }
    } else {
      var f := report[0];
      assert f in report;
      ReportedKeysHaveLocales(source, locales, f, collate);
      assert Reports(report, f.key, f.locales[0]);
      ReportedPairsAreMissingPairs(source, locales, f.key, f.locales[0], collate);
    }
  }

  /** Nothing is reported exactly when every locale is complete. */
  lemma CleanReportIff(source: Flat, locales: seq<Locale>, collate: Collation)
    requires source.Valid() && forall l :: l in locales ==> l.flat.Valid()
    ensures AllFallbacks(source, locales).Valid()
    ensures AllErrors(source, locales) == [] && Report(AllFallbacks(source, locales), collate) == []
      <==> forall l :: l in locales ==> Complete(source, l.flat)
  {
    NoErrorsIff(source, locales);
    NoReportIff(source, locales, collate);
    forall l | l in locales
      ensures LocaleErrors(source, l) == [] && (forall k :: k in source.keys ==> k in l.flat.values) <==>
        Complete(source, l.flat)
    {
      CleanLocaleIff(source, l);
    }
  }

  /** The order in which the locales are listed does not matter to whether the report is clean. */
  lemma SortedLocalesAreTheSame(source: Flat, locales: seq<Locale>, collate: Collation)
    requires source.Valid() && forall l :: l in locales ==> l.flat.Valid()
    ensures AllFallbacks(source, Sort(ByName(collate), locales)).Valid()
    ensures AllErrors(source, Sort(ByName(collate), locales)) == [] &&
      Report(AllFallbacks(source, Sort(ByName(collate), locales)), collate) == []
      <==> forall l :: l in locales ==> Complete(source, l.flat)
  {
    SortPermutes(ByName(collate), locales);
    SameMembers(Sort(ByName(collate), locales), locales);
    CleanReportIff(source, Sort(ByName(collate), locales), collate);
  }

  // ----- in which order things are reported

  function Rank(e: AnalysisError): nat {
    match e
    case OrphanKeys(_, _) => 0
    case OutOfOrder(_) => 1
    case WrongPlaceholders(_, _) => 2
  }

  // Orphans, then order, each at most once, then placeholders in the order of the English keys.
  predicate ComesBefore(source: Flat, e: AnalysisError, f: AnalysisError) {
    || Rank(e) < Rank(f)
    || (e.WrongPlaceholders? && f.WrongPlaceholders? && Precedes(source.keys, e.key, f.key))
  }

  // A list of keys in the order of these.
  ghost predicate FollowsOrder(keys: seq<string>, list: seq<string>) {
    forall a, b :: 0 <= a < b < |list| ==> Precedes(keys, list[a], list[b])
  }

  lemma {:induction false} WrongKeysAreOrdered(keys: seq<string>, source: map<string, string>,
      flat: map<string, string>)
    requires forall k :: k in keys ==> k in source
    ensures FollowsOrder(keys, WrongKeys(keys, source, flat))
  {
    if keys != [] {
      var init := keys[..|keys| - 1];
      var before, wrong := WrongKeys(init, source, flat), WrongKeys(keys, source, flat);
      WrongKeysAreOrdered(init, source, flat);
      forall a, b | 0 <= a < b < |wrong| ensures Precedes(keys, wrong[a], wrong[b]) {
        assert wrong[a] == before[a];
        WrongKeysAre(init, source, flat, before[a]);
        PrecedesInInit(keys, wrong[a], wrong[b]);
      }
    }
  }

  /** Within a locale the errors come in this order, and those of one list of locales before those of the next. */
  lemma LocaleErrorsAreOrdered(source: Flat, locale: Locale)
    requires source.Valid()
    ensures var errors := LocaleErrors(source, locale);
      forall a, b :: 0 <= a < b < |errors| ==> ComesBefore(source, errors[a], errors[b])
  {
    var orphans := Kept(locale.flat.keys, source.values, false);
    var a := if |orphans| > 0 then [OrphanKeys(locale.name, orphans)] else [];
    var b := if Kept(locale.flat.keys, source.values, true) != Kept(source.keys, locale.flat.values, true)
      then [OutOfOrder(locale.name)] else [];
    var wrong := WrongKeys(source.keys, source.values, locale.flat.values);
    WrongKeysAreOrdered(source.keys, source.values, locale.flat.values);
    PartsAreOrdered(source, a, b, locale.name, wrong);
  }

  lemma PartsAreOrdered(source: Flat, a: seq<AnalysisError>, b: seq<AnalysisError>, locale: string, wrong: seq<string>)
    requires |a| <= 1 && (a != [] ==> Rank(a[0]) == 0) && |b| <= 1 && (b != [] ==> Rank(b[0]) == 1)
    requires FollowsOrder(source.keys, wrong)
    ensures var errors := a + b + Wrong(locale, wrong);
      forall i, j :: 0 <= i < j < |errors| ==> ComesBefore(source, errors[i], errors[j])
  {
    var errors, n := a + b + Wrong(locale, wrong), |a| + |b|;
    forall i, j | 0 <= i < j < |errors| ensures ComesBefore(source, errors[i], errors[j]) {
      assert i < |a| ==> errors[i] == a[0];
      assert |a| <= i < n ==> errors[i] == b[0];
      assert |a| <= j < n ==> errors[j] == b[0];
    }
  }

  lemma {:induction false} ErrorsFollowLocales(source: Flat, a: seq<Locale>, b: seq<Locale>)
    requires source.Valid()
    ensures AllErrors(source, a + b) == AllErrors(source, a) + AllErrors(source, b)
    ensures forall l: Locale :: AllErrors(source, [l]) == LocaleErrors(source, l)
  {
    forall l: Locale ensures AllErrors(source, [l]) == LocaleErrors(source, l) {
      assert [l][..0] == [] && [] + LocaleErrors(source, l) == LocaleErrors(source, l);
    }
    if b == [] {
      assert a + b == a && AllErrors(source, a) + [] == AllErrors(source, a);
    } else {
      var init, last := b[..|b| - 1], b[|b| - 1];
      ErrorsFollowLocales(source, a, init);
      assert (a + b)[..|a + b| - 1] == a + init;
      JoinThree(AllErrors(source, a), AllErrors(source, init), LocaleErrors(source, last));
    }
  }

  lemma JoinThree<T>(a: seq<T>, b: seq<T>, c: seq<T>)
    ensures a + b + c == a + (b + c)
  {
  }

  ghost predicate IsCollation(collate: Collation) {
    StrictOrder(collate) && forall x, y :: x != y ==> collate(x, y) || collate(y, x)
  }

  /** The locales, whose names differ, are analysed in the order of their names. */
  lemma LocalesAreSorted(locales: seq<Locale>, collate: Collation)
    requires IsCollation(collate)
    requires forall i, j :: 0 <= i < j < |locales| ==> locales[i].name != locales[j].name
    ensures var sorted := Sort(ByName(collate), locales);
      && multiset(sorted) == multiset(locales)
      && forall i, j :: 0 <= i < j < |sorted| ==> collate(sorted[i].name, sorted[j].name)
  {
    var less := ByName(collate);
    assert StrictOrder(less) by {
      forall x: Locale ensures !less(x, x) { assert !collate(x.name, x.name); }
      forall x: Locale, y: Locale, z: Locale | less(x, y) && less(y, z) ensures less(x, z) {
        assert collate(x.name, y.name) && collate(y.name, z.name);
      }
    }
    assert JsMap.Distinct(locales) by {
      assert forall i, j :: 0 <= i < j < |locales| ==> locales[i].name != locales[j].name;
    }
    forall x, y | x in locales && y in locales && x != y ensures less(x, y) || less(y, x) {
      assert x.name != y.name;
    }
    SortPermutes(less, locales);
    SortOrders(less, locales);
    JsMap.PermutedIsDistinct(locales, Sort(less, locales));
  }

  /** The report is ordered by key, each key once, and the locales of a key are those that lack it, in order. */
  lemma ReportIsSorted(m: Fallbacks, collate: Collation)
    requires m.Valid() && IsCollation(collate)
    ensures var report := Report(m, collate);
      forall i, j :: 0 <= i < j < |report| ==> collate(report[i].key, report[j].key)
    ensures forall f :: f in Report(m, collate) ==>
      f.key in m.values && multiset(f.locales) == multiset(m.values[f.key]) && Ordered(collate, f.locales)
  {
    var less := ByFallbackKey(collate);
    var entries :=
      seq(|m.keys|, i requires 0 <= i < |m.keys| => Fallback(m.keys[i], Sort(collate, m.values[m.keys[i]])));
    ReportHoldsEntries(m, collate);
    assert StrictOrder(less);
    assert JsMap.Distinct(entries) by {
      assert forall i :: 0 <= i < |entries| ==> entries[i].key == m.keys[i];
    }
    assert TotalOn(less, entries) by {
      forall x, y | x in entries && y in entries && x != y ensures less(x, y) || less(y, x) {
        assert x.key != y.key;
      }
    }
    SortOrders(less, entries);
    SortPermutes(less, entries);
    JsMap.PermutedIsDistinct(entries, Report(m, collate));
    forall f | f in Report(m, collate)
      ensures multiset(f.locales) == multiset(m.values[f.key]) && Ordered(collate, f.locales)
    {
      SortPermutes(collate, m.values[f.key]);
      SortOrders(collate, m.values[f.key]);
    }
  }

  // ----- when the order of the keys is wrong

  lemma {:induction false} KeptKeepsOrder(keys: seq<string>, m: map<string, string>, present: bool)
    requires JsMap.Distinct(keys)
    ensures JsMap.Distinct(Kept(keys, m, present))
    ensures var kept := Kept(keys, m, present);
      forall a, b :: 0 <= a < b < |kept| ==> Precedes(keys, kept[a], kept[b])
  {
    if keys != [] {
      KeptKeepsOrder(keys[1..], m, present);
      KeptAll(keys[1..], m, present);
      OneMoreInOrder(keys, Kept(keys[1..], m, present), Kept(keys, m, present));
    }
  }

  // Some later elements in order, with or without the first.
  lemma OneMoreInOrder(keys: seq<string>, rest: seq<string>, kept: seq<string>)
    requires JsMap.Distinct(keys) && keys != [] && JsMap.Distinct(rest) && forall x :: x in rest ==> x in keys[1..]
    requires forall a, b :: 0 <= a < b < |rest| ==> Precedes(keys[1..], rest[a], rest[b])
    requires kept == rest || kept == [keys[0]] + rest
    ensures JsMap.Distinct(kept)
    ensures forall a, b :: 0 <= a < b < |kept| ==> Precedes(keys, kept[a], kept[b])
  {
    forall a, b | 0 <= a < b < |rest| ensures Precedes(keys, rest[a], rest[b]) {
      PrecedesInRest(keys, rest[a], rest[b]);
    }
    forall b | 0 <= b < |rest| ensures Precedes(keys, keys[0], rest[b]) {
      assert rest[b] in rest;
      FirstPrecedes(keys, rest[b]);
    }
    if kept != rest {
      forall a, b | 0 <= a < b < |kept| ensures Precedes(keys, kept[a], kept[b]) {
        assert kept[b] == rest[b - 1] && kept[a] == if a == 0 then keys[0] else rest[a - 1];
      }
      assert keys[0] !in keys[1..];
    }
  }

  lemma PrecedesInRest(keys: seq<string>, x: string, y: string)
    requires keys != [] && Precedes(keys[1..], x, y)
    ensures Precedes(keys, x, y)
  {
    var p, q :| 0 <= p < q < |keys[1..]| && keys[1..][p] == x && keys[1..][q] == y;
    assert keys[p + 1] == x && keys[q + 1] == y;
  }

  lemma FirstPrecedes(keys: seq<string>, y: string)
    requires keys != [] && y in keys[1..]
    ensures Precedes(keys, keys[0], y)
  {
    var q :| 0 <= q < |keys[1..]| && keys[1..][q] == y;
    assert keys[q + 1] == y;
  }

  lemma OneOrTheOther(keys: seq<string>, x: string, y: string)
    requires JsMap.Distinct(keys) && x in keys && y in keys && x != y
    ensures Precedes(keys, x, y) <==> !Precedes(keys, y, x)
  {
    var p :| 0 <= p < |keys| && keys[p] == x;
    var q :| 0 <= q < |keys| && keys[q] == y;
    if p < q { assert Precedes(keys, x, y); } else { assert Precedes(keys, y, x); }
  }

  function OrderOf(keys: seq<string>): (string, string) -> bool {
    (x, y) => Precedes(keys, x, y)
  }

  lemma OrderIsStrict(keys: seq<string>)
    requires JsMap.Distinct(keys)
    ensures StrictOrder(OrderOf(keys))
  {
    forall x, y, z | Precedes(keys, x, y) && Precedes(keys, y, z) ensures Precedes(keys, x, z) {
      var p, q :| 0 <= p < q < |keys| && keys[p] == x && keys[q] == y;
      var r, s :| 0 <= r < s < |keys| && keys[r] == y && keys[s] == z;
      assert q == r;
      assert keys[p] == x && keys[s] == z;
    }
  }

  // Two keys of both catalogs stand in one order in the first and in the other in the second.
  ghost predicate AreSwapped(source: Flat, flat: Flat, x: string, y: string) {
    x in flat.keys && y in flat.keys && Precedes(source.keys, x, y) && Precedes(flat.keys, y, x)
  }

  /** The keys are out of order exactly when two keys of both catalogs stand in opposite orders. */
  lemma OutOfOrderIff(source: Flat, flat: Flat)
    requires source.Valid() && flat.Valid()
    ensures Kept(flat.keys, source.values, true) != Kept(source.keys, flat.values, true) <==>
      exists x, y :: AreSwapped(source, flat, x, y)
  {
    var a, b := Kept(flat.keys, source.values, true), Kept(source.keys, flat.values, true);
    KeptKeepsOrder(flat.keys, source.values, true);
    KeptKeepsOrder(source.keys, flat.values, true);
    KeptAll(flat.keys, source.values, true);
    KeptAll(source.keys, flat.values, true);
    if x, y :| AreSwapped(source, flat, x, y) {
      SwappedDiffer(source, flat, a, b, x, y);
    } else {
      OrderIsStrict(source.keys);
      forall i, j | 0 <= i < j < |a| ensures a[i] == a[j] || OrderOf(source.keys)(a[i], a[j]) {
        assert a[i] in a && a[j] in a && !AreSwapped(source, flat, a[j], a[i]);
        OneOrTheOther(source.keys, a[i], a[j]);
      }
      JsMap.DistinctSequencesOfOneSet(a, b);
      OrderedIsUnique(OrderOf(source.keys), a, b);
    }
  }

  lemma SwappedDiffer(source: Flat, flat: Flat, a: seq<string>, b: seq<string>, x: string, y: string)
    requires source.Valid() && flat.Valid() && AreSwapped(source, flat, x, y)
    requires JsMap.Distinct(a) && JsMap.Distinct(b) && x in a && y in a && x in b && y in b
    requires forall i, j :: 0 <= i < j < |a| ==> Precedes(flat.keys, a[i], a[j])
    requires forall i, j :: 0 <= i < j < |b| ==> Precedes(source.keys, b[i], b[j])
    ensures a != b
  {
    var p, q :| 0 <= p < |a| && 0 <= q < |a| && a[p] == x && a[q] == y;
    assert x != y by {
      var r, s :| 0 <= r < s < |source.keys| && source.keys[r] == x && source.keys[s] == y;
    }
    var r, s :| 0 <= r < |b| && 0 <= s < |b| && b[r] == x && b[s] == y;
    OneOrTheOther(flat.keys, x, y);
    OneOrTheOther(source.keys, x, y);
    assert q < p && r < s;
    assert |a| == |b| ==> !(b[p] == x && b[q] == y);
  }
}
