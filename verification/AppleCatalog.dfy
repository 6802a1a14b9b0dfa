/** Building an Apple string catalog from shipped values and candidate translations, and keeping its files current. */
module AppleCatalog {
  import JsMap
  import opened Results
  import opened CodeUnits
  import opened Sorting
  import opened Placeholders
  import opened TranslationSelection
  import opened Sequences

  datatype StringUnit = StringUnit(state: Option<string>, value: Option<string>)
  type Localizations = map<string, StringUnit>
  datatype Catalog = Catalog(sourceLanguage: string, strings: map<string, Localizations>, version: string)

  datatype SourceEntry = SourceEntry(id: string, kind: string, path: string, source: string, surface: string)
  datatype TranslationEntry = TranslationEntry(id: string, source: string, translated: string)
  datatype Artifact = Artifact(locale: string, entries: seq<TranslationEntry>)

  datatype Contradiction = Contradiction(locale: string, source: string, translations: seq<string>)
  datatype Build = Build(catalog: Catalog, contradictions: seq<Contradiction>)

  const APPLE_I18N_LOCALES := [
    "zh-CN", "zh-TW", "pt-BR", "de", "es", "ja-JP", "ko", "fr", "hi", "ar", "it",
    "tr", "uk", "id", "pl", "th", "vi", "nl", "fa", "ru", "sv"]
  const REQUIRED_LOCALES := ["en"] + APPLE_I18N_LOCALES

  /** What a build reads besides the existing catalog: the inventory, the translations, which entries
      belong to the platform and how a text is written in a catalog. */
  datatype Inputs = Inputs(native: seq<SourceEntry>, translations: seq<Artifact>, includesEntry: SourceEntry -> bool,
                           catalogValue: string -> string)

  // ----- the inventory

  function Included(entries: seq<SourceEntry>, includesEntry: SourceEntry -> bool): seq<SourceEntry> {
    if entries == [] then []
    else (if includesEntry(entries[0]) then [entries[0]] else []) + Included(entries[1..], includesEntry)
  }

  function CatalogSources(inputs: Inputs): seq<string> {
    var entries := Included(inputs.native, inputs.includesEntry);
    seq(|entries|, i requires 0 <= i < |entries| => inputs.catalogValue(entries[i].source))
  }

  function Sources(inputs: Inputs): seq<string> {
    Sort(Less, Dedupe(CatalogSources(inputs)))
  }

  // The ids of the included entries written with this source.
  function IdsOf(entries: seq<SourceEntry>, catalogValue: string -> string, source: string): set<string> {
    if entries == [] then {}
    else
      var last := entries[|entries| - 1];
      IdsOf(entries[..|entries| - 1], catalogValue, source) + if catalogValue(last.source) == source then {last.id}
        else {}
  }

  // ----- the candidates of one source in one locale

  function CandidatesIn(entries: seq<TranslationEntry>, ids: set<string>, catalogValue: string -> string,
      source: string): seq<string> {
    if entries == [] then []
    else
      var last := entries[|entries| - 1];
      CandidatesIn(entries[..|entries| - 1], ids, catalogValue, source) +
        if catalogValue(last.source) == source && last.id in ids then [catalogValue(last.translated)] else []
  }

  // The entries of the locale's artifact; of several, the last.
  function EntriesFor(artifacts: seq<Artifact>, locale: string): seq<TranslationEntry> {
    if artifacts == [] then []
    else if artifacts[|artifacts| - 1].locale == locale then artifacts[|artifacts| - 1].entries
    else EntriesFor(artifacts[..|artifacts| - 1], locale)
  }

  function Candidates(inputs: Inputs, source: string, locale: string): seq<string> {
    var ids := IdsOf(Included(inputs.native, inputs.includesEntry), inputs.catalogValue, source);
    CandidatesIn(EntriesFor(inputs.translations, locale), ids, inputs.catalogValue, source)
  }

  // ----- the catalog

  predicate IsShipped(unit: StringUnit) {
    unit.state == Some("translated") && unit.value.Some? && unit.value.value != ""
  }

  function ExistingUnit(existing: Catalog, source: string, locale: string): Option<StringUnit> {
    if source in existing.strings && locale in existing.strings[source] then Some(existing.strings[source][locale])
    else None
  }

  function UnitFor(existing: Option<StringUnit>, candidates: seq<string>, source: string, locale: string): StringUnit {
    if existing.Some? && IsShipped(existing.value) then existing.value
    else if locale == "en" then StringUnit(Some("translated"), Some(source))
    else
      var value := AppleChoice(source, candidates);
      StringUnit(Some(if value == source then "new" else "translated"), Some(value))
  }

  // The candidates of a source as a function of the locale.
  type ByLocale = string -> seq<string>

  function CandidatesOf(inputs: Inputs, source: string): ByLocale {
    locale => Candidates(inputs, source, locale)
  }

  function UnitOf(existing: Catalog, candidates: ByLocale, source: string, locale: string): StringUnit {
    UnitFor(ExistingUnit(existing, source, locale), candidates(locale), source, locale)
  }

  function LocalizationsFor(existing: Catalog, candidates: ByLocale, source: string,
      locales: seq<string>): Localizations {
    if locales == [] then map[]
    else
      var locale := locales[|locales| - 1];
      LocalizationsFor(existing, candidates, source, locales[..|locales| - 1])
        [locale := UnitOf(existing, candidates, source, locale)]
  }

  function StringsFor(existing: Catalog, inputs: Inputs, sources: seq<string>, locales: seq<string>)
    : map<string, Localizations>
  {
    if sources == [] then map[]
    else
      var source := sources[|sources| - 1];
      StringsFor(existing, inputs, sources[..|sources| - 1], locales)
        [source := LocalizationsFor(existing, CandidatesOf(inputs, source), source, locales)]
  }

  function ConflictAmong(candidates: seq<string>, source: string, locale: string): seq<Contradiction> {
    var distinct := Sort(Less, Dedupe(candidates));
    if |distinct| > 1 then [Contradiction(locale, source, distinct)] else []
  }

  function ConflictsOf(candidates: ByLocale, source: string, locales: seq<string>): seq<Contradiction> {
    if locales == [] then []
    else
      var locale := locales[|locales| - 1];
      ConflictsOf(candidates, source, locales[..|locales| - 1]) + ConflictAmong(candidates(locale), source, locale)
  }

  function Conflicts(inputs: Inputs, sources: seq<string>, locales: seq<string>): seq<Contradiction> {
    if sources == [] then []
    else
      var source := sources[|sources| - 1];
      Conflicts(inputs, sources[..|sources| - 1], locales) + ConflictsOf(CandidatesOf(inputs, source), source, locales)
  }

  predicate BySourceThenLocale(left: Contradiction, right: Contradiction) {
    Less(left.source, right.source) || (left.source == right.source && Less(left.locale, right.locale))
  }

  function BuildOf(existing: Catalog, inputs: Inputs): Build {
    Build(Catalog("en", StringsFor(existing, inputs, Sources(inputs), REQUIRED_LOCALES), "1.0"),
          Sort(BySourceThenLocale, Conflicts(inputs, Sources(inputs), REQUIRED_LOCALES)))
  }

  // ----- the loops

  // The ids collected so far are those of every source.
  ghost predicate HoldsIds(idsBySource: map<string, set<string>>, entries: seq<SourceEntry>,
      catalogValue: string -> string) {
    && (forall s :: IdsOf(entries, catalogValue, s) == if s in idsBySource then idsBySource[s] else {})
    && (forall e :: e in entries ==> catalogValue(e.source) in idsBySource)
  }

  lemma OneMoreEntry(idsBySource: map<string, set<string>>, entries: seq<SourceEntry>, entry: SourceEntry,
      catalogValue: string -> string)
    requires HoldsIds(idsBySource, entries, catalogValue)
    ensures var source := catalogValue(entry.source);
      var ids := if source in idsBySource then idsBySource[source] else {};
      HoldsIds(idsBySource[source := ids + {entry.id}], entries + [entry], catalogValue)
  {
    assert (entries + [entry])[..|entries|] == entries;
  }

  method CollectIds(entries: seq<SourceEntry>, catalogValue: string -> string)
    returns (idsBySource: map<string, set<string>>)
    ensures HoldsIds(idsBySource, entries, catalogValue)
  {
    idsBySource := map[];
    for i := 0 to |entries|
      invariant HoldsIds(idsBySource, entries[..i], catalogValue)
    {
      TakeOneMore(entries, i);
      OneMoreEntry(idsBySource, entries[..i], entries[i], catalogValue);
      var source := catalogValue(entries[i].source);
      var ids := if source in idsBySource then idsBySource[source] else {};
      idsBySource := idsBySource[source := ids + {entries[i].id}];
    }
    assert entries[..|entries|] == entries;
  }

  // The candidates collected so far from one artifact are those of every source.
  ghost predicate HoldsIn(bySource: map<string, seq<string>>, entries: seq<TranslationEntry>,
      idsBySource: map<string, set<string>>, catalogValue: string -> string) {
    forall s :: s in idsBySource ==>
      CandidatesIn(entries, idsBySource[s], catalogValue, s) == if s in bySource then bySource[s] else []
  }

  predicate Contributes(entry: TranslationEntry, idsBySource: map<string, set<string>>,
      catalogValue: string -> string) {
    catalogValue(entry.source) in idsBySource && entry.id in idsBySource[catalogValue(entry.source)]
  }

  lemma OneMoreCandidate(bySource: map<string, seq<string>>, entries: seq<TranslationEntry>, entry: TranslationEntry,
      idsBySource: map<string, set<string>>, catalogValue: string -> string)
    requires HoldsIn(bySource, entries, idsBySource, catalogValue)
    ensures !Contributes(entry, idsBySource, catalogValue) ==>
      HoldsIn(bySource, entries + [entry], idsBySource, catalogValue)
    ensures Contributes(entry, idsBySource, catalogValue) ==>
      var source := catalogValue(entry.source);
      var values := if source in bySource then bySource[source] else [];
      HoldsIn(bySource[source := values + [catalogValue(entry.translated)]],
              entries + [entry], idsBySource, catalogValue)
  {
    assert (entries + [entry])[..|entries|] == entries;
    forall s | s in idsBySource
      ensures CandidatesIn(entries + [entry], idsBySource[s], catalogValue, s)
        == CandidatesIn(entries, idsBySource[s], catalogValue, s)
        + if catalogValue(entry.source) == s && entry.id in idsBySource[s] then [catalogValue(entry.translated)] else []
    {
    }
  }

  method CollectCandidates(entries: seq<TranslationEntry>, idsBySource: map<string, set<string>>,
      catalogValue: string -> string)
    returns (bySource: map<string, seq<string>>)
    ensures HoldsIn(bySource, entries, idsBySource, catalogValue)
  {
    bySource := map[];
    for i := 0 to |entries|
      invariant HoldsIn(bySource, entries[..i], idsBySource, catalogValue)
    {
      TakeOneMore(entries, i);
      OneMoreCandidate(bySource, entries[..i], entries[i], idsBySource, catalogValue);
      var source := catalogValue(entries[i].source);
      if source !in idsBySource {
        continue;
      }
      if entries[i].id !in idsBySource[source] {
        continue;
      }
      var values := if source in bySource then bySource[source] else [];
      bySource := bySource[source := values + [catalogValue(entries[i].translated)]];
    }
    assert entries[..|entries|] == entries;
  }

  // The candidates collected so far are those of every source in every locale.
  ghost predicate HoldsCandidates(byLocale: map<string, map<string, seq<string>>>, artifacts: seq<Artifact>,
      idsBySource: map<string, set<string>>, catalogValue: string -> string) {
    forall l, s :: s in idsBySource ==>
      CandidatesIn(EntriesFor(artifacts, l), idsBySource[s], catalogValue, s) == Lookup(byLocale, l, s)
  }

  function Lookup(byLocale: map<string, map<string, seq<string>>>, locale: string, source: string): seq<string> {
    if locale in byLocale && source in byLocale[locale] then byLocale[locale][source] else []
  }

  method CollectTranslations(artifacts: seq<Artifact>, idsBySource: map<string, set<string>>,
      catalogValue: string -> string)
    returns (byLocale: map<string, map<string, seq<string>>>)
    ensures HoldsCandidates(byLocale, artifacts, idsBySource, catalogValue)
  {
    byLocale := map[];
    for i := 0 to |artifacts|
      invariant HoldsCandidates(byLocale, artifacts[..i], idsBySource, catalogValue)
    {
      assert artifacts[..i + 1][..i] == artifacts[..i];
      var bySource := CollectCandidates(artifacts[i].entries, idsBySource, catalogValue);
      byLocale := byLocale[artifacts[i].locale := bySource];
    }
    assert artifacts[..|artifacts|] == artifacts;
  }

  // The unit written for one locale, and the conflict it reports.
  method BuildUnit(existingUnit: Option<StringUnit>, candidates: seq<string>, source: string, locale: string)
    returns (unit: StringUnit, conflict: seq<Contradiction>)
    ensures unit == UnitFor(existingUnit, candidates, source, locale)
    ensures conflict == ConflictAmong(candidates, source, locale)
  {
    conflict := [];
    var distinct := Sort(Less, Dedupe(candidates));
    if |distinct| > 1 {
      conflict := [Contradiction(locale, source, distinct)];
    }
    if existingUnit.Some? && IsShipped(existingUnit.value) {
      return existingUnit.value, conflict;
    }
    if locale == "en" {
      return StringUnit(Some("translated"), Some(source)), conflict;
    }
    var value := ChooseTranslation(source, candidates);
    unit := StringUnit(Some(if value == source then "new" else "translated"), Some(value));
  }

  method BuildLocalizations(existing: Catalog, source: string, locales: seq<string>,
      byLocale: map<string, map<string, seq<string>>>,
      ghost candidates: ByLocale)
    returns (localizations: Localizations, contradictions: seq<Contradiction>)
    requires forall l :: Lookup(byLocale, l, source) == candidates(l)
    ensures localizations == LocalizationsFor(existing, candidates, source, locales)
    ensures contradictions == ConflictsOf(candidates, source, locales)
  {
    localizations, contradictions := map[], [];
    for i := 0 to |locales|
      invariant localizations == LocalizationsFor(existing, candidates, source, locales[..i])
      invariant contradictions == ConflictsOf(candidates, source, locales[..i])
    {
      var locale := locales[i];
      TakeOneMore(locales, i);
      OneMoreLocale(existing, candidates, source, locales[..i], locale);
      var unit, conflict :=
        BuildUnit(ExistingUnit(existing, source, locale), Lookup(byLocale, locale, source), source, locale);
      localizations := localizations[locale := unit];
      contradictions := contradictions + conflict;
    }
    assert locales[..|locales|] == locales;
  }

  // The loop over the sources.
  method BuildStrings(existing: Catalog, inputs: Inputs, sources: seq<string>, locales: seq<string>,
      byLocale: map<string, map<string, seq<string>>>)
    returns (strings: map<string, Localizations>, contradictions: seq<Contradiction>)
    requires forall s, l :: s in sources ==> Lookup(byLocale, l, s) == CandidatesOf(inputs, s)(l)
    ensures strings == StringsFor(existing, inputs, sources, locales)
    ensures contradictions == Conflicts(inputs, sources, locales)
  {
    strings, contradictions := map[], [];
    for i := 0 to |sources|
      invariant strings == StringsFor(existing, inputs, sources[..i], locales)
      invariant contradictions == Conflicts(inputs, sources[..i], locales)
    {
      var source := sources[i];
      TakeOneMore(sources, i);
      OneMoreSource(existing, inputs, sources[..i], source, locales);
      assert source in sources;
      var localizations, found :=
        BuildLocalizations(existing, source, locales, byLocale, CandidatesOf(inputs, source));
      strings := strings[source := localizations];
      contradictions := contradictions + found;
    }
    assert sources[..|sources|] == sources;
  }

  method BuildAppleCatalog(existing: Catalog, inputs: Inputs) returns (build: Build)
    ensures build == BuildOf(existing, inputs)
  {
    var entries := Included(inputs.native, inputs.includesEntry);
    var sources := Sources(inputs);
    var idsBySource := CollectIds(entries, inputs.catalogValue);
    var byLocale := CollectTranslations(inputs.translations, idsBySource, inputs.catalogValue);
    forall s, l | s in sources ensures Lookup(byLocale, l, s) == CandidatesOf(inputs, s)(l) {
      SourceIsIncluded(inputs, s);
      assert s in idsBySource;
    }
    var strings, contradictions := BuildStrings(existing, inputs, sources, REQUIRED_LOCALES, byLocale);
    build := Build(Catalog("en", strings, "1.0"), Sort(BySourceThenLocale, contradictions));
  }

  lemma OneMoreLocale(existing: Catalog, candidates: ByLocale, source: string, locales: seq<string>, locale: string)
    ensures LocalizationsFor(existing, candidates, source, locales + [locale])
      == LocalizationsFor(existing, candidates, source, locales)[locale := UnitOf(existing, candidates, source, locale)]
    ensures ConflictsOf(candidates, source, locales + [locale])
      == ConflictsOf(candidates, source, locales) + ConflictAmong(candidates(locale), source, locale)
  {
    assert (locales + [locale])[..|locales|] == locales;
  }

  lemma OneMoreSource(existing: Catalog, inputs: Inputs, sources: seq<string>, source: string, locales: seq<string>)
    ensures StringsFor(existing, inputs, sources + [source], locales)
      == StringsFor(existing, inputs, sources, locales)
        [source := LocalizationsFor(existing, CandidatesOf(inputs, source), source, locales)]
    ensures Conflicts(inputs, sources + [source], locales)
      == Conflicts(inputs, sources, locales) + ConflictsOf(CandidatesOf(inputs, source), source, locales)
  {
    assert (sources + [source])[..|sources|] == sources;
  }

  lemma SourceIsIncluded(inputs: Inputs, source: string)
    ensures source in Sources(inputs) <==> source in CatalogSources(inputs)
  {
    SortPermutes(Less, Dedupe(CatalogSources(inputs)));
    SameMembers(Sources(inputs), Dedupe(CatalogSources(inputs)));
  }

  // ----- what a build promises

  lemma {:induction false} LocalizationsHave(existing: Catalog, candidates: ByLocale, source: string,
      locales: seq<string>, locale: string)
    ensures locale in LocalizationsFor(existing, candidates, source, locales) <==> locale in locales
    ensures locale in locales ==>
      LocalizationsFor(existing, candidates, source, locales)[locale] == UnitOf(existing, candidates, source, locale)
  {
    if locales != [] {
      var init := locales[..|locales| - 1];
      LocalizationsHave(existing, candidates, source, init, locale);
      assert locales == init + [locales[|locales| - 1]];
    }
  }

  lemma {:induction false} StringsHave(
      existing: Catalog, inputs: Inputs, sources: seq<string>, locales: seq<string>, source: string)
    ensures source in StringsFor(existing, inputs, sources, locales) <==> source in sources
    ensures source in sources ==>
      StringsFor(existing, inputs, sources, locales)[source]
        == LocalizationsFor(existing, CandidatesOf(inputs, source), source, locales)
  {
    if sources != [] {
      StringsHave(existing, inputs, sources[..|sources| - 1], locales, source);
      MembersOfInit(sources);
    }
  }

  /** Every inventory source, and no other, is in the catalog with exactly the required locales. */
  lemma EverySourceHasEveryLocale(existing: Catalog, inputs: Inputs, source: string, locale: string)
    ensures var Catalog(sourceLanguage, strings, version) := BuildOf(existing, inputs).catalog;
      && sourceLanguage == "en" && version == "1.0"
      && (source in strings <==> source in CatalogSources(inputs))
      && (source in strings ==> (locale in strings[source] <==> locale in REQUIRED_LOCALES))
      && (source in strings && locale in strings[source] ==>
        strings[source][locale] == UnitOf(existing, CandidatesOf(inputs, source), source, locale))
  {
    SourceIsIncluded(inputs, source);
    StringsHave(existing, inputs, Sources(inputs), REQUIRED_LOCALES, source);
    LocalizationsHave(existing, CandidatesOf(inputs, source), source, REQUIRED_LOCALES, locale);
  }

  /** A shipped non-empty translation is never changed; a value that is not shipped yet is the best candidate, marked
      new when it is the source. */
  lemma ShippedValuesAreKept(existing: Catalog, inputs: Inputs, source: string, locale: string)
    requires source in CatalogSources(inputs) && locale in REQUIRED_LOCALES
    ensures source in BuildOf(existing, inputs).catalog.strings &&
      locale in BuildOf(existing, inputs).catalog.strings[source]
    ensures var unit := BuildOf(existing, inputs).catalog.strings[source][locale];
      var before := ExistingUnit(existing, source, locale);
      var shipped := before.Some? && before.value.state == Some("translated") && before.value.value.GetOr("") != "";
      && (shipped ==> unit == before.value)
      && (!shipped && locale == "en" ==>
        unit == StringUnit(Some("translated"), Some(source)))
      && (!shipped && locale != "en" ==>
            && unit.value.Some? && (unit.state == Some("new") <==> unit.value == Some(source))
            && (Candidates(inputs, source, locale) == [] ==> unit.value == Some(source))
            && (Candidates(inputs, source, locale) != [] ==>
              IsBest(source, Candidates(inputs, source, locale), unit.value.value)))
  {
    EverySourceHasEveryLocale(existing, inputs, source, locale);
    if Candidates(inputs, source, locale) != [] {
      ApplePicksBest(source, Candidates(inputs, source, locale));
    }
  }

  // ----- which candidates there are

  lemma {:induction false} IncludedAre(entries: seq<SourceEntry>, includesEntry: SourceEntry -> bool)
    ensures forall n :: n in Included(entries, includesEntry) <==> n in entries && includesEntry(n)
  {
    if entries != [] {
      IncludedAre(entries[1..], includesEntry);
      assert entries == [entries[0]] + entries[1..];
    }
  }

  lemma {:induction false} IdsAre(entries: seq<SourceEntry>, catalogValue: string -> string, source: string, id: string)
    ensures id in IdsOf(entries, catalogValue, source) <==>
      exists n :: n in entries && n.id == id && catalogValue(n.source) == source
  {
    if entries != [] {
      IdsAre(entries[..|entries| - 1], catalogValue, source, id);
      MembersOfInit(entries);
    }
  }

  /** The entry translates the source by this value, and belongs to an included inventory entry with that source. */
  ghost predicate Offers(inputs: Inputs, e: TranslationEntry, source: string, value: string) {
    && inputs.catalogValue(e.source) == source && inputs.catalogValue(e.translated) == value
    && exists n :: n in inputs.native && IsEntryFor(inputs, n, e.id, source)
  }

  predicate IsEntryFor(inputs: Inputs, n: SourceEntry, id: string, source: string) {
    inputs.includesEntry(n) && n.id == id && inputs.catalogValue(n.source) == source
  }

  function PlacesWhere(holds: TranslationEntry -> bool, entries: seq<TranslationEntry>): set<nat> {
    set k: nat | k < |entries| && holds(entries[k])
  }

  lemma OnePlaceMore(holds: TranslationEntry -> bool, init: seq<TranslationEntry>, last: TranslationEntry)
    ensures |PlacesWhere(holds, init + [last])| == |PlacesWhere(holds, init)| + if holds(last) then 1 else 0
  {
    var before, after := PlacesWhere(holds, init), PlacesWhere(holds, init + [last]);
    assert forall k: nat :: k < |init| ==> (init + [last])[k] == init[k];
    assert after == if holds(last) then before + {|init|} else before;
  }

  // The places of the entries that offer the value.
  ghost function Offering(inputs: Inputs, entries: seq<TranslationEntry>, source: string, value: string): set<nat> {
    PlacesWhere((e: TranslationEntry) => Offers(inputs, e, source, value), entries)
  }

  lemma OffersIff(inputs: Inputs, e: TranslationEntry, source: string, value: string)
    ensures Offers(inputs, e, source, value) <==>
      && inputs.catalogValue(e.source) == source && inputs.catalogValue(e.translated) == value
      && e.id in IdsOf(Included(inputs.native, inputs.includesEntry), inputs.catalogValue, source)
  {
    IncludedAre(inputs.native, inputs.includesEntry);
    IdsAre(Included(inputs.native, inputs.includesEntry), inputs.catalogValue, source, e.id);
  }

  lemma {:induction false} CandidatesInAre(
      inputs: Inputs, entries: seq<TranslationEntry>, ids: set<string>, source: string, value: string)
    requires ids == IdsOf(Included(inputs.native, inputs.includesEntry), inputs.catalogValue, source)
    ensures multiset(CandidatesIn(entries, ids, inputs.catalogValue, source))[value]
      == |Offering(inputs, entries, source, value)|
  {
    if entries != [] {
      var init, last := entries[..|entries| - 1], entries[|entries| - 1];
      CandidatesInAre(inputs, init, ids, source, value);
      OffersIff(inputs, last, source, value);
      OnePlaceMore((e: TranslationEntry) => Offers(inputs, e, source, value), init, last);
      assert entries == init + [last];
    }
  }

  // The artifact at i is the last one of its locale.
  ghost predicate IsLastOf(artifacts: seq<Artifact>, i: nat, locale: string)
    requires i < |artifacts|
  {
    artifacts[i].locale == locale && forall j :: i < j < |artifacts| ==> artifacts[j].locale != locale
  }

  lemma {:induction false} EntriesAreTheLast(artifacts: seq<Artifact>, locale: string)
    ensures forall i :: 0 <= i < |artifacts| && IsLastOf(artifacts, i, locale) ==>
      EntriesFor(artifacts, locale) == artifacts[i].entries
    ensures (forall a :: a in artifacts ==> a.locale != locale) ==> EntriesFor(artifacts, locale) == []
  {
    if artifacts != [] {
      var init := artifacts[..|artifacts| - 1];
      EntriesAreTheLast(init, locale);
      MembersOfInit(artifacts);
      forall i | 0 <= i < |init| && IsLastOf(artifacts, i, locale) ensures IsLastOf(init, i, locale) {}
    }
  }

  /** A value is a candidate as often as entries of the locale offer it. */
  lemma CandidatesAre(inputs: Inputs, source: string, locale: string, value: string)
    ensures multiset(Candidates(inputs, source, locale))[value]
      == |Offering(inputs, EntriesFor(inputs.translations, locale), source, value)|
  {
    var ids := IdsOf(Included(inputs.native, inputs.includesEntry), inputs.catalogValue, source);
    CandidatesInAre(inputs, EntriesFor(inputs.translations, locale), ids, source, value);
  }

  // ----- which contradictions a build reports

  ghost predicate Increasing(s: seq<string>) {
    forall i, j :: 0 <= i < j < |s| ==> Less(s[i], s[j])
  }

  /** Two different candidates are at hand, and the translations are all of them, each once, in order. */
  ghost predicate IsConflict(candidates: seq<string>, c: Contradiction) {
    && (exists a, b :: a in candidates && b in candidates && a != b)
    && (forall t :: t in c.translations <==> t in candidates) && Increasing(c.translations)
  }

  lemma DistinctIsSorted(candidates: seq<string>)
    ensures var distinct := Sort(Less, Dedupe(candidates));
      Increasing(distinct) && forall t :: t in distinct <==> t in candidates
  {
    var deduped := Dedupe(candidates);
    CodeUnitOrder(deduped);
    SortPermutes(Less, deduped);
    SortOrders(Less, deduped);
    SameMembers(Sort(Less, deduped), deduped);
    JsMap.PermutedIsDistinct(deduped, Sort(Less, deduped));
  }

  lemma IncreasingIsUnique(a: seq<string>, b: seq<string>)
    requires Increasing(a) && Increasing(b) && forall t :: t in a <==> t in b
    ensures a == b
  {
    CodeUnitOrder(a);
    JsMap.DistinctSequencesOfOneSet(a, b);
    OrderedIsUnique(Less, a, b);
  }

  lemma SeveralMeans(candidates: seq<string>, distinct: seq<string>)
    requires Increasing(distinct) && forall t :: t in distinct <==> t in candidates
    ensures |distinct| > 1 <==> exists a, b :: a in candidates && b in candidates && a != b
  {
    if |distinct| > 1 {
      CodeUnitOrder([]);
      assert distinct[0] in candidates && distinct[1] in candidates && distinct[0] != distinct[1];
    }
    if a, b :| a in candidates && b in candidates && a != b {
      assert a in distinct && b in distinct;
    }
  }

  lemma ConflictAmongIs(candidates: seq<string>, source: string, locale: string, c: Contradiction)
    ensures c in ConflictAmong(candidates, source, locale) <==>
      c.source == source && c.locale == locale && IsConflict(candidates, c)
  {
    var distinct := Sort(Less, Dedupe(candidates));
    DistinctIsSorted(candidates);
    SeveralMeans(candidates, distinct);
    if IsConflict(candidates, c) { IncreasingIsUnique(c.translations, distinct); }
  }

  lemma {:induction false} ConflictsOfAre(candidates: ByLocale, source: string, locales: seq<string>, c: Contradiction)
    ensures c in ConflictsOf(candidates, source, locales) <==>
      c.source == source && c.locale in locales && IsConflict(candidates(c.locale), c)
  {
    if locales != [] {
      var locale := locales[|locales| - 1];
      ConflictsOfAre(candidates, source, locales[..|locales| - 1], c);
      ConflictAmongIs(candidates(locale), source, locale, c);
      MembersOfInit(locales);
    }
  }

  lemma {:induction false} ConflictsAre(inputs: Inputs, sources: seq<string>, locales: seq<string>, c: Contradiction)
    ensures c in Conflicts(inputs, sources, locales) <==>
      c.source in sources && c.locale in locales && IsConflict(Candidates(inputs, c.source, c.locale), c)
  {
    if sources != [] {
      var source := sources[|sources| - 1];
      ConflictsAre(inputs, sources[..|sources| - 1], locales, c);
      ConflictsOfAre(CandidatesOf(inputs, source), source, locales, c);
      MembersOfInit(sources);
    }
  }

  // Two lists of contradictions with nothing in common, each without repetition.
  lemma JoinDistinct(a: seq<Contradiction>, b: seq<Contradiction>)
    requires JsMap.Distinct(a) && JsMap.Distinct(b) && forall c :: c in a ==> c !in b
    ensures JsMap.Distinct(a + b)
  {
    forall i, j | 0 <= i < j < |a + b| ensures (a + b)[i] != (a + b)[j] {
      if i < |a| <= j {
        assert a[i] in a && b[j - |a|] in b;
      }
    }
  }

  lemma {:induction false} ConflictsOfDiffer(candidates: ByLocale, source: string, locales: seq<string>)
    requires JsMap.Distinct(locales)
    ensures JsMap.Distinct(ConflictsOf(candidates, source, locales))
  {
    if locales != [] {
      var init, locale := locales[..|locales| - 1], locales[|locales| - 1];
      ConflictsOfDiffer(candidates, source, init);
      forall c | c in ConflictsOf(candidates, source, init)
        ensures c !in ConflictAmong(candidates(locale), source, locale)
      {
        ConflictsOfAre(candidates, source, init, c);
      }
      JoinDistinct(ConflictsOf(candidates, source, init), ConflictAmong(candidates(locale), source, locale));
    }
  }

  lemma {:induction false} ConflictsDiffer(inputs: Inputs, sources: seq<string>, locales: seq<string>)
    requires JsMap.Distinct(sources) && JsMap.Distinct(locales)
    ensures JsMap.Distinct(Conflicts(inputs, sources, locales))
  {
    if sources != [] {
      var init, source := sources[..|sources| - 1], sources[|sources| - 1];
      var found := ConflictsOf(CandidatesOf(inputs, source), source, locales);
      ConflictsDiffer(inputs, init, locales);
      ConflictsOfDiffer(CandidatesOf(inputs, source), source, locales);
      forall c | c in Conflicts(inputs, init, locales) ensures c !in found {
        ConflictsAre(inputs, init, locales, c);
        ConflictsOfAre(CandidatesOf(inputs, source), source, locales, c);
      }
      JoinDistinct(Conflicts(inputs, init, locales), found);
    }
  }

  lemma SourceThenLocaleIsStrict()
    ensures StrictOrder(BySourceThenLocale)
  {
    CodeUnitOrder([]);
    forall x, y, z | BySourceThenLocale(x, y) && BySourceThenLocale(y, z) ensures BySourceThenLocale(x, z) {
      if Less(x.source, y.source) && Less(y.source, z.source) {
        LessIsTransitive(x.source, y.source, z.source);
      } else if x.source == y.source == z.source {
        LessIsTransitive(x.locale, y.locale, z.locale);
      }
    }
    forall x ensures !BySourceThenLocale(x, x) {
      LessIsIrreflexive(x.source);
      LessIsIrreflexive(x.locale);
    }
  }

  lemma RequiredLocalesDiffer()
    ensures JsMap.Distinct(REQUIRED_LOCALES)
  {
  }

  /** A build reports a contradiction for a source and a locale exactly when the source is in the inventory, the
      locale is required and two different candidates are at hand; it names all of them, each once and in order. */
  lemma ContradictionsAre(existing: Catalog, inputs: Inputs, c: Contradiction)
    ensures c in BuildOf(existing, inputs).contradictions <==>
      && c.source in CatalogSources(inputs) && c.locale in REQUIRED_LOCALES
      && IsConflict(Candidates(inputs, c.source, c.locale), c)
  {
    var conflicts := Conflicts(inputs, Sources(inputs), REQUIRED_LOCALES);
    SortPermutes(BySourceThenLocale, conflicts);
    SameMembers(BuildOf(existing, inputs).contradictions, conflicts);
    ConflictsAre(inputs, Sources(inputs), REQUIRED_LOCALES, c);
    SourceIsIncluded(inputs, c.source);
  }

  /** The contradictions are ordered by source and then by locale, with one entry at most for each pair. */
  lemma ContradictionsAreOrdered(existing: Catalog, inputs: Inputs)
    ensures var cs := BuildOf(existing, inputs).contradictions;
      forall i, j :: 0 <= i < j < |cs| ==>
        Less(cs[i].source, cs[j].source) || (cs[i].source == cs[j].source && Less(cs[i].locale, cs[j].locale))
  {
    var conflicts, cs := Conflicts(inputs, Sources(inputs), REQUIRED_LOCALES), BuildOf(existing, inputs).contradictions;
    SourceThenLocaleIsStrict();
    assert TotalOn(BySourceThenLocale, conflicts) by {
      forall x, y | x in conflicts && y in conflicts && x != y
        ensures BySourceThenLocale(x, y) || BySourceThenLocale(y, x)
      {
        ConflictsAre(inputs, Sources(inputs), REQUIRED_LOCALES, x);
        ConflictsAre(inputs, Sources(inputs), REQUIRED_LOCALES, y);
        if x.source != y.source { LessIsTotal(x.source, y.source); }
        else if x.locale != y.locale { LessIsTotal(x.locale, y.locale); }
        else { IncreasingIsUnique(x.translations, y.translations); }
      }
    }
    SortOrders(BySourceThenLocale, conflicts);
    SortPermutes(BySourceThenLocale, conflicts);
    SortPermutes(Less, Dedupe(CatalogSources(inputs)));
    JsMap.PermutedIsDistinct(Dedupe(CatalogSources(inputs)), Sources(inputs));
    RequiredLocalesDiffer();
    ConflictsDiffer(inputs, Sources(inputs), REQUIRED_LOCALES);
    JsMap.PermutedIsDistinct(conflicts, cs);
  }

  // A unit is written the same way when it is found in the catalog again.
  lemma UnitIsStable(existing: Option<StringUnit>, candidates: seq<string>, source: string, locale: string)
    ensures var unit := UnitFor(existing, candidates, source, locale);
      UnitFor(Some(unit), candidates, source, locale) == unit
  {
  }

  lemma {:induction false} LocalizationsAreStable(existing: Catalog, again: Catalog, candidates: ByLocale,
      source: string, locales: seq<string>)
    requires source in again.strings
    requires forall l :: l in locales ==>
      l in again.strings[source] && again.strings[source][l] == UnitOf(existing, candidates, source, l)
    ensures LocalizationsFor(again, candidates, source, locales)
      == LocalizationsFor(existing, candidates, source, locales)
  {
    if locales != [] {
      var init, locale := locales[..|locales| - 1], locales[|locales| - 1];
      LocalizationsAreStable(existing, again, candidates, source, init);
      assert locale in locales;
      UnitIsStable(ExistingUnit(existing, source, locale), candidates(locale), source, locale);
    }
  }

  // The localizations of a source are the same built from either catalog.
  ghost predicate SameFor(existing: Catalog, again: Catalog, inputs: Inputs, source: string, locales: seq<string>) {
    LocalizationsFor(again, CandidatesOf(inputs, source), source, locales)
      == LocalizationsFor(existing, CandidatesOf(inputs, source), source, locales)
  }

  lemma {:induction false} StringsAreStable(
      existing: Catalog, again: Catalog, inputs: Inputs, sources: seq<string>, locales: seq<string>)
    requires forall s :: s in sources ==> SameFor(existing, again, inputs, s, locales)
    ensures StringsFor(again, inputs, sources, locales) == StringsFor(existing, inputs, sources, locales)
  {
    if sources != [] {
      var source := sources[|sources| - 1];
      StringsAreStable(existing, again, inputs, sources[..|sources| - 1], locales);
      assert source in sources && SameFor(existing, again, inputs, source, locales);
    }
  }

  /** Building again from the produced catalog gives the same catalog and the same contradictions. */
  lemma BuildIsAFixedPoint(existing: Catalog, inputs: Inputs)
    ensures BuildOf(BuildOf(existing, inputs).catalog, inputs) == BuildOf(existing, inputs)
  {
    var again := BuildOf(existing, inputs).catalog;
    forall s | s in Sources(inputs) ensures SameFor(existing, again, inputs, s, REQUIRED_LOCALES) {
      SourceIsIncluded(inputs, s);
      EverySourceHasEveryLocale(existing, inputs, s, "en");
      var candidates := CandidatesOf(inputs, s);
      forall l | l in REQUIRED_LOCALES
        ensures l in again.strings[s] && again.strings[s][l] == UnitOf(existing, candidates, s, l)
      {
        EverySourceHasEveryLocale(existing, inputs, s, l);
      }
      LocalizationsAreStable(existing, again, candidates, s, REQUIRED_LOCALES);
    }
    StringsAreStable(existing, again, inputs, Sources(inputs), REQUIRED_LOCALES);
  }

  // ----- the catalog files

  /** How catalogs and reports are written to and read from files. */
  datatype Format = Format(parse: string -> Catalog, serialize: Catalog -> string,
      serializeContradictions: seq<Contradiction> -> string)

  ghost predicate ReadsBack(format: Format) {
    forall c :: format.parse(format.serialize(c)) == c
  }

  datatype StaleFile = StaleCatalog | StaleContradictions
  datatype Files = Files(catalog: string, contradictions: Option<string>)
  datatype Synced = Synced(files: Files, result: Result<Build, StaleFile>)

  function SyncOf(files: Files, write: bool, inputs: Inputs, format: Format): Synced {
    var build := BuildOf(format.parse(files.catalog), inputs);
    var catalog, report := format.serialize(build.catalog), Some(format.serializeContradictions(build.contradictions));
    if write then Synced(Files(catalog, report), Ok(build))
    else if files.catalog != catalog then Synced(files, Throws(StaleCatalog))
    else if files.contradictions != report then Synced(files, Throws(StaleContradictions))
    else Synced(files, Ok(build))
  }

  class CatalogFiles {
    var catalog: string
    var contradictions: Option<string>

    constructor (catalog: string, contradictions: Option<string>)
      ensures this.catalog == catalog && this.contradictions == contradictions
    {
      this.catalog, this.contradictions := catalog, contradictions;
    }

    method SyncIosCatalog(write: bool, inputs: Inputs, format: Format) returns (result: Result<Build, StaleFile>)
      modifies this
      ensures Synced(Files(catalog, contradictions), result)
        == SyncOf(Files(old(catalog), old(contradictions)), write, inputs, format)
      ensures var before := Files(old(catalog), old(contradictions));
        !write ==> (result.Throws? <==> SyncOf(before, true, inputs, format).files != before)
    {
      CheckFailsIffWriteChanges(Files(catalog, contradictions), inputs, format);
      var build := BuildAppleCatalog(format.parse(catalog), inputs);
      var expected := format.serialize(build.catalog);
      if catalog != expected {
        if !write {
          return Throws(StaleCatalog);
        }
        catalog := expected;
      }
      var expectedContradictions := format.serializeContradictions(build.contradictions);
      if contradictions != Some(expectedContradictions) {
        if !write {
          return Throws(StaleContradictions);
        }
        contradictions := Some(expectedContradictions);
      }
      return Ok(build);
    }
  }

  /** A check right after a write finds nothing stale, reports the same build and leaves the files alone. */
  lemma CheckPassesAfterSync(files: Files, inputs: Inputs, format: Format)
    requires ReadsBack(format)
    ensures SyncOf(SyncOf(files, true, inputs, format).files, false, inputs, format)
      == SyncOf(files, true, inputs, format)
  {
    BuildIsAFixedPoint(format.parse(files.catalog), inputs);
  }

  /** A check changes nothing and fails exactly when a write would change a file; it names the first such file. */
  lemma CheckFailsIffWriteChanges(files: Files, inputs: Inputs, format: Format)
    ensures var checked, written := SyncOf(files, false, inputs, format), SyncOf(files, true, inputs, format);
      && checked.files == files && written.result.Ok?
      && (checked.result.Throws? <==> written.files != files)
      && (checked.result == Throws(StaleCatalog) <==> written.files.catalog != files.catalog)
      && (checked.result.Ok? ==> checked.result == written.result)
  {
  }
}
