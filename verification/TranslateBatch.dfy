/** Translating one batch: retry once, and halve the batch when the provider times out. */
module TranslateBatch {
  import opened Results
  import opened Text
  import opened TranslationBatches
  import opened Placeholders
  import JsMap
  import Sequences

  // The value the reply holds under a key: a string or something else.
  datatype Value = Text(text: string) | NotText

  // What one attempt meets: no client, a failed prompt, a reply that is not a JSON object, or an object.
  datatype Outcome = NoClient(message: string) | PromptFailed(message: string) | Garbled(message: string)
    | Reply(values: map<string, Value>)

  datatype ReplyError = MissingTranslation(key: string) | PlaceholderMismatch(keys: seq<string>)

  type Translations = JsMap.Map<string, string>

  // ----- checking a reply

  predicate IsBlank(value: string) {
    Trim(value) == []
  }

  predicate HasTranslation(values: map<string, Value>, key: string) {
    key in values && values[key].Text? && !IsBlank(values[key].text)
  }

  predicate Complete(values: map<string, Value>, items: Batch) {
    forall i :: 0 <= i < |items| ==> HasTranslation(values, items[i].key)
  }

  function FirstMissing(values: map<string, Value>, items: Batch): Option<string> {
    if items == [] then None
    else if !HasTranslation(values, items[0].key) then Some(items[0].key)
    else FirstMissing(values, items[1..])
  }

  function Translated(values: map<string, Value>, items: Batch): Translations
    requires Complete(values, items)
  {
    if items == [] then JsMap.Empty()
    else
      var last := items[|items| - 1];
      assert HasTranslation(values, last.key);
      Translated(values, items[..|items| - 1]).Set(last.key, values[last.key].text)
  }

  // The source text of each key; of several items with one key, the last counts.
  function SourceTexts(items: Batch): Translations {
    if items == [] then JsMap.Empty()
    else var last := items[|items| - 1]; SourceTexts(items[..|items| - 1]).Set(last.key, last.text)
  }

  // The keys, in source order, whose translation does not carry the source's placeholders.
  function Mismatches(keys: seq<string>, source: map<string, string>, translated: map<string, string>): seq<string>
    requires forall k :: k in keys ==> k in source
  {
    if keys == [] then []
    else
      var n := |keys| - 1;
      var translation := if keys[n] in translated then translated[keys[n]] else "";
      Mismatches(keys[..n], source, translated)
        + if ExtractPlaceholders(source[keys[n]]) != ExtractPlaceholders(translation) then [keys[n]] else []
  }

  method FindPlaceholderMismatches(source: Translations, translated: Translations) returns (mismatches: seq<string>)
    requires source.Valid()
    ensures mismatches == Mismatches(source.keys, source.values, translated.values)
    ensures mismatches == [] <==> forall k :: k in source.values ==>
      SamePlaceholders(source.values[k], translated.Get(k).GetOr(""))
  {
    mismatches := [];
    for i := 0 to |source.keys|
      invariant mismatches == Mismatches(source.keys[..i], source.values, translated.values)
    {
      var key := source.keys[i];
      Sequences.TakeOneMore(source.keys, i);
      MismatchOneMore(source.keys[..i], key, source.values, translated.values);
      if ExtractPlaceholders(source.values[key]) != ExtractPlaceholders(translated.Get(key).GetOr("")) {
        mismatches := mismatches + [key];
      }
    }
    assert source.keys[..|source.keys|] == source.keys;
    NothingMismatches(source, translated);
  }

  lemma NothingMismatches(source: Translations, translated: Translations)
    requires source.Valid()
    ensures Mismatches(source.keys, source.values, translated.values) == [] <==>
      forall k :: k in source.values ==> SamePlaceholders(source.values[k], translated.Get(k).GetOr(""))
  {
    NoMismatchesIff(source.keys, source.values, translated.values);
  }

  lemma MismatchOneMore(keys: seq<string>, key: string, source: map<string, string>, translated: map<string, string>)
    requires (forall k :: k in keys ==> k in source) && key in source
    ensures (forall k :: k in keys + [key] ==> k in source)
    ensures Mismatches(keys + [key], source, translated) == Mismatches(keys, source, translated)
      + if ExtractPlaceholders(source[key]) != ExtractPlaceholders(if key in translated then translated[key] else "")
        then [key] else []
  {
    assert (keys + [key])[..|keys|] == keys;
  }

  lemma {:induction false} NoMismatchesIff(keys: seq<string>, source: map<string, string>,
      translated: map<string, string>)
    requires forall k :: k in keys ==> k in source
    ensures Mismatches(keys, source, translated) == [] <==>
      forall k :: k in keys ==> SamePlaceholders(source[k], if k in translated then translated[k] else "")
  {
    if keys != [] {
      var n := |keys| - 1;
      assert keys == keys[..n] + [keys[n]];
      NoMismatchesIff(keys[..n], source, translated);
      ComparingExtractsComparesSets(source[keys[n]], if keys[n] in translated then translated[keys[n]] else "");
    }
  }

  function ParseReply(values: map<string, Value>, items: Batch): Result<Translations, ReplyError> {
    var missing := FirstMissing(values, items);
    if missing.Some? then Throws(MissingTranslation(missing.value))
    else
      NothingMissing(values, items);
      SourceTextsAreKeyed(items);
      var translated := Translated(values, items);
      var mismatches := Mismatches(SourceTexts(items).keys, SourceTexts(items).values, translated.values);
      if mismatches != [] then Throws(PlaceholderMismatch(mismatches)) else Ok(translated)
  }

  lemma {:induction false} NothingMissing(values: map<string, Value>, items: Batch)
    ensures FirstMissing(values, items).None? <==> Complete(values, items)
  {
    if items != [] {
      NothingMissing(values, items[1..]);
      assert forall i :: 0 < i < |items| ==> items[i] == items[1..][i - 1];
    }
  }

  method ParseTranslationBatchReply(values: map<string, Value>, items: Batch)
    returns (result: Result<Translations, ReplyError>)
    ensures result == ParseReply(values, items)
  {
    var translated: Translations := JsMap.Empty();
    assert items[..0] == [];
    for i := 0 to |items|
      invariant Complete(values, items[..i])
      invariant translated == Translated(values, items[..i])
    {
      var key := items[i].key;
      assert items[..i + 1] == items[..i] + [items[i]];
      if key !in values || !values[key].Text? || IsBlank(values[key].text) {
        FirstMissingIs(values, items, i);
        return Throws(MissingTranslation(key));
      }
      TranslatedOneMore(values, items[..i], items[i]);
      translated := translated.Set(key, values[key].text);
    }
    assert items[..|items|] == items;
    NothingMissing(values, items);
    SourceTextsAreKeyed(items);
    var mismatches := FindPlaceholderMismatches(SourceTexts(items), translated);
    if mismatches != [] {
      return Throws(PlaceholderMismatch(mismatches));
    }
    return Ok(translated);
  }

  lemma TranslatedOneMore(values: map<string, Value>, items: Batch, item: Item)
    requires Complete(values, items) && HasTranslation(values, item.key)
    ensures Complete(values, items + [item])
    ensures Translated(values, items + [item]) == Translated(values, items).Set(item.key, values[item.key].text)
  {
    assert (items + [item])[..|items|] == items;
  }

  lemma {:induction false} FirstMissingIs(values: map<string, Value>, items: Batch, i: nat)
    requires i < |items| && !HasTranslation(values, items[i].key)
    requires Complete(values, items[..i])
    ensures FirstMissing(values, items) == Some(items[i].key)
  {
    if i > 0 {
      var later := items[1..][..i - 1];
      assert items[..i] == [items[0]] + later;
      assert HasTranslation(values, items[..i][0].key);
      forall k | 0 <= k < |later| ensures HasTranslation(values, later[k].key) {
        assert later[k] == items[..i][k + 1];
      }
      FirstMissingIs(values, items[1..], i - 1);
    }
  }

  // ----- what a translated batch is

  function KeysOf(items: Batch): seq<string> {
    seq(|items|, i requires 0 <= i < |items| => items[i].key)
  }

  // The text a key stands for: that of the last item with the key.
  function TextOf(items: Batch, key: string): Option<string> {
    if items == [] then None
    else
      var last := items[|items| - 1];
      if last.key == key then Some(last.text) else TextOf(items[..|items| - 1], key)
  }

  /** The map has the items' keys in order and, for each, a non-blank value with its source's placeholders. */
  ghost predicate Translates(m: Translations, items: Batch) {
    && m.Valid() && m.keys == Dedupe(KeysOf(items))
    && forall k :: k in m.values ==>
         !IsBlank(m.values[k]) && TextOf(items, k).Some? && SamePlaceholders(TextOf(items, k).value, m.values[k])
  }

  lemma KeysOfInit(items: Batch)
    requires items != []
    ensures KeysOf(items) == KeysOf(items[..|items| - 1]) + [items[|items| - 1].key]
    ensures KeysOf(items)[..|items| - 1] == KeysOf(items[..|items| - 1])
  {
  }

  lemma {:induction false} SourceTextsAreKeyed(items: Batch)
    ensures SourceTexts(items).Valid() && SourceTexts(items).keys == Dedupe(KeysOf(items))
    ensures forall k :: SourceTexts(items).Get(k) == TextOf(items, k)
  {
    if items != [] {
      var init, last := items[..|items| - 1], items[|items| - 1];
      SourceTextsAreKeyed(init);
      KeysOfInit(items);
      SourceTexts(init).SetKeepsValid(last.key, last.text);
    }
  }

  lemma {:induction false} DistinctStay<T(!new)>(s: seq<T>)
    requires JsMap.Distinct(s)
    ensures Dedupe(s) == s
  {
    if s != [] {
      var init, last := s[..|s| - 1], s[|s| - 1];
      DistinctStay(init);
      assert last !in init && s == init + [last];
    }
  }

  lemma {:induction false} OwnText(items: Batch, i: nat)
    requires i < |items| && forall j :: i < j < |items| ==> items[j].key != items[i].key
    ensures TextOf(items, items[i].key) == Some(items[i].text)
  {
    if i < |items| - 1 { OwnText(items[..|items| - 1], i); }
  }

  /** With distinct keys each item stands for itself and no key is lost. */
  lemma DistinctKeys(items: Batch, i: nat)
    requires JsMap.Distinct(KeysOf(items)) && i < |items|
    ensures TextOf(items, items[i].key) == Some(items[i].text)
    ensures Dedupe(KeysOf(items)) == KeysOf(items)
  {
    var keys := KeysOf(items);
    assert forall j :: 0 <= j < |items| ==> keys[j] == items[j].key;
    OwnText(items, i);
    DistinctStay(keys);
  }

  lemma {:induction false} TranslatedIsKeyed(values: map<string, Value>, items: Batch)
    requires Complete(values, items)
    ensures Translated(values, items).Valid() && Translated(values, items).keys == Dedupe(KeysOf(items))
    ensures forall k :: k in Translated(values, items).values ==>
      HasTranslation(values, k) && Translated(values, items).values[k] == values[k].text
  {
    if items != [] {
      var init, last := items[..|items| - 1], items[|items| - 1];
      TranslatedIsKeyed(values, init);
      KeysOfInit(items);
      Translated(values, init).SetKeepsValid(last.key, values[last.key].text);
    }
  }

  // No mismatch was found among the collected translations.
  lemma NoMismatchMeansParity(values: map<string, Value>, items: Batch)
    requires Complete(values, items) && SourceTexts(items).Valid()
    ensures Mismatches(SourceTexts(items).keys, SourceTexts(items).values, Translated(values, items).values) == [] <==>
      forall k :: TextOf(items, k).Some? ==>
        HasTranslation(values, k) && SamePlaceholders(TextOf(items, k).value, values[k].text)
  {
    var source, translated := SourceTexts(items), Translated(values, items);
    SourceTextsAreKeyed(items);
    TranslatedIsKeyed(values, items);
    NoMismatchesIff(source.keys, source.values, translated.values);
    forall k
      ensures TextOf(items, k).Some? <==> k in source.keys
      ensures k in source.keys ==> k in translated.values && TextOf(items, k) == Some(source.values[k])
    {
      assert source.Get(k) == TextOf(items, k);
      assert k in source.keys <==> k in translated.keys;
    }
  }

  /** A reply is accepted exactly when every item has a non-blank string with its source's placeholders. */
  lemma ReplyIsAcceptedIff(values: map<string, Value>, items: Batch)
    ensures ParseReply(values, items).Ok? <==>
      && Complete(values, items)
      && forall k :: TextOf(items, k).Some? ==>
        HasTranslation(values, k) && SamePlaceholders(TextOf(items, k).value, values[k].text)
  {
    NothingMissing(values, items);
    SourceTextsAreKeyed(items);
    if Complete(values, items) { NoMismatchMeansParity(values, items); }
  }

  lemma AcceptedReplyTranslates(values: map<string, Value>, items: Batch)
    requires ParseReply(values, items).Ok?
    ensures Translates(ParseReply(values, items).value, items)
    ensures var m := ParseReply(values, items).value;
      forall k :: k in m.values ==> k in values && values[k] == Text(m.values[k])
  {
    ReplyIsAcceptedIff(values, items);
    SourceTextsAreKeyed(items);
    TranslatedIsKeyed(values, items);
    var m := Translated(values, items);
    forall k | k in m.values
      ensures !IsBlank(m.values[k]) && TextOf(items, k).Some? && SamePlaceholders(TextOf(items, k).value, m.values[k])
    {
      assert k in m.keys && k in SourceTexts(items).keys;
      assert SourceTexts(items).Get(k) == TextOf(items, k);
    }
  }

  // ----- which error a reply has

  // The reply has a text under the key, and not only white space.
  ghost predicate Answers(values: map<string, Value>, key: string) {
    key in values && values[key].Text? && Trim(values[key].text) != ""
  }

  /** The first item without an answer is the one reported. */
  lemma MissingIs(values: map<string, Value>, items: Batch, i: nat)
    requires i < |items| && !Answers(values, items[i].key)
    requires forall j :: 0 <= j < i ==> Answers(values, items[j].key)
    ensures ParseReply(values, items) == Throws(MissingTranslation(items[i].key))
  {
    FirstMissingIs(values, items, i);
  }

  lemma {:induction false} MismatchesAre(keys: seq<string>, source: map<string, string>,
      translated: map<string, string>)
    requires forall k :: k in keys ==> k in source
    ensures var m := Mismatches(keys, source, translated);
      && (forall k :: k in m <==>
        k in keys && !SamePlaceholders(source[k], if k in translated then translated[k] else ""))
      && (forall a, b :: 0 <= a < b < |m| ==> Sequences.Precedes(keys, m[a], m[b]))
  {
    if keys != [] {
      var init, last := keys[..|keys| - 1], keys[|keys| - 1];
      var before, m := Mismatches(init, source, translated), Mismatches(keys, source, translated);
      MismatchesAre(init, source, translated);
      ComparingExtractsComparesSets(source[last], if last in translated then translated[last] else "");
      Sequences.MembersOfInit(keys);
      forall a, b | 0 <= a < b < |m| ensures Sequences.Precedes(keys, m[a], m[b]) {
        assert m[a] == before[a] && before[a] in before;
        Sequences.PrecedesInInit(keys, m[a], m[b]);
      }
    }
  }

  /** With every item answered, the error names exactly the keys whose translation changes the placeholders, in the
      order of the items. */
  lemma MismatchIs(values: map<string, Value>, items: Batch)
    requires Complete(values, items) && ParseReply(values, items).Throws?
    ensures var error := ParseReply(values, items).error;
      && error.PlaceholderMismatch?
      && (forall k :: k in error.keys <==>
        TextOf(items, k).Some? && !(Answers(values, k) && SamePlaceholders(TextOf(items, k).value, values[k].text)))
      && (forall a, b :: 0 <= a < b < |error.keys| ==>
        Sequences.Precedes(Dedupe(KeysOf(items)), error.keys[a], error.keys[b]))
  {
    NothingMissing(values, items);
    SourceTextsAreKeyed(items);
    TranslatedIsKeyed(values, items);
    var source, translated := SourceTexts(items), Translated(values, items);
    MismatchesAre(source.keys, source.values, translated.values);
    forall k ensures TextOf(items, k).Some? <==> k in source.keys {
      assert source.Get(k) == TextOf(items, k);
    }
    forall k | k in source.keys
      ensures k in translated.values && Answers(values, k) && translated.values[k] == values[k].text
      ensures source.values[k] == TextOf(items, k).value
    {
      assert k in translated.keys && source.Get(k) == TextOf(items, k);
      assert HasTranslation(values, k);
    }
  }

  // ----- retrying and halving

  type Provider = nat -> Outcome
  type Wording = ReplyError -> string

  const TRANSLATE_MAX_ATTEMPTS := 2

  function ToLower(s: string): string {
    seq(|s|, i requires 0 <= i < |s| => if 'A' <= s[i] <= 'Z' then (s[i] as int + 32) as char else s[i])
  }

  predicate IsPromptTimeout(message: string) {
    Contains(ToLower(message), "timed out")
  }

  function Attempt(outcome: Outcome, items: Batch, wording: Wording): Result<Translations, string> {
    match outcome
    case NoClient(message) => Throws(message)
    case PromptFailed(message) => Throws(message)
    case Garbled(message) => Throws(message)
    case Reply(values) =>
      match ParseReply(values, items)
      case Ok(translated) => Ok(translated)
      case Throws(error) => Throws(wording(error))
  }

  // What attempt number `at` makes of some items.
  type Attempts = (nat, Batch) -> Result<Translations, string>

  function AttemptsOf(provider: Provider, wording: Wording): Attempts {
    (at: nat, items: Batch) => Attempt(provider(at), items, wording)
  }

  // A claim about a translation of some items that survives joining two halves.
  type Claim = (Translations, Batch) -> bool

  ghost predicate Sound(tries: Attempts, claim: Claim) {
    forall at: nat, items: Batch :: tries(at, items).Ok? ==> claim(tries(at, items).value, items)
  }

  ghost predicate Joins(claim: Claim) {
    forall left, right, a, b :: claim(left, a) && claim(right, b) ==> claim(JsMap.Merge(left, right), a + b)
  }

  // The result of a batch and the number of attempts it took, bisected sub-batches included.
  datatype Run = Run(result: Result<Translations, string>, used: nat) {
    function After(before: nat): Run {
      Run(result, before + used)
    }
  }

  datatype Verdict = Finish | Halve | Retry

  // What follows attempt number `attempt` on n items.
  function Judge(tried: Result<Translations, string>, n: nat, attempt: nat): Verdict {
    if tried.Ok? then Finish
    else if IsPromptTimeout(tried.error) then (if n > 1 then Halve else Finish)
    else if attempt + 1 < TRANSLATE_MAX_ATTEMPTS then Retry
    else Finish
  }

  function Midpoint(items: Batch): nat {
    (|items| + 1) / 2
  }

  // The batch from attempt number `attempt` on; `at` counts the outcomes already consumed.
  function RunFrom(tries: Attempts, at: nat, items: Batch, attempt: nat): Run
    requires attempt < TRANSLATE_MAX_ATTEMPTS
    decreases |items|, TRANSLATE_MAX_ATTEMPTS - attempt
  {
    var tried := tries(at, items);
    match Judge(tried, |items|, attempt)
    case Finish => Run(tried, 1)
    case Halve => Halves(tries, at + 1, items).After(1)
    case Retry => RunFrom(tries, at + 1, items, attempt + 1).After(1)
  }

  function Halves(tries: Attempts, at: nat, items: Batch): Run
    requires |items| > 1
    decreases |items|, 0
  {
    var left := RunFrom(tries, at, items[..Midpoint(items)], 0);
    if left.result.Throws? then left
    else
      var right := RunFrom(tries, at + left.used, items[Midpoint(items)..], 0);
      if right.result.Throws? then right.After(left.used)
      else Run(Ok(JsMap.Merge(left.result.value, right.result.value)), left.used + right.used)
  }

  method TranslateBatch(tries: Attempts, at: nat, items: Batch) returns (run: Run)
    ensures run == RunFrom(tries, at, items, 0)
    ensures run.used <= if |items| == 0 then 2 else 4 * |items| - 2
    decreases |items|, 1
  {
    RunIsShort(tries, at, items, 0);
    ghost var whole := RunFrom(tries, at, items, 0);
    ghost var left := whole;
    var lastError: Option<string> := None;
    for attempt := 0 to TRANSLATE_MAX_ATTEMPTS
      invariant whole == left.After(attempt)
      invariant attempt < TRANSLATE_MAX_ATTEMPTS ==> left == RunFrom(tries, at + attempt, items, attempt)
      invariant attempt == TRANSLATE_MAX_ATTEMPTS ==> lastError.Some? && left == Run(Throws(lastError.value), 0)
    {
      var tried := tries(at + attempt, items);
      if tried.Ok? {
        return Run(tried, attempt + 1);
      }
      lastError := Some(tried.error);
      if IsPromptTimeout(tried.error) && |items| > 1 {
        var halves := TranslateHalves(tries, at + attempt + 1, items);
        return Run(halves.result, attempt + 1 + halves.used);
      }
      if IsPromptTimeout(tried.error) {
        return Run(tried, attempt + 1);
      }
      left := if attempt + 1 < TRANSLATE_MAX_ATTEMPTS then RunFrom(tries, at + attempt + 1, items, attempt + 1)
              else Run(tried, 0);
    }
    return Run(Throws(lastError.GetOr("translation failed")), TRANSLATE_MAX_ATTEMPTS);
  }

  // The two recursive calls after a timeout.
  method TranslateHalves(tries: Attempts, at: nat, items: Batch) returns (run: Run)
    requires |items| > 1
    ensures run == Halves(tries, at, items)
    decreases |items|, 0
  {
    var midpoint := Midpoint(items);
    var left := TranslateBatch(tries, at, items[..midpoint]);
    if left.result.Throws? {
      return left;
    }
    var right := TranslateBatch(tries, at + left.used, items[midpoint..]);
    if right.result.Throws? {
      return Run(right.result, left.used + right.used);
    }
    return Run(Ok(JsMap.Merge(left.result.value, right.result.value)), left.used + right.used);
  }

  /** Whatever the provider does, a batch of n items takes at most 4n - 2 attempts. */
  lemma {:induction false} RunIsShort(tries: Attempts, at: nat, items: Batch, attempt: nat)
    requires attempt < TRANSLATE_MAX_ATTEMPTS
    ensures 1 <= RunFrom(tries, at, items, attempt).used
    ensures RunFrom(tries, at, items, attempt).used
      <= TRANSLATE_MAX_ATTEMPTS - attempt + if |items| <= 1 then 0 else 4 * |items| - 4
    decreases |items|, TRANSLATE_MAX_ATTEMPTS - attempt
  {
    var tried := tries(at, items);
    match Judge(tried, |items|, attempt)
    case Finish =>
    case Halve => HalvesAreShort(tries, at + 1, items);
    case Retry => RunIsShort(tries, at + 1, items, attempt + 1);
  }

  lemma {:induction false} HalvesAreShort(tries: Attempts, at: nat, items: Batch)
    requires |items| > 1
    ensures 1 <= Halves(tries, at, items).used <= 4 * |items| - 4
    decreases |items|, 0
  {
    RunIsShort(tries, at, items[..Midpoint(items)], 0);
    var left := RunFrom(tries, at, items[..Midpoint(items)], 0);
    RunIsShort(tries, at + left.used, items[Midpoint(items)..], 0);
  }

  lemma {:induction false} TextOfConcat(a: Batch, b: Batch, key: string)
    ensures TextOf(a + b, key) == if TextOf(b, key).Some? then TextOf(b, key) else TextOf(a, key)
  {
    if b == [] {
      assert a + b == a;
    } else {
      assert (a + b)[..|a + b| - 1] == a + b[..|b| - 1];
      TextOfConcat(a, b[..|b| - 1], key);
    }
  }

  lemma {:induction false} TextOfKeys(items: Batch, key: string)
    ensures TextOf(items, key).Some? <==> key in KeysOf(items)
  {
    if items != [] {
      KeysOfInit(items);
      TextOfKeys(items[..|items| - 1], key);
    }
  }

  lemma {:induction false} UnseenAppend(keys: seq<string>, x: string, m: map<string, string>)
    ensures JsMap.Unseen(keys + [x], m) == JsMap.Unseen(keys, m) + if x in m then [] else [x]
  {
    if keys == [] {
      assert keys + [x] == [x];
    } else {
      assert (keys + [x])[1..] == keys[1..] + [x];
      UnseenAppend(keys[1..], x, m);
    }
  }

  lemma {:induction false} DedupeConcat(a: seq<string>, b: seq<string>, m: map<string, string>)
    requires forall k :: k in m <==> k in a
    ensures Dedupe(a + b) == Dedupe(a) + JsMap.Unseen(Dedupe(b), m)
  {
    if b == [] {
      assert a + b == a;
    } else {
      var init, last := b[..|b| - 1], b[|b| - 1];
      assert (a + b)[..|a + b| - 1] == a + init && (a + b)[|a + b| - 1] == last;
      DedupeConcat(a, init, m);
      UnseenAppend(Dedupe(init), last, m);
      UnseenMembers(Dedupe(init), m);
    }
  }

  lemma {:induction false} UnseenMembers(keys: seq<string>, m: map<string, string>)
    ensures forall k :: k in JsMap.Unseen(keys, m) <==> k in keys && k !in m
  {
    if keys != [] {
      UnseenMembers(keys[1..], m);
      assert keys == [keys[0]] + keys[1..];
    }
  }

  lemma MergedKeys(left: Translations, right: Translations, a: seq<string>, b: seq<string>)
    requires left.Valid() && left.keys == Dedupe(a) && right.keys == Dedupe(b)
    ensures JsMap.Merge(left, right).keys == Dedupe(a + b)
  {
    forall k ensures k in left.values <==> k in a {
      assert k in left.keys <==> k in a;
    }
    DedupeConcat(a, b, left.values);
  }

  // Merging two maps keeps both sets of keys, in order.
  lemma HalvesAreKeyed(left: Translations, right: Translations, a: seq<string>, b: seq<string>)
    requires left.Valid() && right.Valid() && left.keys == Dedupe(a) && right.keys == Dedupe(b)
    ensures JsMap.Merge(left, right).Valid() && JsMap.Merge(left, right).keys == Dedupe(a + b)
  {
    var m := JsMap.Merge(left, right);
    MergedKeys(left, right, a, b);
    assert JsMap.Distinct(m.keys);
    UnseenMembers(right.keys, left.values);
  }

  // A relation between source texts and translations.
  type Parity = (Option<string>, string) -> bool

  ghost predicate Obeys(parity: Parity, m: Translations, items: Batch) {
    forall k :: k in m.values ==> parity(TextOf(items, k), m.values[k])
  }

  // Merging takes the translation and the source text of a key from the same half.
  lemma HalvesObey(parity: Parity, left: Translations, right: Translations, a: Batch, b: Batch)
    requires Obeys(parity, left, a) && Obeys(parity, right, b)
    requires right.Valid() && right.keys == Dedupe(KeysOf(b))
    ensures Obeys(parity, JsMap.Merge(left, right), a + b)
  {
    forall k | k in JsMap.Merge(left, right).values
      ensures parity(TextOf(a + b, k), JsMap.Merge(left, right).values[k])
    {
      TextOfConcat(a, b, k);
      TextOfKeys(b, k);
      assert k in right.values <==> k in right.keys;
    }
  }

  ghost predicate IsKeyed(m: Translations, items: Batch) {
    m.Valid() && m.keys == Dedupe(KeysOf(items))
  }

  lemma HalvesAreOne(parity: Parity, left: Translations, right: Translations, a: Batch, b: Batch)
    requires IsKeyed(left, a) && IsKeyed(right, b) && Obeys(parity, left, a) && Obeys(parity, right, b)
    ensures IsKeyed(JsMap.Merge(left, right), a + b) && Obeys(parity, JsMap.Merge(left, right), a + b)
  {
    HalvesObey(parity, left, right, a, b);
    assert IsKeyed(JsMap.Merge(left, right), a + b) by {
      KeysOfConcat(a, b);
      HalvesAreKeyed(left, right, KeysOf(a), KeysOf(b));
    }
  }

  lemma KeysOfConcat(a: Batch, b: Batch)
    ensures KeysOf(a + b) == KeysOf(a) + KeysOf(b)
  {
  }

  ghost predicate IsParity(parity: Parity) {
    forall text: Option<string>, value: string ::
      parity(text, value) <==> !IsBlank(value) && text.Some? && SamePlaceholders(text.value, value)
  }

  lemma TranslatesMeans(m: Translations, items: Batch, parity: Parity)
    requires IsParity(parity)
    ensures Translates(m, items) <==> IsKeyed(m, items) && Obeys(parity, m, items)
  {
  }

  lemma HalvesTranslateBy(parity: Parity, left: Translations, right: Translations, a: Batch, b: Batch)
    requires IsParity(parity) && Translates(left, a) && Translates(right, b)
    ensures Translates(JsMap.Merge(left, right), a + b)
  {
    TranslatesMeans(left, a, parity);
    TranslatesMeans(right, b, parity);
    HalvesAreOne(parity, left, right, a, b);
    TranslatesMeans(JsMap.Merge(left, right), a + b, parity);
  }

  lemma HalvesTranslate(left: Translations, right: Translations, a: Batch, b: Batch)
    requires Translates(left, a) && Translates(right, b)
    ensures Translates(JsMap.Merge(left, right), a + b)
  {
    var parity: Parity := (text: Option<string>, value: string) => !IsBlank(value) && text.Some? &&
      SamePlaceholders(text.value, value);
    assert IsParity(parity);
    HalvesTranslateBy(parity, left, right, a, b);
  }

  // What holds of every accepted reply holds of every successful run.
  lemma {:induction false} SuccessMeets(tries: Attempts, claim: Claim, at: nat, items: Batch, attempt: nat)
    requires Sound(tries, claim) && Joins(claim) && attempt < TRANSLATE_MAX_ATTEMPTS
    ensures var run := RunFrom(tries, at, items, attempt); run.result.Ok? ==> claim(run.result.value, items)
    decreases |items|, TRANSLATE_MAX_ATTEMPTS - attempt
  {
    var tried := tries(at, items);
    match Judge(tried, |items|, attempt)
    case Finish =>
    case Halve => HalvesMeet(tries, claim, at + 1, items);
    case Retry => SuccessMeets(tries, claim, at + 1, items, attempt + 1);
  }

  lemma {:induction false} HalvesMeet(tries: Attempts, claim: Claim, at: nat, items: Batch)
    requires Sound(tries, claim) && Joins(claim) && |items| > 1
    ensures var run := Halves(tries, at, items); run.result.Ok? ==> claim(run.result.value, items)
    decreases |items|, 0
  {
    var a, b := items[..Midpoint(items)], items[Midpoint(items)..];
    var left := RunFrom(tries, at, a, 0);
    SuccessMeets(tries, claim, at, a, 0);
    if left.result.Ok? {
      SuccessMeets(tries, claim, at + left.used, b, 0);
      assert items == a + b;
    }
  }

  // Attempt number `at` was made on some slice of the items and had this result.
  ghost predicate FailedOn(tries: Attempts, at: nat, items: Batch, result: Result<Translations, string>) {
    exists i, j :: 0 <= i <= j <= |items| && tries(at, items[i..j]) == result
  }

  lemma FailedOnPart(tries: Attempts, at: nat, before: Batch, part: Batch, after: Batch,
      result: Result<Translations, string>)
    requires FailedOn(tries, at, part, result)
    ensures FailedOn(tries, at, before + part + after, result)
  {
    var i, j :| 0 <= i <= j <= |part| && tries(at, part[i..j]) == result;
    assert (before + part + after)[|before| + i..|before| + j] == part[i..j];
  }

  /** A failed run reports the error of the very last attempt, made on some slice of the items. */
  lemma {:induction false} FailureIsTheLastError(tries: Attempts, at: nat, items: Batch, attempt: nat)
    requires attempt < TRANSLATE_MAX_ATTEMPTS
    ensures var run := RunFrom(tries, at, items, attempt);
      run.used >= 1 && (run.result.Throws? ==> FailedOn(tries, at + run.used - 1, items, run.result))
    decreases |items|, TRANSLATE_MAX_ATTEMPTS - attempt
  {
    var tried := tries(at, items);
    assert items[0..|items|] == items;
    match Judge(tried, |items|, attempt)
    case Finish =>
    case Halve => HalvesReportTheLastError(tries, at + 1, items);
    case Retry => FailureIsTheLastError(tries, at + 1, items, attempt + 1);
  }

  lemma {:induction false} HalvesReportTheLastError(tries: Attempts, at: nat, items: Batch)
    requires |items| > 1
    ensures var run := Halves(tries, at, items);
      run.used >= 1 && (run.result.Throws? ==> FailedOn(tries, at + run.used - 1, items, run.result))
    decreases |items|, 0
  {
    var a, b := items[..Midpoint(items)], items[Midpoint(items)..];
    var left := RunFrom(tries, at, a, 0);
    FailureIsTheLastError(tries, at, a, 0);
    assert items == [] + a + b && items == a + b + [];
    if left.result.Throws? {
      FailedOnPart(tries, at + left.used - 1, [], a, b, left.result);
    } else {
      var right := RunFrom(tries, at + left.used, b, 0);
      FailureIsTheLastError(tries, at + left.used, b, 0);
      if right.result.Throws? {
        FailedOnPart(tries, at + left.used + right.used - 1, a, b, [], right.result);
      }
    }
  }

  /** For every provider: a bounded number of prompts, and a result that is a translation of exactly these items. */
  lemma EveryProvider(provider: Provider, wording: Wording, items: Batch)
    requires items != []
    ensures var run := RunFrom(AttemptsOf(provider, wording), 0, items, 0);
      run.used <= 4 * |items| - 2 && (run.result.Ok? ==> Translates(run.result.value, items))
  {
    var tries := AttemptsOf(provider, wording);
    RunIsShort(tries, 0, items, 0);
    var claim: Claim := (m, batch) => Translates(m, batch);
    assert Sound(tries, claim) by {
      forall at: nat, batch: Batch | tries(at, batch).Ok? ensures claim(tries(at, batch).value, batch) {
        AcceptedOutcomeTranslates(provider(at), batch, wording);
      }
    }
    assert Joins(claim) by {
      forall left, right, a, b | claim(left, a) && claim(right, b) ensures claim(JsMap.Merge(left, right), a + b) {
        HalvesTranslate(left, right, a, b);
      }
    }
    SuccessMeets(tries, claim, 0, items, 0);
  }

  // The outcome is a reply that has this text under the key.
  ghost predicate Says(outcome: Outcome, key: string, text: string) {
    outcome.Reply? && key in outcome.values && outcome.values[key] == Text(text)
  }

  // Every value was said in reply to one of `used` attempts from number `at` on.
  ghost predicate WasSaid(provider: Provider, at: nat, used: nat, m: Translations) {
    forall k :: k in m.values ==> exists j: nat :: at <= j < at + used && Says(provider(j), k, m.values[k])
  }

  ghost predicate WereSaid(provider: Provider, at: nat, run: Run) {
    run.result.Ok? ==> WasSaid(provider, at, run.used, run.result.value)
  }

  lemma SaidLonger(provider: Provider, at: nat, used: nat, m: Translations, from: nat, more: nat)
    requires WasSaid(provider, at, used, m) && from <= at && at + used <= from + more
    ensures WasSaid(provider, from, more, m)
  {
    forall k | k in m.values ensures exists j: nat :: from <= j < from + more && Says(provider(j), k, m.values[k]) {
      var j: nat :| at <= j < at + used && Says(provider(j), k, m.values[k]);
    }
  }

  lemma BothWereSaid(provider: Provider, at: nat, used: nat, left: Translations, right: Translations)
    requires WasSaid(provider, at, used, left) && WasSaid(provider, at, used, right)
    ensures WasSaid(provider, at, used, JsMap.Merge(left, right))
  {
    var m := JsMap.Merge(left, right);
    forall k | k in m.values ensures exists j: nat :: at <= j < at + used && Says(provider(j), k, m.values[k]) {
      if k in right.values {
        var j: nat :| at <= j < at + used && Says(provider(j), k, right.values[k]);
        assert Says(provider(j), k, m.values[k]);
      } else {
        var j: nat :| at <= j < at + used && Says(provider(j), k, left.values[k]);
        assert Says(provider(j), k, m.values[k]);
      }
    }
  }

  lemma AttemptWasSaid(provider: Provider, wording: Wording, at: nat, items: Batch)
    requires Attempt(provider(at), items, wording).Ok?
    ensures WasSaid(provider, at, 1, Attempt(provider(at), items, wording).value)
  {
    var m := Attempt(provider(at), items, wording).value;
    AcceptedReplyTranslates(provider(at).values, items);
    assert forall k :: k in m.values ==> Says(provider(at), k, m.values[k]);
  }

  // Both halves, one after the other.
  lemma JoinedWereSaid(provider: Provider, at: nat, left: Run, right: Run)
    requires left.result.Ok? && right.result.Ok?
    requires WasSaid(provider, at, left.used, left.result.value)
    requires WasSaid(provider, at + left.used, right.used, right.result.value)
    ensures WasSaid(provider, at, left.used + right.used, JsMap.Merge(left.result.value, right.result.value))
  {
    SaidLonger(provider, at, left.used, left.result.value, at, left.used + right.used);
    SaidLonger(provider, at + left.used, right.used, right.result.value, at, left.used + right.used);
    BothWereSaid(provider, at, left.used + right.used, left.result.value, right.result.value);
  }

  /** Every value of a successful run is the text some reply of the run has under its key. */
  lemma {:induction false} ValuesWereSaid(provider: Provider, wording: Wording, at: nat, items: Batch, attempt: nat)
    requires attempt < TRANSLATE_MAX_ATTEMPTS
    ensures WereSaid(provider, at, RunFrom(AttemptsOf(provider, wording), at, items, attempt))
    decreases |items|, TRANSLATE_MAX_ATTEMPTS - attempt
  {
    var tries := AttemptsOf(provider, wording);
    var tried, run := tries(at, items), RunFrom(tries, at, items, attempt);
    match Judge(tried, |items|, attempt)
    case Finish =>
      if tried.Ok? { AttemptWasSaid(provider, wording, at, items); }
    case Halve =>
      HalvesWereSaid(provider, wording, at + 1, items);
      if run.result.Ok? { SaidLonger(provider, at + 1, run.used - 1, run.result.value, at, run.used); }
    case Retry =>
      ValuesWereSaid(provider, wording, at + 1, items, attempt + 1);
      if run.result.Ok? { SaidLonger(provider, at + 1, run.used - 1, run.result.value, at, run.used); }
  }

  // The run on two halves, from the runs on each.
  lemma HalvesAre(tries: Attempts, at: nat, items: Batch, left: Run, right: Run)
    requires |items| > 1 && left == RunFrom(tries, at, items[..Midpoint(items)], 0)
    requires left.result.Ok? ==> right == RunFrom(tries, at + left.used, items[Midpoint(items)..], 0)
    ensures Halves(tries, at, items) ==
      if left.result.Throws? then left
      else if right.result.Throws? then right.After(left.used)
      else Run(Ok(JsMap.Merge(left.result.value, right.result.value)), left.used + right.used)
  {
  }

  lemma {:induction false} HalvesWereSaid(provider: Provider, wording: Wording, at: nat, items: Batch)
    requires |items| > 1
    ensures WereSaid(provider, at, Halves(AttemptsOf(provider, wording), at, items))
    decreases |items|, 0
  {
    var tries := AttemptsOf(provider, wording);
    var a, b := items[..Midpoint(items)], items[Midpoint(items)..];
    var left := RunFrom(tries, at, a, 0);
    ValuesWereSaid(provider, wording, at, a, 0);
    var right := if left.result.Ok? then RunFrom(tries, at + left.used, b, 0) else left;
    HalvesAre(tries, at, items, left, right);
    if left.result.Ok? {
      ValuesWereSaid(provider, wording, at + left.used, b, 0);
      if right.result.Ok? { JoinedWereSaid(provider, at, left, right); }
    }
  }

  /** A message is that of a timeout exactly when `timed out` stands somewhere in it, in letters of either case. */
  lemma PromptTimeoutIff(message: string)
    ensures IsPromptTimeout(message) <==> exists i: nat :: SaysTimedOutAt(message, i)
  {
    var lower := ToLower(message);
    ContainsIff(lower, "timed out");
    forall i: nat ensures StandsAt(lower, i, "timed out") <==> SaysTimedOutAt(message, i) {
      if i + 9 <= |message| {
        assert StandsAt(lower, i, "timed out") <==> forall j :: 0 <= j < 9 ==> lower[i..i + 9][j] == "timed out"[j];
      }
    }
  }

  ghost predicate SaysTimedOutAt(message: string, i: nat) {
    i + 9 <= |message| && forall j :: 0 <= j < 9 ==>
      var c := message[i + j];
      "timed out"[j] == if 'A' <= c <= 'Z' then (c as int - 'A' as int + 'a' as int) as char else c
  }

  lemma AcceptedOutcomeTranslates(outcome: Outcome, items: Batch, wording: Wording)
    requires Attempt(outcome, items, wording).Ok?
    ensures Translates(Attempt(outcome, items, wording).value, items)
  {
    AcceptedReplyTranslates(outcome.values, items);
  }

  // A provider that fails, then times out, until it is asked for a single item, which it echoes.
  function StubbornOutcome(at: nat, items: Batch): Outcome {
    if at % 2 == 0 then PromptFailed("")
    else if |items| != 1 then PromptFailed("timed out")
    else Reply(map[items[0].key := Text(items[0].text)])
  }

  function Stubborn(wording: Wording): Attempts {
    (at: nat, items: Batch) => Attempt(StubbornOutcome(at, items), items, wording)
  }

  lemma StubbornMessages()
    ensures IsPromptTimeout("timed out") && !IsPromptTimeout("")
  {
    assert ToLower("timed out") == "timed out";
    assert "timed out"[..9] == "timed out";
  }

  lemma EchoIsAccepted(items: Batch, wording: Wording)
    requires |items| == 1 && !IsBlank(items[0].text)
    ensures Attempt(Reply(map[items[0].key := Text(items[0].text)]), items, wording).Ok?
  {
    var values := map[items[0].key := Text(items[0].text)];
    assert HasTranslation(values, items[0].key);
    forall k | TextOf(items, k).Some? ensures k == items[0].key && TextOf(items, k).value == items[0].text {
      assert TextOf(items[..0], k).None?;
    }
    ReplyIsAcceptedIff(values, items);
  }

  // What the stubborn provider makes of a batch that is tried for the first time.
  lemma StubbornRun(at: nat, items: Batch, wording: Wording)
    requires at % 2 == 0 && items != [] && forall i :: 0 <= i < |items| ==> !IsBlank(items[i].text)
    ensures var run := RunFrom(Stubborn(wording), at, items, 0);
      if |items| > 1 then run == Halves(Stubborn(wording), at + 2, items).After(2) else run.used == 2 && run.result.Ok?
  {
    var tries := Stubborn(wording);
    StubbornMessages();
    var first, second := tries(at, items), tries(at + 1, items);
    assert Judge(first, |items|, 0) == Retry;
    assert RunFrom(tries, at, items, 0) == RunFrom(tries, at + 1, items, 1).After(1);
    if |items| > 1 {
      assert Judge(second, |items|, 1) == Halve;
    } else {
      EchoIsAccepted(items, wording);
      assert Judge(second, |items|, 1) == Finish;
    }
  }

  /** The bound is attained for every number of items. */
  lemma {:induction false} BoundIsAttained(at: nat, items: Batch, wording: Wording)
    requires at % 2 == 0 && items != [] && forall i :: 0 <= i < |items| ==> !IsBlank(items[i].text)
    ensures var run := RunFrom(Stubborn(wording), at, items, 0); run.used == 4 * |items| - 2 && run.result.Ok?
    decreases |items|
  {
    StubbornRun(at, items, wording);
    if |items| > 1 {
      BoundOfHalves(Stubborn(wording), at + 2, items, wording);
    }
  }

  lemma {:induction false} BoundOfHalves(tries: Attempts, at: nat, items: Batch, wording: Wording)
    requires tries == Stubborn(wording)
    requires at % 2 == 0 && |items| > 1 && forall i :: 0 <= i < |items| ==> !IsBlank(items[i].text)
    ensures var run := Halves(tries, at, items); run.used == 4 * |items| - 4 && run.result.Ok?
    decreases |items|, 0
  {
    var a, b := items[..Midpoint(items)], items[Midpoint(items)..];
    BoundIsAttained(at, a, wording);
    var left := RunFrom(tries, at, a, 0);
    BoundIsAttained(at + left.used, b, wording);
  }
}
