/** Keeping a checked-in Android translation whose inventory entries are gone, from one synchronisation to the next. */
module GeneratedResources {
  import opened Results
  import opened Text
  import opened KotlinInterpolation
  import opened AndroidEscaping
  import opened AndroidRender
  import opened TranslationSelection

  datatype Existing = Existing(source: string, translation: string)

  function Candidates(source: string, artifactTranslations: seq<string>, existing: Option<Existing>): seq<string> {
    if |artifactTranslations| > 0 then artifactTranslations
    else if existing.Some? && existing.value.source == source && existing.value.translation != source
    then [existing.value.translation]
    else []
  }

  method SelectGeneratedTranslation(source: string, artifactTranslations: seq<string>, existing: Option<Existing>)
    returns (selected: string)
    ensures artifactTranslations != [] ==> IsBest(source, artifactTranslations, selected)
    ensures artifactTranslations == [] ==>
      selected == if existing.Some? && existing.value.source == source && existing.value.translation != source
                  then existing.value.translation else ""
  {
    if existing.Some? { OnlyCandidate(source, existing.value.translation); }
    selected := SelectDeterministicTranslation(source, Candidates(source, artifactTranslations, existing));
  }

  lemma OnlyCandidate(source: string, value: string)
    ensures AndroidChoice(source, [value]) == value
    ensures AndroidChoice(source, []) == ""
  {
    AndroidPicksBest(source, [value]);
  }

  // ----- one synchronisation after another

  // A managed resource as it is written for a source and its value.
  function Written(source: string, value: string): string
    requires Template(source, value).Ok?
  {
    "\"" + EscapeAndroidResourceValue(Template(source, value).value) + "\""
  }

  // What is read back from the base resource and from the translated one.
  function ReadBack(base: string, translated: string): Option<Existing> {
    var existingSource, existingTranslation := DecodeAndroidResourceValue(base), DecodeAndroidResourceValue(translated);
    if existingSource != "" && existingTranslation != "" then Some(Existing(existingSource, existingTranslation))
    else None
  }

  // The value written next for a source.
  function NextValue(source: string, artifactTranslations: seq<string>, base: string, translated: string): string {
    var selected := AndroidChoice(source, Candidates(source, artifactTranslations, ReadBack(base, translated)));
    if selected != "" then selected else source
  }

  // ----- doubling percent signs changes a text before its first interpolation

  // Somewhere a has a percent sign and b has another character.
  ghost predicate Exceeds(a: string, b: string) {
    exists i: nat :: ExceedsAt(a, b, i)
  }

  predicate ExceedsAt(a: string, b: string, i: nat) {
    i < |a| && i < |b| && a[i] == '%' && b[i] != '%'
  }

  lemma ExceedsLater(c: char, a: string, b: string)
    requires Exceeds(a, b)
    ensures Exceeds([c] + a, [c] + b)
  {
    var i: nat :| ExceedsAt(a, b, i);
    assert ExceedsAt([c] + a, [c] + b, i + 1);
  }

  function Percents(n: nat): string {
    seq(n, _ => '%')
  }

  lemma PercentAhead(pending: nat, doubled: string, directive: string)
    ensures Percents(pending) + ("%%" + doubled) + directive == ['%'] + (Percents(pending + 1) + doubled + directive)
  {
  }

  lemma NoneAhead(c: char, doubled: string, directive: string)
    ensures Percents(0) + ([c] + doubled) + directive == [c] + (Percents(0) + doubled + directive)
  {
  }

  lemma FirstAndRest(c: char, rest: string, token: string)
    ensures [c] + rest + token == [c] + (rest + token)
  {
  }

  // `pending` percent signs are ahead of the doubled literal.
  lemma {:induction false} DoublingExceeds(pending: nat, literal: string, directive: string, token: string)
    requires directive != [] && directive[0] == '%' && token != [] && token[0] != '%'
    ensures Exceeds(Percents(pending) + ReplaceAll(literal, "%", "%%") + directive, literal + token)
    decreases |literal|
  {
    if literal == [] {
      assert ExceedsAt(Percents(pending) + ReplaceAll(literal, "%", "%%") + directive, literal + token, 0);
    } else {
      var c, rest := literal[0], literal[1..];
      var doubled := ReplaceAll(rest, "%", "%%");
      assert literal == [c] + rest;
      DoubleHead(c, rest);
      FirstAndRest(c, rest, token);
      if c == '%' {
        PercentAhead(pending, doubled, directive);
        DoublingExceeds(pending + 1, rest, directive, token);
        ExceedsLater('%', Percents(pending + 1) + doubled + directive, rest + token);
      } else if pending == 0 {
        NoneAhead(c, doubled, directive);
        DoublingExceeds(0, rest, directive, token);
        ExceedsLater(c, Percents(0) + doubled + directive, rest + token);
      } else {
        assert ExceedsAt(Percents(pending) + ReplaceAll(literal, "%", "%%") + directive, literal + token, 0);
      }
    }
  }

  lemma {:induction false} DamageKeepsPercents(t: string)
    ensures |ReplaceAll(t, "\\n", "\\\n")| == |t|
    ensures forall i :: 0 <= i < |t| && t[i] == '%' ==> ReplaceAll(t, "\\n", "\\\n")[i] == '%'
    decreases |t|
  {
    if |t| >= 2 {
      assert t[..2] == [t[0], t[1]];
      DamageKeepsPercents(if t[..2] == "\\n" then t[2..] else t[1..]);
    }
  }

  // A template is its doubled first literal followed by a directive.
  lemma TemplateBegins(text: string, found: seq<Interpolation>, tokens: seq<string>) returns (directive: string)
    requires found != [] && WellPlaced(text, 0, found) && multiset(Tokens(found)) <= multiset(tokens)
    ensures directive != [] && directive[0] == '%'
    ensures TemplateFrom(text, 0, found, [], tokens) == ReplaceAll(text[..found[0].start], "%", "%%") + directive
  {
    var none: seq<string> := [];
    var f := found[0];
    assert none + Tokens(found) == Tokens(found);
    TokenIsAvailable(found, none, tokens);
    var argument := Argument(tokens, f.value, multiset(none)[f.value]);
    var rest := TemplateFrom(text, f.end, found[1..], none + [f.value], tokens);
    directive := argument + rest;
    var literal := ReplaceAll(text[..f.start], "%", "%%");
    assert text[0..f.start] == text[..f.start];
    assert literal + argument + rest == literal + directive;
  }

  lemma FirstOpens(source: string)
    requires Scan(source, 0).Some? && Scan(source, 0).value != []
    ensures WellPlaced(source, 0, Scan(source, 0).value) && OpensAt(source, Scan(source, 0).value[0].start)
  {
    ScanIsWellPlaced(source, 0);
    ScanMissesNothing(source, 0);
    assert Scan(source, 0).value[0] in Scan(source, 0).value;
  }

  lemma TemplateExceeds(source: string)
    requires Scan(source, 0).Some? && Scan(source, 0).value != []
    ensures Template(source, source).Ok? && Exceeds(Template(source, source).value, source)
  {
    var found := Scan(source, 0).value;
    FirstOpens(source);
    var directive := TemplateBegins(source, found, Tokens(found));
    var literal, token := source[..found[0].start], source[found[0].start..];
    DoublingExceeds(0, literal, directive, token);
    assert source == literal + token;
    assert Percents(0) + ReplaceAll(literal, "%", "%%") == ReplaceAll(literal, "%", "%%");
  }

  /** The base resource of a source with interpolations is never read back as the source. */
  lemma InterpolatedSourceIsNotReadBack(source: string)
    requires Scan(source, 0).Some? && Scan(source, 0).value != []
    ensures Template(source, source).Ok? && DecodeAndroidResourceValue(Written(source, source)) != source
  {
    TemplateExceeds(source);
    var template := Template(source, source).value;
    AndroidDecodesEscaped(template);
    DamageKeepsPercents(template);
    var i: nat :| ExceedsAt(template, source, i);
    assert ExceedsAt(ReplaceAll(template, "\\n", "\\\n"), source, i);
  }

  /** With no inventory translation left, the value written last is written again exactly when it is the source
      itself, or both are non-empty, the source has no interpolations, and neither holds a backslash followed by n. */
  lemma RetainedIff(source: string, value: string)
    requires Template(source, value).Ok?
    ensures Template(source, source).Ok?
    ensures NextValue(source, [], Written(source, source), Written(source, value)) == value <==>
      || value == source
      || (source != "" && value != "" && Scan(source, 0).value == []
          && !Contains(source, "\\n") && !Contains(value, "\\n"))
  {
    if Scan(source, 0).value != [] {
      InterpolatedSourceIsNotReadBack(source);
    } else {
      AndroidDecodesEscaped(source);
      AndroidDecodesEscaped(value);
      AndroidRoundTripIff(source);
      AndroidRoundTripIff(value);
    }
    var existing := ReadBack(Written(source, source), Written(source, value));
    if existing.Some? { OnlyCandidate(source, existing.value.translation); }
    OnlyCandidate(source, "");
    DamageKeepsPercents(value);
  }
}
