/** Rendering a Kotlin string template as a positional Android format string. */
module AndroidRender {
  import opened Results
  import opened Text
  import opened KotlinInterpolation
  import opened AndroidEscaping
  import opened Counting
  import opened Decimals
  import opened Sequences
  import JsMap

  datatype RenderError = UnbalancedPlaceholders | ChangedPlaceholders

  function Tokens(found: seq<Interpolation>): seq<string> {
    seq(|found|, i requires 0 <= i < |found| => found[i].value)
  }

  // ----- what the platform's formatter does with such a string

  function LeadingDigits(s: string): (n: nat)
    ensures n <= |s| && forall i :: 0 <= i < n ==> IsDigit(s[i])
    ensures n < |s| ==> !IsDigit(s[n])
  {
    if s != [] && IsDigit(s[0]) then 1 + LeadingDigits(s[1..]) else 0
  }

  function Then(text: string, rest: Option<string>): Option<string> {
    if rest.None? then None else Some(text + rest.value)
  }

  /** `%%` is a percent sign and `%k$s` the k-th argument; anything else after a percent sign is an error. */
  function Format(template: string, arguments: seq<string>): Option<string>
    decreases |template|
  {
    if template == [] then Some([])
    else if template[0] != '%' then Then([template[0]], Format(template[1..], arguments))
    else if |template| >= 2 && template[1] == '%' then Then("%", Format(template[2..], arguments))
    else
      var n := LeadingDigits(template[1..]);
      assert forall c :: c in template[1..][..n] ==> IsDigit(c);
      var k := ParseDecimal(template[1..][..n]);
      if n > 0 && n + 2 < |template| && template[n + 1..n + 3] == "$s" && 1 <= k <= |arguments|
      then Then(arguments[k - 1], Format(template[n + 3..], arguments))
      else None
  }

  // ----- rendering

  // The 1-based positions of a token among the source tokens.
  function PositionsOf(tokens: seq<string>, token: string): seq<nat> {
    if tokens == [] then []
    else
      PositionsOf(tokens[..|tokens| - 1], token) + if tokens[|tokens| - 1] == token then [|tokens|] else []
  }

  function Argument(sourceTokens: seq<string>, token: string, occurrence: nat): string {
    var positions := PositionsOf(sourceTokens, token);
    if occurrence < |positions| then "%" + Decimal(positions[occurrence]) + "$s" else token
  }

  // The format string for text[cursor..], whose interpolations are `found` and come after those in `seen`.
  function TemplateFrom(text: string, cursor: nat, found: seq<Interpolation>, seen: seq<string>,
      sourceTokens: seq<string>): string
    requires WellPlaced(text, cursor, found)
    decreases |found|
  {
    if found == [] then ReplaceAll(text[cursor..], "%", "%%")
    else
      var f := found[0];
      ReplaceAll(text[cursor..f.start], "%", "%%") + Argument(sourceTokens, f.value, multiset(seen)[f.value])
        + TemplateFrom(text, f.end, found[1..], seen + [f.value], sourceTokens)
  }

  // The text before XML escaping.
  function Template(source: string, translated: string): Result<string, RenderError> {
    var s, t := Scan(source, 0), Scan(translated, 0);
    if s.None? || t.None? then Throws(UnbalancedPlaceholders)
    else if multiset(Tokens(s.value)) != multiset(Tokens(t.value)) then Throws(ChangedPlaceholders)
    else if |s.value| == 0 then Ok(translated)
    else
      ScanIsWellPlaced(translated, 0);
      Ok(TemplateFrom(translated, 0, t.value, [], Tokens(s.value)))
  }

  method TokenCounts(tokens: seq<string>) returns (counts: seq<(string, nat)>)
    ensures counts == SortedCounts(tokens)
  {
    CountsAreMultiplicities(tokens);
    var byToken := CountValues(tokens);
    counts := Sorting.Sort(ByKey, byToken.Entries());
  }

  method IndexTokens(tokens: seq<string>) returns (indices: JsMap.Map<string, seq<nat>>)
    ensures forall x :: indices.Get(x).GetOr([]) == PositionsOf(tokens, x)
  {
    indices := JsMap.Empty();
    for i := 0 to |tokens|
      invariant forall x :: indices.Get(x).GetOr([]) == PositionsOf(tokens[..i], x)
    {
      var token := tokens[i];
      assert tokens[..i + 1][..i] == tokens[..i];
      indices := indices.Set(token, indices.Get(token).GetOr([]) + [i + 1]);
    }
    assert tokens[..|tokens|] == tokens;
  }

  lemma OccurrenceIsCount(seen: seq<string>, token: string)
    ensures CountsOf(seen).Get(token).GetOr(0) == multiset(seen)[token]
  {
    CountsAreMultiplicities(seen);
    if token !in seen {
      assert token !in CountsOf(seen).values;
    }
  }

  lemma TemplateStep(rendered: string, text: string, cursor: nat, found: seq<Interpolation>, seen: seq<string>,
      sourceTokens: seq<string>)
    requires WellPlaced(text, cursor, found) && found != []
    ensures rendered + TemplateFrom(text, cursor, found, seen, sourceTokens)
      == rendered + ReplaceAll(text[cursor..found[0].start], "%", "%%")
        + Argument(sourceTokens, found[0].value, multiset(seen)[found[0].value])
        + TemplateFrom(text, found[0].end, found[1..], seen + [found[0].value], sourceTokens)
  {
    var literal := ReplaceAll(text[cursor..found[0].start], "%", "%%");
    var argument := Argument(sourceTokens, found[0].value, multiset(seen)[found[0].value]);
    Concatenate(rendered, literal, argument,
      TemplateFrom(text, found[0].end, found[1..], seen + [found[0].value], sourceTokens));
  }

  lemma Concatenate(a: string, b: string, c: string, d: string)
    ensures a + (b + c + d) == a + b + c + d
  {
  }

  // The loop that replaces each interpolation by a positional argument.
  method RenderTemplate(translated: string, found: seq<Interpolation>, sourceTokens: seq<string>)
    returns (rendered: string)
    requires WellPlaced(translated, 0, found)
    ensures rendered == TemplateFrom(translated, 0, found, [], sourceTokens)
  {
    var sourceIndices := IndexTokens(sourceTokens);
    var translatedOccurrences: JsMap.Map<string, nat> := JsMap.Empty();
    var cursor: nat := 0;
    rendered := "";
    ghost var whole := TemplateFrom(translated, 0, found, [], sourceTokens);
    ghost var seen: seq<string> := [];
    ghost var left := found;
    assert rendered + whole == whole;
    for j := 0 to |found|
      invariant cursor <= |translated| && left == found[j..] && WellPlaced(translated, cursor, left)
      invariant translatedOccurrences == CountsOf(seen)
      invariant whole == rendered + TemplateFrom(translated, cursor, left, seen, sourceTokens)
    {
      var interpolation := found[j];
      DropOneMore(found, j);
      TemplateStep(rendered, translated, cursor, left, seen, sourceTokens);
      var token := interpolation.value;
      var occurrence := translatedOccurrences.Get(token).GetOr(0);
      translatedOccurrences := translatedOccurrences.Set(token, occurrence + 1);
      OccurrenceIsCount(seen, token);
      CountsStep(seen, token);
      var positions := sourceIndices.Get(token).GetOr([]);
      var literal := ReplaceAll(translated[cursor..interpolation.start], "%", "%%");
      var argument := if occurrence < |positions| then "%" + Decimal(positions[occurrence]) + "$s" else token;
      rendered := rendered + literal + argument;
      cursor := interpolation.end;
      seen, left := seen + [token], left[1..];
    }
    rendered := rendered + ReplaceAll(translated[cursor..], "%", "%%");
  }

  method RenderAndroidResourceValue(source: string, translated: string) returns (result: Result<string, RenderError>)
    ensures Template(source, translated).Throws? ==> result == Template(source, translated)
    ensures Template(source, translated).Ok? ==>
      result == Ok(EscapeAndroidResourceValue(Template(source, translated).value))
    ensures result == Throws(UnbalancedPlaceholders) <==> Scan(source, 0).None? || Scan(translated, 0).None?
    ensures result.Ok? <==>
      && Scan(source, 0).Some? && Scan(translated, 0).Some?
      && multiset(Tokens(Scan(source, 0).value)) == multiset(Tokens(Scan(translated, 0).value))
  {
    var sourceInterpolations := ReadKotlinInterpolations(source);
    var translatedInterpolations := ReadKotlinInterpolations(translated);
    if sourceInterpolations.None? || translatedInterpolations.None? {
      return Throws(UnbalancedPlaceholders);
    }
    var sourceTokens, translatedTokens := Tokens(sourceInterpolations.value), Tokens(translatedInterpolations.value);
    var sourceCounts := TokenCounts(sourceTokens);
    var translatedCounts := TokenCounts(translatedTokens);
    SortedCountsCompareMultisets(sourceTokens, translatedTokens);
    if sourceCounts != translatedCounts {
      return Throws(ChangedPlaceholders);
    }
    var rendered := translated;
    if |sourceTokens| > 0 {
      ScanIsWellPlaced(translated, 0);
      rendered := RenderTemplate(translated, translatedInterpolations.value, sourceTokens);
    }
    return Ok(EscapeAndroidResourceValue(rendered));
  }

  // ----- matching occurrences

  /** The j-th translated token and the source token at position k (from 1) are the same occurrence of one text. */
  ghost predicate Matches(sourceTokens: seq<string>, translatedTokens: seq<string>, j: nat, k: nat) {
    && j < |translatedTokens| && 1 <= k <= |sourceTokens|
    && sourceTokens[k - 1] == translatedTokens[j]
    && multiset(sourceTokens[..k - 1])[translatedTokens[j]] == multiset(translatedTokens[..j])[translatedTokens[j]]
  }

  // The token at position k is the one with `o` equal tokens before it.
  ghost predicate IsOccurrence(tokens: seq<string>, x: string, o: nat, k: nat) {
    1 <= k <= |tokens| && tokens[k - 1] == x && multiset(tokens[..k - 1])[x] == o
  }

  lemma OccurrenceLater(init: seq<string>, last: string, x: string, o: nat, k: nat)
    requires IsOccurrence(init, x, o, k)
    ensures IsOccurrence(init + [last], x, o, k)
  {
    assert (init + [last])[..k - 1] == init[..k - 1];
  }

  lemma OccurrenceHere(init: seq<string>, x: string)
    ensures IsOccurrence(init + [x], x, multiset(init)[x], |init| + 1)
  {
    assert (init + [x])[..|init|] == init;
  }

  lemma PositionsOneMore(init: seq<string>, last: string, x: string)
    ensures PositionsOf(init + [last], x) == PositionsOf(init, x) + if last == x then [|init| + 1] else []
    ensures multiset(init + [last])[x] == multiset(init)[x] + if last == x then 1 else 0
  {
    assert (init + [last])[..|init|] == init;
  }

  // PositionsOf lists, for each occurrence number, the one position with that many equal tokens before it.
  lemma {:induction false} PositionsAreOccurrences(tokens: seq<string>, x: string)
    ensures |PositionsOf(tokens, x)| == multiset(tokens)[x]
    ensures forall o :: 0 <= o < |PositionsOf(tokens, x)| ==> IsOccurrence(tokens, x, o, PositionsOf(tokens, x)[o])
  {
    if tokens != [] {
      var init, last := tokens[..|tokens| - 1], tokens[|tokens| - 1];
      assert tokens == init + [last];
      PositionsAreOccurrences(init, x);
      PositionsOneMore(init, last, x);
      OccurrenceHere(init, last);
      var before := PositionsOf(init, x);
      forall o | 0 <= o < |PositionsOf(tokens, x)| ensures IsOccurrence(tokens, x, o, PositionsOf(tokens, x)[o]) {
        if o < |before| { OccurrenceLater(init, last, x, o, before[o]); }
      }
    }
  }

  lemma CountsGrow(tokens: seq<string>, x: string, i: nat, j: nat)
    requires i <= j <= |tokens|
    ensures multiset(tokens[..i])[x] <= multiset(tokens[..j])[x]
    ensures i < j && tokens[i] == x ==> multiset(tokens[..i])[x] < multiset(tokens[..j])[x]
  {
    assert tokens[..j] == tokens[..i] + tokens[i..j];
    assert i < j ==> tokens[i..j] == [tokens[i]] + tokens[i + 1..j];
  }

  /** Every argument position stands for exactly one translated token. */
  lemma PositionIsUnique(sourceTokens: seq<string>, translatedTokens: seq<string>, j: nat, j': nat, k: nat)
    requires Matches(sourceTokens, translatedTokens, j, k) && Matches(sourceTokens, translatedTokens, j', k)
    ensures j == j'
  {
    CountsGrow(translatedTokens, translatedTokens[j], if j < j' then j else j', if j < j' then j' else j);
  }

  /** When the multisets agree, each translated token has its position and the fallback is never taken. */
  lemma EveryTokenHasAPosition(sourceTokens: seq<string>, translatedTokens: seq<string>, j: nat)
    requires multiset(sourceTokens) == multiset(translatedTokens) && j < |translatedTokens|
    ensures multiset(translatedTokens[..j])[translatedTokens[j]] < |PositionsOf(sourceTokens, translatedTokens[j])|
    ensures Matches(sourceTokens, translatedTokens, j,
      PositionsOf(sourceTokens, translatedTokens[j])[multiset(translatedTokens[..j])[translatedTokens[j]]])
  {
    PositionsAreOccurrences(sourceTokens, translatedTokens[j]);
    CountsGrow(translatedTokens, translatedTokens[j], j, |translatedTokens|);
    assert translatedTokens[..|translatedTokens|] == translatedTokens;
  }

  /** ... and each position 1..n is the position of some translated token. */
  lemma EveryPositionIsEmitted(sourceTokens: seq<string>, translatedTokens: seq<string>, k: nat)
    requires multiset(sourceTokens) == multiset(translatedTokens) && 1 <= k <= |sourceTokens|
    ensures exists j :: Matches(sourceTokens, translatedTokens, j, k)
  {
    var x := sourceTokens[k - 1];
    var o := multiset(sourceTokens[..k - 1])[x];
    CountsGrow(sourceTokens, x, k - 1, |sourceTokens|);
    assert sourceTokens[..|sourceTokens|] == sourceTokens;
    PositionsAreOccurrences(translatedTokens, x);
    var j := PositionsOf(translatedTokens, x)[o] - 1;
    assert Matches(sourceTokens, translatedTokens, j, k);
  }

  // ----- the format string means what the translation says

  lemma ThenThen(a: string, b: string, rest: Option<string>)
    ensures Then(a, Then(b, rest)) == Then(a + b, rest)
    ensures Then([], rest) == rest
  {
    if rest.Some? {
      assert a + (b + rest.value) == a + b + rest.value;
      assert [] + rest.value == rest.value;
    }
  }

  lemma FormatPlain(c: char, rest: string, arguments: seq<string>)
    requires c != '%'
    ensures Format([c] + rest, arguments) == Then([c], Format(rest, arguments))
  {
    assert ([c] + rest)[1..] == rest;
  }

  lemma FormatPercent(rest: string, arguments: seq<string>)
    ensures Format("%%" + rest, arguments) == Then("%", Format(rest, arguments))
  {
    assert ("%%" + rest)[2..] == rest;
  }

  // How a character is written in the literal part of a template.
  function Doubled(c: char): string {
    if c == '%' then "%%" else [c]
  }

  lemma DoubleHead(c: char, rest: string)
    ensures ReplaceAll([c] + rest, "%", "%%") == Doubled(c) + ReplaceAll(rest, "%", "%%")
  {
    assert ([c] + rest)[..1] == [c] && ([c] + rest)[1..] == rest;
    assert [c] == "%" <==> c == '%';
  }

  lemma FormatDoubled(c: char, rest: string, arguments: seq<string>)
    ensures Format(Doubled(c) + rest, arguments) == Then([c], Format(rest, arguments))
  {
    if c == '%' { FormatPercent(rest, arguments); } else { FormatPlain(c, rest, arguments); }
  }

  // Doubling percent signs is undone by formatting.
  lemma {:induction false} FormatLiteral(literal: string, rest: string, arguments: seq<string>)
    ensures Format(ReplaceAll(literal, "%", "%%") + rest, arguments) == Then(literal, Format(rest, arguments))
  {
    if literal == [] {
      ThenThen([], [], Format(rest, arguments));
      assert ReplaceAll(literal, "%", "%%") + rest == rest;
    } else {
      var c, more := literal[0], literal[1..];
      var doubled := ReplaceAll(more, "%", "%%");
      assert literal == [c] + more;
      FormatLiteral(more, rest, arguments);
      DoubleHead(c, more);
      FormatDoubled(c, doubled + rest, arguments);
      assert Doubled(c) + doubled + rest == Doubled(c) + (doubled + rest);
      ThenThen([c], more, Format(rest, arguments));
    }
  }

  lemma {:induction false} LeadingDigitsOf(digits: string, rest: string)
    requires forall c :: c in digits ==> IsDigit(c)
    requires rest != [] && !IsDigit(rest[0])
    ensures LeadingDigits(digits + rest) == |digits|
  {
    if digits == [] {
      assert digits + rest == rest;
    } else {
      assert IsDigit(digits[0]) && (digits + rest)[1..] == digits[1..] + rest;
      LeadingDigitsOf(digits[1..], rest);
    }
  }

  lemma FormatDirective(digits: string, rest: string, arguments: seq<string>)
    requires digits != [] && forall c :: c in digits ==> IsDigit(c)
    requires 1 <= ParseDecimal(digits) <= |arguments|
    ensures Format("%" + digits + "$s" + rest, arguments)
      == Then(arguments[ParseDecimal(digits) - 1], Format(rest, arguments))
  {
    var template := "%" + digits + "$s" + rest;
    var n := |digits|;
    assert template[1..] == digits + ("$s" + rest);
    LeadingDigitsOf(digits, "$s" + rest);
    assert template[1] == digits[0] && IsDigit(template[1]);
    assert template[1..][..n] == digits;
    assert template[n + 1..n + 3] == "$s" && template[n + 3..] == rest;
  }

  lemma FormatArgument(k: nat, rest: string, arguments: seq<string>)
    requires 1 <= k <= |arguments|
    ensures Format("%" + Decimal(k) + "$s" + rest, arguments) == Then(arguments[k - 1], Format(rest, arguments))
  {
    DecimalRoundTrip(k);
    FormatDirective(Decimal(k), rest, arguments);
  }

  /** The text with every interpolation replaced by the value of its expression. */
  function Interpolated(text: string, cursor: nat, found: seq<Interpolation>, value: string -> string): string
    requires WellPlaced(text, cursor, found)
    decreases |found|
  {
    if found == [] then text[cursor..]
    else text[cursor..found[0].start] + value(found[0].value) + Interpolated(text, found[0].end, found[1..], value)
  }

  lemma TokenIsAvailable(found: seq<Interpolation>, seen: seq<string>, sourceTokens: seq<string>)
    requires found != [] && multiset(seen + Tokens(found)) <= multiset(sourceTokens)
    ensures seen + [found[0].value] + Tokens(found[1..]) == seen + Tokens(found)
    ensures var positions := PositionsOf(sourceTokens, found[0].value);
      multiset(seen)[found[0].value] < |positions| && 1 <= positions[multiset(seen)[found[0].value]] <= |sourceTokens|
    ensures var positions := PositionsOf(sourceTokens, found[0].value);
      sourceTokens[positions[multiset(seen)[found[0].value]] - 1] == found[0].value
  {
    var x := found[0].value;
    assert Tokens(found) == [x] + Tokens(found[1..]);
    assert multiset(seen + Tokens(found))[x] > multiset(seen)[x];
    PositionsAreOccurrences(sourceTokens, x);
  }

  // One literal and one argument at the head of a format string.
  lemma FormatHead(literal: string, token: string, occurrence: nat, rest: string, sourceTokens: seq<string>,
      arguments: seq<string>)
    requires |arguments| == |sourceTokens| && occurrence < |PositionsOf(sourceTokens, token)|
    requires 1 <= PositionsOf(sourceTokens, token)[occurrence] <= |sourceTokens|
    ensures Format(ReplaceAll(literal, "%", "%%") + Argument(sourceTokens, token, occurrence) + rest, arguments)
      == Then(literal + arguments[PositionsOf(sourceTokens, token)[occurrence] - 1], Format(rest, arguments))
  {
    var k := PositionsOf(sourceTokens, token)[occurrence];
    var directive := "%" + Decimal(k) + "$s";
    FormatArgument(k, rest, arguments);
    FormatLiteral(literal, directive + rest, arguments);
    ThenThen(literal, arguments[k - 1], Format(rest, arguments));
    assert ReplaceAll(literal, "%", "%%") + (directive + rest) == ReplaceAll(literal, "%", "%%") + directive + rest;
  }

  lemma {:induction false} FormatInterpolates(text: string, cursor: nat, found: seq<Interpolation>, seen: seq<string>,
      sourceTokens: seq<string>, arguments: seq<string>, value: string -> string)
    requires WellPlaced(text, cursor, found)
    requires |arguments| == |sourceTokens| && multiset(seen + Tokens(found)) <= multiset(sourceTokens)
    requires forall k :: 0 <= k < |sourceTokens| ==> arguments[k] == value(sourceTokens[k])
    ensures Format(TemplateFrom(text, cursor, found, seen, sourceTokens), arguments)
      == Some(Interpolated(text, cursor, found, value))
    decreases |found|
  {
    if found == [] {
      var literal := text[cursor..];
      FormatLiteral(literal, [], arguments);
      assert ReplaceAll(literal, "%", "%%") + [] == ReplaceAll(literal, "%", "%%") && literal + [] == literal;
    } else {
      var f := found[0];
      TokenIsAvailable(found, seen, sourceTokens);
      var rest := TemplateFrom(text, f.end, found[1..], seen + [f.value], sourceTokens);
      assert TemplateFrom(text, cursor, found, seen, sourceTokens)
        == ReplaceAll(text[cursor..f.start], "%", "%%")
          + Argument(sourceTokens, f.value, multiset(seen)[f.value]) + rest;
      FormatHead(text[cursor..f.start], f.value, multiset(seen)[f.value], rest, sourceTokens, arguments);
      FormatInterpolates(text, f.end, found[1..], seen + [f.value], sourceTokens, arguments, value);
    }
  }

  // The Kotlin meaning of a template whose scan is balanced.
  function Meaning(text: string, value: string -> string): string
    requires Scan(text, 0).Some?
  {
    ScanIsWellPlaced(text, 0);
    Interpolated(text, 0, Scan(text, 0).value, value)
  }

  function ArgumentsOf(source: string, value: string -> string): seq<string>
    requires Scan(source, 0).Some?
  {
    var tokens := Tokens(Scan(source, 0).value);
    seq(|tokens|, k requires 0 <= k < |tokens| => value(tokens[k]))
  }

  /** Formatting the rendered template with the source's values gives the translation with those values filled in. */
  lemma RenderingPreservesMeaning(source: string, translated: string, value: string -> string)
    requires Template(source, translated).Ok?
    ensures var template := Template(source, translated).value;
      if Scan(source, 0).value == [] then template == translated && Meaning(translated, value) == translated
      else Format(template, ArgumentsOf(source, value)) == Some(Meaning(translated, value))
  {
    var sourceTokens, found := Tokens(Scan(source, 0).value), Scan(translated, 0).value;
    ScanIsWellPlaced(translated, 0);
    if Scan(source, 0).value == [] {
      assert |multiset(Tokens(found))| == 0;
      assert found == [] by { assert |Tokens(found)| == 0; }
    } else {
      assert [] + Tokens(found) == Tokens(found);
      var arguments := ArgumentsOf(source, value);
      FormatInterpolates(translated, 0, found, [], sourceTokens, arguments, value);
    }
  }

  // ----- the written resource

  lemma {:induction false} CopiesWithoutBackslash(t: string, n: nat)
    requires n <= |t| && forall i :: 0 <= i < n ==> t[i] != '\\'
    ensures ReplaceAll(t, "\\n", "\\\n") == t[..n] + ReplaceAll(t[n..], "\\n", "\\\n")
    ensures Contains(t, "\\n") <==> Contains(t[n..], "\\n")
  {
    ReplaceAllCopies(t, n, "\\n", "\\\n");
    if n == 0 {
      assert t[0..] == t;
    } else {
      CopiesWithoutBackslash(t[1..], n - 1);
      assert t[1..][n - 1..] == t[n..];
      assert |t| >= 2 ==> t[..2][0] == t[0];
    }
  }

  // What one directive of a format string stands for: how long it is and what it writes.
  lemma ReadDirective(t: string, arguments: seq<string>) returns (n: nat, text: string)
    requires t != [] && t[0] == '%' && Format(t, arguments).Some?
    ensures 2 <= n <= |t| && '\\' !in t[..n]
    ensures forall rest :: Format(t[..n] + rest, arguments) == Then(text, Format(rest, arguments))
  {
    if |t| >= 2 && t[1] == '%' {
      n, text := 2, "%";
      assert t[..2] == "%%";
      forall rest ensures Format(t[..2] + rest, arguments) == Then("%", Format(rest, arguments)) {
        FormatPercent(rest, arguments);
      }
    } else {
      var d := LeadingDigits(t[1..]);
      var digits := t[1..][..d];
      assert forall c :: c in digits ==> IsDigit(c);
      n, text := d + 3, arguments[ParseDecimal(digits) - 1];
      assert t[..n] == "%" + digits + "$s" by { assert t[d + 1..d + 3] == "$s"; }
      forall rest ensures Format(t[..n] + rest, arguments) == Then(text, Format(rest, arguments)) {
        FormatDirective(digits, rest, arguments);
      }
    }
  }

  lemma ThenIsInjective(text: string, a: Option<string>, b: Option<string>)
    ensures Then(text, a) == Then(text, b) <==> a == b
  {
    if a.Some? && b.Some? && Then(text, a) == Then(text, b) {
      assert (text + a.value)[|text|..] == a.value && (text + b.value)[|text|..] == b.value;
    }
  }

  // A backslash and an n at the head of a template, which the decoder damages.
  lemma DamagedHead(rest: string, damaged: string, arguments: seq<string>)
    requires Format(rest, arguments).Some? && Format(damaged, arguments).Some?
    ensures Format("\\\n" + damaged, arguments).Some?
    ensures Format("\\\n" + damaged, arguments) != Format("\\n" + rest, arguments)
  {
    assert "\\n" + rest == ['\\'] + (['n'] + rest) && "\\\n" + damaged == ['\\'] + (['\n'] + damaged);
    FormatPlain('\\', ['n'] + rest, arguments);
    FormatPlain('n', rest, arguments);
    FormatPlain('\\', ['\n'] + damaged, arguments);
    FormatPlain('\n', damaged, arguments);
    assert Format("\\n" + rest, arguments).value[1] == 'n' && Format("\\\n" + damaged, arguments).value[1] == '\n';
  }

  // The head of a template, a backslash followed by n, one other character or a directive, and what it writes.
  datatype Head = Damaged | Kept(n: nat, text: string)

  lemma HeadOf(t: string, arguments: seq<string>) returns (head: Head)
    requires t != [] && Format(t, arguments).Some?
    ensures head.Damaged? ==> |t| >= 2 && t[..2] == "\\n"
    ensures head.Kept? ==> 1 <= head.n <= |t|
    ensures head.Kept? ==> ReplaceAll(t, "\\n", "\\\n") == t[..head.n] + ReplaceAll(t[head.n..], "\\n", "\\\n")
    ensures head.Kept? ==> (Contains(t, "\\n") <==> Contains(t[head.n..], "\\n"))
    ensures head.Kept? ==>
      forall rest :: Format(t[..head.n] + rest, arguments) == Then(head.text, Format(rest, arguments))
  {
    if |t| >= 2 && t[..2] == "\\n" {
      head := Damaged;
    } else if t[0] != '%' {
      head := Kept(1, [t[0]]);
      assert t[..1] == [t[0]];
      forall rest ensures Format(t[..1] + rest, arguments) == Then([t[0]], Format(rest, arguments)) {
        FormatPlain(t[0], rest, arguments);
      }
    } else {
      var n, text := ReadDirective(t, arguments);
      head := Kept(n, text);
      CopiesWithoutBackslash(t, n);
    }
  }

  // Formatting what the decoder gives back for a template.
  lemma {:induction false} FormatDecoded(t: string, arguments: seq<string>)
    requires Format(t, arguments).Some?
    ensures Format(ReplaceAll(t, "\\n", "\\\n"), arguments).Some?
    ensures Format(ReplaceAll(t, "\\n", "\\\n"), arguments) == Format(t, arguments) <==> !Contains(t, "\\n")
    decreases |t|
  {
    if t != [] {
      var head := HeadOf(t, arguments);
      match head
      case Damaged => DecodedDamage(t, arguments);
      case Kept(n, text) =>
        assert t == t[..n] + t[n..];
        assert Format(t, arguments) == Then(text, Format(t[n..], arguments));
        FormatDecoded(t[n..], arguments);
        ThenIsInjective(text, Format(ReplaceAll(t[n..], "\\n", "\\\n"), arguments), Format(t[n..], arguments));
    }
  }

  lemma {:induction false} DecodedDamage(t: string, arguments: seq<string>)
    requires Format(t, arguments).Some? && |t| >= 2 && t[..2] == "\\n"
    ensures Format(ReplaceAll(t, "\\n", "\\\n"), arguments).Some?
    ensures Format(ReplaceAll(t, "\\n", "\\\n"), arguments) != Format(t, arguments)
    decreases |t|, 0
  {
    var rest := t[2..];
    assert t == ['\\'] + (['n'] + rest) && t == "\\n" + rest;
    FormatPlain('\\', ['n'] + rest, arguments);
    FormatPlain('n', rest, arguments);
    FormatDecoded(rest, arguments);
    DamagedHead(rest, ReplaceAll(rest, "\\n", "\\\n"), arguments);
  }

  // ----- a backslash followed by n in the translation

  /** A backslash directly followed by n, from `cursor` on, both outside every interpolation. */
  ghost predicate HoldsBackslashN(text: string, cursor: nat, found: seq<Interpolation>) {
    exists k: nat :: IsPlainPairAt(text, cursor, found, k)
  }

  ghost predicate IsPlainPairAt(text: string, cursor: nat, found: seq<Interpolation>, k: nat) {
    cursor <= k && k + 1 < |text| && IsPairAt(text, k) && !Covered(k, found) && !Covered(k + 1, found)
  }

  predicate IsPairAt(text: string, k: nat)
    requires k + 1 < |text|
  {
    text[k] == '\\' && text[k + 1] == 'n'
  }

  lemma {:induction false} ContainsPairIff(s: string)
    ensures Contains(s, "\\n") <==> exists k :: 0 <= k < |s| - 1 && IsPairAt(s, k)
  {
    if |s| >= 2 {
      var rest := s[1..];
      ContainsPairIff(rest);
      assert s[..2] == "\\n" <==> IsPairAt(s, 0);
      assert forall k :: 0 <= k < |rest| - 1 ==> IsPairAt(rest, k) == IsPairAt(s, k + 1);
      if k :| 0 <= k < |s| - 1 && IsPairAt(s, k) {
        if k > 0 { assert IsPairAt(rest, k - 1); }
      }
    }
  }

  // A needle of two characters does not cross into a text that does not begin with the second.
  lemma {:induction false} ContainsAppend(a: string, b: string)
    requires b != [] && b[0] != 'n'
    ensures Contains(a + b, "\\n") <==> Contains(a, "\\n") || Contains(b, "\\n")
  {
    if a == [] {
      assert a + b == b;
    } else {
      var s := a + b;
      assert s[1..] == a[1..] + b;
      ContainsAppend(a[1..], b);
      assert s[..2] == "\\n" <==> |a| >= 2 && a[..2] == "\\n" by {
        assert s[..2] == [s[0], s[1]];
        assert |a| >= 2 ==> a[..2] == [a[0], a[1]];
      }
    }
  }

  lemma ContainsAcross(a: string, directive: string, b: string)
    requires directive != [] && directive[0] != 'n' && '\\' !in directive
    ensures Contains(a + directive + b, "\\n") <==> Contains(a, "\\n") || Contains(b, "\\n")
  {
    assert a + directive + b == a + (directive + b);
    ContainsAppend(a, directive + b);
    CopiesWithoutBackslash(directive + b, |directive|);
    assert (directive + b)[|directive|..] == b;
  }

  lemma {:induction false} DoublingKeepsPairs(s: string)
    ensures Contains(ReplaceAll(s, "%", "%%"), "\\n") <==> Contains(s, "\\n")
    ensures s != [] ==> ReplaceAll(s, "%", "%%") != [] && ReplaceAll(s, "%", "%%")[0] == s[0]
  {
    if s != [] {
      var c, rest := s[0], s[1..];
      var doubled := ReplaceAll(rest, "%", "%%");
      assert s == [c] + rest;
      DoubleHead(c, rest);
      DoublingKeepsPairs(rest);
      if c == '%' {
        CopiesWithoutBackslash("%%" + doubled, 2);
        assert ("%%" + doubled)[2..] == doubled;
        CopiesWithoutBackslash(s, 1);
      } else {
        PairAtHead(c, rest);
        PairAtHead(c, doubled);
      }
    }
  }

  lemma PairAtHead(c: char, rest: string)
    ensures Contains([c] + rest, "\\n") <==> (c == '\\' && rest != [] && rest[0] == 'n') || Contains(rest, "\\n")
  {
    var s := [c] + rest;
    assert s[1..] == rest;
    assert rest != [] ==> s[..2] == [c, rest[0]];
  }

  lemma DirectiveIsPlain(k: nat)
    ensures '\\' !in "%" + Decimal(k) + "$s"
  {
    DecimalRoundTrip(k);
    assert !IsDigit('\\');
  }

  lemma {:induction false} CoveredFrom(text: string, cursor: nat, found: seq<Interpolation>, k: nat)
    requires WellPlaced(text, cursor, found) && Covered(k, found)
    ensures cursor <= k
    decreases |found|
  {
    CoveredStep(k, found);
    if !(found[0].start <= k < found[0].end) { CoveredFrom(text, found[0].end, found[1..], k); }
  }

  lemma CoveredStep(k: nat, found: seq<Interpolation>)
    requires found != []
    ensures Covered(k, found) <==> found[0].start <= k < found[0].end || Covered(k, found[1..])
  {
    if j :| 0 <= j < |found| && found[j].start <= k < found[j].end {
      if j > 0 { assert found[1..][j - 1] == found[j]; }
    }
    if j :| 0 <= j < |found[1..]| && found[1..][j].start <= k < found[1..][j].end {
      assert found[j + 1] == found[1..][j];
    }
  }

  lemma HoldsStep(text: string, cursor: nat, found: seq<Interpolation>)
    requires WellPlaced(text, cursor, found) && found != []
    ensures HoldsBackslashN(text, cursor, found) <==>
      Contains(text[cursor..found[0].start], "\\n") || HoldsBackslashN(text, found[0].end, found[1..])
  {
    var f, rest := found[0], found[1..];
    var literal := text[cursor..f.start];
    ContainsPairIff(literal);
    if k :| 0 <= k < |literal| - 1 && IsPairAt(literal, k) {
      forall i | cursor + k <= i <= cursor + k + 1 ensures !Covered(i, found) {
        CoveredStep(i, found);
        if Covered(i, rest) { CoveredFrom(text, f.end, rest, i); }
      }
      assert IsPlainPairAt(text, cursor, found, cursor + k);
    }
    if k: nat :| IsPlainPairAt(text, f.end, rest, k) {
      CoveredStep(k, found);
      CoveredStep(k + 1, found);
      assert IsPlainPairAt(text, cursor, found, k);
    }
    if k: nat :| IsPlainPairAt(text, cursor, found, k) {
      CoveredStep(k, found);
      CoveredStep(k + 1, found);
      if k < f.start {
        assert IsPairAt(literal, k - cursor);
      } else {
        assert IsPlainPairAt(text, f.end, rest, k);
      }
    }
  }

  lemma {:induction false} TemplateHoldsIff(
      text: string, cursor: nat, found: seq<Interpolation>, seen: seq<string>, sourceTokens: seq<string>)
    requires WellPlaced(text, cursor, found) && multiset(seen + Tokens(found)) <= multiset(sourceTokens)
    ensures Contains(TemplateFrom(text, cursor, found, seen, sourceTokens), "\\n") <==>
      HoldsBackslashN(text, cursor, found)
    decreases |found|
  {
    if found == [] {
      DoublingKeepsPairs(text[cursor..]);
      PlainTextHolds(text, cursor);
    } else {
      var f := found[0];
      TokenIsAvailable(found, seen, sourceTokens);
      var argument := Argument(sourceTokens, f.value, multiset(seen)[f.value]);
      DirectiveIsPlain(PositionsOf(sourceTokens, f.value)[multiset(seen)[f.value]]);
      var literal := ReplaceAll(text[cursor..f.start], "%", "%%");
      ContainsAcross(literal, argument, TemplateFrom(text, f.end, found[1..], seen + [f.value], sourceTokens));
      DoublingKeepsPairs(text[cursor..f.start]);
      TemplateHoldsIff(text, f.end, found[1..], seen + [f.value], sourceTokens);
      HoldsStep(text, cursor, found);
    }
  }

  lemma PlainTextHolds(text: string, cursor: nat)
    requires cursor <= |text|
    ensures HoldsBackslashN(text, cursor, []) <==> Contains(text[cursor..], "\\n")
  {
    var rest := text[cursor..];
    ContainsPairIff(rest);
    if k: nat :| IsPlainPairAt(text, cursor, [], k) {
      assert IsPairAt(rest, k - cursor);
    }
    if k :| 0 <= k < |rest| - 1 && IsPairAt(rest, k) {
      assert IsPlainPairAt(text, cursor, [], cursor + k);
    }
  }

  lemma RenderedHoldsIff(source: string, translated: string)
    requires Template(source, translated).Ok?
    ensures Contains(Template(source, translated).value, "\\n") <==>
      HoldsBackslashN(translated, 0, Scan(translated, 0).value)
  {
    var tokens, found := Tokens(Scan(source, 0).value), Scan(translated, 0).value;
    ScanIsWellPlaced(translated, 0);
    if Scan(source, 0).value == [] {
      assert found == [] by {
        assert |multiset(Tokens(found))| == 0;
        assert |Tokens(found)| == 0;
      }
      PlainTextHolds(translated, 0);
      assert translated[0..] == translated;
    } else {
      assert [] + Tokens(found) == Tokens(found);
      TemplateHoldsIff(translated, 0, found, [], tokens);
    }
  }

  /** Written as a quoted resource, read back with the script's own decoder and formatted, a translation keeps its
      meaning exactly when it holds no backslash directly followed by n, both outside every interpolation. Without
      interpolations the resource is not formatted. */
  lemma ResourcePreservesMeaningIff(source: string, translated: string, value: string -> string)
    requires Template(source, translated).Ok?
    ensures var decoded :=
        DecodeAndroidResourceValue("\"" + EscapeAndroidResourceValue(Template(source, translated).value) + "\"");
      var shown := if Scan(source, 0).value == [] then Some(decoded) else Format(decoded, ArgumentsOf(source, value));
      (shown == Some(Meaning(translated, value))) <==> !HoldsBackslashN(translated, 0, Scan(translated, 0).value)
  {
    var template := Template(source, translated).value;
    RenderedHoldsIff(source, translated);
    RenderingPreservesMeaning(source, translated, value);
    AndroidDecodesEscaped(template);
    if Scan(source, 0).value == [] {
      AndroidRoundTripIff(template);
    } else {
      FormatDecoded(template, ArgumentsOf(source, value));
    }
  }
}
