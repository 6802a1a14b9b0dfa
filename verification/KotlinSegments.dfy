/** Cutting Kotlin parameter and argument lists at their top-level commas. */
module KotlinSegments {
  import opened QuotedText
  import opened Results
  import opened Text
  import opened TopLevelSplit

  datatype Nesting = Nesting(quoted: bool, escaped: bool, typeArguments: nat, inDefaultValue: bool, parens: int,
      brackets: int, braces: int) {
    predicate DepthsAreZero() {
      parens == 0 && brackets == 0 && braces == 0
    }

    function Next(c: char, trackTypeArguments: bool): Nesting {
      if escaped then this.(escaped := false)
      else if quoted && c == '\\' then this.(escaped := true)
      else if c == '"' then this.(quoted := !quoted)
      else if quoted then this
      else if trackTypeArguments && !inDefaultValue && c == '<' then this.(typeArguments := typeArguments + 1)
      else if trackTypeArguments && c == '>' && typeArguments > 0 then this.(typeArguments := typeArguments - 1)
      else match c
        case '(' => this.(parens := parens + 1)
        case '[' => this.(brackets := brackets + 1)
        case '{' => this.(braces := braces + 1)
        case ')' => this.(parens := parens - 1)
        case ']' => this.(brackets := brackets - 1)
        case '}' => this.(braces := braces - 1)
        case '=' => if trackTypeArguments && typeArguments == 0 && DepthsAreZero() then this.(inDefaultValue := true)
          else this
        case _ => this
    }

    // A comma here ends a segment, and the next one begins outside any default value.
    predicate Separates(c: char) {
      c == ',' && !quoted && !escaped && typeArguments == 0 && DepthsAreZero()
    }
  }

  const TOP_LEVEL := Nesting(false, false, 0, false, 0, 0, 0)

  function Segments(trackTypeArguments: bool): Scanner<Nesting> {
    Scanner(TOP_LEVEL, (state: Nesting, c) => state.Next(c, trackTypeArguments),
      (state: Nesting, c) => state.Separates(c))
  }

  // ----- what the scanner's variables count

  const QUOTES: Quotes := c => c == '"'

  // Opening less closing brackets, which may be negative.
  function Balance(u: string): (int, int, int) {
    (Count(u, '(') as int - Count(u, ')') as int,
     Count(u, '[') as int - Count(u, ']') as int,
     Count(u, '{') as int - Count(u, '}') as int)
  }

  // The character at k is an equals sign outside all brackets and type arguments.
  predicate BeginsDefault(u: string, k: nat)
    requires k < |u|
  {
    u[k] == '=' && StillOpen(u[..k], '<', '>') == 0 && Balance(u[..k]) == (0, 0, 0)
  }

  ghost predicate HasDefault(u: string) {
    exists k :: 0 <= k < |u| && BeginsDefault(u, k)
  }

  lemma HasDefaultMore(u: string, c: char)
    ensures HasDefault(u + [c]) <==>
      HasDefault(u) || (c == '=' && StillOpen(u, '<', '>') == 0 && Balance(u) == (0, 0, 0))
  {
    var v := u + [c];
    forall k | 0 <= k < |u| ensures BeginsDefault(v, k) <==> BeginsDefault(u, k) {
      assert v[..k] == u[..k];
    }
    assert v[..|u|] == u && v[|u|] == c;
    assert BeginsDefault(v, |u|) <==> c == '=' && StillOpen(u, '<', '>') == 0 && Balance(u) == (0, 0, 0);
  }

  // What a text outside quotes amounts to: brackets, angle brackets, and whether a default value began.
  datatype Totals = Totals(balance: (int, int, int), angles: nat, hasDefault: bool)

  ghost function TotalsOf(u: string): Totals {
    Totals(Balance(u), StillOpen(u, '<', '>'), HasDefault(u))
  }

  function NextBalance(b: (int, int, int), c: char): (int, int, int) {
    (b.0 + if c == '(' then 1 else if c == ')' then -1 else 0,
     b.1 + if c == '[' then 1 else if c == ']' then -1 else 0,
     b.2 + if c == '{' then 1 else if c == '}' then -1 else 0)
  }

  function NextTotals(t: Totals, c: char): Totals {
    Totals(
      NextBalance(t.balance, c),
      if c == '<' then t.angles + 1 else if c == '>' && t.angles > 0 then t.angles - 1 else t.angles,
      t.hasDefault || (c == '=' && t.angles == 0 && t.balance == (0, 0, 0)))
  }

  lemma BalanceOneMore(u: string, c: char)
    ensures Balance(u + [c]) == NextBalance(Balance(u), c)
  {
    forall x ensures Count(u + [c], x) == Count(u, x) + if c == x then 1 else 0 { CountOneMore(u, c, x); }
  }

  lemma TotalsOneMore(u: string, c: char)
    ensures TotalsOf(u + [c]) == NextTotals(TotalsOf(u), c) && TotalsOf(u + []) == TotalsOf(u)
  {
    assert u + [] == u;
    OneMoreOpen(u, c, '<', '>');
    HasDefaultMore(u, c);
    BalanceOneMore(u, c);
  }

  /** What the state is when the text outside quotes amounts to t. */
  predicate Counts(state: Nesting, quoting: Quoting, t: Totals, trackTypeArguments: bool) {
    && state.quoted == quoting.quote.Some? && state.escaped == quoting.escaped
    && (quoting.quote.Some? ==> quoting.quote == Some('"'))
    && (state.parens, state.brackets, state.braces) == t.balance
    && (state.inDefaultValue <==> trackTypeArguments && t.hasDefault)
    && state.typeArguments == if trackTypeArguments && !t.hasDefault then t.angles else 0
  }

  lemma CountsOneMore(state: Nesting, quoting: Quoting, t: Totals, trackTypeArguments: bool, c: char)
    requires Counts(state, quoting, t, trackTypeArguments) && (quoting.quote.None? ==> quoting == UNQUOTED)
    ensures Counts(state.Next(c, trackTypeArguments), quoting.Next(QUOTES, c),
                   if quoting.quote.Some? || c == '"' then t else NextTotals(t, c), trackTypeArguments)
  {
  }

  /** After any text: quotes are read as everywhere; each depth is the opening less the closing brackets outside
      quotes; and, when type arguments are tracked, a default value began at the first equals sign outside all
      brackets, before which the open angle brackets are counted. */
  lemma {:induction false} NestingIsCounted(s: string, trackTypeArguments: bool)
    ensures Counts(After(Segments(trackTypeArguments), TOP_LEVEL, s), QuotingAfter(QUOTES, s),
                   TotalsOf(Unquoted(QUOTES, s)), trackTypeArguments)
  {
    if s != [] {
      NestingIsCounted(s[..|s| - 1], trackTypeArguments);
      NestingStep(s[..|s| - 1], trackTypeArguments, s[|s| - 1]);
      assert s == s[..|s| - 1] + [s[|s| - 1]];
    }
  }

  lemma NestingStep(s: string, trackTypeArguments: bool, c: char)
    requires Counts(After(Segments(trackTypeArguments), TOP_LEVEL, s), QuotingAfter(QUOTES, s),
                    TotalsOf(Unquoted(QUOTES, s)), trackTypeArguments)
    ensures Counts(After(Segments(trackTypeArguments), TOP_LEVEL, s + [c]), QuotingAfter(QUOTES, s + [c]),
                   TotalsOf(Unquoted(QUOTES, s + [c])), trackTypeArguments)
  {
    var state, quoting := After(Segments(trackTypeArguments), TOP_LEVEL, s), QuotingAfter(QUOTES, s);
    var u := Unquoted(QUOTES, s);
    ReadOneChar(s, trackTypeArguments, c);
    NeverEscapedOutside(QUOTES, s);
    OneMore(QUOTES, s, c);
    TotalsOneMore(u, c);
    CountsOneMore(state, quoting, TotalsOf(u), trackTypeArguments, c);
    assert TotalsOf(Unquoted(QUOTES, s + [c])) ==
      if quoting.quote.Some? || c == '"' then TotalsOf(u) else NextTotals(TotalsOf(u), c);
  }

  lemma ReadOneChar(s: string, trackTypeArguments: bool, c: char)
    ensures var m := Segments(trackTypeArguments);
      After(m, TOP_LEVEL, s + [c]) == After(m, TOP_LEVEL, s).Next(c, trackTypeArguments)
  {
    AfterConcat(Segments(trackTypeArguments), TOP_LEVEL, s, [c]);
    assert [c][1..] == [];
  }

  /** A comma ends a segment exactly when it is outside quotes, outside all brackets, and outside the type arguments
      that are still open where they are tracked. */
  lemma SeparatesIff(s: string, trackTypeArguments: bool, c: char)
    ensures var u := Unquoted(QUOTES, s);
      Segments(trackTypeArguments).separates(After(Segments(trackTypeArguments), TOP_LEVEL, s), c) <==>
        && c == ',' && QuotingAfter(QUOTES, s).quote.None? && Balance(u) == (0, 0, 0)
        && (trackTypeArguments ==> HasDefault(u) || StillOpen(u, '<', '>') == 0)
  {
    NestingIsCounted(s, trackTypeArguments);
    NeverEscapedOutside(QUOTES, s);
  }

  // One character of the source: either a segment ends or it grows.
  lemma ReadSegmentChar(trackTypeArguments: bool, state: Nesting, source: string, segmentStart: nat, index: nat,
      end: nat)
    requires segmentStart <= index < end <= |source|
    ensures Remaining(Segments(trackTypeArguments), state, source, segmentStart, index, end)
      == if state.Separates(source[index])
         then [source[segmentStart..index]]
           + Remaining(Segments(trackTypeArguments), TOP_LEVEL, source, index + 1, index + 1, end)
         else Remaining(Segments(trackTypeArguments), state.Next(source[index], trackTypeArguments), source,
           segmentStart, index + 1, end)
  {
    ReadOneMore(Segments(trackTypeArguments), state, source, segmentStart, index, end);
  }

  // The body of the loop: how one character changes the scanner's variables, and whether a segment ends before it.
  method ReadCharacter(before: Nesting, character: char, trackTypeArguments: bool)
    returns (separates: bool, state: Nesting)
    ensures separates == before.Separates(character)
    ensures state == if separates then TOP_LEVEL else before.Next(character, trackTypeArguments)
  {
    separates, state := false, before;
    if state.escaped {
      state := state.(escaped := false);
      return;
    }
    if state.quoted && character == '\\' {
      state := state.(escaped := true);
      return;
    }
    if character == '"' {
      state := state.(quoted := !state.quoted);
      return;
    }
    if state.quoted {
      return;
    }
    if trackTypeArguments && !state.inDefaultValue && character == '<' {
      state := state.(typeArguments := state.typeArguments + 1);
      return;
    }
    if trackTypeArguments && character == '>' && state.typeArguments > 0 {
      state := state.(typeArguments := state.typeArguments - 1);
      return;
    }
    match character
    case '(' => state := state.(parens := state.parens + 1);
    case '[' => state := state.(brackets := state.brackets + 1);
    case '{' => state := state.(braces := state.braces + 1);
    case ')' => state := state.(parens := state.parens - 1);
    case ']' => state := state.(brackets := state.brackets - 1);
    case '}' => state := state.(braces := state.braces - 1);
    case _ =>
      if trackTypeArguments && character == '=' && state.typeArguments == 0 && state.DepthsAreZero() {
        state := state.(inDefaultValue := true);
        return;
      }
      if character == ',' && state.typeArguments == 0 && state.DepthsAreZero() {
        separates := true;
        state := state.(inDefaultValue := false);
      }
  }

  method SplitTopLevelSegments(source: string, start: nat, end: nat, trackTypeArguments: bool)
    returns (segments: seq<Segment>)
    requires start <= end <= |source|
    ensures Values(segments) == Cut(Segments(trackTypeArguments), TOP_LEVEL, [], source[start..end])
    ensures Tile(source, start, end, segments)
  {
    segments := [];
    var segmentStart := start;
    var state := TOP_LEVEL;
    ghost var m := Segments(trackTypeArguments);
    ghost var whole := Cut(m, TOP_LEVEL, [], source[start..end]);
    ghost var left := whole;
    RemainingAtEnds(m, TOP_LEVEL, source, start, end);
    for index := start to end
      invariant start <= segmentStart <= index
      invariant whole == Values(segments) + left
      invariant left == Remaining(m, state, source, segmentStart, index, end)
      invariant TileUpTo(source, start, segmentStart, segments)
    {
      var character := source[index];
      ReadSegmentChar(trackTypeArguments, state, source, segmentStart, index, end);
      var separates;
      separates, state := ReadCharacter(state, character, trackTypeArguments);
      if separates {
        TileOneMore(source, start, segmentStart, index, segments);
        ghost var rest := Remaining(m, TOP_LEVEL, source, index + 1, index + 1, end);
        MoveOne(Values(segments), left, source[segmentStart..index], rest);
        left := rest;
        segments := segments + [Segment(segmentStart, index, source[segmentStart..index])];
        segmentStart := index + 1;
      }
    }
    RemainingAtEnds(m, state, source, segmentStart, end);
    TileOneMore(source, start, segmentStart, end, segments);
    segments := segments + [Segment(segmentStart, end, source[segmentStart..end])];
  }

  /** The segments are the unique separable pieces whose comma-join is the text between start and end. */
  lemma SegmentsAreUnique(source: string, start: nat, end: nat, trackTypeArguments: bool, pieces: seq<string>)
    requires start <= end <= |source|
    ensures Separable(Segments(trackTypeArguments), pieces) && Join(pieces, ",") == source[start..end]
      <==> pieces == Cut(Segments(trackTypeArguments), TOP_LEVEL, [], source[start..end])
  {
    var m := Segments(trackTypeArguments);
    var text := source[start..end];
    CutThenJoin(m, TOP_LEVEL, [], text);
    CutIsSeparable(m, TOP_LEVEL, [], text);
    assert [] + text == text;
    if Separable(m, pieces) && Join(pieces, ",") == text {
      JoinThenCut(m, pieces);
    }
  }
}
