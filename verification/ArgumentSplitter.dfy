/** The quote-aware scanners of the temp-path guardrail: matching parenthesis and top-level arguments. */
module ArgumentSplitter {
  import opened QuotedText
  import opened Results
  import opened Text
  import opened TopLevelSplit

  predicate IsQuote(c: char) {
    c == '\'' || c == '"' || c == '`'
  }

  const QUOTES: Quotes := c => IsQuote(c)

  class QuoteScanState {
    var quote: Option<char>
    var escaped: bool

    function View(): Quoting
      reads this
    {
      Quoting(quote, escaped)
    }

    constructor ()
      ensures View() == UNQUOTED
    {
      quote := None;
      escaped := false;
    }

    method BeginQuotedSection(ch: char) returns (begun: bool)
      requires quote.None?
      modifies this
      ensures begun <==> ch == '\'' || ch == '"' || ch == '`'
      ensures View() == old(View()).Next(QUOTES, ch)
    {
      if ch != '\'' && ch != '"' && ch != '`' {
        return false;
      }
      quote := Some(ch);
      return true;
    }

    method ConsumeQuotedChar(ch: char) returns (consumed: bool)
      modifies this
      ensures consumed == old(quote).Some?
      ensures View() == if consumed then old(View()).Next(QUOTES, ch) else old(View())
    {
      if quote.None? {
        return false;
      }
      if escaped {
        escaped := false;
        return true;
      }
      if ch == '\\' {
        escaped := true;
        return true;
      }
      if Some(ch) == quote {
        quote := None;
      }
      return true;
    }
  }

  // ----- the matching parenthesis

  // How many parentheses are open after s, counting only unquoted ones and the one before s.
  function OpenAfter(s: string): int {
    if s == [] then 1
    else
      var init, c := s[..|s| - 1], s[|s| - 1];
      OpenAfter(init) +
        if QuotingAfter(QUOTES, init).quote.Some? then 0 else if c == '(' then 1 else if c == ')' then -1 else 0
  }

  /** The depth is one more than the unquoted opening parentheses less the unquoted closing ones. */
  lemma {:induction false} OpenAfterCountsUnquoted(s: string)
    ensures OpenAfter(s) == 1 + Count(Unquoted(QUOTES, s), '(') as int - Count(Unquoted(QUOTES, s), ')') as int
  {
    if s != [] {
      var init, c := s[..|s| - 1], s[|s| - 1];
      OpenAfterCountsUnquoted(init);
      CountOneMore(Unquoted(QUOTES, init), c, '(');
      CountOneMore(Unquoted(QUOTES, init), c, ')');
    }
  }

  // ... between the parenthesis at `open` and `end`.
  function OpenBetween(source: string, open: nat, end: nat): int
    requires open < end <= |source|
  {
    OpenAfter(source[open + 1..end])
  }

  lemma ReadOneMore(source: string, open: nat, i: nat)
    requires open < i < |source|
    ensures QuotingAfter(QUOTES, source[open + 1..i + 1])
      == QuotingAfter(QUOTES, source[open + 1..i]).Next(QUOTES, source[i])
    ensures OpenBetween(source, open, i + 1) == OpenBetween(source, open, i)
      + if QuotingAfter(QUOTES, source[open + 1..i]).quote.Some? then 0
        else if source[i] == '(' then 1 else if source[i] == ')' then -1 else 0
  {
    var s := source[open + 1..i + 1];
    assert s[..|s| - 1] == source[open + 1..i] && s[|s| - 1] == source[i];
  }

  ghost predicate StaysOpen(source: string, open: nat, end: nat)
    requires open < end <= |source|
  {
    forall e :: open < e <= end ==> OpenBetween(source, open, e) != 0
  }

  lemma StaysOpenLonger(source: string, open: nat, i: nat)
    requires open < i < |source| && StaysOpen(source, open, i)
    ensures OpenBetween(source, open, i + 1) != 0 ==> StaysOpen(source, open, i + 1)
  {
    if OpenBetween(source, open, i + 1) != 0 {
      forall e | open < e <= i + 1 ensures OpenBetween(source, open, e) != 0 {}
    }
  }

  // The parenthesis at openIndex is closed at the first index where the unquoted depth reaches zero.
  method FindMatchingParen(source: string, openIndex: nat) returns (index: int)
    ensures index == -1 || openIndex < index < |source|
    ensures index != -1 ==> OpenBetween(source, openIndex, index + 1) == 0 && StaysOpen(source, openIndex, index)
    ensures index == -1 ==> openIndex >= |source| || StaysOpen(source, openIndex, |source|)
    ensures index != -1 ==> source[index] == ')' && QuotingAfter(QUOTES, source[openIndex + 1..index]).quote.None?
  {
    if openIndex >= |source| {
      return -1;
    }
    var depth := 1;
    ghost var quoting, open := UNQUOTED, 1;
    var quoteState := new QuoteScanState();
    for i := openIndex + 1 to |source|
      invariant fresh(quoteState)
      invariant quoteState.View() == quoting && depth == open
      invariant quoting == QuotingAfter(QUOTES, source[openIndex + 1..i]) && open == OpenBetween(source, openIndex, i)
      invariant StaysOpen(source, openIndex, i)
    {
      var ch := source[i];
      ReadOneMore(source, openIndex, i);
      quoting, open := QuotingAfter(QUOTES, source[openIndex + 1..i + 1]), OpenBetween(source, openIndex, i + 1);
      StaysOpenLonger(source, openIndex, i);
      var consumed := quoteState.ConsumeQuotedChar(ch);
      if consumed {
        continue;
      }
      var begun := quoteState.BeginQuotedSection(ch);
      if begun {
        continue;
      }
      if ch == '(' {
        depth := depth + 1;
        continue;
      }
      if ch == ')' {
        depth := depth - 1;
        if depth == 0 {
          assert open == 0;
          return i;
        }
      }
    }
    return -1;
  }

  // ----- top-level arguments

  datatype Nesting = Nesting(quoting: Quoting, parens: nat, brackets: nat, braces: nat) {
    function Next(c: char): Nesting {
      if quoting.quote.Some? || IsQuote(c) then this.(quoting := quoting.Next(QUOTES, c))
      else match c
        case '(' => this.(parens := parens + 1)
        case ')' => this.(parens := if parens > 0 then parens - 1 else 0)
        case '[' => this.(brackets := brackets + 1)
        case ']' => this.(brackets := if brackets > 0 then brackets - 1 else 0)
        case '{' => this.(braces := braces + 1)
        case '}' => this.(braces := if braces > 0 then braces - 1 else 0)
        case _ => this
    }

    predicate Separates(c: char) {
      c == ',' && this == TOP_LEVEL
    }
  }

  const TOP_LEVEL := Nesting(UNQUOTED, 0, 0, 0)
  const ARGUMENTS: Scanner<Nesting> :=
    Scanner(TOP_LEVEL, (state: Nesting, c) => state.Next(c), (state: Nesting, c) => state.Separates(c))

  // The three depths after a text, told from its characters outside quotes.
  function Depths(unquoted: string): (nat, nat, nat) {
    (StillOpen(unquoted, '(', ')'), StillOpen(unquoted, '[', ']'), StillOpen(unquoted, '{', '}'))
  }

  // One more character outside quotes.
  function NextDepths(d: (nat, nat, nat), c: char): (nat, nat, nat) {
    match c
    case '(' => (d.0 + 1, d.1, d.2)
    case ')' => (if d.0 > 0 then d.0 - 1 else 0, d.1, d.2)
    case '[' => (d.0, d.1 + 1, d.2)
    case ']' => (d.0, if d.1 > 0 then d.1 - 1 else 0, d.2)
    case '{' => (d.0, d.1, d.2 + 1)
    case '}' => (d.0, d.1, if d.2 > 0 then d.2 - 1 else 0)
    case _ => d
  }

  lemma OneMoreBracket(u: string, c: char)
    ensures Depths(u + [c]) == NextDepths(Depths(u), c) && Depths(u + []) == Depths(u)
  {
    OneMoreOpen(u, c, '(', ')');
    OneMoreOpen(u, c, '[', ']');
    OneMoreOpen(u, c, '{', '}');
  }

  predicate Counts(state: Nesting, quoting: Quoting, depths: (nat, nat, nat)) {
    state.quoting == quoting && (state.parens, state.brackets, state.braces) == depths
  }

  lemma CountsOneMore(state: Nesting, quoting: Quoting, depths: (nat, nat, nat), c: char)
    requires Counts(state, quoting, depths)
    ensures Counts(state.Next(c), quoting.Next(QUOTES, c),
      if quoting.quote.Some? || IsQuote(c) then depths else NextDepths(depths, c))
  {
  }

  /** After any text each depth is the number of brackets of its kind, outside quotes, that are still open. */
  lemma {:induction false} NestingIsCounted(s: string)
    ensures Counts(After(ARGUMENTS, TOP_LEVEL, s), QuotingAfter(QUOTES, s), Depths(Unquoted(QUOTES, s)))
  {
    if s != [] {
      var init, c := s[..|s| - 1], s[|s| - 1];
      NestingIsCounted(init);
      ReadOneChar(init, c);
      OneMore(QUOTES, init, c);
      OneMoreBracket(Unquoted(QUOTES, init), c);
      CountsOneMore(After(ARGUMENTS, TOP_LEVEL, init), QuotingAfter(QUOTES, init), Depths(Unquoted(QUOTES, init)), c);
      assert s == init + [c];
    }
  }

  lemma ReadOneChar(s: string, c: char)
    ensures After(ARGUMENTS, TOP_LEVEL, s + [c]) == After(ARGUMENTS, TOP_LEVEL, s).Next(c)
  {
    AfterConcat(ARGUMENTS, TOP_LEVEL, s, [c]);
    assert [c][1..] == [];
  }

  /** A comma separates two arguments exactly when it is outside quotes and no bracket of any kind is open. */
  lemma SeparatesIff(s: string, c: char)
    ensures ARGUMENTS.separates(After(ARGUMENTS, TOP_LEVEL, s), c) <==>
      c == ',' && QuotingAfter(QUOTES, s).quote.None? && Depths(Unquoted(QUOTES, s)) == (0, 0, 0)
  {
    NestingIsCounted(s);
    NeverEscapedOutside(QUOTES, s);
  }

  // Every piece trimmed; a blank last piece is dropped.
  function Trimmed(pieces: seq<string>): seq<string>
    requires pieces != []
  {
    if |pieces| == 1 then (if Trim(pieces[0]) == [] then [] else [Trim(pieces[0])])
    else [Trim(pieces[0])] + Trimmed(pieces[1..])
  }

  // The arguments still to be returned once source[..i] is read, `current` being the argument begun.
  function Remaining(state: Nesting, current: string, source: string, i: nat): seq<string>
    requires i <= |source|
  {
    Trimmed(Cut(ARGUMENTS, state, current, source[i..]))
  }

  // One character of the source: either a piece is finished or it grows.
  lemma ReadArgumentChar(state: Nesting, current: string, source: string, i: nat)
    requires i < |source|
    ensures Remaining(state, current, source, i)
      == if state.Separates(source[i]) then [Trim(current)] + Remaining(TOP_LEVEL, [], source, i + 1)
         else Remaining(state.Next(source[i]), current + [source[i]], source, i + 1)
  {
    assert source[i..][1..] == source[i + 1..];
    var rest := Cut(ARGUMENTS, TOP_LEVEL, [], source[i + 1..]);
    assert ([current] + rest)[1..] == rest;
  }

  method TrackBrackets(ch: char, parenDepth: nat, bracketDepth: nat, braceDepth: nat)
    returns (parens: nat, brackets: nat, braces: nat)
    requires !IsQuote(ch)
    ensures Nesting(UNQUOTED, parens, brackets, braces)
      == Nesting(UNQUOTED, parenDepth, bracketDepth, braceDepth).Next(ch)
  {
    parens, brackets, braces := parenDepth, bracketDepth, braceDepth;
    if ch == '(' {
      parens := parens + 1;
    } else if ch == ')' {
      if parens > 0 {
        parens := parens - 1;
      }
    } else if ch == '[' {
      brackets := brackets + 1;
    } else if ch == ']' {
      if brackets > 0 {
        brackets := brackets - 1;
      }
    } else if ch == '{' {
      braces := braces + 1;
    } else if ch == '}' {
      if braces > 0 {
        braces := braces - 1;
      }
    }
  }

  method SplitTopLevelArguments(source: string) returns (out: seq<string>)
    ensures out == Trimmed(Cut(ARGUMENTS, TOP_LEVEL, [], source))
  {
    out := [];
    var current := "";
    var parenDepth, bracketDepth, braceDepth := 0, 0, 0;
    var quoteState := new QuoteScanState();
    ghost var whole := Trimmed(Cut(ARGUMENTS, TOP_LEVEL, [], source));
    ghost var left := whole;
    assert source[0..] == source;
    for i := 0 to |source|
      invariant fresh(quoteState)
      invariant parenDepth >= 0 && bracketDepth >= 0 && braceDepth >= 0
      invariant quoteState.quote.None? ==> !quoteState.escaped
      invariant whole == out + left
      invariant left == Remaining(Nesting(quoteState.View(), parenDepth, bracketDepth, braceDepth), current, source, i)
    {
      var ch := source[i];
      ReadArgumentChar(Nesting(quoteState.View(), parenDepth, bracketDepth, braceDepth), current, source, i);
      if quoteState.quote.Some? {
        current := current + [ch];
        var _ := quoteState.ConsumeQuotedChar(ch);
        continue;
      }
      var begun := quoteState.BeginQuotedSection(ch);
      if begun {
        current := current + [ch];
        continue;
      }
      if ch == ',' && parenDepth == 0 && bracketDepth == 0 && braceDepth == 0 {
        MoveOne(out, left, Trim(current), Remaining(TOP_LEVEL, "", source, i + 1));
        left := Remaining(TOP_LEVEL, "", source, i + 1);
        out := out + [Trim(current)];
        current := "";
        continue;
      }
      parenDepth, bracketDepth, braceDepth := TrackBrackets(ch, parenDepth, bracketDepth, braceDepth);
      current := current + [ch];
    }
    if Trim(current) != "" {
      out := out + [Trim(current)];
    }
  }

  /** Splitting undoes joining, up to trimming and a blank last argument. */
  lemma SplitUndoesJoin(arguments: seq<string>)
    requires Separable(ARGUMENTS, arguments)
    ensures Trimmed(Cut(ARGUMENTS, TOP_LEVEL, [], Join(arguments, ","))) == Trimmed(arguments)
  {
    JoinThenCut(ARGUMENTS, arguments);
  }

  /** With a last argument that is not blank every argument is returned, trimmed. */
  lemma {:induction false} TrimmedKeepsAll(pieces: seq<string>)
    requires pieces != [] && Trim(pieces[|pieces| - 1]) != []
    ensures Trimmed(pieces) == seq(|pieces|, i requires 0 <= i < |pieces| => Trim(pieces[i]))
  {
    if |pieces| > 1 { TrimmedKeepsAll(pieces[1..]); }
  }

  /** A blank last argument is dropped, and only that one. */
  lemma {:induction false} TrimmedDropsBlankLast(pieces: seq<string>)
    requires pieces != [] && Trim(pieces[|pieces| - 1]) == []
    ensures Trimmed(pieces) == seq(|pieces| - 1, i requires 0 <= i < |pieces| - 1 => Trim(pieces[i]))
  {
    if |pieces| > 1 { TrimmedDropsBlankLast(pieces[1..]); }
  }

  /** What the splitter trims are the unique separable pieces whose comma-join is the source. */
  lemma PiecesAreUnique(source: string, pieces: seq<string>)
    ensures Separable(ARGUMENTS, pieces) && Join(pieces, ",") == source <==>
      pieces == Cut(ARGUMENTS, TOP_LEVEL, [], source)
  {
    CutThenJoin(ARGUMENTS, TOP_LEVEL, [], source);
    CutIsSeparable(ARGUMENTS, TOP_LEVEL, [], source);
    assert [] + source == source;
    if Separable(ARGUMENTS, pieces) && Join(pieces, ",") == source {
      JoinThenCut(ARGUMENTS, pieces);
    }
  }
}
