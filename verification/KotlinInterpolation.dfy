/** Finding `$name` and `${expression}` interpolations in Kotlin string templates. */
module KotlinInterpolation {
  import opened QuotedText
  import opened Results

  datatype Interpolation = Interpolation(start: nat, end: nat, value: string)

  predicate IsIdentifierStart(c: char) {
    'A' <= c <= 'Z' || 'a' <= c <= 'z' || c == '_'
  }

  predicate IsIdentifierPart(c: char) {
    IsIdentifierStart(c) || '0' <= c <= '9'
  }

  function IdentifierEnd(s: string, i: nat): (end: nat)
    requires i <= |s|
    ensures i <= end <= |s|
    decreases |s| - i
  {
    if i < |s| && IsIdentifierPart(s[i]) then IdentifierEnd(s, i + 1) else i
  }

  // Inside `${...}`: open braces, the quote being read, and whether the next character is escaped.
  datatype BraceState = BraceState(depth: nat, quote: Option<char>, escaped: bool) {
    function Next(c: char): BraceState
      requires depth > 0
    {
      if escaped then this.(escaped := false)
      else if quote.Some? && c == '\\' then this.(escaped := true)
      else if quote == Some(c) then this.(quote := None)
      else if quote.None? && (c == '"' || c == '\'') then this.(quote := Some(c))
      else if quote.None? && c == '{' then this.(depth := depth + 1)
      else if quote.None? && c == '}' then this.(depth := depth - 1)
      else this
    }
  }

  const OPENED := BraceState(1, None, false)

  // The index after the brace that closes the expression read so far, if there is one.
  function ClosedAt(s: string, i: nat, state: BraceState): (end: Option<nat>)
    requires i <= |s| && state.depth > 0
    ensures end.Some? ==> i < end.value <= |s|
    decreases |s| - i
  {
    if i == |s| then None
    else if state.Next(s[i]).depth == 0 then Some(i + 1)
    else ClosedAt(s, i + 1, state.Next(s[i]))
  }

  // An interpolation begins at k unless k lies inside an earlier one.
  predicate OpensAt(s: string, k: nat) {
    k + 1 < |s| && s[k] == '$' && (s[k + 1] == '{' || IsIdentifierStart(s[k + 1]))
  }

  function EndOf(s: string, k: nat): (end: Option<nat>)
    requires OpensAt(s, k)
    ensures end.Some? ==> k + 1 < end.value <= |s|
  {
    if s[k + 1] == '{' then ClosedAt(s, k + 2, OPENED) else Some(IdentifierEnd(s, k + 2))
  }

  function Prepend<T>(items: seq<T>, rest: Option<seq<T>>): Option<seq<T>> {
    if rest.None? then None else Some(items + rest.value)
  }

  lemma PrependLaws<T>(a: seq<T>, b: seq<T>, rest: Option<seq<T>>)
    ensures Prepend([], rest) == rest
    ensures Prepend(a, Prepend(b, rest)) == Prepend(a + b, rest)
    ensures Prepend(a, Some([])) == Some(a)
  {
    if rest.Some? {
      assert [] + rest.value == rest.value;
      assert a + (b + rest.value) == a + b + rest.value;
    }
    assert a + [] == a;
  }

  function Scan(s: string, i: nat): Option<seq<Interpolation>>
    requires i <= |s|
    decreases |s| - i
  {
    if i == |s| then Some([])
    else if !OpensAt(s, i) then Scan(s, i + 1)
    else
      var end := EndOf(s, i);
      if end.None? then None
      else Prepend([Interpolation(i, end.value, s[i..end.value])], Scan(s, end.value))
  }

  method ReadKotlinInterpolations(source: string) returns (result: Option<seq<Interpolation>>)
    ensures result == Scan(source, 0)
  {
    var interpolations: seq<Interpolation> := [];
    var index := 0;
    PrependLaws([], [], Scan(source, 0));
    while index < |source|
      invariant index <= |source|
      invariant Scan(source, 0) == Prepend(interpolations, Scan(source, index))
    {
      if source[index] != '$' {
        index := index + 1;
        continue;
      }
      if index + 1 == |source| || (source[index + 1] != '{' && !IsIdentifierStart(source[index + 1])) {
        index := index + 1;
        continue;
      }
      var start := index;
      if source[index + 1] != '{' {
        index := index + 2;
        while index < |source| && IsIdentifierPart(source[index])
          invariant start + 2 <= index <= |source|
          invariant IdentifierEnd(source, start + 2) == IdentifierEnd(source, index)
        {
          index := index + 1;
        }
        PrependLaws(interpolations, [Interpolation(start, index, source[start..index])], Scan(source, index));
        interpolations := interpolations + [Interpolation(start, index, source[start..index])];
        continue;
      }
      var state := OPENED;
      index := index + 2;
      while index < |source| && state.depth != 0
        invariant start + 2 <= index <= |source|
        invariant state.depth != 0 ==> ClosedAt(source, start + 2, OPENED) == ClosedAt(source, index, state)
        invariant state.depth == 0 ==> ClosedAt(source, start + 2, OPENED) == Some(index)
      {
        state := state.Next(source[index]);
        index := index + 1;
      }
      if state.depth != 0 {
        return None;
      }
      PrependLaws(interpolations, [Interpolation(start, index, source[start..index])], Scan(source, index));
      interpolations := interpolations + [Interpolation(start, index, source[start..index])];
    }
    PrependLaws(interpolations, [], None);
    return Some(interpolations);
  }

  // ----- what a successful scan returns

  /** Disjoint slices of s in increasing order, none beginning before `from`. */
  ghost predicate WellPlaced(s: string, from: nat, found: seq<Interpolation>)
    decreases |found|
  {
    from <= |s| &&
    (found != [] ==>
      && from <= found[0].start < found[0].end <= |s|
      && found[0].value == s[found[0].start..found[0].end]
      && WellPlaced(s, found[0].end, found[1..]))
  }

  ghost predicate Covered(k: nat, found: seq<Interpolation>) {
    exists j :: 0 <= j < |found| && found[j].start <= k < found[j].end
  }

  lemma {:induction false} ScanIsWellPlaced(s: string, i: nat)
    requires i <= |s|
    ensures Scan(s, i).Some? ==> WellPlaced(s, i, Scan(s, i).value)
    decreases |s| - i
  {
    if i < |s| {
      if !OpensAt(s, i) {
        ScanIsWellPlaced(s, i + 1);
      } else if EndOf(s, i).Some? {
        ScanIsWellPlaced(s, EndOf(s, i).value);
        assert Scan(s, i).Some? ==> Scan(s, i).value[1..] == Scan(s, EndOf(s, i).value).value;
      }
    }
  }

  /** Exactly the text outside the found slices is free of openers, and each slice begins with one. */
  lemma {:induction false} ScanMissesNothing(s: string, i: nat)
    requires i <= |s| && Scan(s, i).Some?
    ensures forall k :: i <= k < |s| && OpensAt(s, k) ==> Covered(k, Scan(s, i).value)
    ensures forall f :: f in Scan(s, i).value ==> OpensAt(s, f.start) && EndOf(s, f.start) == Some(f.end)
    decreases |s| - i
  {
    if i < |s| {
      if !OpensAt(s, i) {
        ScanMissesNothing(s, i + 1);
      } else {
        var end := EndOf(s, i).value;
        ScanMissesNothing(s, end);
        var rest, all := Scan(s, end).value, Scan(s, i).value;
        assert all[1..] == rest;
        forall k | i <= k < |s| && OpensAt(s, k) ensures Covered(k, all) {
          if k < end {
            assert all[0].start <= k < all[0].end;
          } else {
            var j :| 0 <= j < |rest| && rest[j].start <= k < rest[j].end;
            assert all[j + 1] == rest[j];
          }
        }
      }
    }
  }

  /** The scan fails exactly when some `${` that is not inside an earlier interpolation is never closed. */
  lemma {:induction false} ScanFailsIffUnbalanced(s: string, i: nat)
    requires i <= |s|
    ensures Scan(s, i).None? <==> exists k :: Reached(s, i, k) && OpensAt(s, k) && EndOf(s, k).None?
    decreases |s| - i
  {
    if i < |s| {
      if OpensAt(s, i) && EndOf(s, i).None? {
        assert Reached(s, i, i);
      } else {
        var next := if OpensAt(s, i) then EndOf(s, i).value else i + 1;
        ScanFailsIffUnbalanced(s, next);
        forall k: nat | k < |s| && OpensAt(s, k) && EndOf(s, k).None?
          ensures Reached(s, i, k) <==> Reached(s, next, k) {}
      }
    }
  }

  // The scanner, at i, comes to stand on k.
  predicate Reached(s: string, i: nat, k: nat)
    requires i <= |s|
    decreases |s| - i
  {
    i == k ||
    (i < k && i < |s| &&
     if !OpensAt(s, i) then Reached(s, i + 1, k)
     else EndOf(s, i).Some? && Reached(s, EndOf(s, i).value, k))
  }

  // ----- where a name ends

  lemma {:induction false} IdentifierRuns(s: string, i: nat)
    requires i <= |s|
    ensures var end := IdentifierEnd(s, i);
      && (forall k :: i <= k < end ==> IsIdentifierPart(s[k]))
      && (end < |s| ==> !IsIdentifierPart(s[end]))
    decreases |s| - i
  {
    if i < |s| && IsIdentifierPart(s[i]) { IdentifierRuns(s, i + 1); }
  }

  /** An interpolation without a brace is a dollar sign and the longest run of letters, digits and underscores after
      it, the first of them no digit. */
  lemma NameEndsWhereWordEnds(s: string, k: nat)
    requires OpensAt(s, k) && s[k + 1] != '{'
    ensures s[k] == '$' && ('A' <= s[k + 1] <= 'Z' || 'a' <= s[k + 1] <= 'z' || s[k + 1] == '_')
    ensures EndOf(s, k).Some?
    ensures forall j :: k < j < EndOf(s, k).value ==>
      'A' <= s[j] <= 'Z' || 'a' <= s[j] <= 'z' || s[j] == '_' || '0' <= s[j] <= '9'
    ensures var end := EndOf(s, k).value; end < |s| ==>
      !('A' <= s[end] <= 'Z' || 'a' <= s[end] <= 'z' || s[end] == '_' || '0' <= s[end] <= '9')
  {
    IdentifierRuns(s, k + 2);
  }

  /** An interpolation opens at every dollar sign before a brace, a letter or an underscore. */
  lemma OpensWhere(s: string, k: nat)
    requires k + 1 < |s| && s[k] == '$'
    requires s[k + 1] == '{' || 'A' <= s[k + 1] <= 'Z' || 'a' <= s[k + 1] <= 'z' || s[k + 1] == '_'
    ensures OpensAt(s, k)
  {
  }

  // ----- where a brace closes

  const QUOTES: Quotes := c => c == '"' || c == '\''

  // What one character adds to the open braces.
  function Opens(quoting: Quoting, c: char): int {
    if quoting.quote.Some? then 0 else if c == '{' then 1 else if c == '}' then -1 else 0
  }

  // How many braces are open after t, counting only unquoted ones and the one before t.
  function OpenBraces(t: string): int {
    if t == [] then 1 else OpenBraces(t[..|t| - 1]) + Opens(QuotingAfter(QUOTES, t[..|t| - 1]), t[|t| - 1])
  }

  /** That is one more than the unquoted opening braces less the unquoted closing ones. */
  lemma {:induction false} OpenBracesCountsUnquoted(t: string)
    ensures OpenBraces(t) == 1 + Count(Unquoted(QUOTES, t), '{') as int - Count(Unquoted(QUOTES, t), '}') as int
  {
    if t != [] {
      var init, c := t[..|t| - 1], t[|t| - 1];
      OpenBracesCountsUnquoted(init);
      CountOneMore(Unquoted(QUOTES, init), c, '{');
      CountOneMore(Unquoted(QUOTES, init), c, '}');
    }
  }

  ghost predicate Mirrors(state: BraceState, open: int, quoting: Quoting) {
    state.depth == open && Quoting(state.quote, state.escaped) == quoting && (quoting.escaped ==> quoting.quote.Some?)
  }

  lemma NextMirrors(state: BraceState, open: int, quoting: Quoting, c: char)
    requires Mirrors(state, open, quoting) && state.depth > 0
    ensures Mirrors(state.Next(c), open + Opens(quoting, c), quoting.Next(QUOTES, c))
  {
  }

  lemma OneMoreChar(t: string, c: char)
    ensures OpenBraces(t + [c]) == OpenBraces(t) + Opens(QuotingAfter(QUOTES, t), c)
    ensures QuotingAfter(QUOTES, t + [c]) == QuotingAfter(QUOTES, t).Next(QUOTES, c)
  {
    assert (t + [c])[..|t|] == t;
  }

  // The opening brace before i stays open at every index from j up to, but not including, e.
  ghost predicate StaysOpen(s: string, i: nat, j: nat, e: nat)
    requires i <= j && e <= |s| + 1
  {
    forall k :: j <= k < e ==> OpenBraces(s[i..k]) > 0
  }

  // The expression that began at i is closed at `end`, read on from j.
  ghost predicate Closes(s: string, i: nat, j: nat, end: Option<nat>)
    requires i <= j <= |s|
  {
    if end.None? then StaysOpen(s, i, j, |s| + 1)
    else j < end.value <= |s| && OpenBraces(s[i..end.value]) == 0 && StaysOpen(s, i, j, end.value)
  }

  lemma ClosesNowOrLater(s: string, i: nat, j: nat, end: Option<nat>)
    requires i <= j <= |s| && OpenBraces(s[i..j]) > 0
    requires (end.None? && j == |s|)
      || (j < |s| && end == Some(j + 1) && OpenBraces(s[i..j + 1]) == 0)
      || (j < |s| && Closes(s, i, j + 1, end))
    ensures Closes(s, i, j, end)
  {
  }

  lemma {:induction false} ClosesFrom(s: string, i: nat, j: nat, state: BraceState, open: int, quoting: Quoting)
    requires i <= j <= |s| && Mirrors(state, open, quoting) && state.depth > 0
    requires open == OpenBraces(s[i..j]) && quoting == QuotingAfter(QUOTES, s[i..j])
    ensures Closes(s, i, j, ClosedAt(s, j, state))
    decreases |s| - j
  {
    if j < |s| {
      var next, t := state.Next(s[j]), s[i..j];
      NextMirrors(state, open, quoting, s[j]);
      OneMoreChar(t, s[j]);
      assert s[i..j + 1] == t + [s[j]];
      if next.depth > 0 {
        ClosesFrom(s, i, j + 1, next, open + Opens(quoting, s[j]), quoting.Next(QUOTES, s[j]));
      }
    }
    ClosesNowOrLater(s, i, j, ClosedAt(s, j, state));
  }

  /** A braced interpolation ends right after the first brace at which its unquoted braces balance; it is unclosed
      exactly when they never do. */
  lemma BraceClosesWhereBalanced(s: string, k: nat)
    requires OpensAt(s, k) && s[k + 1] == '{'
    ensures Closes(s, k + 2, k + 2, EndOf(s, k))
  {
    assert s[k + 2..k + 2] == [];
    ClosesFrom(s, k + 2, k + 2, OPENED, 1, Quoting(None, false));
  }
}
