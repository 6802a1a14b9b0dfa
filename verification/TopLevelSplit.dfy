/** Cutting a text at its top-level separators, for any scanner that is back in its start state there. */
module TopLevelSplit {
  import opened Text

  // `separates(state, c)` holds when c, read in that state, is a top-level separator.
  datatype Scanner<!S> = Scanner(start: S, step: (S, char) -> S, separates: (S, char) -> bool)

  function After<S>(m: Scanner<S>, state: S, s: string): S {
    if s == [] then state else After(m, m.step(state, s[0]), s[1..])
  }

  // The pieces of s between separators, when `current` has been read of the first piece.
  function Cut<S>(m: Scanner<S>, state: S, current: string, s: string): (pieces: seq<string>)
    ensures pieces != []
    decreases |s|
  {
    if s == [] then [current]
    else if m.separates(state, s[0]) then [current] + Cut(m, m.start, [], s[1..])
    else Cut(m, m.step(state, s[0]), current + [s[0]], s[1..])
  }

  predicate NeverSeparates<S>(m: Scanner<S>, state: S, s: string) {
    s == [] || (!m.separates(state, s[0]) && NeverSeparates(m, m.step(state, s[0]), s[1..]))
  }

  /** Pieces without top-level separators, each but the last ending where the scanner started. */
  ghost predicate Separable<S>(m: Scanner<S>, pieces: seq<string>) {
    && pieces != []
    && (forall i :: 0 <= i < |pieces| ==> NeverSeparates(m, m.start, pieces[i]))
    && (forall i :: 0 <= i < |pieces| - 1 ==> m.separates(After(m, m.start, pieces[i]), ','))
  }

  ghost predicate OnlyCommas<S(!new)>(m: Scanner<S>) {
    forall state, c :: m.separates(state, c) ==> c == ','
  }

  lemma {:induction false} AfterConcat<S>(m: Scanner<S>, state: S, a: string, b: string)
    ensures After(m, state, a + b) == After(m, After(m, state, a), b)
    ensures NeverSeparates(m, state, a + b) <==> NeverSeparates(m, state, a) && NeverSeparates(m, After(m, state, a), b)
  {
    if a == [] {
      assert a + b == b;
    } else {
      assert (a + b)[1..] == a[1..] + b;
      AfterConcat(m, m.step(state, a[0]), a[1..], b);
    }
  }

  lemma JoinFirst(first: string, rest: seq<string>)
    requires rest != []
    ensures Join([first] + rest, ",") == first + "," + Join(rest, ",")
  {
    assert ([first] + rest)[1..] == rest;
  }

  lemma SeparableCons<S>(m: Scanner<S>, first: string, rest: seq<string>)
    requires rest != []
    ensures Separable(m, [first] + rest) <==>
      NeverSeparates(m, m.start, first) && m.separates(After(m, m.start, first), ',') && Separable(m, rest)
  {
    var pieces := [first] + rest;
    assert pieces[0] == first && forall i :: 0 <= i < |rest| ==> pieces[i + 1] == rest[i];
  }

  lemma JoinText(current: string, c: char, rest: string)
    ensures current + [c] + rest == current + ([c] + rest)
    ensures [] + rest == rest && current + [] == current
  {
  }

  /** Joining the pieces gives the text back. */
  lemma {:induction false} CutThenJoin<S(!new)>(m: Scanner<S>, state: S, current: string, s: string)
    requires OnlyCommas(m)
    ensures Join(Cut(m, state, current, s), ",") == current + s
    decreases |s|
  {
    if s == [] {
      JoinText(current, ',', []);
    } else {
      assert [s[0]] + s[1..] == s;
      JoinText(current, s[0], s[1..]);
      if m.separates(state, s[0]) {
        CutThenJoin(m, m.start, [], s[1..]);
        JoinFirst(current, Cut(m, m.start, [], s[1..]));
      } else {
        CutThenJoin(m, m.step(state, s[0]), current + [s[0]], s[1..]);
      }
    }
  }

  /** The pieces of a cut are separable. */
  lemma {:induction false} CutIsSeparable<S(!new)>(m: Scanner<S>, state: S, current: string, s: string)
    requires OnlyCommas(m)
    requires NeverSeparates(m, m.start, current) && After(m, m.start, current) == state
    ensures Separable(m, Cut(m, state, current, s))
    decreases |s|
  {
    if s != [] {
      if m.separates(state, s[0]) {
        CutIsSeparable(m, m.start, [], s[1..]);
        SeparableCons(m, current, Cut(m, m.start, [], s[1..]));
      } else {
        AfterConcat(m, m.start, current, [s[0]]);
        assert After(m, state, [s[0]]) == m.step(state, s[0]);
        CutIsSeparable(m, m.step(state, s[0]), current + [s[0]], s[1..]);
      }
    }
  }

  // Reading a piece without separators only extends the current piece.
  lemma {:induction false} CutSkipsPiece<S>(m: Scanner<S>, state: S, current: string, piece: string, rest: string)
    requires NeverSeparates(m, state, piece)
    ensures Cut(m, state, current, piece + rest) == Cut(m, After(m, state, piece), current + piece, rest)
    decreases |piece|
  {
    if piece == [] {
      assert piece + rest == rest && current + piece == current;
    } else {
      assert (piece + rest)[1..] == piece[1..] + rest;
      CutSkipsPiece(m, m.step(state, piece[0]), current + [piece[0]], piece[1..], rest);
      assert current + [piece[0]] + piece[1..] == current + piece;
    }
  }

  /** Cutting undoes joining: separable pieces are recovered exactly, so the decomposition is unique. */
  lemma {:induction false} JoinThenCut<S(!new)>(m: Scanner<S>, pieces: seq<string>)
    requires Separable(m, pieces)
    ensures Cut(m, m.start, [], Join(pieces, ",")) == pieces
    decreases |pieces|
  {
    var first := pieces[0];
    if |pieces| == 1 {
      CutSkipsPiece(m, m.start, [], first, []);
      assert first + [] == first && [] + first == first && pieces == [first];
    } else {
      var rest := pieces[1..];
      assert pieces == [first] + rest;
      SeparableCons(m, first, rest);
      JoinThenCut(m, rest);
      JoinFirst(first, rest);
      var tail := "," + Join(rest, ",");
      assert Join(pieces, ",") == first + tail;
      assert tail[1..] == Join(rest, ",");
      CutSkipsPiece(m, m.start, [], first, tail);
      assert [] + first == first;
    }
  }

  // ----- cutting source[start..end] into slices

  datatype Segment = Segment(start: nat, end: nat, value: string)

  function Values(segments: seq<Segment>): seq<string> {
    seq(|segments|, i requires 0 <= i < |segments| => segments[i].value)
  }

  /** The segments lie side by side from start to next - 1, each a slice of the source followed by a comma. */
  ghost predicate TileUpTo(source: string, start: nat, next: nat, segments: seq<Segment>)
    decreases |segments|
  {
    if segments == [] then next == start
    else
      var last := segments[|segments| - 1];
      && last.start <= last.end < |source| && next == last.end + 1 && source[last.end] == ','
      && last.value == source[last.start..last.end]
      && TileUpTo(source, start, last.start, segments[..|segments| - 1])
  }

  /** The segments cover everything between start and end. */
  ghost predicate Tile(source: string, start: nat, end: nat, segments: seq<Segment>) {
    segments != [] &&
    var last := segments[|segments| - 1];
    && last.start <= last.end == end <= |source| && last.value == source[last.start..end]
    && TileUpTo(source, start, last.start, segments[..|segments| - 1])
  }

  lemma TileOneMore(source: string, start: nat, next: nat, end: nat, segments: seq<Segment>)
    requires TileUpTo(source, start, next, segments) && next <= end <= |source|
    ensures Tile(source, start, end, segments + [Segment(next, end, source[next..end])])
    ensures end < |source| && source[end] == ',' ==>
      TileUpTo(source, start, end + 1, segments + [Segment(next, end, source[next..end])])
    ensures Values(segments + [Segment(next, end, source[next..end])]) == Values(segments) + [source[next..end]]
  {
    assert (segments + [Segment(next, end, source[next..end])])[..|segments|] == segments;
  }

  // What is left to cut once source[..index] is read.
  function Remaining<S>(m: Scanner<S>, state: S, source: string, segmentStart: nat, index: nat, end: nat): seq<string>
    requires segmentStart <= index <= end <= |source|
  {
    Cut(m, state, source[segmentStart..index], source[index..end])
  }

  lemma ReadOneMore<S>(m: Scanner<S>, state: S, source: string, segmentStart: nat, index: nat, end: nat)
    requires segmentStart <= index < end <= |source|
    ensures Remaining(m, state, source, segmentStart, index, end)
      == if m.separates(state, source[index])
         then [source[segmentStart..index]] + Remaining(m, m.start, source, index + 1, index + 1, end)
         else Remaining(m, m.step(state, source[index]), source, segmentStart, index + 1, end)
  {
    assert source[index..end][1..] == source[index + 1..end];
    assert source[index + 1..index + 1] == [];
    assert source[segmentStart..index] + [source[index]] == source[segmentStart..index + 1];
  }

  lemma RemainingAtEnds<S>(m: Scanner<S>, state: S, source: string, start: nat, end: nat)
    requires start <= end <= |source|
    ensures Remaining(m, state, source, start, end, end) == [source[start..end]]
    ensures Remaining(m, m.start, source, start, start, end) == Cut(m, m.start, [], source[start..end])
  {
    assert source[start..start] == [];
  }

  lemma MoveOne(done: seq<string>, left: seq<string>, first: string, rest: seq<string>)
    requires left == [first] + rest
    ensures done + left == (done + [first]) + rest
  {
  }
}
