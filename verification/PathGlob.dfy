/** Matching dotted paths against patterns in which `*` is one segment and `**` any number of segments. */
module PathGlob {
  import opened Text

  type Path = seq<string>

  // ----- the meaning of a pattern

  predicate PartCovers(part: string, block: Path) {
    if part == "**" then true
    else |block| == 1 && (part == "*" || part == block[0])
  }

  function Flatten(blocks: seq<Path>): Path {
    if blocks == [] then [] else blocks[0] + Flatten(blocks[1..])
  }

  ghost predicate IsCover(pattern: Path, blocks: seq<Path>) {
    |blocks| == |pattern| && forall i :: 0 <= i < |pattern| ==> PartCovers(pattern[i], blocks[i])
  }

  /** The value falls into consecutive blocks, one for each part of the pattern. */
  ghost predicate Matches(pattern: Path, value: Path) {
    exists blocks :: IsCover(pattern, blocks) && Flatten(blocks) == value
  }

  // ----- the matcher

  method MatchesParts(patternParts: Path, valueParts: Path) returns (matched: bool)
    ensures matched <==> Matches(patternParts, valueParts)
    decreases |patternParts|
  {
    MatchesByHead(patternParts, valueParts);
    if |patternParts| == 0 {
      return |valueParts| == 0;
    }
    var head, tail := patternParts[0], patternParts[1..];
    if head == "**" {
      if |tail| == 0 {
        return true;
      }
      for index := 0 to |valueParts| + 1
        invariant forall k :: 0 <= k < index ==> !Matches(tail, valueParts[k..])
      {
        var rest := MatchesParts(tail, valueParts[index..]);
        if rest {
          return true;
        }
      }
      return false;
    }
    if |valueParts| == 0 {
      return false;
    }
    if head != "*" && head != valueParts[0] {
      return false;
    }
    matched := MatchesParts(tail, valueParts[1..]);
  }

  method PathMatchesPattern(pattern: string, value: string) returns (matched: bool)
    ensures matched <==> Matches(Split(pattern, '.'), Split(value, '.'))
  {
    matched := MatchesParts(Split(pattern, '.'), Split(value, '.'));
  }

  method MatchesAny(patterns: seq<string>, value: string) returns (matched: bool)
    ensures matched <==> exists p :: p in patterns && Matches(Split(p, '.'), Split(value, '.'))
  {
    for i := 0 to |patterns|
      invariant forall k :: 0 <= k < i ==> !Matches(Split(patterns[k], '.'), Split(value, '.'))
    {
      matched := PathMatchesPattern(patterns[i], value);
      if matched {
        return;
      }
    }
    matched := false;
  }

  // ----- laws of the meaning

  lemma {:induction false} FlattenConcat(a: seq<Path>, b: seq<Path>)
    ensures Flatten(a + b) == Flatten(a) + Flatten(b)
  {
    if a == [] {
      assert a + b == b;
    } else {
      assert (a + b)[1..] == a[1..] + b;
      FlattenConcat(a[1..], b);
    }
  }

  /** p followed by q matches v exactly when v splits into a part that p matches and a part that q matches. */
  lemma MatchesComposes(p: Path, q: Path, v: Path)
    ensures Matches(p + q, v) <==> exists k :: 0 <= k <= |v| && Matches(p, v[..k]) && Matches(q, v[k..])
  {
    if Matches(p + q, v) {
      var blocks :| IsCover(p + q, blocks) && Flatten(blocks) == v;
      var a, b := blocks[..|p|], blocks[|p|..];
      assert blocks == a + b;
      FlattenConcat(a, b);
      forall i | 0 <= i < |p| ensures PartCovers(p[i], a[i]) { assert PartCovers((p + q)[i], blocks[i]); }
      forall i | 0 <= i < |q| ensures PartCovers(q[i], b[i]) { assert PartCovers((p + q)[|p| + i], blocks[|p| + i]); }
      var k := |Flatten(a)|;
      assert v[..k] == Flatten(a) && v[k..] == Flatten(b);
    }
    if k :| 0 <= k <= |v| && Matches(p, v[..k]) && Matches(q, v[k..]) {
      var a :| IsCover(p, a) && Flatten(a) == v[..k];
      var b :| IsCover(q, b) && Flatten(b) == v[k..];
      FlattenConcat(a, b);
      assert v == v[..k] + v[k..];
      assert IsCover(p + q, a + b);
    }
  }

  lemma SinglePart(part: string, v: Path)
    ensures Matches([part], v) <==> PartCovers(part, v)
  {
    if PartCovers(part, v) {
      assert Flatten([v]) == v + Flatten([]) == v;
      assert IsCover([part], [v]);
    }
    if Matches([part], v) {
      var blocks :| IsCover([part], blocks) && Flatten(blocks) == v;
      assert blocks == [blocks[0]] && Flatten(blocks) == blocks[0] + Flatten(blocks[1..]);
      assert PartCovers([part][0], blocks[0]);
    }
  }

  // The recursion of the matcher, read off the meaning.
  lemma MatchesByHead(pattern: Path, value: Path)
    ensures pattern == [] ==> (Matches(pattern, value) <==> value == [])
    ensures pattern != [] && pattern[0] == "**" ==>
      (Matches(pattern, value) <==> exists k :: 0 <= k <= |value| && Matches(pattern[1..], value[k..]))
    ensures pattern == ["**"] ==> Matches(pattern, value)
    ensures pattern != [] && pattern[0] != "**" ==>
      (Matches(pattern, value) <==>
        value != [] && (pattern[0] == "*" || pattern[0] == value[0]) && Matches(pattern[1..], value[1..]))
  {
    if pattern == [] {
      assert IsCover([], []);
    } else {
      assert pattern == [pattern[0]] + pattern[1..];
      MatchesComposes([pattern[0]], pattern[1..], value);
      forall k | 0 <= k <= |value| ensures Matches([pattern[0]], value[..k]) <==> PartCovers(pattern[0], value[..k]) {
        SinglePart(pattern[0], value[..k]);
      }
      SinglePart(pattern[0], value);
      if value != [] {
        assert value[..1] == [value[0]];
      }
    }
  }

  /** Two wildcards for any number of segments are one. */
  lemma DoubledWildcard(p: Path, q: Path, v: Path)
    ensures Matches(p + ["**", "**"] + q, v) <==> Matches(p + ["**"] + q, v)
  {
    assert ["**", "**"] == ["**"] + ["**"];
    forall w ensures Matches(["**", "**"], w) <==> Matches(["**"], w) {
      MatchesComposes(["**"], ["**"], w);
      SinglePart("**", w);
      assert w == w[..|w|];
      SinglePart("**", w[|w|..]);
    }
    CongruentMiddle(p, ["**", "**"], ["**"], q, v);
  }

  // Patterns with the same meaning may be exchanged anywhere inside a pattern.
  lemma CongruentMiddle(p: Path, m: Path, m': Path, q: Path, v: Path)
    requires forall w :: Matches(m, w) <==> Matches(m', w)
    ensures Matches(p + m + q, v) <==> Matches(p + m' + q, v)
  {
    forall w ensures Matches(p + m, w) <==> Matches(p + m', w) {
      MatchesComposes(p, m, w);
      MatchesComposes(p, m', w);
    }
    MatchesComposes(p + m, q, v);
    MatchesComposes(p + m', q, v);
  }

  /** A pattern without wildcards matches its own path and nothing else. */
  lemma {:induction false} LiteralPattern(pattern: Path, v: Path)
    requires "*" !in pattern && "**" !in pattern
    ensures Matches(pattern, v) <==> pattern == v
  {
    MatchesByHead(pattern, v);
    if pattern != [] {
      assert pattern[0] in pattern;
      assert pattern == [pattern[0]] + pattern[1..];
      if v != [] {
        assert v == [v[0]] + v[1..];
        LiteralPattern(pattern[1..], v[1..]);
      }
    }
  }

  /** The composition law for written patterns. */
  lemma DottedPatternsCompose(p: string, q: string, v: string)
    ensures Matches(Split(p + "." + q, '.'), Split(v, '.')) <==>
      exists k :: 0 <= k <= |Split(v, '.')| && Matches(Split(p, '.'), Split(v, '.')[..k]) &&
        Matches(Split(q, '.'), Split(v, '.')[k..])
  {
    SplitConcat(p, q, '.');
    MatchesComposes(Split(p, '.'), Split(q, '.'), Split(v, '.'));
  }
}
