/** Escaping and decoding of Android string resources and Kotlin literals as chained replaceAll passes. */
module AndroidEscaping {
  import opened Text

  datatype Pass = Pass(needle: string, replacement: string)

  ghost predicate ValidPasses(passes: seq<Pass>) {
    forall i :: 0 <= i < |passes| ==> passes[i].needle != []
  }

  function Chain(passes: seq<Pass>, s: string): string
    requires ValidPasses(passes)
  {
    if passes == [] then s
    else
      assert forall i :: 0 <= i < |passes[1..]| ==> passes[1..][i] == passes[i + 1];
      Chain(passes[1..], ReplaceAll(s, passes[0].needle, passes[0].replacement))
  }

  function BackslashPasses(q1: char, q2: char): seq<Pass> {
    [Pass("\\n", "\n"), Pass(['\\', q1], [q1]), Pass(['\\', q2], [q2]), Pass("\\\\", "\\")]
  }

  const ENTITY_PASSES := [Pass("&lt;", "<"), Pass("&gt;", ">"), Pass("&quot;", "\""), Pass("&amp;", "&")]
  const ANDROID_ESCAPES := [
    Pass("\\", "\\\\"), Pass("\n", "\\n"), Pass("'", "\\'"), Pass("\"", "\\\""),
    Pass("&", "&amp;"), Pass("<", "&lt;"), Pass(">", "&gt;")]
  const KOTLIN_ESCAPES := [Pass("\\", "\\\\"), Pass("\"", "\\\""), Pass("$", "\\$"), Pass("\n", "\\n")]

  function EscapeAndroidResourceValue(value: string): string {
    Chain(ANDROID_ESCAPES, value)
  }

  function DecodeXml(value: string): string {
    Chain(ENTITY_PASSES + BackslashPasses('\'', '"'), value)
  }

  function DecodeAndroidResourceValue(rawValue: string): string {
    var trimmed := Trim(rawValue);
    var quoted := trimmed != [] && trimmed[0] == '"' && trimmed[|trimmed| - 1] == '"';
    // slice(1, -1) of a lone quote is empty
    DecodeXml(if !quoted then trimmed else if |trimmed| < 2 then [] else trimmed[1..|trimmed| - 1])
  }

  function EscapeKotlin(value: string): string {
    Chain(KOTLIN_ESCAPES, value)
  }

  function DecodeKotlinLiteral(value: string): string {
    Chain(BackslashPasses('"', '$'), value)
  }

  // ----- a chain of one-character passes as one map

  // What the first pass for c writes; c itself when no pass rewrites it.
  function CharImage(passes: seq<Pass>, c: char): string {
    if passes == [] then [c]
    else if passes[0].needle == [c] then passes[0].replacement
    else CharImage(passes[1..], c)
  }

  // Every pass rewrites one character, and none rewrites what an earlier pass has written.
  ghost predicate WellOrdered(passes: seq<Pass>) {
    && (forall i :: 0 <= i < |passes| ==> |passes[i].needle| == 1)
    && (forall i, j :: 0 <= i < j < |passes| ==> passes[j].needle[0] !in passes[i].replacement)
  }

  lemma {:induction false} ChainDistributes(passes: seq<Pass>, a: string, b: string)
    requires WellOrdered(passes)
    ensures Chain(passes, a + b) == Chain(passes, a) + Chain(passes, b)
  {
    if passes != [] {
      var p := passes[0];
      assert p.needle == [p.needle[0]];
      ReplaceCharDistributes(a, b, p.needle[0], p.replacement);
      ChainDistributes(passes[1..], ReplaceAll(a, p.needle, p.replacement), ReplaceAll(b, p.needle, p.replacement));
    }
  }

  lemma {:induction false} ChainLeavesAlone(passes: seq<Pass>, s: string)
    requires WellOrdered(passes)
    requires forall i :: 0 <= i < |passes| ==> passes[i].needle[0] !in s
    ensures Chain(passes, s) == s
  {
    if passes != [] {
      assert passes[0].needle == [passes[0].needle[0]];
      ReplaceCharAbsent(s, passes[0].needle[0], passes[0].replacement);
      ChainLeavesAlone(passes[1..], s);
    }
  }

  lemma {:induction false} ChainOnChar(passes: seq<Pass>, c: char)
    requires WellOrdered(passes)
    ensures Chain(passes, [c]) == CharImage(passes, c)
  {
    if passes != [] {
      var p := passes[0];
      assert p.needle == [p.needle[0]];
      if p.needle == [c] {
        ReplaceCharAlone(c, p.replacement);
        ChainLeavesAlone(passes[1..], p.replacement);
      } else {
        ReplaceCharAbsent([c], p.needle[0], p.replacement);
        ChainOnChar(passes[1..], c);
      }
    }
  }

  /** Well-ordered passes compute one map per character, whatever the text. */
  lemma {:induction false} ChainIsFlatMap(passes: seq<Pass>, s: string)
    requires WellOrdered(passes)
    ensures Chain(passes, s) == FlatMap(c => CharImage(passes, c), s)
  {
    if s == [] {
      ChainLeavesAlone(passes, s);
    } else {
      ChainDistributes(passes, [s[0]], s[1..]);
      assert s == [s[0]] + s[1..];
      ChainOnChar(passes, s[0]);
      ChainIsFlatMap(passes, s[1..]);
    }
  }

  function EntityOf(c: char): string {
    match c
    case '&' => "&amp;"
    case '<' => "&lt;"
    case '>' => "&gt;"
    case _ => [c]
  }

  function BackslashOf(c: char, q1: char, q2: char): string {
    if c == '\n' then "\\n" else if c == '\\' || c == q1 || c == q2 then ['\\', c] else [c]
  }

  function EscapeBackslashes(s: string, q1: char, q2: char): string {
    if s == [] then [] else BackslashOf(s[0], q1, q2) + EscapeBackslashes(s[1..], q1, q2)
  }

  function EscapeEntities(s: string): string {
    FlatMap(EntityOf, s)
  }

  lemma FlatMapDistributes(f: char -> string, a: string, b: string)
    ensures FlatMap(f, a + b) == FlatMap(f, a) + FlatMap(f, b)
  {
    if a == [] { assert a + b == b; } else {
      assert (a + b)[1..] == a[1..] + b;
      FlatMapDistributes(f, a[1..], b);
    }
  }

  lemma {:induction false} CharImageLookup(passes: seq<Pass>, c: char, k: nat)
    requires k <= |passes| && (k < |passes| ==> passes[k].needle == [c])
    requires forall i :: 0 <= i < k ==> passes[i].needle != [c]
    ensures CharImage(passes, c) == if k < |passes| then passes[k].replacement else [c]
  {
    if k > 0 {
      CharImageLookup(passes[1..], c, k - 1);
    }
  }

  lemma AndroidChars(c: char)
    ensures CharImage(ANDROID_ESCAPES, c) == EscapeEntities(BackslashOf(c, '\'', '"'))
  {
    var k := match c
      case '\\' => 0
      case '\n' => 1
      case '\'' => 2
      case '"' => 3
      case '&' => 4
      case '<' => 5
      case '>' => 6
      case _ => 7;
    CharImageLookup(ANDROID_ESCAPES, c, k);
    var b := BackslashOf(c, '\'', '"');
    assert b[1..] == [] || b[1..][1..] == [];
    assert EscapeEntities(b) == EntityOf(b[0]) + EscapeEntities(b[1..]);
  }

  lemma KotlinChars(c: char)
    ensures CharImage(KOTLIN_ESCAPES, c) == BackslashOf(c, '"', '$')
  {
    var k := match c case '\\' => 0 case '"' => 1 case '$' => 2 case '\n' => 3 case _ => 4;
    CharImageLookup(KOTLIN_ESCAPES, c, k);
  }

  /** The seven passes are the entity map after the backslash map. */
  lemma {:induction false} EscapeIsTwoMaps(s: string)
    ensures EscapeAndroidResourceValue(s) == EscapeEntities(EscapeBackslashes(s, '\'', '"'))
  {
    ChainIsFlatMap(ANDROID_ESCAPES, s);
    EscapeIsTwoMapsFrom(s);
  }

  lemma {:induction false} EscapeIsTwoMapsFrom(s: string)
    ensures FlatMap(c => CharImage(ANDROID_ESCAPES, c), s) == EscapeEntities(EscapeBackslashes(s, '\'', '"'))
  {
    if s != [] {
      EscapeIsTwoMapsFrom(s[1..]);
      AndroidChars(s[0]);
      FlatMapDistributes(EntityOf, BackslashOf(s[0], '\'', '"'), EscapeBackslashes(s[1..], '\'', '"'));
    }
  }

  lemma {:induction false} KotlinEscapeIsOneMap(s: string)
    ensures EscapeKotlin(s) == EscapeBackslashes(s, '"', '$')
  {
    ChainIsFlatMap(KOTLIN_ESCAPES, s);
    KotlinEscapeFrom(s);
  }

  lemma {:induction false} KotlinEscapeFrom(s: string)
    ensures FlatMap(c => CharImage(KOTLIN_ESCAPES, c), s) == EscapeBackslashes(s, '"', '$')
  {
    if s != [] {
      KotlinChars(s[0]);
      KotlinEscapeFrom(s[1..]);
    }
  }

  // ----- decoding undoes escaping

  lemma {:induction false} ChainComposes(first: seq<Pass>, second: seq<Pass>, s: string)
    requires ValidPasses(first) && ValidPasses(second)
    ensures ValidPasses(first + second)
    ensures Chain(first + second, s) == Chain(second, Chain(first, s))
  {
    forall i | 0 <= i < |first + second| ensures (first + second)[i].needle != [] {}
    if first == [] {
      assert first + second == second;
    } else {
      assert (first + second)[1..] == first[1..] + second;
      ChainComposes(first[1..], second, ReplaceAll(s, first[0].needle, first[0].replacement));
    }
  }

  // The escaped text after the first k entity passes: '<', '>' and '&' are restored in that order.
  function EntityAfter(k: nat, c: char): string {
    if (c == '<' && k >= 1) || (c == '>' && k >= 2) || (c == '&' && k >= 4) then [c] else EntityOf(c)
  }

  function EntitiesAfter(k: nat, s: string): string {
    if s == [] then [] else EntityAfter(k, s[0]) + EntitiesAfter(k, s[1..])
  }

  lemma {:induction false} EntityPass(k: nat, s: string)
    requires k < 4
    ensures ReplaceAll(EntitiesAfter(k, s), ENTITY_PASSES[k].needle, ENTITY_PASSES[k].replacement)
      == EntitiesAfter(k + 1, s)
  {
    if s != [] {
      var p := ENTITY_PASSES[k];
      var block, rest := EntityAfter(k, s[0]), EntitiesAfter(k, s[1..]);
      EntityPass(k, s[1..]);
      if block != p.needle {
        forall i | 0 <= i < |block| ensures NotAt(block + rest, i, p.needle) {
          assert i + 1 < |block| ==> (block + rest)[i + 1] == block[i + 1];
        }
      }
      ReplaceAllBlock(block, rest, p.needle, p.replacement);
    }
  }

  lemma {:induction false} EntitiesAfterAll(s: string)
    ensures EntitiesAfter(0, s) == EscapeEntities(s)
    ensures EntitiesAfter(4, s) == s
  {
    if s != [] { EntitiesAfterAll(s[1..]); }
  }

  /** The entity passes undo each other on every text. */
  lemma EntitiesRoundTrip(s: string)
    ensures Chain(ENTITY_PASSES, EscapeEntities(s)) == s
  {
    EntitiesAfterAll(s);
    var stages := seq(5, (k: nat) => EntitiesAfter(k, s));
    forall k | 0 <= k < 4
      ensures ReplaceAll(stages[k], ENTITY_PASSES[k].needle, ENTITY_PASSES[k].replacement) == stages[k + 1]
    {
      EntityPass(k, s);
    }
    ChainThrough(ENTITY_PASSES, stages);
  }

  // A chain whose passes lead from each stage to the next.
  lemma {:induction false} ChainThrough(p: seq<Pass>, stages: seq<string>)
    requires ValidPasses(p) && |stages| == |p| + 1
    requires forall k :: 0 <= k < |p| ==> ReplaceAll(stages[k], p[k].needle, p[k].replacement) == stages[k + 1]
    ensures Chain(p, stages[0]) == stages[|p|]
  {
    if p != [] {
      forall k | 0 <= k < |p[1..]|
        ensures ReplaceAll(stages[1..][k], p[1..][k].needle, p[1..][k].replacement) == stages[1..][k + 1]
      {
        assert p[1..][k] == p[k + 1] && stages[1..][k] == stages[k + 1];
      }
      ChainThrough(p[1..], stages[1..]);
    }
  }

  // ----- the entity passes read any text once

  // The entity that stands at the head of a text: its number among the passes, or 4 if there is none.
  function EntityAt(s: string): (k: nat)
    ensures k <= 4 && (k < 4 ==> ENTITY_PASSES[k].needle <= s)
  {
    if "&lt;" <= s then 0 else if "&gt;" <= s then 1 else if "&quot;" <= s then 2 else if "&amp;" <= s then 3 else 4
  }

  /** Each entity becomes its character, and everything else is copied, from left to right. */
  function DecodeEntities(s: string): string
    decreases |s|
  {
    if "&lt;" <= s then "<" + DecodeEntities(s[4..])
    else if "&gt;" <= s then ">" + DecodeEntities(s[4..])
    else if "&quot;" <= s then "\"" + DecodeEntities(s[6..])
    else if "&amp;" <= s then "&" + DecodeEntities(s[5..])
    else if s == [] then []
    else [s[0]] + DecodeEntities(s[1..])
  }

  // The text after the first k passes: entities of later passes are still there.
  function DecodedAfter(k: nat, s: string): string
    decreases |s|
  {
    var e := EntityAt(s);
    if e < 4 then
      (if e < k then ENTITY_PASSES[e].replacement else ENTITY_PASSES[e].needle)
        + DecodedAfter(k, s[|ENTITY_PASSES[e].needle|..])
    else if s == [] then []
    else [s[0]] + DecodedAfter(k, s[1..])
  }

  lemma {:induction false} DecodedAtEnds(s: string)
    ensures DecodedAfter(0, s) == s && DecodedAfter(4, s) == DecodeEntities(s)
    decreases |s|
  {
    var e := EntityAt(s);
    if e < 4 {
      var n := |ENTITY_PASSES[e].needle|;
      DecodedAtEnds(s[n..]);
      assert s == ENTITY_PASSES[e].needle + s[n..];
    } else if s != [] {
      DecodedAtEnds(s[1..]);
      assert s == [s[0]] + s[1..];
    }
  }

  predicate IsSpecial(c: char) {
    c == '&' || c == '<' || c == '>' || c == '"'
  }

  lemma EntityHead(k: nat, s: string)
    requires EntityAt(s) < 4
    ensures DecodedAfter(k, s) != [] && IsSpecial(DecodedAfter(k, s)[0])
  {
  }

  // Characters that belong to no decoded entity and begin none were there from the start.
  lemma {:induction false} PlainPrefix(k: nat, s: string, w: string)
    requires w <= DecodedAfter(k, s) && forall c :: c in w ==> !IsSpecial(c)
    ensures w <= s
    decreases |s|
  {
    if w != [] {
      assert w[0] in w && DecodedAfter(k, s)[0] == w[0];
      if EntityAt(s) < 4 {
        EntityHead(k, s);
        assert false;
      }
      var rest := DecodedAfter(k, s[1..]);
      assert DecodedAfter(k, s) == [s[0]] + rest && ([s[0]] + rest)[1..] == rest;
      PlainPrefix(k, s[1..], w[1..]);
    }
  }

  lemma NeedleTail(k: nat)
    requires k < 4
    ensures forall i :: 0 < i < |ENTITY_PASSES[k].needle| ==> !IsSpecial(ENTITY_PASSES[k].needle[i])
  {
  }

  lemma PrefixRest(a: string, b: string)
    requires a != [] && b != []
    ensures a <= b <==> a[0] == b[0] && a[1..] <= b[1..]
  {
    if a[0] == b[0] && a[1..] <= b[1..] {
      forall i | 0 <= i < |a| ensures a[i] == b[i] {
        if i > 0 { assert a[1..][i - 1] == b[1..][i - 1]; }
      }
    }
  }

  // An entity at the head of a half-decoded text, whose first character was copied, was there from the start.
  lemma NeedleWasThere(k: nat, s: string, rest: string, needle: string)
    requires k < 4 && s != [] && rest == DecodedAfter(k, s[1..]) && needle == ENTITY_PASSES[k].needle
    requires needle <= [s[0]] + rest
    ensures needle <= s
  {
    assert ([s[0]] + rest)[1..] == rest;
    PrefixRest(needle, [s[0]] + rest);
    NeedleTail(k);
    PlainPrefix(k, s[1..], needle[1..]);
    PrefixRest(needle, s);
  }

  // The head of the text after k passes, which is no entity, is copied by the next pass.
  lemma HeadIsCopied(k: nat, s: string)
    requires k < 4 && s != [] && EntityAt(s) == 4
    ensures var p := ENTITY_PASSES[k];
      ReplaceAll([s[0]] + DecodedAfter(k, s[1..]), p.needle, p.replacement)
        == [s[0]] + ReplaceAll(DecodedAfter(k, s[1..]), p.needle, p.replacement)
  {
    var p := ENTITY_PASSES[k];
    if p.needle <= [s[0]] + DecodedAfter(k, s[1..]) {
      NeedleWasThere(k, s, DecodedAfter(k, s[1..]), p.needle);
      assert false;
    }
    CopyOne(s[0], DecodedAfter(k, s[1..]), p.needle, p.replacement);
  }

  lemma CopyOne(c: char, rest: string, needle: string, replacement: string)
    requires needle != [] && !(needle <= [c] + rest)
    ensures ReplaceAll([c] + rest, needle, replacement) == [c] + ReplaceAll(rest, needle, replacement)
  {
    var t := [c] + rest;
    assert t[1..] == rest;
    if |t| < |needle| {
      assert ReplaceAll(rest, needle, replacement) == rest;
    } else {
      assert t[..|needle|] != needle;
    }
  }

  lemma {:induction false} EntityPassOnAny(k: nat, s: string)
    requires k < 4
    ensures ReplaceAll(DecodedAfter(k, s), ENTITY_PASSES[k].needle, ENTITY_PASSES[k].replacement)
      == DecodedAfter(k + 1, s)
    decreases |s|
  {
    var p, e := ENTITY_PASSES[k], EntityAt(s);
    if e < 4 {
      var block := if e < k then ENTITY_PASSES[e].replacement else ENTITY_PASSES[e].needle;
      var tail := s[|ENTITY_PASSES[e].needle|..];
      var rest := DecodedAfter(k, tail);
      EntityPassOnAny(k, tail);
      if block != p.needle {
        forall i | 0 <= i < |block| ensures NotAt(block + rest, i, p.needle) {
          assert i + 1 < |block| ==> (block + rest)[i + 1] == block[i + 1];
        }
      }
      ReplaceAllBlock(block, rest, p.needle, p.replacement);
    } else if s != [] {
      HeadIsCopied(k, s);
      EntityPassOnAny(k, s[1..]);
    }
  }

  /** On every text the four entity passes decode each entity once, as one reading from left to right does. */
  lemma EntitiesAreReadOnce(s: string)
    ensures Chain(ENTITY_PASSES, s) == DecodeEntities(s)
  {
    DecodedAtEnds(s);
    var stages := seq(5, (k: nat) => DecodedAfter(k, s));
    forall k | 0 <= k < 4
      ensures ReplaceAll(stages[k], ENTITY_PASSES[k].needle, ENTITY_PASSES[k].replacement) == stages[k + 1]
    {
      EntityPassOnAny(k, s);
    }
    ChainThrough(ENTITY_PASSES, stages);
  }

  predicate QuotePair(q1: char, q2: char) {
    q1 != q2 && {q1, q2} !! {'\\', '\n', 'n'}
  }

  // The escaped text after the first k backslash passes. The first pass reads the second backslash
  // of an escaped backslash and a following letter n as one newline escape.
  function BackslashAfter(k: nat, c: char, q1: char, q2: char): string {
    if (c == '\n' && k >= 1) || (c == q1 && k >= 2) || (c == q2 && k >= 3) || (c == '\\' && k >= 4) then [c]
    else BackslashOf(c, q1, q2)
  }

  function BackslashesAfter(k: nat, s: string, q1: char, q2: char): string {
    if s == [] then []
    else if k >= 1 && |s| >= 2 && s[..2] == "\\n" then "\\\n" + BackslashesAfter(k, s[2..], q1, q2)
    else BackslashAfter(k, s[0], q1, q2) + BackslashesAfter(k, s[1..], q1, q2)
  }

  // What follows a block never completes a needle begun by the block's last backslash.
  lemma NextBlock(k: nat, s: string, q1: char, q2: char)
    requires s != [] && QuotePair(q1, q2)
    ensures BackslashesAfter(k, s, q1, q2) != []
    ensures BackslashesAfter(k, s, q1, q2)[0]
      == if (s[0] == '\n' && k == 0) || (s[0] == q1 && k < 2) || (s[0] == q2 && k < 3) then '\\' else s[0]
  {
  }

  // The block that BackslashesAfter writes first, and where it goes on.
  function FirstBlock(k: nat, s: string, q1: char, q2: char): (string, string)
    requires s != []
  {
    if k >= 1 && |s| >= 2 && s[..2] == "\\n" then ("\\\n", s[2..]) else (BackslashAfter(k, s[0], q1, q2), s[1..])
  }

  // Except for the first pass at a backslash followed by n, a pass works block by block.
  lemma PassOnFirstBlock(k: nat, s: string, q1: char, q2: char)
    requires k < 4 && QuotePair(q1, q2) && s != []
    requires k == 0 ==> |s| < 2 || s[..2] != "\\n"
    ensures var p := BackslashPasses(q1, q2)[k];
      ReplaceAll(BackslashesAfter(k, s, q1, q2), p.needle, p.replacement) == FirstBlock(k + 1, s, q1, q2).0
        + ReplaceAll(BackslashesAfter(k, FirstBlock(k, s, q1, q2).1, q1, q2), p.needle, p.replacement)
    ensures FirstBlock(k, s, q1, q2).1 == FirstBlock(k + 1, s, q1, q2).1
  {
    var p := BackslashPasses(q1, q2)[k];
    var (block, tail) := FirstBlock(k, s, q1, q2);
    var rest := BackslashesAfter(k, tail, q1, q2);
    if tail != [] { NextBlock(k, tail, q1, q2); }
    if block != p.needle {
      forall i | 0 <= i < |block| ensures NotAt(block + rest, i, p.needle) {
        assert i + 1 < |block| ==> (block + rest)[i + 1] == block[i + 1];
        assert |s| >= 2 ==> s[..2] == [s[0], s[1]];
      }
    }
    ReplaceAllBlock(block, rest, p.needle, p.replacement);
  }

  lemma EscapedCharFirst(c: char, rest: string, q1: char, q2: char)
    ensures BackslashesAfter(0, [c] + rest, q1, q2) == BackslashAfter(0, c, q1, q2) + BackslashesAfter(0, rest, q1, q2)
  {
    assert ([c] + rest)[1..] == rest;
  }

  lemma PairIsEscapedApart(rest: string, q1: char, q2: char)
    requires QuotePair(q1, q2)
    ensures BackslashesAfter(0, "\\n" + rest, q1, q2) == "\\\\n" + BackslashesAfter(0, rest, q1, q2)
  {
    assert "\\n" + rest == ['\\'] + (['n'] + rest);
    EscapedCharFirst('\\', ['n'] + rest, q1, q2);
    EscapedCharFirst('n', rest, q1, q2);
  }

  lemma FirstPassOnPair(rest: string)
    ensures ReplaceAll("\\\\n" + rest, "\\n", "\n") == "\\\n" + ReplaceAll(rest, "\\n", "\n")
  {
    var text := "\\\\n" + rest;
    assert text[1..] == "\\n" + rest;
    ReplaceAllSkips(text, "\\n", "\n");
    ReplaceAllReplaces("\\n", rest, "\n");
  }

  lemma {:induction false} BackslashPass(k: nat, s: string, q1: char, q2: char, p: Pass)
    requires k < 4 && QuotePair(q1, q2) && p == BackslashPasses(q1, q2)[k]
    ensures ReplaceAll(BackslashesAfter(k, s, q1, q2), p.needle, p.replacement) == BackslashesAfter(k + 1, s, q1, q2)
    decreases |s|
  {
    if s != [] {
      if k == 0 && |s| >= 2 && s[..2] == "\\n" {
        assert s == "\\n" + s[2..];
        PairIsEscapedApart(s[2..], q1, q2);
        FirstPassOnPair(BackslashesAfter(0, s[2..], q1, q2));
        BackslashPass(k, s[2..], q1, q2, p);
      } else {
        PassOnFirstBlock(k, s, q1, q2);
        BackslashPass(k, FirstBlock(k, s, q1, q2).1, q1, q2, p);
      }
    }
  }

  lemma {:induction false} BackslashesAfterAll(s: string, q1: char, q2: char)
    ensures BackslashesAfter(0, s, q1, q2) == EscapeBackslashes(s, q1, q2)
    ensures BackslashesAfter(4, s, q1, q2) == ReplaceAll(s, "\\n", "\\\n")
    decreases |s|
  {
    if s != [] {
      BackslashesAfterAll(s[1..], q1, q2);
      if |s| >= 2 { BackslashesAfterAll(s[2..], q1, q2); }
    }
  }

  /** What the backslash passes give back, for every text: each backslash followed by n has become a newline. */
  lemma BackslashesRoundTrip(s: string, q1: char, q2: char)
    requires QuotePair(q1, q2)
    ensures Chain(BackslashPasses(q1, q2), EscapeBackslashes(s, q1, q2)) == ReplaceAll(s, "\\n", "\\\n")
  {
    var p := BackslashPasses(q1, q2);
    var stages := seq(5, (k: nat) => BackslashesAfter(k, s, q1, q2));
    forall k | 0 <= k < 4 ensures ReplaceAll(stages[k], p[k].needle, p[k].replacement) == stages[k + 1] {
      BackslashPass(k, s, q1, q2, p[k]);
    }
    ChainThrough(p, stages);
    BackslashesAfterAll(s, q1, q2);
  }

  lemma DecodesEscaped(s: string)
    ensures DecodeXml(EscapeAndroidResourceValue(s)) == ReplaceAll(s, "\\n", "\\\n")
  {
    EscapeIsTwoMaps(s);
    EntitiesRoundTrip(EscapeBackslashes(s, '\'', '"'));
    ChainComposes(ENTITY_PASSES, BackslashPasses('\'', '"'), EscapeAndroidResourceValue(s));
    BackslashesRoundTrip(s, '\'', '"');
  }

  // A text that begins and ends with neither white space nor a double quote.
  predicate IsTight(e: string) {
    e != [] && e[0] != '"' && !IsSpace(e[0]) && !IsSpace(e[|e| - 1])
  }

  lemma ImageIsTight(c: char)
    requires !IsSpace(c)
    ensures IsTight(CharImage(ANDROID_ESCAPES, c))
  {
    var k := match c
      case '\\' => 0
      case '\'' => 2
      case '"' => 3
      case '&' => 4
      case '<' => 5
      case '>' => 6
      case _ => 7;
    CharImageLookup(ANDROID_ESCAPES, c, k);
  }

  lemma FlatMapEnds(f: char -> string, s: string)
    requires s != [] && f(s[0]) != [] && f(s[|s| - 1]) != []
    ensures var e := FlatMap(f, s);
      e != [] && e[0] == f(s[0])[0] && e[|e| - 1] == f(s[|s| - 1])[|f(s[|s| - 1])| - 1]
  {
    var init, last := s[..|s| - 1], s[|s| - 1];
    assert s == init + [last];
    FlatMapDistributes(f, init, [last]);
    assert FlatMap(f, [last]) == f(last) + FlatMap(f, []) == f(last);
  }

  lemma EscapedIsTight(s: string)
    requires s != [] && !IsSpace(s[0]) && !IsSpace(s[|s| - 1])
    ensures IsTight(EscapeAndroidResourceValue(s))
  {
    ChainIsFlatMap(ANDROID_ESCAPES, s);
    ImageIsTight(s[0]);
    ImageIsTight(s[|s| - 1]);
    FlatMapEnds(c => CharImage(ANDROID_ESCAPES, c), s);
  }

  /** Around any text: white space goes, then one pair of quotes if both are there; of a lone quote nothing is left. */
  lemma OnePairOfQuotesGoes(before: string, s: string, after: string)
    requires (forall c :: c in before ==> IsSpace(c)) && forall c :: c in after ==> IsSpace(c)
    ensures DecodeAndroidResourceValue(before + ("\"" + s + "\"") + after) == DecodeXml(s)
    ensures DecodeAndroidResourceValue(before + "\"" + after) == DecodeXml("")
    ensures s != [] && !IsSpace(s[0]) && !IsSpace(s[|s| - 1]) && (s[0] != '"' || s[|s| - 1] != '"') ==>
      DecodeAndroidResourceValue(before + s + after) == DecodeXml(s)
  {
    var raw := "\"" + s + "\"";
    TrimPads(before, raw, after);
    assert raw[1..|raw| - 1] == s;
    TrimPads(before, "\"", after);
    if s != [] && !IsSpace(s[0]) && !IsSpace(s[|s| - 1]) { TrimPads(before, s, after); }
  }

  /** White space around a resource value does not matter, and neither do the quotes, unless the value itself begins
      or ends with white space. */
  lemma AndroidDecodesPadded(before: string, s: string, after: string)
    requires (forall c :: c in before ==> IsSpace(c)) && forall c :: c in after ==> IsSpace(c)
    ensures DecodeAndroidResourceValue(before + ("\"" + EscapeAndroidResourceValue(s) + "\"") + after)
      == ReplaceAll(s, "\\n", "\\\n")
    ensures s != [] && !IsSpace(s[0]) && !IsSpace(s[|s| - 1]) ==>
      DecodeAndroidResourceValue(before + EscapeAndroidResourceValue(s) + after) == ReplaceAll(s, "\\n", "\\\n")
  {
    var escaped := EscapeAndroidResourceValue(s);
    var raw := "\"" + escaped + "\"";
    TrimPads(before, raw, after);
    assert raw[1..|raw| - 1] == escaped;
    DecodesEscaped(s);
    if s != [] && !IsSpace(s[0]) && !IsSpace(s[|s| - 1]) {
      EscapedIsTight(s);
      TrimPads(before, escaped, after);
    }
  }

  /** Decoding a quoted escaped value, for every value. */
  lemma AndroidDecodesEscaped(s: string)
    ensures DecodeAndroidResourceValue("\"" + EscapeAndroidResourceValue(s) + "\"") == ReplaceAll(s, "\\n", "\\\n")
  {
    var escaped := EscapeAndroidResourceValue(s);
    var raw := "\"" + escaped + "\"";
    TrimKeepsQuoted(escaped);
    assert raw[1..|raw| - 1] == escaped;
    DecodesEscaped(s);
  }

  /** A value survives being written and read back exactly when no backslash in it is followed by n. */
  lemma AndroidRoundTripIff(s: string)
    ensures DecodeAndroidResourceValue("\"" + EscapeAndroidResourceValue(s) + "\"") == s <==> !Contains(s, "\\n")
  {
    AndroidDecodesEscaped(s);
    ReplaceAllIsIdentityIffAbsent(s, "\\n", "\\\n");
  }

  /** The Kotlin pair has the same characterisation. */
  lemma KotlinRoundTripIff(s: string)
    ensures DecodeKotlinLiteral(EscapeKotlin(s)) == ReplaceAll(s, "\\n", "\\\n")
    ensures DecodeKotlinLiteral(EscapeKotlin(s)) == s <==> !Contains(s, "\\n")
  {
    KotlinEscapeIsOneMap(s);
    BackslashesRoundTrip(s, '"', '$');
    ReplaceAllIsIdentityIffAbsent(s, "\\n", "\\\n");
  }

  /** The smallest value that does not survive. */
  lemma BackslashNIsLost()
    ensures DecodeAndroidResourceValue("\"" + EscapeAndroidResourceValue("\\n") + "\"") == "\\\n"
  {
    AndroidDecodesEscaped("\\n");
    ReplaceAllReplaces("\\n", [], "\\\n");
    assert "\\n" + [] == "\\n";
  }
}
