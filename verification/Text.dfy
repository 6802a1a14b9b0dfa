/** The string methods the scripts rely on: replaceAll, includes, trim, join and split on one character. */
module Text {

  function ReplaceAll(s: string, needle: string, replacement: string): string
    requires needle != []
    decreases |s|
  {
    if |s| < |needle| then s
    else if s[..|needle|] == needle then replacement + ReplaceAll(s[|needle|..], needle, replacement)
    else [s[0]] + ReplaceAll(s[1..], needle, replacement)
  }

  predicate Contains(s: string, needle: string) {
    |needle| <= |s| && (s[..|needle|] == needle || (s != [] && Contains(s[1..], needle)))
  }

  function FlatMap(f: char -> string, s: string): string {
    if s == [] then [] else f(s[0]) + FlatMap(f, s[1..])
  }

  // White space and line terminators, section 12.2 and 12.3 of ECMA-262.
  predicate IsSpace(c: char) {
    || '\t' <= c <= '\r' || c == ' ' || c == '\U{A0}' || c == '\U{1680}' || '\U{2000}' <= c <= '\U{200A}'
    || c == '\U{2028}' || c == '\U{2029}' || c == '\U{202F}' || c == '\U{205F}' || c == '\U{3000}' || c == '\U{FEFF}'
  }

  function TrimStart(s: string): string {
    if s != [] && IsSpace(s[0]) then TrimStart(s[1..]) else s
  }

  function TrimEnd(s: string): string {
    if s != [] && IsSpace(s[|s| - 1]) then TrimEnd(s[..|s| - 1]) else s
  }

  function Trim(s: string): string {
    TrimEnd(TrimStart(s))
  }

  function Split(s: string, separator: char): (parts: seq<string>)
    ensures |parts| > 0
  {
    if s == [] then [[]]
    else
      var rest := Split(s[1..], separator);
      if s[0] == separator then [[]] + rest else [[s[0]] + rest[0]] + rest[1..]
  }

  function Join(parts: seq<string>, separator: string): string {
    if parts == [] then []
    else if |parts| == 1 then parts[0]
    else parts[0] + separator + Join(parts[1..], separator)
  }

  /** Splitting a concatenation at the separator between its parts concatenates the pieces. */
  lemma {:induction false} SplitConcat(a: string, b: string, separator: char)
    ensures Split(a + [separator] + b, separator) == Split(a, separator) + Split(b, separator)
  {
    if a == [] {
      assert (a + [separator] + b)[1..] == b;
    } else {
      assert (a + [separator] + b)[1..] == a[1..] + [separator] + b;
      SplitConcat(a[1..], b, separator);
    }
  }

  /** Joining the pieces gives the text back, so no two texts have the same pieces. */
  lemma {:induction false} JoinSplit(s: string, separator: char)
    ensures Join(Split(s, separator), [separator]) == s
  {
    if s != [] {
      var rest := Split(s[1..], separator);
      JoinSplit(s[1..], separator);
      if s[0] == separator {
        assert ([[]] + rest)[1..] == rest;
      } else {
        PushJoins(s[0], rest, [separator]);
      }
    }
  }

  lemma PushJoins(c: char, parts: seq<string>, separator: string)
    requires parts != []
    ensures Join([[c] + parts[0]] + parts[1..], separator) == [c] + Join(parts, separator)
  {
    var pushed := [[c] + parts[0]] + parts[1..];
    assert pushed[1..] == parts[1..];
    if |parts| > 1 {
      assert [c] + parts[0] + separator + Join(parts[1..], separator)
        == [c] + (parts[0] + separator + Join(parts[1..], separator));
    }
  }

  // No occurrence of the needle starts at i: its first two characters are not there.
  predicate NotAt(s: string, i: nat, needle: string)
    requires i < |s| && |needle| >= 2
  {
    s[i] != needle[0] || i + 1 == |s| || s[i + 1] != needle[1]
  }

  // A prefix in which the needle never starts is copied.
  lemma {:induction false} ReplaceAllCopies(s: string, n: nat, needle: string, replacement: string)
    requires |needle| >= 2 && n <= |s|
    requires forall i :: 0 <= i < n ==> NotAt(s, i, needle)
    ensures ReplaceAll(s, needle, replacement) == s[..n] + ReplaceAll(s[n..], needle, replacement)
  {
    if n > 0 {
      assert NotAt(s, 0, needle);
      ReplaceAllSkips(s, needle, replacement);
      forall i | 0 <= i < n - 1 ensures NotAt(s[1..], i, needle) {
        assert NotAt(s, i + 1, needle);
      }
      ReplaceAllCopies(s[1..], n - 1, needle, replacement);
      assert s[1..][n - 1..] == s[n..];
      assert [s[0]] + s[1..][..n - 1] == s[..n];
    } else {
      assert s[0..] == s;
    }
  }

  lemma ReplaceAllSkips(s: string, needle: string, replacement: string)
    requires |needle| >= 2 && s != [] && NotAt(s, 0, needle)
    ensures ReplaceAll(s, needle, replacement) == [s[0]] + ReplaceAll(s[1..], needle, replacement)
  {
    if |s| < |needle| {
      assert ReplaceAll(s[1..], needle, replacement) == s[1..];
    } else {
      assert s[..|needle|][0] == s[0] && s[..|needle|][1] == s[1];
    }
  }

  // Where the needle starts it is replaced.
  lemma ReplaceAllReplaces(needle: string, rest: string, replacement: string)
    requires needle != []
    ensures ReplaceAll(needle + rest, needle, replacement) == replacement + ReplaceAll(rest, needle, replacement)
  {
    assert (needle + rest)[..|needle|] == needle && (needle + rest)[|needle|..] == rest;
  }

  lemma ReplaceAllBlock(block: string, rest: string, needle: string, replacement: string)
    requires |needle| >= 2
    requires block == needle || forall i :: 0 <= i < |block| ==> NotAt(block + rest, i, needle)
    ensures ReplaceAll(block + rest, needle, replacement)
         == (if block == needle then replacement else block) + ReplaceAll(rest, needle, replacement)
  {
    if block == needle {
      ReplaceAllReplaces(needle, rest, replacement);
    } else {
      ReplaceAllCopies(block + rest, |block|, needle, replacement);
      assert (block + rest)[..|block|] == block && (block + rest)[|block|..] == rest;
    }
  }

  // A one-character needle never straddles a boundary.
  lemma {:induction false} ReplaceCharDistributes(a: string, b: string, c: char, replacement: string)
    ensures ReplaceAll(a + b, [c], replacement) == ReplaceAll(a, [c], replacement) + ReplaceAll(b, [c], replacement)
  {
    if a == [] {
      assert a + b == b;
    } else {
      assert (a + b)[1..] == a[1..] + b && (a + b)[..1] == a[..1] == [a[0]];
      ReplaceCharDistributes(a[1..], b, c, replacement);
    }
  }

  lemma ReplaceCharAbsent(s: string, c: char, replacement: string)
    requires c !in s
    ensures ReplaceAll(s, [c], replacement) == s
  {
  }

  lemma ReplaceCharAlone(c: char, replacement: string)
    ensures ReplaceAll([c], [c], replacement) == replacement
  {
    ReplaceAllReplaces([c], [], replacement);
    assert [c] + [] == [c];
  }

  // Replacing by something that differs in its second character changes every string holding the needle.
  lemma {:induction false} ReplaceAllIsIdentityIffAbsent(s: string, needle: string, replacement: string)
    requires |needle| == |replacement| == 2 && needle[1] != replacement[1]
    ensures ReplaceAll(s, needle, replacement) == s <==> !Contains(s, needle)
  {
    if |s| >= 2 {
      if s[..2] == needle {
        assert ReplaceAll(s, needle, replacement)[1] == replacement[1];
        assert s[1] == s[..2][1];
      } else {
        assert s == [s[0]] + s[1..];
        ReplaceAllIsIdentityIffAbsent(s[1..], needle, replacement);
      }
    }
  }

  lemma {:induction false} TrimEndIs(s: string) returns (after: string)
    ensures s == TrimEnd(s) + after && forall c :: c in after ==> IsSpace(c)
    ensures TrimEnd(s) != [] ==> !IsSpace(TrimEnd(s)[|TrimEnd(s)| - 1]) && TrimEnd(s)[0] == s[0]
  {
    if s != [] && IsSpace(s[|s| - 1]) {
      after := TrimEndIs(s[..|s| - 1]);
      after := after + [s[|s| - 1]];
    } else {
      after := [];
    }
  }

  lemma {:induction false} TrimStartIs(s: string) returns (before: string)
    ensures s == before + TrimStart(s) && forall c :: c in before ==> IsSpace(c)
    ensures TrimStart(s) != [] ==> !IsSpace(TrimStart(s)[0])
  {
    if s != [] && IsSpace(s[0]) {
      before := TrimStartIs(s[1..]);
      before := [s[0]] + before;
      assert s == [s[0]] + s[1..];
    } else {
      before := [];
    }
  }

  /** Trimming takes white space away at both ends, and all of it. */
  lemma TrimIs(s: string) returns (before: string, after: string)
    ensures s == before + Trim(s) + after && (forall c :: c in before ==> IsSpace(c)) && forall c :: c in after ==>
      IsSpace(c)
    ensures Trim(s) != [] ==> !IsSpace(Trim(s)[0]) && !IsSpace(Trim(s)[|Trim(s)| - 1])
  {
    before := TrimStartIs(s);
    after := TrimEndIs(TrimStart(s));
    assert before + (Trim(s) + after) == before + Trim(s) + after;
  }

  lemma {:induction false} TrimStartPads(before: string, s: string)
    requires (forall c :: c in before ==> IsSpace(c)) && (s == [] || !IsSpace(s[0]))
    ensures TrimStart(before + s) == s
  {
    if before == [] {
      assert before + s == s;
    } else {
      assert before[0] in before && (before + s)[1..] == before[1..] + s;
      TrimStartPads(before[1..], s);
    }
  }

  lemma {:induction false} TrimEndPads(s: string, after: string)
    requires (forall c :: c in after ==> IsSpace(c)) && (s == [] || !IsSpace(s[|s| - 1]))
    ensures TrimEnd(s + after) == s
  {
    if after == [] {
      assert s + after == s;
    } else {
      var init := after[..|after| - 1];
      assert after[|after| - 1] in after && (s + after)[..|s + after| - 1] == s + init;
      TrimEndPads(s, init);
    }
  }

  lemma TrimPads(before: string, s: string, after: string)
    requires (forall c :: c in before ==> IsSpace(c)) && forall c :: c in after ==> IsSpace(c)
    requires s != [] && !IsSpace(s[0]) && !IsSpace(s[|s| - 1])
    ensures Trim(before + s + after) == s
  {
    assert before + s + after == before + (s + after);
    TrimStartPads(before, s + after);
    TrimEndPads(s, after);
  }

  predicate StandsAt(s: string, i: nat, needle: string) {
    i + |needle| <= |s| && s[i..i + |needle|] == needle
  }

  /** A text contains a needle exactly when the needle stands somewhere in it. */
  lemma {:induction false} ContainsIff(s: string, needle: string)
    ensures Contains(s, needle) <==> exists i: nat :: StandsAt(s, i, needle)
    decreases |s|
  {
    if |needle| <= |s| {
      assert s[0..0 + |needle|] == s[..|needle|];
      assert StandsAt(s, 0, needle) <==> s[..|needle|] == needle;
      if s[..|needle|] != needle && s != [] {
        ContainsIff(s[1..], needle);
        forall i: nat ensures StandsAt(s[1..], i, needle) <==> StandsAt(s, i + 1, needle) {
          if i + 1 + |needle| <= |s| { assert s[1..][i..i + |needle|] == s[i + 1..i + 1 + |needle|]; }
        }
        if i: nat :| StandsAt(s, i, needle) {
          assert StandsAt(s[1..], i - 1, needle);
        }
      }
    }
  }

  lemma TrimKeepsQuoted(body: string)
    ensures Trim("\"" + body + "\"") == "\"" + body + "\""
  {
  }
}
