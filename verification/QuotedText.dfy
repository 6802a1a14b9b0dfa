/** Text with quoted sections in which a backslash escapes the next character, as the scanners read it. */
module QuotedText {
  import opened Results

  // The characters that open a quoted section; it ends at the same character.
  type Quotes = char -> bool

  // The quote being read and whether the next character is escaped.
  datatype Quoting = Quoting(quote: Option<char>, escaped: bool) {
    function Next(quotes: Quotes, c: char): Quoting {
      if quote.None? then (if quotes(c) then this.(quote := Some(c)) else this)
      else if escaped then this.(escaped := false)
      else if c == '\\' then this.(escaped := true)
      else if Some(c) == quote then this.(quote := None)
      else this
    }
  }

  const UNQUOTED := Quoting(None, false)

  function QuotingAfter(quotes: Quotes, s: string): Quoting {
    if s == [] then UNQUOTED else QuotingAfter(quotes, s[..|s| - 1]).Next(quotes, s[|s| - 1])
  }

  // The characters of s outside quoted sections, without the quotes themselves.
  function Unquoted(quotes: Quotes, s: string): string {
    if s == [] then []
    else
      var init, c := s[..|s| - 1], s[|s| - 1];
      Unquoted(quotes, init) + if QuotingAfter(quotes, init).quote.None? && !quotes(c) then [c] else []
  }

  lemma OneMore(quotes: Quotes, s: string, c: char)
    ensures QuotingAfter(quotes, s + [c]) == QuotingAfter(quotes, s).Next(quotes, c)
    ensures Unquoted(quotes, s + [c]) ==
      Unquoted(quotes, s) + if QuotingAfter(quotes, s).quote.None? && !quotes(c) then [c] else []
  {
    assert (s + [c])[..|s|] == s;
  }

  lemma {:induction false} NeverEscapedOutside(quotes: Quotes, s: string)
    ensures QuotingAfter(quotes, s).quote.None? ==> QuotingAfter(quotes, s) == UNQUOTED
  {
    if s != [] { NeverEscapedOutside(quotes, s[..|s| - 1]); }
  }

  // ----- what a quoted section is

  /** The inside of a section quoted by q: escaped pairs, and characters that are neither q nor a backslash. */
  predicate IsBody(q: char, body: string)
    decreases |body|
  {
    || body == []
    || (body[0] == '\\' && |body| >= 2 && IsBody(q, body[2..]))
    || (body[0] != '\\' && body[0] != q && IsBody(q, body[1..]))
  }

  lemma {:induction false} BodiesJoin(q: char, a: string, b: string)
    requires IsBody(q, a) && IsBody(q, b)
    ensures IsBody(q, a + b)
    decreases |a|
  {
    if a == [] {
      assert a + b == b;
    } else if a[0] == '\\' {
      BodiesJoin(q, a[2..], b);
      assert (a + b)[2..] == a[2..] + b;
    } else {
      BodiesJoin(q, a[1..], b);
      assert (a + b)[1..] == a[1..] + b;
    }
  }

  /** Text without quotes is unquoted, character by character. */
  lemma {:induction false} PlainText(quotes: Quotes, a: string, plain: string)
    requires QuotingAfter(quotes, a) == UNQUOTED && forall c :: c in plain ==> !quotes(c)
    ensures QuotingAfter(quotes, a + plain) == UNQUOTED
    ensures Unquoted(quotes, a + plain) == Unquoted(quotes, a) + plain
  {
    if plain == [] {
      assert a + plain == a && Unquoted(quotes, a) + plain == Unquoted(quotes, a);
    } else {
      var init, c := plain[..|plain| - 1], plain[|plain| - 1];
      assert plain == init + [c] && a + plain == a + init + [c];
      PlainText(quotes, a, init);
      OneMore(quotes, a + init, c);
      assert Unquoted(quotes, a) + init + [c] == Unquoted(quotes, a) + plain;
    }
  }

  // The text up to and with an opening quote and the inside of its section.
  function Opened(a: string, q: char, body: string): string {
    a + [q] + body
  }

  /** Inside a section everything is quoted, whatever it holds; the next q that is not escaped ends it. */
  lemma QuotedSection(quotes: Quotes, a: string, q: char, body: string)
    requires QuotingAfter(quotes, a) == UNQUOTED && quotes(q) && q != '\\' && IsBody(q, body)
    ensures QuotingAfter(quotes, Opened(a, q, body)) == Quoting(Some(q), false)
    ensures QuotingAfter(quotes, Opened(a, q, body) + ['\\']) == Quoting(Some(q), true)
    ensures QuotingAfter(quotes, Opened(a, q, body) + [q]) == UNQUOTED
    ensures Unquoted(quotes, Opened(a, q, body)) == Unquoted(quotes, a)
    ensures Unquoted(quotes, Opened(a, q, body) + [q]) == Unquoted(quotes, a)
  {
    OneMore(quotes, a, q);
    assert Unquoted(quotes, a) + [] == Unquoted(quotes, a);
    BodyIsQuoted(quotes, a + [q], q, body);
    OneMore(quotes, Opened(a, q, body), '\\');
    OneMore(quotes, Opened(a, q, body), q);
  }

  lemma {:induction false} BodyIsQuoted(quotes: Quotes, a: string, q: char, body: string)
    requires QuotingAfter(quotes, a) == Quoting(Some(q), false) && IsBody(q, body)
    ensures QuotingAfter(quotes, a + body) == Quoting(Some(q), false)
    ensures Unquoted(quotes, a + body) == Unquoted(quotes, a)
    decreases |body|
  {
    if body == [] {
      assert a + body == a;
    } else {
      var c := body[0];
      OneMore(quotes, a, c);
      assert Unquoted(quotes, a) + [] == Unquoted(quotes, a);
      if c == '\\' {
        OneMore(quotes, a + [c], body[1]);
        assert a + body == a + [c] + [body[1]] + body[2..];
        BodyIsQuoted(quotes, a + [c] + [body[1]], q, body[2..]);
      } else {
        assert a + body == a + [c] + body[1..];
        BodyIsQuoted(quotes, a + [c], q, body[1..]);
      }
    }
  }

  /** Conversely, a text that ends inside quotes ends with an opening quote and the inside of a section, followed by
      one more backslash if the next character is escaped. */
  lemma {:induction false} InsideMeans(quotes: Quotes, s: string) returns (a: string, body: string)
    requires QuotingAfter(quotes, s).quote.Some?
    ensures var q := QuotingAfter(quotes, s).quote.value;
      && QuotingAfter(quotes, a) == UNQUOTED && quotes(q) && IsBody(q, body)
      && s == Opened(a, q, body) + if QuotingAfter(quotes, s).escaped then ['\\'] else []
  {
    var init, c := s[..|s| - 1], s[|s| - 1];
    var before := QuotingAfter(quotes, init);
    assert s == init + [c];
    if before.quote.None? {
      NeverEscapedOutside(quotes, init);
      a, body := init, [];
    } else {
      a, body := InsideMeans(quotes, init);
      if before.escaped {
        assert IsBody(before.quote.value, ['\\', c]) by { assert ['\\', c][2..] == []; }
        BodiesJoin(before.quote.value, body, ['\\', c]);
        body := body + ['\\', c];
      } else if c != '\\' {
        assert IsBody(before.quote.value, [c]) by { assert [c][1..] == []; }
        BodiesJoin(before.quote.value, body, [c]);
        body := body + [c];
      }
    }
  }

  // ----- counting outside quotes

  function Count(s: string, c: char): nat {
    multiset(s)[c]
  }

  lemma CountOneMore(s: string, c: char, x: char)
    ensures Count(s + [c], x) == Count(s, x) + if c == x then 1 else 0
    ensures Count(s + [], x) == Count(s, x)
  {
    assert s + [] == s;
  }

  /** How many openers are open after s: one more for each opener, one less for each closer that finds one open. */
  function StillOpen(s: string, opener: char, closer: char): nat {
    if s == [] then 0
    else
      var before, c := StillOpen(s[..|s| - 1], opener, closer), s[|s| - 1];
      if c == opener then before + 1 else if c == closer && before > 0 then before - 1 else before
  }

  // By how many openers outnumber closers in s[i..].
  function Excess(s: string, i: nat, opener: char, closer: char): int
    requires i <= |s|
  {
    Count(s[i..], opener) as int - Count(s[i..], closer) as int
  }

  /** That is the most by which openers outnumber closers in any end of s. */
  lemma {:induction false} StillOpenIsMost(s: string, opener: char, closer: char)
    requires opener != closer
    ensures forall i :: 0 <= i <= |s| ==> Excess(s, i, opener, closer) <= StillOpen(s, opener, closer)
    ensures exists i :: 0 <= i <= |s| && Excess(s, i, opener, closer) == StillOpen(s, opener, closer)
  {
    assert Excess(s, |s|, opener, closer) == 0 by { assert s[|s|..] == []; }
    if s != [] {
      var init, c := s[..|s| - 1], s[|s| - 1];
      StillOpenIsMost(init, opener, closer);
      forall i | 0 <= i <= |init|
        ensures Excess(s, i, opener, closer) == Excess(init, i, opener, closer) + Excess([c], 0, opener, closer)
      {
        assert s[i..] == init[i..] + [c] && [c][0..] == [c];
      }
      var i :| 0 <= i <= |init| && Excess(init, i, opener, closer) == StillOpen(init, opener, closer);
      assert Excess([c], 0, opener, closer) == if c == opener then 1 else if c == closer then -1 else 0 by {
        assert [c][0..] == [c];
      }
      assert Excess(s, i, opener, closer) == StillOpen(init, opener, closer) + Excess([c], 0, opener, closer);
    }
  }

  lemma OneMoreOpen(s: string, c: char, opener: char, closer: char)
    ensures StillOpen(s + [c], opener, closer) ==
      var before := StillOpen(s, opener, closer);
      if c == opener then before + 1 else if c == closer && before > 0 then before - 1 else before
    ensures StillOpen(s + [], opener, closer) == StillOpen(s, opener, closer)
  {
    assert (s + [c])[..|s|] == s && s + [] == s;
  }
}
