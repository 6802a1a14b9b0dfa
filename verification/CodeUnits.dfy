/** The order on strings that JavaScript's `<` uses: UTF-16 code unit by code unit, a proper prefix first. */
module CodeUnits {

  // Where a character stands in that order: code points from U+10000 on, written with surrogates, come before U+E000.
  function Rank(c: char): nat {
    if 0xE000 <= c as int < 0x10000 then c as int + 0x110000 else c as int
  }

  predicate Less(left: string, right: string) {
    right != [] &&
    (left == [] ||
     Rank(left[0]) < Rank(right[0]) ||
     (left[0] == right[0] && Less(left[1..], right[1..])))
  }

  lemma LessIsIrreflexive(s: string)
    ensures !Less(s, s)
  {
  }

  lemma LessIsTransitive(a: string, b: string, c: string)
    requires Less(a, b) && Less(b, c)
    ensures Less(a, c)
  {
  }

  lemma {:induction false} LessIsTotal(a: string, b: string)
    requires a != b
    ensures Less(a, b) || Less(b, a)
  {
    if a != [] && b != [] && a[0] == b[0] {
      assert a == [a[0]] + a[1..] && b == [b[0]] + b[1..];
      LessIsTotal(a[1..], b[1..]);
    }
  }

  // ----- the code units themselves

  function Units(c: char): (units: seq<nat>)
    ensures |units| > 0
  {
    var n := c as int;
    if n < 0x10000 then [n] else [0xD800 + (n - 0x10000) / 0x400, 0xDC00 + (n - 0x10000) % 0x400]
  }

  function Utf16(s: string): seq<nat> {
    if s == [] then [] else Units(s[0]) + Utf16(s[1..])
  }

  /** The `length` of a string. */
  function Length(s: string): nat {
    |Utf16(s)|
  }

  lemma {:induction false} LengthsAdd(a: string, b: string)
    ensures Length(a + b) == Length(a) + Length(b)
  {
    if a == [] {
      assert a + b == b;
    } else {
      assert (a + b)[1..] == a[1..] + b;
      LengthsAdd(a[1..], b);
    }
  }

  predicate UnitsLess(left: seq<nat>, right: seq<nat>) {
    right != [] &&
    (left == [] || left[0] < right[0] || (left[0] == right[0] && UnitsLess(left[1..], right[1..])))
  }

  lemma DifferentUnits(c: char, d: char, x: seq<nat>, y: seq<nat>)
    requires c != d
    ensures UnitsLess(Units(c) + x, Units(d) + y) <==> Rank(c) < Rank(d)
  {
    var a, b := Units(c) + x, Units(d) + y;
    assert a[0] == Units(c)[0] && b[0] == Units(d)[0];
    if a[0] == b[0] {
      assert a[1..][0] == Units(c)[1] && b[1..][0] == Units(d)[1];
    }
  }

  lemma SameUnits(c: char, x: seq<nat>, y: seq<nat>)
    ensures UnitsLess(Units(c) + x, Units(c) + y) <==> UnitsLess(x, y)
  {
    var units := Units(c);
    if |units| == 1 {
      assert (units + x)[1..] == x && (units + y)[1..] == y;
    } else {
      assert units == [units[0], units[1]];
      assert (units + x)[1..] == [units[1]] + x && (units + y)[1..] == [units[1]] + y;
      assert ([units[1]] + x)[1..] == x && ([units[1]] + y)[1..] == y;
    }
  }

  /** Less is the lexicographic order of the code units. */
  lemma {:induction false} LessIsCodeUnitOrder(a: string, b: string)
    ensures Less(a, b) <==> UnitsLess(Utf16(a), Utf16(b))
  {
    if a != [] && b != [] {
      if a[0] == b[0] {
        SameUnits(a[0], Utf16(a[1..]), Utf16(b[1..]));
        LessIsCodeUnitOrder(a[1..], b[1..]);
      } else {
        DifferentUnits(a[0], b[0], Utf16(a[1..]), Utf16(b[1..]));
      }
    }
  }
}
