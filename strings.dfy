/** String helpers the screens rely on: code-unit order (what
    `localeCompare`, `Array.prototype.sort` and the database's text
    comparison amount to on ISO dates and timestamps), `split`/`join`,
    and the zero-padded decimal fields of `YYYY-MM-DD` date strings. */
module Strings {

  /** Lexicographic order on character codes. */
  predicate LexLe(a: string, b: string)
    decreases |a|
  {
    if a == [] then true
    else if b == [] then false
    else if a[0] != b[0] then a[0] < b[0]
    else LexLe(a[1..], b[1..])
  }

  predicate LexLt(a: string, b: string) {
    LexLe(a, b) && a != b
  }

  lemma {:induction false} LexLeReflexive(a: string)
    ensures LexLe(a, a)
    decreases |a|
  {
    if a != [] { LexLeReflexive(a[1..]); }
  }

  lemma {:induction false} LexLeAntisymmetric(a: string, b: string)
    requires LexLe(a, b) && LexLe(b, a)
    ensures a == b
    decreases |a|
  {
    if a != [] && b != [] {
      LexLeAntisymmetric(a[1..], b[1..]);
      assert a == [a[0]] + a[1..] && b == [b[0]] + b[1..];
    }
  }

  lemma {:induction false} LexLeTransitive(a: string, b: string, c: string)
    requires LexLe(a, b) && LexLe(b, c)
    ensures LexLe(a, c)
    decreases |a|
  {
    if a != [] && b != [] && c != [] && a[0] == b[0] && b[0] == c[0] {
      LexLeTransitive(a[1..], b[1..], c[1..]);
    }
  }

  lemma {:induction false} LexLeTotal(a: string, b: string)
    ensures LexLe(a, b) || LexLe(b, a)
    decreases |a|
  {
    if a != [] && b != [] && a[0] == b[0] {
      LexLeTotal(a[1..], b[1..]);
    }
  }

  lemma LexLtTransitive(a: string, b: string, c: string)
    requires LexLt(a, b) && LexLe(b, c)
    ensures LexLt(a, c)
  {
    LexLeTransitive(a, b, c);
    if a == c {
      LexLeAntisymmetric(a, b);
    }
  }

  /** Two strings split at the same length compare by their first
      halves first, and by their second halves when those agree. */
  lemma {:induction false} LexLeConcat(a1: string, a2: string, b1: string, b2: string)
    requires |a1| == |b1|
    ensures LexLe(a1 + a2, b1 + b2) <==> LexLt(a1, b1) || (a1 == b1 && LexLe(a2, b2))
    decreases |a1|
  {
    if a1 == [] {
      assert a1 + a2 == a2 && b1 + b2 == b2;
    } else {
      assert (a1 + a2)[0] == a1[0] && (b1 + b2)[0] == b1[0];
      assert (a1 + a2)[1..] == a1[1..] + a2 && (b1 + b2)[1..] == b1[1..] + b2;
      LexLeConcat(a1[1..], a2, b1[1..], b2);
      if a1[0] == b1[0] {
        assert a1 == b1 <==> a1[1..] == b1[1..] by {
          assert a1 == [a1[0]] + a1[1..] && b1 == [b1[0]] + b1[1..];
        }
      }
    }
  }

  /** Strings split at the same length are equal iff both halves are. */
  lemma ConcatEq(a1: string, a2: string, b1: string, b2: string)
    requires |a1| == |b1|
    ensures a1 + a2 == b1 + b2 <==> a1 == b1 && a2 == b2
  {
    if a1 + a2 == b1 + b2 {
      assert a1 == (a1 + a2)[..|a1|] && b1 == (b1 + b2)[..|a1|];
      assert a2 == (a1 + a2)[|a1|..] && b2 == (b1 + b2)[|a1|..];
    }
  }

  // ---------------------------------------------------------------------
  // split and join

  /** `rows.join(sep)`. */
  function Join(rows: seq<string>, sep: char): string
    decreases |rows|
  {
    if |rows| == 0 then ""
    else if |rows| == 1 then rows[0]
    else rows[0] + [sep] + Join(rows[1..], sep)
  }

  /** `s.split(sep)`: never empty; `"".split(sep)` is `[""]`. */
  function Split(s: string, sep: char): (parts: seq<string>)
    ensures |parts| >= 1
    decreases |s|
  {
    if s == [] then [""]
    else if s[0] == sep then [""] + Split(s[1..], sep)
    else
      var rest := Split(s[1..], sep);
      [[s[0]] + rest[0]] + rest[1..]
  }

  lemma {:induction false} SplitNoSep(a: string, sep: char)
    requires sep !in a
    ensures Split(a, sep) == [a]
    decreases |a|
  {
    if a != [] {
      SplitNoSep(a[1..], sep);
      assert [a[0]] + a[1..] == a;
    }
  }

  lemma {:induction false} SplitAtFirstSep(a: string, sep: char, b: string)
    requires sep !in a
    ensures Split(a + [sep] + b, sep) == [a] + Split(b, sep)
    decreases |a|
  {
    var s := a + [sep] + b;
    if a == [] {
      assert s == [sep] + b;
      assert s[1..] == b;
    } else {
      assert s[0] == a[0];
      assert s[1..] == a[1..] + [sep] + b;
      SplitAtFirstSep(a[1..], sep, b);
      assert [a[0]] + a[1..] == a;
    }
  }

  /** Splitting a join at the separator gives the rows back, provided no
      row contains the separator. */
  lemma {:induction false} SplitJoin(rows: seq<string>, sep: char)
    requires |rows| >= 1
    requires forall i :: 0 <= i < |rows| ==> sep !in rows[i]
    ensures Split(Join(rows, sep), sep) == rows
    decreases |rows|
  {
    if |rows| == 1 {
      SplitNoSep(rows[0], sep);
    } else {
      SplitJoin(rows[1..], sep);
      SplitAtFirstSep(rows[0], sep, Join(rows[1..], sep));
      assert [rows[0]] + rows[1..] == rows;
    }
  }

  /** `s.split('T')[0]`: everything before the first `'T'`. */
  function DatePart(s: string): (r: string)
    ensures r <= s && 'T' !in r
    ensures |r| < |s| ==> s[|r|] == 'T'
    decreases |s|
  {
    if s == [] || s[0] == 'T' then "" else [s[0]] + DatePart(s[1..])
  }

  lemma {:induction false} DatePartIsFirstSplit(s: string)
    ensures DatePart(s) == Split(s, 'T')[0]
    decreases |s|
  {
    if s != [] && s[0] != 'T' { DatePartIsFirstSplit(s[1..]); }
  }

  // ---------------------------------------------------------------------
  // decimal fields

  function DigitChar(d: int): char
    requires 0 <= d < 10
  {
    ('0' as int + d) as char
  }

  function Pow10(w: nat): (p: nat)
    ensures p >= 1
  {
    if w == 0 then 1 else 10 * Pow10(w - 1)
  }

  /** The last `w` decimal digits of `n`, zero-padded (`padStart(w, '0')`
      for `n < 10^w`, as in the fields `toISOString` prints). */
  function Digits(n: nat, w: nat): (r: string)
    ensures |r| == w
  {
    if w == 0 then "" else Digits(n / 10, w - 1) + [DigitChar(n % 10)]
  }

  /** Fixed-width digit strings compare as their numbers do. */
  lemma {:induction false} DigitsOrder(x: nat, y: nat, w: nat)
    requires x < Pow10(w) && y < Pow10(w)
    ensures LexLe(Digits(x, w), Digits(y, w)) <==> x <= y
    ensures Digits(x, w) == Digits(y, w) <==> x == y
  {
    if w > 0 {
      DigitsOrder(x / 10, y / 10, w - 1);
      var hx, hy := Digits(x / 10, w - 1), Digits(y / 10, w - 1);
      var lx, ly := [DigitChar(x % 10)], [DigitChar(y % 10)];
      LexLeConcat(hx, lx, hy, ly);
      assert Digits(x, w) == hx + lx && Digits(y, w) == hy + ly;
      assert LexLe(lx, ly) <==> x % 10 <= y % 10;
      assert lx == ly <==> x % 10 == y % 10;
      assert x == 10 * (x / 10) + x % 10 && y == 10 * (y / 10) + y % 10;
      if hx + lx == hy + ly {
        assert hx == (hx + lx)[..w - 1] && hy == (hy + ly)[..w - 1];
        assert lx == (hx + lx)[w - 1..] && ly == (hy + ly)[w - 1..];
      }
    }
  }

  /** `String(n)`: the decimal rendering of a natural number. */
  function NatToString(n: nat): string
    decreases n
  {
    if n < 10 then [DigitChar(n)] else NatToString(n / 10) + [DigitChar(n % 10)]
  }

  lemma NatToStringOfFourDigits(n: nat)
    requires 1000 <= n < 10000
    ensures NatToString(n) == Digits(n, 4)
  {
    var a, b, c := n / 10, n / 100, n / 1000;
    assert n / 10 / 10 == b && b / 10 == c && 1 <= c < 10;
    assert NatToString(c) == [DigitChar(c)] == Digits(c, 1);
    assert NatToString(b) == Digits(b, 2);
    assert NatToString(a) == Digits(a, 3);
  }
}
