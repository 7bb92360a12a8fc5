/** Strings as the program compares and prints them: code-point order, decimal
    numbers, and zero-padded decimal numbers. */
module Text {

  datatype Option<+T> = None | Some(value: T)

  /** Python's `<` on strings: code point by code point, a prefix before its extensions. */
  predicate StrLess(a: string, b: string) {
    |b| > 0 &&
    (|a| == 0 || a[0] < b[0] || (a[0] == b[0] && StrLess(a[1..], b[1..])))
  }

  lemma {:induction false} StrLessTotal(a: string, b: string)
    ensures StrLess(a, b) || a == b || StrLess(b, a)
  {
    if |a| > 0 && |b| > 0 && a[0] == b[0] {
      StrLessTotal(a[1..], b[1..]);
      assert a == [a[0]] + a[1..] && b == [b[0]] + b[1..];
    }
  }

  lemma {:induction false} StrLessTransitive(a: string, b: string, c: string)
    requires StrLess(a, b) && StrLess(b, c)
    ensures StrLess(a, c)
  {
    if |a| > 0 && a[0] == b[0] && b[0] == c[0] {
      StrLessTransitive(a[1..], b[1..], c[1..]);
    }
  }

  lemma {:induction false} StrLessIrreflexive(a: string)
    ensures !StrLess(a, a)
  {
    if |a| > 0 {
      StrLessIrreflexive(a[1..]);
    }
  }

  lemma StrLessAsymmetric(a: string, b: string)
    requires StrLess(a, b)
    ensures !StrLess(b, a) && a != b
  {
    StrLessIrreflexive(a);
    if StrLess(b, a) {
      StrLessTransitive(a, b, a);
    }
  }

  /** Two strings built from equally long heads compare by their heads first. */
  lemma {:induction false} StrLessConcat(a: string, x: string, b: string, y: string)
    requires |a| == |b|
    ensures StrLess(a + x, b + y) <==> StrLess(a, b) || (a == b && StrLess(x, y))
  {
    if |a| == 0 {
      assert a + x == x && b + y == y;
    } else {
      assert (a + x)[1..] == a[1..] + x && (b + y)[1..] == b[1..] + y;
      StrLessConcat(a[1..], x, b[1..], y);
      assert a == [a[0]] + a[1..] && b == [b[0]] + b[1..];
    }
  }

  lemma AnyOf<T>(s: set<T>) returns (x: T)
    requires s != {}
    ensures x in s
  {
    x :| x in s;
  }

  // ── Numbers ──

  function DigitChar(d: nat): (c: char)
    requires d < 10
    ensures '0' <= c <= '9'
  {
    '0' + d as char
  }

  predicate IsDigit(c: char) {
    '0' <= c <= '9'
  }

  predicate AllDigits(s: string) {
    forall i :: 0 <= i < |s| ==> IsDigit(s[i])
  }

  function DigitValue(c: char): (d: nat)
    requires IsDigit(c)
    ensures d < 10
  {
    (c - '0') as nat
  }

  /** Python's `int()` on a run of digits. */
  function Value(s: string): nat
    requires AllDigits(s)
  {
    if |s| == 0 then 0 else Value(s[..|s| - 1]) * 10 + DigitValue(s[|s| - 1])
  }

  /** `n` in decimal, no padding. */
  function Decimal(n: nat): (s: string)
    ensures |s| >= 1
  {
    if n < 10 then [DigitChar(n)] else Decimal(n / 10) + [DigitChar(n % 10)]
  }

  lemma {:induction false} DecimalReads(n: nat)
    ensures AllDigits(Decimal(n)) && Value(Decimal(n)) == n
  {
    var s := Decimal(n);
    if n < 10 {
      assert s[..0] == [];
    } else {
      DecimalReads(n / 10);
      assert s[..|s| - 1] == Decimal(n / 10);
    }
  }

  function Pow10(w: nat): nat {
    if w == 0 then 1 else 10 * Pow10(w - 1)
  }

  /** `n` in exactly `w` digits, its high digits dropped when it has more. */
  function Padded(n: nat, w: nat): (s: string)
    ensures |s| == w
  {
    if w == 0 then "" else Padded(n / 10, w - 1) + [DigitChar(n % 10)]
  }

  lemma {:induction false} PaddedReads(n: nat, w: nat)
    ensures AllDigits(Padded(n, w))
    ensures n < Pow10(w) ==> Value(Padded(n, w)) == n
  {
    if w > 0 {
      PaddedReads(n / 10, w - 1);
      var s := Padded(n, w);
      assert s[..|s| - 1] == Padded(n / 10, w - 1);
    }
  }

  /** Padded numbers sort as text exactly as they sort as numbers. */
  lemma {:induction false} PaddedOrder(a: nat, b: nat, w: nat)
    requires a < Pow10(w) && b < Pow10(w)
    ensures StrLess(Padded(a, w), Padded(b, w)) <==> a < b
    ensures Padded(a, w) == Padded(b, w) <==> a == b
  {
    if w > 0 {
      var ha, hb := Padded(a / 10, w - 1), Padded(b / 10, w - 1);
      var la, lb := [DigitChar(a % 10)], [DigitChar(b % 10)];
      PaddedOrder(a / 10, b / 10, w - 1);
      StrLessConcat(ha, la, hb, lb);
      assert StrLess(la, lb) <==> a % 10 < b % 10;
      assert a == a / 10 * 10 + a % 10 && b == b / 10 * 10 + b % 10;
      PaddedReads(a, w);
      PaddedReads(b, w);
    }
  }

  // ── The first name of a set, as `ORDER BY name` puts it ──

  predicate IsFirst(n: string, names: set<string>) {
    n in names && forall m :: m in names && m != n ==> StrLess(n, m)
  }

  lemma {:induction false} HasFirst(names: set<string>)
    requires names != {}
    ensures exists n :: IsFirst(n, names)
    decreases |names|
  {
    var some :| some in names;
    var rest := names - {some};
    if rest == {} {
      assert names == {some};
      assert IsFirst(some, names);
    } else {
      HasFirst(rest);
      var n :| IsFirst(n, rest);
      StrLessTotal(n, some);
      if StrLess(some, n) {
        forall m | m in names && m != some
          ensures StrLess(some, m)
        {
          if m != n { StrLessTransitive(some, n, m); }
        }
        assert IsFirst(some, names);
      } else {
        assert IsFirst(n, names);
      }
    }
  }

  lemma FirstIsUnique(names: set<string>)
    ensures forall a, b :: IsFirst(a, names) && IsFirst(b, names) ==> a == b
  {
    forall a, b | IsFirst(a, names) && IsFirst(b, names)
      ensures a == b
    {
      if a != b { StrLessAsymmetric(a, b); }
    }
  }

  function First(names: set<string>): (n: string)
    requires names != {}
    ensures IsFirst(n, names)
  {
    HasFirst(names);
    FirstIsUnique(names);
    var n :| IsFirst(n, names);
    n
  }

  /** Every name of the set once, in order. */
  function Sorted(names: set<string>): (r: seq<string>)
    ensures forall n :: n in r <==> n in names
    ensures Ascending(r)
    decreases |names|
  {
    if names == {} then []
    else
      var n := First(names);
      [n] + Sorted(names - {n})
  }

  predicate Ascending(r: seq<string>) {
    forall i, j :: 0 <= i < j < |r| ==> StrLess(r[i], r[j])
  }

  /** Only one ascending list has a given set of names. */
  lemma {:induction false} SortedIsUnique(r: seq<string>, names: set<string>)
    requires Ascending(r) && forall n :: n in r <==> n in names
    ensures r == Sorted(names)
    decreases |r|
  {
    if r == [] {
      assert names == {};
    } else {
      assert r[0] in names;
      assert IsFirst(r[0], names);
      FirstIsUnique(names);
      var rest := names - {r[0]};
      forall n
        ensures n in r[1..] <==> n in rest
      {
        if n in r[1..] && n == r[0] { StrLessIrreflexive(n); }
      }
      SortedIsUnique(r[1..], rest);
    }
  }
}
