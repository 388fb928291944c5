/**
 * The bits of Python's string behaviour the model relies on: f-string formatting of
 * integers, the ordering `a < b` on `str`, and `sorted` applied to a set of strings.
 */
module Text {

  predicate IsDigit(c: char) {
    '0' as int <= c as int <= '9' as int
  }

  function DigitChar(d: nat): (c: char)
    requires d < 10
    ensures IsDigit(c) && DigitValue(c) == d
  {
    "0123456789"[d]
  }

  function DigitValue(c: char): nat
    requires IsDigit(c)
  {
    (c as int) - ('0' as int)
  }

  /** Decimal digits of `n`, without leading zeros, as `f"{n}"` writes them. */
  function NatToString(n: nat): (s: string)
    ensures |s| >= 1 && forall i :: 0 <= i < |s| ==> IsDigit(s[i])
  {
    if n < 10 then [DigitChar(n)] else NatToString(n / 10) + [DigitChar(n % 10)]
  }

  /** `f"{i}"` for a Python `int`: a minus sign before the digits of a negative number. */
  function IntToString(i: int): (r: string)
    ensures |r| >= 1 && (r[0] == '-' <==> i < 0)
    ensures forall k :: 1 <= k < |r| ==> IsDigit(r[k])
  {
    if i < 0 then "-" + NatToString(-i) else NatToString(i)
  }

  /** The reading of a digit string; the inverse of NatToString. */
  function ParseNat(s: string): nat
    requires forall i :: 0 <= i < |s| ==> IsDigit(s[i])
  {
    if s == [] then 0
    else ParseNat(s[..|s| - 1]) * 10 + DigitValue(s[|s| - 1])
  }

  predicate IsIntLiteral(s: string) {
    if |s| > 0 && s[0] == '-' then
      |s| > 1 && forall i :: 1 <= i < |s| ==> IsDigit(s[i])
    else
      |s| > 0 && forall i :: 0 <= i < |s| ==> IsDigit(s[i])
  }

  /** `int(s)` on the strings IntToString produces. */
  function ParseInt(s: string): int
    requires IsIntLiteral(s)
  {
    if s[0] == '-' then -(ParseNat(s[1..]) as int) else ParseNat(s)
  }

  lemma {:induction false} ParseNatToString(n: nat)
    ensures ParseNat(NatToString(n)) == n
  {
    var s := NatToString(n);
    if n >= 10 {
      assert s[..|s| - 1] == NatToString(n / 10);
      ParseNatToString(n / 10);
    }
  }

  /** Formatting a band number and reading it back gives the number: distinct bands get distinct text. */
  lemma IntToStringRoundTrip(i: int)
    ensures IsIntLiteral(IntToString(i)) && ParseInt(IntToString(i)) == i
  {
    var s := IntToString(i);
    if i < 0 {
      var digits := NatToString(-i);
      assert s == "-" + digits;
      assert s[0] == '-' && s[1..] == digits;
      ParseNatToString(-i);
    } else {
      assert s == NatToString(i);
      assert IsDigit(s[0]);
      ParseNatToString(i);
    }
  }

  /** Python's `a < b` on `str`: code point by code point, a proper prefix first. */
  predicate Below(a: string, b: string)
    ensures Below(a, b) ==> a != b
    decreases |a|
  {
    if a == [] then b != []
    else if b == [] then false
    else a[0] < b[0] || (a[0] == b[0] && Below(a[1..], b[1..]))
  }

  lemma {:induction false} BelowIrreflexive(a: string)
    ensures !Below(a, a)
  {
    if a != [] {
      BelowIrreflexive(a[1..]);
    }
  }

  lemma {:induction false} BelowTransitive(a: string, b: string, c: string)
    requires Below(a, b) && Below(b, c)
    ensures Below(a, c)
  {
    if a != [] && b != [] && c != [] && a[0] == b[0] && b[0] == c[0] {
      BelowTransitive(a[1..], b[1..], c[1..]);
    }
  }

  lemma {:induction false} BelowTotal(a: string, b: string)
    requires a != b
    ensures Below(a, b) || Below(b, a)
  {
    if a != [] && b != [] && a[0] == b[0] {
      assert a == [a[0]] + a[1..];
      assert b == [b[0]] + b[1..];
      BelowTotal(a[1..], b[1..]);
    }
  }

  lemma BelowAsymmetric(a: string, b: string)
    requires Below(a, b)
    ensures !Below(b, a)
  {
    if Below(b, a) {
      BelowTransitive(a, b, a);
      BelowIrreflexive(a);
    }
  }

  predicate StrictlySorted(xs: seq<string>) {
    forall i, j :: 0 <= i < j < |xs| ==> Below(xs[i], xs[j])
  }

  /** `m` comes before every other element of `s`. */
  predicate IsLeast(m: string, s: set<string>) {
    m in s && forall y :: y in s && y != m ==> Below(m, y)
  }

  /** The least element of a non-empty set of strings exists. */
  lemma {:induction false} LeastExists(s: set<string>)
    requires s != {}
    ensures exists m :: IsLeast(m, s)
    decreases |s|
  {
    var x :| x in s;
    if s != {x} {
      LeastExists(s - {x});
      var m :| IsLeast(m, s - {x});
      if Below(m, x) {
        assert IsLeast(m, s);
      } else {
        LeastOfRestAfter(s, x, m);
      }
    } else {
      assert IsLeast(x, s);
    }
  }

  /** When `x` comes before the least of the other elements, `x` is the least. */
  lemma LeastOfRestAfter(s: set<string>, x: string, m: string)
    requires x in s && IsLeast(m, s - {x}) && !Below(m, x)
    ensures IsLeast(x, s)
  {
    BelowTotal(m, x);
    forall y | y in s && y != x
      ensures Below(x, y)
    {
      if y != m {
        BelowTransitive(x, m, y);
      }
    }
  }

  /** The least element of a non-empty set of strings in Python's order. */
  function Least(s: set<string>): (m: string)
    requires s != {}
    ensures IsLeast(m, s)
  {
    LeastExists(s);
    assert forall a, b :: Below(a, b) ==> !Below(b, a) by {
      forall a, b | Below(a, b)
        ensures !Below(b, a)
      {
        BelowAsymmetric(a, b);
      }
    }
    var m :| IsLeast(m, s);
    m
  }

  /** `sorted(s)` for a set of strings: every element once, in ascending order. */
  function SortedStrings(s: set<string>): (r: seq<string>)
    ensures StrictlySorted(r)
    ensures |r| == |s|
    ensures forall y :: y in r <==> y in s
    decreases |s|
  {
    if s == {} then []
    else
      var m := Least(s);
      var rest := SortedStrings(s - {m});
      assert forall j :: 0 <= j < |rest| ==> Below(m, rest[j]) by {
        forall j | 0 <= j < |rest|
          ensures Below(m, rest[j])
        {
          assert rest[j] in s - {m};
        }
      }
      [m] + rest
  }

  /** A strictly ascending list is determined by its elements: `sorted` has only one possible answer. */
  lemma {:induction false} SortedUnique(a: seq<string>, b: seq<string>)
    requires StrictlySorted(a) && StrictlySorted(b)
    requires forall y :: y in a <==> y in b
    ensures a == b
  {
    if a != [] {
      assert b != [] by { assert a[0] in b; }
      if a[0] != b[0] {
        assert a[0] in b && b[0] in a;
        var k :| 0 <= k < |b| && b[k] == a[0];
        var m :| 0 <= m < |a| && a[m] == b[0];
        BelowAsymmetric(b[0], a[0]);
        assert false;
      }
      forall y
        ensures y in a[1..] <==> y in b[1..]
      {
        if y in a[1..] {
          var i :| 1 <= i < |a| && a[i] == y;
          if y == b[0] {
            BelowIrreflexive(y);
          }
          assert y in b;
        }
        if y in b[1..] {
          var i :| 1 <= i < |b| && b[i] == y;
          if y == a[0] {
            BelowIrreflexive(y);
          }
          assert y in a;
        }
      }
      SortedUnique(a[1..], b[1..]);
      assert a == [a[0]] + a[1..] && b == [b[0]] + b[1..];
    } else {
      assert forall y :: y in multiset(b) ==> y in b;
      assert multiset(b) == multiset{};
      assert |b| == |multiset(b)|;
    }
  }
}
