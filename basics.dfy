/**
 * The Python built-ins the tracker relies on, stated over Dafny strings:
 * `str.lower`/`str.upper` (ASCII letters only), the `in` substring test,
 * `str.strip()`, `str(int)`, `int(digits)` and the code-point order that
 * `sorted` uses on `str`.
 */
module Basics {

  datatype Option<T> = None | Some(value: T)

  // ---------------------------------------------------------------------
  // Case mapping (ASCII letters only)
  // ---------------------------------------------------------------------

  function LowerChar(c: char): char
  {
    if 'A' <= c <= 'Z' then (c as int + 32) as char else c
  }

  function UpperChar(c: char): char
  {
    if 'a' <= c <= 'z' then (c as int - 32) as char else c
  }

  /** `s.lower()`: every ASCII upper-case letter replaced by its lower-case form. */
  function Lower(s: string): (r: string)
    ensures |r| == |s|
  {
    if s == [] then [] else [LowerChar(s[0])] + Lower(s[1..])
  }

  /** `s.upper()`: every ASCII lower-case letter replaced by its upper-case form. */
  function Upper(s: string): (r: string)
    ensures |r| == |s|
  {
    if s == [] then [] else [UpperChar(s[0])] + Upper(s[1..])
  }

  /** Lower-casing works character by character and keeps the length. */
  lemma {:induction false} LowerAt(s: string, i: int)
    requires 0 <= i < |s|
    ensures Lower(s)[i] == LowerChar(s[i])
  {
    if i > 0 {
      LowerAt(s[1..], i - 1);
    }
  }

  /** A string without ASCII capitals is its own lower-case form. */
  lemma {:induction false} LowerWithoutCapitals(s: string)
    requires forall k :: 0 <= k < |s| ==> !('A' <= s[k] <= 'Z')
    ensures Lower(s) == s
  {
    if s != [] {
      LowerWithoutCapitals(s[1..]);
    }
  }

  /** Lower-casing an already lower-cased string changes nothing. */
  lemma {:induction false} LowerIdempotent(s: string)
    ensures Lower(Lower(s)) == Lower(s)
  {
    if s != [] {
      var l := Lower(s);
      assert l[1..] == Lower(s[1..]);
      LowerIdempotent(s[1..]);
    }
  }

  /** Upper-casing an already upper-cased string changes nothing. */
  lemma {:induction false} UpperIdempotent(s: string)
    ensures Upper(Upper(s)) == Upper(s)
  {
    if s != [] {
      var u := Upper(s);
      assert u[1..] == Upper(s[1..]);
      UpperIdempotent(s[1..]);
    }
  }

  // ---------------------------------------------------------------------
  // Substring test (`t in s`)
  // ---------------------------------------------------------------------

  /** `t in s` for two Python strings. */
  predicate Contains(s: string, t: string)
    ensures Contains(s, t) ==> |t| <= |s|
    ensures t == [] ==> Contains(s, t)
    decreases |s|
  {
    if |t| > |s| then false
    else if s[..|t|] == t then true
    else Contains(s[1..], t)
  }

  /** Reference definition: `t` occurs in `s` starting at index `i`. */
  ghost predicate OccursAt(s: string, t: string, i: int)
  {
    0 <= i && i + |t| <= |s| && s[i..i + |t|] == t
  }

  /** The recursive test agrees with "there is a position where `t` occurs". */
  lemma {:induction false} ContainsIffOccurs(s: string, t: string)
    ensures Contains(s, t) <==> exists i :: OccursAt(s, t, i)
    decreases |s|
  {
    if |t| > |s| {
      forall i ensures !OccursAt(s, t, i) {
      }
    } else if s[..|t|] == t {
      assert OccursAt(s, t, 0);
    } else {
      ContainsIffOccurs(s[1..], t);
      if Contains(s[1..], t) {
        var i :| OccursAt(s[1..], t, i);
        assert s[1..][i..i + |t|] == s[i + 1..i + 1 + |t|];
        assert OccursAt(s, t, i + 1);
      }
      if exists i :: OccursAt(s, t, i) {
        var i :| OccursAt(s, t, i);
        assert i != 0;
        assert s[1..][i - 1..i - 1 + |t|] == s[i..i + |t|];
        assert OccursAt(s[1..], t, i - 1);
      }
    }
  }

  /** An occurrence at a known position makes the test succeed. */
  lemma ContainsAt(s: string, t: string, i: int)
    requires OccursAt(s, t, i)
    ensures Contains(s, t)
  {
    ContainsIffOccurs(s, t);
  }

  // ---------------------------------------------------------------------
  // Whitespace stripping (`str.strip()`)
  // ---------------------------------------------------------------------

  /** The characters for which Python's `str.isspace()` holds. */
  predicate IsSpace(c: char)
  {
    || c == ' '
    || '\U{9}' <= c <= '\U{D}'
    || '\U{1C}' <= c <= '\U{1F}'
    || c == '\U{85}' || c == '\U{A0}' || c == '\U{1680}'
    || '\U{2000}' <= c <= '\U{200A}'
    || c == '\U{2028}' || c == '\U{2029}' || c == '\U{202F}'
    || c == '\U{205F}' || c == '\U{3000}'
  }

  /** Drops the leading whitespace of `s`. */
  function StripLeft(s: string): (r: string)
    ensures |r| <= |s| && r == s[|s| - |r|..]
    ensures r == [] || !IsSpace(r[0])
    ensures forall k :: 0 <= k < |s| - |r| ==> IsSpace(s[k])
  {
    if s != [] && IsSpace(s[0]) then StripLeft(s[1..]) else s
  }

  /** Drops the trailing whitespace of `s`. */
  function StripRight(s: string): (r: string)
    ensures |r| <= |s| && r == s[..|r|]
    ensures r == [] || !IsSpace(r[|r| - 1])
    ensures forall k :: |r| <= k < |s| ==> IsSpace(s[k])
  {
    if s != [] && IsSpace(s[|s| - 1]) then StripRight(s[..|s| - 1]) else s
  }

  /** `s.strip()`: the part of `s` between its leading and its trailing whitespace. */
  function Strip(s: string): (r: string)
    ensures r == [] || (!IsSpace(r[0]) && !IsSpace(r[|r| - 1]))
  {
    StripRight(StripLeft(s))
  }

  /** What `strip` keeps is one slice of `s`, and all it drops on either side is whitespace. */
  lemma StripIsTrimmedSlice(s: string)
    ensures exists lo, hi ::
              && 0 <= lo <= hi <= |s| && Strip(s) == s[lo..hi]
              && (forall k :: 0 <= k < lo ==> IsSpace(s[k]))
              && (forall k :: hi <= k < |s| ==> IsSpace(s[k]))
  {
    var l := StripLeft(s);
    var r := StripRight(l);
    var lo := |s| - |l|;
    assert r == s[lo..lo + |r|];
    forall k | lo + |r| <= k < |s| ensures IsSpace(s[k]) {
      assert s[k] == l[k - lo];
    }
  }

  /** Stripping yields the empty string exactly for all-whitespace input. */
  lemma StripEmptyIffAllSpace(s: string)
    ensures Strip(s) == [] <==> forall k :: 0 <= k < |s| ==> IsSpace(s[k])
  {
    StripIsTrimmedSlice(s);
    var r := Strip(s);
    if r != [] {
      var lo, hi :| 0 <= lo <= hi <= |s| && r == s[lo..hi];
      assert s[lo] == r[0];
    }
  }

  // ---------------------------------------------------------------------
  // Decimal numerals (`str(n)` and `int(digits)`)
  // ---------------------------------------------------------------------

  predicate IsDigit(c: char)
  {
    '0' <= c <= '9'
  }

  predicate AllDigits(s: string)
  {
    forall k :: 0 <= k < |s| ==> IsDigit(s[k])
  }

  function DigitChar(d: nat): char
    requires d < 10
  {
    ('0' as int + d) as char
  }

  function DigitValue(c: char): nat
    requires IsDigit(c)
  {
    c as int - '0' as int
  }

  /** `str(n)` for a non-negative integer: decimal digits, no leading zero. */
  function NatToString(n: nat): (r: string)
    ensures |r| >= 1 && AllDigits(r)
    ensures (r[0] == '0') == (n == 0)
  {
    if n < 10 then [DigitChar(n)] else NatToString(n / 10) + [DigitChar(n % 10)]
  }

  /** `str(i)` for any integer: a minus sign before the digits of a negative value. */
  function IntToString(i: int): (r: string)
    ensures |r| >= 1
    ensures (r[0] == '-') == (i < 0)
  {
    if i < 0 then "-" + NatToString(-i) else NatToString(i)
  }

  /** `int(ds)` for a run of ASCII decimal digits. */
  function ParseDigits(ds: string): (r: nat)
    requires AllDigits(ds)
    ensures r == 0 <==> forall k :: 0 <= k < |ds| ==> ds[k] == '0'
  {
    if ds == [] then 0 else ParseDigits(ds[..|ds| - 1]) * 10 + DigitValue(ds[|ds| - 1])
  }

  /** Reading back what `str(n)` wrote gives `n`. */
  lemma {:induction false} ParseNatToString(n: nat)
    ensures ParseDigits(NatToString(n)) == n
  {
    var s := NatToString(n);
    if n >= 10 {
      assert s[..|s| - 1] == NatToString(n / 10);
      ParseNatToString(n / 10);
    }
  }

  /** Leading zeros do not change the value `int()` reads. */
  lemma {:induction false} ParseLeadingZero(ds: string)
    requires AllDigits(ds)
    ensures ParseDigits("0" + ds) == ParseDigits(ds)
    decreases |ds|
  {
    if ds != [] {
      var z := "0" + ds;
      assert z[..|z| - 1] == "0" + ds[..|ds| - 1];
      ParseLeadingZero(ds[..|ds| - 1]);
    }
  }

  /** Two integers have the same decimal rendering only when they are equal. */
  lemma IntToStringInjective(a: int, b: int)
    requires IntToString(a) == IntToString(b)
    ensures a == b
  {
    if a < 0 {
      assert IntToString(a)[1..] == NatToString(-a);
      assert IntToString(b)[1..] == NatToString(-b);
      ParseNatToString(-a);
      ParseNatToString(-b);
    } else {
      ParseNatToString(a);
      ParseNatToString(b);
    }
  }

  // ---------------------------------------------------------------------
  // Python's order on `str`
  // ---------------------------------------------------------------------

  /** `a < b` on Python strings: lexicographic by code point, a proper prefix first. */
  predicate StrLess(a: string, b: string)
    ensures StrLess(a, b) ==> b != []
    ensures |a| < |b| && a == b[..|a|] ==> StrLess(a, b)
    decreases |a|
  {
    |b| > 0 && (|a| == 0 || a[0] < b[0] || (a[0] == b[0] && StrLess(a[1..], b[1..])))
  }

  lemma {:induction false} StrLessIrreflexive(a: string)
    ensures !StrLess(a, a)
    decreases |a|
  {
    if |a| > 0 {
      StrLessIrreflexive(a[1..]);
    }
  }

  lemma {:induction false} StrLessTransitive(a: string, b: string, c: string)
    requires StrLess(a, b) && StrLess(b, c)
    ensures StrLess(a, c)
    decreases |a|
  {
    if |a| > 0 && a[0] == b[0] && b[0] == c[0] {
      StrLessTransitive(a[1..], b[1..], c[1..]);
    }
  }

  lemma {:induction false} StrLessTotal(a: string, b: string)
    ensures a == b || StrLess(a, b) || StrLess(b, a)
    decreases |a|
  {
    if |a| > 0 && |b| > 0 && a[0] == b[0] {
      StrLessTotal(a[1..], b[1..]);
      if a[1..] == b[1..] {
        assert a == [a[0]] + a[1..] && b == [b[0]] + b[1..];
      }
    }
  }

  lemma StrLessAsymmetric(a: string, b: string)
    requires StrLess(a, b)
    ensures !StrLess(b, a)
  {
    if StrLess(b, a) {
      StrLessTransitive(a, b, a);
      StrLessIrreflexive(a);
    }
  }

  /** Strictly ascending in Python's string order, hence also free of duplicates. */
  predicate StrictlySorted(s: seq<string>)
  {
    forall i, j :: 0 <= i < j < |s| ==> StrLess(s[i], s[j])
  }

  /** Puts `x` into its place in a strictly sorted sequence (nothing happens if it is there). */
  function Insert(s: seq<string>, x: string): (r: seq<string>)
    requires StrictlySorted(s)
    ensures StrictlySorted(r)
    ensures forall y :: y in r <==> y in s || y == x
  {
    if s == [] then [x]
    else if x == s[0] then s
    else if StrLess(x, s[0]) then
      forall j | 1 <= j < |s| ensures StrLess(x, s[j]) {
        StrLessTransitive(x, s[0], s[j]);
      }
      [x] + s
    else
      StrLessTotal(x, s[0]);
      var rest := Insert(s[1..], x);
      assert forall y :: y in rest ==> StrLess(s[0], y);
      [s[0]] + rest
  }

  /** `sorted(items)` for a set of strings: the one strictly ascending listing of the set. */
  method SortSet(items: set<string>) returns (r: seq<string>)
    ensures StrictlySorted(r)
    ensures forall y :: y in r <==> y in items
    ensures |r| == |items|
  {
    r := [];
    var rest := items;
    while rest != {}
      invariant StrictlySorted(r)
      invariant forall y :: y in items <==> y in r || y in rest
      decreases rest
    {
      var x :| x in rest;
      r := Insert(r, x);
      rest := rest - {x};
    }
    SortedCardinality(r);
    assert (set y | y in r) == items;
  }

  /** Two strictly sorted listings of the same strings are the same sequence. */
  lemma {:induction false} SortedUnique(a: seq<string>, b: seq<string>)
    requires StrictlySorted(a) && StrictlySorted(b)
    requires forall y :: y in a <==> y in b
    ensures a == b
    decreases |a|
  {
    // a head of either listing is an element of the other, so neither is empty alone
    if a != [] {
      assert a[0] in b;
    }
    if b != [] {
      assert b[0] in a;
    }
    if a != [] && b != [] {
      if a[0] != b[0] {
        var i :| 0 <= i < |a| && a[i] == b[0];
        var j :| 0 <= j < |b| && b[j] == a[0];
        assert StrLess(a[0], b[0]);
        assert StrLess(b[0], a[0]);
        StrLessAsymmetric(a[0], b[0]);
      }
      forall y ensures y in a[1..] <==> y in b[1..] {
        if y in a[1..] {
          var i :| 1 <= i < |a| && a[i] == y;
          StrLessIrreflexive(y);
          assert y != a[0] && y in b;
          var j :| 0 <= j < |b| && b[j] == y;
          assert j != 0 && b[1..][j - 1] == y;
        }
        if y in b[1..] {
          var j :| 1 <= j < |b| && b[j] == y;
          StrLessIrreflexive(y);
          assert y != b[0] && y in a;
          var i :| 0 <= i < |a| && a[i] == y;
          assert i != 0 && a[1..][i - 1] == y;
        }
      }
      SortedUnique(a[1..], b[1..]);
    }
  }

  /** A strictly sorted sequence has as many elements as it has distinct elements. */
  lemma {:induction false} SortedCardinality(s: seq<string>)
    requires StrictlySorted(s)
    ensures |(set y | y in s)| == |s|
    decreases |s|
  {
    if s != [] {
      SortedCardinality(s[1..]);
      var tail := set y | y in s[1..];
      assert (set y | y in s) == {s[0]} + tail;
      StrLessIrreflexive(s[0]);
      assert s[0] !in tail;
    }
  }
}
