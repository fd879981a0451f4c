/** The pieces of Python's `str` behaviour the core relies on: ordering, `replace`,
    slicing, `int()` on digit strings and zero-padded decimal formatting. */
module Strings {
  import opened Wrappers

  /** Python's `a <= b` on `str`: lexicographic by code point, a proper prefix first. */
  predicate StrLe(a: string, b: string)
    decreases |a|
  {
    |a| == 0 || (|b| > 0 && (a[0] < b[0] || (a[0] == b[0] && StrLe(a[1..], b[1..]))))
  }

  lemma {:induction false} StrLeRefl(a: string)
    ensures StrLe(a, a)
    decreases |a|
  {
    if |a| > 0 { StrLeRefl(a[1..]); }
  }

  lemma {:induction false} StrLeTotal(a: string, b: string)
    ensures StrLe(a, b) || StrLe(b, a)
    decreases |a|
  {
    if |a| > 0 && |b| > 0 && a[0] == b[0] { StrLeTotal(a[1..], b[1..]); }
  }

  lemma {:induction false} StrLeTrans(a: string, b: string, c: string)
    requires StrLe(a, b) && StrLe(b, c)
    ensures StrLe(a, c)
    decreases |a|
  {
    if |a| > 0 && a[0] == b[0] && b[0] == c[0] { StrLeTrans(a[1..], b[1..], c[1..]); }
  }

  lemma {:induction false} StrLeAntisym(a: string, b: string)
    requires StrLe(a, b) && StrLe(b, a)
    ensures a == b
    decreases |a|
  {
    if |a| > 0 {
      StrLeAntisym(a[1..], b[1..]);
      assert a == [a[0]] + a[1..] && b == [b[0]] + b[1..];
    }
  }

  /** `StrLe` is a total order, as `sorted()` needs. */
  lemma StrLeTotalOrder()
    ensures forall a, b :: StrLe(a, b) || StrLe(b, a)
    ensures forall a, b, c :: StrLe(a, b) && StrLe(b, c) ==> StrLe(a, c)
  {
    forall a, b ensures StrLe(a, b) || StrLe(b, a) { StrLeTotal(a, b); }
    forall a, b, c | StrLe(a, b) && StrLe(b, c) ensures StrLe(a, c) { StrLeTrans(a, b, c); }
  }

  /** `s.replace(c, "")`: every occurrence of `c` removed, the other characters kept in order. */
  function Without(s: string, c: char): (r: string)
    ensures c !in r
    ensures |r| <= |s|
    ensures forall x :: x != c ==> multiset(r)[x] == multiset(s)[x]
  {
    if s == [] then []
    else
      assert s == [s[0]] + s[1..];
      (if s[0] == c then [] else [s[0]]) + Without(s[1..], c)
  }

  /** Removing a character that does not occur changes nothing, so `Without` is idempotent. */
  lemma {:induction false} WithoutAbsent(s: string, c: char)
    requires c !in s
    ensures Without(s, c) == s
  {
    if s != [] { WithoutAbsent(s[1..], c); }
  }

  /** `replace` works piece by piece, so the kept characters stay in order. */
  lemma {:induction false} WithoutAppend(a: string, b: string, c: char)
    ensures Without(a + b, c) == Without(a, c) + Without(b, c)
  {
    if a != [] {
      assert (a + b)[1..] == a[1..] + b;
      WithoutAppend(a[1..], b, c);
    } else {
      assert a + b == b;
    }
  }

  lemma WithoutIdempotent(s: string, c: char)
    ensures Without(Without(s, c), c) == Without(s, c)
  {
    WithoutAbsent(Without(s, c), c);
  }

  /** Python's `s[i:j]` for non-negative bounds: both ends clamped to the length. */
  function PySlice(s: string, i: nat, j: nat): (r: string)
    ensures |r| <= |s|
    ensures i <= j <= |s| ==> r == s[i..j]
    ensures j <= i || |s| <= i ==> r == []
  {
    var a := if i < |s| then i else |s|;
    var b := if j < |s| then j else |s|;
    if a <= b then s[a..b] else []
  }

  predicate IsDigit(ch: char) { '0' <= ch <= '9' }

  predicate AllDigits(s: string) { forall i :: 0 <= i < |s| ==> IsDigit(s[i]) }

  function DigitValue(ch: char): nat requires IsDigit(ch) { ch as nat - '0' as nat }

  function DigitChar(d: nat): (ch: char)
    requires d < 10
    ensures IsDigit(ch) && DigitValue(ch) == d
  {
    ('0' as nat + d) as char
  }

  /** The number a string of decimal digits denotes (most significant first). */
  function DigitsValue(s: string): nat
    requires AllDigits(s)
  {
    if s == [] then 0 else 10 * DigitsValue(s[..|s| - 1]) + DigitValue(s[|s| - 1])
  }

  function Pow10(k: nat): (p: nat)
    ensures p >= 1
  {
    if k == 0 then 1 else 10 * Pow10(k - 1)
  }

  /** Decimal digits of `n`, left-padded with zeros to at least `width` characters
      (Python's `f"{n:0{width}d}"`; `width` 1 gives `str(n)`). */
  function Decimal(n: nat, width: nat): (r: string)
    ensures |r| >= 1 && |r| >= width
    ensures AllDigits(r)
    decreases n + width
  {
    var last := [DigitChar(n % 10)];
    if n < 10 && width <= 1 then last
    else Decimal(n / 10, if width > 0 then width - 1 else 0) + last
  }

  /** Formatting then reading back gives the number. */
  lemma {:induction false} DecimalValue(n: nat, width: nat)
    ensures DigitsValue(Decimal(n, width)) == n
    decreases n + width
  {
    var r := Decimal(n, width);
    if n < 10 && width <= 1 {
    } else {
      var w := if width > 0 then width - 1 else 0;
      DecimalValue(n / 10, w);
      assert r[..|r| - 1] == Decimal(n / 10, w);
    }
  }

  /** A number below 10^width is written with exactly `width` digits. */
  lemma {:induction false} DecimalWidth(n: nat, width: nat)
    requires width >= 1 && n < Pow10(width)
    ensures |Decimal(n, width)| == width
    decreases width
  {
    if n < 10 && width <= 1 {
    } else {
      assert width >= 2;
      DecimalWidth(n / 10, width - 1);
    }
  }

  lemma {:induction false} DigitsValueBound(s: string)
    requires AllDigits(s)
    ensures DigitsValue(s) < Pow10(|s|)
    decreases |s|
  {
    if s != [] {
      DigitsValueBound(s[..|s| - 1]);
    }
  }

  /** Reading a digit string and writing it back at its own width gives the string. */
  lemma {:induction false} ValueDecimal(s: string)
    requires AllDigits(s) && |s| >= 1
    ensures Decimal(DigitsValue(s), |s|) == s
    decreases |s|
  {
    var n := DigitsValue(s);
    var init := s[..|s| - 1];
    assert n % 10 == DigitValue(s[|s| - 1]) && n / 10 == DigitsValue(init);
    assert DigitChar(n % 10) == s[|s| - 1];
    if |s| == 1 {
      assert init == [];
      assert Decimal(n, 1) == [s[0]];
    } else {
      ValueDecimal(init);
      assert s == init + [s[|s| - 1]];
    }
  }

  /** Python's `int(s)` on the strings the core hands it: a non-empty run of decimal digits. */
  function ParseNat(s: string): (r: Result<nat>)
    ensures r.Ok? <==> |s| > 0 && AllDigits(s)
    ensures r.Ok? ==> Decimal(r.value, |s|) == s
  {
    if |s| > 0 && AllDigits(s) then
      ValueDecimal(s);
      Ok(DigitsValue(s))
    else Err(ValueError("invalid literal for int() with base 10: '" + s + "'"))
  }

  /** Python's `str(i)` for an int. */
  function IntStr(i: int): (r: string)
    ensures |r| >= 1
    ensures i >= 0 <==> AllDigits(r)
  {
    if i < 0 then
      var r := "-" + Decimal(-i, 1);
      assert !IsDigit(r[0]);
      r
    else Decimal(i, 1)
  }
}
