/** Decimal digit strings: reading them as numbers and writing numbers as fixed-width digit strings. */
module Digits {
  import opened Arith

  predicate IsDigit(c: char)
  {
    '0' <= c <= '9'
  }

  function DigitValue(c: char): (v: nat)
    requires IsDigit(c)
    ensures v <= 9
  {
    c as int - '0' as int
  }

  function DigitChar(v: nat): (c: char)
    requires v <= 9
    ensures IsDigit(c) && DigitValue(c) == v
  {
    ('0' as int + v) as char
  }

  predicate AllDigits(s: string)
  {
    forall i :: 0 <= i < |s| ==> IsDigit(s[i])
  }

  /** The number a string of decimal digits denotes, most significant digit first. */
  function Value(s: string): (n: nat)
    requires AllDigits(s)
    ensures n < Pow10(|s|)
  {
    if s == [] then 0
    else
      AllDigitsTail(s);
      DigitShift(DigitValue(s[0]), Value(s[1..]), Pow10(|s| - 1));
      DigitValue(s[0]) * Pow10(|s| - 1) + Value(s[1..])
  }

  lemma DigitShift(d: nat, rest: nat, p: nat)
    requires d <= 9 && rest < p
    ensures 0 <= d * p + rest < 10 * p
  {
  }

  /** The last `width` decimal digits of n, with leading zeros. */
  function Fixed(n: nat, width: nat): (s: string)
    ensures |s| == width && AllDigits(s)
  {
    if width == 0 then [] else Fixed(n / 10, width - 1) + [DigitChar(n % 10)]
  }

  /** The number of decimal digits needed to write n (at least one). */
  function Width(n: nat): (w: nat)
    ensures 1 <= w && n < Pow10(w)
  {
    if n < 10 then 1 else 1 + Width(n / 10)
  }

  lemma {:induction false} ValueOfFixed(n: nat, width: nat)
    requires n < Pow10(width)
    ensures Value(Fixed(n, width)) == n
  {
    if width > 0 {
      var s := Fixed(n, width);
      assert s[..|s| - 1] == Fixed(n / 10, width - 1);
      ValueOfFixed(n / 10, width - 1);
      ValueSnoc(s);
    }
  }

  lemma {:induction false} FixedOfValue(s: string)
    requires AllDigits(s)
    ensures Fixed(Value(s), |s|) == s
  {
    if s != [] {
      var init, last := s[..|s| - 1], s[|s| - 1];
      assert AllDigits(init);
      FixedOfValue(init);
      var n, d := Value(s), DigitValue(last);
      ValueSnoc(s);
      assert n == 10 * Value(init) + d;
      DivModUnique(n, 10, Value(init), d);
      assert Fixed(n, |s|) == Fixed(Value(init), |init|) + [DigitChar(d)];
      assert s == init + [last];
    }
  }

  /** Reading a concatenation of digit strings: the left part is shifted by the length of the right part. */
  lemma {:induction false} ValueAppend(a: string, b: string)
    requires AllDigits(a) && AllDigits(b)
    ensures AllDigits(a + b) && Value(a + b) == Value(a) * Pow10(|b|) + Value(b)
  {
    assert AllDigits(a + b);
    if a == [] {
      assert a + b == b;
    } else {
      var a', d := a[1..], DigitValue(a[0]);
      var ab := a + b;
      assert AllDigits(a');
      assert ab[1..] == a' + b && ab[0] == a[0];
      ValueAppend(a', b);
      Pow10Add(|a'|, |b|);
      MulShift(d, Pow10(|a'|), Pow10(|b|), Value(a'), Value(b), Value(a' + b), Value(ab), Value(a));
    }
  }

  lemma MulShift(d: int, pa: int, pb: int, va': int, vb: int, vab: int, v: int, va: int)
    requires vab == va' * pb + vb && v == d * (pa * pb) + vab && va == d * pa + va'
    ensures v == va * pb + vb
  {
  }

  /** Appending one digit multiplies by ten and adds the digit. */
  lemma ValueSnoc(s: string)
    requires AllDigits(s) && s != []
    ensures AllDigits(s[..|s| - 1])
    ensures Value(s) == 10 * Value(s[..|s| - 1]) + DigitValue(s[|s| - 1])
  {
    var init, last := s[..|s| - 1], [s[|s| - 1]];
    SplitLast(s);
    assert AllDigits(init) && AllDigits(last);
    ValueAppend(init, last);
    var vi, vl := Value(init), Value(last);
    assert vl == DigitValue(s[|s| - 1]) by {
      assert last[1..] == [];
    }
    assert Pow10(1) == 10 * Pow10(0) == 10;
    assert Value(s) == vi * 10 + vl;
  }

  lemma SplitLast(s: string)
    requires s != []
    ensures s == s[..|s| - 1] + [s[|s| - 1]]
  {
  }

  lemma AllDigitsTail(s: string)
    requires AllDigits(s) && s != []
    ensures IsDigit(s[0]) && AllDigits(s[1..])
  {
    assert forall i :: 0 <= i < |s| - 1 ==> s[1..][i] == s[i + 1];
  }
}
