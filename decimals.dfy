/**
 * The part of the arbitrary-precision decimal library the engine uses: reading a
 * decimal from text, testing for a whole number, the remainder of a division, the
 * product of two decimals, the ceiling and the integer part.
 */
module Decimals {
  import opened Wrappers
  import opened Arith
  import opened Digits

  /** An exact decimal number whose value is mantissa / 10^scale. */
  datatype Decimal = Decimal(mantissa: int, scale: nat)

  /** The exact decimal 0.25. */
  const Quarter := Decimal(25, 2)

  /** The exact decimal 0.2. */
  const Fifth := Decimal(2, 1)

  function FromInt(n: int): Decimal
  {
    Decimal(n, 0)
  }

  /** a and b denote the same number (they may differ in scale). */
  predicate SameValue(a: Decimal, b: Decimal)
  {
    a.mantissa * Pow10(b.scale) == b.mantissa * Pow10(a.scale)
  }

  // ---------------------------------------------------------------- reading

  /** The position of the first '.' in s, if there is one. */
  function FindDot(s: string): (r: Option<nat>)
    ensures r.Some? ==> r.value < |s| && s[r.value] == '.' && '.' !in s[..r.value]
    ensures r.None? ==> '.' !in s
  {
    if s == [] then None
    else if s[0] == '.' then Some(0)
    else match FindDot(s[1..])
      case None => None
      case Some(i) =>
        assert s[..i + 1] == [s[0]] + s[1..][..i];
        Some(i + 1)
  }

  /** A base-10 integer as strconv.ParseInt and big.Int.SetString read it: an optional sign, then one or more digits. */
  function ParseInteger(t: string): (r: Option<int>)
  {
    if |t| > 0 && (t[0] == '+' || t[0] == '-') then
      var digits := t[1..];
      if |digits| > 0 && AllDigits(digits) then
        var n: int := Value(digits);
        Some(if t[0] == '-' then -n else n)
      else None
    else if |t| > 0 && AllDigits(t) then Some(Value(t))
    else None
  }

  /**
   * decimal.NewFromString without exponent notation: at most one '.', and what remains
   * once it is removed must be an integer; the scale is the number of characters after it.
   */
  function Parse(s: string): (r: Option<Decimal>)
  {
    match FindDot(s)
    case None =>
      (match ParseInteger(s)
       case None => None
       case Some(m) => Some(Decimal(m, 0)))
    case Some(p) =>
      if '.' in s[p + 1..] then None
      else match ParseInteger(s[..p] + s[p + 1..])
        case None => None
        case Some(m) => Some(Decimal(m, |s| - p - 1))
  }

  /** The plain text of a decimal: an optional '-', digits, and when the scale is positive '.' and exactly scale digits. */
  function Format(d: Decimal): string
  {
    var a := Abs(d.mantissa);
    var width := if Width(a) < d.scale + 1 then d.scale + 1 else Width(a);
    var digits := Fixed(a, width);
    var point := width - d.scale;
    (if d.mantissa < 0 then "-" else "") + digits[..point] + (if d.scale == 0 then "" else "." + digits[point..])
  }

  lemma ParseIntegerDigits(sign: string, digits: string)
    requires sign == "" || sign == "-" || sign == "+"
    requires |digits| > 0 && AllDigits(digits)
    ensures var n: int := Value(digits); ParseInteger(sign + digits) == Some(if sign == "-" then -n else n)
  {
    var t := sign + digits;
    if sign == "" {
      assert t == digits;
      assert IsDigit(t[0]);
    } else {
      assert t[0] == sign[0] && t[1..] == digits;
    }
  }

  lemma {:induction false} FindDotAt(s: string, p: nat)
    requires p < |s| && s[p] == '.' && '.' !in s[..p]
    ensures FindDot(s) == Some(p)
  {
    if p > 0 {
      assert s[0] == s[..p][0];
      assert s[1..][..p - 1] == s[1..p];
      assert s[1..p] == s[..p][1..];
      FindDotAt(s[1..], p - 1);
    }
  }

  /** Text without a '.' is read as the integer it spells, at scale zero. */
  lemma ParseWithoutPoint(s: string, m: int)
    requires '.' !in s && ParseInteger(s) == Some(m)
    ensures Parse(s) == Some(Decimal(m, 0))
  {
  }

  /** Text with one '.' is read as the integer spelled by the rest, at the scale given by the digits after the point. */
  lemma ParseWithPoint(s: string, p: nat, m: int)
    requires p < |s| && s[p] == '.' && '.' !in s[..p] && '.' !in s[p + 1..]
    requires ParseInteger(s[..p] + s[p + 1..]) == Some(m)
    ensures Parse(s) == Some(Decimal(m, |s| - p - 1))
  {
    FindDotAt(s, p);
  }

  /** Every decimal is read back unchanged from its plain text. */
  lemma ParseFormat(d: Decimal)
    ensures Parse(Format(d)) == Some(d)
  {
    var whole, frac := FormatParts(d);
    ParsePlain(d.mantissa < 0, whole, frac);
    var magnitude: int := Value(whole) * Pow10(|frac|) + Value(frac);
    assert (if d.mantissa < 0 then -magnitude else magnitude) == d.mantissa;
  }

  /** The plain text of a decimal split at its point: the digits before it and the scale digits after it. */
  lemma FormatParts(d: Decimal) returns (whole: string, frac: string)
    ensures |whole| > 0 && AllDigits(whole) && AllDigits(frac) && |frac| == d.scale
    ensures Value(whole) * Pow10(|frac|) + Value(frac) == Abs(d.mantissa)
    ensures Format(d) == (if d.mantissa < 0 then "-" else "") + whole + (if frac == [] then "" else "." + frac)
  {
    var a := Abs(d.mantissa);
    var width := if Width(a) < d.scale + 1 then d.scale + 1 else Width(a);
    var digits := Fixed(a, width);
    var point := width - d.scale;
    whole, frac := digits[..point], digits[point..];
    assert AllDigits(whole) && AllDigits(frac);
    FixedDigits(a, width);
    assert digits == whole + frac;
    ValueAppend(whole, frac);
  }

  /** Fixed(a, width) spells a when width has room for all of a's digits. */
  lemma FixedDigits(a: nat, width: nat)
    requires Width(a) <= width
    ensures Value(Fixed(a, width)) == a
  {
    Pow10Monotonic(Width(a), width);
    ValueOfFixed(a, width);
  }

  /** The plain forms [-]digits and [-]digits.digits denote the number they spell. */
  lemma ParsePlain(negative: bool, whole: string, frac: string)
    requires |whole| > 0 && AllDigits(whole) && AllDigits(frac)
    ensures var sign := if negative then "-" else "";
      var magnitude: int := Value(whole) * Pow10(|frac|) + Value(frac);
      Parse(sign + whole + (if frac == [] then "" else "." + frac))
        == Some(Decimal(if negative then -magnitude else magnitude, |frac|))
  {
    var sign := if negative then "-" else "";
    var magnitude: int := Value(whole) * Pow10(|frac|) + Value(frac);
    var m := if negative then -magnitude else magnitude;
    SignedDigits(sign, whole, frac, m);
    if frac == [] {
      PlainWhole(sign, whole, m);
    } else {
      PlainFraction(sign, whole, frac, m);
    }
  }

  lemma SignedDigits(sign: string, whole: string, frac: string, m: int)
    requires sign == "" || sign == "-"
    requires |whole| > 0 && AllDigits(whole) && AllDigits(frac)
    requires var magnitude: int := Value(whole) * Pow10(|frac|) + Value(frac);
      m == if sign == "-" then -magnitude else magnitude
    ensures ParseInteger(sign + (whole + frac)) == Some(m)
  {
    ValueAppend(whole, frac);
    ParseIntegerDigits(sign, whole + frac);
  }

  lemma PlainWhole(sign: string, whole: string, m: int)
    requires sign == "" || sign == "-"
    requires AllDigits(whole) && ParseInteger(sign + (whole + "")) == Some(m)
    ensures Parse(sign + whole + "") == Some(Decimal(m, 0))
  {
    var s := sign + whole + "";
    assert s == sign + (whole + "");
    assert '.' !in s;
    ParseWithoutPoint(s, m);
  }

  lemma PlainFraction(sign: string, whole: string, frac: string, m: int)
    requires sign == "" || sign == "-"
    requires AllDigits(whole) && AllDigits(frac) && ParseInteger(sign + (whole + frac)) == Some(m)
    ensures Parse(sign + whole + ("." + frac)) == Some(Decimal(m, |frac|))
  {
    var s := sign + whole + ("." + frac);
    var p := |sign + whole|;
    assert s == (sign + whole) + "." + frac;
    assert s[..p] == sign + whole && s[p + 1..] == frac;
    assert s[..p] + s[p + 1..] == sign + (whole + frac);
    ParseWithPoint(s, p, m);
  }

  // ---------------------------------------------------------------- what is read

  /** s with every '.' taken out. */
  function WithoutPoints(s: string): (t: string)
    ensures '.' !in t
  {
    if s == [] then []
    else (if s[0] == '.' then [] else [s[0]]) + WithoutPoints(s[1..])
  }

  /** The number of '.' characters in s. */
  function PointCount(s: string): (n: nat)
    ensures n == 0 <==> '.' !in s
  {
    if s == [] then 0
    else (if s[0] == '.' then 1 else 0) + PointCount(s[1..])
  }

  /** The characters of a sign that a signed integer starts with: 1 for '+' or '-', otherwise 0. */
  function SignLength(t: string): nat
  {
    if |t| > 0 && (t[0] == '+' || t[0] == '-') then 1 else 0
  }

  /** An optional sign followed by at least one digit. */
  predicate IsSignedDigits(t: string)
  {
    SignLength(t) < |t| && AllDigits(t[SignLength(t)..])
  }

  /** The number a sign and digits spell. */
  function SignedValue(t: string): int
    requires IsSignedDigits(t)
  {
    var n: int := Value(t[SignLength(t)..]);
    if t[0] == '-' then -n else n
  }

  lemma {:induction false} NoPoints(s: string)
    requires '.' !in s
    ensures WithoutPoints(s) == s
  {
    if s != [] {
      assert s[0] in s;
      assert forall c :: c in s[1..] ==> c in s;
      NoPoints(s[1..]);
    }
  }

  /** ParseInteger reads exactly the signed digit strings, as the number they spell. */
  lemma ParseIntegerIff(t: string)
    ensures ParseInteger(t).Some? <==> IsSignedDigits(t)
    ensures ParseInteger(t).Some? ==> ParseInteger(t).value == SignedValue(t)
  {
  }

  /** Splitting s at its first '.'. */
  lemma {:induction false} PointSplit(s: string, p: nat)
    requires p < |s| && s[p] == '.' && '.' !in s[..p]
    ensures WithoutPoints(s) == s[..p] + WithoutPoints(s[p + 1..])
    ensures PointCount(s) == 1 + PointCount(s[p + 1..])
  {
    if p > 0 {
      var rest := s[1..];
      assert s[0] == s[..p][0];
      assert rest[..p - 1] == s[1..p] == s[..p][1..];
      assert rest[p - 1 + 1..] == s[p + 1..];
      PointSplit(rest, p - 1);
      assert s[..p] == [s[0]] + rest[..p - 1];
    }
  }

  /** A '.' in s other than the first one lies after it. */
  lemma OnlyPoint(s: string, p: nat, q: nat)
    requires p < |s| && '.' !in s[..p] && '.' !in s[p + 1..]
    requires q < |s| && s[q] == '.'
    ensures q == p
  {
  }

  /**
   * What Parse accepts: text with at most one '.' that, once the point is taken out, is an
   * optional sign followed by at least one digit.  The point may stand anywhere, even
   * before the sign; the value is the signed digits, at the scale of the characters after
   * the point.
   */
  lemma ParseIff(s: string)
    ensures Parse(s).Some? <==> PointCount(s) <= 1 && IsSignedDigits(WithoutPoints(s))
    ensures Parse(s).Some? ==>
      && Parse(s).value.mantissa == SignedValue(WithoutPoints(s))
      && ('.' !in s ==> Parse(s).value.scale == 0)
      && (forall p :: 0 <= p < |s| && s[p] == '.' ==> Parse(s).value.scale == |s| - p - 1)
  {
    match FindDot(s)
    case None =>
      NoPoints(s);
      ParseIntegerIff(s);
    case Some(p) =>
      PointSplit(s, p);
      if '.' !in s[p + 1..] {
        NoPoints(s[p + 1..]);
        ParseIntegerIff(s[..p] + s[p + 1..]);
        forall q | 0 <= q < |s| && s[q] == '.'
          ensures q == p
        {
          OnlyPoint(s, p, q);
        }
      }
  }

  // ---------------------------------------------------------------- arithmetic

  /** d.Mul(e): the exact product. */
  function Mul(a: Decimal, b: Decimal): Decimal
  {
    Decimal(a.mantissa * b.mantissa, a.scale + b.scale)
  }

  /** d.IsZero(). */
  predicate IsZero(d: Decimal)
  {
    d.mantissa == 0
  }

  /** The remainder of big.Int's truncated division: its sign follows the dividend. */
  function TruncRem(x: int, y: int): int
    requires y != 0
  {
    if x >= 0 then x % Abs(y) else -((-x) % Abs(y))
  }

  /** The quotient of big.Int's truncated division (rounded toward zero). */
  function TruncQuo(x: int, y: int): int
    requires y != 0
  {
    var q := Abs(x) / Abs(y);
    if (x < 0) == (y < 0) then q else -q
  }

  /** a.Mod(b): the remainder of a truncated division, computed after bringing both to the larger scale. */
  function Mod(a: Decimal, b: Decimal): Decimal
    requires b.mantissa != 0
  {
    var k := if a.scale < b.scale then b.scale else a.scale;
    MulNonZero(b.mantissa, Pow10(k - b.scale));
    Decimal(TruncRem(a.mantissa * Pow10(k - a.scale), b.mantissa * Pow10(k - b.scale)), k)
  }

  /** d.IsInteger(): every digit after the decimal point is zero. */
  predicate IsInteger(d: Decimal)
  {
    d.mantissa % Pow10(d.scale) == 0
  }

  /** d.Ceil(): the least whole number not below d, at scale zero. */
  function Ceil(d: Decimal): Decimal
  {
    if d.scale == 0 then d
    else
      var q := d.mantissa / Pow10(d.scale);
      Decimal(if d.mantissa % Pow10(d.scale) != 0 then q + 1 else q, 0)
  }

  /** d.IntPart(): the value with its fraction cut off toward zero. */
  function IntPart(d: Decimal): int
  {
    TruncQuo(d.mantissa, Pow10(d.scale))
  }

  // ---------------------------------------------------------------- meaning

  /** IsInteger holds exactly of the decimals equal to a whole number. */
  lemma IsIntegerIff(d: Decimal)
    ensures IsInteger(d) <==> exists n: int :: SameValue(d, FromInt(n))
  {
    var p := Pow10(d.scale);
    if IsInteger(d) {
      var n := d.mantissa / p;
      assert d.mantissa == n * p;
      assert SameValue(d, FromInt(n));
    }
    if exists n: int :: SameValue(d, FromInt(n)) {
      var n: int :| SameValue(d, FromInt(n));
      assert d.mantissa == n * p;
      DivModUnique(d.mantissa, p, n, 0);
    }
  }

  lemma TruncRemZero(x: int, y: int) returns (n: int)
    requires y != 0 && TruncRem(x, y) == 0
    ensures x == n * y
  {
    var ay := Abs(y);
    var q := Abs(x) / ay;
    assert Abs(x) % ay == 0;
    assert Abs(x) == q * ay;
    if (x < 0) == (y < 0) {
      n := q;
      if x < 0 {
        assert -x == q * (-y);
      }
    } else {
      n := -q;
      if x < 0 {
        assert -x == q * y;
      } else {
        assert x == q * (-y);
      }
    }
  }

  lemma TruncRemOfMultiple(x: int, y: int, n: int)
    requires y != 0 && x == n * y
    ensures TruncRem(x, y) == 0
  {
    assert Abs(x) == Abs(n) * Abs(y);
    DivModUnique(Abs(x), Abs(y), Abs(n), 0);
  }

  /** a.Mod(b) is zero exactly when a is a whole multiple of b. */
  lemma ModZeroIff(a: Decimal, b: Decimal)
    requires b.mantissa != 0
    ensures IsZero(Mod(a, b)) <==> exists n: int :: SameValue(a, Mul(FromInt(n), b))
  {
    var k := if a.scale < b.scale then b.scale else a.scale;
    var low := if a.scale < b.scale then a.scale else b.scale;
    var pa, pb := Pow10(k - a.scale), Pow10(k - b.scale);
    var x, y := a.mantissa * pa, b.mantissa * pb;
    MulNonZero(b.mantissa, pb);
    assert Mod(a, b).mantissa == TruncRem(x, y);
    // Scaling both sides of "x == n * y" by 10^low turns it into SameValue(a, n * b).
    Pow10Add(k - a.scale, low);
    Pow10Add(k - b.scale, low);
    assert k - a.scale + low == b.scale && k - b.scale + low == a.scale;
    var pl := Pow10(low);
    assert Pow10(b.scale) == pa * pl && Pow10(a.scale) == pb * pl;
    if TruncRem(x, y) == 0 {
      var n := TruncRemZero(x, y);
      ScaleEquation(a.mantissa, pa, n, b.mantissa, pb, pl);
      assert SameValue(a, Mul(FromInt(n), b));
    }
    if exists n: int :: SameValue(a, Mul(FromInt(n), b)) {
      var n: int :| SameValue(a, Mul(FromInt(n), b));
      UnscaleEquation(a.mantissa, pa, n, b.mantissa, pb, pl);
      TruncRemOfMultiple(x, y, n);
    }
  }

  lemma ScaleEquation(ma: int, pa: int, n: int, mb: int, pb: int, pl: int)
    requires ma * pa == n * (mb * pb)
    ensures ma * (pa * pl) == (n * mb) * (pb * pl)
  {
    calc {
      ma * (pa * pl);
      (ma * pa) * pl;
      (n * (mb * pb)) * pl;
      (n * mb) * (pb * pl);
    }
  }

  lemma UnscaleEquation(ma: int, pa: int, n: int, mb: int, pb: int, pl: int)
    requires pl > 0 && ma * (pa * pl) == (n * mb) * (pb * pl)
    ensures ma * pa == n * (mb * pb)
  {
    assert (ma * pa) * pl == (n * (mb * pb)) * pl by {
      ScaleEquation(ma, pa, 1, ma * pa, 1, pl);
      assert ma * (pa * pl) == (ma * pa) * pl;
      assert (n * mb) * (pb * pl) == (n * (mb * pb)) * pl;
    }
    MulCancel(ma * pa, n * (mb * pb), pl);
  }

  /** Every whole-number decimal is a multiple of 0.25. */
  lemma IntegerIsQuarterMultiple(d: Decimal)
    requires IsInteger(d)
    ensures IsZero(Mod(d, Quarter))
  {
    IsIntegerIff(d);
    var n: int :| SameValue(d, FromInt(n));
    var p := Pow10(d.scale);
    assert d.mantissa == n * p;
    assert Pow10(2) == 100;
    assert d.mantissa * 100 == (4 * n * 25) * p;
    assert SameValue(d, Mul(FromInt(4 * n), Quarter));
    ModZeroIff(d, Quarter);
  }

  /** Ceil gives a whole number c with c - 1 < d <= c. */
  lemma CeilBounds(d: Decimal)
    ensures Ceil(d).scale == 0
    ensures var c, p := Ceil(d).mantissa, Pow10(d.scale);
      (c - 1) * p < d.mantissa <= c * p
  {
    var p := Pow10(d.scale);
    if d.scale > 0 {
      var q, r := d.mantissa / p, d.mantissa % p;
      assert d.mantissa == q * p + r;
      assert (q + 1) * p == q * p + p;
      assert (q - 1) * p == q * p - p;
    }
  }

  lemma IntPartOfWhole(n: int)
    ensures IntPart(FromInt(n)) == n
  {
  }
}
