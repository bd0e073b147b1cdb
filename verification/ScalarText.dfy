/** The text of an exact JSON scalar in a URI template. */
module ScalarText {
  import opened Decimals
  import opened TextTools
  import opened Wrappers

  /** A host integer, or a decimal number: a sign, a coefficient and a power of ten. */
  datatype Scalar =
    | Null
    | Text(text: string)
    | Flag(value: bool)
    | Whole(n: int)
    | Exact(negative: bool, coefficient: nat, exponent: int)

  function Pow10(n: nat): (p: nat)
    ensures p > 0
  {
    if n == 0 then 1 else 10 * Pow10(n - 1)
  }

  function ZeroDigits(n: nat): string { seq(n, _ => '0') }

  /** The last `n` decimal digits, with leading zeros. */
  function Padded(c: nat, n: nat): (s: string)
    ensures |s| == n
  {
    if n == 0 then "" else Padded(c / 10, n - 1) + ['0' + (c % 10) as char]
  }

  function Over(c: nat, p: nat): nat
    requires p > 0
  {
    c / p
  }

  /** A coefficient written with this many places after the point. */
  function Point(c: nat, places: nat): string {
    Digits(Over(c, Pow10(places))) + "." + Padded(c, places)
  }

  /** Fixed-point notation of a coefficient and an exponent. */
  function Fixed(c: nat, e: int): string {
    if e >= 0 then Digits(c) + ZeroDigits(e) else Point(c, -e)
  }

  function Sign(negative: bool): string { if negative then "-" else "" }

  function NumberText(v: Scalar): string
    requires v.Whole? || v.Exact?
  {
    if v.Whole? then Sign(v.n < 0) + Digits(if v.n < 0 then -v.n else v.n)
    else if v.coefficient == 0 then "0"
    else
      var text := Sign(v.negative) + Fixed(v.coefficient, v.exponent);
      if '.' in text then StripRight(StripRight(text, {'0'}), {'.'}) else text
  }

  function TextOf(v: Scalar): Option<string> {
    match v
    case Null => None
    case Text(text) => Some(text)
    case Flag(value) => Some(if value then "true" else "false")
    case _ => Some(NumberText(v))
  }

  // ---------- Numbers ----------

  /** The numerator over ten to the power `n`. */
  function Scaled(v: Scalar, n: nat): int
    requires v.Whole? || (v.Exact? && v.exponent + n >= 0)
  {
    if v.Whole? then v.n * Pow10(n)
    else (if v.negative then -1 else 1) * (v.coefficient * Pow10(v.exponent + n))
  }

  function Places(v: Scalar): nat { if v.Exact? && v.exponent < 0 then -v.exponent else 0 }

  /** The two numbers are equal, compared over a common power of ten. */
  predicate SameNumber(v: Scalar, w: Scalar)
    requires (v.Whole? || v.Exact?) && (w.Whole? || w.Exact?)
  {
    var n := Places(v) + Places(w);
    Scaled(v, n) == Scaled(w, n)
  }

  /** A sign, a coefficient and a number of places, with no zero at the end of the places and no negative zero. */
  datatype Reduced = Reduced(negative: bool, c: nat, places: nat)

  predicate IsReduced(r: Reduced) {
    (r.places > 0 ==> r.c % 10 != 0) && (r.c == 0 ==> !r.negative)
  }

  function Shrink(negative: bool, c: nat, places: nat): (r: Reduced)
    requires c == 0 ==> !negative
    ensures IsReduced(r) && r.negative == negative && r.places <= places && c == r.c * Pow10(places - r.places)
    decreases places
  {
    if places > 0 && c % 10 == 0 then
      var r := Shrink(negative, c / 10, places - 1);
      Tenfold(r.c, places - 1 - r.places);
      r
    else Reduced(negative, c, places)
  }

  lemma Tenfold(c: nat, n: nat)
    ensures c * Pow10(n + 1) == 10 * (c * Pow10(n))
  {
    assert c * (10 * Pow10(n)) == 10 * (c * Pow10(n));
  }

  function Reduce(v: Scalar): Reduced
    requires v.Whole? || v.Exact?
  {
    if v.Whole? then Reduced(v.n < 0, if v.n < 0 then -v.n else v.n, 0)
    else if v.coefficient == 0 then Reduced(false, 0, 0)
    else if v.exponent >= 0 then Reduced(v.negative, v.coefficient * Pow10(v.exponent), 0)
    else Shrink(v.negative, v.coefficient, -v.exponent)
  }

  function SignOf(negative: bool): int { if negative then -1 else 1 }

  lemma {:induction false} PowAdds(a: nat, b: nat)
    ensures Pow10(a + b) == Pow10(a) * Pow10(b)
    decreases a
  {
    PowStep(b);
    if a > 0 {
      PowStep(a - 1);
      PowStep(a - 1 + b);
      hide Pow10;
      PowAdds(a - 1, b);
      TimesTen(Pow10(a - 1), Pow10(b));
    }
  }

  lemma PowStep(n: nat)
    ensures Pow10(n + 1) == 10 * Pow10(n) && Pow10(0) == 1
  {
  }

  lemma TimesTen(p: nat, q: nat)
    ensures 10 * p * q == 10 * (p * q)
  {
  }

  lemma Regroup(s: int, c: int, p: int, q: int)
    ensures s * (c * p * q) == s * (c * (p * q))
  {
    assert c * p * q == c * (p * q);
  }

  /** Reducing keeps the number. */
  lemma ReduceKeeps(v: Scalar, n: nat)
    requires (v.Whole? || v.Exact?) && n >= Places(v)
    ensures var r := Reduce(v);
            IsReduced(r) && r.places <= n && Scaled(v, n) == SignOf(r.negative) * (r.c * Pow10(n - r.places))
  {
    var r := Reduce(v);
    if v.Exact? && v.coefficient != 0 {
      if v.exponent >= 0 {
        PowAdds(v.exponent, n);
        Regroup(SignOf(r.negative), v.coefficient, Pow10(v.exponent), Pow10(n));
      } else {
        var k := -v.exponent;
        PowAdds(k - r.places, n - k);
        Regroup(SignOf(r.negative), r.c, Pow10(k - r.places), Pow10(n - k));
      }
    }
  }

  lemma SamePower(c: nat, d: nat, a: nat, b: nat)
    requires a <= b && c * Pow10(b) == d * Pow10(a)
    ensures d == c * Pow10(b - a)
  {
    PowAdds(b - a, a);
    assert c * (Pow10(b - a) * Pow10(a)) == c * Pow10(b - a) * Pow10(a);
    CancelRight(d, c * Pow10(b - a), Pow10(a));
  }

  lemma AtLeast(p: int, d: int)
    requires p > 0 && d >= 1
    ensures p * d >= p
  {
  }

  lemma CancelRight(x: int, y: int, p: int)
    requires p > 0 && x * p == y * p
    ensures x == y
  {
    assert p * (x - y) == x * p - y * p && p * (y - x) == y * p - x * p;
    if x < y {
      AtLeast(p, y - x);
    } else if y < x {
      AtLeast(p, x - y);
    }
  }

  lemma TenDivides(c: nat, n: nat)
    requires n > 0
    ensures (c * Pow10(n)) % 10 == 0
  {
    assert c * (10 * Pow10(n - 1)) == 10 * (c * Pow10(n - 1));
  }

  lemma SignsAgree(a: bool, c: nat, p: nat, b: bool, d: nat, q: nat)
    requires p > 0 && q > 0 && SignOf(a) * (c * p) == SignOf(b) * (d * q)
    requires (c == 0 ==> !a) && (d == 0 ==> !b)
    ensures c * p == d * q && a == b
  {
    assert c * p >= 0 && d * q >= 0;
    assert c > 0 ==> c * p > 0;
    assert d > 0 ==> d * q > 0;
  }

  lemma ReducedOnce(r: Reduced, s: Reduced, n: nat)
    requires IsReduced(r) && IsReduced(s) && r.places <= s.places <= n
    requires SignOf(r.negative) * (r.c * Pow10(n - r.places)) == SignOf(s.negative) * (s.c * Pow10(n - s.places))
    ensures r == s
  {
    SignsAgree(r.negative, r.c, Pow10(n - r.places), s.negative, s.c, Pow10(n - s.places));
    SamePower(r.c, s.c, n - s.places, n - r.places);
    if r.places < s.places {
      TenDivides(r.c, s.places - r.places);
    }
  }

  /** Numbers are equal exactly when they reduce to the same form. */
  lemma SameReduced(v: Scalar, w: Scalar)
    requires (v.Whole? || v.Exact?) && (w.Whole? || w.Exact?)
    ensures SameNumber(v, w) <==> Reduce(v) == Reduce(w)
  {
    hide Reduce, Scaled, Pow10;
    var n := Places(v) + Places(w);
    ReduceKeeps(v, n);
    ReduceKeeps(w, n);
    var r, s := Reduce(v), Reduce(w);
    if SameNumber(v, w) {
      if r.places <= s.places {
        ReducedOnce(r, s, n);
      } else {
        ReducedOnce(s, r, n);
      }
    }
  }

  // ---------- Texts ----------

  function Canonical(r: Reduced): string {
    Sign(r.negative) + if r.places == 0 then Digits(r.c) else Point(r.c, r.places)
  }

  lemma {:induction false} DigitsScale(c: nat, e: nat)
    requires c > 0
    ensures Digits(c * Pow10(e)) == Digits(c) + ZeroDigits(e)
    decreases e
  {
    if e == 0 {
      assert Digits(c) + ZeroDigits(0) == Digits(c);
    } else {
      var m := c * Pow10(e - 1);
      assert c * Pow10(e) == 10 * m by {
        assert c * (10 * Pow10(e - 1)) == 10 * (c * Pow10(e - 1));
      }
      assert m > 0;
      DigitsScale(c, e - 1);
      assert (10 * m) / 10 == m && (10 * m) % 10 == 0;
      assert Digits(10 * m) == Digits(m) + ['0'];
      assert ZeroDigits(e) == ZeroDigits(e - 1) + ['0'];
    }
  }

  lemma StripLast(s: string, c: char)
    ensures StripRight(s + [c], {c}) == StripRight(s, {c})
  {
    assert (s + [c])[..|s + [c]| - 1] == s;
  }

  lemma {:induction false} PlacesDivide(c: nat, n: nat)
    ensures Over(c, Pow10(n + 1)) == Over(c / 10, Pow10(n))
  {
    DivideTwice(c, Pow10(n));
  }

  lemma QuotientIs(n: int, p: int, q: int)
    requires p > 0 && 0 <= n - p * q < p
    ensures n / p == q
  {
    var x := n / p;
    assert p * x <= n < p * x + p;
    assert p * (x - q) == p * x - p * q && p * (q - x) == p * q - p * x;
    if x < q {
      AtLeast(p, q - x);
    } else if q < x {
      AtLeast(p, x - q);
    }
  }

  lemma DivideTwice(c: nat, p: nat)
    requires p > 0
    ensures c / (10 * p) == (c / 10) / p
  {
    var m := c / 10;
    var q := m / p;
    assert p * q <= m < p * q + p;
    assert (10 * p) * q == 10 * (p * q);
    QuotientIs(c, 10 * p, q);
  }

  lemma ShrinkStep(negative: bool, c: nat, places: nat)
    requires (c == 0 ==> !negative) && places > 0
    ensures Shrink(negative, c, places) ==
            if c % 10 != 0 then Reduced(negative, c, places)
            else if places > 1 then Shrink(negative, c / 10, places - 1)
            else Reduced(negative, c / 10, 0)
  {
    hide Pow10;
  }

  /** Stripping zeros and the point from fixed-point notation writes the reduced form. */
  lemma {:induction false} StripShrinks(negative: bool, c: nat, places: nat)
    requires (c == 0 ==> !negative) && places > 0
    ensures StripRight(StripRight(Sign(negative) + Point(c, places), {'0'}), {'.'}) ==
            Canonical(Shrink(negative, c, places))
    decreases places
  {
    hide Digits, Pow10, Point, Shrink, Padded, StripRight, Sign;
    ShrinkStep(negative, c, places);
    PointLast(c, places);
    var text, digit := Sign(negative) + Point(c, places), '0' + (c % 10) as char;
    if c % 10 != 0 {
      StripKeeps(text, {'0'});
      StripKeeps(text, {'.'});
    } else if places > 1 {
      var shorter := Sign(negative) + Point(c / 10, places - 1);
      assert text == shorter + ['0'];
      StripLast(shorter, '0');
      StripShrinks(negative, c / 10, places - 1);
    } else {
      var whole := Sign(negative) + Digits(c / 10);
      assert text == whole + ['.'] + ['0'];
      StripLast(whole + ['.'], '0');
      StripKeeps(whole + ['.'], {'0'});
      StripLast(whole, '.');
      WholeEnds(negative, c / 10);
    }
  }

  lemma StripKeeps(s: string, drop: set<char>)
    requires s != "" && s[|s| - 1] !in drop
    ensures StripRight(s, drop) == s
  {
  }

  lemma PointLast(c: nat, places: nat)
    requires places > 0
    ensures Point(c, places) ==
            (if places > 1 then Point(c / 10, places - 1) else Digits(c / 10) + ".") + ['0' + (c % 10) as char]
  {
    hide Digits;
    PlacesDivide(c, places - 1);
    hide Pow10;
    assert Padded(c, places) == Padded(c / 10, places - 1) + ['0' + (c % 10) as char];
    if places == 1 {
      assert Pow10(0) == 1 by { PowZero(); }
      assert Padded(c / 10, 0) == "";
    }
  }

  lemma PowZero()
    ensures Pow10(0) == 1
  {
  }

  lemma WholeEnds(negative: bool, c: nat)
    ensures StripRight(Sign(negative) + Digits(c), {'.'}) == Sign(negative) + Digits(c)
    ensures '.' !in Sign(negative) + Digits(c)
  {
    DigitsBack(c);
    var s := Sign(negative) + Digits(c);
    assert IsDigit(Digits(c)[|Digits(c)| - 1]);
    assert s[|s| - 1] == Digits(c)[|Digits(c)| - 1];
  }

  lemma PointHasPoint(negative: bool, c: nat, places: nat)
    ensures '.' in Sign(negative) + Point(c, places)
  {
    hide Digits, Pow10, Padded;
    var at := |Sign(negative)| + |Digits(Over(c, Pow10(places)))|;
    assert (Sign(negative) + Point(c, places))[at] == '.';
  }

  lemma TextIsCanonical(v: Scalar)
    requires v.Whole? || v.Exact?
    ensures NumberText(v) == Canonical(Reduce(v))
  {
    hide Digits, Pow10, Shrink, Point, StripRight;
    if v.Exact? && v.coefficient > 0 {
      if v.exponent >= 0 {
        DigitsScale(v.coefficient, v.exponent);
        WholeEnds(v.negative, v.coefficient * Pow10(v.exponent));
      } else {
        StripShrinks(v.negative, v.coefficient, -v.exponent);
        PointHasPoint(v.negative, v.coefficient, -v.exponent);
      }
    } else if v.Exact? {
      ZeroText();
    }
  }

  lemma ZeroText()
    ensures Canonical(Reduced(false, 0, 0)) == "0"
  {
  }

  lemma ModTwice(c: nat, p: nat)
    requires p > 0
    ensures c % (10 * p) == 10 * ((c / 10) % p) + c % 10
  {
    DivideTwice(c, p);
    var q := (c / 10) / p;
    assert c / 10 == p * q + (c / 10) % p;
    assert (10 * p) * q == 10 * (p * q);
    assert c == (10 * p) * q + c % (10 * p);
  }

  lemma {:induction false} PaddedBack(c: nat, n: nat)
    ensures IsDecimal(Padded(c, n)) && Decimal(Padded(c, n)) == c % Pow10(n)
    decreases n
  {
    if n > 0 {
      PaddedBack(c / 10, n - 1);
      ModTwice(c, Pow10(n - 1));
      var s := Padded(c, n);
      assert s[..|s| - 1] == Padded(c / 10, n - 1) && s[|s| - 1] == '0' + (c % 10) as char;
    }
  }

  /** Digits on both sides of the first point are found again. */
  lemma SplitOnce(a: string, b: string, x: string, y: string)
    requires IsDecimal(a) && IsDecimal(x) && a + "." + b == x + "." + y
    ensures a == x && b == y
  {
    var t := a + "." + b;
    assert t[|a|] == '.' && t[|x|] == '.';
    assert forall k :: 0 <= k < |a| ==> t[k] == a[k];
    assert forall k :: 0 <= k < |x| ==> t[k] == x[k];
    assert |a| == |x|;
    assert a == t[..|a|] && x == t[..|x|] && b == t[|a| + 1..] && y == t[|x| + 1..];
  }

  lemma PointOnce(c: nat, p: nat, d: nat, q: nat)
    requires Point(c, p) == Point(d, q)
    ensures c == d && p == q
  {
    hide Digits, Padded, Pow10, Decimal;
    DigitsBack(Over(c, Pow10(p)));
    DigitsBack(Over(d, Pow10(q)));
    SplitOnce(Digits(Over(c, Pow10(p))), Padded(c, p), Digits(Over(d, Pow10(q))), Padded(d, q));
    assert p == |Padded(c, p)| && q == |Padded(d, q)|;
    PaddedBack(c, p);
    PaddedBack(d, q);
    SameQuotient(c, d, Pow10(p));
  }

  lemma SameQuotient(c: nat, d: nat, p: nat)
    requires p > 0 && c / p == d / p && c % p == d % p
    ensures c == d
  {
    var q := c / p;
    assert c == p * q + c % p && d == p * q + d % p;
  }

  lemma DigitsOnce(c: nat, d: nat)
    requires Digits(c) == Digits(d)
    ensures c == d
  {
    DigitsBack(c);
    DigitsBack(d);
  }

  /** The unsigned part of a canonical text. */
  function Magnitude(c: nat, places: nat): string {
    if places == 0 then Digits(c) else Point(c, places)
  }

  lemma MagnitudeStarts(c: nat, places: nat)
    ensures Magnitude(c, places) != "" && Magnitude(c, places)[0] != '-'
    ensures '.' in Magnitude(c, places) <==> places > 0
  {
    hide Digits, Padded, Pow10;
    var whole := Over(c, Pow10(places));
    DigitsBack(whole);
    DigitsBack(c);
    if places > 0 {
      assert Magnitude(c, places)[0] == Digits(whole)[0] && IsDigit(Digits(whole)[0]);
      assert Magnitude(c, places)[|Digits(whole)|] == '.';
    }
  }

  lemma CanonicalOnce(r: Reduced, s: Reduced)
    requires Canonical(r) == Canonical(s)
    ensures r == s
  {
    hide Digits, Point;
    var x, y := Magnitude(r.c, r.places), Magnitude(s.c, s.places);
    assert Canonical(r) == Sign(r.negative) + x && Canonical(s) == Sign(s.negative) + y;
    MagnitudeStarts(r.c, r.places);
    MagnitudeStarts(s.c, s.places);
    assert r.negative == s.negative by {
      assert (Canonical(r)[0] == '-') == r.negative && (Canonical(s)[0] == '-') == s.negative;
    }
    assert x == Canonical(r)[|Sign(r.negative)|..] && y == Canonical(s)[|Sign(s.negative)|..];
    if r.places == 0 {
      DigitsOnce(r.c, s.c);
    } else {
      PointOnce(r.c, r.places, s.c, s.places);
    }
  }

  /** Two exact numbers have the same text exactly when they are equal. */
  lemma TextIsNumber(v: Scalar, w: Scalar)
    requires (v.Whole? || v.Exact?) && (w.Whole? || w.Exact?)
    ensures NumberText(v) == NumberText(w) <==> SameNumber(v, w)
  {
    hide NumberText, SameNumber, Reduce, Canonical;
    TextIsCanonical(v);
    TextIsCanonical(w);
    SameReduced(v, w);
    if NumberText(v) == NumberText(w) {
      CanonicalOnce(Reduce(v), Reduce(w));
    }
  }
}
