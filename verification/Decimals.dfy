/** Decimal and hexadecimal texts of natural numbers. */
module Decimals {
  import opened Wrappers

  predicate IsDigit(c: char) { '0' <= c <= '9' }

  predicate IsDecimal(s: string) { forall k :: 0 <= k < |s| ==> IsDigit(s[k]) }

  function Decimal(s: string): nat
    requires IsDecimal(s)
  {
    if s == [] then 0 else Decimal(s[..|s| - 1]) * 10 + (s[|s| - 1] - '0') as nat
  }

  function Digits(n: nat): string {
    if n < 10 then ['0' + n as char] else Digits(n / 10) + ['0' + (n % 10) as char]
  }

  lemma {:induction false} DigitsBack(n: nat)
    ensures IsDecimal(Digits(n)) && Decimal(Digits(n)) == n && |Digits(n)| >= 1
    ensures n < 10 ==> |Digits(n)| == 1
    ensures n >= 10 ==> |Digits(n)| == |Digits(n / 10)| + 1
  {
    if n >= 10 {
      DigitsBack(n / 10);
      var d := Digits(n);
      assert d[..|d| - 1] == Digits(n / 10) && d[|d| - 1] == '0' + (n % 10) as char;
    } else {
      assert Digits(n)[..0] == [];
    }
  }

  function HexValue(c: char): Option<nat> {
    if '0' <= c <= '9' then Some((c - '0') as nat)
    else if 'a' <= c <= 'f' then Some((c - 'a') as nat + 10)
    else if 'A' <= c <= 'F' then Some((c - 'A') as nat + 10)
    else None
  }

  predicate IsHex(s: string) { forall k :: 0 <= k < |s| ==> HexValue(s[k]).Some? }

  function Hex(s: string): nat
    requires IsHex(s)
  {
    if s == [] then 0 else Hex(s[..|s| - 1]) * 16 + HexValue(s[|s| - 1]).value
  }

  // ---------- Numbers by the place value of their digits ----------

  const WORTH: map<char, nat> := map[
    '0' := 0, '1' := 1, '2' := 2, '3' := 3, '4' := 4, '5' := 5, '6' := 6, '7' := 7, '8' := 8, '9' := 9,
    'a' := 10, 'b' := 11, 'c' := 12, 'd' := 13, 'e' := 14, 'f' := 15,
    'A' := 10, 'B' := 11, 'C' := 12, 'D' := 13, 'E' := 14, 'F' := 15]

  predicate IsFigure(c: char, base: nat) { c in WORTH && WORTH[c] < base }

  predicate Numeral(s: string, base: nat) { forall k :: 0 <= k < |s| ==> IsFigure(s[k], base) }

  function Power(base: nat, n: nat): nat {
    if n == 0 then 1 else base * Power(base, n - 1)
  }

  /** Each digit counts its worth times the power of its place. */
  function PlaceValue(s: string, base: nat): nat
    requires Numeral(s, base)
  {
    if s == "" then 0 else WORTH[s[0]] * Power(base, |s| - 1) + PlaceValue(s[1..], base)
  }

  lemma {:induction false} LastPlace(s: string, base: nat)
    requires Numeral(s, base) && s != ""
    ensures PlaceValue(s, base) == PlaceValue(s[..|s| - 1], base) * base + WORTH[s[|s| - 1]]
    decreases |s|
  {
    hide PlaceValue, Power;
    var n := |s| - 1;
    FirstPlace(s, base);
    if n == 0 {
      assert s[1..] == "" && s[..0] == "";
    } else {
      var front, rest := s[..n], s[1..];
      LastPlace(rest, base);
      assert rest[..n - 1] == front[1..] && front[0] == s[0] && rest[n - 1] == s[n];
      FirstPlace(front, base);
      TimesBase(WORTH[s[0]], Power(base, n - 1), PlaceValue(front[1..], base), base);
    }
  }

  lemma FirstPlace(s: string, base: nat)
    requires Numeral(s, base) && s != ""
    ensures PlaceValue(s, base) == WORTH[s[0]] * Power(base, |s| - 1) + PlaceValue(s[1..], base)
    ensures PlaceValue("", base) == 0 && Power(base, 0) == 1
    ensures |s| > 1 ==> Power(base, |s| - 1) == base * Power(base, |s| - 2)
  {
  }

  lemma TimesBase(w: nat, p: nat, rest: nat, base: nat)
    ensures w * (base * p) + rest * base == (w * p + rest) * base
  {
  }

  lemma FigureIsDigit(c: char)
    ensures IsDigit(c) <==> IsFigure(c, 10)
    ensures IsDigit(c) ==> (c - '0') as nat == WORTH[c]
  {
  }

  lemma FigureIsHex(c: char)
    ensures HexValue(c) == if IsFigure(c, 16) then Some(WORTH[c]) else None
  {
    if c < 'A' {
      FigureIsDigit(c);
    }
  }

  lemma {:induction false} DecimalIsPlaceValue(s: string)
    ensures IsDecimal(s) <==> Numeral(s, 10)
    ensures IsDecimal(s) ==> Decimal(s) == PlaceValue(s, 10)
    decreases |s|
  {
    hide IsDigit;
    forall k | 0 <= k < |s|
      ensures IsDigit(s[k]) <==> IsFigure(s[k], 10)
    {
      FigureIsDigit(s[k]);
    }
    if s != "" && IsDecimal(s) {
      DecimalIsPlaceValue(s[..|s| - 1]);
      FigureIsDigit(s[|s| - 1]);
      LastPlace(s, 10);
    }
  }

  lemma {:induction false} HexIsPlaceValue(s: string)
    ensures IsHex(s) <==> Numeral(s, 16)
    ensures IsHex(s) ==> Hex(s) == PlaceValue(s, 16)
    decreases |s|
  {
    hide HexValue;
    forall k | 0 <= k < |s|
      ensures HexValue(s[k]) == if IsFigure(s[k], 16) then Some(WORTH[s[k]]) else None
    {
      FigureIsHex(s[k]);
    }
    if s != "" && IsHex(s) {
      HexIsPlaceValue(s[..|s| - 1]);
      LastPlace(s, 16);
    }
  }

  /** A numeral without leading zeros is the only one for its number. */
  lemma {:induction false} NumeralOnce(digits: string, n: nat)
    requires digits != "" && digits[0] != '0' && n > 0 && Numeral(digits, 10) && PlaceValue(digits, 10) == n
    ensures Digits(n) == digits
    decreases |digits|
  {
    hide PlaceValue, IsFigure, Digits;
    var k := |digits| - 1;
    LastPlace(digits, 10);
    LastFigure(digits[k], PlaceValue(digits[..k], 10), n);
    LastDigit(n);
    if k == 0 {
      assert PlaceValue(digits[..0], 10) == 0 by { NothingIsZero(); }
      assert digits == [digits[k]];
    } else {
      Positive(digits[..k]);
      NumeralOnce(digits[..k], n / 10);
      assert digits == digits[..k] + [digits[k]];
    }
  }

  lemma NothingIsZero()
    ensures PlaceValue("", 10) == 0
  {
  }

  lemma LastFigure(c: char, rest: nat, n: nat)
    requires IsFigure(c, 10) && n == rest * 10 + WORTH[c]
    ensures n / 10 == rest && c == '0' + (n % 10) as char
  {
    FigureIsDigit(c);
  }

  lemma LastDigit(n: nat)
    ensures Digits(n) == (if n < 10 then "" else Digits(n / 10)) + ['0' + (n % 10) as char]
  {
  }

  lemma {:induction false} Positive(digits: string)
    requires digits != "" && digits[0] != '0' && Numeral(digits, 10)
    ensures PlaceValue(digits, 10) > 0
    decreases |digits|
  {
    hide PlaceValue, IsDigit;
    LastPlace(digits, 10);
    var k := |digits| - 1;
    if k == 0 {
      FigureAboveZero(digits[0]);
    } else {
      Positive(digits[..k]);
    }
  }

  lemma FigureAboveZero(c: char)
    requires IsFigure(c, 10) && c != '0'
    ensures WORTH[c] > 0
  {
    FigureIsDigit(c);
  }
}
