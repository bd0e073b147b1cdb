/** What an exact scalar is written as and what a URI template expands to, after sections 2 and 3.2 of RFC 6570, stated
    by
    the texts alone; the expander computes exactly this. */
module UriMeaning {
  import opened Wrappers
  import opened Decimals
  import opened TextTools
  import opened ScalarText
  import opened UriTemplate

  // ---------- Numbers ----------

  /** The text is a decimal number without needless zeros, signs or points, and it is this one. */
  ghost predicate StandsForNumber(text: string, v: Scalar)
    requires v.Whole? || v.Exact?
  {
    exists negative: bool, whole: string, places: string ::
      && text == (if negative then "-" else "") + whole + (if places == "" then "" else "." + places)
      && NumberParts(negative, whole, places, v)
  }

  ghost predicate NumberParts(negative: bool, whole: string, places: string, v: Scalar)
    requires v.Whole? || v.Exact?
  {
    && whole != "" && Numeral(whole, 10) && (|whole| > 1 ==> whole[0] != '0')
    && Numeral(places, 10) && (places != "" ==> places[|places| - 1] != '0')
    && (negative ==> PlaceValue(whole + places, 10) != 0)
    && var n, size := |places| + Places(v), PlaceValue(whole + places, 10);
       Scaled(v, n) == (if negative then -1 else 1) * (size * Power(10, n - |places|))
  }

  lemma {:induction false} PowerIsPow10(n: nat)
    ensures Power(10, n) == Pow10(n)
  {
    if n > 0 {
      PowerIsPow10(n - 1);
    }
  }

  lemma {:induction false} PaddedCounts(s: string, c: nat, n: nat)
    requires IsDecimal(s)
    ensures IsDecimal(s + Padded(c, n)) && Decimal(s + Padded(c, n)) == Decimal(s) * Pow10(n) + c % Pow10(n)
    decreases n
  {
    if n == 0 {
      assert s + Padded(c, 0) == s && c % Pow10(0) == 0;
    } else {
      PaddedCounts(s, c / 10, n - 1);
      hide Decimal, Padded;
      PaddedLast(s, c, n);
      ModTwice(c, Pow10(n - 1));
      TenfoldSum(Decimal(s), Pow10(n - 1));
    }
  }

  lemma TenfoldSum(d: nat, p: nat)
    ensures d * p * 10 == d * (10 * p)
  {
  }

  lemma PaddedLast(s: string, c: nat, n: nat)
    requires n > 0 && IsDecimal(s + Padded(c / 10, n - 1))
    ensures IsDecimal(s + Padded(c, n))
    ensures Decimal(s + Padded(c, n)) == Decimal(s + Padded(c / 10, n - 1)) * 10 + c % 10
  {
    var t, d := s + Padded(c / 10, n - 1), '0' + (c % 10) as char;
    assert s + Padded(c, n) == t + [d];
    assert (t + [d])[..|t + [d]| - 1] == t;
    assert d as int == 48 + c % 10;
  }

  lemma {:induction false} LastOfPadded(c: nat, n: nat)
    requires n > 0
    ensures Padded(c, n)[n - 1] == '0' <==> c % 10 == 0
  {
    var d := '0' + (c % 10) as char;
    assert d as int == 48 + c % 10;
  }

  lemma {:induction false} FirstOfDigits(n: nat)
    ensures |Digits(n)| > 1 ==> Digits(n)[0] != '0'
  {
    if n >= 10 {
      DigitsFirst(n);
    }
  }

  lemma {:induction false} DigitsFirst(n: nat)
    requires n > 0
    ensures Digits(n)[0] != '0'
  {
    if n >= 10 {
      DigitsFirst(n / 10);
    } else {
      var d := '0' + n as char;
      assert d as int == 48 + n;
    }
  }

  /** The text of an exact number is that number in plain notation. */
  lemma TextStandsFor(v: Scalar)
    requires v.Whole? || v.Exact?
    ensures StandsForNumber(NumberText(v), v)
  {
    hide Digits, Pow10, Decimal, IsDecimal, Scaled, Reduce, NumberText, PlaceValue, Numeral, Power;
    TextIsCanonical(v);
    var r := Reduce(v);
    var p := r.places;
    var whole := if p == 0 then Digits(r.c) else Digits(Over(r.c, Pow10(p)));
    var places := if p == 0 then "" else Padded(r.c, p);
    ReduceKeeps(v, p + Places(v));
    PartsCount(r.c, p);
    DecimalIsPlaceValue(whole + places);
    DecimalIsPlaceValue(whole);
    DecimalIsPlaceValue(places);
    PowerIsPow10(Places(v));
    assert NumberParts(r.negative, whole, places, v);
    assert NumberText(v) == (if r.negative then "-" else "") + whole + (if places == "" then "" else "." + places);
  }

  lemma PartsCount(c: nat, p: nat)
    ensures var whole := if p == 0 then Digits(c) else Digits(Over(c, Pow10(p)));
            var places := if p == 0 then "" else Padded(c, p);
            && whole != "" && IsDecimal(whole) && (|whole| > 1 ==> whole[0] != '0')
            && IsDecimal(places) && (p > 0 && c % 10 != 0 ==> places[|places| - 1] != '0')
            && IsDecimal(whole + places) && Decimal(whole + places) == c
  {
    hide Digits, Pow10, Decimal, Over, IsDecimal, Padded;
    var q := if p == 0 then c else Over(c, Pow10(p));
    DigitsBack(q);
    FirstOfDigits(q);
    if p > 0 {
      PaddedCounts(Digits(q), c, p);
      PaddedBack(c, p);
      LastOfPadded(c, p);
      OverBack(c, Pow10(p));
    } else {
      assert Digits(c) + "" == Digits(c);
      NothingIsDecimal();
    }
  }

  lemma NothingIsDecimal()
    ensures IsDecimal("")
  {
  }

  lemma OverBack(c: nat, p: nat)
    requires p > 0
    ensures Over(c, p) * p + c % p == c
  {
  }

  /** And it is the only such text. */
  lemma StandsOnce(text: string, v: Scalar)
    requires (v.Whole? || v.Exact?) && StandsForNumber(text, v)
    ensures text == NumberText(v)
  {
    hide Digits, Pow10, Scaled, Reduce, NumberText, PlaceValue, Numeral, Power, Canonical;
    TextIsCanonical(v);
    var negative: bool, whole: string, places: string :|
      && text == (if negative then "-" else "") + whole + (if places == "" then "" else "." + places)
      && NumberParts(negative, whole, places, v);
    LastPlaceCounts(whole, places);
    var c, p := PlaceValue(whole + places, 10), |places|;
    var r, n := Reduced(negative, c, p), p + Places(v);
    ReduceKeeps(v, n);
    PowerIsPow10(n - p);
    if p <= Reduce(v).places {
      ReducedOnce(r, Reduce(v), n);
    } else {
      ReducedOnce(Reduce(v), r, n);
    }
    PartsAre(whole, places);
    CanonicalParts(r, whole, places);
  }

  lemma CanonicalParts(r: Reduced, whole: string, places: string)
    requires r.places == |places| && Point(r.c, r.places) == whole + "." + places
    requires places == "" ==> Digits(r.c) == whole
    ensures Canonical(r) == (if r.negative then "-" else "") + whole + (if places == "" then "" else "." + places)
  {
    hide Digits, Point;
    assert whole + "" == whole;
    assert Sign(r.negative) + (whole + "." + places) == Sign(r.negative) + whole + ("." + places);
  }

  lemma LastPlaceCounts(whole: string, places: string)
    requires Numeral(whole, 10) && Numeral(places, 10) && (places != "" ==> places[|places| - 1] != '0')
    ensures Numeral(whole + places, 10) && (places != "" ==> PlaceValue(whole + places, 10) % 10 != 0)
  {
    hide IsFigure, PlaceValue;
    if places != "" {
      var s := whole + places;
      LastPlace(s, 10);
      FigureAboveZero(s[|s| - 1]);
      FigureBelow(s[|s| - 1]);
    }
  }

  lemma {:induction false} PaddedOnce(places: string)
    requires Numeral(places, 10)
    ensures Padded(PlaceValue(places, 10), |places|) == places && PlaceValue(places, 10) < Pow10(|places|)
    decreases |places|
  {
    if places != "" {
      hide IsFigure, PlaceValue, WORTH;
      var k := |places| - 1;
      LastPlace(places, 10);
      PaddedOnce(places[..k]);
      LastFigure(places[k], PlaceValue(places[..k], 10), PlaceValue(places, 10));
      FigureBelow(places[k]);
      assert places == places[..k] + [places[k]];
    }
  }

  lemma FigureBelow(c: char)
    requires IsFigure(c, 10)
    ensures WORTH[c] < 10
  {
  }

  /** The parts of a numeral with places are the digits of the quotient and the padded remainder. */
  lemma PartsAre(whole: string, places: string)
    requires Numeral(whole, 10) && Numeral(places, 10) && whole != "" && (|whole| > 1 ==> whole[0] != '0')
    ensures Numeral(whole + places, 10)
    ensures Point(PlaceValue(whole + places, 10), |places|) == whole + "." + places
    ensures places == "" ==> Digits(PlaceValue(whole + places, 10)) == whole
  {
    hide Digits, PlaceValue, Numeral, Pow10, Decimal, IsDecimal, Padded, Over;
    var p, q, m := |places|, PlaceValue(whole, 10), PlaceValue(places, 10);
    WholeOnce(whole);
    PaddedOnce(places);
    DecimalIsPlaceValue(whole);
    PaddedCounts(whole, m, p);
    DecimalIsPlaceValue(whole + places);
    SmallMod(m, Pow10(p));
    SumOver(q, m, Pow10(p));
    PaddedMod(PlaceValue(whole + places, 10), m, p);
    NoPlaces();
  }

  lemma NoPlaces()
    ensures Pow10(0) == 1
  {
  }

  lemma SmallMod(m: nat, p: nat)
    requires m < p
    ensures m % p == m
  {
  }

  lemma SumOver(q: nat, m: nat, p: nat)
    requires m < p
    ensures Over(q * p + m, p) == q && (q * p + m) % p == m
  {
    QuotientIs(q * p + m, p, q);
    assert p * q == q * p;
  }

  lemma {:induction false} PaddedMod(c: nat, m: nat, p: nat)
    requires c % Pow10(p) == m
    ensures Padded(c, p) == Padded(m, p)
  {
    hide Padded, Pow10, Decimal, IsDecimal;
    PaddedBack(c, p);
    PaddedBack(m, p);
    SmallMod(m, Pow10(p));
    PaddedSame(Padded(c, p));
    PaddedSame(Padded(m, p));
  }

  lemma PaddedSame(s: string)
    requires IsDecimal(s)
    ensures Padded(Decimal(s), |s|) == s
  {
    DecimalIsPlaceValue(s);
    PaddedOnce(s);
  }

  lemma WholeOnce(whole: string)
    requires Numeral(whole, 10) && whole != "" && (|whole| > 1 ==> whole[0] != '0')
    ensures Digits(PlaceValue(whole, 10)) == whole
  {
    hide Digits, PlaceValue;
    if whole[0] == '0' {
      assert whole == "0";
      ZeroIsZero();
    } else {
      Positive(whole);
      NumeralOnce(whole, PlaceValue(whole, 10));
    }
  }

  lemma ZeroIsZero()
    ensures PlaceValue("0", 10) == 0 && Digits(0) == "0"
  {
    assert "0"[1..] == "";
    var d := '0' + 0 as char;
    assert d as int == 48;
  }

  // ---------- Quoting ----------

  /** Letters, digits and the four marks that are never quoted. */
  predicate IsPlain(c: char) {
    var n := c as int;
    65 <= n <= 90 || 97 <= n <= 122 || 48 <= n <= 57 || n == 45 || n == 46 || n == 95 || n == 126
  }

  /** The delimiters of section 2.2 of RFC 3986. */
  predicate IsDelimiter(c: char) {
    c as int in {33, 35, 36, 38, 39, 40, 41, 42, 43, 44, 47, 58, 59, 61, 63, 64, 91, 93}
  }

  predicate IsTail(b: nat) { 128 <= b <= 191 }

  /** The bytes are the shortest encoding of the character number, section 3 of RFC 3629. */
  predicate IsUtf8(n: int, b: seq<nat>) {
    || (|b| == 1 && n < 128 && n == b[0])
    || (|b| == 2 && 128 <= n < 2048 && IsTail(b[1]) && n == (b[0] as int - 192) * 64 + (b[1] - 128))
    || (|b| == 3 && 2048 <= n < 65536 && IsTail(b[1]) && IsTail(b[2])
        && n == (b[0] as int - 224) * 4096 + (b[1] - 128) * 64 + (b[2] - 128))
    || (|b| == 4 && 65536 <= n < 1114112 && IsTail(b[1]) && IsTail(b[2]) && IsTail(b[3])
        && n == (b[0] as int - 240) * 262144 + (b[1] - 128) * 4096 + (b[2] - 128) * 64 + (b[3] - 128))
  }

  /** A percent sign and two hexadecimal digits, letters capital, that make the byte. */
  predicate IsTriplet(t: string, b: nat) {
    && |t| == 3 && t[0] == '%' && Numeral(t[1..], 16) && t[1] <= 'F' && t[2] <= 'F' && PlaceValue(t[1..], 16) == b
  }

  predicate AreTriplets(t: string, bytes: seq<nat>)
    decreases |bytes|
  {
    if bytes == [] then t == "" else |t| >= 3 && IsTriplet(t[..3], bytes[0]) && AreTriplets(t[3..], bytes[1..])
  }

  /** How one character is quoted, delimiters being kept or not. */
  ghost predicate IsQuoted(c: char, keep: bool, t: string) {
    if IsPlain(c) || (keep && IsDelimiter(c)) then t == [c]
    else exists bytes :: IsUtf8(c as int, bytes) && AreTriplets(t, bytes)
  }

  ghost predicate QuotedText(s: string, keep: bool, t: string)
    decreases |s|
  {
    if s == "" then t == ""
    else exists n :: 0 <= n <= |t| && IsQuoted(s[0], keep, t[..n]) && QuotedText(s[1..], keep, t[n..])
  }

  lemma Utf8Is(c: char)
    ensures IsUtf8(c as int, Utf8(c))
  {
    var n := c as int;
    SixBits(n);
    SixBits(n / 64);
    SixBits(n / 64 / 64);
    Sixths(n);
    if n < 128 {
    } else if n < 2048 {
      assert Utf8(c) == [192 + n / 64, 128 + n % 64];
    } else if n < 65536 {
      assert Utf8(c) == [224 + n / 4096, 128 + n / 64 % 64, 128 + n % 64];
    } else {
      assert Utf8(c) == [240 + n / 262144, 128 + n / 4096 % 64, 128 + n / 64 % 64, 128 + n % 64];
    }
  }

  lemma SixBits(n: int)
    ensures n == n / 64 * 64 + n % 64 && 0 <= n % 64 < 64
  {
  }

  lemma Sixths(n: int)
    requires n >= 0
    ensures n / 4096 == n / 64 / 64 && n / 262144 == n / 64 / 64 / 64
  {
  }

  lemma Utf8Once(n: int, a: seq<nat>, b: seq<nat>)
    requires IsUtf8(n, a) && IsUtf8(n, b)
    ensures a == b
  {
    if |a| == 2 {
      assert a[0] == b[0];
    } else if |a| == 3 {
      assert a[0] == b[0] && a[1] == b[1];
    } else if |a| == 4 {
      assert a[0] == b[0];
      assert a[1] == b[1];
      assert a[2] == b[2];
    }
  }

  lemma HexDigitIs(n: nat)
    requires n < 16
    ensures var c := HexDigit(n); IsFigure(c, 16) && WORTH[c] == n && c <= 'F'
  {
  }

  lemma HexDigitOnce(c: char)
    requires IsFigure(c, 16) && c <= 'F'
    ensures HexDigit(WORTH[c]) == c
  {
  }

  lemma PairValue(t: string)
    requires |t| == 2 && Numeral(t, 16)
    ensures PlaceValue(t, 16) == WORTH[t[0]] * 16 + WORTH[t[1]]
  {
    LastPlace(t, 16);
    LastPlace(t[..1], 16);
    assert t[..1][..0] == "" && PlaceValue("", 16) == 0;
  }

  lemma TripletIs(b: nat, t: string)
    requires b < 256
    ensures IsTriplet(t, b) <==> t == ['%', HexDigit(b / 16), HexDigit(b % 16)]
  {
    hide IsFigure, PlaceValue, HexDigit;
    HexDigitIs(b / 16);
    HexDigitIs(b % 16);
    if t == ['%', HexDigit(b / 16), HexDigit(b % 16)] {
      assert t[1..] == [HexDigit(b / 16), HexDigit(b % 16)];
      PairValue(t[1..]);
    }
    if IsTriplet(t, b) {
      PairValue(t[1..]);
      assert t[1..][0] == t[1] && t[1..][1] == t[2];
      HexDigitOnce(t[1]);
      HexDigitOnce(t[2]);
      Halves(t[1], t[2]);
      assert t == [t[0], t[1], t[2]];
    }
  }

  lemma Halves(c: char, d: char)
    requires IsFigure(c, 16) && IsFigure(d, 16)
    ensures (WORTH[c] * 16 + WORTH[d]) / 16 == WORTH[c] && (WORTH[c] * 16 + WORTH[d]) % 16 == WORTH[d]
  {
  }

  lemma {:induction false} PercentIs(bytes: seq<nat>, t: string)
    requires forall k :: 0 <= k < |bytes| ==> bytes[k] < 256
    ensures AreTriplets(t, bytes) <==> t == Percent(bytes)
    decreases |bytes|
  {
    hide HexDigit, IsTriplet;
    if bytes != [] && |t| >= 3 {
      TripletIs(bytes[0], t[..3]);
      PercentIs(bytes[1..], t[3..]);
      assert t == t[..3] + t[3..];
    }
  }

  lemma PlainIs(c: char)
    ensures IsPlain(c) <==> IsUnreserved(c)
    ensures IsDelimiter(c) <==> IsReserved(c)
  {
  }

  lemma QuotedIs(c: char, keep: bool, t: string)
    ensures IsQuoted(c, keep, t) <==> t == QuoteChar(c, keep)
  {
    hide IsPlain, IsDelimiter, IsUnreserved, IsReserved, Utf8, IsUtf8, Percent, AreTriplets;
    PlainIs(c);
    Utf8Is(c);
    PercentIs(Utf8(c), t);
    if bytes :| IsUtf8(c as int, bytes) && AreTriplets(t, bytes) {
      Utf8Once(c as int, bytes, Utf8(c));
    }
  }

  lemma {:induction false} QuotedTextIs(s: string, keep: bool, t: string)
    ensures QuotedText(s, keep, t) <==> t == Quote(s, keep)
    decreases |s|
  {
    hide IsQuoted, QuoteChar;
    if s != "" {
      forall n | 0 <= n <= |t|
        ensures IsQuoted(s[0], keep, t[..n]) && QuotedText(s[1..], keep, t[n..]) <==>
                t[..n] == QuoteChar(s[0], keep) && t[n..] == Quote(s[1..], keep)
      {
        QuotedIs(s[0], keep, t[..n]);
        QuotedTextIs(s[1..], keep, t[n..]);
      }
      if t == Quote(s, keep) {
        var n := |QuoteChar(s[0], keep)|;
        assert t[..n] == QuoteChar(s[0], keep) && t[n..] == Quote(s[1..], keep);
      }
    }
  }

  // ---------- Templates ----------

  /** The operator character of section 2.2. */
  function Mark(operator: Operator): string {
    match operator
    case Simple => ""
    case Reserved => "+"
    case Fragment => "#"
    case Label => "."
    case PathSegment => "/"
    case PathParameter => ";"
    case Query => "?"
    case QueryMore => "&"
  }

  predicate IsWord(c: char) {
    var n := c as int;
    65 <= n <= 90 || 97 <= n <= 122 || 48 <= n <= 57 || n == 95
  }

  /** One `varchar` of section 2.3: a word character or a percent triplet. */
  predicate IsVarChar(u: string) {
    (|u| == 1 && IsWord(u[0])) || (|u| == 3 && u[0] == '%' && Numeral(u[1..], 16))
  }

  /** A name is a `varchar`, then more of them, each after at most one dot. */
  predicate IsName(s: string)
    decreases |s|, 1
  {
    exists n :: 0 < n <= |s| && IsVarChar(s[..n]) && IsNameTail(s[n..])
  }

  predicate IsNameTail(s: string)
    decreases |s|, 0
  {
    s == "" || (s[0] == '.' && IsName(s[1..])) || exists n :: 0 < n <= |s| && IsVarChar(s[..n]) && IsNameTail(s[n..])
  }

  /** A name, alone, with a star, or with a prefix length from 1 to 9999. */
  ghost predicate Mentions(v: Var, item: string) {
    && IsName(v.name)
    && (|| (v.prefix.None? && (item == v.name || item == v.name + "*"))
        || (v.prefix.Some? && exists digits :: item == v.name + ":" + digits && IsLength(digits, v.prefix.value)))
  }

  predicate IsLength(digits: string, n: nat) {
    1 <= |digits| <= 4 && Numeral(digits, 10) && digits[0] != '0' && PlaceValue(digits, 10) == n
  }

  /** Mentions separated by commas. */
  ghost predicate Lists(vars: seq<Var>, s: string)
    decreases |vars|
  {
    if |vars| <= 1 then |vars| == 1 && Mentions(vars[0], s)
    else exists n :: 0 <= n < |s| && s[n] == ',' && Mentions(vars[0], s[..n]) && Lists(vars[1..], s[n + 1..])
  }

  ghost predicate IsExpression(part: Part, inner: string) {
    part.Expression? && exists list :: inner == Mark(part.operator) + list && Lists(part.vars, list)
  }

  predicate Braceless(s: string) { '{' !in s && '}' !in s }

  /** Literals and expressions in braces by turns, a literal first and last. */
  ghost predicate IsTemplate(parts: seq<Part>, t: string)
    decreases |parts|
  {
    if |parts| < 3 then |parts| == 1 && parts[0] == Literal(t) && Braceless(t)
    else
      && parts[0].Literal? && Braceless(parts[0].text)
      && exists inner, rest ::
           && t == parts[0].text + "{" + inner + "}" + rest && Braceless(inner)
           && IsExpression(parts[1], inner) && IsTemplate(parts[2..], rest)
  }

  // ---------- The parser reads templates ----------

  lemma WordIs(c: char)
    ensures IsWord(c) <==> IsWordChar(c)
  {
  }

  lemma HexIs(s: string)
    ensures IsHex(s) <==> Numeral(s, 16)
  {
    HexIsPlaceValue(s);
  }

  /** The first `varchar` of a name, where the parser cuts it. */
  lemma VarCharIs(s: string, n: nat)
    requires 0 < n <= |s|
    ensures IsVarChar(s[..n]) <==> (n == 1 && IsWordChar(s[0])) || (n == 3 && s[0] == '%' && IsHex(s[1..3]))
  {
    WordIs(s[0]);
    if n == 3 {
      assert s[..3][1..] == s[1..3];
      HexIs(s[1..3]);
    }
  }

  ghost predicate Continues(s: string) {
    exists n :: 0 < n <= |s| && IsVarChar(s[..n]) && IsNameTail(s[n..])
  }

  lemma {:induction false} ContinuesIs(s: string)
    ensures Continues(s) <==> NameStart(s)
    decreases |s|, 0
  {
    hide IsVarChar, IsNameTail, IsWordChar, IsHex;
    forall n | 0 < n <= |s|
      ensures IsVarChar(s[..n]) && IsNameTail(s[n..]) <==>
              ((n == 1 && IsWordChar(s[0])) || (n == 3 && s[0] == '%' && IsHex(s[1..3]))) && NameRest(s[n..])
    {
      VarCharIs(s, n);
      NameIs(s[n..]);
    }
    if NameStart(s) {
      var n := if IsWordChar(s[0]) then 1 else 3;
      assert IsVarChar(s[..n]) && IsNameTail(s[n..]);
    }
    if Continues(s) {
      PercentIsNoWord();
    }
  }

  lemma PercentIsNoWord()
    ensures !IsWordChar('%') && !IsWordChar('.')
  {
  }

  lemma {:induction false} NameIs(s: string)
    ensures IsName(s) <==> NameStart(s)
    ensures IsNameTail(s) <==> NameRest(s)
    decreases |s|, 1
  {
    hide IsVarChar, IsWordChar, IsHex, NameStart;
    ContinuesIs(s);
    if s != "" {
      NameIs(s[1..]);
      if s[0] == '.' {
        DotStarts(s);
      }
    }
  }

  lemma DotStarts(s: string)
    requires s != "" && s[0] == '.'
    ensures NameRest(s) <==> NameStart(s[1..])
    ensures !NameStart(s)
  {
    hide IsHex;
  }

  lemma NameHolds(name: string, c: char)
    requires NameStart(name) && c in {',', '*', ':', '{', '}'}
    ensures c !in name
  {
    NameSafe(name);
  }

  lemma VarIs(item: string, v: Var)
    ensures ParseVar(item) == Some(v) <==> Mentions(v, item)
  {
    hide NameStart, IsName, IsDecimal, Decimal, Numeral, PlaceValue;
    NameIs(v.name);
    if ParseVar(item) == Some(v) {
      ParsedMentions(item, v);
    }
    if Mentions(v, item) {
      NameHolds(v.name, '*');
      NameHolds(v.name, ':');
      if v.prefix.Some? {
        var digits :| item == v.name + ":" + digits && IsLength(digits, v.prefix.value);
        LengthParses(item, v, digits);
      } else if item == v.name {
        assert item != "" ==> item[|item| - 1] in v.name;
        FindIs(item, ':', |item|);
        assert item[..|item|] == item;
      } else {
        assert item[|item| - 1] == '*' && item[..|item| - 1] == v.name;
      }
    }
  }

  lemma LengthParses(item: string, v: Var, digits: string)
    requires NameStart(v.name) && v.prefix.Some? && item == v.name + ":" + digits && IsLength(digits, v.prefix.value)
    ensures ParseVar(item) == Some(v)
  {
    hide NameStart, IsDecimal, Decimal, Numeral, PlaceValue;
    NameHolds(v.name, ':');
    assert forall k :: 0 <= k < |v.name| ==> item[k] == v.name[k];
    FindIs(item, ':', |v.name|);
    DecimalIsPlaceValue(digits);
    assert item[..|v.name|] == v.name && item[|v.name| + 1..] == digits;
    assert item[|item| - 1] == digits[|digits| - 1];
    FigureAtEnd(digits);
  }

  lemma FigureAtEnd(digits: string)
    requires Numeral(digits, 10) && digits != ""
    ensures digits[|digits| - 1] != '*'
  {
    assert IsFigure(digits[|digits| - 1], 10);
  }

  lemma ParsedMentions(item: string, v: Var)
    requires ParseVar(item) == Some(v)
    ensures Mentions(v, item)
  {
    hide NameStart, IsName, IsDecimal, Decimal, Numeral, PlaceValue;
    NameIs(v.name);
    if item != "" && item[|item| - 1] == '*' {
      assert item == item[..|item| - 1] + "*";
    } else {
      var colon := Find(item, ':');
      assert item[..|item|] == item;
      if colon < |item| {
        var digits := item[colon + 1..];
        DecimalIsPlaceValue(digits);
        assert item == item[..colon] + ":" + digits;
        assert IsLength(digits, v.prefix.value);
      }
    }
  }

  lemma MentionHolds(v: Var, item: string)
    requires Mentions(v, item)
    ensures ',' !in item && '{' !in item && '}' !in item
  {
    hide NameStart, IsName, Numeral, PlaceValue;
    NameIs(v.name);
    NameHolds(v.name, ',');
    NameHolds(v.name, '{');
    NameHolds(v.name, '}');
    if v.prefix.Some? {
      var digits :| item == v.name + ":" + digits && IsLength(digits, v.prefix.value);
      FiguresOnly(digits);
    }
  }

  lemma FiguresOnly(digits: string)
    requires Numeral(digits, 10)
    ensures ',' !in digits && '{' !in digits && '}' !in digits
  {
    assert forall k :: 0 <= k < |digits| ==> IsFigure(digits[k], 10);
  }

  lemma {:induction false} VarsAre(s: string, vars: seq<Var>)
    ensures ParseVars(s) == Some(vars) <==> Lists(vars, s)
    decreases |s|
  {
    hide ParseVar, Mentions, Lists, ParseVars;
    var comma := Find(s, ',');
    VarsStep(s, comma);
    NoList(s);
    if vars != [] {
      VarIs(s[..comma], vars[0]);
      ListIs(s, vars);
      if comma < |s| {
        VarsAre(s[comma + 1..], vars[1..]);
        assert vars == [vars[0]] + vars[1..];
        VarsSome(s[comma + 1..]);
      } else {
        assert |vars| == 1 ==> vars == [vars[0]];
      }
    }
  }

  lemma VarsSome(s: string)
    ensures ParseVars(s) != Some([])
  {
    hide ParseVar;
  }

  lemma NoList(s: string)
    ensures !Lists([], s)
  {
  }

  /** A list is its mentions between commas. */
  lemma ListIs(s: string, vars: seq<Var>)
    requires vars != []
    ensures var comma := Find(s, ',');
            Lists(vars, s) <==>
            && Mentions(vars[0], s[..comma])
            && (if comma == |s| then |vars| == 1 else |vars| > 1 && Lists(vars[1..], s[comma + 1..]))
  {
    hide Mentions, Lists;
    var comma := Find(s, ',');
    if Lists(vars, s) {
      ListCut(s, vars);
      assert |vars| != 1 ==> |vars| > 1;
    }
    if Mentions(vars[0], s[..comma]) {
      if comma == |s| && |vars| == 1 {
        assert s[..comma] == s;
        OneMention(s, vars);
      } else if comma < |s| && |vars| > 1 && Lists(vars[1..], s[comma + 1..]) {
        MentionBefore(s, vars, comma);
      }
    }
  }

  lemma OneMention(s: string, vars: seq<Var>)
    requires |vars| == 1 && Mentions(vars[0], s)
    ensures Lists(vars, s)
  {
    hide Mentions;
  }

  lemma MentionBefore(s: string, vars: seq<Var>, n: nat)
    requires n < |s| && s[n] == ',' && |vars| > 1 && Mentions(vars[0], s[..n]) && Lists(vars[1..], s[n + 1..])
    ensures Lists(vars, s)
  {
    hide Mentions;
  }

  lemma VarsStep(s: string, comma: nat)
    requires comma == Find(s, ',')
    ensures ParseVars(s) ==
            match ParseVar(s[..comma])
            case None => None
            case Some(v) =>
              if comma == |s| then Some([v])
              else match ParseVars(s[comma + 1..])
                case None => None
                case Some(vs) => Some([v] + vs)
  {
    hide ParseVar;
  }

  /** A list is cut at its first comma. */
  lemma ListCut(s: string, vars: seq<Var>)
    requires Lists(vars, s)
    ensures vars != [] && Mentions(vars[0], s[..Find(s, ',')])
    ensures |vars| == 1 <==> Find(s, ',') == |s|
    ensures |vars| > 1 ==> Lists(vars[1..], s[Find(s, ',') + 1..])
  {
    hide Mentions;
    if |vars| == 1 {
      MentionHolds(vars[0], s);
      FindIs(s, ',', |s|);
      assert s[..|s|] == s;
    } else {
      var n :| 0 <= n < |s| && s[n] == ',' && Mentions(vars[0], s[..n]) && Lists(vars[1..], s[n + 1..]);
      hide Lists;
      MentionHolds(vars[0], s[..n]);
      CommaAt(s, n);
    }
  }

  lemma CommaAt(s: string, n: nat)
    requires n < |s| && s[n] == ',' && ',' !in s[..n]
    ensures Find(s, ',') == n
  {
    assert forall k :: 0 <= k < n ==> s[..n][k] == s[k];
    FindIs(s, ',', n);
  }

  lemma ListStarts(s: string, vars: seq<Var>)
    requires Lists(vars, s)
    ensures s != "" && OperatorOf(s[0]).None?
  {
    hide Mentions, IsName, NameStart;
    ListCut(s, vars);
    var item := s[..Find(s, ',')];
    MentionStarts(vars[0], item);
  }

  lemma MentionStarts(v: Var, item: string)
    requires Mentions(v, item)
    ensures item != "" && OperatorOf(item[0]).None?
  {
    hide IsName, NameRest, IsLength;
    NameIs(v.name);
    assert v.name != "" && (IsWordChar(v.name[0]) || v.name[0] == '%');
  }

  lemma MarkIs(operator: Operator, c: char)
    ensures OperatorOf(c) == Some(operator) <==> Mark(operator) == [c]
    ensures |Mark(operator)| <= 1 && (operator.Simple? <==> Mark(operator) == "")
  {
  }

  lemma ExpressionIs(inner: string, part: Part)
    ensures ParseExpression(inner) == Some(part) <==> IsExpression(part, inner)
  {
    hide Lists, ParseVars, Mark, OperatorOf;
    if ParseExpression(inner) == Some(part) {
      var operator := if |inner| > 1 then OperatorOf(inner[0]) else None;
      var list := if operator.Some? then inner[1..] else inner;
      VarsAre(list, part.vars);
      MarkIs(part.operator, inner[0]);
      assert inner == Mark(part.operator) + list;
    }
    if part.Expression? {
      if list :| inner == Mark(part.operator) + list && Lists(part.vars, list) {
        VarsAre(list, part.vars);
        ListStarts(list, part.vars);
        if part.operator.Simple? {
          MarkIs(Simple, inner[0]);
          assert inner == list;
        } else {
          MarkIs(part.operator, inner[0]);
          assert inner[1..] == list;
        }
      }
    }
  }

  lemma BraceIs(t: string)
    ensures Braceless(t) <==> FindBrace(t) == |t|
  {
  }

  /** The first brace stands behind the literal. */
  lemma BraceAfter(text: string, c: char, rest: string)
    requires Braceless(text) && IsBrace(c)
    ensures FindBrace(text + [c] + rest) == |text|
  {
    var t := text + [c] + rest;
    assert forall k :: 0 <= k < |text| ==> t[k] == text[k] && t[k] in text;
    BraceFirst(t, |text|);
  }

  lemma BraceFirst(t: string, n: nat)
    requires n < |t| && IsBrace(t[n]) && forall k :: 0 <= k < n ==> !IsBrace(t[k])
    ensures FindBrace(t) == n
  {
  }

  lemma {:induction false} TemplateIs(t: string, parts: seq<Part>)
    ensures Parse(t) == Some(parts) <==> IsTemplate(parts, t)
    decreases |t|
  {
    hide IsExpression, ParseExpression, FindBrace, IsBrace, Parse, IsTemplate;
    if Parse(t) == Some(parts) {
      ParsedIs(t, parts);
    }
    if IsTemplate(parts, t) {
      TemplateParses(t, parts);
    }
  }

  lemma {:induction false} ParsedIs(t: string, parts: seq<Part>)
    requires Parse(t) == Some(parts)
    ensures IsTemplate(parts, t)
    decreases |t|, 0
  {
    hide IsExpression, ParseExpression, FindBrace, IsTemplate, Parse, Braceless;
    var open := FindBrace(t);
    ParseCases(t);
    BraceIs(t);
    if open < |t| {
      var rest := t[open + 1..];
      var close := FindBrace(rest);
      var part, more := ParseExpression(rest[..close]).value, Parse(rest[close + 1..]).value;
      ExpressionIs(rest[..close], part);
      TemplateIs(rest[close + 1..], more);
      CutBraceless(t, open);
      CutBraceless(rest, close);
      Bracketed(t[..open], rest[..close], rest[close + 1..], part, more);
      assert t == t[..open] + "{" + rest[..close] + "}" + rest[close + 1..];
    } else {
      AloneIs(t);
    }
  }

  lemma AloneIs(t: string)
    requires Braceless(t)
    ensures IsTemplate([Literal(t)], t)
  {
    hide Braceless;
  }

  lemma ParseCases(t: string)
    ensures var open := FindBrace(t);
            Parse(t) ==
            if open == |t| then Some([Literal(t)])
            else if t[open] == '}' then None
            else
              var rest := t[open + 1..];
              var close := FindBrace(rest);
              if close == |rest| || rest[close] == '{' || ParseExpression(rest[..close]).None?
                 || Parse(rest[close + 1..]).None? then None
              else Some([Literal(t[..open]), ParseExpression(rest[..close]).value] + Parse(rest[close + 1..]).value)
  {
    hide ParseExpression, FindBrace;
  }

  lemma Bracketed(text: string, inner: string, rest: string, part: Part, more: seq<Part>)
    requires Braceless(text) && Braceless(inner) && IsExpression(part, inner) && IsTemplate(more, rest)
    ensures IsTemplate([Literal(text), part] + more, text + "{" + inner + "}" + rest)
  {
    hide Braceless, IsExpression;
    var parts := [Literal(text), part] + more;
    MoreParts(more, rest);
    assert parts[2..] == more;
  }

  lemma MoreParts(parts: seq<Part>, t: string)
    requires IsTemplate(parts, t)
    ensures parts != []
  {
  }

  lemma CutBraceless(t: string, n: nat)
    requires n <= |t| && forall k :: 0 <= k < n ==> !IsBrace(t[k])
    ensures Braceless(t[..n])
  {
  }

  lemma {:induction false} TemplateParses(t: string, parts: seq<Part>)
    requires IsTemplate(parts, t)
    ensures Parse(t) == Some(parts)
    decreases |t|, 0
  {
    hide IsExpression, ParseExpression, FindBrace, Braceless, Parse, IsTemplate;
    if |parts| < 3 {
      LiteralAlone(t, parts);
      LiteralParses(t);
    } else {
      var inner, rest := Pieces(t, parts);
      var text := parts[0].text;
      ExpressionIs(inner, parts[1]);
      TemplateIs(rest, parts[2..]);
      BracesParse(text, inner, rest);
      assert parts == [Literal(text), parts[1]] + parts[2..];
    }
  }

  lemma LiteralAlone(t: string, parts: seq<Part>)
    requires IsTemplate(parts, t) && |parts| < 3
    ensures parts == [Literal(t)] && Braceless(t)
  {
    hide Braceless;
  }

  lemma Pieces(t: string, parts: seq<Part>) returns (inner: string, rest: string)
    requires IsTemplate(parts, t) && |parts| >= 3
    ensures parts[0].Literal? && Braceless(parts[0].text) && t == parts[0].text + "{" + inner + "}" + rest
    ensures Braceless(inner) && IsExpression(parts[1], inner) && IsTemplate(parts[2..], rest) && |rest| < |t|
  {
    hide Braceless, IsExpression;
    inner, rest :|
      && t == parts[0].text + "{" + inner + "}" + rest && Braceless(inner)
      && IsExpression(parts[1], inner) && IsTemplate(parts[2..], rest);
  }

  lemma LiteralParses(t: string)
    requires Braceless(t)
    ensures Parse(t) == Some([Literal(t)])
  {
    hide FindBrace, Braceless;
    BraceIs(t);
  }

  lemma BracesParse(text: string, inner: string, rest: string)
    requires Braceless(text) && Braceless(inner) && ParseExpression(inner).Some? && Parse(rest).Some?
    ensures Parse(text + "{" + inner + "}" + rest) ==
            Some([Literal(text), ParseExpression(inner).value] + Parse(rest).value)
  {
    hide ParseExpression, FindBrace, Braceless, Parse;
    ParseCases(text + "{" + inner + "}" + rest);
    BraceSlices(text, inner, rest);
  }

  lemma BraceSlices(text: string, inner: string, rest: string)
    requires Braceless(text) && Braceless(inner)
    ensures var t := text + "{" + inner + "}" + rest;
            var later := t[|text| + 1..];
            && FindBrace(t) == |text| && t[|text|] == '{' && t[..|text|] == text
            && FindBrace(later) == |inner| < |later| && later[|inner|] == '}'
            && later[..|inner|] == inner && later[|inner| + 1..] == rest
  {
    hide FindBrace, Braceless;
    var t := text + "{" + inner + "}" + rest;
    assert t == text + ['{'] + (inner + "}" + rest);
    BraceAfter(text, '{', inner + "}" + rest);
    var later := t[|text| + 1..];
    assert later == inner + ['}'] + rest;
    BraceAfter(inner, '}', rest);
  }

  // ---------- Expansions ----------

  /** The text of a defined scalar. */
  ghost predicate IsText(v: Scalar, text: string) {
    match v
    case Null => false
    case Text(s) => text == s
    case Flag(b) => text == if b then "true" else "false"
    case _ => StandsForNumber(text, v)
  }

  /** A variable is defined by a value that is not null, and cut to its prefix length. */
  ghost predicate Defines(v: Var, values: Values, text: string) {
    && v.name in values
    && exists whole :: && IsText(values[v.name], whole) && text <= whole
                       && (v.prefix.None? ==> text == whole)
                       && (v.prefix.Some? ==> |text| == if |whole| < v.prefix.value then |whole| else v.prefix.value)
  }

  ghost predicate Undefined(v: Var, values: Values) {
    v.name in values ==> values[v.name].Null?
  }

  /** One item: the quoted value, with its name before it where the operator asks for names. */
  ghost predicate IsItem(operator: Operator, name: string, text: string, item: string) {
    match operator
    case Simple => QuotedText(text, false, item)
    case Label => QuotedText(text, false, item)
    case PathSegment => QuotedText(text, false, item)
    case Reserved => QuotedText(text, true, item)
    case Fragment => QuotedText(text, true, item)
    case PathParameter =>
      if text == "" then item == name else name + "=" <= item && QuotedText(text, false, item[|name| + 1..])
    case Query => name + "=" <= item && QuotedText(text, false, item[|name| + 1..])
    case QueryMore => name + "=" <= item && QuotedText(text, false, item[|name| + 1..])
  }

  /** The items of the defined variables, in order. */
  ghost predicate AreItems(operator: Operator, vars: seq<Var>, values: Values, items: seq<string>)
    decreases |vars|
  {
    if vars == [] then items == []
    else if Undefined(vars[0], values) then AreItems(operator, vars[1..], values, items)
    else
      && items != []
      && (exists text :: Defines(vars[0], values, text) && IsItem(operator, vars[0].name, text, items[0]))
      && AreItems(operator, vars[1..], values, items[1..])
  }

  /** Nothing without items; otherwise the prefix and the items with separators between, appendix A of RFC 6570. */
  ghost predicate Expands(operator: Operator, items: seq<string>, out: string) {
    if items == [] then out == ""
    else
      match operator
      case Simple => Separated(items, ',', out)
      case Reserved => Separated(items, ',', out)
      case Fragment => out != "" && out[0] == '#' && Separated(items, ',', out[1..])
      case Label => out != "" && out[0] == '.' && Separated(items, '.', out[1..])
      case PathSegment => out != "" && out[0] == '/' && Separated(items, '/', out[1..])
      case PathParameter => out != "" && out[0] == ';' && Separated(items, ';', out[1..])
      case Query => out != "" && out[0] == '?' && Separated(items, '&', out[1..])
      case QueryMore => out != "" && out[0] == '&' && Separated(items, '&', out[1..])
  }

  predicate Separated(items: seq<string>, separator: char, out: string)
    decreases |items|
  {
    if |items| <= 1 then |items| == 1 && out == items[0]
    else items[0] + [separator] <= out && Separated(items[1..], separator, out[|items[0]| + 1..])
  }

  ghost predicate ExpandsPart(part: Part, values: Values, out: string) {
    match part
    case Literal(text) => out == text
    case Expression(operator, vars) =>
      exists items :: AreItems(operator, vars, values, items) && Expands(operator, items, out)
  }

  ghost predicate ExpandsAll(parts: seq<Part>, values: Values, out: string)
    decreases |parts|
  {
    if parts == [] then out == ""
    else
      exists n :: 0 <= n <= |out| && ExpandsPart(parts[0], values, out[..n]) && ExpandsAll(parts[1..], values, out[n..])
  }

  lemma TextIs(v: Scalar, text: string)
    ensures TextOf(v) == Some(text) <==> IsText(v, text)
    ensures TextOf(v).None? <==> v.Null?
  {
    hide StandsForNumber, NumberText;
    if v.Whole? || v.Exact? {
      TextStandsFor(v);
      if StandsForNumber(text, v) {
        StandsOnce(text, v);
      }
    }
  }

  lemma ValueIs(v: Var, values: Values, text: string)
    ensures ValueOf(v, values) == Some(text) <==> Defines(v, values, text)
    ensures ValueOf(v, values).None? <==> Undefined(v, values)
  {
    hide IsText;
    if v.name in values {
      forall whole
        ensures TextOf(values[v.name]) == Some(whole) <==> IsText(values[v.name], whole)
        ensures TextOf(values[v.name]).None? <==> values[v.name].Null?
      {
        TextIs(values[v.name], whole);
      }
      hide TextOf;
      if ValueOf(v, values) == Some(text) {
        var whole := TextOf(values[v.name]).value;
        assert IsText(values[v.name], whole);
        CutIs(v, whole, text);
      }
      if Defines(v, values, text) {
        var whole :| && IsText(values[v.name], whole) && text <= whole
                     && (v.prefix.None? ==> text == whole)
                     && (v.prefix.Some? ==> |text| == if |whole| < v.prefix.value then |whole| else v.prefix.value);
        CutIs(v, whole, text);
      }
    }
  }

  lemma CutIs(v: Var, whole: string, text: string)
    ensures text == (if v.prefix.Some? && v.prefix.value < |whole| then whole[..v.prefix.value] else whole) <==>
            && text <= whole && (v.prefix.None? ==> text == whole)
            && (v.prefix.Some? ==> |text| == if |whole| < v.prefix.value then |whole| else v.prefix.value)
  {
    if text <= whole {
      assert text == whole[..|text|];
    }
  }

  lemma NothingQuoted(text: string)
    ensures Quote(text, false) == "" <==> text == ""
  {
    if text != "" {
      QuoteCharSafe(text[0], false);
    }
  }

  lemma ItemIs(operator: Operator, name: string, text: string, item: string)
    ensures item == Segment(operator, name, text) <==> IsItem(operator, name, text, item)
  {
    hide Quote, QuotedText;
    QuotedTextIs(text, KeepsReserved(operator), item);
    NothingQuoted(text);
    if name + "=" <= item {
      QuotedTextIs(text, false, item[|name| + 1..]);
      assert item == name + "=" + item[|name| + 1..];
    }
    assert (name + "=" + Quote(text, false))[|name| + 1..] == Quote(text, false);
  }

  lemma {:induction false} ItemsAre(operator: Operator, vars: seq<Var>, values: Values, items: seq<string>)
    ensures items == Segments(operator, vars, values) <==> AreItems(operator, vars, values, items)
    decreases |vars|
  {
    hide ValueOf, Segment, Defines, Undefined, IsItem;
    if vars != [] {
      var value := ValueOf(vars[0], values);
      forall text
        ensures value == Some(text) <==> Defines(vars[0], values, text)
        ensures value.None? <==> Undefined(vars[0], values)
      {
        ValueIs(vars[0], values, text);
      }
      UndefinedIs(vars[0], values);
      if value.None? {
        ItemsAre(operator, vars[1..], values, items);
        assert [] + Segments(operator, vars[1..], values) == Segments(operator, vars[1..], values);
      } else if items != [] {
        ItemsAre(operator, vars[1..], values, items[1..]);
        ItemIs(operator, vars[0].name, value.value, items[0]);
        assert items == [items[0]] + items[1..];
      }
    }
  }

  lemma UndefinedIs(v: Var, values: Values)
    ensures ValueOf(v, values).None? <==> Undefined(v, values)
  {
    ValueIs(v, values, "");
  }

  lemma {:induction false} SeparatedIs(items: seq<string>, separator: char, out: string)
    requires items != []
    ensures Separated(items, separator, out) <==> out == Join(separator, items)
    decreases |items|
  {
    if |items| > 1 {
      var head := items[0] + [separator];
      if head <= out {
        SeparatedIs(items[1..], separator, out[|items[0]| + 1..]);
        assert out == head + out[|items[0]| + 1..];
      }
      if out == Join(separator, items) {
        assert out == head + Join(separator, items[1..]);
        assert out[|head|..] == Join(separator, items[1..]);
      }
    }
  }

  lemma ExpandsIs(operator: Operator, items: seq<string>, out: string)
    ensures Expands(operator, items, out) <==>
            out == if items == [] then "" else First(operator) + Join(Separator(operator), items)
  {
    hide Separated, Join;
    if items != [] {
      var joined := Join(Separator(operator), items);
      SeparatedIs(items, Separator(operator), out);
      assert "" + joined == joined;
      if out != "" {
        SeparatedIs(items, Separator(operator), out[1..]);
        assert out == [out[0]] + out[1..];
      }
      if First(operator) != "" {
        assert (First(operator) + joined)[1..] == joined;
      }
    }
  }

  lemma PartIs(part: Part, values: Values, out: string)
    ensures out == ExpandPart(part, values) <==> ExpandsPart(part, values, out)
  {
    hide AreItems, Expands, Segments, First, Separator, Join;
    if part.Expression? {
      forall items
        ensures items == Segments(part.operator, part.vars, values) <==>
                AreItems(part.operator, part.vars, values, items)
      {
        ItemsAre(part.operator, part.vars, values, items);
      }
      ExpandsIs(part.operator, Segments(part.operator, part.vars, values), out);
    }
  }

  lemma {:induction false} AllExpands(parts: seq<Part>, values: Values, out: string)
    ensures out == ExpandParts(parts, values) <==> ExpandsAll(parts, values, out)
    decreases |parts|
  {
    hide ExpandPart, ExpandsPart;
    if parts != [] {
      forall n | 0 <= n <= |out|
        ensures ExpandsPart(parts[0], values, out[..n]) && ExpandsAll(parts[1..], values, out[n..]) <==>
                out[..n] == ExpandPart(parts[0], values) && out[n..] == ExpandParts(parts[1..], values)
      {
        PartIs(parts[0], values, out[..n]);
        AllExpands(parts[1..], values, out[n..]);
      }
      if out == ExpandParts(parts, values) {
        var n := |ExpandPart(parts[0], values)|;
        assert out[..n] == ExpandPart(parts[0], values) && out[n..] == ExpandParts(parts[1..], values);
      }
    }
  }

  /** A template within its length is expanded exactly to the text, within the other length, that its grammar and its
      operators give. */
  lemma ExpandIs(template: string, values: Values, out: string)
    ensures Expand(template, values) == Some(out) <==>
            && |template| <= 16384 && |out| <= 65536
            && exists parts :: IsTemplate(parts, template) && ExpandsAll(parts, values, out)
  {
    hide Parse, ExpandParts, IsTemplate, ExpandsAll;
    forall parts
      ensures Parse(template) == Some(parts) <==> IsTemplate(parts, template)
      ensures out == ExpandParts(parts, values) <==> ExpandsAll(parts, values, out)
    {
      TemplateIs(template, parts);
      AllExpands(parts, values, out);
    }
    if Expand(template, values) == Some(out) {
      var parts := Parse(template).value;
      assert IsTemplate(parts, template) && ExpandsAll(parts, values, out);
    }
  }
}
