/** What texts mean: the lexical space of every scalar kind, restrictions included, stated by the texts and values
    alone;
    the scalar codec decides exactly this. */
module XmlMeaning {
  import opened Wrappers
  import opened Decimals
  import opened TextTools
  import opened XmlCodec

  const NIL_NAME := "{http://www.w3.org/2001/XMLSchema-instance}nil"
  const TYPE_NAME := "{http://www.w3.org/2001/XMLSchema-instance}type"

  // ---------- Lexical spaces ----------

  /** The four blanks of XML. */
  predicate IsGap(c: char) {
    c == ' ' || c == '\t' || c == '\n' || c == '\r'
  }

  /** The text is `core` between blanks. */
  ghost predicate Within(text: string, core: string) {
    exists i, j :: 0 <= i <= j <= |text| && text[i..j] == core && Gaps(text, 0, i) && Gaps(text, j, |text|)
  }

  predicate Gaps(text: string, i: nat, j: nat)
    requires i <= j <= |text|
  {
    forall k :: i <= k < j ==> IsGap(text[k])
  }

  /** The words of a text, which blanks separate. */
  function Words(s: string): (r: seq<string>)
    ensures s != "" && !IsGap(s[0]) ==> r != []
  {
    if s == "" then []
    else if IsGap(s[0]) then Words(s[1..])
    else if |s| > 1 && !IsGap(s[1]) then [[s[0]] + Words(s[1..])[0]] + Words(s[1..])[1..]
    else [[s[0]]] + Words(s[1..])
  }

  /** Only single spaces, and only between words. */
  predicate Settled(s: string) {
    && (forall k :: 0 <= k < |s| && IsGap(s[k]) ==> s[k] == ' ')
    && (s != "" ==> !IsGap(s[0]) && !IsGap(s[|s| - 1]))
    && (forall k :: 0 <= k < |s| - 1 ==> !(IsGap(s[k]) && IsGap(s[k + 1])))
  }

  /** The text after treatment of its blanks, section 4.3.6 of XML Schema Part 2. */
  ghost predicate Treated(w: WhiteSpace, s: string, r: string) {
    match w
    case Preserve => r == s
    case Replace => |r| == |s| && forall k :: 0 <= k < |s| ==> r[k] == if IsGap(s[k]) then ' ' else s[k]
    case Collapse => Settled(r) && Words(r) == Words(s)
  }

  /** An optional sign and decimal digits. */
  ghost predicate Integral(s: string, n: int) {
    || (s != "" && Numeral(s, 10) && n == PlaceValue(s, 10))
    || (|s| > 1 && s[0] == '+' && Numeral(s[1..], 10) && n == PlaceValue(s[1..], 10))
    || (|s| > 1 && s[0] == '-' && Numeral(s[1..], 10) && -n == PlaceValue(s[1..], 10))
  }

  /** The value that a text stands for in each kind. */
  ghost predicate Denotes(kind: Kind, text: string, v: Value) {
    match kind
    case String => v.Str? && Treated(Preserve, text, v.s)
    case NormalizedString => v.Str? && Treated(Replace, text, v.s)
    case TokenKind => v.Str? && Treated(Collapse, text, v.s)
    case AnyURI => v.Str? && Treated(Collapse, text, v.s)
    case Boolean =>
      v.Bool? && if v.b then Within(text, "true") || Within(text, "1") else Within(text, "false") || Within(text, "0")
    case Int32 => v.Int? && -2147483648 <= v.n <= 2147483647 && exists core :: Within(text, core) && Integral(core, v.n)
    case UInt32 => v.Int? && 0 <= v.n <= 4294967295 && exists core :: Within(text, core) && Integral(core, v.n)
    case OtherKind => false
  }

  // ---------- Stripping and numbers ----------

  lemma {:induction false} StripCuts(s: string) returns (i: nat, j: nat)
    ensures i <= j <= |s| && Strip(s, XML_SPACE) == s[i..j] && Gaps(s, 0, i) && Gaps(s, j, |s|)
    ensures i < j ==> !IsGap(s[i]) && !IsGap(s[j - 1])
  {
    i := LeftCuts(s, XML_SPACE);
    var rest := s[i..];
    var m := RightCuts(rest, XML_SPACE);
    j := i + m;
    assert rest[..m] == s[i..j];
    forall k | j <= k < |s| ensures IsGap(s[k]) {
      assert rest[k - i] == s[k];
    }
    if m > 0 {
      assert rest[0] == s[i] && rest[m - 1] == s[j - 1];
      assert rest != "";
    }
  }

  /** A core without blanks at its ends is what stripping leaves. */
  lemma WithinIsStrip(text: string, core: string)
    requires core != "" && !IsGap(core[0]) && !IsGap(core[|core| - 1])
    ensures Within(text, core) <==> Strip(text, XML_SPACE) == core
  {
    hide Strip;
    var i, j := StripCuts(text);
    if a, b :| 0 <= a <= b <= |text| && text[a..b] == core && Gaps(text, 0, a) && Gaps(text, b, |text|) {
      assert text[a] == core[0] && text[b - 1] == core[|core| - 1];
      assert i <= a && b <= j && i < j;
      assert a <= i && j <= b;
    }
  }

  lemma IntegralEnds(core: string, n: int)
    requires Integral(core, n)
    ensures core != "" && !IsGap(core[0]) && !IsGap(core[|core| - 1])
  {
    hide IsFigure, IsGap, PlaceValue;
    FigureIsNoGap(core[0]);
    FigureIsNoGap(core[|core| - 1]);
    if !Numeral(core, 10) {
      assert core[1..][|core| - 2] == core[|core| - 1];
    }
    assert IsFigure(core[|core| - 1], 10);
  }

  lemma FigureIsNoGap(c: char)
    ensures IsFigure(c, 10) || c in {'+', '-'} ==> !IsGap(c)
  {
  }

  lemma ParseIsIntegral(s: string, n: int)
    ensures ParseInt(s) == Ok(n) <==> Integral(s, n)
  {
    hide IsFigure;
    var signed := s != [] && s[0] in {'+', '-'};
    var digits := if signed then s[1..] else s;
    DecimalIsPlaceValue(digits);
    if signed {
      SignIsNoFigure(s);
    }
  }

  lemma SignIsNoFigure(s: string)
    requires s != "" && s[0] in {'+', '-'}
    ensures !Numeral(s, 10)
  {
    assert !IsFigure(s[0], 10);
  }

  lemma IntegerMeans(text: string, n: int)
    ensures ParseInt(Strip(text, XML_SPACE)) == Ok(n) <==> exists core :: Within(text, core) && Integral(core, n)
  {
    hide Strip, ParseInt, Within, Integral;
    var core := Strip(text, XML_SPACE);
    ParseIsIntegral(core, n);
    if Integral(core, n) {
      IntegralEnds(core, n);
      WithinIsStrip(text, core);
    }
    if other :| Within(text, other) && Integral(other, n) {
      IntegralEnds(other, n);
      WithinIsStrip(text, other);
    }
  }

  // ---------- Blanks ----------

  lemma {:induction false} ReplacedAt(s: string)
    ensures |Replaced(s)| == |s|
    ensures forall k :: 0 <= k < |s| ==> Replaced(s)[k] == if IsGap(s[k]) then ' ' else s[k]
    decreases |s|
  {
    if s != "" {
      ReplacedAt(s[1..]);
    }
  }

  lemma {:induction false} SameWords(s: string, t: string)
    requires |s| == |t| && forall k :: 0 <= k < |s| ==> t[k] == if IsGap(s[k]) then ' ' else s[k]
    ensures Words(t) == Words(s)
    decreases |s|
  {
    if s != "" {
      SameWords(s[1..], t[1..]);
    }
  }

  /** Only spaces are blanks. */
  predicate Plain(s: string) {
    forall k :: 0 <= k < |s| && IsGap(s[k]) ==> s[k] == ' '
  }

  lemma {:induction false} SqueezedKeeps(s: string)
    requires Plain(s)
    ensures Words(Squeezed(s)) == Words(s) && Plain(Squeezed(s)) && (Squeezed(s) == "" <==> s == "")
    ensures s != "" ==> Squeezed(s)[0] == s[0]
    ensures forall k :: 0 <= k < |Squeezed(s)| - 1 ==> !(IsGap(Squeezed(s)[k]) && IsGap(Squeezed(s)[k + 1]))
    decreases |s|
  {
    if s != "" {
      SqueezedKeeps(s[1..]);
      var t, rest := Squeezed(s), Squeezed(s[1..]);
      if !(s[0] == ' ' && |s| > 1 && s[1] == ' ') {
        assert t == [s[0]] + rest && t[1..] == rest;
        assert |s| > 1 ==> rest[0] == s[1];
        forall k | 0 <= k < |t| - 1 ensures !(IsGap(t[k]) && IsGap(t[k + 1])) {
          if k > 0 {
            assert t[k] == rest[k - 1] && t[k + 1] == rest[k];
          }
        }
      }
    }
  }

  lemma {:induction false} LeadingGaps(s: string, i: nat)
    requires i <= |s| && Gaps(s, 0, i)
    ensures Words(s[i..]) == Words(s)
    decreases i
  {
    if i > 0 {
      assert s[1..][i - 1..] == s[i..];
      LeadingGaps(s[1..], i - 1);
    } else {
      assert s[0..] == s;
    }
  }

  lemma {:induction false} TrailingGaps(s: string, j: nat)
    requires j <= |s| && Gaps(s, j, |s|)
    ensures Words(s[..j]) == Words(s)
    decreases |s|
  {
    if j == 0 {
      LeadingGaps(s, |s|);
      assert s[|s|..] == "" && s[..0] == "";
    } else {
      TrailingGaps(s[1..], j - 1);
      assert s[1..][..j - 1] == s[..j][1..];
    }
  }

  lemma CollapsedMeans(s: string)
    requires Plain(s)
    ensures Settled(Collapsed(s)) && Words(Collapsed(s)) == Words(s)
  {
    hide Squeezed, Words;
    SqueezedKeeps(s);
    var t := Squeezed(s);
    var i := LeftCuts(t, {' '});
    var rest := t[i..];
    var m := RightCuts(rest, {' '});
    LeadingGaps(t, i);
    TrailingGaps(rest, m);
    var r := Collapsed(s);
    assert r == rest[..m] == t[i..i + m];
    if m > 0 {
      assert r[0] == rest[0] == t[i] && r[|r| - 1] == rest[m - 1] == t[i + m - 1];
    }
  }

  function Joined(words: seq<string>): string {
    if words == [] then "" else if |words| == 1 then words[0] else words[0] + " " + Joined(words[1..])
  }

  /** A settled text is its words with single spaces between. */
  lemma {:induction false} SettledIsJoined(s: string)
    requires Settled(s)
    ensures s == Joined(Words(s))
    decreases |s|
  {
    hide Settled, Words, Joined;
    if |s| <= 1 {
      ShortIsJoined(s);
    } else if IsGap(s[1]) {
      SettledRest(s);
      SettledIsJoined(s[2..]);
      NextWord(s);
    } else {
      SettledRest(s);
      SettledIsJoined(s[1..]);
      SameWord(s);
    }
  }

  lemma ShortIsJoined(s: string)
    requires Settled(s) && |s| <= 1
    ensures s == Joined(Words(s))
  {
    if |s| == 1 {
      assert Words(s[1..]) == [];
    }
  }

  lemma SettledRest(s: string)
    requires Settled(s) && |s| > 1
    ensures IsGap(s[1]) ==> |s| > 2 && s[1] == ' ' && !IsGap(s[2]) && Settled(s[2..])
    ensures !IsGap(s[1]) ==> Settled(s[1..])
    ensures !IsGap(s[0])
  {
    if IsGap(s[1]) {
      assert |s| > 2;
      assert s[2..][|s| - 3] == s[|s| - 1];
    }
  }

  lemma NextWord(s: string)
    requires |s| > 2 && !IsGap(s[0]) && s[1] == ' ' && !IsGap(s[2]) && s[2..] == Joined(Words(s[2..]))
    ensures s == Joined(Words(s))
  {
    hide Joined;
    var rest := Words(s[2..]);
    assert s[1..][1..] == s[2..];
    assert Words(s[1..]) == rest;
    assert Words(s) == [[s[0]]] + rest;
    JoinedWord([s[0]], rest);
    assert s == [s[0]] + " " + s[2..];
  }

  lemma JoinedWord(word: string, rest: seq<string>)
    requires rest != []
    ensures Joined([word] + rest) == word + " " + Joined(rest)
  {
    assert ([word] + rest)[1..] == rest;
  }

  lemma SameWord(s: string)
    requires |s| > 1 && !IsGap(s[0]) && !IsGap(s[1]) && s[1..] == Joined(Words(s[1..]))
    ensures s == Joined(Words(s))
  {
    hide Joined;
    var rest := Words(s[1..]);
    assert Words(s) == [[s[0]] + rest[0]] + rest[1..];
    JoinedLonger(s[0], rest);
    assert s == [s[0]] + s[1..];
  }

  lemma JoinedLonger(c: char, rest: seq<string>)
    requires rest != []
    ensures Joined([[c] + rest[0]] + rest[1..]) == [c] + Joined(rest)
  {
    var longer := [[c] + rest[0]] + rest[1..];
    assert longer[1..] == rest[1..];
    if |rest| > 1 {
      assert [c] + (rest[0] + " " + Joined(rest[1..])) == [c] + rest[0] + " " + Joined(rest[1..]);
    }
  }

  /** The treatment of blanks gives the text, and the only one, that means the same words. */
  lemma NormalizedIsTreated(s: string, w: WhiteSpace, r: string)
    ensures Normalized(s, w) == r <==> Treated(w, s, r)
  {
    hide Settled, Words, Collapsed;
    ReplacedAt(s);
    if w.Collapse? {
      SameWords(s, Replaced(s));
      CollapsedMeans(Replaced(s));
      if Treated(w, s, r) {
        SettledIsJoined(r);
        SettledIsJoined(Collapsed(Replaced(s)));
      }
    }
  }

  // ---------- The primitive kinds ----------

  /** For every text and value, the decoder takes the text for the value exactly when it denotes it. */
  lemma PrimitiveIsDenoted(kind: Kind, text: string, v: Value)
    ensures Primitive(kind, Str(text), true) == Ok(v) <==> Denotes(kind, text, v)
  {
    hide Treated, Normalized, Strip, ParseInt, Within, Integral;
    if v.Str? {
      NormalizedIsTreated(text, Preserve, v.s);
      NormalizedIsTreated(text, Replace, v.s);
      NormalizedIsTreated(text, Collapse, v.s);
    }
    if v.Bool? {
      WithinIsStrip(text, "true");
      WithinIsStrip(text, "1");
      WithinIsStrip(text, "false");
      WithinIsStrip(text, "0");
    }
    if v.Int? {
      IntegerMeans(text, v.n);
    }
  }

  // ---------- Aliases ----------

  /** The type that a chain of `n` aliases leads to. */
  function Follow(reg: Registry, t: Type, n: nat): Option<Type>
    decreases n
  {
    if n == 0 then (if t.Ref? then None else Some(t))
    else if t.Ref? && t.key in reg then Follow(reg, reg[t.key], n - 1)
    else None
  }

  /** The type is, or is an alias at some remove of, `d`, which is no alias. */
  ghost predicate StandsFor(reg: Registry, t: Type, d: Type) {
    exists n: nat :: Follow(reg, t, n) == Some(d)
  }

  lemma {:induction false} FollowOnce(reg: Registry, t: Type, n: nat, m: nat)
    requires Follow(reg, t, n).Some? && Follow(reg, t, m).Some?
    ensures n == m
    decreases n
  {
    if n > 0 && m > 0 {
      FollowOnce(reg, reg[t.key], n - 1, m - 1);
    }
  }

  /** The aliases on the way are none of `visited`. */
  predicate Avoids(reg: Registry, t: Type, n: nat, visited: set<string>)
    decreases n
  {
    n > 0 && t.Ref? && t.key in reg ==> t.key !in visited && Avoids(reg, reg[t.key], n - 1, visited)
  }

  /** A chain that ends never comes back to an alias. */
  lemma {:induction false} NeverAgain(reg: Registry, t: Type, n: nat, key: string, m: nat, visited: set<string>)
    requires Follow(reg, Ref(key), m).Some? && n < m && Follow(reg, t, n).Some? && Avoids(reg, t, n, visited)
    ensures Avoids(reg, t, n, visited + {key})
    decreases n
  {
    if n > 0 {
      if t.key == key {
        FollowOnce(reg, t, n, m);
      }
      NeverAgain(reg, reg[t.key], n - 1, key, m, visited);
    }
  }

  lemma {:induction false} AvoidsNone(reg: Registry, t: Type, n: nat)
    ensures Avoids(reg, t, n, {})
    decreases n
  {
    if n > 0 && t.Ref? && t.key in reg {
      AvoidsNone(reg, reg[t.key], n - 1);
    }
  }

  lemma {:induction false} ResolvesAlong(reg: Registry, t: Type, n: nat, visited: set<string>)
    requires Follow(reg, t, n).Some? && Avoids(reg, t, n, visited)
    ensures Resolve(reg, t, visited) == Ok(Follow(reg, t, n).value)
    decreases n
  {
    if n > 0 {
      NeverAgain(reg, reg[t.key], n - 1, t.key, n, visited);
      ResolvesAlong(reg, reg[t.key], n - 1, visited + {t.key});
    }
  }

  lemma {:induction false} ResolvedFollows(reg: Registry, t: Type, visited: set<string>)
    requires Resolve(reg, t, visited).Ok?
    ensures StandsFor(reg, t, Resolve(reg, t, visited).value)
    decreases reg.Keys - visited
  {
    if t.Ref? {
      ResolvedFollows(reg, reg[t.key], visited + {t.key});
      var d := Resolve(reg, t, visited).value;
      var n: nat :| Follow(reg, reg[t.key], n) == Some(d);
      assert Follow(reg, t, n + 1) == Some(d);
    } else {
      assert Follow(reg, t, 0) == Some(t);
    }
  }

  /** Resolving finds the end of the chain of aliases, and fails exactly when there is none. */
  lemma ResolveStandsFor(reg: Registry, t: Type, d: Type)
    ensures Resolve(reg, t, {}) == Ok(d) <==> StandsFor(reg, t, d)
  {
    if Resolve(reg, t, {}).Ok? {
      ResolvedFollows(reg, t, {});
    }
    if n: nat :| Follow(reg, t, n) == Some(d) {
      AvoidsNone(reg, t, n);
      ResolvesAlong(reg, t, n, {});
    }
  }

  // ---------- Restrictions ----------

  /** The value a text stands for in a simple type. */
  ghost predicate Means(reg: Registry, t: Type, text: string, v: Value, stack: nat)
    decreases stack, 0
  {
    && stack > 0
    && exists d :: && StandsFor(reg, t, d)
                   && (if d.Scalar? then Denotes(d.kind, text, v)
                       else d.Restriction? && MeansRestricted(reg, d.base, d.facets, text, v, stack - 1))
  }

  /** The value a text stands for in a restriction of `base`. */
  ghost predicate MeansRestricted(reg: Registry, base: Type, facets: Facets, text: string, v: Value, stack: nat)
    decreases stack, 3
  {
    && !facets.unsupported
    && (exists u :: Means(reg, base, text, u, stack) && Restricts(facets, u, v))
    && (facets.enumeration.Some? ==> Enumerates(reg, base, facets.enumeration.value, v, stack))
  }

  /** Treating the blanks of `u` gives `v`, whose length keeps the bounds. */
  ghost predicate Restricts(facets: Facets, u: Value, v: Value) {
    && (facets.whiteSpace.None? ==> v == u)
    && (facets.whiteSpace.Some? ==> u.Str? && v.Str? && Treated(facets.whiteSpace.value, u.s, v.s))
    && (facets.length.Some? ==> v.Str? && |v.s| == facets.length.value)
    && (facets.minLength.Some? ==> v.Str? && facets.minLength.value <= |v.s|)
    && (facets.maxLength.Some? ==> v.Str? && |v.s| <= facets.maxLength.value)
  }

  /** All listed texts stand for something, one of them for the value. */
  ghost predicate Enumerates(reg: Registry, base: Type, lexicals: seq<string>, v: Value, stack: nat)
    decreases stack, 2
  {
    && (forall k :: 0 <= k < |lexicals| ==> Meaningful(reg, base, lexicals[k], stack))
    && (exists k :: 0 <= k < |lexicals| && Means(reg, base, lexicals[k], v, stack))
  }

  ghost predicate Meaningful(reg: Registry, t: Type, text: string, stack: nat)
    decreases stack, 1
  {
    exists u :: Means(reg, t, text, u, stack)
  }

  lemma WhitespaceTreats(u: Value, w: WhiteSpace, v: Value)
    ensures Whitespace(u, w, true) == Ok(v) <==> u.Str? && v.Str? && Treated(w, u.s, v.s)
  {
    hide Normalized, Treated;
    if u.Str? && v.Str? {
      NormalizedIsTreated(u.s, w, v.s);
    }
  }

  /** Every scalar type, restrictions and enumerations included, reads a text as the value it stands for. */
  lemma {:induction false} ScalarIsMeant(reg: Registry, t: Type, text: string, v: Value, stack: nat)
    ensures ScalarOf(reg, t, Str(text), true, stack) == Ok(v) <==> Means(reg, t, text, v, stack)
    decreases stack, 3
  {
    if stack > 0 {
      hide ScalarOf, Means, Denotes, Primitive, MeansRestricted, Restricted;
      var d := Resolve(reg, t, {});
      ScalarCases(reg, t, Str(text), stack);
      MeansCases(reg, t, text, v, stack);
      if d.Ok? && d.value.Scalar? {
        PrimitiveIsDenoted(d.value.kind, text, v);
      }
      if d.Ok? && d.value.Restriction? {
        RestrictionIsMeant(reg, d.value.base, d.value.facets, text, v, stack - 1);
      }
    }
  }

  lemma ScalarCases(reg: Registry, t: Type, v: Value, stack: nat)
    requires stack > 0 && v.Str?
    ensures ScalarOf(reg, t, v, true, stack) ==
            match Resolve(reg, t, {})
            case Ok(Scalar(kind)) => Primitive(kind, v, true)
            case Ok(Restriction(base, facets)) => Restricted(reg, base, facets, v.s, stack - 1)
            case _ => Err
  {
    hide Primitive, Resolve, Whitespace, HasLength, Fits, Alternatives;
  }

  lemma MeansCases(reg: Registry, t: Type, text: string, v: Value, stack: nat)
    requires stack > 0
    ensures Means(reg, t, text, v, stack) <==>
            match Resolve(reg, t, {})
            case Ok(Scalar(kind)) => Denotes(kind, text, v)
            case Ok(Restriction(base, facets)) => MeansRestricted(reg, base, facets, text, v, stack - 1)
            case _ => false
  {
    hide Denotes, Resolve, StandsFor, MeansRestricted;
    forall d
      ensures Resolve(reg, t, {}) == Ok(d) <==> StandsFor(reg, t, d)
    {
      ResolveStandsFor(reg, t, d);
    }
  }

  function Restricted(reg: Registry, base: Type, facets: Facets, text: string, stack: nat): Result<Value> {
    var v :- ScalarOf(reg, base, Str(text), true, stack);
    if facets.unsupported then Err
    else
      var w :- if facets.whiteSpace.Some? then Whitespace(v, facets.whiteSpace.value, true) else Ok(v);
      if HasLength(facets) && !(w.Str? && Fits(facets, |w.s|)) then Err
      else if facets.enumeration.None? then Ok(w)
      else
        var alternatives :- Alternatives(reg, base, facets.enumeration.value, stack);
        if w in alternatives then Ok(w) else Err
  }

  lemma {:induction false} RestrictionIsMeant(reg: Registry, base: Type, facets: Facets, text: string, v: Value,
                                              stack: nat)
    ensures Restricted(reg, base, facets, text, stack) == Ok(v) <==>
            MeansRestricted(reg, base, facets, text, v, stack)
    decreases stack, 7
  {
    hide Means, ScalarOf, Whitespace, Treated, Alternatives, Enumerates;
    forall u
      ensures ScalarOf(reg, base, Str(text), true, stack) == Ok(u) <==> Means(reg, base, text, u, stack)
    {
      ScalarIsMeant(reg, base, text, u, stack);
    }
    var r := ScalarOf(reg, base, Str(text), true, stack);
    if r.Ok? && facets.whiteSpace.Some? {
      WhitespaceTreats(r.value, facets.whiteSpace.value, v);
    }
    if facets.enumeration.Some? {
      AlternativesAreMeant(reg, base, facets.enumeration.value, v, stack);
    }
  }

  lemma {:induction false} AlternativesAreMeant(reg: Registry, base: Type, lexicals: seq<string>, v: Value, stack: nat)
    ensures var r := Alternatives(reg, base, lexicals, stack);
            r.Ok? && v in r.value <==> Enumerates(reg, base, lexicals, v, stack)
    decreases stack, 6
  {
    hide Means, ScalarOf;
    AllMeant(reg, base, lexicals, stack);
    forall k | 0 <= k < |lexicals|
      ensures Means(reg, base, lexicals[k], v, stack) <==> ScalarOf(reg, base, Str(lexicals[k]), true, stack) == Ok(v)
    {
      ScalarIsMeant(reg, base, lexicals[k], v, stack);
    }
  }

  lemma {:induction false} FirstMeant(reg: Registry, base: Type, text: string, stack: nat)
    ensures ScalarOf(reg, base, Str(text), true, stack).Ok? <==> Meaningful(reg, base, text, stack)
    decreases stack, 4
  {
    hide Means, ScalarOf;
    forall u
      ensures ScalarOf(reg, base, Str(text), true, stack) == Ok(u) <==> Means(reg, base, text, u, stack)
    {
      ScalarIsMeant(reg, base, text, u, stack);
    }
    assert ScalarOf(reg, base, Str(text), true, stack).Ok? ==>
        ScalarOf(reg, base, Str(text), true, stack) == Ok(ScalarOf(reg, base, Str(text), true, stack).value);
  }

  lemma {:induction false} AllMeant(reg: Registry, base: Type, lexicals: seq<string>, stack: nat)
    ensures var r := Alternatives(reg, base, lexicals, stack);
            && (r.Ok? <==> forall k :: 0 <= k < |lexicals| ==> Meaningful(reg, base, lexicals[k], stack))
            && (r.Ok? ==> && |r.value| == |lexicals|
                          && forall k :: 0 <= k < |lexicals| ==>
                               Ok(r.value[k]) == ScalarOf(reg, base, Str(lexicals[k]), true, stack))
    decreases stack, 5, |lexicals|
  {
    hide Means, ScalarOf, Meaningful;
    if lexicals != [] {
      AllMeant(reg, base, lexicals[1..], stack);
      var first := ScalarOf(reg, base, Str(lexicals[0]), true, stack);
      FirstMeant(reg, base, lexicals[0], stack);
      assert forall k :: 1 <= k < |lexicals| ==> lexicals[k] == lexicals[1..][k - 1];
      assert forall k :: 0 <= k < |lexicals| - 1 ==> lexicals[1..][k] == lexicals[k + 1];
    }
  }

  // ---------- Writing ----------

  /** The text that is written for a value: `true` or `false`, a number without a plus sign or needless zeros, and a
      string as it is. */
  ghost predicate Spells(v: Value, text: string) {
    match v
    case Bool(b) => text == if b then "true" else "false"
    case Int(n) =>
      && Integral(text, n) && text[0] != '+'
      && (n == 0 ==> text == "0") && (n > 0 ==> text[0] != '0') && (n < 0 ==> |text| > 1 && text[1] != '0')
    case Str(s) => text == s
    case _ => false
  }

  lemma {:induction false} NoNeedlessZero(n: nat)
    ensures Digits(n) != "" && (n > 0 ==> Digits(n)[0] != '0') && (n == 0 ==> Digits(n) == "0")
  {
    if n >= 10 {
      NoNeedlessZero(n / 10);
    } else {
      var c := '0' + n as char;
      assert (c as int) == 48 + n;
      assert Digits(n) == [c];
    }
  }

  lemma LexicalSpells(v: Value)
    requires v.Bool? || v.Int? || v.Str?
    ensures Spells(v, Lexical(v))
  {
    if v.Int? {
      hide Digits, Integral, ParseInt;
      ShowParses(v.n);
      ParseIsIntegral(Show(v.n), v.n);
      NoNeedlessZero(if v.n < 0 then -v.n else v.n);
      DigitsBack(if v.n < 0 then -v.n else v.n);
    }
  }

  /** Treating blanks only replaces them by spaces or drops them. */
  predicate Reduces(s: string, r: string) {
    |r| < |s| || (|r| == |s| && forall k :: 0 <= k < |s| ==> r[k] == s[k] || r[k] == ' ')
  }

  lemma ReducesBack(s: string, r: string, t: string)
    requires Reduces(s, r) && Reduces(r, t)
    ensures Reduces(s, t) && (t == s ==> r == s)
  {
    if |s| == |t| {
      forall k | 0 <= k < |s|
        ensures (t[k] == s[k] || t[k] == ' ') && (t == s ==> r[k] == s[k])
      {
        assert r[k] == s[k] || r[k] == ' ';
        assert t[k] == r[k] || t[k] == ' ';
      }
    }
  }

  lemma {:induction false} SqueezedReduces(s: string)
    ensures Reduces(s, Squeezed(s))
    decreases |s|
  {
    if s != "" {
      SqueezedReduces(s[1..]);
    }
  }

  lemma NormalizedReduces(s: string, w: WhiteSpace)
    ensures Reduces(s, Normalized(s, w))
  {
    ReplacedAt(s);
    hide Squeezed, Replaced;
    if w.Collapse? {
      var t := Replaced(s);
      SqueezedReduces(t);
      var u := Squeezed(t);
      var i := LeftCuts(u, {' '});
      var m := RightCuts(u[i..], {' '});
      assert Collapsed(t) == u[i..][..m];
      ReducesBack(t, u, Collapsed(t));
      ReducesBack(s, t, Collapsed(t));
    }
  }

  /** What is read from a text as a string is the text with blanks replaced or dropped. */
  lemma {:induction false} ScalarReduces(reg: Registry, t: Type, text: string, v: Value, stack: nat)
    requires ScalarOf(reg, t, Str(text), true, stack) == Ok(v) && v.Str?
    ensures Reduces(text, v.s)
    decreases stack
  {
    hide Normalized, Reduces, Resolve, Alternatives, HasLength, Fits, ParseInt, Strip;
    match Resolve(reg, t, {}).value
    case Scalar(kind) =>
      NormalizedReduces(text, Preserve);
      NormalizedReduces(text, Replace);
      NormalizedReduces(text, Collapse);
    case Restriction(base, facets) =>
      var u := ScalarOf(reg, base, Str(text), true, stack - 1).value;
      if u.Str? {
        ScalarReduces(reg, base, text, u, stack - 1);
        if facets.whiteSpace.Some? {
          NormalizedReduces(u.s, facets.whiteSpace.value);
          ReducesBack(text, u.s, v.s);
        }
      }
    case _ =>
  }

  lemma PrimitiveWrites(kind: Kind, v: Value)
    requires Primitive(kind, Str(Lexical(v)), true) == Ok(v)
    ensures Primitive(kind, v, false) == Ok(v)
  {
    hide Strip, ParseInt, Normalized;
  }

  lemma {:induction false} ReadBackWrites(reg: Registry, t: Type, v: Value, stack: nat)
    requires ScalarOf(reg, t, Str(Lexical(v)), true, stack) == Ok(v)
    ensures ScalarOf(reg, t, v, false, stack) == Ok(v)
    decreases stack
  {
    hide Normalized, Resolve, Alternatives, HasLength, Fits, Primitive;
    match Resolve(reg, t, {}).value
    case Scalar(kind) => PrimitiveWrites(kind, v);
    case Restriction(base, facets) =>
      var u := ScalarOf(reg, base, Str(Lexical(v)), true, stack - 1).value;
      if facets.whiteSpace.Some? {
        ScalarReduces(reg, base, Lexical(v), u, stack - 1);
        NormalizedReduces(u.s, facets.whiteSpace.value);
        ReducesBack(v.s, u.s, v.s);
      }
      assert u == v;
      ReadBackWrites(reg, base, v, stack - 1);
    case _ =>
  }

  /** A value is accepted for writing exactly when a text that spells it stands for it, and it is written unchanged. */
  lemma WritableIsMeant(reg: Registry, t: Type, v: Value, stack: nat)
    ensures ScalarOf(reg, t, v, false, stack).Ok? <==>
            exists text :: Spells(v, text) && Means(reg, t, text, v, stack)
    ensures ScalarOf(reg, t, v, false, stack).Ok? ==>
              && ScalarOf(reg, t, v, false, stack) == Ok(v) && Spells(v, Lexical(v))
              && Means(reg, t, Lexical(v), v, stack)
  {
    hide ScalarOf, Means, Spells;
    if ScalarOf(reg, t, v, false, stack).Ok? {
      ScalarRoundTrip(reg, t, v, stack);
      ScalarIsMeant(reg, t, Lexical(v), v, stack);
      ScalarIsScalar(reg, t, Lexical(v), v, stack);
      LexicalSpells(v);
    }
    if text :| Spells(v, text) && Means(reg, t, text, v, stack) {
      SpelledOnce(v, text);
      ScalarIsMeant(reg, t, text, v, stack);
      ReadBackWrites(reg, t, v, stack);
    }
  }

  lemma {:induction false} ScalarIsScalar(reg: Registry, t: Type, text: string, v: Value, stack: nat)
    requires ScalarOf(reg, t, Str(text), true, stack) == Ok(v)
    ensures v.Bool? || v.Int? || v.Str?
    decreases stack
  {
    hide Normalized, Resolve, Alternatives, HasLength, Fits, Strip, ParseInt;
    match Resolve(reg, t, {}).value
    case Restriction(base, facets) =>
      ScalarIsScalar(reg, base, text, ScalarOf(reg, base, Str(text), true, stack - 1).value, stack - 1);
    case _ =>
  }

  /** No other text spells the value. */
  lemma SpelledOnce(v: Value, text: string)
    requires Spells(v, text)
    ensures text == Lexical(v)
  {
    if v.Int? {
      hide Digits, Integral, Numeral, PlaceValue;
      MinusFirst(text, v.n);
      if v.n > 0 {
        NumeralOnce(text, v.n);
      } else if v.n < 0 {
        assert text[1..][0] == text[1];
        NumeralOnce(text[1..], -v.n);
        assert text == "-" + text[1..];
      } else {
        NoNeedlessZero(0);
      }
    }
  }

  lemma MinusFirst(text: string, n: int)
    requires Integral(text, n) && text[0] != '+'
    ensures n < 0 ==> text[0] == '-' && Numeral(text[1..], 10) && PlaceValue(text[1..], 10) == -n
    ensures n > 0 && text[0] != '-' ==> Numeral(text, 10) && PlaceValue(text, 10) == n
    ensures n > 0 ==> text[0] != '-'
  {
    hide Numeral, PlaceValue;
    if text[0] in {'+', '-'} {
      SignIsNoFigure(text);
    }
  }
}
