/** Concrete syntax: every spelling of an accepted pattern as a tree of its own, with its text and its
    meaning. The parser accepts exactly these texts and returns exactly these meanings. */
module RegexSyntax {
  import opened Wrappers
  import T = RegexTree
  import opened RegexParse
  import opened Decimals
  import opened TextTools

  datatype Lead = Four(digits: string) | Braced(digits: string)

  /** One character, written as itself, behind a backslash, as a control letter or as a scalar. */
  datatype Spelling = Raw(c: char) | Escaped(c: char) | Letter(c: char) | Scalar(lead: Lead, trail: Option<string>)

  datatype Symbol = Exact(s: Spelling) | Short(letter: char)

  datatype ClassPart = Single(s: Symbol) | Span(lo: Spelling, hi: Spelling)

  datatype Mark = Star | Plus | Opt | Exactly(d: string) | AtLeast(d: string) | Bounded(lo: string, hi: string)

  datatype Quant = Quant(mark: Mark, lazy: bool)

  datatype Node =
    | Sym(s: Symbol)
    | Any
    | AtStart
    | AtEnd
    | Set(negated: bool, parts: seq<ClassPart>)
    | Grouped(capturing: bool, branches: seq<Branch>)

  datatype Factor = Factor(node: Node, quant: Option<Quant>)

  datatype Branch = Branch(factors: seq<Factor>)

  // ---------- The tables of the syntax ----------

  /** The characters that a backslash makes literal. */
  const SPECIAL: set<char> := {
    '^', '$', '\\', '.', '*', '+', '?', '(', ')', '[', ']', '{', '}', '|', '/', '-'}

  /** Line feed, carriage return, tab, form feed and vertical tab. */
  const CONTROLS: map<char, int> := map['n' := 10, 'r' := 13, 't' := 9, 'f' := 12, 'v' := 11]

  const SHORTS: map<char, T.Predicate> :=
    map['d' := T.Digit, 'D' := T.Not(T.Digit), 'w' := T.Word, 'W' := T.Not(T.Word)]

  /** Code units come in blocks of 1024; blocks 54 and 55 are the two halves of pairs. */
  predicate High(n: nat) { 54 * 1024 <= n < 55 * 1024 }

  predicate Low(n: nat) { 55 * 1024 <= n < 56 * 1024 }

  predicate CodePoint(n: nat) { n < 17 * 65536 && !High(n) && !Low(n) }

  function Joining(high: nat, low: nat): nat
    requires High(high) && Low(low)
  {
    65536 + 1024 * (high - 54 * 1024) + (low - 55 * 1024)
  }

  /** The number that hexadecimal digits write. */
  function Code(s: string): nat { if Numeral(s, 16) then PlaceValue(s, 16) else 0 }

  lemma TablesAgree(c: char)
    ensures IsSyntax(c) <==> c in SPECIAL
    ensures Control(c).Some? <==> c in CONTROLS
    ensures Control(c).Some? ==> Control(c).value as int == CONTROLS[c]
    ensures Shorthand(c) == if c in SHORTS then Some(SHORTS[c]) else None
  {
  }

  lemma UnitsAgree(n: nat)
    ensures (High(n) <==> IsLead(n)) && (Low(n) <==> IsTrail(n)) && (CodePoint(n) <==> IsScalar(n))
  {
  }

  lemma CodeAgrees(s: string)
    ensures (Numeral(s, 16) <==> IsHex(s)) && (IsHex(s) ==> Code(s) == Hex(s))
  {
    hide IsHex, Hex, PlaceValue;
    HexIsPlaceValue(s);
  }

  lemma ValueAgrees(s: string)
    ensures (Numeral(s, 10) <==> IsDecimal(s)) && (IsDecimal(s) ==> Value(s) == Decimal(s))
  {
    hide IsDecimal, Decimal, PlaceValue;
    DecimalIsPlaceValue(s);
  }

  // ---------- Texts ----------

  function SpellLead(l: Lead): string {
    match l
    case Four(d) => d
    case Braced(d) => "{" + d + "}"
  }

  function SpellChar(s: Spelling): string {
    match s
    case Raw(c) => [c]
    case Escaped(c) => ['\\', c]
    case Letter(c) => ['\\', c]
    case Scalar(lead, trail) => "\\u" + SpellLead(lead) + if trail.Some? then "\\u" + trail.value else ""
  }

  function SpellSymbol(s: Symbol): string {
    match s
    case Exact(e) => SpellChar(e)
    case Short(letter) => ['\\', letter]
  }

  function SpellPart(p: ClassPart): string {
    match p
    case Single(s) => SpellSymbol(s)
    case Span(lo, hi) => SpellChar(lo) + ("-" + SpellChar(hi))
  }

  function SpellParts(parts: seq<ClassPart>): string {
    if parts == [] then "" else SpellPart(parts[0]) + SpellParts(parts[1..])
  }

  function SpellMark(m: Mark): string {
    match m
    case Star => "*"
    case Plus => "+"
    case Opt => "?"
    case Exactly(d) => "{" + (d + "}")
    case AtLeast(d) => "{" + (d + ",}")
    case Bounded(lo, hi) => "{" + (lo + ("," + (hi + "}")))
  }

  function SpellQuant(q: Option<Quant>): string {
    if q.None? then "" else SpellMark(q.value.mark) + if q.value.lazy then "?" else ""
  }

  function SpellNode(n: Node): string
    decreases n, 0
  {
    match n
    case Sym(s) => SpellSymbol(s)
    case Any => "."
    case AtStart => "^"
    case AtEnd => "$"
    case Set(negated, parts) => (if negated then "[^" else "[") + (SpellParts(parts) + "]")
    case Grouped(capturing, branches) => (if capturing then "(" else "(?:") + (SpellBranches(branches) + ")")
  }

  function SpellFactor(f: Factor): string
    decreases f, 0
  {
    SpellNode(f.node) + SpellQuant(f.quant)
  }

  function SpellFactors(fs: seq<Factor>): string
    decreases fs, 0
  {
    if fs == [] then "" else SpellFactor(fs[0]) + SpellFactors(fs[1..])
  }

  function SpellBranch(b: Branch): string
    decreases b, 0
  {
    SpellFactors(b.factors)
  }

  function SpellBranches(bs: seq<Branch>): string
    decreases bs, 0
  {
    if bs == [] then ""
    else if |bs| == 1 then SpellBranch(bs[0])
    else SpellBranch(bs[0]) + ("|" + SpellBranches(bs[1..]))
  }

  // ---------- Which trees are well formed ----------

  predicate ValidDigits(d: string) { 1 <= |d| <= 4 && Numeral(d, 10) }

  predicate ValidLead(l: Lead) {
    Numeral(l.digits, 16) && if l.Four? then |l.digits| == 4 else 1 <= |l.digits| <= 6
  }

  predicate ValidChar(s: Spelling, inClass: bool) {
    match s
    case Raw(c) =>
      if inClass then c !in {'\\', ']'}
      else c !in {'(', '|', ')', '[', '\\', '.', '^', '$', '*', '+', '?', '{', '}', ']'}
    case Escaped(c) => c in SPECIAL && (c == '-' ==> inClass)
    case Letter(c) => c in CONTROLS
    case Scalar(lead, trail) =>
      && ValidLead(lead)
      && if trail.None? then CodePoint(Code(lead.digits))
         else High(Code(lead.digits)) && |trail.value| == 4 && Numeral(trail.value, 16) && Low(Code(trail.value))
  }

  predicate ValidSymbol(s: Symbol, inClass: bool) {
    match s
    case Exact(e) => ValidChar(e, inClass)
    case Short(letter) => letter in SHORTS
  }

  function FirstSymbol(p: ClassPart): Symbol {
    match p
    case Single(s) => s
    case Span(lo, _) => Exact(lo)
  }

  predicate ValidPart(p: ClassPart) {
    && ValidSymbol(FirstSymbol(p), true)
    && (p.Span? ==> ValidChar(p.hi, true) && MeanChar(p.lo) <= MeanChar(p.hi))
  }

  predicate StartsWith(parts: seq<ClassPart>, c: char) {
    parts != [] && FirstSymbol(parts[0]) == Exact(Raw(c))
  }

  /** A bare hyphen after a single symbol is a literal only at the very end of the class. */
  predicate ValidParts(parts: seq<ClassPart>) {
    parts != [] ==>
      && ValidPart(parts[0])
      && (parts[0].Single? && StartsWith(parts[1..], '-') ==> parts[1..] == [Single(Exact(Raw('-')))])
      && ValidParts(parts[1..])
  }

  predicate ValidMark(m: Mark) {
    match m
    case Exactly(d) => ValidDigits(d)
    case AtLeast(d) => ValidDigits(d)
    case Bounded(lo, hi) => ValidDigits(lo) && ValidDigits(hi)
    case _ => true
  }

  predicate ValidQuant(q: Quant, maxRepeat: nat) {
    && ValidMark(q.mark)
    && var bounds := MeanMark(q.mark);
       if bounds.1.None? then bounds.0 <= maxRepeat else bounds.0 <= bounds.1.value <= maxRepeat
  }

  predicate ValidNode(n: Node, maxRepeat: nat)
    decreases n, 0
  {
    match n
    case Sym(s) => ValidSymbol(s, false)
    case Set(negated, parts) => ValidParts(parts) && (!negated ==> !StartsWith(parts, '^'))
    case Grouped(_, branches) => ValidBranches(branches, maxRepeat)
    case _ => true
  }

  predicate ValidFactor(f: Factor, maxRepeat: nat)
    decreases f, 0
  {
    && ValidNode(f.node, maxRepeat)
    && (f.quant.Some? ==> !f.node.AtStart? && !f.node.AtEnd? && ValidQuant(f.quant.value, maxRepeat))
  }

  predicate ValidFactors(fs: seq<Factor>, maxRepeat: nat)
    decreases fs, 0
  {
    fs != [] ==> ValidFactor(fs[0], maxRepeat) && ValidFactors(fs[1..], maxRepeat)
  }

  predicate ValidBranch(b: Branch, maxRepeat: nat)
    decreases b, 0
  {
    ValidFactors(b.factors, maxRepeat)
  }

  predicate ValidBranches(bs: seq<Branch>, maxRepeat: nat)
    decreases bs, 0
  {
    && bs != []
    && ValidBranch(bs[0], maxRepeat)
    && (|bs| > 1 ==> ValidBranches(bs[1..], maxRepeat))
  }

  // ---------- Meanings ----------

  function MeanChar(s: Spelling): char {
    match s
    case Raw(c) => c
    case Escaped(c) => c
    case Letter(c) => if c in CONTROLS then CONTROLS[c] as char else c
    case Scalar(lead, trail) =>
      if CodePoint(ScalarOf(lead, trail)) then ScalarOf(lead, trail) as char else '?'
  }

  /** The scalar that a lead, or a lead and its trail, denote. */
  function ScalarOf(lead: Lead, trail: Option<string>): nat
  {
    if trail.Some? && High(Code(lead.digits)) &&
        Low(Code(trail.value)) then Joining(Code(lead.digits), Code(trail.value))
    else Code(lead.digits)
  }

  function MeanSymbol(s: Symbol): T.Predicate {
    match s
    case Exact(e) => T.Literal(MeanChar(e))
    case Short(letter) => if letter in SHORTS then SHORTS[letter] else T.Dot
  }

  function MeanPart(p: ClassPart): T.Predicate {
    match p
    case Single(s) => MeanSymbol(s)
    case Span(lo, hi) => T.Range(MeanChar(lo), MeanChar(hi))
  }

  function MeanParts(parts: seq<ClassPart>): seq<T.Predicate> {
    if parts == [] then [] else [MeanPart(parts[0])] + MeanParts(parts[1..])
  }

  /** The number that decimal digits write. */
  function Value(d: string): nat { if Numeral(d, 10) then PlaceValue(d, 10) else 0 }

  function MeanMark(m: Mark): (nat, Option<nat>) {
    match m
    case Star => (0, None)
    case Plus => (1, None)
    case Opt => (0, Some(1))
    case Exactly(d) => (Value(d), Some(Value(d)))
    case AtLeast(d) => (Value(d), None)
    case Bounded(lo, hi) => (Value(lo), Some(Value(hi)))
  }

  function MeanNode(n: Node): T.Tree
    decreases n, 0
  {
    match n
    case Sym(s) => T.Char(MeanSymbol(s))
    case Any => T.Char(T.Dot)
    case AtStart => T.Start
    case AtEnd => T.End
    case Set(negated, parts) => T.Char(if negated then T.Not(T.Union(MeanParts(parts))) else T.Union(MeanParts(parts)))
    case Grouped(_, branches) => Choice(MeanBranches(branches))
  }

  /** One branch alone, or the choice between several. */
  function Choice(ts: seq<T.Tree>): T.Tree {
    if ts == [] then T.Empty else if |ts| == 1 then ts[0] else T.Alt(ts)
  }

  function MeanFactor(f: Factor): T.Tree
    decreases f, 0
  {
    if f.quant.None? then MeanNode(f.node)
    else T.Repeat(MeanNode(f.node), MeanMark(f.quant.value.mark).0, MeanMark(f.quant.value.mark).1)
  }

  function MeanFactors(fs: seq<Factor>): (r: seq<T.Tree>)
    ensures |r| == |fs|
    decreases fs, 0
  {
    if fs == [] then [] else [MeanFactor(fs[0])] + MeanFactors(fs[1..])
  }

  function MeanBranch(b: Branch): T.Tree
    decreases b, 0
  {
    if b.factors == [] then T.Empty else T.Seq(MeanFactors(b.factors))
  }

  function MeanBranches(bs: seq<Branch>): (r: seq<T.Tree>)
    ensures |r| == |bs|
    decreases bs, 0
  {
    if bs == [] then [] else [MeanBranch(bs[0])] + MeanBranches(bs[1..])
  }

  // ---------- Reading a text that starts with a spelling ----------

  predicate Here(text: string, pos: nat, s: string) {
    pos + |s| <= |text| && text[pos..pos + |s|] == s
  }

  lemma HereSplit(text: string, pos: nat, a: string, b: string)
    ensures Here(text, pos, a + b) <==> Here(text, pos, a) && Here(text, pos + |a|, b)
  {
    if pos + |a| + |b| <= |text| {
      assert text[pos..pos + |a + b|] == text[pos..pos + |a|] + text[pos + |a|..pos + |a| + |b|];
      if text[pos..pos + |a + b|] == a + b {
        assert text[pos..pos + |a|] == (a + b)[..|a|] == a;
        assert text[pos + |a|..pos + |a| + |b|] == (a + b)[|a|..] == b;
      }
    }
  }

  lemma HereAt(text: string, pos: nat, s: string, k: nat)
    requires Here(text, pos, s) && k < |s|
    ensures pos + k < |text| && text[pos + k] == s[k]
  {
    assert text[pos..pos + |s|][k] == text[pos + k];
  }

  lemma HereSlice(text: string, pos: nat, s: string)
    requires Here(text, pos, s)
    ensures pos + |s| <= |text| && text[pos..pos + |s|] == s
  {
  }

  lemma HereSub(text: string, pos: nat, s: string)
    requires Here(text, pos, s)
    ensures pos + |s| <= |text| && Sub(text, pos, pos + |s|) == s
  {
  }

  lemma FindsHere(text: string, pos: nat, s: string, c: char)
    requires Here(text, pos, s + [c]) && c !in s
    ensures FindFrom(text, c, pos) == Some(pos + |s|)
  {
    hide FindFrom;
    HereSplit(text, pos, s, [c]);
    FindFromIs(text, c, pos, pos + |s|);
  }

  lemma {:induction false} DigitsHere(text: string, pos: nat, d: string)
    requires Here(text, pos, d) && IsDecimal(d) && (pos + |d| < |text| ==> !IsDigit(text[pos + |d|]))
    ensures DigitsEnd(text, pos) == pos + |d|
    decreases |d|
  {
    hide Here;
    if d != [] {
      HereAt(text, pos, d, 0);
      assert d == [d[0]] + d[1..];
      HereSplit(text, pos, [d[0]], d[1..]);
      DigitsHere(text, pos + 1, d[1..]);
    }
  }

  lemma ReadLead(text: string, pos: nat, lead: Lead)
    requires ValidLead(lead) && Here(text, pos, SpellLead(lead))
    ensures UnicodeDigits(text, pos) == Ok((Code(lead.digits), pos + |SpellLead(lead)|))
  {
    if lead.Braced? {
      ReadBraced(text, pos, lead.digits);
    } else {
      ReadFour(text, pos, lead.digits);
    }
  }

  lemma ReadBraced(text: string, pos: nat, digits: string)
    requires Numeral(digits, 16) && 1 <= |digits| <= 6 && Here(text, pos, "{" + (digits + ['}']))
    ensures UnicodeDigits(text, pos) == Ok((Code(digits), pos + |digits| + 2))
  {
    hide Here, Hex, FindFrom, IsHex, Code, Numeral;
    CodeAgrees(digits);
    HereSplit(text, pos, "{", digits + ['}']);
    HereAt(text, pos, "{", 0);
    NoBrace(digits);
    FindsHere(text, pos + 1, digits, '}');
    HereSplit(text, pos + 1, digits, ['}']);
    HereSlice(text, pos + 1, digits);
  }

  lemma NoBrace(digits: string)
    requires IsHex(digits)
    ensures '{' !in digits && '}' !in digits
  {
    assert HexValue('}').None? && HexValue('{').None?;
  }

  lemma ReadFour(text: string, pos: nat, digits: string)
    requires Numeral(digits, 16) && |digits| == 4 && Here(text, pos, digits)
    ensures UnicodeDigits(text, pos) == Ok((Code(digits), pos + 4))
  {
    hide Here, Hex, FindFrom, IsHex, Code, Numeral;
    CodeAgrees(digits);
    NoBrace(digits);
    HereAt(text, pos, digits, 0);
    HereSub(text, pos, digits);
  }

  function Trailing(trail: Option<string>): string {
    if trail.Some? then "\\u" + trail.value else ""
  }

  /** A trail is written exactly behind a lead surrogate. */
  predicate TrailFits(h: nat, trail: Option<string>) {
    if trail.Some? then |trail.value| == 4 && Numeral(trail.value, 16) && High(h) && Low(Code(trail.value))
    else !High(h)
  }

  function Joined(h: nat, trail: Option<string>): nat
    requires TrailFits(h, trail)
  {
    if trail.Some? then Joining(h, Code(trail.value)) else h
  }

  lemma ReadTrail(text: string, p: nat, h: nat, trail: Option<string>)
    requires Here(text, p, Trailing(trail)) && TrailFits(h, trail)
    ensures p + |Trailing(trail)| <= |text|
    ensures Pair(text, h, p) == (Joined(h, trail), p + |Trailing(trail)|)
  {
    hide Here, Hex, IsHex, Code, Numeral;
    UnitsAgree(h);
    HereSlice(text, p, Trailing(trail));
    if trail.Some? {
      CodeAgrees(trail.value);
      UnitsAgree(Code(trail.value));
      HereSplit(text, p, "\\u", trail.value);
      HereSub(text, p, "\\u");
      HereSub(text, p + 2, trail.value);
    }
  }

  lemma SpellSize(lead: Lead, trail: string)
    ensures SpellChar(Scalar(lead, None)) == "\\u" + SpellLead(lead)
    ensures |SpellChar(Scalar(lead, None))| == 2 + |SpellLead(lead)|
    ensures SpellChar(Scalar(lead, Some(trail))) == "\\u" + SpellLead(lead) + ("\\u" + trail)
    ensures |SpellChar(Scalar(lead, Some(trail)))| == 4 + |SpellLead(lead)| + |trail|
  {
    hide SpellLead;
  }

  lemma LoneMeans(lead: Lead, inClass: bool)
    requires ValidLead(lead) && CodePoint(Code(lead.digits))
    ensures ValidChar(Scalar(lead, None), inClass) && MeanChar(Scalar(lead, None)) == Code(lead.digits) as char
  {
    hide Code, Numeral;
  }

  lemma PairMeans(lead: Lead, trail: string, inClass: bool, scalar: nat)
    requires ValidLead(lead) && |trail| == 4 && Numeral(trail, 16) && High(Code(lead.digits)) && Low(Code(trail))
    requires scalar == Joining(Code(lead.digits), Code(trail))
    ensures var s := Scalar(lead, Some(trail));
            ValidChar(s, inClass) && CodePoint(scalar) && MeanChar(s) == scalar as char
  {
    hide Code, Numeral;
  }

  lemma ReadScalar(text: string, pos: nat, lead: Lead, trail: Option<string>, inClass: bool)
    requires ValidChar(Scalar(lead, trail), inClass) && Here(text, pos, SpellChar(Scalar(lead, trail)))
    ensures var s := Scalar(lead, trail);
            pos + 1 < |text| && text[pos + 1] == 'u' &&
            Unicode(text, pos + 2) == Ok((T.Literal(MeanChar(s)), pos + |SpellChar(s)|))
  {
    hide Here, Code, SpellLead, ValidLead, ValidChar, MeanChar, SpellChar;
    hide TrailFits, Joined, Trailing, Unicode, UnicodeDigits, Pair, CodePoint, Escape;
    ScalarMeans(lead, trail, inClass);
    var after := SpellLead(lead) + Trailing(trail);
    HereSplit(text, pos, "\\u", after);
    HereAt(text, pos, "\\u", 1);
    HereSlice(text, pos + 2, after);
    ReadUnicode(text, pos + 2, lead, trail);
  }

  lemma ReadUnicode(text: string, pos: nat, lead: Lead, trail: Option<string>)
    requires ValidLead(lead) && TrailFits(Code(lead.digits), trail) && CodePoint(Joined(Code(lead.digits), trail))
    requires Here(text, pos, SpellLead(lead) + Trailing(trail))
    ensures pos <= |text|
    ensures Unicode(text, pos) == Ok((T.Literal(Joined(Code(lead.digits), trail) as char),
                                      pos + |SpellLead(lead) + Trailing(trail)|))
  {
    hide Here, Code, UnicodeDigits, SpellLead, Pair, TrailFits, Joined, Trailing;
    UnitsAgree(Joined(Code(lead.digits), trail));
    HereSplit(text, pos, SpellLead(lead), Trailing(trail));
    ReadLead(text, pos, lead);
    ReadTrail(text, pos + |SpellLead(lead)|, Code(lead.digits), trail);
  }

  lemma ScalarMeans(lead: Lead, trail: Option<string>, inClass: bool)
    requires ValidChar(Scalar(lead, trail), inClass)
    ensures ValidLead(lead) && TrailFits(Code(lead.digits), trail)
    ensures SpellChar(Scalar(lead, trail)) == "\\u" + (SpellLead(lead) + Trailing(trail))
    ensures var scalar := Joined(Code(lead.digits), trail);
            CodePoint(scalar) && MeanChar(Scalar(lead, trail)) == scalar as char
  {
    hide Code, Numeral, SpellLead;
    if trail.Some? {
      PairMeans(lead, trail.value, inClass, Joined(Code(lead.digits), trail));
    } else {
      LoneMeans(lead, inClass);
    }
  }

  lemma ReadEscaped(text: string, pos: nat, s: Symbol, inClass: bool)
    requires ValidSymbol(s, inClass) && (s.Exact? ==> !s.s.Raw?) && Here(text, pos, SpellSymbol(s))
    ensures text[pos] == '\\'
    ensures Escape(text, pos + 1, inClass) == Ok((MeanSymbol(s), pos + |SpellSymbol(s)|))
  {
    hide Here, Unicode, Code, Numeral, Control, Shorthand, IsSyntax, High, Low, CodePoint, ScalarOf, ValidLead;
    hide SpellLead;
    HereAt(text, pos, SpellSymbol(s), 0);
    HereAt(text, pos, SpellSymbol(s), 1);
    TablesAgree(text[pos + 1]);
    if s.Exact? && s.s.Scalar? {
      ReadScalar(text, pos, s.s.lead, s.s.trail, inClass);
    }
  }

  lemma ReadClassAtom(text: string, pos: nat, s: Symbol)
    requires ValidSymbol(s, true) && Here(text, pos, SpellSymbol(s))
    ensures ClassAtom(text, pos) == Ok((MeanSymbol(s), pos + |SpellSymbol(s)|)) && text[pos] != ']'
    ensures text[pos] == '-' <==> s == Exact(Raw('-'))
    ensures text[pos] == '^' <==> s == Exact(Raw('^'))
  {
    hide Here, Escape, Code, Numeral;
    if s.Exact? && s.s.Raw? {
      HereAt(text, pos, SpellSymbol(s), 0);
    } else {
      ReadEscaped(text, pos, s, true);
    }
  }

  function AfterFirst(p: ClassPart): string {
    if p.Single? then "" else "-" + SpellChar(p.hi)
  }

  lemma PartsSpelling(parts: seq<ClassPart>)
    requires parts != []
    ensures SpellParts(parts) + "]" == SpellSymbol(FirstSymbol(parts[0])) +
            (AfterFirst(parts[0]) + (SpellParts(parts[1..]) + "]"))
  {
    hide SpellChar;
    assert SpellPart(parts[0]) == SpellSymbol(FirstSymbol(parts[0])) + AfterFirst(parts[0]);
    Regroup(SpellSymbol(FirstSymbol(parts[0])), AfterFirst(parts[0]), SpellParts(parts[1..]), "]");
  }

  lemma Regroup(a: string, b: string, c: string, d: string)
    ensures ((a + b) + c) + d == a + (b + (c + d))
  {
  }

  /** The first character of the parts, or of the bracket that closes them. */
  lemma PartsOpen(text: string, pos: nat, parts: seq<ClassPart>)
    requires ValidParts(parts) && Here(text, pos, SpellParts(parts) + "]")
    ensures pos < |text| && (text[pos] == ']' <==> parts == [])
    ensures text[pos] == '-' <==> StartsWith(parts, '-')
    ensures text[pos] == '^' <==> StartsWith(parts, '^')
  {
    hide Here, ClassAtom, ValidSymbol, MeanSymbol, SpellSymbol;
    HereAt(text, pos, SpellParts(parts) + "]", 0);
    if parts != [] {
      PartsSpelling(parts);
      HereSplit(text, pos, SpellSymbol(FirstSymbol(parts[0])), AfterFirst(parts[0]) + (SpellParts(parts[1..]) + "]"));
      ReadClassAtom(text, pos, FirstSymbol(parts[0]));
    }
  }

  lemma {:induction false} ReadParts(text: string, pos: nat, parts: seq<ClassPart>)
    requires ValidParts(parts) && Here(text, pos, SpellParts(parts) + "]")
    ensures ClassItems(text, pos) == Ok((MeanParts(parts), pos + |SpellParts(parts)|))
    decreases |parts|
  {
    hide Here, ClassItem, SpellPart, MeanPart, StartsWith, ValidPart;
    PartsOpen(text, pos, parts);
    if parts != [] {
      var rest := SpellParts(parts[1..]) + "]";
      assert SpellParts(parts) + "]" == SpellPart(parts[0]) + rest;
      HereSplit(text, pos, SpellPart(parts[0]), rest);
      var p := pos + |SpellPart(parts[0])|;
      PartsOpen(text, p, parts[1..]);
      ReadPart(text, pos, parts);
      ReadParts(text, p, parts[1..]);
    }
  }

  lemma ReadPart(text: string, pos: nat, parts: seq<ClassPart>)
    requires parts != [] && ValidParts(parts) && Here(text, pos, SpellPart(parts[0]))
    requires Here(text, pos + |SpellPart(parts[0])|, SpellParts(parts[1..]) + "]")
    ensures ClassItem(text, pos) == Ok((MeanPart(parts[0]), pos + |SpellPart(parts[0])|))
  {
    hide Here, ClassItem, ClassAtom, ValidSymbol, ValidChar, MeanSymbol, MeanChar, SpellSymbol, SpellChar;
    if parts[0].Single? {
      var p := pos + |SpellPart(parts[0])|;
      PartsOpen(text, p, parts[1..]);
      if StartsWith(parts[1..], '-') {
        LastDash();
        HereAt(text, p, "-]", 1);
      }
      ReadSingle(text, pos, parts[0].s);
    } else {
      ReadSpan(text, pos, parts[0].lo, parts[0].hi);
    }
  }

  lemma LastDash()
    ensures SpellParts([Single(Exact(Raw('-')))]) + "]" == "-]"
  {
  }

  lemma ReadSingle(text: string, pos: nat, s: Symbol)
    requires ValidSymbol(s, true) && Here(text, pos, SpellSymbol(s)) && !RangeFollows(text, pos + |SpellSymbol(s)|)
    ensures ClassItem(text, pos) == Ok((MeanSymbol(s), pos + |SpellSymbol(s)|))
  {
    hide Here, ClassAtom, ValidSymbol, MeanSymbol, SpellSymbol;
    ReadClassAtom(text, pos, s);
  }

  lemma ReadSpan(text: string, pos: nat, lo: Spelling, hi: Spelling)
    requires ValidPart(Span(lo, hi)) && Here(text, pos, SpellPart(Span(lo, hi)))
    ensures ClassItem(text, pos) == Ok((MeanPart(Span(lo, hi)), pos + |SpellPart(Span(lo, hi))|))
  {
    hide Here, ClassAtom, ValidChar, MeanChar, SpellChar;
    HereSplit(text, pos, SpellChar(lo), "-" + SpellChar(hi));
    ReadClassAtom(text, pos, Exact(lo));
    var q := pos + |SpellChar(lo)|;
    HereSplit(text, q, "-", SpellChar(hi));
    HereAt(text, q, "-", 0);
    ReadClassAtom(text, q + 1, Exact(hi));
  }

  /** Digits are read up to the first character that is none. */
  lemma ReadDigits(text: string, pos: nat, d: string, rest: string)
    requires ValidDigits(d) && rest != "" && !IsDigit(rest[0]) && Here(text, pos, d + rest)
    ensures var p := pos + |d|;
            && pos < p < |text| && DigitsEnd(text, pos) == p && text[pos..p] == d
            && text[p] == rest[0] && Here(text, p, rest)
  {
    hide Here, DigitsEnd, IsDecimal, IsDigit, Numeral;
    ValueAgrees(d);
    HereSplit(text, pos, d, rest);
    HereAt(text, pos + |d|, rest, 0);
    DigitsHere(text, pos, d);
    HereSlice(text, pos, d);
  }

  lemma ExactBounds(text: string, pos: nat, p: nat)
    requires pos <= p < |text| && DigitsEnd(text, pos) == p && text[p] == '}'
    ensures IsDecimal(text[pos..p]) && (Bounds(text, pos).Ok? <==> 1 <= p - pos <= 4)
    ensures 1 <= p - pos <= 4 ==>
              Bounds(text, pos) == Ok(((Decimal(text[pos..p]), Some(Decimal(text[pos..p]))), p + 1))
  {
    hide Decimal, IsDecimal, DigitsEnd;
  }

  lemma OpenBounds(text: string, pos: nat, p: nat)
    requires pos < p < |text| - 1 && DigitsEnd(text, pos) == p && text[p] == ',' && p - pos <= 4
    requires DigitsEnd(text, p + 1) == p + 1 && text[p + 1] == '}'
    ensures IsDecimal(text[pos..p])
    ensures Bounds(text, pos) == Ok(((Decimal(text[pos..p]), None), p + 2))
  {
    hide Decimal, IsDecimal, DigitsEnd;
  }

  lemma RangeBounds(text: string, pos: nat, p: nat, q: nat)
    requires pos < p < |text| && DigitsEnd(text, pos) == p && text[p] == ',' && p - pos <= 4
    requires p + 1 < q < |text| && DigitsEnd(text, p + 1) == q && text[q] == '}' && q - (p + 1) <= 4
    ensures IsDecimal(text[pos..p]) && IsDecimal(text[p + 1..q])
    ensures Bounds(text, pos) == Ok(((Decimal(text[pos..p]), Some(Decimal(text[p + 1..q]))), q + 1))
  {
    hide Decimal, IsDecimal, DigitsEnd;
  }

  lemma ReadExactly(text: string, pos: nat, d: string)
    requires ValidDigits(d) && Here(text, pos, "{" + (d + "}"))
    ensures text[pos] == '{' && Bounds(text, pos + 1) == Ok(((Value(d), Some(Value(d))), pos + |d| + 2))
  {
    hide Here, DigitsEnd, Bounds, Decimal, IsDecimal, Value, Numeral;
    ValueAgrees(d);
    Opened(text, pos, d + "}");
    ReadDigits(text, pos + 1, d, "}");
    ExactBounds(text, pos + 1, pos + 1 + |d|);
  }

  lemma Opened(text: string, pos: nat, rest: string)
    requires Here(text, pos, "{" + rest)
    ensures pos < |text| && text[pos] == '{' && Here(text, pos + 1, rest)
  {
    HereSplit(text, pos, "{", rest);
  }

  lemma ReadAtLeast(text: string, pos: nat, d: string)
    requires ValidDigits(d) && Here(text, pos, "{" + (d + ",}"))
    ensures text[pos] == '{' && Bounds(text, pos + 1) == Ok(((Value(d), None), pos + |d| + 3))
  {
    hide Here, DigitsEnd, Bounds, Decimal, IsDecimal, Value, Numeral;
    ValueAgrees(d);
    var p := pos + 1 + |d|;
    Opened(text, pos, d + ",}");
    ReadDigits(text, pos + 1, d, ",}");
    HereAt(text, p, ",}", 1);
    NoDigits(text, p + 1);
    OpenBounds(text, pos + 1, p);
  }

  lemma NoDigits(text: string, pos: nat)
    requires pos < |text| && !IsDigit(text[pos])
    ensures DigitsEnd(text, pos) == pos
  {
  }

  lemma ReadRange(text: string, pos: nat, lo: string, hi: string)
    requires ValidDigits(lo) && ValidDigits(hi) && Here(text, pos, "{" + (lo + ("," + (hi + "}"))))
    ensures text[pos] == '{'
    ensures Bounds(text, pos + 1) == Ok(((Value(lo), Some(Value(hi))), pos + |lo| + |hi| + 3))
  {
    hide Here, DigitsEnd, Bounds, Decimal, IsDecimal, Value, Numeral;
    ValueAgrees(lo);
    ValueAgrees(hi);
    var p := pos + 1 + |lo|;
    Opened(text, pos, lo + ("," + (hi + "}")));
    ReadDigits(text, pos + 1, lo, "," + (hi + "}"));
    ReadUpper(text, p, hi);
    RangeBounds(text, pos + 1, p, p + 1 + |hi|);
  }

  lemma ReadUpper(text: string, p: nat, hi: string)
    requires ValidDigits(hi) && Here(text, p, "," + (hi + "}"))
    ensures var q := p + 1 + |hi|;
            && p + 1 < q < |text| && DigitsEnd(text, p + 1) == q && text[p + 1..q] == hi && text[q] == '}'
  {
    hide Here, DigitsEnd, IsDecimal;
    HereSplit(text, p, ",", hi + "}");
    ReadDigits(text, p + 1, hi, "}");
  }

  /** The mark with its braces, its digits and its meaning. */
  lemma BracedMark(m: Mark, maxRepeat: nat)
    requires (m.Exactly? || m.AtLeast? || m.Bounded?) && ValidQuant(Quant(m, false), maxRepeat)
    ensures match m
            case Exactly(d) =>
              ValidDigits(d) && SpellMark(m) == "{" + (d + "}") && MeanMark(m) == (Value(d), Some(Value(d)))
            case AtLeast(d) => ValidDigits(d) && SpellMark(m) == "{" + (d + ",}") && MeanMark(m) == (Value(d), None)
            case Bounded(lo, hi) =>
              && ValidDigits(lo) && ValidDigits(hi) && SpellMark(m) == "{" + (lo + ("," + (hi + "}")))
              && MeanMark(m) == (Value(lo), Some(Value(hi)))
            case _ => false
  {
    hide Value, Numeral;
  }

  lemma ReadBounds(text: string, pos: nat, m: Mark, maxRepeat: nat)
    requires (m.Exactly? || m.AtLeast? || m.Bounded?) && ValidQuant(Quant(m, false), maxRepeat)
    requires Here(text, pos, SpellMark(m))
    ensures text[pos] == '{' && Bounds(text, pos + 1) == Ok((MeanMark(m), pos + |SpellMark(m)|))
  {
    hide Here, Bounds, Value, Numeral, SpellMark, MeanMark, ValidQuant, ValidDigits;
    BracedMark(m, maxRepeat);
    match m {
      case Exactly(d) => ReadExactly(text, pos, d);
      case AtLeast(d) => ReadAtLeast(text, pos, d);
      case Bounded(lo, hi) => ReadRange(text, pos, lo, hi);
    }
  }

  /** What may follow a node or a quantifier without being taken into it. */
  predicate Detached(text: string, pos: nat) {
    pos < |text| ==> !IsQuantifier(text[pos])
  }

  lemma ReadQuant(text: string, pos: nat, q: Quant, maxRepeat: nat)
    requires ValidQuant(q, maxRepeat) && Here(text, pos, SpellQuant(Some(q)))
    requires Detached(text, pos + |SpellQuant(Some(q))|)
    ensures pos < |text| && IsQuantifier(text[pos])
    ensures Quantifier(text, pos, maxRepeat) == Ok((MeanMark(q.mark), pos + |SpellQuant(Some(q))|))
  {
    hide Here, Sign, SpellMark, MeanMark, ValidMark;
    HereSplit(text, pos, SpellMark(q.mark), if q.lazy then "?" else "");
    ReadSign(text, pos, q.mark, maxRepeat);
    if q.lazy {
      HereAt(text, pos + |SpellMark(q.mark)|, "?", 0);
    }
  }

  lemma ReadSign(text: string, pos: nat, m: Mark, maxRepeat: nat)
    requires ValidQuant(Quant(m, false), maxRepeat) && Here(text, pos, SpellMark(m))
    ensures pos < |text| && IsQuantifier(text[pos]) && Sign(text, pos) == Ok((MeanMark(m), pos + |SpellMark(m)|))
  {
    hide Here, Bounds, ValidQuant, Value;
    HereAt(text, pos, SpellMark(m), 0);
    if m.Exactly? || m.AtLeast? || m.Bounded? {
      ReadBounds(text, pos, m, maxRepeat);
    }
  }

  predicate Closes(c: char) { c in {'|', ')'} || IsQuantifier(c) }

  /** A node never starts like the end of a sequence or like a quantifier. */
  lemma NodeOpens(text: string, pos: nat, n: Node, maxRepeat: nat)
    requires ValidNode(n, maxRepeat) && Here(text, pos, SpellNode(n))
    ensures pos < |text| && !Closes(text[pos])
  {
    hide Here, Escape, MeanSymbol, SpellParts, SpellBranches;
    match n
    case Sym(s) =>
      if s.Exact? && s.s.Raw? {
        HereAt(text, pos, SpellNode(n), 0);
      } else {
        ReadEscaped(text, pos, s, false);
      }
    case _ => HereAt(text, pos, SpellNode(n), 0);
  }

  lemma {:induction false} ReadNode(text: string, pos: nat, n: Node, maxRepeat: nat)
    requires ValidNode(n, maxRepeat) && Here(text, pos, SpellNode(n))
    ensures pos < |text| && Atom(text, pos, maxRepeat) == Ok((MeanNode(n), pos + |SpellNode(n)|))
    decreases n, 0
  {
    hide Here, Atom, Group, Class, SpellSymbol, MeanSymbol, ValidSymbol;
    hide SpellParts, MeanParts, SpellBranches, MeanBranches, ValidParts;
    match n
    case Sym(s) => ReadSymbolNode(text, pos, s, maxRepeat);
    case Set(negated, parts) =>
      ReadSet(text, pos, negated, parts);
      AtomOpens(text, pos, maxRepeat);
    case Grouped(capturing, branches) =>
      GroupOpens(text, pos, capturing, branches);
      ReadBranches(text, Inside(pos, capturing), branches, maxRepeat);
      ReadGroup(text, pos, capturing, branches, maxRepeat);
      AtomOpens(text, pos, maxRepeat);
    case _ =>
      HereAt(text, pos, SpellNode(n), 0);
      AtomOpens(text, pos, maxRepeat);
  }

  /** What an atom is by its first character, where that alone decides. */
  lemma AtomOpens(text: string, pos: nat, maxRepeat: nat)
    requires pos < |text|
    ensures var atom := Atom(text, pos, maxRepeat);
            match text[pos]
            case '(' => atom == Group(text, pos + 1, maxRepeat)
            case '[' => Class(text, pos + 1).Ok? ==>
                          var (p, q) := Class(text, pos + 1).value; atom == Ok((T.Char(p), q))
            case '.' => atom == Ok((T.Char(T.Dot), pos + 1))
            case '^' => atom == Ok((T.Start, pos + 1))
            case '$' => atom == Ok((T.End, pos + 1))
            case _ => true
  {
    hide Group, Class, Escape;
  }

  lemma ReadSymbolNode(text: string, pos: nat, s: Symbol, maxRepeat: nat)
    requires ValidSymbol(s, false) && Here(text, pos, SpellSymbol(s))
    ensures pos < |text|
    ensures Atom(text, pos, maxRepeat) == Ok((T.Char(MeanSymbol(s)), pos + |SpellSymbol(s)|))
  {
    hide Here, Group, Class, Escape, Code, Numeral;
    if s.Exact? && s.s.Raw? {
      HereAt(text, pos, SpellSymbol(s), 0);
    } else {
      ReadEscaped(text, pos, s, false);
    }
  }

  /** Where the branches of a group start. */
  function Inside(pos: nat, capturing: bool): nat { pos + if capturing then 1 else 3 }

  lemma GroupOpens(text: string, pos: nat, capturing: bool, branches: seq<Branch>)
    requires Here(text, pos, (if capturing then "(" else "(?:") + (SpellBranches(branches) + ")"))
    ensures var (inner, b) := (Inside(pos, capturing), SpellBranches(branches));
            && inner + |b| < |text| && text[pos] == '(' && Here(text, inner, b) && text[inner + |b|] == ')'
            && (!capturing ==> Sub(text, pos + 1, inner) == "?:")
  {
    hide Here, SpellBranches;
    var open, inner, b := if capturing then "(" else "(?:", Inside(pos, capturing), SpellBranches(branches);
    HereSplit(text, pos, open, b + ")");
    HereAt(text, pos, open, 0);
    HereSplit(text, inner, b, ")");
    HereAt(text, inner + |b|, ")", 0);
    if !capturing {
      assert open == "(" + "?:";
      HereSplit(text, pos, "(", "?:");
      HereSub(text, pos + 1, "?:");
    }
  }

  lemma ReadGroup(text: string, pos: nat, capturing: bool, branches: seq<Branch>, maxRepeat: nat)
    requires ValidBranches(branches, maxRepeat)
    requires Here(text, pos, (if capturing then "(" else "(?:") + (SpellBranches(branches) + ")"))
    requires var inner := Inside(pos, capturing);
             inner <= |text| &&
             Branches(text, inner, maxRepeat) == Ok((MeanBranches(branches), inner + |SpellBranches(branches)|))
    ensures text[pos] == '('
    ensures Group(text, pos + 1, maxRepeat) ==
            Ok((OfBranches(MeanBranches(branches)), Inside(pos, capturing) + |SpellBranches(branches)| + 1))
  {
    hide Here, SpellBranches, MeanBranches, Branches, ValidBranches, Group, Sub, Detached, OfBranches;
    var inner := Inside(pos, capturing);
    GroupOpens(text, pos, capturing, branches);
    if capturing {
      BranchesOpen(text, inner, branches, maxRepeat);
      CapturingGroup(text, inner, maxRepeat);
    } else {
      BareGroup(text, inner, maxRepeat);
    }
  }

  lemma CapturingGroup(text: string, pos: nat, maxRepeat: nat)
    requires pos <= |text| && Detached(text, pos) && Branches(text, pos, maxRepeat).Ok?
    requires var q := Branches(text, pos, maxRepeat).value.1; q < |text| && text[q] == ')'
    ensures var (bs, q) := Branches(text, pos, maxRepeat).value;
            Group(text, pos, maxRepeat) == Ok((OfBranches(bs), q + 1))
  {
    hide Branches;
  }

  lemma BareGroup(text: string, pos: nat, maxRepeat: nat)
    requires 2 <= pos <= |text| && Sub(text, pos - 2, pos) == "?:" && Branches(text, pos, maxRepeat).Ok?
    requires var q := Branches(text, pos, maxRepeat).value.1; q < |text| && text[q] == ')'
    ensures var (bs, q) := Branches(text, pos, maxRepeat).value;
            Group(text, pos - 2, maxRepeat) == Ok((OfBranches(bs), q + 1))
  {
    hide Branches;
    assert text[pos - 2..pos][0] == '?';
  }

  lemma ReadSet(text: string, pos: nat, negated: bool, parts: seq<ClassPart>)
    requires ValidParts(parts) && (!negated ==> !StartsWith(parts, '^'))
    requires Here(text, pos, (if negated then "[^" else "[") + (SpellParts(parts) + "]"))
    ensures text[pos] == '['
    ensures Class(text, pos + 1) ==
            Ok((if negated then T.Not(T.Union(MeanParts(parts))) else T.Union(MeanParts(parts)),
                pos + |if negated then "[^" else "["| + |SpellParts(parts)| + 1))
  {
    hide Here, ClassItems, SpellParts, MeanParts, ValidParts;
    var open := if negated then "[^" else "[";
    HereSplit(text, pos, open, SpellParts(parts) + "]");
    HereAt(text, pos, open, 0);
    var inner := pos + |open|;
    if negated {
      HereAt(text, pos, open, 1);
    }
    PartsOpen(text, inner, parts);
    ReadParts(text, inner, parts);
    HereSplit(text, inner, SpellParts(parts), "]");
    HereAt(text, inner + |SpellParts(parts)|, "]", 0);
  }

  lemma BranchesOpen(text: string, pos: nat, bs: seq<Branch>, maxRepeat: nat)
    requires ValidBranches(bs, maxRepeat) && Here(text, pos, SpellBranches(bs)) && Ends(text, pos + |SpellBranches(bs)|)
    ensures Detached(text, pos)
  {
    hide Here, ValidFactors;
    var fs := bs[0].factors;
    if fs != [] {
      var rest := if |bs| == 1 then "" else "|" + SpellBranches(bs[1..]);
      assert SpellBranches(bs) == SpellFactors(fs) + rest;
      HereSplit(text, pos, SpellFactors(fs), rest);
      FactorsOpen(text, pos, fs, maxRepeat);
    } else if |bs| > 1 {
      assert SpellBranch(bs[0]) == "";
      assert SpellBranches(bs) == "|" + SpellBranches(bs[1..]);
      HereAt(text, pos, SpellBranches(bs), 0);
    } else {
      assert SpellBranches(bs) == SpellBranch(bs[0]) == SpellFactors(fs) == "";
    }
  }

  lemma FactorsOpen(text: string, pos: nat, fs: seq<Factor>, maxRepeat: nat)
    requires fs != [] && ValidFactors(fs, maxRepeat) && Here(text, pos, SpellFactors(fs))
    ensures pos < |text| && !Closes(text[pos])
  {
    hide Here, SpellNode, SpellQuant, ValidNode;
    HereSplit(text, pos, SpellFactor(fs[0]), SpellFactors(fs[1..]));
    HereSplit(text, pos, SpellNode(fs[0].node), SpellQuant(fs[0].quant));
    NodeOpens(text, pos, fs[0].node, maxRepeat);
  }

  lemma {:induction false} ReadFactor(text: string, pos: nat, f: Factor, maxRepeat: nat)
    requires ValidFactor(f, maxRepeat) && Here(text, pos, SpellFactor(f)) && Detached(text, pos + |SpellFactor(f)|)
    ensures pos < |text| && Item(text, pos, maxRepeat) == Ok((MeanFactor(f), pos + |SpellFactor(f)|))
    decreases f, 0
  {
    hide Here, Atom, Quantifier, SpellNode, MeanNode, ValidNode, MeanMark, ValidQuant;
    HereSplit(text, pos, SpellNode(f.node), SpellQuant(f.quant));
    ReadNode(text, pos, f.node, maxRepeat);
    NodeMeaning(f.node);
    if f.quant.Some? {
      ReadQuant(text, pos + |SpellNode(f.node)|, f.quant.value, maxRepeat);
    }
  }

  lemma {:induction false} ReadFactors(text: string, pos: nat, fs: seq<Factor>, maxRepeat: nat)
    requires ValidFactors(fs, maxRepeat) && Here(text, pos, SpellFactors(fs)) && Ends(text, pos + |SpellFactors(fs)|)
    ensures Items(text, pos, maxRepeat) == Ok((MeanFactors(fs), pos + |SpellFactors(fs)|))
    decreases fs, 0
  {
    hide Here, Item, SpellFactor, MeanFactor, ValidFactor;
    if fs != [] {
      FactorsOpen(text, pos, fs, maxRepeat);
      HereSplit(text, pos, SpellFactor(fs[0]), SpellFactors(fs[1..]));
      var p := pos + |SpellFactor(fs[0])|;
      if fs[1..] != [] {
        FactorsOpen(text, p, fs[1..], maxRepeat);
      }
      ReadFactor(text, pos, fs[0], maxRepeat);
      ReadFactors(text, p, fs[1..], maxRepeat);
    }
  }

  /** Only the bare assertions mean an assertion; a group around one is a sequence. */
  lemma NodeMeaning(n: Node)
    ensures MeanNode(n).Start? <==> n.AtStart?
    ensures MeanNode(n).End? <==> n.AtEnd?
  {
    if n.Grouped? {
      var bs := MeanBranches(n.branches);
      if |bs| == 1 {
        assert bs[0] == MeanBranch(n.branches[0]);
      }
    }
  }

  lemma {:induction false} ReadBranches(text: string, pos: nat, bs: seq<Branch>, maxRepeat: nat)
    requires ValidBranches(bs, maxRepeat) && Here(text, pos, SpellBranches(bs))
    requires pos + |SpellBranches(bs)| < |text| ==> text[pos + |SpellBranches(bs)|] == ')'
    ensures Branches(text, pos, maxRepeat) == Ok((MeanBranches(bs), pos + |SpellBranches(bs)|))
    decreases bs, 0
  {
    hide Here, Items, SpellBranch, MeanFactors, ValidBranch;
    if |bs| == 1 {
      ReadBranch(text, pos, bs[0], maxRepeat);
      assert MeanBranches(bs) == [MeanBranch(bs[0])];
    } else {
      HereSplit(text, pos, SpellBranch(bs[0]), "|" + SpellBranches(bs[1..]));
      var p := pos + |SpellBranch(bs[0])|;
      HereSplit(text, p, "|", SpellBranches(bs[1..]));
      HereAt(text, p, "|", 0);
      ReadBranch(text, pos, bs[0], maxRepeat);
      ReadBranches(text, p + 1, bs[1..], maxRepeat);
    }
  }

  lemma {:induction false} ReadBranch(text: string, pos: nat, b: Branch, maxRepeat: nat)
    requires ValidBranch(b, maxRepeat) && Here(text, pos, SpellBranch(b)) && Ends(text, pos + |SpellBranch(b)|)
    ensures Items(text, pos, maxRepeat) == Ok((MeanFactors(b.factors), pos + |SpellBranch(b)|))
    decreases b, 0
  {
    hide Here, Items;
    ReadFactors(text, pos, b.factors, maxRepeat);
  }
}
