/** The parser accepts exactly the spellings of the concrete syntax, its trees are exactly the canonical
    ones, and its trees are small enough to bound a search. */
module RegexGrammar {
  import opened Wrappers
  import T = RegexTree
  import opened RegexParse
  import opened Decimals
  import opened TextTools
  import opened RegexSyntax

  // ---------- Every accepted text has a spelling ----------

  predicate Spans(text: string, from: nat, to: nat, s: string) {
    from <= to <= |text| && text[from..to] == s
  }

  lemma SpansJoin(text: string, a: nat, b: nat, c: nat, s: string, t: string)
    requires Spans(text, a, b, s) && Spans(text, b, c, t)
    ensures Spans(text, a, c, s + t)
  {
    assert text[a..c] == text[a..b] + text[b..c];
  }

  lemma SpansOne(text: string, a: nat)
    requires a < |text|
    ensures Spans(text, a, a + 1, [text[a]]) && Spans(text, a, a, "")
  {
  }

  lemma SpansTwo(text: string, a: nat)
    requires a + 1 < |text|
    ensures Spans(text, a, a + 2, [text[a], text[a + 1]])
  {
  }

  lemma WriteLead(text: string, pos: nat) returns (l: Lead)
    requires pos <= |text| && UnicodeDigits(text, pos).Ok?
    ensures ValidLead(l) && Code(l.digits) == UnicodeDigits(text, pos).value.0
    ensures Spans(text, pos, UnicodeDigits(text, pos).value.1, SpellLead(l))
  {
    hide Code, PlaceValue, Hex, Numeral, IsHex;
    if pos < |text| && text[pos] == '{' {
      var end := FindFrom(text, '}', pos + 1).value;
      l := Braced(text[pos + 1..end]);
      CodeAgrees(l.digits);
      assert text[pos..end + 1] == "{" + text[pos + 1..end] + "}";
    } else {
      l := Four(text[pos..pos + 4]);
      CodeAgrees(l.digits);
    }
  }

  lemma WriteScalar(text: string, pos: nat, inClass: bool) returns (s: Spelling)
    requires pos + 1 < |text| && text[pos] == '\\' && text[pos + 1] == 'u' && Unicode(text, pos + 2).Ok?
    ensures s.Scalar? && ValidChar(s, inClass)
    ensures Unicode(text, pos + 2) == Ok((T.Literal(MeanChar(s)), pos + |SpellChar(s)|))
    ensures Spans(text, pos, pos + |SpellChar(s)|, SpellChar(s))
  {
    hide Code, UnicodeDigits, SpellLead, Spans, Unicode, ValidChar, MeanChar, Pair, ScalarOf, SpellChar;
    hide High, Low, CodePoint, Joining, Sub, ValidLead;
    UnicodeIs(text, pos + 2);
    var lead := WriteLead(text, pos + 2);
    var (h, p) := UnicodeDigits(text, pos + 2).value;
    PairIs(text, h, p);
    SpansTwo(text, pos);
    SpansJoin(text, pos, pos + 2, p, "\\u", SpellLead(lead));
    SpansLength(text, pos + 2, p, SpellLead(lead));
    if Pair(text, h, p).1 == p {
      s := Scalar(lead, None);
      LoneMeans(lead, inClass);
      SpellSize(lead, "");
    } else {
      var trail := Sub(text, p + 2, p + 6);
      s := Scalar(lead, Some(trail));
      PairMeans(lead, trail, inClass, Pair(text, h, p).0);
      SpansTrail(text, p);
      SpansJoin(text, pos, p, p + 6, "\\u" + SpellLead(lead), "\\u" + trail);
      SpellSize(lead, trail);
    }
  }

  lemma UnicodeIs(text: string, pos: nat)
    requires pos <= |text| && Unicode(text, pos).Ok?
    ensures UnicodeDigits(text, pos).Ok?
    ensures var (h, p) := UnicodeDigits(text, pos).value;
            var (scalar, q) := Pair(text, h, p);
            CodePoint(scalar) && Unicode(text, pos) == Ok((T.Literal(scalar as char), q))
  {
    hide UnicodeDigits, Pair;
    UnitsAgree(Pair(text, UnicodeDigits(text, pos).value.0, UnicodeDigits(text, pos).value.1).0);
  }

  /** A pair either stays at its lead or takes a four-digit trail. */
  lemma PairIs(text: string, h: nat, p: nat)
    requires p <= |text|
    ensures var (scalar, q) := Pair(text, h, p);
            if q == p then scalar == h
            else
              var trail := Sub(text, p + 2, p + 6);
              && q == p + 6 && Sub(text, p, p + 2) == "\\u" && |trail| == 4 && Numeral(trail, 16)
              && High(h) && Low(Code(trail)) && scalar == Joining(h, Code(trail))
  {
    hide IsHex, Hex, Code, Numeral;
    UnitsAgree(h);
    CodeAgrees(Sub(text, p + 2, p + 6));
    UnitsAgree(Code(Sub(text, p + 2, p + 6)));
  }

  lemma SpansLength(text: string, a: nat, b: nat, s: string)
    requires Spans(text, a, b, s)
    ensures b == a + |s| <= |text|
  {
  }

  lemma SpansTrail(text: string, p: nat)
    requires Sub(text, p, p + 2) == "\\u" && |Sub(text, p + 2, p + 6)| == 4
    ensures Spans(text, p, p + 6, "\\u" + Sub(text, p + 2, p + 6))
  {
    assert text[p..p + 6] == text[p..p + 2] + text[p + 2..p + 6];
  }

  lemma WriteEscape(text: string, pos: nat, inClass: bool) returns (s: Symbol)
    requires pos < |text| && text[pos] == '\\' && Escape(text, pos + 1, inClass).Ok?
    ensures ValidSymbol(s, inClass) && (s.Exact? ==> !s.s.Raw?)
    ensures Escape(text, pos + 1, inClass) == Ok((MeanSymbol(s), pos + |SpellSymbol(s)|))
    ensures Spans(text, pos, pos + |SpellSymbol(s)|, SpellSymbol(s))
  {
    hide Spans, Unicode, ValidLead, ScalarOf, SpellLead, Code, Numeral, Control, Shorthand, IsSyntax;
    var c := text[pos + 1];
    TablesAgree(c);
    SpansTwo(text, pos);
    if IsSyntax(c) {
      s := Exact(Escaped(c));
    } else if Control(c).Some? {
      s := Exact(Letter(c));
    } else if Shorthand(c).Some? {
      s := Short(c);
    } else {
      var scalar := WriteScalar(text, pos, inClass);
      s := Exact(scalar);
    }
  }

  lemma WriteClassAtom(text: string, pos: nat) returns (s: Symbol)
    requires pos < |text| && text[pos] != ']' && ClassAtom(text, pos).Ok?
    ensures ValidSymbol(s, true)
    ensures ClassAtom(text, pos) == Ok((MeanSymbol(s), pos + |SpellSymbol(s)|))
    ensures Spans(text, pos, pos + |SpellSymbol(s)|, SpellSymbol(s))
    ensures forall c :: s == Exact(Raw(c)) ==> text[pos] == c
  {
    hide Spans, Escape;
    if text[pos] == '\\' {
      s := WriteEscape(text, pos, true);
    } else {
      SpansOne(text, pos);
      s := Exact(Raw(text[pos]));
    }
  }

  lemma WritePart(text: string, pos: nat) returns (part: ClassPart)
    requires pos < |text| && text[pos] != ']' && ClassItem(text, pos).Ok?
    ensures ValidPart(part) && (part.Single? ==> !RangeFollows(text, pos + |SpellPart(part)|))
    ensures ClassItem(text, pos) == Ok((MeanPart(part), pos + |SpellPart(part)|))
    ensures Spans(text, pos, pos + |SpellPart(part)|, SpellPart(part))
    ensures forall c :: FirstSymbol(part) == Exact(Raw(c)) ==> text[pos] == c
  {
    hide Spans, ClassAtom, ValidSymbol, ValidChar, SpellSymbol, SpellChar, MeanChar, MeanSymbol;
    var left := WriteClassAtom(text, pos);
    var p := pos + |SpellSymbol(left)|;
    if !RangeFollows(text, p) {
      part := Single(left);
    } else {
      var right := WriteClassAtom(text, p + 1);
      LiteralIsExact(left);
      LiteralIsExact(right);
      part := Span(left.s, right.s);
      SymbolOfChar(left.s);
      SymbolOfChar(right.s);
      SpansOne(text, p);
      SpansJoin(text, p, p + 1, p + 1 + |SpellSymbol(right)|, "-", SpellSymbol(right));
      SpansJoin(text, pos, p, p + 1 + |SpellSymbol(right)|, SpellSymbol(left), "-" + SpellSymbol(right));
    }
  }

  lemma LiteralIsExact(s: Symbol)
    requires ValidSymbol(s, true) && MeanSymbol(s).Literal?
    ensures s.Exact?
  {
  }

  lemma SymbolOfChar(s: Spelling)
    ensures SpellSymbol(Exact(s)) == SpellChar(s) && MeanSymbol(Exact(s)) == T.Literal(MeanChar(s))
    ensures ValidSymbol(Exact(s), true) == ValidChar(s, true)
  {
  }

  lemma {:induction false} WriteParts(text: string, pos: nat) returns (parts: seq<ClassPart>)
    requires pos <= |text| && ClassItems(text, pos).Ok?
    ensures ValidParts(parts)
    ensures ClassItems(text, pos) == Ok((MeanParts(parts), pos + |SpellParts(parts)|))
    ensures Spans(text, pos, pos + |SpellParts(parts)|, SpellParts(parts))
    ensures forall c :: StartsWith(parts, c) ==> pos < |text| && text[pos] == c
    decreases |text| - pos
  {
    hide Spans, ClassItem, ValidPart, SpellPart;
    if pos >= |text| || text[pos] == ']' {
      parts := [];
      SpansNone(text, pos);
    } else {
      var part := WritePart(text, pos);
      var p := pos + |SpellPart(part)|;
      var rest := WriteParts(text, p);
      parts := [part] + rest;
      SpansJoin(text, pos, p, p + |SpellParts(rest)|, SpellPart(part), SpellParts(rest));
      if part.Single? && StartsWith(rest, '-') {
        DashIsLast(text, p, rest);
      }
    }
  }

  lemma SpansNone(text: string, pos: nat)
    requires pos <= |text|
    ensures Spans(text, pos, pos, "")
  {
  }

  /** A hyphen that starts no range is the only item left. */
  lemma DashIsLast(text: string, pos: nat, rest: seq<ClassPart>)
    requires pos < |text| && text[pos] == '-' && !RangeFollows(text, pos)
    requires ClassItems(text, pos).Ok? && ClassItems(text, pos).value.0 == MeanParts(rest)
    requires StartsWith(rest, '-')
    ensures rest == [Single(Exact(Raw('-')))]
  {
    assert ClassItem(text, pos) == Ok((T.Literal('-'), pos + 1));
    assert ClassItems(text, pos + 1) == Ok(([], pos + 1));
    assert MeanParts(rest) == [T.Literal('-')];
    assert MeanParts(rest)[0] == MeanPart(rest[0]) && MeanParts(rest)[1..] == MeanParts(rest[1..]);
    assert rest[1..] == [];
  }

  lemma WriteSet(text: string, pos: nat) returns (n: Node)
    requires pos < |text| && text[pos] == '[' && Class(text, pos + 1).Ok?
    ensures n.Set? && forall maxRepeat :: ValidNode(n, maxRepeat)
    ensures T.Char(Class(text, pos + 1).value.0) == MeanNode(n) && Class(text, pos + 1).value.1 == pos + |SpellNode(n)|
    ensures Spans(text, pos, pos + |SpellNode(n)|, SpellNode(n))
  {
    hide Spans, ValidParts, ClassItems, MeanParts, SpellParts, StartsWith;
    var negate := pos + 1 < |text| && text[pos + 1] == '^';
    var inner := if negate then pos + 2 else pos + 1;
    var parts := WriteParts(text, inner);
    n := Set(negate, parts);
    var p := inner + |SpellParts(parts)|;
    if negate { SpansTwo(text, pos); } else { SpansOne(text, pos); }
    SpansOne(text, p);
    SpansJoin(text, inner, p, p + 1, SpellParts(parts), "]");
    SpansJoin(text, pos, inner, p + 1, if negate then "[^" else "[", SpellParts(parts) + "]");
  }

  lemma WriteBounds(text: string, pos: nat) returns (m: Mark)
    requires pos < |text| && text[pos] == '{' && Bounds(text, pos + 1).Ok?
    ensures ValidMark(m)
    ensures Bounds(text, pos + 1) == Ok((MeanMark(m), pos + |SpellMark(m)|))
    ensures Spans(text, pos, pos + |SpellMark(m)|, SpellMark(m))
  {
    hide Decimal, Spans, IsDecimal, DigitsEnd, SpellMark, MeanMark, ValidMark;
    var p := DigitsEnd(text, pos + 1);
    var lo := text[pos + 1..p];
    if text[p] == '}' {
      m := Exactly(lo);
      WriteExact(text, pos, p, lo);
    } else {
      m := WriteRange(text, pos, p, lo);
    }
  }

  lemma WriteExact(text: string, pos: nat, p: nat, lo: string)
    requires pos < |text| && text[pos] == '{' && Bounds(text, pos + 1).Ok?
    requires p == DigitsEnd(text, pos + 1) < |text| && text[p] == '}' && lo == text[pos + 1..p]
    ensures ValidMark(Exactly(lo))
    ensures Bounds(text, pos + 1) == Ok((MeanMark(Exactly(lo)), pos + |SpellMark(Exactly(lo))|))
    ensures Spans(text, pos, pos + |SpellMark(Exactly(lo))|, SpellMark(Exactly(lo)))
  {
    hide Decimal, Spans, IsDecimal, DigitsEnd, Bounds, ValidMark, MeanMark, SpellMark;
    ExactBounds(text, pos + 1, p);
    ExactMark(lo);
    SpansSlice(text, pos + 1, p);
    SpansOne(text, p);
    WriteBraces(text, pos, p, p + 1, lo, "}");
  }

  lemma ExactMark(lo: string)
    requires 1 <= |lo| <= 4 && IsDecimal(lo)
    ensures var m := Exactly(lo);
            && ValidMark(m) && MeanMark(m) == (Decimal(lo), Some(Decimal(lo)))
            && SpellMark(m) == "{" + (lo + "}") && |SpellMark(m)| == |lo| + 2
  {
    hide IsDecimal, Decimal, Value, Numeral;
    ValueAgrees(lo);
  }

  lemma WriteRange(text: string, pos: nat, p: nat, lo: string) returns (m: Mark)
    requires pos < |text| && text[pos] == '{' && Bounds(text, pos + 1).Ok?
    requires p == DigitsEnd(text, pos + 1) < |text| && text[p] == ',' && lo == text[pos + 1..p]
    ensures ValidMark(m)
    ensures Bounds(text, pos + 1) == Ok((MeanMark(m), pos + |SpellMark(m)|))
    ensures Spans(text, pos, pos + |SpellMark(m)|, SpellMark(m))
  {
    hide Decimal, Spans, IsDecimal, DigitsEnd, Value, Numeral;
    var q := DigitsEnd(text, p + 1);
    ValueAgrees(lo);
    ValueAgrees(text[p + 1..q]);
    var tail, end := WriteUpper(text, p);
    SpansSlice(text, pos + 1, p);
    WriteBraces(text, pos, p, end, lo, tail);
    if q == p + 1 {
      m := AtLeast(lo);
    } else {
      m := Bounded(lo, text[p + 1..q]);
    }
  }

  lemma WriteBraces(text: string, pos: nat, p: nat, end: nat, lo: string, tail: string)
    requires pos < |text| && text[pos] == '{' && Spans(text, pos + 1, p, lo) && Spans(text, p, end, tail)
    ensures Spans(text, pos, end, "{" + (lo + tail)) && end == pos + |"{" + (lo + tail)|
  {
    SpansOne(text, pos);
    SpansJoin(text, pos + 1, p, end, lo, tail);
    SpansJoin(text, pos, pos + 1, end, "{", lo + tail);
  }

  /** The part of braces from the comma on. */
  lemma WriteUpper(text: string, p: nat) returns (tail: string, end: nat)
    requires p < |text| && text[p] == ','
    requires DigitsEnd(text, p + 1) < |text| && text[DigitsEnd(text, p + 1)] == '}'
    ensures var q := DigitsEnd(text, p + 1);
            && end == q + 1 && Spans(text, p, end, tail)
            && tail == if q == p + 1 then ",}" else "," + (text[p + 1..q] + "}")
  {
    hide Spans, DigitsEnd;
    var q := DigitsEnd(text, p + 1);
    end := q + 1;
    if q == p + 1 {
      tail := ",}";
      SpansTwo(text, p);
    } else {
      tail := "," + (text[p + 1..q] + "}");
      SpansOne(text, p);
      SpansOne(text, q);
      SpansSlice(text, p + 1, q);
      SpansJoin(text, p + 1, q, q + 1, text[p + 1..q], "}");
      SpansJoin(text, p, p + 1, q + 1, ",", text[p + 1..q] + "}");
    }
  }

  lemma SpansSlice(text: string, a: nat, b: nat)
    requires a <= b <= |text|
    ensures Spans(text, a, b, text[a..b])
  {
  }

  lemma WriteSign(text: string, pos: nat) returns (m: Mark)
    requires pos < |text| && IsQuantifier(text[pos]) && Sign(text, pos).Ok?
    ensures ValidMark(m)
    ensures Sign(text, pos) == Ok((MeanMark(m), pos + |SpellMark(m)|))
    ensures Spans(text, pos, pos + |SpellMark(m)|, SpellMark(m))
  {
    hide Spans, Bounds, ValidDigits, Value;
    if text[pos] == '{' {
      m := WriteBounds(text, pos);
    } else {
      SpansOne(text, pos);
      m := if text[pos] == '*' then Star else if text[pos] == '+' then Plus else Opt;
    }
  }

  lemma WriteQuant(text: string, pos: nat, maxRepeat: nat) returns (q: Quant)
    requires pos < |text| && IsQuantifier(text[pos]) && Quantifier(text, pos, maxRepeat).Ok?
    ensures ValidQuant(q, maxRepeat)
    ensures Quantifier(text, pos, maxRepeat) == Ok((MeanMark(q.mark), pos + |SpellQuant(Some(q))|))
    ensures Spans(text, pos, pos + |SpellQuant(Some(q))|, SpellQuant(Some(q)))
  {
    hide Spans, Sign, ValidMark, MeanMark, SpellMark;
    var m := WriteSign(text, pos);
    var p := pos + |SpellMark(m)|;
    q := Quant(m, p < |text| && text[p] == '?');
    if q.lazy {
      SpansOne(text, p);
      SpansJoin(text, pos, p, p + 1, SpellMark(m), "?");
    } else {
      assert SpellMark(m) + "" == SpellMark(m);
    }
  }

  lemma {:induction false} WriteNode(text: string, pos: nat, maxRepeat: nat) returns (n: Node)
    requires pos < |text| && !Ends(text, pos) && Atom(text, pos, maxRepeat).Ok?
    ensures ValidNode(n, maxRepeat)
    ensures Atom(text, pos, maxRepeat) == Ok((MeanNode(n), pos + |SpellNode(n)|))
    ensures Spans(text, pos, pos + |SpellNode(n)|, SpellNode(n))
    decreases |text| - pos, 0
  {
    hide Spans, Group, Class, Escape, SpellNode, MeanNode, ValidNode;
    var c := text[pos];
    if c == '(' {
      n := WriteGroup(text, pos, maxRepeat);
    } else if c == '[' {
      n := WriteSet(text, pos);
    } else {
      n := WriteLeaf(text, pos, maxRepeat);
    }
  }

  lemma WriteLeaf(text: string, pos: nat, maxRepeat: nat) returns (n: Node)
    requires pos < |text| && !Ends(text, pos) && text[pos] !in {'(', '['} && Atom(text, pos, maxRepeat).Ok?
    ensures ValidNode(n, maxRepeat)
    ensures Atom(text, pos, maxRepeat) == Ok((MeanNode(n), pos + |SpellNode(n)|))
    ensures Spans(text, pos, pos + |SpellNode(n)|, SpellNode(n))
  {
    hide Spans, Atom, SpellNode, MeanNode, ValidNode, Escape;
    if text[pos] == '\\' {
      n := WriteEscapedLeaf(text, pos, maxRepeat);
    } else {
      n := WritePlainLeaf(text, pos, maxRepeat);
    }
  }

  lemma WriteEscapedLeaf(text: string, pos: nat, maxRepeat: nat) returns (n: Node)
    requires pos < |text| && text[pos] == '\\' && Atom(text, pos, maxRepeat).Ok?
    ensures ValidNode(n, maxRepeat)
    ensures Atom(text, pos, maxRepeat) == Ok((MeanNode(n), pos + |SpellNode(n)|))
    ensures Spans(text, pos, pos + |SpellNode(n)|, SpellNode(n))
  {
    hide Spans, Group, Class, Escape, SpellSymbol, MeanSymbol, ValidSymbol;
    var s := WriteEscape(text, pos, false);
    n := Sym(s);
  }

  lemma WritePlainLeaf(text: string, pos: nat, maxRepeat: nat) returns (n: Node)
    requires pos < |text| && !Ends(text, pos) && text[pos] !in {'(', '[', '\\'} && Atom(text, pos, maxRepeat).Ok?
    ensures ValidNode(n, maxRepeat)
    ensures Atom(text, pos, maxRepeat) == Ok((MeanNode(n), pos + |SpellNode(n)|))
    ensures Spans(text, pos, pos + |SpellNode(n)|, SpellNode(n))
  {
    hide Spans, Group, Class, Escape;
    SpansOne(text, pos);
    match text[pos]
    case '.' => n := Any;
    case '^' => n := AtStart;
    case '$' => n := AtEnd;
    case c => n := Sym(Exact(Raw(c)));
  }

  lemma {:induction false} WriteGroup(text: string, pos: nat, maxRepeat: nat) returns (n: Node)
    requires pos < |text| && text[pos] == '(' && Group(text, pos + 1, maxRepeat).Ok?
    ensures n.Grouped? && ValidNode(n, maxRepeat)
    ensures Group(text, pos + 1, maxRepeat) == Ok((MeanNode(n), pos + |SpellNode(n)|))
    ensures Spans(text, pos, pos + |SpellNode(n)|, SpellNode(n))
    decreases |text| - pos - 1, 5
  {
    hide Spans, Branches, MeanBranches, SpellBranches, ValidBranches;
    var capturing := !(pos + 1 < |text| && text[pos + 1] == '?');
    var inner := if capturing then pos + 1 else pos + 3;
    var bs := WriteBranches(text, inner, maxRepeat);
    n := Grouped(capturing, bs);
    var p := inner + |SpellBranches(bs)|;
    if capturing { SpansOne(text, pos); } else { SpansOpen(text, pos); }
    SpansOne(text, p);
    SpansJoin(text, inner, p, p + 1, SpellBranches(bs), ")");
    SpansJoin(text, pos, inner, p + 1, if capturing then "(" else "(?:", SpellBranches(bs) + ")");
  }

  lemma SpansOpen(text: string, pos: nat)
    requires pos < |text| && text[pos] == '(' && Sub(text, pos + 1, pos + 3) == "?:"
    ensures Spans(text, pos, pos + 3, "(?:")
  {
    assert text[pos..pos + 3] == [text[pos]] + text[pos + 1..pos + 3];
  }

  lemma SpellNone()
    ensures SpellQuant(None) == ""
  {
  }

  lemma {:induction false} WriteFactor(text: string, pos: nat, maxRepeat: nat) returns (f: Factor)
    requires pos < |text| && !Ends(text, pos) && Item(text, pos, maxRepeat).Ok?
    ensures ValidFactor(f, maxRepeat)
    ensures Item(text, pos, maxRepeat) == Ok((MeanFactor(f), pos + |SpellFactor(f)|))
    ensures Spans(text, pos, pos + |SpellFactor(f)|, SpellFactor(f))
    decreases |text| - pos, 1
  {
    hide Spans, Atom, Quantifier, ValidNode, MeanNode, SpellNode, ValidQuant, MeanMark, SpellQuant;
    var n := WriteNode(text, pos, maxRepeat);
    NodeMeaning(n);
    var p := pos + |SpellNode(n)|;
    if p < |text| && IsQuantifier(text[p]) {
      var q := WriteQuant(text, p, maxRepeat);
      f := Factor(n, Some(q));
      SpansJoin(text, pos, p, p + |SpellQuant(Some(q))|, SpellNode(n), SpellQuant(Some(q)));
    } else {
      f := Factor(n, None);
      assert SpellQuant(None) == "" by { SpellNone(); }
      assert SpellNode(n) + "" == SpellNode(n);
    }
  }

  lemma {:induction false} WriteFactors(text: string, pos: nat, maxRepeat: nat) returns (fs: seq<Factor>)
    requires pos <= |text| && Items(text, pos, maxRepeat).Ok?
    ensures ValidFactors(fs, maxRepeat)
    ensures Items(text, pos, maxRepeat) == Ok((MeanFactors(fs), pos + |SpellFactors(fs)|))
    ensures Spans(text, pos, pos + |SpellFactors(fs)|, SpellFactors(fs))
    decreases |text| - pos, 2
  {
    hide Spans, Item, ValidFactor, MeanFactor, SpellFactor;
    if Ends(text, pos) {
      fs := [];
      SpansNone(text, pos);
    } else {
      var f := WriteFactor(text, pos, maxRepeat);
      var p := pos + |SpellFactor(f)|;
      var rest := WriteFactors(text, p, maxRepeat);
      fs := [f] + rest;
      SpansJoin(text, pos, p, p + |SpellFactors(rest)|, SpellFactor(f), SpellFactors(rest));
    }
  }

  lemma {:induction false} WriteBranches(text: string, pos: nat, maxRepeat: nat) returns (bs: seq<Branch>)
    requires pos <= |text| && Branches(text, pos, maxRepeat).Ok?
    ensures ValidBranches(bs, maxRepeat)
    ensures Branches(text, pos, maxRepeat) == Ok((MeanBranches(bs), pos + |SpellBranches(bs)|))
    ensures Spans(text, pos, pos + |SpellBranches(bs)|, SpellBranches(bs))
    decreases |text| - pos, 3
  {
    hide Spans, Items, ValidFactors, MeanFactors, SpellFactors;
    var fs := WriteFactors(text, pos, maxRepeat);
    var b := Branch(fs);
    var p := pos + |SpellFactors(fs)|;
    if p < |text| && text[p] == '|' {
      var rest := WriteBranches(text, p + 1, maxRepeat);
      bs := [b] + rest;
      SpansOne(text, p);
      var q := p + 1 + |SpellBranches(rest)|;
      SpansJoin(text, p, p + 1, q, "|", SpellBranches(rest));
      SpansJoin(text, pos, p, q, SpellBranch(b), "|" + SpellBranches(rest));
    } else {
      bs := [b];
      assert MeanBranches(bs[1..]) == [] && MeanBranches(bs) == [MeanBranch(b)];
    }
  }

  // ---------- The grammar ----------

  /** `bs` is a way to write the pattern `text` with meaning `t`. */
  ghost predicate Writes(bs: seq<Branch>, maxRepeat: nat, text: string, t: T.Tree) {
    ValidBranches(bs, maxRepeat) && SpellBranches(bs) == text && Choice(MeanBranches(bs)) == t
  }

  /** The parser accepts a text with a tree exactly when the text is a spelling of that tree. */
  lemma CompileIsGrammar(text: string, maxLength: nat, maxRepeat: nat, t: T.Tree)
    ensures Compile(text, maxLength, maxRepeat) == Ok(t) <==>
            |text| <= maxLength && exists bs :: Writes(bs, maxRepeat, text, t)
  {
    hide Branches, SpellBranches, MeanBranches, ValidBranches;
    if Compile(text, maxLength, maxRepeat) == Ok(t) {
      var bs := WriteBranches(text, 0, maxRepeat);
      assert text[0..|text|] == text;
      assert Writes(bs, maxRepeat, text, t);
    }
    if bs :| |text| <= maxLength && Writes(bs, maxRepeat, text, t) {
      assert text[0..|text|] == text;
      ReadBranches(text, 0, bs, maxRepeat);
    }
  }
}
