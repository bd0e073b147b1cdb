/** Printing canonical trees, which parsing inverts, and what every parsed pattern satisfies. */
module RegexPrint {
  import opened Wrappers
  import opened RegexTree
  import opened RegexParse
  import opened Decimals
  import S = RegexSyntax
  import RegexGrammar
  import RegexMatch

  // ---------- Canonical trees ----------

  predicate CanonicalSymbol(p: Predicate) {
    p.Literal? || p.Digit? || p.Word? || p == Not(Digit) || p == Not(Word)
  }

  predicate CanonicalPart(p: Predicate) {
    CanonicalSymbol(p) || (p.Range? && p.lo <= p.hi)
  }

  predicate CanonicalParts(items: seq<Predicate>) {
    items != [] ==> CanonicalPart(items[0]) && CanonicalParts(items[1..])
  }

  predicate CanonicalPredicate(p: Predicate) {
    || p.Dot? || CanonicalSymbol(p)
    || (p.Union? && CanonicalParts(p.items))
    || (p.Not? && p.inner.Union? && CanonicalParts(p.inner.items))
  }

  /** Bounds that fit the repeat budget and four digits. */
  predicate CanonicalBounds(min: nat, max: Option<nat>, maxRepeat: nat) {
    BoundsAllowed(min, max, maxRepeat) && min <= 9999 && (max.Some? ==> max.value <= 9999)
  }

  /** A character, an assertion, or anything a group can hold. */
  predicate CanonicalAtom(t: Tree, maxRepeat: nat)
    decreases t, 1
  {
    match t
    case Char(p) => CanonicalPredicate(p)
    case Start => true
    case End => true
    case Repeat(_, _, _) => false
    case _ => Canonical(t, maxRepeat)
  }

  predicate CanonicalItem(t: Tree, maxRepeat: nat)
    decreases t, 2
  {
    if t.Repeat? then
      CanonicalBounds(t.min, t.max, maxRepeat) && !t.child.Start? && !t.child.End? && CanonicalAtom(t.child, maxRepeat)
    else CanonicalAtom(t, maxRepeat)
  }

  predicate CanonicalItems(items: seq<Tree>, maxRepeat: nat)
    decreases items, 0
  {
    items != [] ==> CanonicalItem(items[0], maxRepeat) && CanonicalItems(items[1..], maxRepeat)
  }

  predicate CanonicalBranch(t: Tree, maxRepeat: nat)
    decreases t, 0
  {
    t.Empty? || (t.Seq? && t.items != [] && CanonicalItems(t.items, maxRepeat))
  }

  predicate CanonicalBranches(bs: seq<Tree>, maxRepeat: nat)
    decreases bs, 0
  {
    bs != [] ==> CanonicalBranch(bs[0], maxRepeat) && CanonicalBranches(bs[1..], maxRepeat)
  }

  predicate Canonical(t: Tree, maxRepeat: nat)
    decreases t, 0
  {
    if t.Alt? then |t.items| >= 2 && CanonicalBranches(t.items, maxRepeat)
    else t.Empty? || (t.Seq? && t.items != [] && CanonicalItems(t.items, maxRepeat))
  }

  // ---------- Printing ----------

  function ToSpelling(c: char, inClass: bool): S.Spelling {
    if IsSyntax(c) && (inClass || c != '-') then S.Escaped(c) else S.Raw(c)
  }

  function ToSymbol(p: Predicate, inClass: bool): S.Symbol {
    match p
    case Literal(c) => S.Exact(ToSpelling(c, inClass))
    case Digit => S.Short('d')
    case Word => S.Short('w')
    case Not(inner) => S.Short(if inner.Digit? then 'D' else 'W')
    case _ => S.Short('d')
  }

  function ToPart(p: Predicate): S.ClassPart {
    if p.Range? then S.Span(ToSpelling(p.lo, true), ToSpelling(p.hi, true)) else S.Single(ToSymbol(p, true))
  }

  function ToParts(items: seq<Predicate>): seq<S.ClassPart> {
    if items == [] then [] else [ToPart(items[0])] + ToParts(items[1..])
  }

  function ToMark(min: nat, max: Option<nat>): S.Mark {
    if max.None? then S.AtLeast(Digits(min)) else S.Bounded(Digits(min), Digits(max.value))
  }

  function ToCharNode(p: Predicate): S.Node {
    match p
    case Dot => S.Any
    case Union(items) => S.Set(false, ToParts(items))
    case Not(inner) => if inner.Union? then S.Set(true, ToParts(inner.items)) else S.Sym(ToSymbol(p, false))
    case _ => S.Sym(ToSymbol(p, false))
  }

  function ToNode(t: Tree): S.Node
    decreases t, 3
  {
    match t
    case Char(p) => ToCharNode(p)
    case Start => S.AtStart
    case End => S.AtEnd
    case _ => S.Grouped(false, ToBranches(t))
  }

  function ToFactor(t: Tree): S.Factor
    decreases t, 4
  {
    if t.Repeat? then S.Factor(ToNode(t.child), Some(S.Quant(ToMark(t.min, t.max), false)))
        else S.Factor(ToNode(t), None)
  }

  function ToFactors(items: seq<Tree>): seq<S.Factor>
    decreases items, 0
  {
    if items == [] then [] else [ToFactor(items[0])] + ToFactors(items[1..])
  }

  function ToBranch(t: Tree): S.Branch
    decreases t, 1
  {
    S.Branch(if t.Seq? then ToFactors(t.items) else [])
  }

  function ToBranchSeq(bs: seq<Tree>): seq<S.Branch>
    decreases bs, 0
  {
    if bs == [] then [] else [ToBranch(bs[0])] + ToBranchSeq(bs[1..])
  }

  function ToBranches(t: Tree): seq<S.Branch>
    decreases t, 2
  {
    if t.Alt? then ToBranchSeq(t.items) else [ToBranch(t)]
  }

  function Print(t: Tree): string {
    S.SpellBranches(ToBranches(t))
  }

  // ---------- Parsing inverts printing ----------

  lemma FourDigits(n: nat)
    requires n <= 9999
    ensures S.ValidDigits(Digits(n)) && S.Value(Digits(n)) == n
  {
    DigitsBack(n);
    DigitsBack(n / 10);
    DigitsBack(n / 10 / 10);
    DigitsBack(n / 10 / 10 / 10);
    S.ValueAgrees(Digits(n));
  }

  lemma SymbolBack(p: Predicate, inClass: bool)
    requires CanonicalSymbol(p)
    ensures S.ValidSymbol(ToSymbol(p, inClass), inClass) && S.MeanSymbol(ToSymbol(p, inClass)) == p
    ensures inClass ==> forall c :: ToSymbol(p, inClass) == S.Exact(S.Raw(c)) ==> c != '-' && c != '^'
  {
  }

  lemma PartBack(p: Predicate)
    requires CanonicalPart(p)
    ensures S.ValidPart(ToPart(p)) && S.MeanPart(ToPart(p)) == p
    ensures forall c :: S.FirstSymbol(ToPart(p)) == S.Exact(S.Raw(c)) ==> c != '-' && c != '^'
  {
    if p.Range? {
      SymbolBack(Literal(p.lo), true);
      SymbolBack(Literal(p.hi), true);
    } else {
      SymbolBack(p, true);
    }
  }

  lemma {:induction false} PartsBack(items: seq<Predicate>)
    requires CanonicalParts(items)
    ensures S.ValidParts(ToParts(items)) && S.MeanParts(ToParts(items)) == items
    ensures !S.StartsWith(ToParts(items), '-') && !S.StartsWith(ToParts(items), '^')
  {
    hide S.ValidPart, S.MeanPart, CanonicalPart, ToPart;
    if items != [] {
      PartBack(items[0]);
      PartsBack(items[1..]);
      assert ToParts(items)[1..] == ToParts(items[1..]);
    }
  }

  lemma CharBack(p: Predicate, maxRepeat: nat)
    requires CanonicalPredicate(p)
    ensures S.ValidNode(ToCharNode(p), maxRepeat) && S.MeanNode(ToCharNode(p)) == Char(p)
  {
    hide S.ValidSymbol, S.MeanSymbol, S.ValidParts, S.MeanParts, S.StartsWith, ToParts, CanonicalParts;
    match p
    case Union(items) => PartsBack(items);
    case Not(inner) => if inner.Union? { PartsBack(inner.items); } else { SymbolBack(p, false); }
    case Dot =>
    case _ => SymbolBack(p, false);
  }

  lemma MarkBack(min: nat, max: Option<nat>, maxRepeat: nat)
    requires CanonicalBounds(min, max, maxRepeat)
    ensures S.ValidQuant(S.Quant(ToMark(min, max), false), maxRepeat) && S.MeanMark(ToMark(min, max)) == (min, max)
  {
    FourDigits(min);
    if max.Some? { FourDigits(max.value); }
  }

  lemma {:induction false} NodeBack(t: Tree, maxRepeat: nat)
    requires CanonicalAtom(t, maxRepeat)
    ensures S.ValidNode(ToNode(t), maxRepeat) && S.MeanNode(ToNode(t)) == t
    decreases t, 3
  {
    hide S.ValidBranches, S.MeanBranches, ToBranches, ToCharNode, CanonicalPredicate, Canonical;
    if t.Char? {
      CharBack(t.p, maxRepeat);
    } else if !t.Start? && !t.End? {
      TreeBack(t, maxRepeat);
    }
  }

  lemma {:induction false} FactorBack(t: Tree, maxRepeat: nat)
    requires CanonicalItem(t, maxRepeat)
    ensures S.ValidFactor(ToFactor(t), maxRepeat) && S.MeanFactor(ToFactor(t)) == t
    decreases t, 4
  {
    hide S.ValidQuant, S.MeanMark, CanonicalBounds, CanonicalAtom, S.ValidNode, S.MeanNode, ToMark;
    if t.Repeat? {
      NodeBack(t.child, maxRepeat);
      MarkBack(t.min, t.max, maxRepeat);
      PlainNode(t.child);
    } else {
      NodeBack(t, maxRepeat);
    }
  }

  lemma PlainNode(t: Tree)
    ensures ToNode(t).AtStart? ==> t.Start?
    ensures ToNode(t).AtEnd? ==> t.End?
  {
  }

  lemma {:induction false} FactorsBack(items: seq<Tree>, maxRepeat: nat)
    requires CanonicalItems(items, maxRepeat)
    ensures S.ValidFactors(ToFactors(items), maxRepeat) && S.MeanFactors(ToFactors(items)) == items
    decreases items, 0
  {
    hide S.ValidFactor, S.MeanFactor, ToFactor, CanonicalItem;
    if items != [] {
      FactorBack(items[0], maxRepeat);
      FactorsBack(items[1..], maxRepeat);
      assert ToFactors(items)[1..] == ToFactors(items[1..]);
    }
  }

  lemma {:induction false} BranchBack(t: Tree, maxRepeat: nat)
    requires CanonicalBranch(t, maxRepeat)
    ensures S.ValidBranch(ToBranch(t), maxRepeat) && S.MeanBranch(ToBranch(t)) == t
    decreases t, 1
  {
    hide S.ValidFactor, S.MeanFactor, ToFactors, CanonicalItems;
    if t.Seq? {
      FactorsBack(t.items, maxRepeat);
    }
  }

  lemma {:induction false} BranchSeqBack(bs: seq<Tree>, maxRepeat: nat)
    requires CanonicalBranches(bs, maxRepeat) && bs != []
    ensures S.ValidBranches(ToBranchSeq(bs), maxRepeat) && S.MeanBranches(ToBranchSeq(bs)) == bs
    decreases bs, 0
  {
    hide S.ValidBranch, S.MeanBranch, ToBranch, CanonicalBranch;
    BranchBack(bs[0], maxRepeat);
    assert ToBranchSeq(bs)[1..] == ToBranchSeq(bs[1..]);
    if |bs| > 1 {
      BranchSeqBack(bs[1..], maxRepeat);
    }
  }

  lemma {:induction false} TreeBack(t: Tree, maxRepeat: nat)
    requires Canonical(t, maxRepeat)
    ensures S.ValidBranches(ToBranches(t), maxRepeat) && |ToBranches(t)| >= 1
    ensures OfBranches(S.MeanBranches(ToBranches(t))) == t
    decreases t, 2
  {
    hide S.ValidBranch, S.MeanBranch, ToBranch, CanonicalItems;
    if t.Alt? {
      BranchSeqBack(t.items, maxRepeat);
    } else {
      BranchBack(t, maxRepeat);
      var bs := [ToBranch(t)];
      assert S.MeanBranches(bs[1..]) == [];
      assert S.MeanBranches(bs) == [S.MeanBranch(bs[0])];
    }
  }

  /** Printing a canonical tree and parsing the text gives the tree back. */
  lemma ParseInvertsPrint(t: Tree, maxLength: nat, maxRepeat: nat)
    requires Canonical(t, maxRepeat) && |Print(t)| <= maxLength
    ensures Compile(Print(t), maxLength, maxRepeat) == Ok(t)
  {
    TreeBack(t, maxRepeat);
    assert RegexGrammar.Writes(ToBranches(t), maxRepeat, Print(t), t);
    RegexGrammar.CompileIsGrammar(Print(t), maxLength, maxRepeat, t);
  }

  // ---------- What every accepted pattern satisfies ----------

  lemma SymbolCanonical(s: S.Symbol, inClass: bool)
    requires S.ValidSymbol(s, inClass)
    ensures CanonicalSymbol(S.MeanSymbol(s)) && |S.SpellSymbol(s)| >= 1
  {
  }

  lemma {:induction false} PartsCanonical(parts: seq<S.ClassPart>)
    requires S.ValidParts(parts)
    ensures CanonicalParts(S.MeanParts(parts))
  {
    hide S.ValidSymbol, S.MeanSymbol;
    if parts != [] {
      if parts[0].Single? { SymbolCanonical(parts[0].s, true); }
      PartsCanonical(parts[1..]);
      assert S.MeanParts(parts)[1..] == S.MeanParts(parts[1..]);
    }
  }

  lemma DecimalBound(d: string)
    requires S.ValidDigits(d)
    ensures S.Value(d) <= 9999
  {
    S.ValueAgrees(d);
    DecimalBelow(d, 4);
  }

  lemma {:induction false} DecimalBelow(d: string, k: nat)
    requires IsDecimal(d) && |d| <= k <= 4
    ensures Decimal(d) <
            (if k == 0 then 1 else if k == 1 then 10 else if k == 2 then 100 else if k == 3 then 1000 else 10000)
  {
    if d != [] {
      DecimalBelow(d[..|d| - 1], k - 1);
    }
  }

  lemma QuantCanonical(q: S.Quant, maxRepeat: nat)
    requires S.ValidQuant(q, maxRepeat)
    ensures CanonicalBounds(S.MeanMark(q.mark).0, S.MeanMark(q.mark).1, maxRepeat)
    ensures |S.SpellQuant(Some(q))| >= 1
  {
    hide S.Value, S.ValidDigits;
    match q.mark
    case Exactly(d) => DecimalBound(d);
    case AtLeast(d) => DecimalBound(d);
    case Bounded(lo, hi) => DecimalBound(lo); DecimalBound(hi);
    case _ =>
  }

  /** Meanings are canonical, and no larger than their spellings allow. */
  lemma {:induction false} NodeCanonical(n: S.Node, maxRepeat: nat)
    requires S.ValidNode(n, maxRepeat)
    ensures CanonicalAtom(S.MeanNode(n), maxRepeat)
    ensures Size(S.MeanNode(n)) + 1 <= 2 * |S.SpellNode(n)|
    decreases n, 0
  {
    hide S.ValidSymbol, S.MeanSymbol, S.ValidParts, S.MeanParts, S.SpellParts, S.SpellSymbol, CanonicalSymbol;
    hide CanonicalParts, S.ValidBranches, S.MeanBranches, S.SpellBranches, Canonical;
    match n
    case Sym(s) => SymbolCanonical(s, false); CharAtom(S.MeanSymbol(s), maxRepeat);
    case Set(negated, parts) => PartsCanonical(parts);
    case Grouped(capturing, bs) => BranchesCanonical(bs, maxRepeat);
      CanonicalIsAtom(OfBranches(S.MeanBranches(bs)), maxRepeat);
    case _ =>
  }

  lemma CharAtom(p: Predicate, maxRepeat: nat)
    requires CanonicalSymbol(p)
    ensures CanonicalAtom(Char(p), maxRepeat)
  {
  }

  lemma CanonicalIsAtom(t: Tree, maxRepeat: nat)
    requires Canonical(t, maxRepeat)
    ensures CanonicalAtom(t, maxRepeat)
  {
  }

  lemma {:induction false} FactorCanonical(f: S.Factor, maxRepeat: nat)
    requires S.ValidFactor(f, maxRepeat)
    ensures CanonicalItem(S.MeanFactor(f), maxRepeat)
    ensures Size(S.MeanFactor(f)) + 1 <= 2 * |S.SpellFactor(f)|
    decreases f, 0
  {
    hide S.ValidNode, S.MeanNode, S.SpellNode, S.ValidQuant, S.MeanMark, S.SpellQuant, CanonicalBounds;
    NodeCanonical(f.node, maxRepeat);
    S.NodeMeaning(f.node);
    AtomIsItem(S.MeanNode(f.node), maxRepeat);
    if f.quant.Some? {
      QuantCanonical(f.quant.value, maxRepeat);
    }
  }

  lemma AtomIsItem(t: Tree, maxRepeat: nat)
    requires CanonicalAtom(t, maxRepeat)
    ensures CanonicalItem(t, maxRepeat)
  {
  }

  lemma {:induction false} FactorsCanonical(fs: seq<S.Factor>, maxRepeat: nat)
    requires S.ValidFactors(fs, maxRepeat)
    ensures CanonicalItems(S.MeanFactors(fs), maxRepeat)
    ensures SizeSeq(S.MeanFactors(fs)) + |fs| <= 2 * |S.SpellFactors(fs)|
    decreases fs, 0
  {
    hide S.ValidFactor, S.MeanFactor, S.SpellFactor, CanonicalItem, Size;
    if fs != [] {
      FactorCanonical(fs[0], maxRepeat);
      FactorsCanonical(fs[1..], maxRepeat);
      assert S.MeanFactors(fs)[1..] == S.MeanFactors(fs[1..]);
    }
  }

  lemma {:induction false} BranchCanonical(b: S.Branch, maxRepeat: nat)
    requires S.ValidBranch(b, maxRepeat)
    ensures CanonicalBranch(S.MeanBranch(b), maxRepeat)
    ensures Size(S.MeanBranch(b)) <= 2 * |S.SpellBranch(b)| + 1
    decreases b, 0
  {
    FactorsCanonical(b.factors, maxRepeat);
    if b.factors == [] {
      assert S.MeanFactors(b.factors) == [];
    }
  }

  lemma {:induction false} BranchSeqCanonical(bs: seq<S.Branch>, maxRepeat: nat)
    requires S.ValidBranches(bs, maxRepeat)
    ensures CanonicalBranches(S.MeanBranches(bs), maxRepeat)
    ensures SizeSeq(S.MeanBranches(bs)) + |bs| <= 2 * |S.SpellBranches(bs)| + 2
    decreases bs, 0
  {
    hide S.ValidBranch, S.MeanBranch, S.SpellBranch, CanonicalBranch, Size;
    BranchCanonical(bs[0], maxRepeat);
    assert S.MeanBranches(bs)[1..] == S.MeanBranches(bs[1..]);
    if |bs| > 1 {
      BranchSeqCanonical(bs[1..], maxRepeat);
    } else {
      assert S.MeanBranches(bs[1..]) == [];
    }
  }

  lemma {:induction false} BranchesCanonical(bs: seq<S.Branch>, maxRepeat: nat)
    requires S.ValidBranches(bs, maxRepeat)
    ensures |S.MeanBranches(bs)| >= 1 && Canonical(OfBranches(S.MeanBranches(bs)), maxRepeat)
    ensures Size(OfBranches(S.MeanBranches(bs))) <= 2 * |S.SpellBranches(bs)| + 1
    decreases bs, 1
  {
    hide S.ValidBranch, S.MeanBranch, S.SpellBranch;
    BranchSeqCanonical(bs, maxRepeat);
    if |bs| == 1 {
      BranchCanonical(bs[0], maxRepeat);
      assert S.MeanBranches(bs) == [S.MeanBranch(bs[0])];
    }
  }

  /** Every accepted tree is canonical and has at most `2 * |text| + 1` nodes. */
  lemma AcceptedIsCanonical(text: string, maxLength: nat, maxRepeat: nat)
    requires Compile(text, maxLength, maxRepeat).Ok?
    ensures Canonical(Compile(text, maxLength, maxRepeat).value, maxRepeat)
    ensures Size(Compile(text, maxLength, maxRepeat).value) <= 2 * |text| + 1
  {
    var t := Compile(text, maxLength, maxRepeat).value;
    RegexGrammar.CompileIsGrammar(text, maxLength, maxRepeat, t);
    var bs :| RegexGrammar.Writes(bs, maxRepeat, text, t);
    BranchesCanonical(bs, maxRepeat);
  }

  /** The trees the parser can return are exactly the canonical ones. */
  lemma AcceptedTrees(t: Tree, maxRepeat: nat)
    ensures Canonical(t, maxRepeat) <==> exists text, maxLength :: Compile(text, maxLength, maxRepeat) == Ok(t)
  {
    if Canonical(t, maxRepeat) {
      ParseInvertsPrint(t, |Print(t)|, maxRepeat);
    }
    if text, maxLength :| Compile(text, maxLength, maxRepeat) == Ok(t) {
      AcceptedIsCanonical(text, maxLength, maxRepeat);
    }
  }

  lemma {:induction false} CanonicalAtomOrdered(t: Tree, maxRepeat: nat)
    requires CanonicalItem(t, maxRepeat) || Canonical(t, maxRepeat)
    ensures Ordered(t)
    decreases t, 1
  {
    if (t.Seq? || t.Alt?) && CanonicalItem(t, maxRepeat) {
      assert CanonicalAtom(t, maxRepeat);
      assert Canonical(t, maxRepeat);
    }
    match t
    case Repeat(child, _, _) => AtomIsItem(child, maxRepeat); CanonicalAtomOrdered(child, maxRepeat);
    case Seq(items) => CanonicalItemsOrdered(items, maxRepeat);
    case Alt(items) => CanonicalBranchesOrdered(items, maxRepeat);
    case _ =>
  }

  lemma {:induction false} CanonicalItemsOrdered(items: seq<Tree>, maxRepeat: nat)
    requires CanonicalItems(items, maxRepeat)
    ensures OrderedSeq(items)
    decreases items, 0
  {
    if items != [] {
      CanonicalAtomOrdered(items[0], maxRepeat);
      CanonicalItemsOrdered(items[1..], maxRepeat);
    }
  }

  lemma {:induction false} CanonicalBranchesOrdered(bs: seq<Tree>, maxRepeat: nat)
    requires CanonicalBranches(bs, maxRepeat)
    ensures OrderedSeq(bs)
    decreases bs, 0
  {
    if bs != [] {
      assert Canonical(bs[0], maxRepeat);
      CanonicalAtomOrdered(bs[0], maxRepeat);
      CanonicalBranchesOrdered(bs[1..], maxRepeat);
    }
  }

  lemma Scale(a: nat, b: nat, c: nat)
    requires a <= b
    ensures a * c <= b * c
  {
  }

  /** Compile a pattern and search a value with it: exact, and within the step bound. */
  method PatternSearch(text: string, value: string, maxLength: nat, maxRepeat: nat)
    returns (found: Result<bool>, ticks: nat)
    ensures found.Ok? <==> Compile(text, maxLength, maxRepeat).Ok?
    ensures found.Ok? ==>
              (found.value <==>
               exists i: nat, j: nat :: i <= |value| && Matches(Compile(text, maxLength, maxRepeat).value, value, i, j))
    ensures ticks <= (2 * |text| + 1) * (|value| + 1)
  {
    hide Compile, Canonical, Ordered, Matches, Size;
    var tree := CompilePattern(text, maxLength, maxRepeat);
    if tree.Err? {
      return Err, 0;
    }
    AcceptedIsCanonical(text, maxLength, maxRepeat);
    CanonicalAtomOrdered(tree.value, maxRepeat);
    var hit;
    hit, ticks := RegexMatch.Search(tree.value, value);
    found := Ok(hit);
    Scale(Size(tree.value), 2 * |text| + 1, |value| + 1);
  }
}
