/** Parsed patterns and what they match. */
module RegexTree {
  import opened Wrappers

  datatype Predicate =
    | Literal(c: char)
    | Range(lo: char, hi: char)
    | Dot
    | Digit
    | Word
    | Not(inner: Predicate)
    | Union(items: seq<Predicate>)

  datatype Tree =
    | Empty
    | Start
    | End
    | Char(p: Predicate)
    | Alt(items: seq<Tree>)
    | Seq(items: seq<Tree>)
    | Repeat(child: Tree, min: nat, max: Option<nat>)

  const DIGITS: set<char> := {'0', '1', '2', '3', '4', '5', '6', '7', '8', '9'}

  const SMALL: set<char> := {
    'a', 'b', 'c', 'd', 'e', 'f', 'g', 'h', 'i', 'j', 'k', 'l', 'm',
    'n', 'o', 'p', 'q', 'r', 's', 't', 'u', 'v', 'w', 'x', 'y', 'z'}

  const CAPITAL: set<char> := {
    'A', 'B', 'C', 'D', 'E', 'F', 'G', 'H', 'I', 'J', 'K', 'L', 'M',
    'N', 'O', 'P', 'Q', 'R', 'S', 'T', 'U', 'V', 'W', 'X', 'Y', 'Z'}

  /** Line feed, carriage return, line separator and paragraph separator. */
  predicate LineEnd(c: char) { c as int in {10, 13, 8232, 8233} }

  predicate Ranges(lo: char, c: char, hi: char) { lo as int <= c as int <= hi as int }

  predicate Listed(c: char, chars: set<char>) { c in chars }

  /** The characters a class stands for. */
  ghost function CharSet(p: Predicate): iset<char> {
    match p
    case Literal(d) => iset{d}
    case Range(lo, hi) => iset c: char | Ranges(lo, c, hi)
    case Dot => iset c: char | !LineEnd(c)
    case Digit => iset c: char | Listed(c, DIGITS)
    case Word => iset c: char | Listed(c, {'_'} + DIGITS + SMALL + CAPITAL)
    case Not(inner) => iset c: char | c !in CharSet(inner)
    case Union(items) => CharSets(items)
  }

  ghost function CharSets(items: seq<Predicate>): iset<char> {
    if items == [] then iset{} else CharSet(items[0]) + CharSets(items[1..])
  }

  /** The test of the matcher for one character. */
  predicate Accepts(p: Predicate, c: char) {
    match p
    case Literal(d) => c == d
    case Range(lo, hi) => lo <= c <= hi
    case Dot => c !in "\n\r\U{2028}\U{2029}"
    case Digit => '0' <= c <= '9'
    case Word => c == '_' || '0' <= c <= '9' || 'a' <= c <= 'z' || 'A' <= c <= 'Z'
    case Not(inner) => !Accepts(inner, c)
    case Union(items) => exists k :: 0 <= k < |items| && Accepts(items[k], c)
  }

  /** The test decides membership in the class. */
  lemma {:induction false} AcceptsIsMember(p: Predicate, c: char)
    ensures Accepts(p, c) <==> c in CharSet(p)
    decreases p
  {
    match p
    case Digit => DigitIsListed(c);
    case Word => WordIsListed(c);
    case Not(inner) => AcceptsIsMember(inner, c);
    case Union(items) => SomeIsMember(items, c);
    case _ =>
  }

  lemma {:induction false} SomeIsMember(items: seq<Predicate>, c: char)
    ensures (exists k :: 0 <= k < |items| && Accepts(items[k], c)) <==> c in CharSets(items)
    decreases items
  {
    if items != [] {
      AcceptsIsMember(items[0], c);
      SomeIsMember(items[1..], c);
      assert forall k :: 0 < k < |items| ==> items[k] == items[1..][k - 1];
      assert forall k :: 0 <= k < |items[1..]| ==> items[1..][k] == items[k + 1];
    }
  }

  lemma DigitIsListed(c: char)
    ensures '0' <= c <= '9' <==> c in DIGITS
  {
  }

  lemma WordIsListed(c: char)
    ensures c == '_' || '0' <= c <= '9' || 'a' <= c <= 'z' || 'A' <= c <= 'Z' <==> c in {'_'} + DIGITS + SMALL + CAPITAL
  {
    DigitIsListed(c);
    SmallIsListed(c);
    CapitalIsListed(c);
  }

  lemma SmallIsListed(c: char)
    ensures 'a' <= c <= 'z' <==> c in SMALL
  {
  }

  lemma CapitalIsListed(c: char)
    ensures 'A' <= c <= 'Z' <==> c in CAPITAL
  {
  }

  /** `t` matches the part of `v` from position `i` to position `j`. */
  ghost predicate Matches(t: Tree, v: string, i: nat, j: nat)
    decreases t, 0, 0
  {
    match t
    case Empty => i == j
    case Start => i == j == 0
    case End => i == j == |v|
    case Char(p) => i < |v| && j == i + 1 && v[i] in CharSet(p)
    case Alt(items) => exists k :: 0 <= k < |items| && Matches(items[k], v, i, j)
    case Seq(items) => MatchesSeq(items, v, i, j)
    case Repeat(child, min, max) =>
      exists n: nat :: min <= n && (max.Some? ==> n <= max.value) && MatchesTimes(child, n, v, i, j)
  }

  ghost predicate MatchesSeq(items: seq<Tree>, v: string, i: nat, j: nat)
    decreases items, 0, 0
  {
    if items == [] then i == j
    else exists k: nat :: Matches(items[0], v, i, k) && MatchesSeq(items[1..], v, k, j)
  }

  ghost predicate MatchesTimes(child: Tree, n: nat, v: string, i: nat, j: nat)
    decreases child, 1, n
  {
    if n == 0 then i == j
    else exists k: nat :: MatchesTimes(child, n - 1, v, i, k) && Matches(child, v, k, j)
  }

  lemma SeqSplit(items: seq<Tree>, v: string, i: nat, j: nat) returns (k: nat)
    requires items != [] && MatchesSeq(items, v, i, j)
    ensures Matches(items[0], v, i, k) && MatchesSeq(items[1..], v, k, j)
  {
    k :| Matches(items[0], v, i, k) && MatchesSeq(items[1..], v, k, j);
  }

  lemma TimesSplit(child: Tree, n: nat, v: string, i: nat, j: nat) returns (k: nat)
    requires n != 0 && MatchesTimes(child, n, v, i, j)
    ensures MatchesTimes(child, n - 1, v, i, k) && Matches(child, v, k, j)
  {
    k :| MatchesTimes(child, n - 1, v, i, k) && Matches(child, v, k, j);
  }

  lemma RepeatSplit(child: Tree, min: nat, max: Option<nat>, v: string, i: nat, j: nat) returns (n: nat)
    requires Matches(Repeat(child, min, max), v, i, j)
    ensures min <= n && (max.Some? ==> n <= max.value) && MatchesTimes(child, n, v, i, j)
  {
    n :| min <= n && (max.Some? ==> n <= max.value) && MatchesTimes(child, n, v, i, j);
  }

  lemma {:induction false} MatchStays(t: Tree, v: string, i: nat, j: nat)
    requires i <= |v| && Matches(t, v, i, j)
    ensures i <= j <= |v|
    decreases t, 0, 0
  {
    match t
    case Alt(items) =>
      var k :| 0 <= k < |items| && Matches(items[k], v, i, j);
      MatchStays(items[k], v, i, j);
    case Seq(items) => SeqStays(items, v, i, j);
    case Repeat(child, min, max) =>
      var n := RepeatSplit(child, min, max, v, i, j);
      TimesStays(child, n, v, i, j);
    case _ =>
  }

  lemma {:induction false} SeqStays(items: seq<Tree>, v: string, i: nat, j: nat)
    requires i <= |v| && MatchesSeq(items, v, i, j)
    ensures i <= j <= |v|
    decreases items, 0, 0
  {
    if items != [] {
      var k := SeqSplit(items, v, i, j);
      MatchStays(items[0], v, i, k);
      SeqStays(items[1..], v, k, j);
    }
  }

  lemma {:induction false} TimesStays(child: Tree, n: nat, v: string, i: nat, j: nat)
    requires i <= |v| && MatchesTimes(child, n, v, i, j)
    ensures i <= j <= |v|
    decreases child, 1, n
  {
    if n != 0 {
      var k := TimesSplit(child, n, v, i, j);
      TimesStays(child, n - 1, v, i, k);
      MatchStays(child, v, k, j);
    }
  }

  /** Every repetition has ordered bounds. */
  predicate Ordered(t: Tree)
    decreases t
  {
    match t
    case Alt(items) => OrderedSeq(items)
    case Seq(items) => OrderedSeq(items)
    case Repeat(child, min, max) => (max.Some? ==> min <= max.value) && Ordered(child)
    case _ => true
  }

  predicate OrderedSeq(items: seq<Tree>)
    decreases items
  {
    items != [] ==> Ordered(items[0]) && OrderedSeq(items[1..])
  }

  /** Nodes of a tree. */
  function Size(t: Tree): (n: nat)
    ensures n >= 1
    decreases t
  {
    match t
    case Alt(items) => 1 + SizeSeq(items)
    case Seq(items) => 1 + SizeSeq(items)
    case Repeat(child, _, _) => 1 + Size(child)
    case _ => 1
  }

  function SizeSeq(items: seq<Tree>): nat
    decreases items
  {
    if items == [] then 0 else Size(items[0]) + SizeSeq(items[1..])
  }
}
