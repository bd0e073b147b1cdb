/** The memoised matcher: `Pattern.search` and its inner `evaluate`. */
module RegexMatch {
  import opened Wrappers
  import opened RegexTree

  /** The positions where a match from `i` can end. */
  ghost function Ends(t: Tree, v: string, i: nat): set<nat> {
    set j: nat | i <= j <= |v| && Matches(t, v, i, j)
  }

  ghost function EndsAll(t: Tree, v: string, from: set<nat>): set<nat> {
    set i, j | i in from && j in Ends(t, v, i) :: j
  }

  /** Where the sequence can end after the positions in `from`. */
  ghost function SeqAll(items: seq<Tree>, v: string, from: set<nat>): set<nat> {
    if items == [] then from else SeqAll(items[1..], v, EndsAll(items[0], v, from))
  }

  /** Where exactly `n` copies can end. */
  ghost function TimesAll(child: Tree, n: nat, v: string, from: set<nat>): set<nat> {
    if n == 0 then from else EndsAll(child, v, TimesAll(child, n - 1, v, from))
  }

  lemma EndsAllStep(t: Tree, v: string, from: set<nat>, more: set<nat>)
    ensures from == {} ==> EndsAll(t, v, from) == {}
    ensures forall i :: more == {i} ==> EndsAll(t, v, from + more) == EndsAll(t, v, from) + Ends(t, v, i)
  {
  }

  lemma EndsAllWithin(t: Tree, v: string, from: set<nat>)
    ensures Within(v, EndsAll(t, v, from))
  {
  }

  lemma WithinAt(v: string, from: set<nat>, i: nat)
    requires Within(v, from) && i in from
    ensures i <= |v|
  {
  }

  ghost predicate Within(v: string, from: set<nat>) {
    forall i :: i in from ==> i <= |v|
  }

  lemma {:induction false} SeqAllMeaning(items: seq<Tree>, v: string, from: set<nat>)
    requires Within(v, from)
    ensures Within(v, SeqAll(items, v, from))
    ensures forall j: nat :: j in SeqAll(items, v, from) <==> exists i :: i in from && MatchesSeq(items, v, i, j)
  {
    if items != [] {
      var middle := EndsAll(items[0], v, from);
      SeqAllMeaning(items[1..], v, middle);
      forall j: nat ensures j in SeqAll(items, v, from) <==> exists i :: i in from && MatchesSeq(items, v, i, j) {
        if i :| i in from && MatchesSeq(items, v, i, j) {
          var k := SeqSplit(items, v, i, j);
          MatchStays(items[0], v, i, k);
          assert k in Ends(items[0], v, i);
          assert k in middle;
        }
        if k :| k in middle && MatchesSeq(items[1..], v, k, j) {
          var i :| i in from && k in Ends(items[0], v, i);
          assert MatchesSeq(items, v, i, j);
        }
      }
    }
  }

  lemma {:induction false} TimesAllMeaning(child: Tree, n: nat, v: string, i: nat)
    requires i <= |v|
    ensures Within(v, TimesAll(child, n, v, {i}))
    ensures forall j: nat :: j in TimesAll(child, n, v, {i}) <==> MatchesTimes(child, n, v, i, j)
  {
    if n != 0 {
      hide Matches;
      TimesAllMeaning(child, n - 1, v, i);
      forall j: nat ensures j in TimesAll(child, n, v, {i}) <==> MatchesTimes(child, n, v, i, j) {
        if MatchesTimes(child, n, v, i, j) {
          var k := TimesSplit(child, n, v, i, j);
          MatchStays(child, v, k, j);
          assert j in Ends(child, v, k);
        }
        if k :| k in TimesAll(child, n - 1, v, {i}) && j in Ends(child, v, k) {
          assert MatchesTimes(child, n - 1, v, i, k) && Matches(child, v, k, j);
        }
      }
    }
  }

  lemma SeqEnds(items: seq<Tree>, v: string, i: nat)
    requires i <= |v|
    ensures SeqAll(items, v, {i}) == Ends(Seq(items), v, i)
  {
    SeqAllMeaning(items, v, {i});
    forall j | j in SeqAll(items, v, {i}) ensures j in Ends(Seq(items), v, i) {
      SeqStays(items, v, i, j);
    }
    forall j | j in Ends(Seq(items), v, i) ensures j in SeqAll(items, v, {i}) {
      assert i in {i} && MatchesSeq(items, v, i, j);
    }
  }

  ghost predicate Allowed(n: nat, min: nat, max: Option<nat>) {
    min <= n && (max.Some? ==> n <= max.value)
  }

  /** Some allowed number of copies reaches `j` from `i`. */
  ghost predicate ReachedBy(child: Tree, v: string, i: nat, min: nat, max: Option<nat>, j: nat) {
    exists n: nat :: Allowed(n, min, max) && j in TimesAll(child, n, v, {i})
  }

  /** A set that holds what every allowed number of copies reaches, and nothing else, is the answer of a
      repeat. */
  lemma RepeatEnds(child: Tree, min: nat, max: Option<nat>, v: string, i: nat, result: set<nat>)
    requires i <= |v|
    requires forall n: nat :: Allowed(n, min, max) ==> TimesAll(child, n, v, {i}) <= result
    requires forall j: nat :: j in result ==> ReachedBy(child, v, i, min, max, j)
    ensures result == Ends(Repeat(child, min, max), v, i)
  {
    var t := Repeat(child, min, max);
    forall j: nat ensures j in result <==> j in Ends(t, v, i) {
      if j in result {
        var n: nat :| Allowed(n, min, max) && j in TimesAll(child, n, v, {i});
        TimesAllMeaning(child, n, v, i);
        TimesStays(child, n, v, i, j);
      }
      if Matches(t, v, i, j) {
        var n := RepeatSplit(child, min, max, v, i, j);
        TimesAllMeaning(child, n, v, i);
        assert Allowed(n, min, max);
      }
    }
  }

  /** A set that holds the first frontier and is closed under one more copy holds every later one. */
  lemma {:induction false} ClosedHoldsAll(child: Tree, v: string, i: nat, min: nat, n: nat, result: set<nat>)
    requires min <= n && TimesAll(child, min, v, {i}) <= result && EndsAll(child, v, result) <= result
    ensures TimesAll(child, n, v, {i}) <= result
  {
    if n != min {
      ClosedHoldsAll(child, v, i, min, n - 1, result);
    }
  }

  lemma {:induction false} EmptyStaysEmpty(child: Tree, v: string, i: nat, m: nat, n: nat)
    requires m <= n && TimesAll(child, m, v, {i}) == {}
    ensures TimesAll(child, n, v, {i}) == {}
  {
    if n != m {
      EmptyStaysEmpty(child, v, i, m, n - 1);
    }
  }

  // ---------- Node identities ----------

  /** `ids` names the nodes of `t` in preorder from `base` on, where the matcher uses object identities; the
      bounds of repetitions are ordered. */
  ghost predicate Labels(ids: map<nat, Tree>, base: nat, t: Tree)
    decreases t
  {
    && base in ids && ids[base] == t
    && match t
       case Alt(items) => LabelsSeq(ids, base + 1, items)
       case Seq(items) => LabelsSeq(ids, base + 1, items)
       case Repeat(child, min, max) => (max.Some? ==> min <= max.value) && Labels(ids, base + 1, child)
       case _ => true
  }

  ghost predicate LabelsSeq(ids: map<nat, Tree>, base: nat, items: seq<Tree>)
    decreases items
  {
    items != [] ==> Labels(ids, base, items[0]) && LabelsSeq(ids, base + Size(items[0]), items[1..])
  }

  ghost predicate Covers(ids: map<nat, Tree>, base: nat, size: nat) {
    forall id :: id in ids <==> base <= id < base + size
  }

  ghost function Label(base: nat, t: Tree): map<nat, Tree>
    decreases t
  {
    var below := match t
      case Alt(items) => LabelSeq(base + 1, items)
      case Seq(items) => LabelSeq(base + 1, items)
      case Repeat(child, _, _) => Label(base + 1, child)
      case _ => map[];
    below[base := t]
  }

  ghost function LabelSeq(base: nat, items: seq<Tree>): map<nat, Tree>
    decreases items
  {
    if items == [] then map[] else Label(base, items[0]) + LabelSeq(base + Size(items[0]), items[1..])
  }

  ghost predicate Agree(a: map<nat, Tree>, b: map<nat, Tree>) {
    forall id :: id in a ==> id in b && a[id] == b[id]
  }

  lemma {:induction false} LabelsGrow(a: map<nat, Tree>, b: map<nat, Tree>, base: nat, t: Tree)
    requires Agree(a, b) && Labels(a, base, t)
    ensures Labels(b, base, t)
    decreases t
  {
    match t
    case Alt(items) => LabelsSeqGrow(a, b, base + 1, items);
    case Seq(items) => LabelsSeqGrow(a, b, base + 1, items);
    case Repeat(child, _, _) => LabelsGrow(a, b, base + 1, child);
    case _ =>
  }

  lemma {:induction false} LabelsSeqGrow(a: map<nat, Tree>, b: map<nat, Tree>, base: nat, items: seq<Tree>)
    requires Agree(a, b) && LabelsSeq(a, base, items)
    ensures LabelsSeq(b, base, items)
    decreases items
  {
    if items != [] {
      LabelsGrow(a, b, base, items[0]);
      LabelsSeqGrow(a, b, base + Size(items[0]), items[1..]);
    }
  }

  lemma {:induction false} LabelWorks(base: nat, t: Tree)
    requires Ordered(t)
    ensures Labels(Label(base, t), base, t) && Covers(Label(base, t), base, Size(t))
    decreases t
  {
    match t
    case Alt(items) =>
      LabelSeqWorks(base + 1, items);
      LabelsSeqGrow(LabelSeq(base + 1, items), Label(base, t), base + 1, items);
    case Seq(items) =>
      LabelSeqWorks(base + 1, items);
      LabelsSeqGrow(LabelSeq(base + 1, items), Label(base, t), base + 1, items);
    case Repeat(child, _, _) =>
      LabelWorks(base + 1, child);
      LabelsGrow(Label(base + 1, child), Label(base, t), base + 1, child);
    case _ =>
  }

  lemma {:induction false} LabelSeqWorks(base: nat, items: seq<Tree>)
    requires OrderedSeq(items)
    ensures LabelsSeq(LabelSeq(base, items), base, items) && Covers(LabelSeq(base, items), base, SizeSeq(items))
    decreases items
  {
    if items != [] {
      LabelWorks(base, items[0]);
      LabelSeqWorks(base + Size(items[0]), items[1..]);
      LabelsGrow(Label(base, items[0]), LabelSeq(base, items), base, items[0]);
      LabelsSeqGrow(LabelSeq(base + Size(items[0]), items[1..]), LabelSeq(base, items), base + Size(items[0]),
                    items[1..]);
    }
  }

  /** One step along labelled items. */
  lemma ItemsStep(ids: map<nat, Tree>, base: nat, items: seq<Tree>, n: nat, v: string, from: set<nat>)
    requires n < |items| && LabelsSeq(ids, base, items[n..])
    ensures Labels(ids, base, items[n]) && LabelsSeq(ids, base + Size(items[n]), items[n + 1..])
    ensures SizeSeq(items[n..]) == Size(items[n]) + SizeSeq(items[n + 1..])
    ensures SeqAll(items[n..], v, from) == SeqAll(items[n + 1..], v, EndsAll(items[n], v, from))
  {
    hide Labels, EndsAll, Size;
    assert items[n..][0] == items[n] && items[n..][1..] == items[n + 1..];
  }

  lemma ItemsEnds(ids: map<nat, Tree>, base: nat, items: seq<Tree>, v: string, from: set<nat>)
    ensures items[0..] == items && items[..|items|] == items
    ensures SizeSeq(items[|items|..]) == 0 && SeqAll(items[|items|..], v, from) == from
  {
  }

  // ---------- The search ----------

  type Cache = map<(nat, nat), set<nat>>

  /** Every cached answer is the right one. */
  ghost predicate Sound(cache: Cache, ids: map<nat, Tree>, v: string) {
    forall k :: k in cache ==> k.0 in ids && k.1 <= |v| && cache[k] == Ends(ids[k.0], v, k.1)
  }

  /** Answers are kept, and the new ones belong to nodes `lo <= id < hi`. */
  ghost predicate Extends(before: Cache, after: Cache, lo: nat, hi: nat) {
    && (forall k :: k in before ==> k in after && after[k] == before[k])
    && (forall k :: k in after && k !in before ==> lo <= k.0 < hi)
  }

  /** A cache and its tick counter. */
  datatype Memo = Memo(cache: Cache, ticks: nat)

  /** Between two moments only nodes `lo <= id < hi` were answered, one tick for each new answer. */
  ghost predicate Works(a: Memo, b: Memo, lo: nat, hi: nat) {
    Extends(a.cache, b.cache, lo, hi) && b.ticks - a.ticks == |b.cache| - |a.cache|
  }

  lemma WorksOn(a: Memo, b: Memo, c: Memo, lo: nat, mid: nat, start: nat, hi: nat)
    requires Works(a, b, lo, mid) && Works(b, c, start, hi) && lo <= start && mid <= hi
    ensures Works(a, c, lo, hi)
  {
  }

  lemma WorksWithin(a: Memo, b: Memo, c: Memo, lo: nat, hi: nat, start: nat, end: nat)
    requires Works(a, b, lo, hi) && Works(b, c, start, end) && lo <= start && end <= hi
    ensures Works(a, c, lo, hi)
  {
  }

  lemma WorksNot(a: Memo, lo: nat, hi: nat)
    ensures Works(a, a, lo, hi)
  {
  }

  lemma Lookup(memo: Memo, ids: map<nat, Tree>, v: string, id: nat, node: Tree, start: nat)
    requires Sound(memo.cache, ids, v) && Labels(ids, id, node) && (id, start) in memo.cache
    ensures memo.cache[(id, start)] == Ends(node, v, start)
    ensures Works(memo, memo, id, id + Size(node))
  {
  }

  /** No child answers for its parent, so the parent's answer is new when it is stored. */
  lemma Stores(before: Memo, after: Memo, ids: map<nat, Tree>, v: string, id: nat, node: Tree, start: nat,
               result: set<nat>)
    requires (id, start) !in before.cache && Works(before.(ticks := before.ticks + 1), after, id + 1, id + Size(node))
    requires Sound(after.cache, ids, v) && Labels(ids, id, node) && start <= |v| && result == Ends(node, v, start)
    ensures Sound(after.cache[(id, start) := result], ids, v)
    ensures Works(before, after.(cache := after.cache[(id, start) := result]), id, id + Size(node))
  {
    hide Sound, Ends, Size, Labels, Extends;
    AnswersOnce(before.cache, after.cache, id, id + Size(node), start, result);
    StoresSoundly(after.cache, ids, v, id, node, start, result);
  }

  lemma AnswersOnce(before: Cache, after: Cache, id: nat, hi: nat, start: nat, result: set<nat>)
    requires Extends(before, after, id + 1, hi) && (id, start) !in before && id < hi
    ensures var key := (id, start);
            Extends(before, after[key := result], id, hi) && |after[key := result]| == |after| + 1
  {
    var key := (id, start);
    assert key !in after;
    assert after[key := result].Keys == after.Keys + {key};
  }

  lemma StoresSoundly(cache: Cache, ids: map<nat, Tree>, v: string, id: nat, node: Tree, start: nat, result: set<nat>)
    requires Sound(cache, ids, v) && Labels(ids, id, node) && start <= |v| && result == Ends(node, v, start)
    ensures Sound(cache[(id, start) := result], ids, v)
  {
    hide Ends;
  }

  lemma NoAltEnds(items: seq<Tree>, v: string, start: nat)
    ensures Ends(Alt(items[..0]), v, start) == {}
  {
  }

  lemma AltEndsMore(items: seq<Tree>, n: nat, v: string, start: nat)
    requires n < |items|
    ensures Ends(Alt(items[..n + 1]), v, start) == Ends(Alt(items[..n]), v, start) + Ends(items[n], v, start)
  {
    forall j: nat ensures Matches(Alt(items[..n + 1]), v, start, j) <==>
        Matches(Alt(items[..n]), v, start, j) || Matches(items[n], v, start, j) {
      var more, fewer := items[..n + 1], items[..n];
      if k :| 0 <= k < |fewer| && Matches(fewer[k], v, start, j) {
        assert more[k] == fewer[k];
      }
      if k :| 0 <= k < |more| && Matches(more[k], v, start, j) {
        assert k < n ==> fewer[k] == more[k];
      }
      assert more[n] == items[n];
    }
  }

  lemma LabelsBelow(ids: map<nat, Tree>, id: nat, node: Tree)
    requires Labels(ids, id, node)
    ensures node.Alt? || node.Seq? ==> LabelsSeq(ids, id + 1, node.items)
    ensures node.Repeat? ==> Labels(ids, id + 1, node.child) && (node.max.Some? ==> node.min <= node.max.value)
  {
  }

  lemma LeafEnds(node: Tree, v: string, start: nat)
    requires start <= |v|
    ensures node.Empty? ==> Ends(node, v, start) == {start}
    ensures node.Start? ==> Ends(node, v, start) == if start == 0 then {start} else {}
    ensures node.End? ==> Ends(node, v, start) == if start == |v| then {start} else {}
    ensures node.Char? ==> Ends(node, v, start) == if start < |v| && Accepts(node.p, v[start]) then {start + 1} else {}
  {
    hide Accepts, CharSet;
    if node.Char? && start < |v| {
      AcceptsIsMember(node.p, v[start]);
    }
  }

  // ---------- Repetition ----------

  /** Every position was reached by at least `min` copies. */
  ghost predicate Reached(child: Tree, v: string, i: nat, min: nat, result: set<nat>) {
    forall j: nat :: j in result ==> ReachedBy(child, v, i, min, None, j)
  }

  lemma FirstReached(child: Tree, v: string, i: nat, min: nat)
    ensures Reached(child, v, i, min, TimesAll(child, min, v, {i}))
  {
    assert Allowed(min, min, None);
  }

  lemma ReachesMore(child: Tree, v: string, i: nat, min: nat, result: set<nat>, frontier: set<nat>, next: set<nat>)
    requires Reached(child, v, i, min, result) && frontier <= result && next == EndsAll(child, v, frontier)
    requires EndsAll(child, v, result - frontier) <= result
    ensures Reached(child, v, i, min, result + next)
    ensures EndsAll(child, v, result) <= result + next
  {
    forall j | j in next ensures ReachedBy(child, v, i, min, None, j) {
      var k :| k in frontier && j in Ends(child, v, k);
      var n: nat :| Allowed(n, min, None) && k in TimesAll(child, n, v, {i});
      assert Allowed(n + 1, min, None) && j in TimesAll(child, n + 1, v, {i});
    }
  }

  lemma {:induction false} BelowSize(positions: set<nat>, n: nat)
    requires forall p :: p in positions ==> p < n
    ensures |positions| <= n
  {
    if n == 0 {
      assert positions == {};
    } else {
      BelowSize(positions - {n - 1}, n - 1);
    }
  }

  /** Only the frontier has ends outside what was reached. */
  ghost predicate Explored(child: Tree, v: string, i: nat, min: nat, result: set<nat>, frontier: set<nat>) {
    && Within(v, result) && Within(v, frontier) && frontier <= result
    && TimesAll(child, min, v, {i}) <= result && Reached(child, v, i, min, result)
    && EndsAll(child, v, result - frontier) <= result
  }

  lemma FirstFrontier(child: Tree, v: string, i: nat, min: nat, first: set<nat>)
    requires Within(v, first) && first == TimesAll(child, min, v, {i})
    ensures Explored(child, v, i, min, first, first)
  {
    hide Reached, TimesAll;
    FirstReached(child, v, i, min);
    assert first - first == {};
  }

  /** The positions not seen before become the frontier, and fewer stay unseen. */
  lemma FrontierMoves(child: Tree, v: string, i: nat, min: nat, result: set<nat>, frontier: set<nat>, next: set<nat>)
    requires Explored(child, v, i, min, result, frontier) && next == EndsAll(child, v, frontier) && Within(v, next)
    ensures var following := next - result;
            && Explored(child, v, i, min, result + following, following) && Within(v, following)
            && (following != {} ==> |result| < |result + following|) && |result + following| <= |v| + 1
  {
    hide Reached, EndsAll, TimesAll;
    var following := next - result;
    ReachesMore(child, v, i, min, result, frontier, next);
    assert result + following == result + next && result + following - following == result;
    BelowSize(result + following, |v| + 1);
    assert |result + following| == |result| + |following|;
  }

  /** Without a frontier everything reachable was reached. */
  lemma FixpointEnds(child: Tree, min: nat, v: string, i: nat, result: set<nat>)
    requires i <= |v| && Explored(child, v, i, min, result, {})
    ensures result == Ends(Repeat(child, min, None), v, i)
  {
    hide Ends, EndsAll, TimesAll;
    assert result - {} == result;
    forall n: nat | min <= n ensures TimesAll(child, n, v, {i}) <= result {
      ClosedHoldsAll(child, v, i, min, n, result);
    }
    RepeatEnds(child, min, None, v, i, result);
  }

  /** What `min` to `n` copies reach. */
  ghost function Between(child: Tree, v: string, i: nat, min: nat, n: nat): set<nat>
    requires min <= n
  {
    if n == min then TimesAll(child, min, v, {i}) else Between(child, v, i, min, n - 1) + TimesAll(child, n, v, {i})
  }

  lemma BetweenStep(child: Tree, v: string, i: nat, min: nat, n: nat)
    requires min <= n
    ensures Between(child, v, i, min, min) == TimesAll(child, min, v, {i})
    ensures TimesAll(child, n + 1, v, {i}) == EndsAll(child, v, TimesAll(child, n, v, {i}))
    ensures Between(child, v, i, min, n + 1) == Between(child, v, i, min, n) + TimesAll(child, n + 1, v, {i})
  {
  }

  lemma {:induction false} BetweenMeaning(child: Tree, v: string, i: nat, min: nat, n: nat)
    requires min <= n
    ensures forall m: nat :: min <= m <= n ==> TimesAll(child, m, v, {i}) <= Between(child, v, i, min, n)
    ensures forall j: nat :: j in Between(child, v, i, min, n) ==> ReachedBy(child, v, i, min, Some(n), j)
  {
    assert Allowed(n, min, Some(n));
    if n != min {
      BetweenMeaning(child, v, i, min, n - 1);
      forall j: nat | j in Between(child, v, i, min, n - 1) ensures ReachedBy(child, v, i, min, Some(n), j) {
        var m: nat :| Allowed(m, min, Some((n - 1) as nat)) && j in TimesAll(child, m, v, {i});
        assert Allowed(m, min, Some(n));
      }
    }
  }

  lemma BetweenEnds(child: Tree, min: nat, max: nat, v: string, i: nat, n: nat)
    requires i <= |v| && min <= n <= max && (n == max || TimesAll(child, n, v, {i}) == {})
    ensures Between(child, v, i, min, n) == Ends(Repeat(child, min, Some(max)), v, i)
  {
    BetweenMeaning(child, v, i, min, n);
    forall m: nat | min <= m <= max ensures TimesAll(child, m, v, {i}) <= Between(child, v, i, min, n) {
      if m > n {
        EmptyStaysEmpty(child, v, i, n, m);
      }
    }
    forall j: nat | j in Between(child, v, i, min, n) ensures ReachedBy(child, v, i, min, Some(max), j) {
      var m: nat :| Allowed(m, min, Some(n)) && j in TimesAll(child, m, v, {i});
      assert Allowed(m, min, Some(max));
    }
    RepeatEnds(child, min, Some(max), v, i, Between(child, v, i, min, n));
  }

  // ---------- The budget ----------

  lemma {:induction false} PairsBounded(keys: set<(nat, nat)>, m: nat, n: nat)
    requires forall k :: k in keys ==> k.0 < m && k.1 < n
    ensures |keys| <= m * n
  {
    if m == 0 {
      assert keys == {};
    } else {
      var last := set k | k in keys && k.0 == m - 1;
      PairsBounded(keys - last, m - 1, n);
      ColumnBounded(last, m - 1, n);
      assert keys == (keys - last) + last;
      assert m * n == (m - 1) * n + n;
    }
  }

  lemma NothingCached(ids: map<nat, Tree>, v: string)
    ensures Sound(map[], ids, v)
  {
  }

  lemma CacheBounded(cache: Cache, ids: map<nat, Tree>, v: string, tree: Tree)
    requires Sound(cache, ids, v) && Covers(ids, 0, Size(tree))
    ensures |cache| <= Size(tree) * (|v| + 1)
  {
    PairsBounded(cache.Keys, Size(tree), |v| + 1);
  }

  lemma {:induction false} ColumnBounded(keys: set<(nat, nat)>, m: nat, n: nat)
    requires forall k :: k in keys ==> k.0 == m && k.1 < n
    ensures |keys| <= n
  {
    if n == 0 {
      assert keys == {};
    } else {
      ColumnBounded(keys - {(m, n - 1)}, m, n - 1);
    }
  }

  class Searcher {
    const value: string
    ghost const ids: map<nat, Tree>
    var cache: Cache
    var ticks: nat

    ghost function Now(): Memo
      reads this
    {
      Memo(cache, ticks)
    }

    constructor (value: string, ghost ids: map<nat, Tree>)
      ensures this.value == value && this.ids == ids && cache == map[] && ticks == 0
    {
      this.value, this.ids, cache, ticks := value, ids, map[], 0;
    }

    method Evaluate(id: nat, node: Tree, start: nat) returns (result: set<nat>)
      requires Labels(ids, id, node) && start <= |value| && Sound(cache, ids, value)
      modifies this
      ensures Sound(cache, ids, value) && Works(old(Now()), Now(), id, id + Size(node))
      ensures result == Ends(node, value, start)
      decreases node, 3
    {
      hide Labels, Sound, Works, Ends, Size;
      var key := (id, start);
      if key in cache {
        Lookup(Now(), ids, value, id, node, start);
        return cache[key];
      }
      ticks := ticks + 1;
      result := EvaluateFresh(id, node, start);
      Stores(old(Now()), Now(), ids, value, id, node, start, result);
      cache := cache[key := result];
    }

    /** The body of `evaluate` between the cache lookup and the cache update. */
    method EvaluateFresh(id: nat, node: Tree, start: nat) returns (result: set<nat>)
      requires Labels(ids, id, node) && start <= |value| && Sound(cache, ids, value)
      modifies this
      ensures Sound(cache, ids, value) && Works(old(Now()), Now(), id + 1, id + Size(node))
      ensures result == Ends(node, value, start)
      decreases node, 2
    {
      hide Sound, Works, Ends, Labels;
      LabelsBelow(ids, id, node);
      LeafEnds(node, value, start);
      WorksNot(Now(), id + 1, id + Size(node));
      match node
      case Empty => result := {start};
      case Start => result := if start == 0 then {start} else {};
      case End => result := if start == |value| then {start} else {};
      case Char(p) => result := if start < |value| && Accepts(p, value[start]) then {start + 1} else {};
      case Alt(items) => result := EvaluateAlt(id, items, start);
      case Seq(items) =>
        result := EvaluateSeq(id, items, start);
        SeqEnds(items, value, start);
      case Repeat(child, min, max) => result := EvaluateRepeat(id, child, min, max, start);
    }

    method EvaluateAlt(id: nat, items: seq<Tree>, start: nat) returns (result: set<nat>)
      requires LabelsSeq(ids, id + 1, items) && start <= |value| && Sound(cache, ids, value)
      modifies this
      ensures Sound(cache, ids, value) && Works(old(Now()), Now(), id + 1, id + 1 + SizeSeq(items))
      ensures result == Ends(Alt(items), value, start)
      decreases items, 1
    {
      hide Sound, Works, Ends, Labels, LabelsSeq, Size, SizeSeq, SeqAll;
      result := {};
      var base: nat := id + 1;
      WorksNot(Now(), id + 1, id + 1);
      NoAltEnds(items, value, start);
      ItemsEnds(ids, base, items, value, result);
      for n := 0 to |items|
        invariant LabelsSeq(ids, base, items[n..]) && base + SizeSeq(items[n..]) == id + 1 + SizeSeq(items)
        invariant Sound(cache, ids, value) && id + 1 <= base && Works(old(Now()), Now(), id + 1, base)
        invariant result == Ends(Alt(items[..n]), value, start)
      {
        ghost var middle := Now();
        ItemsStep(ids, base, items, n, value, result);
        var more := Evaluate(base, items[n], start);
        WorksOn(old(Now()), middle, Now(), id + 1, base, base, base + Size(items[n]));
        AltEndsMore(items, n, value, start);
        result := result + more;
        base := base + Size(items[n]);
      }
    }

    method EvaluateSeq(id: nat, items: seq<Tree>, start: nat) returns (result: set<nat>)
      requires LabelsSeq(ids, id + 1, items) && start <= |value| && Sound(cache, ids, value)
      modifies this
      ensures Sound(cache, ids, value) && Works(old(Now()), Now(), id + 1, id + 1 + SizeSeq(items))
      ensures result == SeqAll(items, value, {start})
      decreases items, 1
    {
      hide Sound, Works, Labels, LabelsSeq, EndsAll, Size, SizeSeq, SeqAll;
      result := {start};
      var base: nat := id + 1;
      WorksNot(Now(), id + 1, id + 1);
      ItemsEnds(ids, base, items, value, result);
      for n := 0 to |items|
        invariant LabelsSeq(ids, base, items[n..]) && base + SizeSeq(items[n..]) == id + 1 + SizeSeq(items)
        invariant Sound(cache, ids, value) && id + 1 <= base && Works(old(Now()), Now(), id + 1, base)
        invariant Within(value, result) && SeqAll(items[n..], value, result) == SeqAll(items, value, {start})
      {
        ItemsStep(ids, base, items, n, value, result);
        WorksNot(Now(), id + 1, base + Size(items[n]));
        WorksOn(old(Now()), Now(), Now(), id + 1, base, id + 1, base + Size(items[n]));
        result := EvaluateAll(base, items[n], result, old(Now()), id + 1, base + Size(items[n]));
        base := base + Size(items[n]);
      }
      ItemsEnds(ids, base, items, value, result);
    }

    /** `Evaluate`, with the work since an earlier moment. */
    method EvaluateAt(id: nat, node: Tree, start: nat, ghost before: Memo, ghost lo: nat, ghost hi: nat)
      returns (result: set<nat>)
      requires Labels(ids, id, node) && start <= |value| && Sound(cache, ids, value)
      requires Works(before, Now(), lo, hi) && lo <= id && id + Size(node) <= hi
      modifies this
      ensures Sound(cache, ids, value) && Works(before, Now(), lo, hi) && result == Ends(node, value, start)
      decreases node, 4
    {
      hide Size, Sound, Works, Labels, Ends;
      ghost var middle := Now();
      result := Evaluate(id, node, start);
      WorksWithin(before, middle, Now(), lo, hi, id, id + Size(node));
    }

    /** One child evaluated at each of several positions. */
    method EvaluateAll(id: nat, node: Tree, from: set<nat>, ghost before: Memo, ghost lo: nat, ghost hi: nat)
      returns (result: set<nat>)
      requires Labels(ids, id, node) && Within(value, from) && Sound(cache, ids, value)
      requires Works(before, Now(), lo, hi) && lo <= id && id + Size(node) <= hi
      modifies this
      ensures Sound(cache, ids, value) && Works(before, Now(), lo, hi)
      ensures result == EndsAll(node, value, from) && Within(value, result)
      decreases node, 5
    {
      hide Size, Sound, Works, Labels, Ends, EndsAll, Within;
      result := {};
      var rest := from;
      EndsAllStep(node, value, from - rest, {});
      while rest != {}
        invariant rest <= from && Sound(cache, ids, value) && Works(before, Now(), lo, hi)
        invariant result == EndsAll(node, value, from - rest)
      {
        var pos :| pos in rest;
        WithinAt(value, from, pos);
        var more := EvaluateAt(id, node, pos, before, lo, hi);
        ghost var done := from - rest;
        EndsAllStep(node, value, done, {pos});
        result := result + more;
        rest := rest - {pos};
        assert from - rest == done + {pos};
      }
      assert from - rest == from;
      EndsAllWithin(node, value, from);
    }

    method EvaluateRepeat(id: nat, child: Tree, min: nat, max: Option<nat>, start: nat) returns (result: set<nat>)
      requires Labels(ids, id + 1, child) && start <= |value| && Sound(cache, ids, value)
      requires max.Some? ==> min <= max.value
      modifies this
      ensures Sound(cache, ids, value) && Works(old(Now()), Now(), id + 1, id + 1 + Size(child))
      ensures result == Ends(Repeat(child, min, max), value, start)
      decreases child, 7
    {
      hide Sound, Works, Labels, EndsAll, Ends;
      ghost var lo: nat, hi: nat := id + 1, id + 1 + Size(child);
      var frontier := {start};
      WorksNot(Now(), lo, hi);
      for n := 0 to min
        invariant Sound(cache, ids, value) && Works(old(Now()), Now(), lo, hi)
        invariant Within(value, frontier) && frontier == TimesAll(child, n, value, {start})
      {
        frontier := EvaluateAll(id + 1, child, frontier, old(Now()), lo, hi);
      }
      ghost var middle := Now();
      if max.None? {
        result := RepeatUnbounded(id, child, min, start, frontier);
      } else {
        result := RepeatBounded(id, child, min, max.value, start, frontier);
      }
      WorksOn(old(Now()), middle, Now(), lo, hi, lo, hi);
    }

    /** The frontier fixpoint. */
    method RepeatUnbounded(id: nat, child: Tree, min: nat, start: nat, first: set<nat>) returns (result: set<nat>)
      requires Labels(ids, id + 1, child) && start <= |value| && Sound(cache, ids, value)
      requires Within(value, first) && first == TimesAll(child, min, value, {start})
      modifies this
      ensures Sound(cache, ids, value) && Works(old(Now()), Now(), id + 1, id + 1 + Size(child))
      ensures result == Ends(Repeat(child, min, None), value, start)
      decreases child, 6
    {
      hide Size, Sound, Works, Labels, Ends, EndsAll, TimesAll, Explored, Within, LabelsSeq, SizeSeq;
      ghost var lo: nat, hi: nat := id + 1, id + 1 + Size(child);
      var frontier, seen := first, first;
      result := first;
      WorksNot(Now(), lo, hi);
      FirstFrontier(child, value, start, min, first);
      while frontier != {}
        invariant Sound(cache, ids, value) && Works(old(Now()), Now(), lo, hi)
        invariant seen == result && Within(value, frontier) && Explored(child, value, start, min, result, frontier)
        decreases |value| + 1 - |seen|, |frontier|
      {
        var next := EvaluateAll(id + 1, child, frontier, old(Now()), lo, hi);
        var following := next - seen;
        FrontierMoves(child, value, start, min, result, frontier, next);
        seen := seen + following;
        result := result + following;
        frontier := following;
      }
      FixpointEnds(child, min, value, start, result);
    }

    method RepeatBounded(id: nat, child: Tree, min: nat, max: nat, start: nat, first: set<nat>)
      returns (result: set<nat>)
      requires Labels(ids, id + 1, child) && start <= |value| && Sound(cache, ids, value)
      requires Within(value, first) && first == TimesAll(child, min, value, {start}) && min <= max
      modifies this
      ensures Sound(cache, ids, value) && Works(old(Now()), Now(), id + 1, id + 1 + Size(child))
      ensures result == Ends(Repeat(child, min, Some(max)), value, start)
      decreases child, 6
    {
      hide Size, Sound, Works, Labels, Ends, EndsAll, TimesAll, Between;
      ghost var lo: nat, hi: nat := id + 1, id + 1 + Size(child);
      var frontier := first;
      BetweenStep(child, value, start, min, min);
      result := first;
      var n, done := min, false;
      WorksNot(Now(), lo, hi);
      while n < max && !done
        invariant min <= n <= max && (done ==> frontier == {})
        invariant Sound(cache, ids, value) && Works(old(Now()), Now(), lo, hi)
        invariant Within(value, frontier) && frontier == TimesAll(child, n, value, {start})
        invariant result == Between(child, value, start, min, n)
      {
        frontier := EvaluateAll(id + 1, child, frontier, old(Now()), lo, hi);
        BetweenStep(child, value, start, min, n);
        result := result + frontier;
        n, done := n + 1, frontier == {};
      }
      BetweenEnds(child, min, max, value, start, n);
    }
  }

  lemma AnyEnd(tree: Tree, v: string, i: nat)
    requires i <= |v|
    ensures Ends(tree, v, i) != {} <==> exists j: nat :: Matches(tree, v, i, j)
  {
    forall j: nat ensures Matches(tree, v, i, j) <==> j in Ends(tree, v, i) {
      if Matches(tree, v, i, j) {
        MatchStays(tree, v, i, j);
      }
    }
    if Ends(tree, v, i) != {} {
      var j :| j in Ends(tree, v, i);
      assert Matches(tree, v, i, j);
    }
  }

  /** The search holds exactly when some substring matches, and evaluates each node at most once at each
      position. */
  method Search(tree: Tree, value: string) returns (found: bool, ticks: nat)
    requires Ordered(tree)
    ensures found <==> exists i: nat, j: nat :: i <= |value| && Matches(tree, value, i, j)
    ensures ticks <= Size(tree) * (|value| + 1)
  {
    hide Labels, Sound, Ends, Size, Covers, Ordered, Matches, Extends;
    ghost var ids := Label(0, tree);
    LabelWorks(0, tree);
    var searcher := new Searcher(value, ids);
    NothingCached(ids, value);
    found := false;
    var start := 0;
    while start <= |value| && !found
      invariant start <= |value| + 1
      invariant Sound(searcher.cache, ids, value) && searcher.ticks == |searcher.cache|
      invariant searcher.value == value && searcher.ids == ids
      invariant found ==> exists i: nat, j: nat :: i <= |value| && Matches(tree, value, i, j)
      invariant !found ==> forall i: nat, j: nat :: i < start ==> !Matches(tree, value, i, j)
    {
      var ends := searcher.Evaluate(0, tree, start);
      AnyEnd(tree, value, start);
      found := ends != {};
      start := start + 1;
    }
    ticks := searcher.ticks;
    CacheBounded(searcher.cache, ids, value, tree);
  }
}
