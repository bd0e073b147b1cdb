/** Building shapes triple by triple, with blank nodes numbered as they are made. */
module ShapeBuilder {
  import opened Shacl
  import opened Wrappers
  import opened TrackRules

  // ---------- Property constraints ----------

  function Counts(n: Option<nat>): set<Term> {
    if n.Some? then {Number(n.value)} else {}
  }

  function Optional(t: Option<Term>): set<Term> {
    if t.Some? then {t.value} else {}
  }

  /** The property shape `p` is written out in the graph as `c`; `head` is its list of allowed values. */
  ghost predicate Written(g: Graph, known: set<Term>, p: Term, c: Check, head: Term) {
    && Values(g, p, PathOf) == {Path(c.field)}
    && Values(g, p, MinCount) == Counts(c.min) && Values(g, p, MaxCount) == Counts(c.max)
    && Values(g, p, HasValue) == Optional(c.has)
    && Values(g, p, In) == (if c.among.Some? then {head} else {})
    && (c.among.Some? ==> Lists(g, known, head, c.among.value))
  }

  lemma WrittenDemands(g: Graph, known: set<Term>, p: Term, c: Check, head: Term)
    requires p in known && Written(g, known, p, c, head)
    ensures Demands(g, known, p, c)
  {
    hide Values, Agrees, IsList;
    forall h: Graph, f: Focus | Agrees(g, h, known)
      ensures PropertyConforms(h, p, f) == Holds(c, f)
    {
      forall v: Verb
        ensures Values(g, p, v) == Values(h, p, v)
      {
        SameValues(g, h, known, p, v);
      }
      if c.among.Some? {
        forall other | IsList(h, head, other)
          ensures other == c.among.value
        {
          ListIsUnique(h, head, other, c.among.value);
        }
      }
      if Holds(c, f) {
        assert PropertyConforms(h, p, f);
      }
    }
  }

  // ---------- Node shapes made of property constraints ----------

  ghost predicate ShapedBy(g: Graph, known: set<Term>, node: Term, checks: map<Term, Check>) {
    && Only(g, node, Property, checks.Keys) && checks.Keys <= known
    && forall p :: p in checks ==> Demands(g, known, p, checks[p])
  }

  /** The node `node`, which may still grow, demands exactly these checks. */
  ghost predicate Shaped(g: Graph, known: set<Term>, node: Term, checks: set<Check>) {
    exists made: map<Term, Check> :: ShapedBy(g, known, node, made) && made.Values == checks
  }

  lemma ShapedMeans(g: Graph, known: set<Term>, node: Term, checks: set<Check>)
    requires Shaped(g, known, node, checks)
    ensures Means(g, known + {node}, node, 0, All(checks))
  {
    hide Values, Agrees, PropertyConforms, Holds;
    var made: map<Term, Check> :| ShapedBy(g, known, node, made) && made.Values == checks;
    forall h: Graph, f: Focus, d: nat | Agrees(g, h, known + {node})
      ensures Conforms(h, node, f, d) == HoldAll(checks, f)
    {
      OnlyStays(g, h, known + {node}, node, Property, made.Keys);
      AgreesWithin(g, h, known, known + {node});
      forall p | p in made
        ensures PropertyConforms(h, p, f) == Holds(made[p], f)
      {
        assert Demands(g, known, p, made[p]);
      }
      forall c | c in checks
        ensures exists p :: p in made && made[p] == c
      {
      }
    }
  }

  lemma AgreesWithin(g: Graph, h: Graph, known: set<Term>, more: set<Term>)
    requires Agrees(g, h, more) && known <= more
    ensures Agrees(g, h, known)
  {
  }

  lemma ShapedGrows(g: Graph, known: set<Term>, node: Term, checks: set<Check>, h: Graph, more: set<Term>, p: Term,
                    c: Check)
    requires Shaped(g, known, node, checks) && Agrees(g, h, known) && known <= more
    requires Demands(h, more, p, c) && p in more && p !in known
    requires Only(h, node, Property, Values(g, node, Property) + {p})
    ensures Shaped(h, more, node, checks + {c})
  {
    hide Values, Agrees, PropertyConforms, Holds;
    var made: map<Term, Check> :| ShapedBy(g, known, node, made) && made.Values == checks;
    var now := made[p := c];
    forall q | q in now
      ensures Demands(h, more, q, now[q])
    {
      if q != p {
        assert Demands(g, known, q, made[q]);
        PropertyStays(g, known, h, more, q, made[q]);
      }
    }
    assert now.Keys == made.Keys + {p};
    assert now.Values == checks + {c} by {
      assert p in now;
      forall x | x in checks
        ensures x in now.Values
      {
        var q :| q in made && made[q] == x;
        assert q in now && now[q] == x;
      }
    }
    assert ShapedBy(h, more, node, now);
  }

  // ---------- The builder ----------

  function Blanks(a: nat, b: nat): set<Term> {
    set i: nat | a <= i < b :: Blank(i)
  }

  predicate Numbered(g: Graph, n: nat) {
    forall t :: t in g && t.subject.Blank? ==> t.subject.id < n
  }

  /** Only triples about the blank nodes numbered from `a` to `b` were added. */
  ghost predicate Grew(g: Graph, a: nat, h: Graph, b: nat) {
    a <= b && g <= h && forall t :: t in h && t !in g ==> t.subject in Blanks(a, b)
  }

  lemma GrewAgrees(g: Graph, a: nat, h: Graph, b: nat, known: set<Term>)
    requires Grew(g, a, h, b) && known !! Blanks(a, b)
    ensures Agrees(g, h, known)
    ensures forall s, v :: s in known ==> Values(g, s, v) == Values(h, s, v)
  {
    forall s, v | s in known
      ensures Values(g, s, v) == Values(h, s, v)
    {
      SameValues(g, h, known, s, v);
    }
  }

  lemma GrewTwice(g: Graph, a: nat, h: Graph, b: nat, k: Graph, c: nat)
    requires Grew(g, a, h, b) && Grew(h, b, k, c)
    ensures Grew(g, a, k, c)
  {
  }

  lemma Unchanged(g: Graph, a: nat, b: nat)
    requires a <= b
    ensures Grew(g, a, g, b)
  {
  }

  lemma GrewMore(g: Graph, a: nat, h: Graph, b: nat, k: Graph, c: nat)
    requires Grew(g, a, h, b) && b <= c && h <= k && forall t :: t in k && t !in h ==> t.subject in Blanks(a, c)
    ensures Grew(g, a, k, c)
  {
  }

  lemma ValuesAdd(g: Graph, t: Triple, s: Term, v: Verb)
    ensures Values(g + {t}, s, v) == Values(g, s, v) + if t.subject == s && t.verb == v then {t.value} else {}
  {
  }

  lemma Bare(g: Graph, n: nat)
    requires Numbered(g, n)
    ensures forall v: Verb :: Values(g, Blank(n), v) == {}
  {
  }

  function OptionalCount(p: Term, verb: Verb, n: Option<nat>): set<Triple> {
    if n.Some? then {Triple(p, verb, Number(n.value))} else {}
  }

  function PropertyTriples(node: Term, p: Term, field: Field, min: Option<nat>, max: Option<nat>): set<Triple> {
    {Triple(node, Property, p), Triple(p, PathOf, Path(field))} + OptionalCount(p, MinCount, min) +
        OptionalCount(p, MaxCount, max)
  }

  /** Linked cells from `cells[k]` on spell the values from `k` on. */
  lemma {:induction false} ChainIsList(h: Graph, cells: seq<Term>, values: seq<Term>, k: nat)
    requires |cells| == |values| + 1 && k <= |values| && cells[|values|] == NIL
    requires forall i :: 0 <= i < |values| ==>
             cells[i] != NIL && Values(h, cells[i], First) == {values[i]} && Values(h, cells[i], Rest) == {cells[i + 1]}
    ensures IsList(h, cells[k], values[k..])
    decreases |values| - k
  {
    hide Values;
    if k < |values| {
      ChainIsList(h, cells, values, k + 1);
      assert values[k..][1..] == values[k + 1..];
    }
  }

  /** The first `n` cells are linked and hold the first `n` values; the last one is still bare. */
  ghost predicate Linked(g: Graph, known: set<Term>, cells: seq<Term>, values: seq<Term>, n: nat) {
    && |cells| == n + 1 && n <= |values| && NIL !in known
    && (forall k :: 0 <= k < n ==> cells[k] in known && cells[k] != cells[n])
    && (forall k :: 0 <= k < n ==>
        Values(g, cells[k], First) == {values[k]} && Values(g, cells[k], Rest) == {cells[k + 1]})
    && if n == |values| then cells[n] == NIL else cells[n] in known && forall v: Verb :: Values(g, cells[n], v) == {}
  }

  function Link(g: Graph, cell: Term, value: Term, following: Term): Graph {
    g + {Triple(cell, First, value)} + {Triple(cell, Rest, following)}
  }

  lemma CurrentKnown(g: Graph, known: set<Term>, cells: seq<Term>, values: seq<Term>, n: nat)
    requires Linked(g, known, cells, values, n)
    ensures |cells| == n + 1 && (n < |values| ==> cells[n] in known)
  {
  }

  lemma LinkOne(g: Graph, known: set<Term>, cells: seq<Term>, values: seq<Term>, n: nat, more: set<Term>,
                following: Term)
    requires Linked(g, known, cells, values, n) && n < |values| && known <= more && NIL !in more
    requires following !in known
    requires if n == |values| - 1 then following == NIL
             else following in more && forall v: Verb :: Values(g, following, v) == {}
    ensures Linked(Link(g, cells[n], values[n], following), more, cells + [following], values, n + 1)
  {
    hide Values;
    var current, h := cells[n], Link(g, cells[n], values[n], following);
    forall s: Term, v: Verb
      ensures Values(h, s, v) == Values(g, s, v)
                + (if s == current && v == First then {values[n]} else {}) +
                    (if s == current && v == Rest then {following} else {})
    {
      ValuesAdd(g, Triple(current, First, values[n]), s, v);
      ValuesAdd(g + {Triple(current, First, values[n])}, Triple(current, Rest, following), s, v);
    }
  }

  lemma LinkedLists(g: Graph, known: set<Term>, cells: seq<Term>, values: seq<Term>)
    requires Linked(g, known, cells, values, |values|)
    ensures Lists(g, known, cells[0], values)
  {
    hide Values, Agrees, IsList;
    forall h: Graph | Agrees(g, h, known)
      ensures IsList(h, cells[0], values)
    {
      forall i | 0 <= i < |values|
        ensures Values(h, cells[i], First) == {values[i]} && Values(h, cells[i], Rest) == {cells[i + 1]}
      {
        SameValues(g, h, known, cells[i], First);
        SameValues(g, h, known, cells[i], Rest);
      }
      ChainIsList(h, cells, values, 0);
      assert values[0..] == values;
    }
  }

  /** The triples that spell a check on the property shape `p`, except the cells of its list. */
  function CheckTriples(node: Term, p: Term, c: Check, head: Term): set<Triple> {
    PropertyTriples(node, p, c.field, c.min, c.max)
    + (if c.has.Some? then {Triple(p, HasValue, c.has.value)} else {})
    + (if c.among.Some? then {Triple(p, In, head)} else {})
  }

  lemma NodeValues(g: Graph, node: Term, p: Term, c: Check, cells: set<Triple>, head: Term, h: Graph)
    requires node != p && forall t :: t in cells ==> t.subject != node
    requires h == g + CheckTriples(node, p, c, head) + cells
    ensures forall v: Verb :: Values(h, node, v) == Values(g, node, v) + if v == Property then {p} else {}
  {
    hide Values;
    forall v: Verb
      ensures Values(h, node, v) == Values(g, node, v) + if v == Property then {p} else {}
    {
      InValues(g, node, v);
      InValues(h, node, v);
    }
  }

  lemma CheckValues(g: Graph, node: Term, p: Term, c: Check, cells: set<Triple>, head: Term, h: Graph)
    requires node != p && forall t :: t in g + cells ==> t.subject != p
    requires h == g + CheckTriples(node, p, c, head) + cells
    ensures Values(h, p, PathOf) == {Path(c.field)}
    ensures Values(h, p, MinCount) == Counts(c.min) && Values(h, p, MaxCount) == Counts(c.max)
    ensures Values(h, p, HasValue) == Optional(c.has) && Values(h, p, In) == if c.among.Some? then {head} else {}
  {
    hide Values, CheckTriples;
    forall v: Verb
      ensures Values(h, p, v) == Values(CheckTriples(node, p, c, head), p, v)
    {
      InValues(h, p, v);
      InValues(CheckTriples(node, p, c, head), p, v);
    }
    CountsWritten(node, p, c, head);
    ValuesWritten(node, p, c, head);
  }

  lemma CountsWritten(node: Term, p: Term, c: Check, head: Term)
    requires node != p
    ensures var all := CheckTriples(node, p, c, head);
            Values(all, p, MinCount) == Counts(c.min) && Values(all, p, MaxCount) == Counts(c.max)
  {
    hide Values;
    InValues(CheckTriples(node, p, c, head), p, MinCount);
    InValues(CheckTriples(node, p, c, head), p, MaxCount);
  }

  lemma ValuesWritten(node: Term, p: Term, c: Check, head: Term)
    requires node != p
    ensures var all := CheckTriples(node, p, c, head);
            && Values(all, p, PathOf) == {Path(c.field)} && Values(all, p, HasValue) == Optional(c.has)
            && Values(all, p, In) == if c.among.Some? then {head} else {}
  {
    hide Values;
    InValues(CheckTriples(node, p, c, head), p, PathOf);
    InValues(CheckTriples(node, p, c, head), p, HasValue);
    InValues(CheckTriples(node, p, c, head), p, In);
  }

  lemma InValues(g: Graph, s: Term, v: Verb)
    ensures forall x :: x in Values(g, s, v) <==> Triple(s, v, x) in g
  {
    forall x
      ensures x in Values(g, s, v) <==> Triple(s, v, x) in g
    {
    }
  }

  lemma NodeOnly(g: Graph, known: set<Term>, node: Term, checks: set<Check>)
    requires Shaped(g, known, node, checks)
    ensures forall v: Verb :: v in {Not, Or, Xone, And} ==> Values(g, node, v) == {}
  {
  }

  lemma CheckAdded(g: Graph, known: set<Term>, node: Term, checks: set<Check>, p: Term, c: Check, cells: set<Triple>,
                   head: Term, h: Graph, more: set<Term>)
    requires Shaped(g, known, node, checks) && known <= more && p in more && p !in known && node !in more
    requires forall t :: t in g + cells ==> t.subject != p
    requires forall t :: t in cells ==> t.subject !in known + {node}
    requires h == g + CheckTriples(node, p, c, head) + cells
    requires c.among.Some? ==> Lists(h, more, head, c.among.value)
    ensures Shaped(h, more, node, checks + {c})
  {
    hide Values, PropertyConforms, Holds, Demands, Lists;
    NodeValues(g, node, p, c, cells, head, h);
    CheckValues(g, node, p, c, cells, head, h);
    WrittenDemands(h, more, p, c, head);
    NodeOnly(g, known, node, checks);
    ShapedGrows(g, known, node, checks, h, more, p, c);
  }

  lemma NodeIsBare(g: Graph, n: nat, h: Graph, node: Term)
    requires Numbered(g, n) && node == Blank(n) && h == g + {Triple(node, Type, NODE_SHAPE)}
    ensures Shaped(h, Blanks(n, n + 1) - {node}, node, {})
  {
    Bare(g, n);
    forall v: Verb
      ensures v != Type ==> Values(h, node, v) == {}
    {
      ValuesAdd(g, Triple(node, Type, NODE_SHAPE), node, v);
    }
    var none: map<Term, Check> := map[];
    assert ShapedBy(h, Blanks(n, n + 1) - {node}, node, none);
    assert none.Values == {};
  }

  lemma SingleOnly(g: Graph, n: nat, node: Term, verb: Verb, value: Term, h: Graph)
    requires Numbered(g, n) && node == Blank(n) && verb != Type
    requires h == g + {Triple(node, Type, NODE_SHAPE)} + {Triple(node, verb, value)}
    ensures Only(h, node, verb, {value})
  {
    hide Values;
    Bare(g, n);
    forall v: Verb
      ensures v != Type ==> Values(h, node, v) == if v == verb then {value} else {}
    {
      ValuesAdd(g, Triple(node, Type, NODE_SHAPE), node, v);
      ValuesAdd(g + {Triple(node, Type, NODE_SHAPE)}, Triple(node, verb, value), node, v);
    }
  }

  lemma OrOnly(g: Graph, n: nat, node: Term, g2: Graph, n2: nat, g3: Graph, n3: nat, list: Term, h: Graph)
    requires Numbered(g, n) && node == Blank(n) && n2 == n + 1 && g2 == g + {Triple(node, Type, NODE_SHAPE)}
    requires Grew(g2, n2, g3, n3) && h == g3 + {Triple(node, Or, list)}
    ensures Only(h, node, Or, {list})
  {
    hide Values;
    Bare(g, n);
    GrewAgrees(g2, n2, g3, n3, {node});
    forall v: Verb
      ensures v != Type ==> Values(h, node, v) == if v == Or then {list} else {}
    {
      ValuesAdd(g, Triple(node, Type, NODE_SHAPE), node, v);
      ValuesAdd(g3, Triple(node, Or, list), node, v);
    }
  }

  /** What was known about a finished shape stays known when the graph grows. */
  lemma MeansGrew(g: Graph, n: nat, h: Graph, m: nat, shape: Term, depth: nat, deeper: nat, form: Form)
    requires Means(g, Blanks(1, n), shape, depth, form) && Grew(g, n, h, m) && depth <= deeper
    ensures Means(h, Blanks(1, m), shape, deeper, form)
  {
    hide Means, Values, Agrees;
    GrewAgrees(g, n, h, m, Blanks(1, n));
    MeansStays(g, Blanks(1, n), h, Blanks(1, m), shape, depth, deeper, form);
  }

  lemma FinishedNode(g: Graph, a: nat, b: nat, node: Term, checks: set<Check>, depth: nat)
    requires 1 <= a && node in Blanks(a, b) && Shaped(g, Blanks(a, b) - {node}, node, checks)
    ensures Means(g, Blanks(1, b), node, depth, All(checks))
  {
    hide Means, Shaped;
    ShapedMeans(g, Blanks(a, b) - {node}, node, checks);
    assert Blanks(a, b) - {node} + {node} == Blanks(a, b);
    MeansStays(g, Blanks(a, b), g, Blanks(1, b), node, 0, depth, All(checks));
  }

  lemma AllMeanGrew(g: Graph, n: nat, h: Graph, m: nat, items: seq<Term>, depth: nat, deeper: nat, forms: seq<Form>)
    requires AllMean(g, Blanks(1, n), items, depth, forms) && Grew(g, n, h, m) && depth <= deeper
    ensures AllMean(h, Blanks(1, m), items, deeper, forms)
  {
    hide Means, Grew;
    forall k | 0 <= k < |items|
      ensures Means(h, Blanks(1, m), items[k], deeper, forms[k])
    {
      MeansGrew(g, n, h, m, items[k], depth, deeper, forms[k]);
    }
  }

  lemma AllMeanSnoc(g: Graph, known: set<Term>, items: seq<Term>, depth: nat, forms: seq<Form>, item: Term, form: Form)
    requires AllMean(g, known, items, depth, forms) && Means(g, known, item, depth, form)
    ensures AllMean(g, known, items + [item], depth, forms + [form])
  {
    hide Means;
  }

  /** `shape` has no constraint. */
  ghost predicate Unconstrained(g: Graph, shape: Term) {
    forall v: Verb :: v in {Property, Not, Or, Xone, And} ==> Values(g, shape, v) == {}
  }

  lemma UnconstrainedGrew(g: Graph, n: nat, h: Graph, m: nat, shape: Term)
    requires Grew(g, n, h, m) && shape.Iri?
    ensures forall v: Verb :: Values(g, shape, v) == Values(h, shape, v)
  {
    GrewAgrees(g, n, h, m, {shape});
  }

  lemma NoneMean(g: Graph, known: set<Term>, table: Table)
    ensures AllMean(g, known, [], 0, Variants(table, []))
  {
  }

  lemma NothingMeans(g: Graph, known: set<Term>)
    ensures AllMean(g, known, [], 3, [])
  {
  }

  /** The list of variants hangs off the Track shape, and stays there. */
  lemma VariantsListed(table: Table, order: seq<string>, g0: Graph, n0: nat, g1: Graph, n1: nat, g2: Graph, n2: nat,
                       list: Term, variants: seq<Term>, h: Graph, m: nat)
    requires 1 <= n0 && Unconstrained(g0, TRACK) && Grew(g0, n0, g1, n1) && Grew(g1, n1, g2, n2)
    requires (forall k :: 0 <= k < |order| ==> order[k] in table)
    requires AllMean(g1, Blanks(1, n1), variants, 0, Variants(table, order))
    requires Lists(g2, Blanks(n1, n2), list, variants)
    requires Grew(g2 + {Triple(TRACK, Xone, list)}, n2, h, m)
    ensures forall v: Verb :: v in {Property, Not, Or, Xone, And} ==>
            Values(h, TRACK, v) == if v == Xone then {list} else {}
    ensures Lists(h, Blanks(1, m), list, variants) && AllMean(h, Blanks(1, m), variants, 3, Variants(table, order))
  {
    hide Values, AllMean, Lists, Variants;
    var g3 := g2 + {Triple(TRACK, Xone, list)};
    UnconstrainedGrew(g0, n0, g1, n1, TRACK);
    UnconstrainedGrew(g1, n1, g2, n2, TRACK);
    UnconstrainedGrew(g3, n2, h, m, TRACK);
    forall v: Verb | v in {Property, Not, Or, Xone, And}
      ensures Values(h, TRACK, v) == if v == Xone then {list} else {}
    {
      ValuesAdd(g2, Triple(TRACK, Xone, list), TRACK, v);
    }
    AllMeanGrew(g1, n1, g2, n2, variants, 0, 3, Variants(table, order));
    AllMeanStays(g2, Blanks(1, n2), g3, Blanks(1, n2), variants, 3, Variants(table, order));
    AllMeanGrew(g3, n2, h, m, variants, 3, 3, Variants(table, order));
    ListsStays(g2, Blanks(n1, n2), g3, Blanks(1, n2), list, variants);
    GrewAgrees(g3, n2, h, m, Blanks(1, n2));
    ListsStays(g3, Blanks(1, n2), h, Blanks(1, m), list, variants);
  }

  lemma AllMeanStays(g: Graph, known: set<Term>, h: Graph, more: set<Term>, items: seq<Term>, depth: nat,
                     forms: seq<Form>)
    requires AllMean(g, known, items, depth, forms) && Agrees(g, h, known) && known <= more
    ensures AllMean(h, more, items, depth, forms)
  {
    hide Means, Agrees;
    forall k | 0 <= k < |items|
      ensures Means(h, more, items[k], depth, forms[k])
    {
      MeansStays(g, known, h, more, items[k], depth, depth, forms[k]);
    }
  }

  const TRACK := Iri("TrackShape")

  function AndTriples(heads: map<Term, Term>): set<Triple> {
    set owner | owner in heads :: Triple(owner, And, heads[owner])
  }

  /** Each owner in `heads` has its constraints joined in one list; nothing else is said about old subjects. */
  ghost predicate Joined(g: Graph, n: nat, h: Graph, m: nat, heads: map<Term, Term>, extras: map<Term, seq<Term>>) {
    && heads.Keys <= extras.Keys && n <= m && g <= h && AndTriples(heads) <= h
    && (forall t :: t in h && t !in g ==> t.subject in Blanks(n, m) || t in AndTriples(heads))
    && (forall owner :: owner in heads ==> owner.Iri?)
    && (forall owner :: owner in heads ==> Lists(h, Blanks(n, m), heads[owner], extras[owner]))
  }

  lemma JoinedNone(g: Graph, n: nat, extras: map<Term, seq<Term>>)
    ensures Joined(g, n, g, n, map[], extras)
  {
  }

  lemma JoinedMore(g: Graph, n: nat, h: Graph, m: nat, heads: map<Term, Term>, extras: map<Term, seq<Term>>,
                   owner: Term, list: Term, k: Graph, l: nat)
    requires Joined(g, n, h, m, heads, extras) && owner in extras && owner !in heads && owner.Iri?
    requires Grew(h, m, k, l) && Lists(k, Blanks(m, l), list, extras[owner])
    ensures Joined(g, n, k + {Triple(owner, And, list)}, l, heads[owner := list], extras)
  {
    hide Lists;
    var now, all := k + {Triple(owner, And, list)}, heads[owner := list];
    assert AndTriples(all) == AndTriples(heads) + {Triple(owner, And, list)} by {
      forall o | o in heads
        ensures Triple(o, And, heads[o]) in AndTriples(all)
      {
        assert o in all && all[o] == heads[o];
      }
      assert owner in all && all[owner] == list;
    }
    forall o | o in all
      ensures Lists(now, Blanks(n, l), all[o], extras[o])
    {
      if o == owner {
        ListsStays(k, Blanks(m, l), now, Blanks(n, l), list, extras[o]);
      } else {
        ListsStays(h, Blanks(n, m), now, Blanks(n, l), heads[o], extras[o]);
      }
    }
  }

  /** The Track shape has one list of variants, with these meanings, and `rules` mean its four laws. */
  ghost predicate TrackReady(g: Graph, n: nat, xone: Term, variants: seq<Term>, forms: seq<Form>, rules: seq<Term>) {
    && (forall v: Verb :: v in {Property, Not, Or, Xone, And} ==>
        Values(g, TRACK, v) == if v == Xone then {xone} else {})
    && Lists(g, Blanks(1, n), xone, variants) && AllMean(g, Blanks(1, n), variants, 3, forms)
    && AllMean(g, Blanks(1, n), rules, 3, Laws())
  }

  lemma TrackReadyGrew(g: Graph, n: nat, h: Graph, m: nat, xone: Term, variants: seq<Term>, forms: seq<Form>,
                       rules: seq<Term>)
    requires 1 <= n && TrackReady(g, n, xone, variants, forms, rules) && Grew(g, n, h, m)
    ensures TrackReady(h, m, xone, variants, forms, rules)
  {
    hide AllMean, Lists, Laws, Values;
    UnconstrainedGrew(g, n, h, m, TRACK);
    GrewAgrees(g, n, h, m, Blanks(1, n));
    ListsStays(g, Blanks(1, n), h, Blanks(1, m), xone, variants);
    AllMeanGrew(g, n, h, m, variants, 3, 3, forms);
    AllMeanGrew(g, n, h, m, rules, 3, 3, Laws());
  }

  /** Finishing adds the `sh:and` list of a Track and leaves the rest as it was. */
  lemma TrackFinished(g: Graph, n: nat, h: Graph, m: nat, heads: map<Term, Term>, extras: map<Term, seq<Term>>,
                      xone: Term, variants: seq<Term>, forms: seq<Form>, rules: seq<Term>)
    requires 1 <= n && Joined(g, n, h, m, heads, extras) && heads.Keys == extras.Keys && TRACK in extras
    requires extras[TRACK] == rules
    requires TrackReady(g, n, xone, variants, forms, rules)
    ensures Values(h, TRACK, Property) == Values(h, TRACK, Not) == Values(h, TRACK, Or) == {}
    ensures Values(h, TRACK, Xone) == {xone} && Values(h, TRACK, And) == {heads[TRACK]}
    ensures Lists(h, Blanks(1, m), xone, variants) && AllMean(h, Blanks(1, m), variants, 3, forms)
    ensures Lists(h, Blanks(1, m), heads[TRACK], rules) && AllMean(h, Blanks(1, m), rules, 3, Laws())
  {
    hide AllMean, Lists, Laws, Values, Joined, Agrees;
    JoinedAgrees(g, n, h, m, heads, extras);
    ListsStays(g, Blanks(1, n), h, Blanks(1, m), xone, variants);
    AllMeanStays(g, Blanks(1, n), h, Blanks(1, m), variants, 3, forms);
    AllMeanStays(g, Blanks(1, n), h, Blanks(1, m), rules, 3, Laws());
    ListsStays(h, Blanks(n, m), h, Blanks(1, m), heads[TRACK], rules);
    TrackValues(g, n, h, m, heads, extras);
  }

  lemma JoinedAgrees(g: Graph, n: nat, h: Graph, m: nat, heads: map<Term, Term>, extras: map<Term, seq<Term>>)
    requires 1 <= n && Joined(g, n, h, m, heads, extras) && TRACK in heads && TRACK in extras
    ensures n <= m && Agrees(g, h, Blanks(1, n)) && Agrees(h, h, Blanks(n, m))
    ensures Lists(h, Blanks(n, m), heads[TRACK], extras[TRACK])
  {
    hide Lists;
  }

  lemma TrackValues(g: Graph, n: nat, h: Graph, m: nat, heads: map<Term, Term>, extras: map<Term, seq<Term>>)
    requires Joined(g, n, h, m, heads, extras) && TRACK in heads
    ensures forall v: Verb :: Values(h, TRACK, v) == Values(g, TRACK, v) + if v == And then {heads[TRACK]} else {}
  {
    hide Values, Lists;
    forall v: Verb
      ensures Values(h, TRACK, v) == Values(g, TRACK, v) + if v == And then {heads[TRACK]} else {}
    {
      InValues(g, TRACK, v);
      InValues(h, TRACK, v);
      assert Triple(TRACK, And, heads[TRACK]) in AndTriples(heads);
    }
  }

  /** The constraints collected for an owner so far. */
  function ConstraintsOf(extras: map<Term, seq<Term>>, owner: Term): seq<Term> {
    if owner in extras then extras[owner] else []
  }

  class Shapes {
    var graph: Graph
    var numbers: nat
    var extras: map<Term, seq<Term>>

    ghost predicate Valid()
      reads this
    {
      numbers >= 1 && Numbered(graph, numbers)
    }

    constructor ()
      ensures Valid() && graph == {} && extras == map[]
    {
      graph, numbers, extras := {}, 1, map[];
    }

    method NewBlank() returns (b: Term)
      requires Valid()
      modifies this`numbers
      ensures Valid() && b == Blank(old(numbers)) && numbers == old(numbers) + 1
    {
      b := Blank(numbers);
      numbers := numbers + 1;
    }

    method Add(subject: Term, verb: Verb, value: Term)
      requires Valid() && (subject.Blank? ==> subject.id < numbers)
      modifies this`graph
      ensures Valid() && graph == old(graph) + {Triple(subject, verb, value)}
    {
      graph := graph + {Triple(subject, verb, value)};
    }

    method RdfList(values: seq<Term>) returns (head: Term)
      requires Valid()
      modifies this`graph, this`numbers
      ensures Valid() && Grew(old(graph), old(numbers), graph, numbers)
      ensures Lists(graph, Blanks(old(numbers), numbers), head, values)
    {
      if values == [] {
        return NIL;
      }
      head := NewBlank();
      var current, index := head, 0;
      ghost var cells := [head];
      Bare(graph, old(numbers));
      while index < |values|
        invariant Valid() && Grew(old(graph), old(numbers), graph, numbers)
        invariant 0 <= index <= |values| && Linked(graph, Blanks(old(numbers), numbers), cells, values, index)
        invariant cells[0] == head && cells[index] == current
      {
        hide Values, Linked, Grew;
        ghost var before, known, made := graph, Blanks(old(numbers), numbers), numbers;
        CurrentKnown(graph, known, cells, values, index);
        Add(current, First, values[index]);
        var following := NIL;
        if index < |values| - 1 {
          following := NewBlank();
          Bare(before, numbers - 1);
        }
        Add(current, Rest, following);
        GrewMore(old(graph), old(numbers), before, made, graph, numbers);
        LinkOne(before, known, cells, values, index, Blanks(old(numbers), numbers), following);
        current := following;
        cells := cells + [following];
        index := index + 1;
        CurrentKnown(graph, Blanks(old(numbers), numbers), cells, values, index);
      }
      LinkedLists(graph, Blanks(old(numbers), numbers), cells, values);
    }

    method NewNode() returns (node: Term)
      requires Valid()
      modifies this`graph, this`numbers
      ensures Valid() && Grew(old(graph), old(numbers), graph, numbers)
      ensures node == Blank(old(numbers)) && numbers == old(numbers) + 1
      ensures graph == old(graph) + {Triple(node, Type, NODE_SHAPE)}
    {
      node := NewBlank();
      Add(node, Type, NODE_SHAPE);
    }

    method NewProperty(node: Term, field: Field, min: Option<nat>, max: Option<nat>) returns (p: Term)
      requires Valid() && (node.Blank? ==> node.id < numbers)
      modifies this`graph, this`numbers
      ensures Valid() && p == Blank(old(numbers)) && numbers == old(numbers) + 1
      ensures graph == old(graph) + PropertyTriples(node, p, field, min, max)
    {
      p := NewBlank();
      Add(node, Property, p);
      Add(p, PathOf, Path(field));
      if min.Some? {
        Add(p, MinCount, Number(min.value));
      }
      if max.Some? {
        Add(p, MaxCount, Number(max.value));
      }
    }

    method MemberOf(p: Term, values: seq<Term>) returns (ghost head: Term, ghost cells: set<Triple>)
      requires Valid() && (p.Blank? ==> p.id < numbers)
      modifies this`graph, this`numbers
      ensures Valid() && old(numbers) <= numbers
      ensures graph == old(graph) + cells + {Triple(p, In, head)}
      ensures forall t :: t in cells ==> t.subject in Blanks(old(numbers), numbers)
      ensures Lists(old(graph) + cells, Blanks(old(numbers), numbers), head, values)
    {
      var list := RdfList(values);
      head, cells := list, graph - old(graph);
      assert graph == old(graph) + cells;
      Add(p, In, list);
    }

    /** A property shape on `node`, with its counts, its required value and its allowed values. */
    method Constrain(node: Term, c: Check, ghost base: nat, ghost checks: set<Check>)
      requires Valid() && node in Blanks(base, numbers)
      requires Shaped(graph, Blanks(base, numbers) - {node}, node, checks)
      modifies this`graph, this`numbers
      ensures Valid() && old(numbers) <= numbers && old(graph) <= graph
      ensures forall t :: t in graph && t !in old(graph) ==> t.subject in Blanks(base, numbers)
      ensures Shaped(graph, Blanks(base, numbers) - {node}, node, checks + {c})
    {
      hide Shaped, Lists;
      var p := NewProperty(node, c.field, c.min, c.max);
      if c.has.Some? {
        Add(p, HasValue, c.has.value);
      }
      ghost var head, cells := NIL, {};
      ghost var before := graph;
      ghost var from := numbers;
      if c.among.Some? {
        head, cells := MemberOf(p, c.among.value);
        ListsStays(before + cells, Blanks(from, numbers), graph, Blanks(base, numbers) - {node}, head, c.among.value);
      }
      CheckAdded(old(graph), Blanks(base, old(numbers)) - {node}, node, checks, p, c, cells, head, graph,
                 Blanks(base, numbers) - {node});
    }

    /** A new node with one property shape. */
    method CheckNode(c: Check) returns (node: Term)
      requires Valid()
      modifies this`graph, this`numbers
      ensures Valid() && Grew(old(graph), old(numbers), graph, numbers) && node in Blanks(old(numbers), numbers)
      ensures Shaped(graph, Blanks(old(numbers), numbers) - {node}, node, {c})
    {
      node := NewNode();
      NodeIsBare(old(graph), old(numbers), graph, node);
      Constrain(node, c, old(numbers), {});
      assert {} + {c} == {c};
    }

    /** A new node with the single constraint `not antecedent`. */
    method NotNode(arg: Term, ghost depth: nat, ghost form: Form) returns (node: Term)
      requires Valid() && Means(graph, Blanks(1, numbers), arg, depth, form)
      modifies this`graph, this`numbers
      ensures Valid() && Grew(old(graph), old(numbers), graph, numbers) && node in Blanks(old(numbers), numbers)
      ensures Means(graph, Blanks(1, numbers), node, depth + 1, Negation(form))
    {
      hide Means;
      node := NewNode();
      Add(node, Not, arg);
      SingleOnly(old(graph), old(numbers), node, Not, arg, graph);
      MeansGrew(old(graph), old(numbers), graph, numbers, arg, depth, depth, form);
      NotMeans(graph, Blanks(1, numbers), node, arg, depth, form);
    }

    method Implication(owner: Term, antecedent: Term, consequent: Term, ghost depth: nat, ghost left: Form,
                       ghost right: Form)
      returns (ghost law: Term)
      requires Valid()
      requires Means(graph, Blanks(1, numbers), antecedent, depth, left)
      requires Means(graph, Blanks(1, numbers), consequent, depth, right)
      modifies this
      ensures Valid() && Grew(old(graph), old(numbers), graph, numbers)
      ensures extras == old(extras)[owner := ConstraintsOf(old(extras), owner) + [law]]
      ensures Means(graph, Blanks(1, numbers), law, depth + 2, Implies(left, right))
    {
      hide Means, Lists;
      var negated := NotNode(antecedent, depth, left);
      ghost var g1, n1 := graph, numbers;
      MeansGrew(old(graph), old(numbers), g1, n1, consequent, depth, depth + 1, right);
      var constraint := NewNode();
      ghost var g2, n2 := graph, numbers;
      var list := RdfList([negated, consequent]);
      ghost var g3 := graph;
      Add(constraint, Or, list);
      assert Grew(g1, n1, graph, numbers);
      OrOnly(g1, n1, constraint, g2, n2, g3, numbers, list, graph);
      MeansGrew(g1, n1, graph, numbers, negated, depth + 1, depth + 1, Negation(left));
      MeansGrew(g1, n1, graph, numbers, consequent, depth + 1, depth + 1, right);
      ListsStays(g3, Blanks(n2, numbers), graph, Blanks(1, numbers), list, [negated, consequent]);
      OrMeans(graph, Blanks(1, numbers), constraint, list, negated, consequent, depth + 1, Negation(left), right);
      extras := extras[owner := ConstraintsOf(extras, owner) + [constraint]];
      law := constraint;
    }

    /** Writes the collected constraints of every owner as one `sh:and` list. */
    method Finish() returns (ghost heads: map<Term, Term>)
      requires Valid() && forall owner :: owner in extras ==> owner.Iri?
      modifies this`graph, this`numbers
      ensures Valid() && heads.Keys == extras.Keys
      ensures Joined(old(graph), old(numbers), graph, numbers, heads, extras)
    {
      hide Joined;
      var pending := extras.Keys;
      heads := map[];
      JoinedNone(graph, numbers, extras);
      while pending != {}
        invariant Valid() && pending <= extras.Keys && heads.Keys == extras.Keys - pending
        invariant Joined(old(graph), old(numbers), graph, numbers, heads, extras)
        decreases |pending|
      {
        hide Lists, Grew;
        var owner :| owner in pending;
        pending := pending - {owner};
        ghost var before, made := graph, numbers;
        var list := RdfList(extras[owner]);
        ghost var between := graph;
        Add(owner, And, list);
        JoinedMore(old(graph), old(numbers), before, made, heads, extras, owner, list, between, numbers);
        heads := heads[owner := list];
      }
    }

    /** Demands `n` values of every one of the fields. */
    method ConstrainCounts(node: Term, fields: set<Field>, n: nat, ghost base: nat, ghost checks: set<Check>)
      requires Valid() && node in Blanks(base, numbers)
      requires Shaped(graph, Blanks(base, numbers) - {node}, node, checks)
      modifies this`graph, this`numbers
      ensures Valid() && old(numbers) <= numbers && Grew(old(graph), base, graph, numbers)
      ensures Shaped(graph, Blanks(base, numbers) - {node}, node, checks + ExactlyAll(fields, n))
    {
      hide Shaped, Grew;
      var pending := fields;
      ghost var sofar := checks;
      Unchanged(graph, base, numbers);
      while pending != {}
        invariant Valid() && old(numbers) <= numbers && Grew(old(graph), base, graph, numbers) && pending <= fields
        invariant sofar == checks + ExactlyAll(fields - pending, n)
        invariant Shaped(graph, Blanks(base, numbers) - {node}, node, sofar)
        decreases |pending|
      {
        var field :| field in pending;
        ghost var before, made := graph, numbers;
        Constrain(node, Exactly(field, n), base, sofar);
        GrewMore(old(graph), base, before, made, graph, numbers);
        sofar := sofar + {Exactly(field, n)};
        assert fields - (pending - {field}) == fields - pending + {field};
        pending := pending - {field};
      }
      assert fields - {} == fields;
    }

    method ConstrainChoices(node: Term, choices: map<Field, seq<string>>, ghost base: nat, ghost checks: set<Check>)
      requires Valid() && node in Blanks(base, numbers)
      requires Shaped(graph, Blanks(base, numbers) - {node}, node, checks)
      modifies this`graph, this`numbers
      ensures Valid() && old(numbers) <= numbers && Grew(old(graph), base, graph, numbers)
      ensures Shaped(graph, Blanks(base, numbers) - {node}, node, checks + AmongAll(choices, choices.Keys))
    {
      hide Shaped, Grew, Iris;
      var pending := choices.Keys;
      ghost var sofar := checks;
      Unchanged(graph, base, numbers);
      while pending != {}
        invariant Valid() && old(numbers) <= numbers && Grew(old(graph), base, graph, numbers)
        invariant pending <= choices.Keys
        invariant sofar == checks + AmongAll(choices, choices.Keys - pending)
        invariant Shaped(graph, Blanks(base, numbers) - {node}, node, sofar)
        decreases |pending|
      {
        var field :| field in pending;
        ghost var before, made := graph, numbers;
        Constrain(node, Among(field, Iris(choices[field])), base, sofar);
        GrewMore(old(graph), base, before, made, graph, numbers);
        sofar := sofar + {Among(field, Iris(choices[field]))};
        assert choices.Keys - (pending - {field}) == choices.Keys - pending + {field};
        pending := pending - {field};
      }
      assert choices.Keys - {} == choices.Keys;
    }

    /** One `sh:xone` variant: a representation with the fields of its rule. */
    method Variant(name: string, rule: Rule) returns (node: Term)
      requires Valid()
      modifies this`graph, this`numbers
      ensures Valid() && Grew(old(graph), old(numbers), graph, numbers)
      ensures Means(graph, Blanks(1, numbers), node, 0, All(VariantChecks(name, rule)))
    {
      hide Shaped, Means, ExactlyAll, AmongAll;
      ghost var base := numbers;
      node := CheckNode(Has(Representation, Iri(name)));
      ghost var checks := {Has(Representation, Iri(name))};
      ConstrainCounts(node, rule.required, 1, base, checks);
      checks := checks + ExactlyAll(rule.required, 1);
      ConstrainCounts(node, ALL_FIELDS - rule.required - rule.optional, 0, base, checks);
      checks := checks + ExactlyAll(ALL_FIELDS - rule.required - rule.optional, 0);
      ConstrainChoices(node, rule.choices, base, checks);
      ShapedMeans(graph, Blanks(base, numbers) - {node}, node, VariantChecks(name, rule));
      assert Blanks(base, numbers) - {node} + {node} == Blanks(base, numbers);
      MeansStays(graph, Blanks(base, numbers), graph, Blanks(1, numbers), node, 0, 0, All(VariantChecks(name, rule)));
    }

    method RepresentationVariants(table: Table) returns (variants: seq<Term>, ghost order: seq<string>)
      requires Valid()
      modifies this`graph, this`numbers
      ensures Valid() && Grew(old(graph), old(numbers), graph, numbers) && Enumerates(order, table)
      ensures AllMean(graph, Blanks(1, numbers), variants, 0, Variants(table, order))
    {
      hide Grew, Means, AllMean, VariantChecks;
      variants, order := [], [];
      var pending := table.Keys;
      Unchanged(graph, numbers, numbers);
      assert AllMean(graph, Blanks(1, numbers), variants, 0, Variants(table, order)) by {
        NoneMean(graph, Blanks(1, numbers), table);
      }
      while pending != {}
        invariant Valid() && Grew(old(graph), old(numbers), graph, numbers) && pending <= table.Keys
        invariant forall k :: 0 <= k < |order| ==> order[k] in table && order[k] !in pending
        invariant forall j, k :: 0 <= j < k < |order| ==> order[j] != order[k]
        invariant forall name :: name in table ==> name in pending || name in order
        invariant AllMean(graph, Blanks(1, numbers), variants, 0, Variants(table, order))
        decreases |pending|
      {
        var name :| name in pending;
        ghost var before, made := graph, numbers;
        var node := Variant(name, table[name]);
        GrewTwice(old(graph), old(numbers), before, made, graph, numbers);
        AllMeanGrew(before, made, graph, numbers, variants, 0, 0, Variants(table, order));
        AllMeanSnoc(graph, Blanks(1, numbers), variants, 0, Variants(table, order), node,
                    All(VariantChecks(name, table[name])));
        assert Variants(table, order + [name]) == Variants(table, order) + [All(VariantChecks(name, table[name]))];
        pending := pending - {name};
        variants := variants + [node];
        order := order + [name];
      }
    }

    /** Where `when` holds, or where it does not, `then_` must hold of a Track. */
    method TrackLaw(when: Check, negated: bool, expected: Check, ghost laws: seq<Form>)
      requires Valid() && AllMean(graph, Blanks(1, numbers), ConstraintsOf(extras, TRACK), 3, laws)
      modifies this
      ensures Valid() && Grew(old(graph), old(numbers), graph, numbers) && extras.Keys == old(extras.Keys) + {TRACK}
      ensures AllMean(graph, Blanks(1, numbers), extras[TRACK], 3, laws + [TrackForm(when, negated, expected)])
    {
      hide Grew, Means, AllMean, Shaped;
      ghost var earlier := ConstraintsOf(extras, TRACK);
      ghost var g0, n0 := graph, numbers;
      var antecedent := CheckNode(when);
      ghost var left := All({when});
      FinishedNode(graph, n0, numbers, antecedent, {when}, if negated then 0 else 1);
      ghost var g1, n1 := graph, numbers;
      if negated {
        antecedent := NotNode(antecedent, 0, left);
        left := Negation(left);
      } else {
        Unchanged(graph, numbers, numbers);
      }
      ghost var g2, n2 := graph, numbers;
      var consequent := CheckNode(expected);
      FinishedNode(graph, n2, numbers, consequent, {expected}, 1);
      MeansGrew(g2, n2, graph, numbers, antecedent, 1, 1, left);
      ghost var g3, n3 := graph, numbers;
      ghost var law := Implication(TRACK, antecedent, consequent, 1, left, All({expected}));
      GrewTwice(g0, n0, g1, n1, g2, n2);
      GrewTwice(g0, n0, g2, n2, g3, n3);
      GrewTwice(g0, n0, g3, n3, graph, numbers);
      AllMeanGrew(g0, n0, graph, numbers, earlier, 3, 3, laws);
      AllMeanSnoc(graph, Blanks(1, numbers), earlier, 3, laws, law, Implies(left, All({expected})));
    }

    /** Implications for owners other than a Track. */
    method OtherLaws(others: seq<Law>)
      requires Valid() && TRACK in extras && forall owner :: owner in extras ==> owner.Iri?
      requires forall k :: 0 <= k < |others| ==> others[k].owner.Iri? && others[k].owner != TRACK
      modifies this
      ensures Valid() && Grew(old(graph), old(numbers), graph, numbers)
      ensures TRACK in extras && extras[TRACK] == old(extras[TRACK]) && forall owner :: owner in extras ==> owner.Iri?
    {
      hide Grew, Means, Shaped;
      Unchanged(graph, numbers, numbers);
      for k := 0 to |others|
        invariant Valid() && Grew(old(graph), old(numbers), graph, numbers)
        invariant TRACK in extras && extras[TRACK] == old(extras[TRACK])
        invariant forall owner :: owner in extras ==> owner.Iri?
      {
        ghost var before, made := graph, numbers;
        ghost var law := OtherLaw(others[k]);
        GrewTwice(old(graph), old(numbers), before, made, graph, numbers);
      }
    }

    method OtherLaw(law: Law) returns (ghost made: Term)
      requires Valid()
      modifies this
      ensures Valid() && Grew(old(graph), old(numbers), graph, numbers)
      ensures extras == old(extras)[law.owner := ConstraintsOf(old(extras), law.owner) + [made]]
    {
      hide Grew, Means, Shaped;
      var antecedent := CheckNode(law.when);
      ghost var g1, n1 := graph, numbers;
      FinishedNode(graph, old(numbers), numbers, antecedent, {law.when}, 0);
      var consequent := CheckNode(law.expected);
      FinishedNode(graph, n1, numbers, consequent, {law.expected}, 0);
      ghost var g2, n2 := graph, numbers;
      MeansGrew(g1, n1, g2, n2, antecedent, 0, 0, All({law.when}));
      made := Implication(law.owner, antecedent, consequent, 0, All({law.when}), All({law.expected}));
      GrewTwice(old(graph), old(numbers), g1, n1, g2, n2);
      GrewTwice(old(graph), old(numbers), g2, n2, graph, numbers);
    }

    method TrackVariants(table: Table) returns (ghost xone: Term, ghost variants: seq<Term>, ghost order: seq<string>)
      requires Valid() && TRACK !in extras && Unconstrained(graph, TRACK)
      modifies this
      ensures Valid() && extras.Keys == old(extras.Keys) + {TRACK} && Enumerates(order, table)
      ensures TrackReady(graph, numbers, xone, variants, Variants(table, order), extras[TRACK])
    {
      hide Grew, Means, AllMean, Lists, Values, VariantChecks, Laws, TrackForm;
      ghost var g0, n0 := graph, numbers;
      var made;
      made, order := RepresentationVariants(table);
      variants := made;
      ghost var g1, n1 := graph, numbers;
      var list := RdfList(made);
      ghost var g2, n2 := graph, numbers;
      xone := list;
      Add(TRACK, Xone, list);
      ghost var g3 := graph;
      assert AllMean(graph, Blanks(1, numbers), [], 3, []) by { NothingMeans(graph, Blanks(1, numbers)); }
      LawsStepwise();
      TrackLaw(Has(Cadence, CONSTANT), false, Exactly(FrameRate, 1), []);
      ghost var g4, n4 := graph, numbers;
      TrackLaw(Has(Cadence, CONSTANT), true, Exactly(FrameRate, 0), FirstLaws(1));
      ghost var g5, n5 := graph, numbers;
      TrackLaw(Has(ChannelLayout, MONO), false, Has(Channels, Number(1)), FirstLaws(2));
      ghost var g6, n6 := graph, numbers;
      TrackLaw(Has(ChannelLayout, STEREO), false, Has(Channels, Number(2)), FirstLaws(3));
      GrewTwice(g3, n2, g4, n4, g5, n5);
      GrewTwice(g3, n2, g5, n5, g6, n6);
      GrewTwice(g3, n2, g6, n6, graph, numbers);
      VariantsListed(table, order, g0, n0, g1, n1, g2, n2, list, variants, graph, numbers);
    }
  }

  /** The rule of one other owner: where one check holds, another must. */
  datatype Law = Law(owner: Term, when: Check, expected: Check)

  /** Compiles the rule table into shapes that may already hold others, adds the implications of other owners and
      finishes; the Track shape accepts exactly the Tracks that the direct checks accept. */
  method MakeTrackShape(shapes: Shapes, table: Table, others: seq<Law>, ghost known: set<string>)
    requires shapes.Valid() && TRACK !in shapes.extras && Unconstrained(shapes.graph, TRACK) && WellFormed(table, known)
    requires forall owner :: owner in shapes.extras ==> owner.Iri?
    requires forall k :: 0 <= k < |others| ==> others[k].owner.Iri? && others[k].owner != TRACK
    modifies shapes
    ensures forall track: Track, depth: nat :: depth >= 4 ==>
              (Conforms(shapes.graph, TRACK, FocusOf(track), depth) <==> Accepts(track, table, known))
  {
    hide Conforms, Accepts, Lists, AllMean, Variants, Laws, Values, Agrees, FocusOf, Grew, TrackReady;
    ghost var xone, variants, order := shapes.TrackVariants(table);
    ghost var rules, forms := shapes.extras[TRACK], Variants(table, order);
    ghost var g0, n0 := shapes.graph, shapes.numbers;
    shapes.OtherLaws(others);
    ghost var g, n := shapes.graph, shapes.numbers;
    TrackReadyGrew(g0, n0, g, n, xone, variants, forms, rules);
    ghost var heads := shapes.Finish();
    ghost var h, m := shapes.graph, shapes.numbers;
    TrackFinished(g, n, h, m, heads, shapes.extras, xone, variants, forms, rules);
    forall track: Track, depth: nat | depth >= 4
      ensures Conforms(h, TRACK, FocusOf(track), depth) <==> Accepts(track, table, known)
    {
      OwnerMeans(h, Blanks(1, m), TRACK, xone, variants, forms, heads[TRACK], rules, Laws(), 3, FocusOf(track), depth);
      DemandsAreChecks(track, table, known, order);
    }
  }
}
