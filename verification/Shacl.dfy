/** The part of W3C SHACL that the Track shapes use, evaluated over a graph of triples. */
module Shacl {
  import opened Wrappers

  datatype Field =
    | Representation | Width | Height | Codec | PixelFormat | Cadence | FrameRate
    | SampleRate | Channels | ChannelLayout | SampleFormat | BufferLayout
    | Other(name: string)

  datatype Term = Iri(name: string) | Path(field: Field) | Blank(id: nat) | Number(value: int)

  datatype Verb = Type | Property | PathOf | MinCount | MaxCount | HasValue | In | Not | Or | Xone | And | First | Rest

  datatype Triple = Triple(subject: Term, verb: Verb, value: Term)

  type Graph = set<Triple>

  const NIL := Iri("rdf:nil")
  const NODE_SHAPE := Iri("sh:NodeShape")

  function Values(g: Graph, subject: Term, verb: Verb): set<Term> {
    set t | t in g && t.subject == subject && t.verb == verb :: t.value
  }

  /** A well-formed RDF list. */
  ghost predicate IsList(g: Graph, head: Term, items: seq<Term>)
    decreases |items|
  {
    if items == [] then head == NIL
    else
      && head != NIL && Values(g, head, First) == {items[0]}
      && exists rest :: Values(g, head, Rest) == {rest} && IsList(g, rest, items[1..])
  }

  lemma {:induction false} ListIsUnique(g: Graph, head: Term, a: seq<Term>, b: seq<Term>)
    requires IsList(g, head, a) && IsList(g, head, b)
    ensures a == b
    decreases |a|
  {
    hide Values;
    if a != [] {
      var rest :| Values(g, head, Rest) == {rest} && IsList(g, rest, a[1..]);
      var other :| Values(g, head, Rest) == {other} && IsList(g, other, b[1..]);
      assert rest in {other};
      assert a[0] in {b[0]};
      ListIsUnique(g, rest, a[1..], b[1..]);
    }
  }

  /** The values of a focus node, by property. */
  type Focus = map<Field, set<Term>>

  function Of(f: Focus, field: Field): set<Term> {
    if field in f then f[field] else {}
  }

  ghost predicate PropertyConforms(g: Graph, p: Term, f: Focus) {
    exists field ::
      && Values(g, p, PathOf) == {Path(field)}
      && (forall m :: m in Values(g, p, MinCount) ==> m.Number? && |Of(f, field)| >= m.value)
      && (forall m :: m in Values(g, p, MaxCount) ==> m.Number? && |Of(f, field)| <= m.value)
      && (forall v :: v in Values(g, p, HasValue) ==> v in Of(f, field))
      && (forall l :: l in Values(g, p, In) ==>
            exists items :: IsList(g, l, items) && forall v :: v in Of(f, field) ==> v in items)
  }

  /** A node shape, following at most `depth` references to other shapes. */
  ghost predicate Conforms(g: Graph, shape: Term, f: Focus, depth: nat)
    decreases depth, 0
  {
    && (forall p :: p in Values(g, shape, Property) ==> PropertyConforms(g, p, f))
    && (forall s :: s in Values(g, shape, Not) ==> depth > 0 && !Conforms(g, s, f, depth - 1))
    && (forall l :: l in Values(g, shape, Or) ==>
        depth > 0 && exists items :: IsList(g, l, items) && Conforming(g, items, f, depth - 1) >= 1)
    && (forall l :: l in Values(g, shape, Xone) ==>
        depth > 0 && exists items :: IsList(g, l, items) && Conforming(g, items, f, depth - 1) == 1)
    && (forall l :: l in Values(g, shape, And) ==>
        depth > 0 && exists items :: IsList(g, l, items) && Conforming(g, items, f, depth - 1) == |items|)
  }

  ghost function Conforming(g: Graph, items: seq<Term>, f: Focus, depth: nat): (n: nat)
    ensures n <= |items|
    decreases depth, |items|
  {
    if items == [] then 0
    else Conforming(g, items[..|items| - 1], f, depth) + if Conforms(g, items[|items| - 1], f, depth) then 1 else 0
  }

  // ---------- What a shape demands ----------

  /** What one property shape demands of the values of a field. */
  datatype Check = Check(field: Field, min: Option<nat>, max: Option<nat>, has: Option<Term>, among: Option<seq<Term>>)

  function Exactly(field: Field, n: nat): Check { Check(field, Some(n), Some(n), None, None) }

  function Has(field: Field, value: Term): Check { Check(field, None, None, Some(value), None) }

  function Among(field: Field, values: seq<Term>): Check { Check(field, None, None, None, Some(values)) }

  predicate Holds(c: Check, f: Focus) {
    var values := Of(f, c.field);
    && (c.min.Some? ==> |values| >= c.min.value)
    && (c.max.Some? ==> |values| <= c.max.value)
    && (c.has.Some? ==> c.has.value in values)
    && (c.among.Some? ==> forall v :: v in values ==> v in c.among.value)
  }

  predicate HoldAll(checks: set<Check>, f: Focus) {
    forall c :: c in checks ==> Holds(c, f)
  }

  /** The node shapes that the builder makes. */
  datatype Form = All(checks: set<Check>) | Negation(of: Form) | Either(left: Form, right: Form)

  predicate Meets(form: Form, f: Focus) {
    match form
    case All(checks) => HoldAll(checks, f)
    case Negation(of) => !Meets(of, f)
    case Either(left, right) => Meets(left, f) || Meets(right, f)
  }

  /** How many of the forms a focus node meets. */
  function MeetCount(forms: seq<Form>, f: Focus): (n: nat)
    ensures n <= |forms|
  {
    if forms == [] then 0
    else MeetCount(forms[..|forms| - 1], f) + if Meets(forms[|forms| - 1], f) then 1 else 0
  }

  // ---------- Meanings that later triples do not change ----------

  /** The graphs have the same triples about the subjects in `known`. */
  ghost predicate Agrees(g: Graph, h: Graph, known: set<Term>) {
    forall t: Triple :: t.subject in known ==> (t in g <==> t in h)
  }

  lemma SameValues(g: Graph, h: Graph, known: set<Term>, s: Term, verb: Verb)
    requires Agrees(g, h, known) && s in known
    ensures Values(g, s, verb) == Values(h, s, verb)
  {
    forall v
      ensures v in Values(g, s, verb) <==> v in Values(h, s, verb)
    {
      assert v in Values(g, s, verb) <==> Triple(s, verb, v) in g;
      assert v in Values(h, s, verb) <==> Triple(s, verb, v) in h;
    }
  }

  ghost predicate Lists(g: Graph, known: set<Term>, head: Term, items: seq<Term>) {
    forall h: Graph :: Agrees(g, h, known) ==> IsList(h, head, items)
  }

  ghost predicate Demands(g: Graph, known: set<Term>, p: Term, c: Check) {
    forall h: Graph, f: Focus :: Agrees(g, h, known) ==> PropertyConforms(h, p, f) == Holds(c, f)
  }

  ghost predicate Means(g: Graph, known: set<Term>, shape: Term, depth: nat, form: Form) {
    forall h: Graph, f: Focus, d: nat :: Agrees(g, h, known) && d >= depth ==>
        Conforms(h, shape, f, d) == Meets(form, f)
  }

  lemma ListsStays(g: Graph, known: set<Term>, h: Graph, more: set<Term>, head: Term, items: seq<Term>)
    requires Lists(g, known, head, items) && Agrees(g, h, known) && known <= more
    ensures Lists(h, more, head, items)
  {
    hide IsList;
  }

  lemma PropertyStays(g: Graph, known: set<Term>, h: Graph, more: set<Term>, p: Term, c: Check)
    requires Demands(g, known, p, c) && Agrees(g, h, known) && known <= more
    ensures Demands(h, more, p, c)
  {
    hide PropertyConforms;
  }

  lemma MeansStays(g: Graph, known: set<Term>, h: Graph, more: set<Term>, shape: Term, depth: nat, deeper: nat,
                   form: Form)
    requires Means(g, known, shape, depth, form) && Agrees(g, h, known) && known <= more && depth <= deeper
    ensures Means(h, more, shape, deeper, form)
  {
    hide Conforms;
  }

  /** A node with one kind of logical constraint or with properties only. */
  ghost predicate Only(g: Graph, shape: Term, verb: Verb, values: set<Term>) {
    && Values(g, shape, verb) == values
    && forall v: Verb :: v in {Property, Not, Or, Xone, And} && v != verb ==> Values(g, shape, v) == {}
  }

  lemma OnlyStays(g: Graph, h: Graph, known: set<Term>, shape: Term, verb: Verb, values: set<Term>)
    requires Only(g, shape, verb, values) && Agrees(g, h, known) && shape in known
    ensures Only(h, shape, verb, values)
  {
    hide Values, Agrees;
    forall v: Verb
      ensures Values(g, shape, v) == Values(h, shape, v)
    {
      SameValues(g, h, known, shape, v);
    }
  }

  lemma NotMeans(g: Graph, known: set<Term>, shape: Term, arg: Term, depth: nat, form: Form)
    requires shape in known && Only(g, shape, Not, {arg}) && Means(g, known, arg, depth, form)
    ensures Means(g, known, shape, depth + 1, Negation(form))
  {
    hide Values, Agrees, PropertyConforms;
    forall h: Graph, f: Focus, d: nat | Agrees(g, h, known) && d >= depth + 1
      ensures Conforms(h, shape, f, d) == !Meets(form, f)
    {
      OnlyStays(g, h, known, shape, Not, {arg});
    }
  }

  ghost predicate AllMean(g: Graph, known: set<Term>, items: seq<Term>, depth: nat, forms: seq<Form>) {
    |items| == |forms| && forall k :: 0 <= k < |items| ==> Means(g, known, items[k], depth, forms[k])
  }

  lemma {:induction false} CountsAgree(g: Graph, known: set<Term>, items: seq<Term>, depth: nat, forms: seq<Form>,
                                       h: Graph, f: Focus, d: nat)
    requires AllMean(g, known, items, depth, forms) && Agrees(g, h, known) && d >= depth
    ensures Conforming(h, items, f, d) == MeetCount(forms, f)
    decreases |items|
  {
    hide Agrees, Conforms;
    if items != [] {
      var k := |items| - 1;
      assert Means(g, known, items[k], depth, forms[k]);
      CountsAgree(g, known, items[..k], depth, forms[..k], h, f, d);
    }
  }

  /** A list-valued constraint holds exactly when its count condition does. */
  lemma ListCounts(g: Graph, known: set<Term>, head: Term, items: seq<Term>, depth: nat, forms: seq<Form>, h: Graph,
                   f: Focus, d: nat)
    requires Lists(g, known, head, items) && AllMean(g, known, items, depth, forms) && Agrees(g, h, known) && d >= depth
    ensures IsList(h, head, items) && Conforming(h, items, f, d) == MeetCount(forms, f)
    ensures forall other :: IsList(h, head, other) ==> other == items
  {
    hide Agrees, Conforms, IsList, AllMean;
    CountsAgree(g, known, items, depth, forms, h, f, d);
    forall other | IsList(h, head, other)
      ensures other == items
    {
      ListIsUnique(h, head, other, items);
    }
  }

  lemma OrMeans(g: Graph, known: set<Term>, shape: Term, head: Term, left: Term, right: Term, depth: nat, l: Form,
                r: Form)
    requires shape in known && Only(g, shape, Or, {head}) && Lists(g, known, head, [left, right])
    requires Means(g, known, left, depth, l) && Means(g, known, right, depth, r)
    ensures Means(g, known, shape, depth + 1, Either(l, r))
  {
    hide Values, Agrees, PropertyConforms, IsList, Lists, Conforming, MeetCount, Meets;
    assert AllMean(g, known, [left, right], depth, [l, r]);
    forall h: Graph, f: Focus, d: nat | Agrees(g, h, known) && d >= depth + 1
      ensures Conforms(h, shape, f, d) == Meets(Either(l, r), f)
    {
      OnlyStays(g, h, known, shape, Or, {head});
      ListCounts(g, known, head, [left, right], depth, [l, r], h, f, d - 1);
      CountTwo(l, r, f);
    }
  }

  lemma CountTwo(l: Form, r: Form, f: Focus)
    ensures MeetCount([l, r], f) >= 1 <==> Meets(Either(l, r), f)
  {
    assert [l, r][..1] == [l] && [l][..0] == [];
    assert MeetCount([l], f) == if Meets(l, f) then 1 else 0;
  }

  /** A shape with one `sh:xone` and one `sh:and` list. */
  lemma OwnerMeans(g: Graph, known: set<Term>, shape: Term, xone: Term, variants: seq<Term>, forms: seq<Form>,
                   and: Term, rules: seq<Term>, laws: seq<Form>, depth: nat, f: Focus, d: nat)
    requires Values(g, shape, Property) == Values(g, shape, Not) == Values(g, shape, Or) == {}
    requires Values(g, shape, Xone) == {xone} && Values(g, shape, And) == {and}
    requires Lists(g, known, xone, variants) && AllMean(g, known, variants, depth, forms)
    requires Lists(g, known, and, rules) && AllMean(g, known, rules, depth, laws)
    requires d >= depth + 1
    ensures Conforms(g, shape, f, d) <==> MeetCount(forms, f) == 1 && MeetCount(laws, f) == |laws|
  {
    hide Values, PropertyConforms, IsList, Lists, AllMean, Conforming, MeetCount;
    ListCounts(g, known, xone, variants, depth, forms, g, f, d - 1);
    ListCounts(g, known, and, rules, depth, laws, g, f, d - 1);
    assert |laws| == |rules| by { SameLength(g, known, rules, depth, laws); }
  }

  lemma SameLength(g: Graph, known: set<Term>, items: seq<Term>, depth: nat, forms: seq<Form>)
    requires AllMean(g, known, items, depth, forms)
    ensures |items| == |forms|
  {
  }
}
