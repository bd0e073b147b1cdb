/** Decoding an encoded value gives its canonical form, exactly when no defaulted element is written
    explicitly empty and no attribute reads as a mark; and the canonical form encodes to the same tree. */
module XmlRoundTrip {
  import opened Wrappers
  import opened XmlCodec
  import opened XmlElements

  // ---------- Attributes ----------

  function Restrict(given: map<string, Value>, keys: set<string>): map<string, Value> {
    map k | k in given && k in keys :: given[k]
  }

  lemma {:induction false} AttributesBack(c: Codec, attributes: seq<Attribute>, given: map<string, Value>,
                                          present: map<string, string>)
    requires DistinctAttributes(attributes) && c.EncodeAttributes(attributes, given).Ok?
    requires forall n :: n in AttributeNames(attributes) ==>
               var out := c.EncodeAttributes(attributes, given).value;
               (n in present <==> n in out) && (n in out ==> present[n] == out[n])
    ensures c.EncodeAttributes(attributes, given).value.Keys <= AttributeNames(attributes)
    ensures c.DecodeAttributes(attributes, present) == Ok(Restrict(given, AttributeKeys(attributes)))
  {
    hide ScalarOf, Lexical;
    if attributes == [] {
      assert Restrict(given, AttributeKeys(attributes)) == map[];
    } else {
      var a, later := attributes[0], attributes[1..];
      AttributeSplit(attributes);
      var rest := c.EncodeAttributes(later, given).value;
      AttributesNamed(c, later, given);
      AttributesBack(c, later, given, present);
      RestrictMore(given, a.key, AttributeKeys(later));
      var out := c.EncodeAttributes(attributes, given).value;
      if a.key in given {
        ScalarRoundTrip(c.types, a.typ, given[a.key], c.stack);
        assert present[a.name] == out[a.name] == Lexical(given[a.key]);
      } else {
        assert out == rest && a.name !in present;
      }
    }
  }

  lemma RestrictMore(given: map<string, Value>, key: string, keys: set<string>)
    ensures Restrict(given, {key} + keys) ==
            if key in given then map[key := given[key]] + Restrict(given, keys) else Restrict(given, keys)
  {
  }

  lemma AttributeSplit(attributes: seq<Attribute>)
    requires attributes != []
    ensures AttributeKeys(attributes) == {attributes[0].key} + AttributeKeys(attributes[1..])
    ensures AttributeNames(attributes) == {attributes[0].name} + AttributeNames(attributes[1..])
  {
    var later := attributes[1..];
    assert forall k :: 0 < k < |attributes| ==> attributes[k] == later[k - 1];
    assert forall k :: 0 <= k < |later| ==> later[k] == attributes[k + 1];
  }

  lemma {:induction false} AttributesNamed(c: Codec, attributes: seq<Attribute>, given: map<string, Value>)
    requires c.EncodeAttributes(attributes, given).Ok?
    ensures c.EncodeAttributes(attributes, given).value.Keys <= AttributeNames(attributes)
  {
    if attributes != [] {
      AttributeSplit(attributes);
      AttributesNamed(c, attributes[1..], given);
    }
  }

  /** The encoder writes an xsi:nil or xsi:type attribute exactly when one is given. */
  lemma {:induction false} MarksWritten(c: Codec, attributes: seq<Attribute>, given: map<string, Value>)
    requires c.EncodeAttributes(attributes, given).Ok?
    ensures var out := c.EncodeAttributes(attributes, given).value;
            XSI_NIL in out || XSI_TYPE in out <==> !Unmarked(attributes, given)
    decreases |attributes|
  {
    if attributes != [] {
      MarksWritten(c, attributes[1..], given);
      assert forall k :: 0 < k < |attributes| ==> attributes[k] == attributes[1..][k - 1];
      assert forall k :: 0 <= k < |attributes[1..]| ==> attributes[1..][k] == attributes[k + 1];
    }
  }

  // ---------- Particles ----------

  lemma ParticleSplit(ps: seq<Particle>)
    requires ps != [] && ps[0].Particle?
    ensures ParticleKeys(ps) == {ps[0].key} + ParticleKeys(ps[1..])
    ensures ParticleNames(ps) == {ps[0].element.name} + ParticleNames(ps[1..])
  {
    var later := ps[1..];
    assert forall k :: 0 < k < |ps| ==> ps[k] == later[k - 1];
    assert forall k :: 0 <= k < |later| ==> later[k] == ps[k + 1];
  }

  ghost predicate Named(nodes: seq<Node>, names: set<string>) {
    forall k :: 0 <= k < |nodes| ==> nodes[k].tag in names && nodes[k].tail == ""
  }

  lemma EncodeNames(c: Codec, e: Element, v: Value, depth: nat)
    requires c.Encode(e, v, depth).Ok?
    ensures c.Encode(e, v, depth).value.tag == e.name && c.Encode(e, v, depth).value.tail == ""
  {
  }

  lemma {:induction false} ItemsNamed(c: Codec, e: Element, items: seq<Value>, parent: Value, depth: nat)
    requires forall k :: 0 <= k < |items| ==> items[k] < parent
    requires c.EncodeItems(e, items, parent, depth).Ok?
    ensures Named(c.EncodeItems(e, items, parent, depth).value, {e.name})
    ensures |c.EncodeItems(e, items, parent, depth).value| == |items|
    decreases |items|
  {
    if items != [] {
      EncodeNames(c, e, items[0], depth);
      ItemsNamed(c, e, items[1..], parent, depth);
    }
  }

  lemma {:induction false} ParticlesNamed(c: Codec, ps: seq<Particle>, v: Value, depth: nat)
    requires v.Obj? && c.EncodeParticles(ps, v, depth).Ok?
    ensures Named(c.EncodeParticles(ps, v, depth).value, ParticleNames(ps))
    decreases |ps|
  {
    if ps != [] {
      ParticleSplit(ps);
      ItemsNamed(c, ps[0].element, Supplied(ps[0], v).value, v, depth + 1);
      ParticlesNamed(c, ps[1..], v, depth);
    }
  }

  lemma {:induction false} MembersKeyed(c: Codec, ps: seq<Particle>, v: Value)
    requires v.Obj?
    ensures c.CanonMembers(ps, v).Keys <= ParticleKeys(ps)
    decreases |ps|
  {
    if ps != [] {
      MembersKeyed(c, ps[1..], v);
      if ps[0].Particle? {
        ParticleSplit(ps);
      } else {
        assert forall k :: 0 <= k < |ps[1..]| ==> ps[1..][k] == ps[k + 1];
      }
    }
  }

  lemma {:induction false} DecodedKeyed(c: Codec, ps: seq<Particle>, children: seq<Node>, parent: Node, depth: nat)
    requires forall k :: 0 <= k < |children| ==> children[k] < parent
    requires c.DecodeParticles(ps, children, parent, depth).Ok?
    ensures c.DecodeParticles(ps, children, parent, depth).value.0.Keys <= ParticleKeys(ps)
    decreases |ps|
  {
    if ps != [] {
      ParticleSplit(ps);
      var (items, rest) := c.DecodeRun(ps[0].element, children, parent, depth + 1).value;
      DecodedKeyed(c, ps[1..], rest, parent, depth);
    }
  }

  /** Two members with different keys are joined without losing either. */
  lemma JoinInjective(p: Particle, a: seq<Value>, b: seq<Value>, m: map<string, Value>, n: map<string, Value>, c: Codec)
    requires p.Particle? && p.key !in m && p.key !in n && |a| == |b|
    requires !Repeated(p) ==> |a| <= 1
    ensures c.MemberFor(p, a) + m == c.MemberFor(p, b) + n <==> a == b && m == n
  {
    var x, y := c.MemberFor(p, a) + m, c.MemberFor(p, b) + n;
    if x == y {
      assert m == x - {p.key} && n == y - {p.key};
      if Repeated(p) {
        assert x[p.key] == Arr(a) && y[p.key] == Arr(b);
      } else if a != [] {
        assert x[p.key] == a[0] && y[p.key] == b[0];
      }
    }
  }

  // ---------- The round trip ----------

  ghost predicate Ready(c: Codec, e: Element) {
    WellFormed(c.types) && WellFormedType(e.typ)
  }

  /** Decoding the node gives back the canonical form exactly when the value is explicit. */
  ghost predicate RoundTrips(c: Codec, e: Element, v: Value, depth: nat) {
    c.Encode(e, v, depth).Ok? ==>
      (c.Decode(e, c.Encode(e, v, depth).value, depth) == Ok(c.Canon(e, v)) <==> c.Explicit(e, v))
  }

  ghost predicate EachRoundTrips(c: Codec, e: Element, items: seq<Value>, depth: nat) {
    forall k :: 0 <= k < |items| ==> RoundTrips(c, e, items[k], depth)
  }

  ghost predicate AllRoundTrip(c: Codec, ps: seq<Particle>, v: Value, depth: nat)
    requires v.Obj?
  {
    forall k :: 0 <= k < |ps| && ps[k].Particle? && Supplied(ps[k], v).Ok? ==>
      EachRoundTrips(c, ps[k].element, Supplied(ps[k], v).value, depth + 1)
  }

  lemma LaterRoundTrip(c: Codec, ps: seq<Particle>, v: Value, depth: nat)
    requires v.Obj? && ps != [] && AllRoundTrip(c, ps, v, depth)
    ensures AllRoundTrip(c, ps[1..], v, depth)
    ensures ps[0].Particle? && Supplied(ps[0], v).Ok? ==>
              EachRoundTrips(c, ps[0].element, Supplied(ps[0], v).value, depth + 1)
  {
    hide EachRoundTrips, Supplied;
    assert forall k :: 0 <= k < |ps[1..]| ==> ps[1..][k] == ps[k + 1];
  }

  lemma ConsInjective(x: Value, xs: seq<Value>, y: Value, ys: seq<Value>)
    ensures [x] + xs == [y] + ys <==> x == y && xs == ys
  {
    if [x] + xs == [y] + ys {
      assert ([x] + xs)[0] == x && ([y] + ys)[0] == y;
      assert ([x] + xs)[1..] == xs && ([y] + ys)[1..] == ys;
    }
  }

  lemma RunStops(c: Codec, e: Element, rest: seq<Node>, parent: Node, depth: nat)
    requires (forall k :: 0 <= k < |rest| ==> rest[k] < parent) && (rest != [] ==> rest[0].tag != e.name)
    ensures c.DecodeRun(e, rest, parent, depth) == Ok(([], rest))
  {
  }

  lemma RunGoesOn(c: Codec, e: Element, node: Node, more: seq<Node>, parent: Node, depth: nat)
    requires (forall k :: 0 <= k < |[node] + more| ==> ([node] + more)[k] < parent) && node.tag == e.name
    ensures (forall k :: 0 <= k < |more| ==> more[k] < parent) && node < parent
    ensures var first, run := c.Decode(e, node, depth), c.DecodeRun(e, more, parent, depth);
            c.DecodeRun(e, [node] + more, parent, depth) ==
            if first.Err? || run.Err? then Err else Ok(([first.value] + run.value.0, run.value.1))
  {
    hide Codec.Decode;
    assert ([node] + more)[0] == node && ([node] + more)[1..] == more;
    assert forall k :: 0 <= k < |more| ==> more[k] == ([node] + more)[k + 1];
  }

  lemma ItemsGoOn(c: Codec, e: Element, items: seq<Value>, v: Value, depth: nat)
    requires items != [] && (forall k :: 0 <= k < |items| ==> items[k] < v) && c.EncodeItems(e, items, v, depth).Ok?
    ensures c.Encode(e, items[0], depth).Ok? && c.EncodeItems(e, items[1..], v, depth).Ok?
    ensures c.EncodeItems(e, items, v, depth).value ==
            [c.Encode(e, items[0], depth).value] + c.EncodeItems(e, items[1..], v, depth).value
    ensures c.CanonItems(e, items, v) == [c.Canon(e, items[0])] + c.CanonItems(e, items[1..], v)
    ensures c.ExplicitItems(e, items, v) <==> c.Explicit(e, items[0]) && c.ExplicitItems(e, items[1..], v)
  {
    hide Codec.Encode, Codec.Canon, Codec.Explicit;
  }

  lemma NoItems(c: Codec, e: Element, v: Value, depth: nat)
    ensures c.EncodeItems(e, [], v, depth) == Ok([]) && c.CanonItems(e, [], v) == [] && c.ExplicitItems(e, [], v)
  {
  }

  /** The run of one particle's nodes is read back, and nothing of what follows. */
  lemma {:induction false} RunBack(c: Codec, e: Element, items: seq<Value>, v: Value, depth: nat, rest: seq<Node>,
                                   parent: Node)
    requires (forall k :: 0 <= k < |items| ==> items[k] < v) && EachRoundTrips(c, e, items, depth)
    requires c.EncodeItems(e, items, v, depth).Ok?
    requires var nodes := c.EncodeItems(e, items, v, depth).value;
             forall k :: 0 <= k < |nodes + rest| ==> (nodes + rest)[k] < parent
    requires rest != [] ==> rest[0].tag != e.name
    ensures var nodes := c.EncodeItems(e, items, v, depth).value;
            var run := c.DecodeRun(e, nodes + rest, parent, depth);
            && (run == Ok((c.CanonItems(e, items, v), rest)) <==> c.ExplicitItems(e, items, v))
            && (run.Ok? ==> run.value.1 == rest && |run.value.0| == |items|)
    decreases |items|
  {
    hide Codec.Encode, Codec.Decode, Codec.Canon, Codec.Explicit;
    hide Codec.EncodeItems, Codec.DecodeRun, Codec.CanonItems, Codec.ExplicitItems;
    if items == [] {
      NoItems(c, e, v, depth);
      assert [] + rest == rest;
      RunStops(c, e, rest, parent, depth);
    } else {
      ItemsGoOn(c, e, items, v, depth);
      var node, later := c.Encode(e, items[0], depth).value, c.EncodeItems(e, items[1..], v, depth).value;
      EncodeNames(c, e, items[0], depth);
      assert [node] + later + rest == [node] + (later + rest);
      RunGoesOn(c, e, node, later + rest, parent, depth);
      RunBack(c, e, items[1..], v, depth, rest, parent);
      assert RoundTrips(c, e, items[0], depth);
      var first, run := c.Decode(e, node, depth), c.DecodeRun(e, later + rest, parent, depth);
      if first.Ok? && run.Ok? {
        ConsInjective(first.value, run.value.0, c.Canon(e, items[0]), c.CanonItems(e, items[1..], v));
      }
    }
  }

  lemma MemberKeys(c: Codec, p: Particle, a: seq<Value>, b: seq<Value>)
    requires p.Particle? && |a| == |b|
    ensures c.MemberFor(p, a).Keys == c.MemberFor(p, b).Keys
  {
  }

  lemma {:induction false} ParticlesBack(c: Codec, ps: seq<Particle>, v: Value, depth: nat, parent: Node)
    requires v.Obj? && DistinctParticles(ps) && c.EncodeParticles(ps, v, depth).Ok? && AllRoundTrip(c, ps, v, depth)
    requires forall k :: 0 <= k < |c.EncodeParticles(ps, v, depth).value| ==>
             c.EncodeParticles(ps, v, depth).value[k] < parent
    ensures var back := c.DecodeParticles(ps, c.EncodeParticles(ps, v, depth).value, parent, depth);
            && (back == Ok((c.CanonMembers(ps, v), [])) <==> c.ExplicitParticles(ps, v))
            && (back.Ok? ==> back.value.1 == [] && back.value.0.Keys == c.CanonMembers(ps, v).Keys)
    decreases |ps|
  {
    hide Codec.Encode, Codec.Decode, Codec.Canon, Codec.Explicit, Codec.DecodeRun, Codec.EncodeItems, Codec.CanonItems;
    hide Codec.ExplicitItems, Codec.MemberFor, Supplied, AllRoundTrip;
    if ps != [] {
      var p, later := ps[0], ps[1..];
      var items := Supplied(p, v).value;
      var first := c.EncodeItems(p.element, items, v, depth + 1).value;
      var rest := c.EncodeParticles(later, v, depth).value;
      var nodes := first + rest;
      assert forall k :: 0 <= k < |rest| ==> rest[k] == nodes[|first| + k];
      LaterRoundTrip(c, ps, v, depth);
      ParticlesNamed(c, later, v, depth);
      RunBack(c, p.element, items, v, depth + 1, rest, parent);
      ParticlesBack(c, later, v, depth, parent);
      MembersKeyed(c, later, v);
      var run := c.DecodeRun(p.element, nodes, parent, depth + 1);
      var back := c.DecodeParticles(later, rest, parent, depth);
      if run.Ok? && back.Ok? {
        DecodedKeyed(c, later, rest, parent, depth);
        MemberKeys(c, p, run.value.0, c.CanonItems(p.element, items, v));
        JoinInjective(p, run.value.0, c.CanonItems(p.element, items, v), back.value.0, c.CanonMembers(later, v), c);
      }
    }
  }

  lemma {:induction false} ChildlessNodes(c: Codec, ps: seq<Particle>, v: Value, depth: nat)
    requires v.Obj? && c.EncodeParticles(ps, v, depth).Ok?
    ensures c.EncodeParticles(ps, v, depth).value == [] <==> c.Childless(ps, v)
    decreases |ps|
  {
    if ps != [] {
      ItemsNamed(c, ps[0].element, Supplied(ps[0], v).value, v, depth + 1);
      ChildlessNodes(c, ps[1..], v, depth);
      assert forall k :: 0 < k < |ps| ==> ps[k] == ps[1..][k - 1];
      assert forall k :: 0 <= k < |ps[1..]| ==> ps[1..][k] == ps[k + 1];
    }
  }

  lemma PlainBack(c: Codec, e: Element, v: Value, depth: nat)
    requires c.Encode(e, v, depth).Ok? && (IsNil(v) || IsDefault(v) || !c.TypeOf(e).value.Complex?)
    ensures RoundTrips(c, e, v, depth)
  {
    hide RoundTrips, Codec.Encode;
    if IsNil(v) || IsDefault(v) {
      MarkBack(c, e, v, depth);
    } else {
      ScalarBack(c, e, v, depth);
    }
  }

  lemma MarkBack(c: Codec, e: Element, v: Value, depth: nat)
    requires c.Encode(e, v, depth).Ok? && (IsNil(v) || IsDefault(v))
    ensures RoundTrips(c, e, v, depth)
  {
    hide Codec.Scalar, Codec.Fixed, Codec.EncodeComplex, Codec.DecodeComplex;
    assert XSI_NIL != XSI_TYPE by { assert |XSI_NIL| != |XSI_TYPE|; }
    if IsNil(v) {
      assert v == NIL_VALUE;
    }
  }

  lemma ScalarBack(c: Codec, e: Element, v: Value, depth: nat)
    requires c.Encode(e, v, depth).Ok? && !IsNil(v) && !IsDefault(v) && !c.TypeOf(e).value.Complex?
    ensures RoundTrips(c, e, v, depth)
  {
    hide ScalarOf, Lexical;
    ScalarRoundTrip(c.types, c.TypeOf(e).value, v, c.stack);
    assert IsDefault(DEFAULT_VALUE);
  }

  lemma ComplexBack(c: Codec, d: Type, v: Value, depth: nat, name: string)
    requires d.Complex? && WellFormedType(d) && c.EncodeComplex(name, d, v, depth).Ok?
    requires AllRoundTrip(c, d.sequence, v, depth)
    ensures var node := c.EncodeComplex(name, d, v, depth).value;
            && (c.DecodeComplex(d, node, depth) == Ok(Obj(c.CanonAttributes(v) + c.CanonMembers(d.sequence, v)))
                <==> c.ExplicitParticles(d.sequence, v))
  {
    hide Codec.EncodeAttributes, Codec.DecodeAttributes, Codec.EncodeParticles, Codec.DecodeParticles;
    hide Codec.CanonMembers, Codec.ExplicitParticles, AllRoundTrip;
    var node := c.EncodeComplex(name, d, v, depth).value;
    AttributesNamed(c, d.attributes, Given(v));
    AttributesBack(c, d.attributes, Given(v), node.attributes);
    assert Restrict(Given(v), AttributeKeys(d.attributes)) == Given(v);
    assert forall k :: 0 <= k < |node.children| ==> node.children[k] < node;
    ParticlesNamed(c, d.sequence, v, depth);
    ParticlesBack(c, d.sequence, v, depth, node);
    var back := c.DecodeParticles(d.sequence, node.children, node, depth);
    if back.Ok? {
      JoinSameKeys(c.CanonAttributes(v), back.value.0, c.CanonMembers(d.sequence, v));
    }
  }

  lemma JoinSameKeys(a: map<string, Value>, m: map<string, Value>, n: map<string, Value>)
    requires m.Keys == n.Keys
    ensures a + m == a + n <==> m == n
  {
    if a + m == a + n {
      assert forall k :: k in m ==> m[k] == (a + m)[k] && n[k] == (a + n)[k];
    }
  }

  lemma {:induction false} RoundTrip(c: Codec, e: Element, v: Value, depth: nat)
    requires Ready(c, e)
    ensures RoundTrips(c, e, v, depth)
    decreases v
  {
    if c.Encode(e, v, depth).Ok? {
      if IsNil(v) || IsDefault(v) || !c.TypeOf(e).value.Complex? {
        PlainBack(c, e, v, depth);
      } else {
        var d := c.TypeOf(e).value;
        ResolveWellFormed(c.types, e.typ, {});
        forall k, i | 0 <= k < |d.sequence| && d.sequence[k].Particle? && Supplied(d.sequence[k], v).Ok?
                      && 0 <= i < |Supplied(d.sequence[k], v).value|
          ensures RoundTrips(c, d.sequence[k].element, Supplied(d.sequence[k], v).value[i], depth + 1)
        {
          RoundTrip(c, d.sequence[k].element, Supplied(d.sequence[k], v).value[i], depth + 1);
        }
        hide RoundTrips;
        ComplexBack(c, d, v, depth, e.name);
        ComplexDecodes(c, e, d, v, depth);
      }
    }
  }

  /** A complex element that is neither nil nor a default is decoded by its content, unless it is taken for one. */
  lemma ComplexDecodes(c: Codec, e: Element, d: Type, v: Value, depth: nat)
    requires c.Encode(e, v, depth).Ok? && !IsNil(v) && !IsDefault(v) && c.TypeOf(e) == Ok(d) && d.Complex?
    requires var node := c.EncodeComplex(e.name, d, v, depth).value;
             c.DecodeComplex(d, node, depth) == Ok(Obj(c.CanonAttributes(v) + c.CanonMembers(d.sequence, v)))
             <==> c.ExplicitParticles(d.sequence, v)
    ensures RoundTrips(c, e, v, depth)
  {
    hide Codec.DecodeComplex, Codec.CanonMembers, Codec.CanonAttributes, Codec.ExplicitParticles, Codec.Childless;
    hide Codec.EncodeComplex, Unmarked, Codec.DecodeNil;
    var node := c.EncodeComplex(e.name, d, v, depth).value;
    ComplexNode(c, d, v, depth, e.name);
    CanonIsNoMark(c, d, v);
    if XSI_NIL in node.attributes {
      NilOnly(c, e, node);
    }
    assert e.fixedLexical.None?;
  }

  lemma NilOnly(c: Codec, e: Element, node: Node)
    requires XSI_NIL in node.attributes
    ensures c.DecodeNil(e, node).Ok? ==> c.DecodeNil(e, node).value == NIL_VALUE
  {
  }

  /** What the encoder writes for a complex value, as far as the decoder's first tests see it. */
  lemma ComplexNode(c: Codec, d: Type, v: Value, depth: nat, name: string)
    requires d.Complex? && c.EncodeComplex(name, d, v, depth).Ok?
    ensures v.Obj? && var node := c.EncodeComplex(name, d, v, depth).value;
            && node.tag == name && node.text == "" && (node.children == [] <==> c.Childless(d.sequence, v))
            && (XSI_NIL in node.attributes || XSI_TYPE in node.attributes <==> !Unmarked(d.attributes, Given(v)))
  {
    hide Codec.EncodeAttributes, Codec.EncodeParticles, Codec.Childless, Unmarked;
    MarksWritten(c, d.attributes, Given(v));
    ChildlessNodes(c, d.sequence, v, depth);
  }

  /** The canonical form is neither mark in the cases where the decoder answers with one. */
  lemma CanonIsNoMark(c: Codec, d: Type, v: Value)
    requires d.Complex? && v.Obj?
    ensures var w := Obj(c.CanonAttributes(v) + c.CanonMembers(d.sequence, v));
            && (c.Childless(d.sequence, v) ==> w != DEFAULT_VALUE)
            && (!Unmarked(d.attributes, Given(v)) ==> w != NIL_VALUE)
  {
    hide Codec.Childless, Codec.CanonMembers;
    var w := Obj(c.CanonAttributes(v) + c.CanonMembers(d.sequence, v));
    if c.Childless(d.sequence, v) {
      ChildlessMembers(c, d.sequence, v);
      assert DEFAULT_VALUE.members["$default"] == Bool(true);
      assert "$default" in w.members ==> w.members["$default"] != Bool(true);
    }
    if !Unmarked(d.attributes, Given(v)) {
      assert "$attributes" in w.members;
      assert "$attributes" !in NIL_VALUE.members;
    }
  }

  lemma {:induction false} ChildlessMembers(c: Codec, ps: seq<Particle>, v: Value)
    requires v.Obj? && c.Childless(ps, v)
    ensures forall k :: k in c.CanonMembers(ps, v) ==> c.CanonMembers(ps, v)[k] == Arr([])
    decreases |ps|
  {
    if ps != [] {
      assert forall k :: 0 <= k < |ps[1..]| ==> ps[1..][k] == ps[k + 1];
      ChildlessMembers(c, ps[1..], v);
      if ps[0].Particle? {
        NoItems(c, ps[0].element, v, 0);
      }
    }
  }

  /** For every accepted value, decoding its tree gives the canonical form if and only if no element with a
      declared default carries an explicitly empty value and no attribute named xsi:nil or xsi:type is given. */
  lemma DecodeInvertsEncode(c: Codec, e: Element, v: Value, depth: nat)
    requires Ready(c, e) && c.Encode(e, v, depth).Ok?
    ensures c.Decode(e, c.Encode(e, v, depth).value, depth) == Ok(c.Canon(e, v)) <==> c.Explicit(e, v)
  {
    RoundTrip(c, e, v, depth);
  }

  /** A defaulted string written as the empty string comes back as the default. */
  lemma EmptyDefaultIsLost()
    ensures var c := Codec(map[], 1);
            var e := Element("name", Scalar(String), false, false, true, None);
            && c.Encode(e, Str(""), 0).Ok? && c.Canon(e, Str("")) == Str("")
            && c.Decode(e, c.Encode(e, Str(""), 0).value, 0) == Ok(DEFAULT_VALUE)
  {
  }

  /** A given attribute named xsi:type is written, and then the decoder refuses the element. */
  lemma MarkedAttributeIsLost()
    ensures var c := Codec(map[], 1);
            var e := Element("name", Complex([Attribute("type", XSI_TYPE, Scalar(String), false, None)], [], false),
                             false, false, false, None);
            var v := Obj(map["$attributes" := Obj(map["type" := Str("a")])]);
            Ready(c, e) && c.Encode(e, v, 0).Ok? && c.Decode(e, c.Encode(e, v, 0).value, 0).Err?
  {
    hide Codec.EncodeComplex, Codec.EncodeAttributes, Codec.EncodeParticles, Codec.Canon, ScalarOf;
    var c, a := Codec(map[], 1), Attribute("type", XSI_TYPE, Scalar(String), false, None);
    var d, given := Complex([a], [], false), map["type" := Str("a")];
    var v := Obj(map["$attributes" := Obj(given)]);
    NoNames();
    AttributeSplit([a]);
    assert c.Scalar(a.typ, given["type"], false) == Ok(Str("a")) by { PlainText(c, "a"); }
    OneAttribute(c, a, given, Str("a"));
    assert c.EncodeParticles([], v, 0) == Ok([]) by { NoParticles(c, v, 0); }
    ComplexIs(c, "name", d, v, map[XSI_TYPE := "a"]);
    assert "$default" !in v.members && DistinctAttributes([a]);
  }

  lemma PlainText(c: Codec, s: string)
    requires c.stack > 0
    ensures c.Scalar(Scalar(String), Str(s), false) == Ok(Str(s))
  {
  }

  lemma NoParticles(c: Codec, v: Value, depth: nat)
    requires v.Obj?
    ensures c.EncodeParticles([], v, depth) == Ok([]) && c.CanonMembers([], v) == map[]
  {
  }

  /** The node of a complex value without children. */
  lemma ComplexIs(c: Codec, name: string, d: Type, v: Value, attributes: map<string, string>)
    requires d.Complex? && !d.exotic && v.Obj? && c.EncodeParticles(d.sequence, v, 0) == Ok([])
    requires v.members.Keys <= ParticleKeys(d.sequence) + {"$attributes"}
    requires Given(v).Keys <= AttributeKeys(d.attributes)
    requires ("$attributes" in v.members ==> v.members["$attributes"].Obj?)
    requires c.EncodeAttributes(d.attributes, Given(v)) == Ok(attributes)
    ensures c.EncodeComplex(name, d, v, 0) == Ok(Node(name, attributes, "", [], ""))
  {
    hide Codec.EncodeAttributes, Codec.EncodeParticles;
  }

  lemma OneAttribute(c: Codec, a: Attribute, given: map<string, Value>, w: Value)
    requires a.key in given && a.fixedLexical.None? && c.Scalar(a.typ, given[a.key], false) == Ok(w)
    ensures [a][1..] == [] && c.EncodeAttributes([a], given) == Ok(map[a.name := Lexical(w)])
  {
    hide Codec.Scalar, Lexical;
    assert c.EncodeAttributes([], given) == Ok(map[]);
    assert map[a.name := Lexical(w)] + map[] == map[a.name := Lexical(w)];
  }

  lemma NoParticle(c: Codec, p: Particle, v: Value, depth: nat)
    requires p.Particle? && v.Obj? && p.key !in v.members && p.min == 0
    ensures [p][1..] == [] && c.EncodeParticles([p], v, depth) == Ok([])
    ensures c.CanonMembers([p], v) == c.MemberFor(p, [])
  {
    hide Codec.MemberFor;
    NoItems(c, p.element, v, depth + 1);
    assert Supplied(p, v) == Ok([]) && CountAllowed(p, 0);
    assert [p][1..] == [] && c.EncodeParticles([p][1..], v, depth) == Ok([]) && c.CanonMembers([], v) == map[];
    assert c.MemberFor(p, []) + map[] == c.MemberFor(p, []);
    var none: seq<Node> := [];
    assert c.EncodeItems(p.element, Supplied(p, v).value, v, depth + 1) == Ok(none);
    assert none + none == none;
  }

  lemma NoNames()
    ensures AttributeKeys([]) == {} && AttributeNames([]) == {} && ParticleKeys([]) == {} && ParticleNames([]) == {}
  {
  }

  // ---------- The canonical form encodes to the same tree ----------

  ghost predicate SameTree(c: Codec, e: Element, v: Value, depth: nat) {
    c.Encode(e, v, depth).Ok? ==> c.Encode(e, c.Canon(e, v), depth) == c.Encode(e, v, depth)
  }

  ghost predicate EachSameTree(c: Codec, e: Element, items: seq<Value>, depth: nat) {
    forall k :: 0 <= k < |items| ==> SameTree(c, e, items[k], depth)
  }

  ghost predicate AllSameTree(c: Codec, ps: seq<Particle>, v: Value, depth: nat)
    requires v.Obj?
  {
    forall k :: 0 <= k < |ps| && ps[k].Particle? && Supplied(ps[k], v).Ok? ==>
      EachSameTree(c, ps[k].element, Supplied(ps[k], v).value, depth + 1)
  }

  lemma {:induction false} ItemsSame(c: Codec, e: Element, items: seq<Value>, v: Value, w: Value, depth: nat)
    requires (forall k :: 0 <= k < |items| ==> items[k] < v) && EachSameTree(c, e, items, depth)
    requires forall k :: 0 <= k < |items| ==> c.CanonItems(e, items, v)[k] < w
    requires c.EncodeItems(e, items, v, depth).Ok?
    ensures c.EncodeItems(e, c.CanonItems(e, items, v), w, depth) == c.EncodeItems(e, items, v, depth)
    decreases |items|
  {
    hide Codec.Encode, Codec.Canon;
    if items != [] {
      var canon := c.CanonItems(e, items, v);
      assert canon[1..] == c.CanonItems(e, items[1..], v);
      assert forall k :: 0 <= k < |canon[1..]| ==> canon[1..][k] == canon[k + 1];
      ItemsSame(c, e, items[1..], v, w, depth);
      assert SameTree(c, e, items[0], depth);
    }
  }

  /** What the canonical object supplies for each particle. */
  ghost predicate SuppliesCanon(c: Codec, ps: seq<Particle>, v: Value, w: Value)
    requires v.Obj? && w.Obj?
  {
    forall k :: 0 <= k < |ps| && ps[k].Particle? && Supplied(ps[k], v).Ok? ==>
      Supplied(ps[k], w) == Ok(c.CanonItems(ps[k].element, Supplied(ps[k], v).value, v))
  }

  lemma MemberSupplies(c: Codec, p: Particle, items: seq<Value>, w: Value)
    requires p.Particle? && w.Obj? && (!Repeated(p) ==> |items| <= 1)
    requires p.key in w.members <==> p.key in c.MemberFor(p, items)
    requires p.key in w.members ==> w.members[p.key] == c.MemberFor(p, items)[p.key]
    ensures Supplied(p, w) == Ok(items)
  {
    if |items| == 1 {
      assert items == [items[0]];
    }
  }

  /** Under these keys the object holds exactly these members. */
  ghost predicate Carries(w: Value, members: map<string, Value>, keys: set<string>)
    requires w.Obj?
  {
    forall key :: key in keys ==>
      (key in w.members <==> key in members) && (key in w.members ==> w.members[key] == members[key])
  }

  lemma {:induction false} MembersSupply(c: Codec, ps: seq<Particle>, v: Value, w: Value)
    requires v.Obj? && w.Obj? && DistinctParticles(ps) && Carries(w, c.CanonMembers(ps, v), ParticleKeys(ps))
    ensures SuppliesCanon(c, ps, v, w)
    decreases |ps|
  {
    hide Codec.CanonItems, Codec.CanonMembers, Codec.MemberFor, SuppliesCanon, Carries, ParticleKeys, Supplied;
    if ps == [] {
      SuppliesNone(c, v, w);
    } else {
      LaterCarried(c, ps, v, w);
      MembersSupply(c, ps[1..], v, w);
      SuppliesFirst(c, ps, v, w);
    }
  }

  lemma SuppliesNone(c: Codec, v: Value, w: Value)
    requires v.Obj? && w.Obj?
    ensures SuppliesCanon(c, [], v, w)
  {
  }

  lemma SuppliesFirst(c: Codec, ps: seq<Particle>, v: Value, w: Value)
    requires v.Obj? && w.Obj? && ps != [] && SuppliesCanon(c, ps[1..], v, w)
    requires ps[0].Particle? && Supplied(ps[0], v).Ok? ==>
               Supplied(ps[0], w) == Ok(c.CanonItems(ps[0].element, Supplied(ps[0], v).value, v))
    ensures SuppliesCanon(c, ps, v, w)
  {
    hide Codec.CanonItems, Supplied;
    assert forall k :: 0 < k < |ps| ==> ps[k] == ps[1..][k - 1];
  }

  /** What holds of all members holds of those of the later particles, and gives the first one its items. */
  lemma LaterCarried(c: Codec, ps: seq<Particle>, v: Value, w: Value)
    requires v.Obj? && w.Obj? && ps != [] && DistinctParticles(ps)
    requires Carries(w, c.CanonMembers(ps, v), ParticleKeys(ps))
    ensures Carries(w, c.CanonMembers(ps[1..], v), ParticleKeys(ps[1..]))
    ensures ps[0].Particle? && Supplied(ps[0], v).Ok? ==>
              Supplied(ps[0], w) == Ok(c.CanonItems(ps[0].element, Supplied(ps[0], v).value, v))
  {
    hide Codec.CanonItems, ParticleKeys, Supplied;
    var p, later := ps[0], ps[1..];
    MembersKeyed(c, later, v);
    if p.Particle? {
      ParticleSplit(ps);
      if Supplied(p, v).Ok? {
        SuppliedOnce(p, v);
        MemberSupplies(c, p, c.CanonItems(p.element, Supplied(p, v).value, v), w);
      }
    } else {
      OtherSplit(ps);
    }
  }

  lemma OtherSplit(ps: seq<Particle>)
    requires ps != [] && !ps[0].Particle?
    ensures ParticleKeys(ps) == ParticleKeys(ps[1..])
  {
    assert forall k :: 0 < k < |ps| ==> ps[k] == ps[1..][k - 1];
    assert forall k :: 0 <= k < |ps[1..]| ==> ps[1..][k] == ps[k + 1];
  }

  lemma SuppliedOnce(p: Particle, v: Value)
    requires p.Particle? && v.Obj? && Supplied(p, v).Ok?
    ensures !Repeated(p) ==> |Supplied(p, v).value| <= 1
  {
  }

  lemma {:induction false} ParticlesSame(c: Codec, ps: seq<Particle>, v: Value, w: Value, depth: nat)
    requires v.Obj? && w.Obj? && SuppliesCanon(c, ps, v, w) && c.EncodeParticles(ps, v, depth).Ok?
    requires AllSameTree(c, ps, v, depth)
    ensures c.EncodeParticles(ps, w, depth) == c.EncodeParticles(ps, v, depth)
    decreases |ps|
  {
    hide Codec.EncodeItems, Codec.CanonItems, Supplied, SameTree, EachSameTree;
    if ps != [] {
      var p, later := ps[0], ps[1..];
      assert forall k :: 0 <= k < |later| ==> later[k] == ps[k + 1];
      ItemsSame(c, p.element, Supplied(p, v).value, v, w, depth + 1);
      ParticlesSame(c, later, v, w, depth);
    }
  }

  lemma {:induction false} CanonSameTree(c: Codec, e: Element, v: Value, depth: nat)
    requires Ready(c, e) && Unreserved(c.types) && UnreservedType(e.typ)
    ensures SameTree(c, e, v, depth)
    decreases v
  {
    if c.Encode(e, v, depth).Ok? && !IsNil(v) && !IsDefault(v) && c.TypeOf(e).value.Complex? {
      var d := c.TypeOf(e).value;
      ComplexInside(c, e, v, depth);
      ResolveWellFormed(c.types, e.typ, {});
      ResolveUnreserved(c.types, e.typ, {});
      forall k, i | 0 <= k < |d.sequence| && d.sequence[k].Particle? && Supplied(d.sequence[k], v).Ok?
                    && 0 <= i < |Supplied(d.sequence[k], v).value|
        ensures SameTree(c, d.sequence[k].element, Supplied(d.sequence[k], v).value[i], depth + 1)
      {
        CanonSameTree(c, d.sequence[k].element, Supplied(d.sequence[k], v).value[i], depth + 1);
      }
      hide SameTree;
      ComplexSame(c, d, v, depth, e.name);
      ComplexElementSame(c, e, d, v, depth);
    } else {
      PlainSame(c, e, v, depth);
    }
  }

  lemma PlainSame(c: Codec, e: Element, v: Value, depth: nat)
    requires IsNil(v) || IsDefault(v) || c.Encode(e, v, depth).Err? || !c.TypeOf(e).value.Complex?
    ensures SameTree(c, e, v, depth)
  {
    hide Codec.CanonMembers, Codec.CanonAttributes, Codec.EncodeComplex, Codec.Scalar, Codec.Fixed;
    assert IsDefault(v) ==> !IsNil(v);
  }

  lemma ComplexInside(c: Codec, e: Element, v: Value, depth: nat)
    requires c.Encode(e, v, depth).Ok? && !IsNil(v) && !IsDefault(v) && c.TypeOf(e).value.Complex?
    ensures v.Obj? && c.EncodeComplex(e.name, c.TypeOf(e).value, v, depth).Ok?
  {
    hide Codec.EncodeAttributes, Codec.EncodeParticles;
  }

  lemma CanonIsNoDefault(c: Codec, d: Type, v: Value)
    requires d.Complex? && ParticleKeys(d.sequence) !! RESERVED && v.Obj?
    ensures var w := Obj(c.CanonAttributes(v) + c.CanonMembers(d.sequence, v));
            !IsDefault(w) && !IsNil(w) && "$type" !in w.members
  {
    hide Codec.CanonMembers;
    MembersKeyed(c, d.sequence, v);
  }

  lemma ComplexElementSame(c: Codec, e: Element, d: Type, v: Value, depth: nat)
    requires c.Encode(e, v, depth).Ok? && !IsNil(v) && !IsDefault(v) && c.TypeOf(e) == Ok(d) && d.Complex?
    requires ParticleKeys(d.sequence) !! RESERVED
    requires v.Obj?
    requires c.EncodeComplex(e.name, d, Obj(c.CanonAttributes(v) + c.CanonMembers(d.sequence, v)), depth) ==
             c.EncodeComplex(e.name, d, v, depth)
    ensures SameTree(c, e, v, depth)
  {
    hide Codec.EncodeComplex, Codec.CanonAttributes, Codec.CanonMembers;
    CanonIsNoDefault(c, d, v);
    assert e.fixedLexical.None?;
  }

  lemma ComplexSame(c: Codec, d: Type, v: Value, depth: nat, name: string)
    requires d.Complex? && WellFormedType(d) && ParticleKeys(d.sequence) !! RESERVED
    requires c.EncodeComplex(name, d, v, depth).Ok? && AllSameTree(c, d.sequence, v, depth)
    ensures var w := Obj(c.CanonAttributes(v) + c.CanonMembers(d.sequence, v));
            c.EncodeComplex(name, d, w, depth) == c.EncodeComplex(name, d, v, depth)
  {
    hide Codec.EncodeAttributes, Codec.EncodeParticles, Codec.CanonMembers, SuppliesCanon, AllSameTree, Supplied;
    hide DistinctParticles, ParticleKeys;
    var w := Obj(c.CanonAttributes(v) + c.CanonMembers(d.sequence, v));
    MembersKeyed(c, d.sequence, v);
    MembersSupply(c, d.sequence, v, w);
    ParticlesSame(c, d.sequence, v, w, depth);
  }

  /** Under a reserved key the canonical form may read as a mark: its empty `$type` array is refused. */
  lemma ReservedKeyIsRefused()
    ensures var c := Codec(map[], 1);
            var p := Particle("$type", Element("item", Scalar(String), false, false, false, None), 0, None);
            var e := Element("name", Complex([], [p], false), false, false, false, None);
            Ready(c, e) && c.Encode(e, Obj(map[]), 0).Ok? && c.Encode(e, c.Canon(e, Obj(map[])), 0).Err?
  {
    hide Codec.EncodeComplex, Codec.EncodeParticles, Codec.CanonMembers;
    var c, v := Codec(map[], 1), Obj(map[]);
    var p := Particle("$type", Element("item", Scalar(String), false, false, false, None), 0, None);
    NoNames();
    NoParticle(c, p, v, 0);
    assert c.EncodeAttributes([], Given(v)) == Ok(map[]);
    ComplexIs(c, "name", Complex([], [p], false), v, map[]);
    assert "$default" !in v.members;
    assert "$type" in c.CanonAttributes(v) + c.CanonMembers([p], v);
  }

  /** Encoding the canonical form gives the tree of the value itself. */
  lemma EncodeCanon(c: Codec, e: Element, v: Value, depth: nat)
    requires Ready(c, e) && Unreserved(c.types) && UnreservedType(e.typ) && c.Encode(e, v, depth).Ok?
    ensures c.Encode(e, c.Canon(e, v), depth) == c.Encode(e, v, depth)
  {
    CanonSameTree(c, e, v, depth);
  }

  /** Explicit values share a tree exactly when they share a canonical form. */
  lemma SameTreeSameCanon(c: Codec, e: Element, v: Value, w: Value, depth: nat)
    requires Ready(c, e) && Unreserved(c.types) && UnreservedType(e.typ)
    requires c.Encode(e, v, depth).Ok? && c.Encode(e, w, depth).Ok?
    requires c.Explicit(e, v) && c.Explicit(e, w)
    ensures c.Encode(e, v, depth) == c.Encode(e, w, depth) <==> c.Canon(e, v) == c.Canon(e, w)
  {
    DecodeInvertsEncode(c, e, v, depth);
    DecodeInvertsEncode(c, e, w, depth);
    EncodeCanon(c, e, v, depth);
    EncodeCanon(c, e, w, depth);
  }
}
