/** Which values are written as which elements, stated as a relation; the encoder accepts and writes exactly this. */
module XmlWriting {
  import opened Wrappers
  import opened XmlCodec
  import opened XmlMeaning
  import opened XmlElements

  /** The value is written as this element. */
  ghost predicate Writes(c: Codec, e: Element, v: Value, node: Node, depth: nat)
    decreases v, 4
  {
    && depth <= 32 && !e.unsupported && !(v.Obj? && "$type" in v.members)
    && exists d :: StandsFor(c.types, e.typ, d) && WritesAs(c, e, d, v, node, depth)
  }

  ghost predicate WritesAs(c: Codec, e: Element, d: Type, v: Value, node: Node, depth: nat)
    decreases v, 3
  {
    if v.Obj? && "$nil" in v.members && v.members["$nil"] == Bool(true) then
      e.nillable && v == Obj(map["$nil" := Bool(true)]) && node == Node(e.name, map[NIL_NAME := "true"], "", [], "")
    else if v == Obj(map["$default" := Bool(true)]) || v == Obj(map["$default" := Int(1)]) then
      e.hasDefault && node == Node(e.name, map[], "", [], "")
    else
      && node.tag == e.name && node.tail == ""
      && (if d.Complex? then WritesComplex(c, d, v, node, depth)
          else node.children == [] && node.attributes == map[] && WritesText(c, d, v, node.text))
      && (e.fixedLexical.Some? ==> Means(c.types, d, e.fixedLexical.value, v, c.stack))
  }

  /** The text spells the value and stands for it. */
  ghost predicate WritesText(c: Codec, t: Type, v: Value, text: string) {
    Spells(v, text) && Means(c.types, t, text, v, c.stack)
  }

  /** Every member is an attribute's or a particle's. */
  ghost predicate WritesComplex(c: Codec, d: Type, v: Value, node: Node, depth: nat)
    requires d.Complex?
    decreases v, 2
  {
    && v.Obj? && !d.exotic && node.text == ""
    && (forall key :: key in v.members ==> key == "$attributes" || Declares(d.sequence, key))
    && (exists given :: GivenBy(v, given) && WritesAttributes(c, d.attributes, given, node.attributes))
    && WritesSequence(c, d.sequence, v, node, 0, depth)
  }

  /** The attributes a value gives, none when it has no such member. */
  predicate GivenBy(v: Value, given: map<string, Value>)
    requires v.Obj?
  {
    if "$attributes" in v.members then v.members["$attributes"] == Obj(given) else given == map[]
  }

  predicate Declares(ps: seq<Particle>, key: string) {
    exists k :: 0 <= k < |ps| && ps[k].Particle? && ps[k].key == key
  }

  /** Exactly the given attributes are written, each under its name. */
  ghost predicate WritesAttributes(c: Codec, attributes: seq<Attribute>, given: map<string, Value>,
                                   written: map<string, string>) {
    && (forall k :: 0 <= k < |attributes| ==> WritesAttribute(c, attributes[k], given, written))
    && (forall key :: key in given ==> IsKey(attributes, key))
    && (forall name :: name in written ==> IsName(attributes, name))
  }

  predicate IsKey(attributes: seq<Attribute>, key: string) {
    exists k :: 0 <= k < |attributes| && attributes[k].key == key
  }

  predicate IsName(attributes: seq<Attribute>, name: string) {
    exists k :: 0 <= k < |attributes| && attributes[k].name == name
  }

  ghost predicate WritesAttribute(c: Codec, a: Attribute, given: map<string, Value>, written: map<string, string>) {
    && (a.name in written <==> a.key in given)
    && (a.required ==> a.key in given)
    && (a.key in given ==> WritesText(c, a.typ, given[a.key], written[a.name]))
    && (a.key in given && a.fixedLexical.Some? ==>
          Means(c.types, a.typ, a.fixedLexical.value, given[a.key], c.stack))
  }

  /** The children from `lo` on are the runs of the particles, in order. */
  ghost predicate WritesSequence(c: Codec, ps: seq<Particle>, v: Value, node: Node, lo: nat, depth: nat)
    requires v.Obj? && lo <= |node.children|
    decreases v, 1, |ps|
  {
    if ps == [] then lo == |node.children|
    else
      && ps[0].Particle?
      && exists hi :: && lo <= hi <= |node.children| && WritesRun(c, ps[0], v, node, lo, hi, depth)
                      && WritesSequence(c, ps[1..], v, node, hi, depth)
  }

  /** As many children as the particle allows, each written for an item of its member. */
  ghost predicate WritesRun(c: Codec, p: Particle, v: Value, node: Node, lo: nat, hi: nat, depth: nat)
    requires v.Obj? && p.Particle? && lo <= hi <= |node.children|
    decreases v, 0
  {
    && p.min <= hi - lo && (p.max.Some? ==> hi - lo <= p.max.value)
    && if p.key !in v.members then lo == hi
       else if p.max.None? || p.max.value >= 2 then
         && v.members[p.key].Arr? && |v.members[p.key].items| == hi - lo
         && forall k :: lo <= k < hi ==>
             Writes(c, p.element, v.members[p.key].items[k - lo], node.children[k], depth + 1)
       else hi == lo + 1 && Writes(c, p.element, v.members[p.key], node.children[lo], depth + 1)
  }

  // ---------- Texts and attributes ----------

  lemma TextIsWritten(c: Codec, t: Type, v: Value, fixedLexical: Option<string>)
    ensures c.Scalar(t, v, false) == (if WritesText(c, t, v, Lexical(v)) then Ok(v) else Err)
    ensures forall text :: WritesText(c, t, v, text) ==> text == Lexical(v)
    ensures c.Fixed(t, fixedLexical, v) <==> (fixedLexical.Some? ==> Means(c.types, t, fixedLexical.value, v, c.stack))
  {
    hide Means, ScalarOf, Spells;
    WritableIsMeant(c.types, t, v, c.stack);
    forall text | WritesText(c, t, v, text)
      ensures text == Lexical(v)
    {
      SpelledOnce(v, text);
    }
    if fixedLexical.Some? {
      ScalarIsMeant(c.types, t, fixedLexical.value, v, c.stack);
    }
  }

  lemma AttributesOneByOne(c: Codec, attributes: seq<Attribute>, given: map<string, Value>,
                           written: map<string, string>)
    requires attributes != [] && DistinctAttributes(attributes)
    ensures WritesAttributes(c, attributes, given, written) <==>
            && WritesAttribute(c, attributes[0], given, written)
            && WritesAttributes(c, attributes[1..], given - {attributes[0].key}, written - {attributes[0].name})
  {
    hide WritesAttribute, IsKey, IsName, DistinctAttributes;
    var a, others := attributes[0], attributes[1..];
    forall k | 0 <= k < |others|
      ensures WritesAttribute(c, others[k], given - {a.key}, written - {a.name}) <==>
              WritesAttribute(c, attributes[k + 1], given, written)
    {
      OtherKept(c, attributes, k, given, written);
    }
    assert forall k :: 1 <= k < |attributes| ==> attributes[k] == others[k - 1];
    DeclaredOneByOne(attributes);
  }

  /** The first attribute does not touch the others. */
  lemma OtherKept(c: Codec, attributes: seq<Attribute>, k: nat, given: map<string, Value>, written: map<string, string>)
    requires DistinctAttributes(attributes) && k + 1 < |attributes|
    ensures WritesAttribute(c, attributes[1..][k], given - {attributes[0].key}, written - {attributes[0].name}) <==>
            WritesAttribute(c, attributes[k + 1], given, written)
  {
    hide WritesText, Means;
    var others := attributes[1..];
    assert others[k] == attributes[k + 1];
    assert others[k].key in AttributeKeys(others) && others[k].name in AttributeNames(others);
  }

  lemma DeclaredOneByOne(attributes: seq<Attribute>)
    requires attributes != []
    ensures forall key :: IsKey(attributes, key) <==> key == attributes[0].key || IsKey(attributes[1..], key)
    ensures forall name :: IsName(attributes, name) <==> name == attributes[0].name || IsName(attributes[1..], name)
  {
    var others := attributes[1..];
    assert forall k :: 0 <= k < |others| ==> others[k] == attributes[k + 1];
    forall key ensures IsKey(attributes, key) <==> key == attributes[0].key || IsKey(others, key) {
      if k :| 1 <= k < |attributes| && attributes[k].key == key {
        assert others[k - 1].key == key;
      }
      if k :| 0 <= k < |others| && others[k].key == key {
        assert attributes[k + 1].key == key;
      }
    }
    forall name ensures IsName(attributes, name) <==> name == attributes[0].name || IsName(others, name) {
      if k :| 1 <= k < |attributes| && attributes[k].name == name {
        assert others[k - 1].name == name;
      }
      if k :| 0 <= k < |others| && others[k].name == name {
        assert attributes[k + 1].name == name;
      }
    }
  }

  lemma AttributesUnfold(c: Codec, attributes: seq<Attribute>, given: map<string, Value>)
    requires attributes != []
    ensures c.EncodeAttributes(attributes, given) ==
            match c.EncodeAttributes(attributes[1..], given)
            case Err => Err
            case Ok(rest) =>
              var a := attributes[0];
              if a.key !in given then (if a.required then Err else Ok(rest))
              else
                match c.Scalar(a.typ, given[a.key], false)
                case Err => Err
                case Ok(w) => if c.Fixed(a.typ, a.fixedLexical, w) then Ok(map[a.name := Lexical(w)] + rest) else Err
  {
    hide Codec.Scalar, Codec.Fixed, Lexical;
  }

  lemma {:induction false} GivenElsewhere(c: Codec, attributes: seq<Attribute>, given: map<string, Value>, key: string)
    requires key !in AttributeKeys(attributes)
    ensures c.EncodeAttributes(attributes, given) == c.EncodeAttributes(attributes, given - {key})
    decreases |attributes|
  {
    hide Codec.Scalar, Codec.Fixed, Lexical;
    if attributes != [] {
      assert attributes[0].key in AttributeKeys(attributes);
      assert forall k :: 0 <= k < |attributes| - 1 ==> attributes[1..][k] == attributes[k + 1];
      assert AttributeKeys(attributes[1..]) <= AttributeKeys(attributes);
      GivenElsewhere(c, attributes[1..], given, key);
    }
  }

  lemma {:induction false} AttributesAreWritten(c: Codec, attributes: seq<Attribute>, given: map<string, Value>,
                                                written: map<string, string>)
    requires DistinctAttributes(attributes)
    ensures c.EncodeAttributes(attributes, given) == Ok(written) && given.Keys <= AttributeKeys(attributes) <==>
            WritesAttributes(c, attributes, given, written)
    decreases |attributes|
  {
    hide WritesAttributes, Codec.EncodeAttributes, Codec.Scalar, Codec.Fixed, WritesText, WritesAttribute, Lexical;
    if attributes == [] {
      NoAttributes(c, given, written);
    } else {
      AttributesOneByOne(c, attributes, given, written);
      AttributesUnfold(c, attributes, given);
      var a, others := attributes[0], attributes[1..];
      AttributesAreWritten(c, others, given - {a.key}, written - {a.name});
      GivenElsewhere(c, others, given, a.key);
      KeysOneByOne(attributes, given);
      var rest := c.EncodeAttributes(others, given);
      if rest.Ok? {
        AttributesAreWritten(c, others, given - {a.key}, rest.value);
        if (given - {a.key}).Keys <= AttributeKeys(others) {
          OnlyDeclared(c, others, given - {a.key}, rest.value);
          AttributeIsWritten(c, a, given, written, rest.value);
        }
      }
    }
  }

  lemma KeysOneByOne(attributes: seq<Attribute>, given: map<string, Value>)
    requires attributes != []
    ensures given.Keys <= AttributeKeys(attributes) <==>
            (given - {attributes[0].key}).Keys <= AttributeKeys(attributes[1..])
  {
    var others := attributes[1..];
    assert forall k :: 0 <= k < |others| ==> others[k] == attributes[k + 1];
    assert forall k :: 1 <= k < |attributes| ==> attributes[k] == others[k - 1];
    assert AttributeKeys(attributes) == AttributeKeys(others) + {attributes[0].key};
  }

  lemma NoAttributes(c: Codec, given: map<string, Value>, written: map<string, string>)
    ensures c.EncodeAttributes([], given) == Ok(written) && given.Keys <= AttributeKeys([]) <==>
            WritesAttributes(c, [], given, written)
  {
    assert written == map[] <==> forall name :: name !in written;
    assert AttributeKeys([]) == {};
    assert given.Keys <= {} <==> forall key :: key !in given;
  }

  lemma OnlyDeclared(c: Codec, attributes: seq<Attribute>, given: map<string, Value>, written: map<string, string>)
    requires WritesAttributes(c, attributes, given, written)
    ensures written.Keys <= AttributeNames(attributes)
  {
  }

  lemma AttributeIsWritten(c: Codec, a: Attribute, given: map<string, Value>, written: map<string, string>,
                           rest: map<string, string>)
    requires a.name !in rest
    ensures (if a.key !in given then (if a.required then Err else Ok(rest))
             else
               match c.Scalar(a.typ, given[a.key], false)
               case Err => Err
               case Ok(w) => if c.Fixed(a.typ, a.fixedLexical, w) then Ok(map[a.name := Lexical(w)] + rest) else Err)
            == Ok(written)
            <==> WritesAttribute(c, a, given, written) && written - {a.name} == rest
  {
    hide Codec.Scalar, Codec.Fixed, Means, Lexical, WritesText;
    if a.key in given {
      TextIsWritten(c, a.typ, given[a.key], a.fixedLexical);
      assert (map[a.name := Lexical(given[a.key])] + rest) - {a.name} == rest;
      if a.name in written {
        assert written == map[a.name := written[a.name]] + (written - {a.name});
      }
    } else if a.name !in written {
      assert written - {a.name} == written;
    }
  }

  // ---------- Runs and sequences ----------

  lemma {:induction false} ItemsAreWritten(c: Codec, e: Element, items: seq<Value>, parent: Value, nodes: seq<Node>,
                                           depth: nat)
    requires forall k :: 0 <= k < |items| ==> items[k] < parent
    ensures c.EncodeItems(e, items, parent, depth) == Ok(nodes) <==>
            |nodes| == |items| && forall k :: 0 <= k < |items| ==> c.Encode(e, items[k], depth) == Ok(nodes[k])
    decreases |items|
  {
    hide Codec.Encode;
    if items != [] && nodes != [] {
      ItemsAreWritten(c, e, items[1..], parent, nodes[1..], depth);
      assert forall k :: 1 <= k < |items| ==> items[k] == items[1..][k - 1];
      assert forall k :: 1 <= k < |nodes| ==> nodes[k] == nodes[1..][k - 1];
      assert nodes == [nodes[0]] + nodes[1..];
    }
  }

  /** Below a value the encoder decides writing. */
  ghost predicate WritesBelow(c: Codec, e: Element, v: Value, depth: nat) {
    forall w, node :: w < v ==> (c.Encode(e, w, depth) == Ok(node) <==> Writes(c, e, w, node, depth))
  }

  /** A run holds what is written for the supplied items. */
  lemma RunIsWritten(c: Codec, p: Particle, v: Value, node: Node, lo: nat, hi: nat, depth: nat)
    requires v.Obj? && p.Particle? && lo <= hi <= |node.children| && WritesBelow(c, p.element, v, depth + 1)
    ensures WritesRun(c, p, v, node, lo, hi, depth) <==>
            && Supplied(p, v).Ok? && CountAllowed(p, |Supplied(p, v).value|)
            && c.EncodeItems(p.element, Supplied(p, v).value, v, depth + 1) == Ok(node.children[lo..hi])
  {
    hide Writes, Codec.Encode, Codec.EncodeItems;
    if Supplied(p, v).Ok? {
      var items := Supplied(p, v).value;
      var nodes := node.children[lo..hi];
      ItemsAreWritten(c, p.element, items, v, nodes, depth + 1);
      forall k | 0 <= k < |items| && k < |nodes|
        ensures c.Encode(p.element, items[k], depth + 1) == Ok(nodes[k]) <==>
                Writes(c, p.element, items[k], node.children[lo + k], depth + 1)
      {
        assert items[k] < v && nodes[k] == node.children[lo + k];
      }
      assert forall k :: lo <= k < hi ==> node.children[k] == nodes[k - lo];
    }
  }

  ghost predicate AllBelow(c: Codec, ps: seq<Particle>, v: Value, depth: nat) {
    forall k :: 0 <= k < |ps| && ps[k].Particle? ==> WritesBelow(c, ps[k].element, v, depth)
  }

  lemma ParticlesUnfold(c: Codec, ps: seq<Particle>, v: Value, depth: nat)
    requires v.Obj? && ps != [] && ps[0].Particle?
    ensures c.EncodeParticles(ps, v, depth) ==
            match Supplied(ps[0], v)
            case Err => Err
            case Ok(items) =>
              if !CountAllowed(ps[0], |items|) then Err
              else
                match c.EncodeItems(ps[0].element, items, v, depth + 1)
                case Err => Err
                case Ok(nodes) =>
                  match c.EncodeParticles(ps[1..], v, depth)
                  case Err => Err
                  case Ok(rest) => Ok(nodes + rest)
  {
    hide Codec.EncodeItems, CountAllowed;
  }

  lemma RunTaken(c: Codec, ps: seq<Particle>, v: Value, node: Node, lo: nat, depth: nat) returns (hi: nat)
    requires v.Obj? && lo <= |node.children| && ps != [] && ps[0].Particle? && WritesSequence(c, ps, v, node, lo, depth)
    ensures lo <= hi <= |node.children| && WritesRun(c, ps[0], v, node, lo, hi, depth)
    ensures WritesSequence(c, ps[1..], v, node, hi, depth)
  {
    hide WritesRun;
    hi :| && lo <= hi <= |node.children| && WritesRun(c, ps[0], v, node, lo, hi, depth)
          && WritesSequence(c, ps[1..], v, node, hi, depth);
  }

  lemma {:induction false} SequenceIsWritten(c: Codec, ps: seq<Particle>, v: Value, node: Node, lo: nat, depth: nat)
    requires v.Obj? && lo <= |node.children| && AllBelow(c, ps, v, depth + 1)
    ensures c.EncodeParticles(ps, v, depth) == Ok(node.children[lo..]) <==> WritesSequence(c, ps, v, node, lo, depth)
    decreases |ps|
  {
    hide Writes, WritesRun, WritesBelow, Supplied, CountAllowed, Codec.EncodeItems, Codec.Encode;
    if ps == [] {
      assert node.children[lo..] == [] <==> lo == |node.children|;
    } else if ps[0].Particle? {
      ParticlesUnfold(c, ps, v, depth);
      assert AllBelow(c, ps[1..], v, depth + 1) && WritesBelow(c, ps[0].element, v, depth + 1);
      if c.EncodeParticles(ps, v, depth) == Ok(node.children[lo..]) {
        var nodes := c.EncodeItems(ps[0].element, Supplied(ps[0], v).value, v, depth + 1).value;
        var rest := c.EncodeParticles(ps[1..], v, depth).value;
        var hi := lo + |nodes|;
        var left := node.children[lo..];
        assert left == nodes + rest;
        assert hi <= |node.children| && node.children[lo..hi] == left[..|nodes|] &&
            node.children[hi..] == left[|nodes|..];
        RunIsWritten(c, ps[0], v, node, lo, hi, depth);
        SequenceIsWritten(c, ps[1..], v, node, hi, depth);
      }
      if WritesSequence(c, ps, v, node, lo, depth) {
        var hi := RunTaken(c, ps, v, node, lo, depth);
        RunIsWritten(c, ps[0], v, node, lo, hi, depth);
        SequenceIsWritten(c, ps[1..], v, node, hi, depth);
        assert node.children[lo..hi] + node.children[hi..] == node.children[lo..];
      }
    }
  }

  // ---------- Elements ----------

  lemma ComplexIsWritten(c: Codec, d: Type, v: Value, node: Node, depth: nat)
    requires d.Complex? && WellFormedType(d) && AllBelow(c, d.sequence, v, depth + 1)
    ensures c.EncodeComplex(node.tag, d, v, depth) == Ok(node) <==>
            WritesComplex(c, d, v, node, depth) && node.tail == ""
  {
    hide Writes, WritesAttributes, WritesSequence, AllBelow, Codec.EncodeAttributes, Codec.EncodeParticles;
    if v.Obj? {
      assert node.children[0..] == node.children;
      SequenceIsWritten(c, d.sequence, v, node, 0, depth);
      assert forall key :: Declares(d.sequence, key) <==> key in ParticleKeys(d.sequence);
      assert v.members.Keys <= ParticleKeys(d.sequence) + {"$attributes"} <==>
             forall key :: key in v.members ==> key == "$attributes" || Declares(d.sequence, key);
      hide ParticleKeys, Declares;
      var given := if "$attributes" in v.members then v.members["$attributes"] else Obj(map[]);
      if given.Obj? {
        AttributesAreWritten(c, d.attributes, given.members, node.attributes);
      }
      assert node == Node(node.tag, node.attributes, node.text, node.children, node.tail);
    }
  }

  lemma {:induction false} AllAreWritten(c: Codec, d: Type, v: Value, depth: nat)
    requires WellFormed(c.types) && d.Complex? && WellFormedType(d)
    ensures AllBelow(c, d.sequence, v, depth)
    decreases v, 0
  {
    hide Writes, Codec.Encode, WellFormed;
    forall i, w, node | 0 <= i < |d.sequence| && d.sequence[i].Particle? && w < v
      ensures c.Encode(d.sequence[i].element, w, depth) == Ok(node) <==>
              Writes(c, d.sequence[i].element, w, node, depth)
    {
      EncodeIsWritten(c, d.sequence[i].element, w, node, depth);
    }
  }

  lemma WritesUnfold(c: Codec, e: Element, v: Value, node: Node, depth: nat)
    ensures Writes(c, e, v, node, depth) <==>
            && depth <= 32 && !e.unsupported && !(v.Obj? && "$type" in v.members)
            && c.TypeOf(e).Ok? && WritesAs(c, e, c.TypeOf(e).value, v, node, depth)
  {
    hide WritesAs, Resolve, StandsFor;
    forall d
      ensures c.TypeOf(e) == Ok(d) <==> StandsFor(c.types, e.typ, d)
    {
      ResolveStandsFor(c.types, e.typ, d);
    }
  }

  lemma MarksAre(v: Value)
    ensures IsNil(v) && v.members.Keys == {"$nil"} <==> v == Obj(map["$nil" := Bool(true)])
    ensures IsDefault(v) <==> v == Obj(map["$default" := Bool(true)]) || v == Obj(map["$default" := Int(1)])
  {
    if v.Obj? && v.members.Keys == {"$nil"} {
      assert v.members == map["$nil" := v.members["$nil"]];
    }
    if v.Obj? && v.members.Keys == {"$default"} {
      assert v.members == map["$default" := v.members["$default"]];
    }
  }

  /** The encoder accepts exactly the values that some element is written for, and returns that element. */
  lemma {:induction false} EncodeIsWritten(c: Codec, e: Element, v: Value, node: Node, depth: nat)
    requires WellFormed(c.types) && WellFormedType(e.typ)
    ensures c.Encode(e, v, depth) == Ok(node) <==> Writes(c, e, v, node, depth)
    decreases v, 1
  {
    hide Writes, StandsFor, Resolve, WritesComplex, Codec.EncodeComplex, Means, Codec.Scalar, Codec.Fixed, WritesText;
    hide WellFormed, WellFormedType, Lexical, IsDefault;
    WritesUnfold(c, e, v, node, depth);
    MarksAre(v);
    if c.TypeOf(e).Ok? {
      var d := c.TypeOf(e).value;
      ResolveWellFormed(c.types, e.typ, {});
      TextIsWritten(c, d, v, e.fixedLexical);
      if d.Complex? {
        AllAreWritten(c, d, v, depth + 1);
        ComplexIsWritten(c, d, v, node, depth);
        if c.EncodeComplex(e.name, d, v, depth) == Ok(node) {
          NamesElement(c, e.name, d, v, node, depth);
        }
      }
    }
  }

  lemma NamesElement(c: Codec, name: string, d: Type, v: Value, node: Node, depth: nat)
    requires d.Complex? && c.EncodeComplex(name, d, v, depth) == Ok(node)
    ensures node.tag == name
  {
    hide Codec.EncodeAttributes, Codec.EncodeParticles;
  }
}
