/** Which elements stand for which values: reading and writing stated as relations between a declaration, an element
    and a
    value; the decoder and the encoder decide exactly these. */
module XmlRelations {
  import opened Wrappers
  import opened XmlCodec
  import opened XmlMeaning
  import opened XmlElements

  // ---------- Reading ----------

  /** The code points that the host language strips from a text. */
  predicate IsSpacing(c: char) {
    var n := c as int;
    n in {9, 10, 11, 12, 13, 28, 29, 30, 31, 32, 133, 160, 5760, 8232, 8233, 8239, 8287, 12288} || 8192 <= n <= 8202
  }

  predicate OnlySpacing(s: string) {
    forall k :: 0 <= k < |s| ==> IsSpacing(s[k])
  }

  /** The element stands for the value. */
  ghost predicate Reads(c: Codec, e: Element, node: Node, v: Value, depth: nat)
    decreases node, 4
  {
    && depth <= 32 && node.tag == e.name && TYPE_NAME !in node.attributes
    && exists d :: StandsFor(c.types, e.typ, d) && ReadsAs(c, e, d, node, v, depth)
  }

  ghost predicate ReadsAs(c: Codec, e: Element, d: Type, node: Node, v: Value, depth: nat)
    decreases node, 3
  {
    if NIL_NAME in node.attributes then
      && e.nillable && node.attributes.Keys == {NIL_NAME}
      && (node.attributes[NIL_NAME] == "true" || node.attributes[NIL_NAME] == "1")
      && node.children == [] && OnlySpacing(node.text) && v == Obj(map["$nil" := Bool(true)])
    else if e.hasDefault && node.children == [] && node.text == "" then
      node.attributes == map[] && v == Obj(map["$default" := Bool(true)])
    else
      && (if d.Complex? then ReadsComplex(c, d, node, v, depth)
          else node.children == [] && node.attributes == map[] && Means(c.types, d, node.text, v, c.stack))
      && (e.fixedLexical.Some? ==> Means(c.types, d, e.fixedLexical.value, v, c.stack))
  }

  /** Attributes and children give the members; nothing but spacing stands between. */
  ghost predicate ReadsComplex(c: Codec, d: Type, node: Node, v: Value, depth: nat)
    requires d.Complex?
    decreases node, 2
  {
    && !d.exotic && OnlySpacing(node.text)
    && (forall k :: 0 <= k < |node.children| ==> OnlySpacing(node.children[k].tail))
    && (forall name :: name in node.attributes ==> exists k :: 0 <= k < |d.attributes| && d.attributes[k].name == name)
    && exists given, parts ::
         && ReadsAttributes(c, d.attributes, node.attributes, given)
         && ReadsSequence(c, d.sequence, node, 0, parts, depth)
         && v == Obj((if given == map[] then map[] else map["$attributes" := Obj(given)]) + parts)
  }

  /** Each declared attribute is given exactly when it is present, with the value its text stands for. */
  ghost predicate ReadsAttributes(c: Codec, attributes: seq<Attribute>, present: map<string, string>,
                                  given: map<string, Value>) {
    && (forall k :: 0 <= k < |attributes| ==> ReadsAttribute(c, attributes[k], present, given))
    && (forall key :: key in given ==> exists k :: 0 <= k < |attributes| && attributes[k].key == key)
  }

  ghost predicate ReadsAttribute(c: Codec, a: Attribute, present: map<string, string>, given: map<string, Value>) {
    && (a.key in given <==> a.name in present)
    && (a.required ==> a.name in present)
    && (a.name in present ==> Means(c.types, a.typ, present[a.name], given[a.key], c.stack))
    && (a.name in present && a.fixedLexical.Some? ==>
          Means(c.types, a.typ, a.fixedLexical.value, given[a.key], c.stack))
  }

  /** The children from `lo` on are one run for each particle, in order, and give these members. */
  ghost predicate ReadsSequence(c: Codec, ps: seq<Particle>, node: Node, lo: nat, parts: map<string, Value>, depth: nat)
    requires lo <= |node.children|
    decreases node, 1, |ps|
  {
    if ps == [] then lo == |node.children| && parts == map[]
    else
      && ps[0].Particle?
      && exists hi :: && lo <= hi <= |node.children| && ReadsRun(c, ps[0], node, lo, hi, parts, depth)
                      && ReadsSequence(c, ps[1..], node, hi, parts - {ps[0].key}, depth)
  }

  /** As many children as the particle allows, each standing for an item of its member. */
  ghost predicate ReadsRun(c: Codec, p: Particle, node: Node, lo: nat, hi: nat, parts: map<string, Value>, depth: nat)
    requires p.Particle? && lo <= hi <= |node.children|
    decreases node, 0
  {
    && p.min <= hi - lo && (p.max.Some? ==> hi - lo <= p.max.value)
    && if p.max.None? || p.max.value >= 2 then
         && p.key in parts && parts[p.key].Arr? && |parts[p.key].items| == hi - lo
         && forall k :: lo <= k < hi ==> Reads(c, p.element, node.children[k], parts[p.key].items[k - lo], depth + 1)
       else if lo == hi then p.key !in parts
       else p.key in parts && Reads(c, p.element, node.children[lo], parts[p.key], depth + 1)
  }

  // ---------- The decoder decides reading ----------

  lemma BlankIsSpacing(s: string)
    ensures IsBlank(s) <==> OnlySpacing(s)
  {
    forall k | 0 <= k < |s|
      ensures IsSpacing(s[k]) <==> IsBlank([s[k]])
    {
      SpacingIs(s[k]);
    }
    assert forall k :: 0 <= k < |s| ==> [s[k]][0] == s[k];
  }

  lemma SpacingIs(c: char)
    ensures IsSpacing(c) <==> IsBlank([c])
  {
    assert [c][0] == c;
  }

  lemma AttributesOneByOne(c: Codec, attributes: seq<Attribute>, present: map<string, string>,
                           given: map<string, Value>)
    requires attributes != [] && DistinctAttributes(attributes)
    ensures ReadsAttributes(c, attributes, present, given) <==>
            && ReadsAttribute(c, attributes[0], present, given)
            && ReadsAttributes(c, attributes[1..], present, given - {attributes[0].key})
  {
    hide Means;
    var a, others, fewer := attributes[0], attributes[1..], given - {attributes[0].key};
    assert forall k :: 0 <= k < |others| ==> others[k] == attributes[k + 1] && others[k].key in AttributeKeys(others);
    assert forall k :: 1 <= k < |attributes| ==> attributes[k] == others[k - 1];
    forall k | 0 <= k < |others|
      ensures ReadsAttribute(c, others[k], present, fewer) <==> ReadsAttribute(c, attributes[k + 1], present, given)
    {
    }
    if ReadsAttributes(c, attributes, present, given) {
      forall key | key in fewer
        ensures exists k :: 0 <= k < |others| && others[k].key == key
      {
        var k :| 0 <= k < |attributes| && attributes[k].key == key;
        assert others[k - 1].key == key;
      }
    }
    if ReadsAttributes(c, others, present, fewer) {
      forall key | key in given
        ensures exists k :: 0 <= k < |attributes| && attributes[k].key == key
      {
        if key != a.key {
          assert key in fewer;
          var k :| 0 <= k < |others| && others[k].key == key;
          assert attributes[k + 1].key == key;
        }
      }
    }
  }

  /** What the text of an attribute and its fixed text stand for. */
  lemma LexicalIsRead(c: Codec, t: Type, text: string, fixedLexical: Option<string>, v: Value)
    ensures c.Scalar(t, Str(text), true) == Ok(v) <==> Means(c.types, t, text, v, c.stack)
    ensures c.Fixed(t, fixedLexical, v) <==> (fixedLexical.Some? ==> Means(c.types, t, fixedLexical.value, v, c.stack))
  {
    hide Means, ScalarOf;
    ScalarIsMeant(c.types, t, text, v, c.stack);
    if fixedLexical.Some? {
      ScalarIsMeant(c.types, t, fixedLexical.value, v, c.stack);
    }
  }

  lemma AttributesUnfold(c: Codec, attributes: seq<Attribute>, present: map<string, string>)
    requires attributes != []
    ensures c.DecodeAttributes(attributes, present) ==
            match c.DecodeAttributes(attributes[1..], present)
            case Err => Err
            case Ok(rest) =>
              var a := attributes[0];
              if a.name !in present then (if a.required then Err else Ok(rest))
              else
                match c.Scalar(a.typ, Str(present[a.name]), true)
                case Err => Err
                case Ok(w) => if c.Fixed(a.typ, a.fixedLexical, w) then Ok(map[a.key := w] + rest) else Err
  {
    hide Codec.Scalar, Codec.Fixed;
  }

  lemma {:induction false} AttributesAreRead(c: Codec, attributes: seq<Attribute>, present: map<string, string>,
                                             given: map<string, Value>)
    requires DistinctAttributes(attributes)
    ensures c.DecodeAttributes(attributes, present) == Ok(given) <==> ReadsAttributes(c, attributes, present, given)
    decreases |attributes|
  {
    hide ReadsAttributes, Codec.DecodeAttributes, Codec.Scalar, Codec.Fixed, Means, ReadsAttribute;
    if attributes == [] {
      NoAttributes(c, present, given);
    } else {
      AttributesOneByOne(c, attributes, present, given);
      AttributesUnfold(c, attributes, present);
      var a, others := attributes[0], attributes[1..];
      AttributesAreRead(c, others, present, given - {a.key});
      var rest := c.DecodeAttributes(others, present);
      if rest.Ok? {
        AttributesAreRead(c, others, present, rest.value);
        OnlyDeclared(c, others, present, rest.value);
        AttributeIsRead(c, a, present, given, rest.value);
      }
    }
  }

  lemma NoAttributes(c: Codec, present: map<string, string>, given: map<string, Value>)
    ensures c.DecodeAttributes([], present) == Ok(given) <==> ReadsAttributes(c, [], present, given)
  {
    assert given == map[] <==> forall key :: key !in given;
  }

  /** Reading one attribute adds its value to the others. */
  lemma AttributeIsRead(c: Codec, a: Attribute, present: map<string, string>, given: map<string, Value>,
                        rest: map<string, Value>)
    requires a.key !in rest
    ensures (if a.name !in present then (if a.required then Err else Ok(rest))
             else
               match c.Scalar(a.typ, Str(present[a.name]), true)
               case Err => Err
               case Ok(w) => if c.Fixed(a.typ, a.fixedLexical, w) then Ok(map[a.key := w] + rest) else Err) == Ok(given)
            <==> ReadsAttribute(c, a, present, given) && given - {a.key} == rest
  {
    hide Codec.Scalar, Codec.Fixed, Means;
    if a.name in present {
      assert forall w :: (map[a.key := w] + rest) - {a.key} == rest;
      if a.key in given {
        LexicalIsRead(c, a.typ, present[a.name], a.fixedLexical, given[a.key]);
        assert given == map[a.key := given[a.key]] + (given - {a.key});
      }
    } else if a.key !in given {
      assert given - {a.key} == given;
    }
  }

  lemma OnlyDeclared(c: Codec, attributes: seq<Attribute>, present: map<string, string>, given: map<string, Value>)
    requires ReadsAttributes(c, attributes, present, given)
    ensures given.Keys <= AttributeKeys(attributes)
  {
  }

  // ---------- Runs and sequences ----------

  /** Below an element the decoder decides reading. */
  ghost predicate ReadsBelow(c: Codec, e: Element, node: Node, depth: nat) {
    forall k, v :: 0 <= k < |node.children| ==>
      (c.Decode(e, node.children[k], depth) == Ok(v) <==> Reads(c, e, node.children[k], v, depth))
  }

  /** The longest run of children with the name, and what it stands for. */
  ghost predicate RunReads(c: Codec, e: Element, node: Node, lo: nat, hi: nat, items: seq<Value>, depth: nat) {
    && lo <= hi <= |node.children| && |items| == hi - lo
    && (forall k :: lo <= k < hi ==> Reads(c, e, node.children[k], items[k - lo], depth))
    && (hi < |node.children| ==> node.children[hi].tag != e.name)
  }

  lemma ReadsName(c: Codec, e: Element, node: Node, v: Value, depth: nat)
    requires Reads(c, e, node, v, depth)
    ensures node.tag == e.name
  {
  }

  lemma {:induction false} RunIsRead(c: Codec, e: Element, node: Node, lo: nat, hi: nat, items: seq<Value>, depth: nat)
    requires lo <= hi <= |node.children| && ReadsBelow(c, e, node, depth)
    ensures RunReads(c, e, node, lo, hi, items, depth) <==>
            && c.DecodeRun(e, node.children[lo..], node, depth) == Ok((items, node.children[hi..]))
            && |items| == hi - lo
    decreases |node.children| - lo
  {
    hide Reads, Codec.Decode;
    var children := node.children[lo..];
    if lo == |node.children| {
    } else if node.children[lo].tag != e.name {
      if RunReads(c, e, node, lo, hi, items, depth) && lo < hi {
        ReadsName(c, e, node.children[lo], items[0], depth);
      }
    } else {
      assert children[0] == node.children[lo] && children[1..] == node.children[lo + 1..];
      if lo < hi && items != [] {
        RunIsRead(c, e, node, lo + 1, hi, items[1..], depth);
        FirstOfRun(c, e, node, lo, hi, items, depth);
        assert c.Decode(e, node.children[lo], depth) == Ok(items[0]) <==>
            Reads(c, e, node.children[lo], items[0], depth);
        RunUnfolds(c, e, node, lo, hi, items, depth);
      }
    }
  }

  lemma RunUnfolds(c: Codec, e: Element, node: Node, lo: nat, hi: nat, items: seq<Value>, depth: nat)
    requires lo < hi <= |node.children| && items != [] && node.children[lo].tag == e.name
    ensures c.DecodeRun(e, node.children[lo..], node, depth) == Ok((items, node.children[hi..])) <==>
            && c.Decode(e, node.children[lo], depth) == Ok(items[0])
            && c.DecodeRun(e, node.children[lo + 1..], node, depth) == Ok((items[1..], node.children[hi..]))
  {
    hide Codec.Decode;
    var children := node.children[lo..];
    assert children[0] == node.children[lo] && children[1..] == node.children[lo + 1..];
    assert items == [items[0]] + items[1..];
    var rest := c.DecodeRun(e, node.children[lo + 1..], node, depth);
    if rest.Ok? {
      assert ([items[0]] + rest.value.0)[1..] == rest.value.0;
    }
  }

  lemma FirstOfRun(c: Codec, e: Element, node: Node, lo: nat, hi: nat, items: seq<Value>, depth: nat)
    requires lo < hi <= |node.children| && items != []
    ensures RunReads(c, e, node, lo, hi, items, depth) <==>
            Reads(c, e, node.children[lo], items[0], depth) && RunReads(c, e, node, lo + 1, hi, items[1..], depth)
  {
    hide Reads;
    assert forall k :: 0 <= k < |items| - 1 ==> items[1..][k] == items[k + 1];
    if RunReads(c, e, node, lo + 1, hi, items[1..], depth) {
      forall k | lo + 1 <= k < hi
        ensures Reads(c, e, node.children[k], items[1..][k - (lo + 1)], depth)
        ensures items[1..][k - (lo + 1)] == items[k - lo]
      {
      }
    }
  }

  lemma {:induction false} RunLeaves(c: Codec, e: Element, node: Node, lo: nat, depth: nat)
    requires lo <= |node.children| && c.DecodeRun(e, node.children[lo..], node, depth).Ok?
    ensures var r := c.DecodeRun(e, node.children[lo..], node, depth).value;
            lo + |r.0| <= |node.children| && r.1 == node.children[lo + |r.0|..]
    decreases |node.children| - lo
  {
    hide Codec.Decode;
    var children := node.children[lo..];
    if children != [] && children[0].tag == e.name {
      assert children[0] == node.children[lo] && children[1..] == node.children[lo + 1..];
      RunLeaves(c, e, node, lo + 1, depth);
    }
  }

  /** The member of a particle holds the items of its run. */
  lemma RunMember(c: Codec, p: Particle, node: Node, lo: nat, hi: nat, items: seq<Value>, others: map<string, Value>,
                  depth: nat)
    requires p.Particle? && lo <= hi <= |node.children| && |items| == hi - lo && p.key !in others
    requires CountAllowed(p, hi - lo)
    ensures ReadsRun(c, p, node, lo, hi, c.MemberFor(p, items) + others, depth) <==>
            forall k :: lo <= k < hi ==> Reads(c, p.element, node.children[k], items[k - lo], depth + 1)
  {
  }

  function RunItems(p: Particle, parts: map<string, Value>): seq<Value>
    requires p.Particle?
  {
    if p.key !in parts then []
    else if Repeated(p) then (if parts[p.key].Arr? then parts[p.key].items else [])
    else [parts[p.key]]
  }

  lemma RunItemsBack(c: Codec, p: Particle, node: Node, lo: nat, hi: nat, parts: map<string, Value>, depth: nat)
    requires p.Particle? && lo <= hi <= |node.children| && ReadsRun(c, p, node, lo, hi, parts, depth)
    ensures CountAllowed(p, hi - lo) && |RunItems(p, parts)| == hi - lo
    ensures c.MemberFor(p, RunItems(p, parts)) + (parts - {p.key}) == parts
  {
    hide Reads;
  }

  lemma RunCounts(c: Codec, p: Particle, node: Node, lo: nat, hi: nat, parts: map<string, Value>, depth: nat)
    requires p.Particle? && lo <= hi <= |node.children| && ReadsRun(c, p, node, lo, hi, parts, depth)
    ensures CountAllowed(p, hi - lo)
    ensures lo < hi ==> node.children[lo].tag == p.element.name
  {
    if lo < hi {
      if Repeated(p) {
        ReadsName(c, p.element, node.children[lo], parts[p.key].items[lo - lo], depth + 1);
      } else {
        ReadsName(c, p.element, node.children[lo], parts[p.key], depth + 1);
      }
    }
  }

  /** The members and the next child belong to the particles that are left. */
  lemma {:induction false} SequenceBelongs(c: Codec, ps: seq<Particle>, node: Node, lo: nat, parts: map<string, Value>,
                                           depth: nat)
    requires lo <= |node.children| && ReadsSequence(c, ps, node, lo, parts, depth)
    ensures parts.Keys <= ParticleKeys(ps)
    ensures lo < |node.children| ==> node.children[lo].tag in ParticleNames(ps)
    decreases |ps|
  {
    hide ReadsRun;
    if ps != [] {
      var p, others := ps[0], ps[1..];
      var hi :| && lo <= hi <= |node.children| && ReadsRun(c, p, node, lo, hi, parts, depth)
                && ReadsSequence(c, others, node, hi, parts - {p.key}, depth);
      SequenceBelongs(c, others, node, hi, parts - {p.key}, depth);
      RunCounts(c, p, node, lo, hi, parts, depth);
      ParticlesBelow(ps);
    }
  }

  lemma ParticlesBelow(ps: seq<Particle>)
    requires ps != [] && ps[0].Particle?
    ensures ParticleKeys(ps) == ParticleKeys(ps[1..]) + {ps[0].key}
    ensures ParticleNames(ps) == ParticleNames(ps[1..]) + {ps[0].element.name}
  {
    assert forall k :: 0 <= k < |ps| - 1 ==> ps[1..][k] == ps[k + 1];
    assert forall k :: 1 <= k < |ps| ==> ps[k] == ps[1..][k - 1];
  }

  ghost predicate AllBelow(c: Codec, ps: seq<Particle>, node: Node, depth: nat) {
    forall k :: 0 <= k < |ps| && ps[k].Particle? ==> ReadsBelow(c, ps[k].element, node, depth)
  }

  lemma {:induction false} SequenceIsRead(c: Codec, ps: seq<Particle>, node: Node, lo: nat, parts: map<string, Value>,
                                          depth: nat)
    requires lo <= |node.children| && DistinctParticles(ps) && AllBelow(c, ps, node, depth + 1)
    ensures c.DecodeParticles(ps, node.children[lo..], node, depth) == Ok((parts, [])) <==>
            ReadsSequence(c, ps, node, lo, parts, depth)
    decreases |ps|
  {
    hide Reads, ReadsRun, ReadsBelow, Codec.DecodeRun, Codec.Decode;
    if ps == [] {
      assert node.children[lo..] == [] <==> lo == |node.children|;
    } else if ps[0].Particle? {
      if c.DecodeParticles(ps, node.children[lo..], node, depth) == Ok((parts, [])) {
        DecodedReads(c, ps, node, lo, parts, depth);
      }
      if ReadsSequence(c, ps, node, lo, parts, depth) {
        ReadDecodes(c, ps, node, lo, parts, depth);
      }
    }
  }

  lemma ParticlesUnfold(c: Codec, ps: seq<Particle>, node: Node, lo: nat, depth: nat)
    requires lo <= |node.children| && ps != [] && ps[0].Particle?
    ensures c.DecodeParticles(ps, node.children[lo..], node, depth) ==
            match c.DecodeRun(ps[0].element, node.children[lo..], node, depth + 1)
            case Err => Err
            case Ok(run) =>
              if !CountAllowed(ps[0], |run.0|) then Err
              else
                match c.DecodeParticles(ps[1..], run.1, node, depth)
                case Err => Err
                case Ok(more) => Ok((c.MemberFor(ps[0], run.0) + more.0, more.1))
  {
    hide Codec.DecodeRun, Codec.MemberFor, CountAllowed;
  }

  lemma TakesRun(c: Codec, ps: seq<Particle>, node: Node, lo: nat, hi: nat, parts: map<string, Value>, depth: nat)
    requires lo <= hi <= |node.children| && ps != [] && ps[0].Particle?
    requires ReadsRun(c, ps[0], node, lo, hi, parts, depth)
    requires ReadsSequence(c, ps[1..], node, hi, parts - {ps[0].key}, depth)
    ensures ReadsSequence(c, ps, node, lo, parts, depth)
  {
    hide ReadsRun;
  }

  lemma RunTaken(c: Codec, ps: seq<Particle>, node: Node, lo: nat, parts: map<string, Value>, depth: nat)
      returns (hi: nat)
    requires lo <= |node.children| && ps != [] && ps[0].Particle? && ReadsSequence(c, ps, node, lo, parts, depth)
    ensures lo <= hi <= |node.children| && ReadsRun(c, ps[0], node, lo, hi, parts, depth)
    ensures ReadsSequence(c, ps[1..], node, hi, parts - {ps[0].key}, depth)
  {
    hide ReadsRun;
    hi :| && lo <= hi <= |node.children| && ReadsRun(c, ps[0], node, lo, hi, parts, depth)
          && ReadsSequence(c, ps[1..], node, hi, parts - {ps[0].key}, depth);
  }

  lemma Rest(ps: seq<Particle>, c: Codec, node: Node, depth: nat)
    requires ps != [] && ps[0].Particle? && DistinctParticles(ps) && AllBelow(c, ps, node, depth)
    ensures AllBelow(c, ps[1..], node, depth) && ReadsBelow(c, ps[0].element, node, depth) && DistinctParticles(ps[1..])
    ensures ps[0].key !in ParticleKeys(ps[1..]) && ps[0].element.name !in ParticleNames(ps[1..])
  {
    hide ReadsBelow;
  }

  lemma {:induction false} DecodedReads(c: Codec, ps: seq<Particle>, node: Node, lo: nat, parts: map<string, Value>,
                                        depth: nat)
    requires lo <= |node.children| && DistinctParticles(ps) && AllBelow(c, ps, node, depth + 1)
    requires ps != [] && ps[0].Particle?
    requires c.DecodeParticles(ps, node.children[lo..], node, depth) == Ok((parts, []))
    ensures ReadsSequence(c, ps, node, lo, parts, depth)
    decreases |ps|, 0
  {
    hide Reads, ReadsRun, ReadsBelow, ReadsSequence, AllBelow, DistinctParticles, ParticleKeys, ParticleNames;
    hide Codec.DecodeRun, Codec.DecodeParticles, Codec.Decode, Codec.MemberFor, CountAllowed;
    var p, others := ps[0], ps[1..];
    Rest(ps, c, node, depth + 1);
    ParticlesUnfold(c, ps, node, lo, depth);
    var run := c.DecodeRun(p.element, node.children[lo..], node, depth + 1);
    RunLeaves(c, p.element, node, lo, depth + 1);
    var items, hi := run.value.0, lo + |run.value.0|;
    assert run == Ok((items, node.children[hi..]));
    RunIsRead(c, p.element, node, lo, hi, items, depth + 1);
    var members := c.DecodeParticles(others, node.children[hi..], node, depth).value.0;
    assert c.DecodeParticles(others, node.children[hi..], node, depth) == Ok((members, []));
    SequenceIsRead(c, others, node, hi, members, depth);
    SequenceBelongs(c, others, node, hi, members, depth);
    RunMember(c, p, node, lo, hi, items, members, depth);
    MemberAdded(c, p, items, members);
    TakesRun(c, ps, node, lo, hi, parts, depth);
  }

  lemma MemberAdded(c: Codec, p: Particle, items: seq<Value>, others: map<string, Value>)
    requires p.Particle? && p.key !in others
    ensures c.MemberFor(p, items) + others - {p.key} == others
  {
  }

  lemma {:induction false} ReadDecodes(c: Codec, ps: seq<Particle>, node: Node, lo: nat, parts: map<string, Value>,
                                       depth: nat)
    requires lo <= |node.children| && DistinctParticles(ps) && AllBelow(c, ps, node, depth + 1)
    requires ps != [] && ps[0].Particle?
    requires ReadsSequence(c, ps, node, lo, parts, depth)
    ensures c.DecodeParticles(ps, node.children[lo..], node, depth) == Ok((parts, []))
    decreases |ps|, 0
  {
    hide Reads, ReadsRun, ReadsBelow, ReadsSequence, AllBelow, DistinctParticles, ParticleKeys, ParticleNames, RunItems;
    hide Codec.DecodeRun, Codec.DecodeParticles, Codec.Decode, Codec.MemberFor, CountAllowed;
    var p, others := ps[0], ps[1..];
    Rest(ps, c, node, depth + 1);
    ParticlesUnfold(c, ps, node, lo, depth);
    var hi := RunTaken(c, ps, node, lo, parts, depth);
    var items := RunItems(p, parts);
    RunItemsBack(c, p, node, lo, hi, parts, depth);
    RunMember(c, p, node, lo, hi, items, parts - {p.key}, depth);
    SequenceBelongs(c, others, node, hi, parts - {p.key}, depth);
    RunIsRead(c, p.element, node, lo, hi, items, depth + 1);
    SequenceIsRead(c, others, node, hi, parts - {p.key}, depth);
  }

  // ---------- Elements ----------

  /** Nothing but spacing and declared attributes stands beside the children. */
  predicate Tidy(d: Type, node: Node)
    requires d.Complex?
  {
    && !d.exotic && OnlySpacing(node.text)
    && (forall k :: 0 <= k < |node.children| ==> OnlySpacing(node.children[k].tail))
    && (forall name :: name in node.attributes ==> exists k :: 0 <= k < |d.attributes| && d.attributes[k].name == name)
  }

  lemma TidyDecodes(c: Codec, d: Type, node: Node, depth: nat)
    requires d.Complex?
    ensures c.DecodeComplex(d, node, depth) ==
            if !Tidy(d, node) then Err
            else
              match c.DecodeAttributes(d.attributes, node.attributes)
              case Err => Err
              case Ok(given) =>
                match c.DecodeParticles(d.sequence, node.children, node, depth)
                case Err => Err
                case Ok(read) =>
                  if read.1 != [] then Err
                  else Ok(Obj((if given == map[] then map[] else map["$attributes" := Obj(given)]) + read.0))
  {
    hide Codec.DecodeAttributes, Codec.DecodeParticles, IsBlank, OnlySpacing;
    BlankIsSpacing(node.text);
    forall k | 0 <= k < |node.children|
      ensures IsBlank(node.children[k].tail) <==> OnlySpacing(node.children[k].tail)
    {
      BlankIsSpacing(node.children[k].tail);
    }
    assert node.attributes.Keys <= AttributeNames(d.attributes) <==>
           forall name :: name in node.attributes ==>
               exists k :: 0 <= k < |d.attributes| && d.attributes[k].name == name;
  }

  lemma ComplexIsRead(c: Codec, d: Type, node: Node, v: Value, depth: nat)
    requires d.Complex? && WellFormedType(d) && AllBelow(c, d.sequence, node, depth + 1)
    ensures c.DecodeComplex(d, node, depth) == Ok(v) <==> ReadsComplex(c, d, node, v, depth)
  {
    hide Reads, ReadsAttributes, ReadsSequence, Codec.DecodeComplex, Codec.DecodeAttributes, Codec.DecodeParticles;
    hide AllBelow, OnlySpacing;
    TidyDecodes(c, d, node, depth);
    assert node.children[0..] == node.children;
    var attributes := c.DecodeAttributes(d.attributes, node.attributes);
    var read := c.DecodeParticles(d.sequence, node.children, node, depth);
    if c.DecodeComplex(d, node, depth) == Ok(v) {
      AttributesAreRead(c, d.attributes, node.attributes, attributes.value);
      assert read.value == (read.value.0, []);
      SequenceIsRead(c, d.sequence, node, 0, read.value.0, depth);
    }
    if ReadsComplex(c, d, node, v, depth) {
      var given, parts :|
        && ReadsAttributes(c, d.attributes, node.attributes, given)
        && ReadsSequence(c, d.sequence, node, 0, parts, depth)
        && v == Obj((if given == map[] then map[] else map["$attributes" := Obj(given)]) + parts);
      AttributesAreRead(c, d.attributes, node.attributes, given);
      SequenceIsRead(c, d.sequence, node, 0, parts, depth);
    }
  }

  lemma {:induction false} AllAreRead(c: Codec, d: Type, node: Node, depth: nat)
    requires WellFormed(c.types) && d.Complex? && WellFormedType(d)
    ensures AllBelow(c, d.sequence, node, depth)
    decreases node, 0
  {
    hide Reads, Codec.Decode, WellFormed;
    forall i, k, v | 0 <= i < |d.sequence| && d.sequence[i].Particle? && 0 <= k < |node.children|
      ensures c.Decode(d.sequence[i].element, node.children[k], depth) == Ok(v) <==>
              Reads(c, d.sequence[i].element, node.children[k], v, depth)
    {
      DecodeIsRead(c, d.sequence[i].element, node.children[k], v, depth);
    }
  }

  /** The decoder returns exactly the value that the element stands for. */
  lemma ReadsUnfold(c: Codec, e: Element, node: Node, v: Value, depth: nat)
    ensures Reads(c, e, node, v, depth) <==>
            && depth <= 32 && node.tag == e.name && TYPE_NAME !in node.attributes
            && c.TypeOf(e).Ok? && ReadsAs(c, e, c.TypeOf(e).value, node, v, depth)
  {
    hide ReadsAs, Resolve, StandsFor;
    forall d
      ensures c.TypeOf(e) == Ok(d) <==> StandsFor(c.types, e.typ, d)
    {
      ResolveStandsFor(c.types, e.typ, d);
    }
  }

  /** The decoder returns exactly the value that the element stands for. */
  lemma {:induction false} DecodeIsRead(c: Codec, e: Element, node: Node, v: Value, depth: nat)
    requires WellFormed(c.types) && WellFormedType(e.typ)
    ensures c.Decode(e, node, depth) == Ok(v) <==> Reads(c, e, node, v, depth)
    decreases node, 1
  {
    hide Reads, StandsFor, Resolve, ReadsComplex, Codec.DecodeComplex, Means, Codec.Scalar, Codec.Fixed, IsBlank;
    hide OnlySpacing, WellFormed, WellFormedType;
    ReadsUnfold(c, e, node, v, depth);
    if c.TypeOf(e).Ok? {
      var d := c.TypeOf(e).value;
      ResolveWellFormed(c.types, e.typ, {});
      BlankIsSpacing(node.text);
      LexicalIsRead(c, d, node.text, e.fixedLexical, v);
      if d.Complex? {
        AllAreRead(c, d, node, depth + 1);
        ComplexIsRead(c, d, node, v, depth);
      }
    }
  }
}
