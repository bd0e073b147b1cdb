/** `encode` and `decode` as they run: loops that append children, fill objects and advance a position. */
module XmlLoops {
  import opened Wrappers
  import opened XmlCodec
  import opened XmlElements

  function JoinMap<V>(done: map<string, V>, rest: Result<map<string, V>>): Result<map<string, V>> {
    if rest.Err? then Err else Ok(done + rest.value)
  }

  function JoinSeq<T>(done: seq<T>, rest: Result<seq<T>>): Result<seq<T>> {
    if rest.Err? then Err else Ok(done + rest.value)
  }

  lemma JoinMapStep<V>(done: map<string, V>, more: map<string, V>, rest: Result<map<string, V>>)
    ensures JoinMap(done + more, rest) == JoinMap(done, JoinMap(more, rest))
    ensures JoinMap(map[], rest) == rest
    ensures rest == Ok(map[]) ==> JoinMap(done, rest) == Ok(done)
  {
    if rest.Ok? {
      assert map[] + rest.value == rest.value && done + map[] == done;
      assert done + more + rest.value == done + (more + rest.value);
    }
  }

  lemma JoinSeqStep<T>(done: seq<T>, more: seq<T>, rest: Result<seq<T>>)
    ensures JoinSeq(done + more, rest) == JoinSeq(done, JoinSeq(more, rest))
    ensures JoinSeq([], rest) == rest
    ensures rest == Ok([]) ==> JoinSeq(done, rest) == Ok(done)
  {
    if rest.Ok? {
      assert [] + rest.value == rest.value && done + [] == done;
      assert done + more + rest.value == done + (more + rest.value);
    }
  }

  method WriteAttributes(c: Codec, attributes: seq<Attribute>, given: map<string, Value>)
    returns (r: Result<map<string, string>>)
    ensures r == c.EncodeAttributes(attributes, given)
  {
    var out: map<string, string> := map[];
    JoinMapStep(out, out, c.EncodeAttributes(attributes, given));
    assert attributes[0..] == attributes;
    for k := 0 to |attributes|
      invariant c.EncodeAttributes(attributes, given) == JoinMap(out, c.EncodeAttributes(attributes[k..], given))
    {
      var a := attributes[k];
      assert attributes[k..][0] == a && attributes[k..][1..] == attributes[k + 1..];
      ghost var rest := c.EncodeAttributes(attributes[k + 1..], given);
      if a.key in given {
        var w := c.Scalar(a.typ, given[a.key], false);
        if w.Err? || !c.Fixed(a.typ, a.fixedLexical, w.value) {
          return Err;
        }
        JoinMapStep(out, map[a.name := Lexical(w.value)], rest);
        out := out + map[a.name := Lexical(w.value)];
      } else if a.required {
        return Err;
      }
    }
    JoinMapStep(out, out, Ok(map[]));
    return Ok(out);
  }

  method WriteItems(c: Codec, e: Element, items: seq<Value>, parent: Value, depth: nat) returns (r: Result<seq<Node>>)
    requires forall k :: 0 <= k < |items| ==> items[k] < parent
    ensures r == c.EncodeItems(e, items, parent, depth)
    decreases parent, 0
  {
    var nodes: seq<Node> := [];
    JoinSeqStep(nodes, nodes, c.EncodeItems(e, items, parent, depth));
    assert items[0..] == items;
    for k := 0 to |items|
      invariant c.EncodeItems(e, items, parent, depth) == JoinSeq(nodes, c.EncodeItems(e, items[k..], parent, depth))
    {
      assert items[k..][0] == items[k] && items[k..][1..] == items[k + 1..];
      var node := WriteElement(c, e, items[k], depth);
      if node.Err? {
        return Err;
      }
      JoinSeqStep(nodes, [node.value], c.EncodeItems(e, items[k + 1..], parent, depth));
      nodes := nodes + [node.value];
    }
    JoinSeqStep(nodes, nodes, Ok([]));
    return Ok(nodes);
  }

  method WriteParticles(c: Codec, ps: seq<Particle>, v: Value, depth: nat) returns (r: Result<seq<Node>>)
    requires v.Obj?
    ensures r == c.EncodeParticles(ps, v, depth)
    decreases v, 1
  {
    hide Codec.EncodeItems;
    var nodes: seq<Node> := [];
    JoinSeqStep(nodes, nodes, c.EncodeParticles(ps, v, depth));
    assert ps[0..] == ps;
    for k := 0 to |ps|
      invariant c.EncodeParticles(ps, v, depth) == JoinSeq(nodes, c.EncodeParticles(ps[k..], v, depth))
    {
      assert ps[k..][0] == ps[k] && ps[k..][1..] == ps[k + 1..];
      if !ps[k].Particle? {
        return Err;
      }
      var supplied := Supplied(ps[k], v);
      if supplied.Err? || !CountAllowed(ps[k], |supplied.value|) {
        return Err;
      }
      var more := WriteItems(c, ps[k].element, supplied.value, v, depth + 1);
      if more.Err? {
        return Err;
      }
      JoinSeqStep(nodes, more.value, c.EncodeParticles(ps[k + 1..], v, depth));
      nodes := nodes + more.value;
    }
    JoinSeqStep(nodes, nodes, Ok([]));
    return Ok(nodes);
  }

  method WriteElement(c: Codec, e: Element, v: Value, depth: nat) returns (r: Result<Node>)
    ensures r == c.Encode(e, v, depth)
    decreases v, 2
  {
    hide Codec.EncodeAttributes, Codec.EncodeParticles, Codec.Scalar, Resolve;
    if depth > MAX_DEPTH || e.unsupported {
      return Err;
    }
    var resolved := ResolveAlias(c.types, e.typ);
    if resolved.Err? || (v.Obj? && "$type" in v.members) {
      return Err;
    }
    var d := resolved.value;
    var node := Node(e.name, map[], "", [], "");
    if IsNil(v) {
      return if e.nillable && v.members.Keys == {"$nil"} then Ok(node.(attributes := map[XSI_NIL := "true"])) else Err;
    }
    if IsDefault(v) {
      return if e.hasDefault then Ok(node) else Err;
    }
    if !d.Complex? {
      var w := c.Scalar(d, v, false);
      if w.Err? {
        return Err;
      }
      node := node.(text := Lexical(w.value));
    } else {
      if !v.Obj? || d.exotic {
        return Err;
      }
      var given := if "$attributes" in v.members then v.members["$attributes"] else Obj(map[]);
      if !given.Obj? || !(given.members.Keys <= AttributeKeys(d.attributes)) {
        return Err;
      }
      var attributes := WriteAttributes(c, d.attributes, given.members);
      if attributes.Err? {
        return Err;
      }
      var children := WriteParticles(c, d.sequence, v, depth);
      if children.Err? || !(v.members.Keys <= ParticleKeys(d.sequence) + {"$attributes"}) {
        return Err;
      }
      node := node.(attributes := attributes.value, children := children.value);
    }
    return if c.Fixed(d, e.fixedLexical, v) then Ok(node) else Err;
  }

  method ReadAttributes(c: Codec, attributes: seq<Attribute>, present: map<string, string>)
    returns (r: Result<map<string, Value>>)
    ensures r == c.DecodeAttributes(attributes, present)
  {
    var out: map<string, Value> := map[];
    JoinMapStep(out, out, c.DecodeAttributes(attributes, present));
    assert attributes[0..] == attributes;
    for k := 0 to |attributes|
      invariant c.DecodeAttributes(attributes, present) == JoinMap(out, c.DecodeAttributes(attributes[k..], present))
    {
      var a := attributes[k];
      assert attributes[k..][0] == a && attributes[k..][1..] == attributes[k + 1..];
      ghost var rest := c.DecodeAttributes(attributes[k + 1..], present);
      if a.name in present {
        var w := c.Scalar(a.typ, Str(present[a.name]), true);
        if w.Err? || !c.Fixed(a.typ, a.fixedLexical, w.value) {
          return Err;
        }
        JoinMapStep(out, map[a.key := w.value], rest);
        out := out + map[a.key := w.value];
      } else if a.required {
        return Err;
      }
    }
    JoinMapStep(out, out, Ok(map[]));
    return Ok(out);
  }

  /** The items read before a position, and what the rest of a run gives. */
  function JoinRun(done: seq<Value>, rest: Result<(seq<Value>, seq<Node>)>): Result<(seq<Value>, seq<Node>)> {
    if rest.Err? then Err else Ok((done + rest.value.0, rest.value.1))
  }

  lemma JoinRunStep(done: seq<Value>, v: Value, rest: Result<(seq<Value>, seq<Node>)>)
    ensures JoinRun(done + [v], rest) ==
            JoinRun(done, if rest.Err? then Err else Ok(([v] + rest.value.0, rest.value.1)))
    ensures JoinRun([], rest) == rest
    ensures rest.Ok? && rest.value.0 == [] ==> JoinRun(done, rest) == Ok((done, rest.value.1))
  {
    if rest.Ok? {
      assert [] + rest.value.0 == rest.value.0 && done + [] == done;
      assert done + [v] + rest.value.0 == done + ([v] + rest.value.0);
    }
  }

  method ReadRun(c: Codec, e: Element, children: seq<Node>, from: nat, parent: Node, depth: nat)
      returns (r: Result<seq<Value>>, position: nat)
    requires from <= |children| && forall k :: 0 <= k < |children| ==> children[k] < parent
    ensures r.Ok? ==>
            from <= position <= |children| &&
                c.DecodeRun(e, children[from..], parent, depth) == Ok((r.value, children[position..]))
    ensures r.Err? ==> c.DecodeRun(e, children[from..], parent, depth).Err?
    decreases parent, 0
  {
    hide Codec.Decode;
    var items: seq<Value> := [];
    position := from;
    JoinRunStep(items, Null, c.DecodeRun(e, children[from..], parent, depth));
    while position < |children| && children[position].tag == e.name
      invariant from <= position <= |children|
      invariant c.DecodeRun(e, children[from..], parent, depth) ==
                JoinRun(items, c.DecodeRun(e, children[position..], parent, depth))
    {
      assert children[position..][0] == children[position] && children[position..][1..] == children[position + 1..];
      var v := ReadElement(c, e, children[position], depth);
      if v.Err? {
        return Err, position;
      }
      JoinRunStep(items, v.value, c.DecodeRun(e, children[position + 1..], parent, depth));
      items := items + [v.value];
      position := position + 1;
    }
    JoinRunStep(items, Null, Ok(([], children[position..])));
    return Ok(items), position;
  }

  /** The members read before a position, and what the remaining particles give. */
  function JoinMembers(done: map<string, Value>,
                       rest: Result<(map<string, Value>, seq<Node>)>): Result<(map<string, Value>, seq<Node>)> {
    if rest.Err? then Err else Ok((done + rest.value.0, rest.value.1))
  }

  lemma JoinMembersStep(done: map<string, Value>, more: map<string, Value>,
                        rest: Result<(map<string, Value>, seq<Node>)>)
    ensures JoinMembers(done + more, rest) == JoinMembers(done, JoinMembers(more, rest))
    ensures JoinMembers(map[], rest) == rest
    ensures rest.Ok? && rest.value.0 == map[] ==> JoinMembers(done, rest) == Ok((done, rest.value.1))
  {
    if rest.Ok? {
      assert map[] + rest.value.0 == rest.value.0 && done + map[] == done;
      assert done + more + rest.value.0 == done + (more + rest.value.0);
    }
  }

  method ReadParticles(c: Codec, ps: seq<Particle>, children: seq<Node>, parent: Node, depth: nat)
      returns (r: Result<map<string, Value>>, position: nat)
    requires forall k :: 0 <= k < |children| ==> children[k] < parent
    ensures r.Ok? ==>
            position <= |children| &&
                c.DecodeParticles(ps, children, parent, depth) == Ok((r.value, children[position..]))
    ensures r.Err? ==> c.DecodeParticles(ps, children, parent, depth).Err?
    decreases parent, 1
  {
    hide Codec.DecodeRun;
    var members: map<string, Value> := map[];
    position := 0;
    JoinMembersStep(members, members, c.DecodeParticles(ps, children, parent, depth));
    assert ps[0..] == ps && children[0..] == children;
    for k := 0 to |ps|
      invariant position <= |children|
      invariant c.DecodeParticles(ps, children, parent, depth) ==
                JoinMembers(members, c.DecodeParticles(ps[k..], children[position..], parent, depth))
    {
      assert ps[k..][0] == ps[k] && ps[k..][1..] == ps[k + 1..];
      if !ps[k].Particle? {
        return Err, position;
      }
      var items, next := ReadRun(c, ps[k].element, children, position, parent, depth + 1);
      if items.Err? || !CountAllowed(ps[k], |items.value|) {
        return Err, position;
      }
      position := next;
      JoinMembersStep(members, c.MemberFor(ps[k], items.value),
                      c.DecodeParticles(ps[k + 1..], children[position..], parent, depth));
      members := members + c.MemberFor(ps[k], items.value);
    }
    JoinMembersStep(members, members, Ok((map[], children[position..])));
    return Ok(members), position;
  }

  method ReadElement(c: Codec, e: Element, node: Node, depth: nat) returns (r: Result<Value>)
    ensures r == c.Decode(e, node, depth)
    decreases node, 2
  {
    hide Codec.DecodeAttributes, Codec.DecodeParticles, Codec.Scalar, Resolve, IsBlank;
    if depth > MAX_DEPTH || node.tag != e.name {
      return Err;
    }
    var resolved := ResolveAlias(c.types, e.typ);
    if resolved.Err? || XSI_TYPE in node.attributes {
      return Err;
    }
    var d := resolved.value;
    if XSI_NIL in node.attributes {
      return c.DecodeNil(e, node);
    }
    if e.hasDefault && node.children == [] && node.text == "" {
      return if node.attributes == map[] then Ok(DEFAULT_VALUE) else Err;
    }
    var value: Value;
    if !d.Complex? {
      if node.children != [] || node.attributes != map[] {
        return Err;
      }
      var w := c.Scalar(d, Str(node.text), true);
      if w.Err? {
        return Err;
      }
      value := w.value;
    } else {
      if d.exotic || !IsBlank(node.text) || (exists k :: 0 <= k < |node.children| && !IsBlank(node.children[k].tail)) {
        return Err;
      }
      if !(node.attributes.Keys <= AttributeNames(d.attributes)) {
        return Err;
      }
      var attributes := ReadAttributes(c, d.attributes, node.attributes);
      if attributes.Err? {
        return Err;
      }
      var members, position := ReadParticles(c, d.sequence, node.children, node, depth);
      if members.Err? || position != |node.children| {
        return Err;
      }
      value := Obj((if attributes.value == map[] then map[] else map["$attributes" := Obj(attributes.value)]) +
                   members.value);
    }
    return if c.Fixed(d, e.fixedLexical, value) then Ok(value) else Err;
  }
}
