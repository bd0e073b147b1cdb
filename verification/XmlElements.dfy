/** Element encoding and decoding, and the round trip between them. */
module XmlElements {
  import opened Wrappers
  import opened XmlCodec

  /** The whitespace that the decoder strips before it looks for mixed content. */
  predicate IsBlank(s: string) {
    forall k :: 0 <= k < |s| ==>
      || s[k] in {' ', '\t', '\n', '\r', '\U{000B}', '\U{000C}', '\U{0085}', '\U{00A0}', '\U{1680}'}
      || '\U{001C}' <= s[k] <= '\U{001F}' || '\U{2000}' <= s[k] <= '\U{200A}'
      || s[k] in {'\U{2028}', '\U{2029}', '\U{202F}', '\U{205F}', '\U{3000}'}
  }

  predicate IsNil(v: Value) {
    v.Obj? && "$nil" in v.members && v.members["$nil"] == Bool(true)
  }

  /** The host language counts 1 as equal to true. */
  predicate IsDefault(v: Value) {
    v.Obj? && v.members.Keys == {"$default"} && (v.members["$default"] == Bool(true) || v.members["$default"] == Int(1))
  }

  predicate Repeated(p: Particle)
    requires p.Particle?
  {
    p.max.None? || p.max.value > 1
  }

  /** The occurrences a value supplies for a particle. */
  function Supplied(p: Particle, v: Value): (r: Result<seq<Value>>)
    requires p.Particle? && v.Obj?
    ensures r.Ok? ==> forall k :: 0 <= k < |r.value| ==> r.value[k] < v
  {
    if p.key !in v.members then Ok([])
    else if !Repeated(p) then Ok([v.members[p.key]])
    else if v.members[p.key].Arr? then Ok(v.members[p.key].items)
    else Err
  }

  predicate CountAllowed(p: Particle, n: nat)
    requires p.Particle?
  {
    p.min <= n && (p.max.Some? ==> n <= p.max.value)
  }

  function ParticleKeys(ps: seq<Particle>): set<string> {
    set k | 0 <= k < |ps| && ps[k].Particle? :: ps[k].key
  }

  function ParticleNames(ps: seq<Particle>): set<string> {
    set k | 0 <= k < |ps| && ps[k].Particle? :: ps[k].element.name
  }

  function AttributeKeys(attributes: seq<Attribute>): set<string> {
    set k | 0 <= k < |attributes| :: attributes[k].key
  }

  function AttributeNames(attributes: seq<Attribute>): set<string> {
    set k | 0 <= k < |attributes| :: attributes[k].name
  }

  /** The attributes a value gives. */
  function Given(v: Value): map<string, Value>
    requires v.Obj?
  {
    if "$attributes" in v.members && v.members["$attributes"].Obj? then v.members["$attributes"].members else map[]
  }

  /** No attribute named xsi:nil or xsi:type is given. */
  predicate Unmarked(attributes: seq<Attribute>, given: map<string, Value>) {
    forall k :: 0 <= k < |attributes| && attributes[k].name in {XSI_NIL, XSI_TYPE} ==> attributes[k].key !in given
  }

  /** The registry and the nesting bound that every call shares. */
  datatype Codec = Codec(types: Registry, stack: nat) {

    function Scalar(t: Type, v: Value, decode: bool): Result<Value> {
      ScalarOf(types, t, v, decode, stack)
    }

    function TypeOf(e: Element): Result<Type> {
      Resolve(types, e.typ, {})
    }

    /** A declared fixed text reads as the given value. */
    predicate Fixed(t: Type, fixedLexical: Option<string>, v: Value) {
      fixedLexical.Some? ==> Scalar(t, Str(fixedLexical.value), true) == Ok(v)
    }

    // ---------- Encoding ----------

    function EncodeAttributes(attributes: seq<Attribute>, given: map<string, Value>): Result<map<string, string>> {
      if attributes == [] then Ok(map[])
      else
        var a := attributes[0];
        var rest :- EncodeAttributes(attributes[1..], given);
        if a.key in given then
          var w :- Scalar(a.typ, given[a.key], false);
          if !Fixed(a.typ, a.fixedLexical, w) then Err else Ok(map[a.name := Lexical(w)] + rest)
        else if a.required then Err
        else Ok(rest)
    }

    function Encode(e: Element, v: Value, depth: nat): Result<Node>
      decreases v, 2
    {
      if depth > MAX_DEPTH || e.unsupported || TypeOf(e).Err? || (v.Obj? && "$type" in v.members) then Err
      else if IsNil(v) then
        if e.nillable && v.members.Keys == {"$nil"} then Ok(Node(e.name, map[XSI_NIL := "true"], "", [], "")) else Err
      else if IsDefault(v) then
        if e.hasDefault then Ok(Node(e.name, map[], "", [], "")) else Err
      else
        var d := TypeOf(e).value;
        var node :-
          if d.Complex? then EncodeComplex(e.name, d, v, depth)
          else
            var w :- Scalar(d, v, false);
            Ok(Node(e.name, map[], Lexical(w), [], ""));
        if Fixed(d, e.fixedLexical, v) then Ok(node) else Err
    }

    function EncodeComplex(name: string, d: Type, v: Value, depth: nat): Result<Node>
      requires d.Complex?
      decreases v, 1, |d.sequence| + 1
    {
      if !v.Obj? || d.exotic then Err
      else
        var given := if "$attributes" in v.members then v.members["$attributes"] else Obj(map[]);
        if !given.Obj? || !(given.members.Keys <= AttributeKeys(d.attributes)) then Err
        else
          var attributes :- EncodeAttributes(d.attributes, given.members);
          var children :- EncodeParticles(d.sequence, v, depth);
          if v.members.Keys <= ParticleKeys(d.sequence) + {"$attributes"}
              then Ok(Node(name, attributes, "", children, "")) else Err
    }

    function EncodeParticles(ps: seq<Particle>, v: Value, depth: nat): Result<seq<Node>>
      requires v.Obj?
      decreases v, 1, |ps|
    {
      if ps == [] then Ok([])
      else if !ps[0].Particle? then Err
      else
        var items :- Supplied(ps[0], v);
        if !CountAllowed(ps[0], |items|) then Err
        else
          var nodes :- EncodeItems(ps[0].element, items, v, depth + 1);
          var rest :- EncodeParticles(ps[1..], v, depth);
          Ok(nodes + rest)
    }

    function EncodeItems(e: Element, items: seq<Value>, parent: Value, depth: nat): Result<seq<Node>>
      requires forall k :: 0 <= k < |items| ==> items[k] < parent
      decreases parent, 0, |items|
    {
      if items == [] then Ok([])
      else
        var node :- Encode(e, items[0], depth);
        var rest :- EncodeItems(e, items[1..], parent, depth);
        Ok([node] + rest)
    }

    // ---------- Decoding ----------

    function DecodeAttributes(attributes: seq<Attribute>, present: map<string, string>): Result<map<string, Value>> {
      if attributes == [] then Ok(map[])
      else
        var a := attributes[0];
        var rest :- DecodeAttributes(attributes[1..], present);
        if a.name in present then
          var w :- Scalar(a.typ, Str(present[a.name]), true);
          if !Fixed(a.typ, a.fixedLexical, w) then Err else Ok(map[a.key := w] + rest)
        else if a.required then Err
        else Ok(rest)
    }

    function DecodeNil(e: Element, node: Node): Result<Value>
      requires XSI_NIL in node.attributes
    {
      if node.attributes[XSI_NIL] in {"true", "1"} && e.nillable && node.children == [] && IsBlank(node.text)
         && node.attributes.Keys == {XSI_NIL}
      then Ok(NIL_VALUE) else Err
    }

    function Decode(e: Element, node: Node, depth: nat): Result<Value>
      decreases node, 2
    {
      if depth > MAX_DEPTH || node.tag != e.name || TypeOf(e).Err? || XSI_TYPE in node.attributes then Err
      else if XSI_NIL in node.attributes then DecodeNil(e, node)
      else if e.hasDefault && node.children == [] && node.text == "" then
        if node.attributes == map[] then Ok(DEFAULT_VALUE) else Err
      else
        var d := TypeOf(e).value;
        var v :-
          if d.Complex? then DecodeComplex(d, node, depth)
          else if node.children != [] || node.attributes != map[] then Err
          else Scalar(d, Str(node.text), true);
        if Fixed(d, e.fixedLexical, v) then Ok(v) else Err
    }

    function DecodeComplex(d: Type, node: Node, depth: nat): Result<Value>
      requires d.Complex?
      decreases node, 1, |d.sequence| + 1
    {
      if d.exotic || !IsBlank(node.text) ||
          (exists k :: 0 <= k < |node.children| && !IsBlank(node.children[k].tail)) then Err
      else if !(node.attributes.Keys <= AttributeNames(d.attributes)) then Err
      else
        var attributes :- DecodeAttributes(d.attributes, node.attributes);
        var (members, rest) :- DecodeParticles(d.sequence, node.children, node, depth);
        if rest != [] then Err
        else Ok(Obj((if attributes == map[] then map[] else map["$attributes" := Obj(attributes)]) + members))
    }

    /** Each particle takes the run of children with its name. */
    function DecodeParticles(ps: seq<Particle>, children: seq<Node>, parent: Node,
                             depth: nat): Result<(map<string, Value>, seq<Node>)>
      requires forall k :: 0 <= k < |children| ==> children[k] < parent
      decreases parent, 1, |ps|
    {
      if ps == [] then Ok((map[], children))
      else if !ps[0].Particle? then Err
      else
        var (items, rest) :- DecodeRun(ps[0].element, children, parent, depth + 1);
        if !CountAllowed(ps[0], |items|) then Err
        else
          var (members, left) :- DecodeParticles(ps[1..], rest, parent, depth);
          Ok((MemberFor(ps[0], items) + members, left))
    }

    function MemberFor(p: Particle, items: seq<Value>): map<string, Value>
      requires p.Particle?
    {
      if Repeated(p) then map[p.key := Arr(items)] else if items != [] then map[p.key := items[0]] else map[]
    }

    function DecodeRun(e: Element, children: seq<Node>, parent: Node, depth: nat): (r: Result<(seq<Value>, seq<Node>)>)
      requires forall k :: 0 <= k < |children| ==> children[k] < parent
      ensures r.Ok? ==> forall k :: 0 <= k < |r.value.1| ==> r.value.1[k] < parent
      decreases parent, 0, |children|
    {
      if children == [] || children[0].tag != e.name then Ok(([], children))
      else
        var v :- Decode(e, children[0], depth);
        var (items, rest) :- DecodeRun(e, children[1..], parent, depth);
        Ok(([v] + items, rest))
    }

    // ---------- The canonical form ----------

    /** Missing repeated members become empty arrays and an empty attribute object is dropped. */
    function Canon(e: Element, v: Value): Value
      decreases v, 2
    {
      if !v.Obj? || IsNil(v) then v
      else if IsDefault(v) then DEFAULT_VALUE
      else if TypeOf(e).Ok? && TypeOf(e).value.Complex? then
        Obj(CanonAttributes(v) + CanonMembers(TypeOf(e).value.sequence, v))
      else v
    }

    function CanonAttributes(v: Value): map<string, Value>
      requires v.Obj?
    {
      if "$attributes" in v.members && v.members["$attributes"] != Obj(map[])
      then map["$attributes" := v.members["$attributes"]]
      else map[]
    }

    function CanonMembers(ps: seq<Particle>, v: Value): map<string, Value>
      requires v.Obj?
      decreases v, 1, |ps|
    {
      if ps == [] then map[]
      else if !ps[0].Particle? || Supplied(ps[0], v).Err? then CanonMembers(ps[1..], v)
      else MemberFor(ps[0], CanonItems(ps[0].element, Supplied(ps[0], v).value, v)) + CanonMembers(ps[1..], v)
    }

    function CanonItems(e: Element, items: seq<Value>, parent: Value): (r: seq<Value>)
      requires forall k :: 0 <= k < |items| ==> items[k] < parent
      ensures |r| == |items|
      decreases parent, 0, |items|
    {
      if items == [] then [] else [Canon(e, items[0])] + CanonItems(e, items[1..], parent)
    }

    /** No element with a declared default carries an explicitly empty value, and no attribute that the decoder
        takes for a nil or type mark is given. */
    predicate Explicit(e: Element, v: Value)
      decreases v, 2
    {
      IsNil(v) || IsDefault(v) ||
        if TypeOf(e).Ok? && TypeOf(e).value.Complex? then
          v.Obj? ==>
            && (e.hasDefault ==> !Childless(TypeOf(e).value.sequence, v))
            && Unmarked(TypeOf(e).value.attributes, Given(v))
            && ExplicitParticles(TypeOf(e).value.sequence, v)
        else e.hasDefault ==> Lexical(v) != ""
    }

    predicate Childless(ps: seq<Particle>, v: Value)
      requires v.Obj?
    {
      forall k :: 0 <= k < |ps| && ps[k].Particle? ==> Supplied(ps[k], v) == Ok([])
    }

    predicate ExplicitParticles(ps: seq<Particle>, v: Value)
      requires v.Obj?
      decreases v, 1, |ps|
    {
      ps != [] ==>
        && (ps[0].Particle? && Supplied(ps[0], v).Ok? ==> ExplicitItems(ps[0].element, Supplied(ps[0], v).value, v))
        && ExplicitParticles(ps[1..], v)
    }

    predicate ExplicitItems(e: Element, items: seq<Value>, parent: Value)
      requires forall k :: 0 <= k < |items| ==> items[k] < parent
      decreases parent, 0, |items|
    {
      items != [] ==> Explicit(e, items[0]) && ExplicitItems(e, items[1..], parent)
    }
  }

  // ---------- Well-formed registries ----------

  /** No two particles share a key or an element name. */
  predicate DistinctParticles(ps: seq<Particle>)
  {
    ps != [] ==>
      && (ps[0].Particle? ==>
            && ps[0].key !in ParticleKeys(ps[1..]) && ps[0].element.name !in ParticleNames(ps[1..]))
      && DistinctParticles(ps[1..])
  }

  predicate DistinctAttributes(attributes: seq<Attribute>) {
    attributes != [] ==>
      && attributes[0].key !in AttributeKeys(attributes[1..]) && attributes[0].name !in AttributeNames(attributes[1..])
      && DistinctAttributes(attributes[1..])
  }

  predicate WellFormedType(t: Type)
    decreases t
  {
    t.Complex? ==>
      && DistinctAttributes(t.attributes)
      && DistinctParticles(t.sequence)
      && forall k :: 0 <= k < |t.sequence| && t.sequence[k].Particle? ==> WellFormedType(t.sequence[k].element.typ)
  }

  predicate WellFormed(reg: Registry) {
    forall k :: k in reg ==> WellFormedType(reg[k])
  }

  const RESERVED := {"$attributes", "$nil", "$default", "$type"}

  /** No particle has a key that is reserved for markers. */
  predicate UnreservedType(t: Type)
    decreases t
  {
    t.Complex? ==>
      && ParticleKeys(t.sequence) !! RESERVED
      && forall k :: 0 <= k < |t.sequence| && t.sequence[k].Particle? ==> UnreservedType(t.sequence[k].element.typ)
  }

  predicate Unreserved(reg: Registry) {
    forall k :: k in reg ==> UnreservedType(reg[k])
  }

  lemma {:induction false} ResolveUnreserved(reg: Registry, t: Type, visited: set<string>)
    requires Unreserved(reg) && UnreservedType(t) && Resolve(reg, t, visited).Ok?
    ensures UnreservedType(Resolve(reg, t, visited).value)
    decreases reg.Keys - visited
  {
    if t.Ref? {
      ResolveUnreserved(reg, reg[t.key], visited + {t.key});
    }
  }

  lemma {:induction false} ResolveWellFormed(reg: Registry, t: Type, visited: set<string>)
    requires WellFormed(reg) && WellFormedType(t) && Resolve(reg, t, visited).Ok?
    ensures WellFormedType(Resolve(reg, t, visited).value)
    decreases reg.Keys - visited
  {
    if t.Ref? {
      ResolveWellFormed(reg, reg[t.key], visited + {t.key});
    }
  }
}
