/** `Codec`: the schema-directed translation between canonical values and element trees. */
module XmlCodec {
  import opened Wrappers
  import opened Decimals
  import opened TextTools

  /** A canonical JSON value; floats are not part of the codec's domain. */
  datatype Value =
    | Null
    | Bool(b: bool)
    | Int(n: int)
    | Str(s: string)
    | Arr(items: seq<Value>)
    | Obj(members: map<string, Value>)

  /** An element; an absent text or tail is the empty string. */
  datatype Node = Node(tag: string, attributes: map<string, string>, text: string, children: seq<Node>, tail: string)

  datatype Kind = String | AnyURI | TokenKind | NormalizedString | Boolean | Int32 | UInt32 | OtherKind

  datatype WhiteSpace = Preserve | Replace | Collapse

  datatype Facets = Facets(
    length: Option<nat>,
    minLength: Option<nat>,
    maxLength: Option<nat>,
    whiteSpace: Option<WhiteSpace>,
    enumeration: Option<seq<string>>,
    unsupported: bool)

  datatype Type =
    | Ref(key: string)
    | Scalar(kind: Kind)
    | Restriction(base: Type, facets: Facets)
    | Complex(attributes: seq<Attribute>, sequence: seq<Particle>, exotic: bool)
    | OtherType

  datatype Attribute = Attribute(key: string, name: string, typ: Type, required: bool, fixedLexical: Option<string>)

  /** A particle that is not an element has no model here. */
  datatype Particle = Particle(key: string, element: Element, min: nat, max: Option<nat>) | OtherParticle

  datatype Element = Element(
    name: string, typ: Type, nillable: bool, unsupported: bool, hasDefault: bool, fixedLexical: Option<string>)

  type Registry = map<string, Type>

  const XSI_NIL := "{http://www.w3.org/2001/XMLSchema-instance}nil"
  const XSI_TYPE := "{http://www.w3.org/2001/XMLSchema-instance}type"
  const MAX_DEPTH := 32

  const NIL_VALUE := Obj(map["$nil" := Bool(true)])
  const DEFAULT_VALUE := Obj(map["$default" := Bool(true)])

  // ---------- Aliases ----------

  /** The target of a chain of aliases; a missing key or a repeated one fails. */
  function Resolve(reg: Registry, t: Type, visited: set<string>): (r: Result<Type>)
    ensures r.Ok? ==> !r.value.Ref?
    decreases reg.Keys - visited
  {
    if !t.Ref? then Ok(t)
    else if t.key in visited || t.key !in reg then Err
    else Resolve(reg, reg[t.key], visited + {t.key})
  }

  method ResolveAlias(reg: Registry, t: Type) returns (r: Result<Type>)
    ensures r == Resolve(reg, t, {})
  {
    var current, visited := t, {};
    while current.Ref?
      invariant visited <= reg.Keys && Resolve(reg, t, {}) == Resolve(reg, current, visited)
      decreases reg.Keys - visited
    {
      if current.key in visited || current.key !in reg {
        return Err;
      }
      visited := visited + {current.key};
      current := reg[current.key];
    }
    return Ok(current);
  }

  // ---------- Scalars ----------

  const XML_SPACE: set<char> := {' ', '\t', '\r', '\n'}

  function Replaced(s: string): string {
    if s == [] then "" else [if s[0] in {'\t', '\r', '\n'} then ' ' else s[0]] + Replaced(s[1..])
  }

  /** Runs of spaces become one space. */
  function Squeezed(s: string): string {
    if s == [] then ""
    else if s[0] == ' ' && |s| > 1 && s[1] == ' ' then Squeezed(s[1..])
    else [s[0]] + Squeezed(s[1..])
  }

  function Strip(s: string, drop: set<char>): string {
    StripRight(StripLeft(s, drop), drop)
  }

  function Collapsed(s: string): string {
    Strip(Squeezed(s), {' '})
  }

  function Normalized(s: string, w: WhiteSpace): string {
    match w
    case Preserve => s
    case Replace => Replaced(s)
    case Collapse => Collapsed(Replaced(s))
  }

  /** Checks when encoding, repairs when decoding. */
  function Whitespace(value: Value, w: WhiteSpace, decode: bool): Result<Value> {
    if !value.Str? then Err
    else if !decode && Normalized(value.s, w) != value.s then Err
    else Ok(Str(Normalized(value.s, w)))
  }

  function ParseInt(s: string): Result<int> {
    var signed := s != [] && s[0] in {'+', '-'};
    var digits := if signed then s[1..] else s;
    if digits == [] || !IsDecimal(digits) then Err
    else Ok(if signed && s[0] == '-' then -(Decimal(digits) as int) else Decimal(digits))
  }

  function Primitive(kind: Kind, value: Value, decode: bool): Result<Value> {
    match kind
    case String => Whitespace(value, Preserve, decode)
    case NormalizedString => Whitespace(value, Replace, decode)
    case AnyURI => Whitespace(value, Collapse, decode)
    case TokenKind => Whitespace(value, Collapse, decode)
    case Boolean =>
      if !decode then (if value.Bool? then Ok(value) else Err)
      else if !value.Str? then Err
      else
        var text := Strip(value.s, XML_SPACE);
        if text == "true" || text == "1" then Ok(Bool(true))
        else if text == "false" || text == "0" then Ok(Bool(false))
        else Err
    case Int32 => Bounded(value, decode, -0x8000_0000, 0x7FFF_FFFF)
    case UInt32 => Bounded(value, decode, 0, 0xFFFF_FFFF)
    case OtherKind => Err
  }

  function Bounded(value: Value, decode: bool, lower: int, upper: int): Result<Value> {
    var n :-
      if decode then (if value.Str? then ParseInt(Strip(value.s, XML_SPACE)) else Err)
      else (if value.Int? then Ok(value.n) else Err);
    if lower <= n <= upper then Ok(Int(n)) else Err
  }

  function Fits(facets: Facets, size: nat): bool {
    && (facets.length.Some? ==> size == facets.length.value)
    && (facets.minLength.Some? ==> size >= facets.minLength.value)
    && (facets.maxLength.Some? ==> size <= facets.maxLength.value)
  }

  predicate HasLength(facets: Facets) {
    facets.length.Some? || facets.minLength.Some? || facets.maxLength.Some?
  }

  /** `stack` bounds the nesting of restrictions, as the interpreter's own stack does. */
  function ScalarOf(reg: Registry, t: Type, value: Value, decode: bool, stack: nat): Result<Value>
    decreases stack, 1
  {
    if stack == 0 then Err
    else
      var d :- Resolve(reg, t, {});
      match d
      case Scalar(kind) => Primitive(kind, value, decode)
      case Restriction(base, facets) =>
        var v :- ScalarOf(reg, base, value, decode, stack - 1);
        if facets.unsupported then Err
        else
          var w :- if facets.whiteSpace.Some? then Whitespace(v, facets.whiteSpace.value, decode) else Ok(v);
          if HasLength(facets) && !(w.Str? && Fits(facets, |w.s|)) then Err
          else if facets.enumeration.None? then Ok(w)
          else
            var alternatives :- Alternatives(reg, base, facets.enumeration.value, stack - 1);
            if w in alternatives then Ok(w) else Err
      case _ => Err
  }

  function Alternatives(reg: Registry, base: Type, lexicals: seq<string>, stack: nat): Result<seq<Value>>
    decreases stack, 2, |lexicals|
  {
    if lexicals == [] then Ok([])
    else
      var first :- ScalarOf(reg, base, Str(lexicals[0]), true, stack);
      var rest :- Alternatives(reg, base, lexicals[1..], stack);
      Ok([first] + rest)
  }

  function Show(n: int): string {
    if n < 0 then "-" + Digits(-n) else Digits(n)
  }

  function Lexical(value: Value): string {
    match value
    case Bool(b) => if b then "true" else "false"
    case Int(n) => Show(n)
    case Str(s) => s
    case _ => ""
  }

  lemma StripKeeps(s: string, drop: set<char>)
    requires s != [] ==> s[0] !in drop && s[|s| - 1] !in drop
    ensures Strip(s, drop) == s
  {
  }

  lemma SignedParses(digits: string, negative: bool)
    requires digits != [] && IsDecimal(digits)
    ensures var s := if negative then "-" + digits else digits;
            Strip(s, XML_SPACE) == s &&
                ParseInt(s) == Ok(if negative then -(Decimal(digits) as int) else Decimal(digits))
  {
    hide Decimal, Strip;
    var s := if negative then "-" + digits else digits;
    assert IsDigit(digits[0]) && s[|s| - 1] == digits[|digits| - 1];
    if negative {
      assert s[1..] == digits;
    }
    StripKeeps(s, XML_SPACE);
  }

  lemma ShowParses(n: int)
    ensures Strip(Show(n), XML_SPACE) == Show(n) && ParseInt(Show(n)) == Ok(n)
  {
    hide Digits, Decimal, Strip, ParseInt, IsDecimal;
    DigitsBack(if n < 0 then -n else n);
    SignedParses(Digits(if n < 0 then -n else n), n < 0);
  }

  lemma PrimitiveRoundTrip(kind: Kind, value: Value)
    requires Primitive(kind, value, false).Ok?
    ensures Primitive(kind, value, false) == Ok(value)
    ensures Primitive(kind, Str(Lexical(value)), true) == Ok(value)
  {
    if value.Int? {
      ShowParses(value.n);
    }
    if value.Bool? {
      assert Strip("true", XML_SPACE) == "true" && Strip("false", XML_SPACE) == "false";
    }
  }

  /** A value accepted for writing is read back from its text unchanged. */
  lemma {:induction false} ScalarRoundTrip(reg: Registry, t: Type, value: Value, stack: nat)
    requires ScalarOf(reg, t, value, false, stack).Ok?
    ensures ScalarOf(reg, t, value, false, stack) == Ok(value)
    ensures ScalarOf(reg, t, Str(Lexical(value)), true, stack) == Ok(value)
    decreases stack
  {
    var d := Resolve(reg, t, {}).value;
    match d
    case Scalar(kind) => PrimitiveRoundTrip(kind, value);
    case Restriction(base, facets) => ScalarRoundTrip(reg, base, value, stack - 1);
    case _ =>
  }
}
