/** URI templates with scalar values (RFC 6570). */
module UriTemplate {
  import opened Wrappers
  import opened Decimals
  import opened ScalarText
  import opened TextTools

  const MAX_TEMPLATE := 16384
  const MAX_EXPANDED := 65536

  // ---------- Grammar ----------

  datatype Operator = Simple | Reserved | Fragment | Label | PathSegment | PathParameter | Query | QueryMore

  datatype Var = Var(name: string, prefix: Option<nat>)

  datatype Part = Literal(text: string) | Expression(operator: Operator, vars: seq<Var>)

  predicate IsBrace(c: char) { c == '{' || c == '}' }

  predicate IsWordChar(c: char) { 'A' <= c <= 'Z' || 'a' <= c <= 'z' || '0' <= c <= '9' || c == '_' }

  /** The rest of a variable name, after its first character. */
  predicate NameRest(s: string) {
    s == "" ||
    if s[0] == '.' then |s| > 1 && (IsWordChar(s[1]) || s[1] == '%') && NameRest(s[1..])
    else NameStart(s)
  }

  /** Word characters and percent triplets, with single dots between them. */
  predicate NameStart(s: string)
    decreases s, 0
  {
    if s == "" then false
    else if IsWordChar(s[0]) then NameRest(s[1..])
    else s[0] == '%' && |s| > 2 && IsHex(s[1..3]) && NameRest(s[3..])
  }

  function FindBrace(s: string): (n: nat)
    ensures n <= |s| && (n < |s| ==> IsBrace(s[n])) && forall k :: 0 <= k < n ==> !IsBrace(s[k])
  {
    if s == "" || IsBrace(s[0]) then 0 else 1 + FindBrace(s[1..])
  }

  /** A variable with an optional `*` or a prefix length of one to four digits. */
  function ParseVar(item: string): Option<Var> {
    if item != "" && item[|item| - 1] == '*' then
      if NameStart(item[..|item| - 1]) then Some(Var(item[..|item| - 1], None)) else None
    else
      var colon := Find(item, ':');
      if !NameStart(item[..colon]) then None
      else if colon == |item| then Some(Var(item, None))
      else
        var digits := item[colon + 1..];
        if 1 <= |digits| <= 4 && IsDecimal(digits) && digits[0] != '0'
        then Some(Var(item[..colon], Some(Decimal(digits)))) else None
  }

  function ParseVars(s: string): Option<seq<Var>>
    decreases |s|
  {
    var comma := Find(s, ',');
    match ParseVar(s[..comma])
    case None => None
    case Some(v) =>
      if comma == |s| then Some([v])
      else match ParseVars(s[comma + 1..])
        case None => None
        case Some(vs) => Some([v] + vs)
  }

  function OperatorOf(c: char): Option<Operator> {
    match c
    case '+' => Some(Reserved)
    case '#' => Some(Fragment)
    case '.' => Some(Label)
    case '/' => Some(PathSegment)
    case ';' => Some(PathParameter)
    case '?' => Some(Query)
    case '&' => Some(QueryMore)
    case _ => None
  }

  function ParseExpression(inner: string): Option<Part> {
    if inner == "" then None
    else
      var operator := if |inner| > 1 then OperatorOf(inner[0]) else None;
      match ParseVars(if operator.Some? then inner[1..] else inner)
      case None => None
      case Some(vars) => Some(Expression(if operator.Some? then operator.value else Simple, vars))
  }

  /** The literals and expressions of a template; a stray brace or a bad expression is refused. */
  function Parse(template: string): Option<seq<Part>>
    decreases |template|
  {
    var open := FindBrace(template);
    if open == |template| then Some([Literal(template)])
    else if template[open] == '}' then None
    else
      var rest := template[open + 1..];
      var close := FindBrace(rest);
      if close == |rest| || rest[close] == '{' then None
      else
        var part, parts := ParseExpression(rest[..close]), Parse(rest[close + 1..]);
        if part.None? || parts.None? then None else Some([Literal(template[..open]), part.value] + parts.value)
  }

  // ---------- Expansion ----------

  function First(operator: Operator): string {
    match operator
    case Simple => ""
    case Reserved => ""
    case Fragment => "#"
    case Label => "."
    case PathSegment => "/"
    case PathParameter => ";"
    case Query => "?"
    case QueryMore => "&"
  }

  function Separator(operator: Operator): char {
    match operator
    case Simple => ','
    case Reserved => ','
    case Fragment => ','
    case Label => '.'
    case PathSegment => '/'
    case PathParameter => ';'
    case Query => '&'
    case QueryMore => '&'
  }

  predicate IsNamed(operator: Operator) { operator.PathParameter? || operator.Query? || operator.QueryMore? }

  predicate KeepsReserved(operator: Operator) { operator.Reserved? || operator.Fragment? }

  predicate IsUnreserved(c: char) { IsWordChar(c) || c in {'-', '.', '~'} }

  predicate IsReserved(c: char) {
    c in {':', '/', '?', '#', '[', ']', '@', '!', '$', '&', '\'', '(', ')', '*', '+', ',', ';', '='}
  }

  /** The bytes of a character in UTF-8. */
  function Utf8(c: char): (bytes: seq<nat>)
    ensures |bytes| > 0 && forall k :: 0 <= k < |bytes| ==> bytes[k] < 256
  {
    var n := c as int;
    if n < 0x80 then [n]
    else if n < 0x800 then [0xC0 + n / 0x40, 0x80 + n % 0x40]
    else if n < 0x1_0000 then [0xE0 + n / 0x1000, 0x80 + n / 0x40 % 0x40, 0x80 + n % 0x40]
    else [0xF0 + n / 0x4_0000, 0x80 + n / 0x1000 % 0x40, 0x80 + n / 0x40 % 0x40, 0x80 + n % 0x40]
  }

  function HexDigit(n: nat): char
    requires n < 16
  {
    if n < 10 then '0' + n as char else 'A' + (n - 10) as char
  }

  function Percent(bytes: seq<nat>): string
    requires forall k :: 0 <= k < |bytes| ==> bytes[k] < 256
  {
    if bytes == [] then "" else ['%', HexDigit(bytes[0] / 16), HexDigit(bytes[0] % 16)] + Percent(bytes[1..])
  }

  function QuoteChar(c: char, reserved: bool): string {
    if IsUnreserved(c) || (reserved && IsReserved(c)) then [c] else Percent(Utf8(c))
  }

  function Quote(s: string, reserved: bool): string {
    if s == "" then "" else QuoteChar(s[0], reserved) + Quote(s[1..], reserved)
  }

  type Values = map<string, Scalar>

  /** The text of a variable, when it is defined. */
  function ValueOf(v: Var, values: Values): Option<string> {
    match TextOf(if v.name in values then values[v.name] else Null)
    case None => None
    case Some(text) => Some(if v.prefix.Some? && v.prefix.value < |text| then text[..v.prefix.value] else text)
  }

  function Segment(operator: Operator, name: string, text: string): string {
    var encoded := Quote(text, KeepsReserved(operator));
    if !IsNamed(operator) then encoded
    else if operator.PathParameter? && encoded == "" then name
    else name + "=" + encoded
  }

  function Segments(operator: Operator, vars: seq<Var>, values: Values): seq<string> {
    if vars == [] then []
    else
      (match ValueOf(vars[0], values) case None => [] case Some(text) => [Segment(operator, vars[0].name, text)])
      + Segments(operator, vars[1..], values)
  }

  function Join(separator: char, segments: seq<string>): string {
    if segments == [] then ""
    else if |segments| == 1 then segments[0]
    else segments[0] + [separator] + Join(separator, segments[1..])
  }

  function ExpandExpression(operator: Operator, vars: seq<Var>, values: Values): string {
    var segments := Segments(operator, vars, values);
    if segments == [] then "" else First(operator) + Join(Separator(operator), segments)
  }

  function ExpandPart(part: Part, values: Values): string {
    match part
    case Literal(text) => text
    case Expression(operator, vars) => ExpandExpression(operator, vars, values)
  }

  function ExpandParts(parts: seq<Part>, values: Values): string {
    if parts == [] then "" else ExpandPart(parts[0], values) + ExpandParts(parts[1..], values)
  }

  function Expand(template: string, values: Values): Option<string> {
    if |template| > MAX_TEMPLATE then None
    else match Parse(template)
      case None => None
      case Some(parts) =>
        var expanded := ExpandParts(parts, values);
        if |expanded| > MAX_EXPANDED then None else Some(expanded)
  }

  // ---------- No brace survives ----------

  predicate NoBrace(s: string) { forall k :: 0 <= k < |s| ==> !IsBrace(s[k]) }

  /** The characters of names and of values quoted without reserved characters. */
  predicate IsSafe(c: char) { IsUnreserved(c) || c == '%' }

  predicate AllSafe(s: string) { forall k :: 0 <= k < |s| ==> IsSafe(s[k]) }

  lemma {:induction false} NameSafe(s: string)
    ensures NameRest(s) || NameStart(s) ==> AllSafe(s)
    decreases |s|
  {
    hide IsHex, IsWordChar, IsSafe, AllSafe;
    if s == "" {
      SafeJoins("", "");
    } else if NameStart(s) && !IsWordChar(s[0]) {
      NameSafe(s[3..]);
      HexSafe(s[1..3]);
      assert s == ['%'] + (s[1..3] + s[3..]);
      SafeJoins(s[1..3], s[3..]);
      SafeOne('%');
      SafeJoins(['%'], s[1..3] + s[3..]);
    } else if NameRest(s) || NameStart(s) {
      NameSafe(s[1..]);
      SafeOne(s[0]);
      assert s == [s[0]] + s[1..];
      SafeJoins([s[0]], s[1..]);
    }
  }

  lemma SafeOne(c: char)
    requires IsWordChar(c) || c == '%' || c == '.'
    ensures AllSafe([c])
  {
  }

  lemma HexSafe(s: string)
    requires IsHex(s)
    ensures AllSafe(s)
  {
  }

  lemma SafeJoins(a: string, b: string)
    ensures AllSafe("") && (AllSafe(a) && AllSafe(b) ==> AllSafe(a + b))
  {
    hide IsSafe;
  }

  lemma {:induction false} PercentSafe(bytes: seq<nat>)
    requires forall k :: 0 <= k < |bytes| ==> bytes[k] < 256
    ensures AllSafe(Percent(bytes)) && |Percent(bytes)| == 3 * |bytes|
    decreases |bytes|
  {
    if bytes != [] {
      PercentSafe(bytes[1..]);
    }
  }

  lemma QuoteCharSafe(c: char, reserved: bool)
    ensures NoBrace(QuoteChar(c, reserved)) && (!reserved ==> AllSafe(QuoteChar(c, reserved)))
    ensures QuoteChar(c, reserved) != ""
  {
    hide Utf8, Percent;
    PercentSafe(Utf8(c));
  }

  lemma {:induction false} QuoteSafe(s: string, reserved: bool)
    ensures NoBrace(Quote(s, reserved)) && (!reserved ==> AllSafe(Quote(s, reserved)))
    decreases |s|
  {
    hide QuoteChar, IsSafe, IsBrace;
    if s != "" {
      QuoteSafe(s[1..], reserved);
      QuoteCharSafe(s[0], reserved);
    }
  }

  predicate NamesGood(vars: seq<Var>) {
    forall k :: 0 <= k < |vars| ==> NameStart(vars[k].name)
  }

  predicate PartGood(part: Part) {
    match part
    case Literal(text) => NoBrace(text)
    case Expression(_, vars) => NamesGood(vars)
  }

  lemma {:induction false} VarsGood(s: string)
    ensures ParseVars(s).Some? ==> NamesGood(ParseVars(s).value)
    decreases |s|
  {
    hide ParseVar;
    var comma := Find(s, ',');
    VarGood(s[..comma]);
    if comma < |s| {
      VarsGood(s[comma + 1..]);
    }
  }

  lemma VarGood(item: string)
    ensures ParseVar(item).Some? ==> NameStart(ParseVar(item).value.name)
  {
    hide NameStart;
    assert item[..|item|] == item;
  }

  lemma {:induction false} PartsGood(template: string)
    ensures Parse(template).Some? ==> AllGood(Parse(template).value)
    decreases |template|
  {
    hide ParseExpression, PartGood, AllGood, FindBrace;
    var open := FindBrace(template);
    LiteralGood(template, open);
    if open < |template| && template[open] == '{' {
      var rest := template[open + 1..];
      var close := FindBrace(rest);
      if close < |rest| && rest[close] == '}' {
        PartsGood(rest[close + 1..]);
        ExpressionGood(rest[..close]);
        var part, parts := ParseExpression(rest[..close]), Parse(rest[close + 1..]);
        if part.Some? && parts.Some? {
          GoodTogether(Literal(template[..open]), part.value, parts.value);
        }
      }
    } else if open == |template| {
      GoodAlone(Literal(template));
    }
  }

  predicate AllGood(parts: seq<Part>) {
    forall k :: 0 <= k < |parts| ==> PartGood(parts[k])
  }

  lemma GoodTogether(a: Part, b: Part, parts: seq<Part>)
    requires PartGood(a) && PartGood(b) && AllGood(parts)
    ensures AllGood([a, b] + parts)
  {
    hide PartGood;
  }

  lemma GoodAlone(a: Part)
    requires PartGood(a)
    ensures AllGood([a])
  {
  }

  lemma LiteralGood(template: string, n: nat)
    requires n <= |template| && forall k :: 0 <= k < n ==> !IsBrace(template[k])
    ensures PartGood(Literal(template[..n])) && (n == |template| ==> PartGood(Literal(template)))
  {
  }

  lemma ExpressionGood(inner: string)
    ensures ParseExpression(inner).Some? ==> PartGood(ParseExpression(inner).value)
  {
    hide ParseVars, NamesGood;
    VarsGood(inner);
    if inner != "" {
      VarsGood(inner[1..]);
    }
  }

  lemma {:induction false} SegmentsPlain(operator: Operator, vars: seq<Var>, values: Values)
    requires NamesGood(vars)
    ensures forall k :: 0 <= k < |Segments(operator, vars, values)| ==> NoBrace(Segments(operator, vars, values)[k])
    decreases |vars|
  {
    hide NameStart, ValueOf, Quote;
    if vars != [] {
      SegmentsPlain(operator, vars[1..], values);
      NameSafe(vars[0].name);
      var text := ValueOf(vars[0], values);
      if text.Some? {
        QuoteSafe(text.value, KeepsReserved(operator));
      }
    }
  }

  lemma {:induction false} JoinPlain(separator: char, segments: seq<string>)
    requires !IsBrace(separator) && forall k :: 0 <= k < |segments| ==> NoBrace(segments[k])
    ensures NoBrace(Join(separator, segments))
    decreases |segments|
  {
    if |segments| > 1 {
      JoinPlain(separator, segments[1..]);
    }
  }

  lemma {:induction false} PartsPlain(parts: seq<Part>, values: Values)
    requires AllGood(parts)
    ensures NoBrace(ExpandParts(parts, values))
    decreases |parts|
  {
    hide Segments, Join;
    if parts != [] {
      PartsPlain(parts[1..], values);
      assert PartGood(parts[0]);
      if parts[0].Expression? {
        SegmentsPlain(parts[0].operator, parts[0].vars, values);
        JoinPlain(Separator(parts[0].operator), Segments(parts[0].operator, parts[0].vars, values));
      }
    }
  }

  /** The expansion of an accepted template has no brace. */
  lemma ExpansionIsPlain(template: string, values: Values)
    ensures Expand(template, values).Some? ==> NoBrace(Expand(template, values).value)
  {
    hide Parse, ExpandParts;
    if Parse(template).Some? {
      PartsGood(template);
      PartsPlain(Parse(template).value, values);
    }
  }

  // ---------- Values are recovered ----------

  lemma HexOnce(a: nat, b: nat)
    requires a < 256 && b < 256 && HexDigit(a / 16) == HexDigit(b / 16) && HexDigit(a % 16) == HexDigit(b % 16)
    ensures a == b
  {
  }

  /** The character number that bytes encode. */
  function FromUtf8(b: seq<nat>): int
    requires |b| > 0
  {
    if |b| == 1 then b[0]
    else if |b| == 2 then b[0] as int * 0x40 + b[1] as int - 0x3080
    else if |b| == 3 then b[0] as int * 0x1000 + b[1] as int * 0x40 + b[2] as int - 0xE_2080
    else if |b| == 4 then b[0] as int * 0x4_0000 + b[1] as int * 0x1000 + b[2] as int * 0x40 + b[3] as int - 0x3C8_2080
    else 0
  }

  lemma Utf8Back(c: char)
    ensures FromUtf8(Utf8(c)) == c as int
  {
    var n := c as int;
    assert n == n / 0x40 * 0x40 + n % 0x40;
    assert n / 0x40 == n / 0x1000 * 0x40 + n / 0x40 % 0x40;
    assert n / 0x1000 == n / 0x4_0000 * 0x40 + n / 0x1000 % 0x40;
  }

  /** The first byte tells the length. */
  lemma Utf8Length(c: char)
    ensures var b := Utf8(c);
            |b| == if b[0] < 0x80 then 1 else if b[0] < 0xE0 then 2 else if b[0] < 0xF0 then 3 else 4
  {
  }

  lemma Utf8Once(c: char, d: char)
    ensures Utf8(c)[0] == Utf8(d)[0] ==> |Utf8(c)| == |Utf8(d)|
    ensures Utf8(c) == Utf8(d) ==> c == d
  {
    Utf8Length(c);
    Utf8Length(d);
    Utf8Back(c);
    Utf8Back(d);
    hide Utf8, FromUtf8;
    if Utf8(c) == Utf8(d) {
      assert c as int == d as int;
    }
  }

  lemma {:induction false} PercentOnce(a: seq<nat>, b: seq<nat>)
    requires |a| == |b| && Percent.requires(a) && Percent.requires(b) && Percent(a) == Percent(b)
    ensures a == b
    decreases |a|
  {
    hide Percent, HexDigit;
    if a != [] {
      PercentFirst(a);
      PercentFirst(b);
      HexOnce(a[0], b[0]);
      PercentOnce(a[1..], b[1..]);
      assert a == [a[0]] + a[1..] && b == [b[0]] + b[1..];
    }
  }

  lemma PercentFirst(bytes: seq<nat>)
    requires bytes != [] && Percent.requires(bytes)
    ensures Percent.requires(bytes[1..]) && |Percent(bytes)| >= 3 && Percent(bytes)[3..] == Percent(bytes[1..])
    ensures Percent(bytes)[1] == HexDigit(bytes[0] / 16) && Percent(bytes)[2] == HexDigit(bytes[0] % 16)
  {
    hide HexDigit;
  }

  /** The quotation of a character is found again at the front of a text. */
  lemma QuoteCharOnce(c: char, d: char, x: string, y: string)
    requires QuoteChar(c, false) + x == QuoteChar(d, false) + y
    ensures c == d && x == y
  {
    var s := QuoteChar(c, false) + x;
    if IsUnreserved(c) || IsUnreserved(d) {
      PercentStarts(Utf8(c));
      PercentStarts(Utf8(d));
      assert s[0] == (if IsUnreserved(c) then c else '%') && s[0] == if IsUnreserved(d) then d else '%';
      assert x == s[1..] && y == s[1..];
    } else {
      var a, b := Utf8(c), Utf8(d);
      PercentStarts(a);
      PercentStarts(b);
      PercentSafe(a);
      PercentSafe(b);
      hide Utf8, Percent;
      assert s[1] == Percent(a)[1] == Percent(b)[1] && s[2] == Percent(a)[2] == Percent(b)[2];
      HexOnce(a[0], b[0]);
      Utf8Once(c, d);
      assert Percent(a) == s[..3 * |a|] && Percent(b) == s[..3 * |b|];
      PercentOnce(a, b);
      assert x == s[3 * |a|..] && y == s[3 * |b|..];
    }
  }

  lemma PercentStarts(bytes: seq<nat>)
    requires Percent.requires(bytes) && bytes != []
    ensures |Percent(bytes)| >= 3 && Percent(bytes)[0] == '%'
    ensures Percent(bytes)[1] == HexDigit(bytes[0] / 16) && Percent(bytes)[2] == HexDigit(bytes[0] % 16)
  {
  }

  lemma {:induction false} QuoteOnce(a: string, b: string)
    requires Quote(a, false) == Quote(b, false)
    ensures a == b
    decreases |a|
  {
    hide QuoteChar;
    if a != "" { QuoteCharSafe(a[0], false); }
    if b != "" { QuoteCharSafe(b[0], false); }
    if a != "" && b != "" {
      QuoteCharOnce(a[0], b[0], Quote(a[1..], false), Quote(b[1..], false));
      QuoteOnce(a[1..], b[1..]);
      assert a == [a[0]] + a[1..] && b == [b[0]] + b[1..];
    }
  }

  lemma {:induction false} JoinOnce(c: char, xs: seq<string>, ys: seq<string>)
    requires xs != [] && ys != [] && Join(c, xs) == Join(c, ys)
    requires (forall k :: 0 <= k < |xs| ==> c !in xs[k]) && (forall k :: 0 <= k < |ys| ==> c !in ys[k])
    ensures xs == ys
    decreases |xs|
  {
    var s := Join(c, xs);
    HeadFound(c, xs);
    HeadFound(c, ys);
    if |xs| > 1 && |ys| > 1 {
      assert Join(c, xs[1..]) == s[|xs[0]| + 1..] == Join(c, ys[1..]);
      JoinOnce(c, xs[1..], ys[1..]);
      assert xs == [xs[0]] + xs[1..] && ys == [ys[0]] + ys[1..];
    }
  }

  /** The first separator ends the first segment. */
  lemma HeadFound(c: char, xs: seq<string>)
    requires xs != [] && c !in xs[0]
    ensures Find(Join(c, xs), c) == |xs[0]| && Join(c, xs)[..|xs[0]|] == xs[0]
    ensures |Join(c, xs)| == |xs[0]| <==> |xs| == 1
  {
    var s := Join(c, xs);
    assert forall k :: 0 <= k < |xs[0]| ==> s[k] == xs[0][k];
    FindIs(s, c, |xs[0]|);
  }

  /** The name in a segment of a named operator. */
  function NameIn(segment: string): string { segment[..Find(segment, '=')] }

  lemma SegmentNamed(operator: Operator, name: string, text: string)
    requires IsNamed(operator) && NameStart(name)
    ensures NameIn(Segment(operator, name, text)) == name
    ensures ';' !in Segment(operator, name, text) && '&' !in Segment(operator, name, text)
  {
    hide NameStart, Quote;
    NameSafe(name);
    QuoteSafe(text, false);
    var s := Segment(operator, name, text);
    assert forall k :: 0 <= k < |name| ==> s[k] == name[k];
    FindIs(s, '=', |name|);
  }

  lemma SegmentOnce(operator: Operator, name: string, a: string, b: string)
    requires IsNamed(operator) && Segment(operator, name, a) == Segment(operator, name, b)
    ensures a == b
  {
    hide Quote;
    var x, y := Quote(a, false), Quote(b, false);
    if operator.PathParameter? && (x == "" || y == "") {
      assert |Segment(operator, name, a)| == |Segment(operator, name, b)|;
    } else {
      assert x == (name + "=" + x)[|name| + 1..] && y == (name + "=" + y)[|name| + 1..];
    }
    QuoteOnce(a, b);
  }

  predicate DistinctNames(vars: seq<Var>) {
    forall i, j :: 0 <= i < j < |vars| ==> vars[i].name != vars[j].name
  }

  /** A segment names one of the variables and holds no separator. */
  predicate Belongs(segment: string, vars: seq<Var>) {
    && (exists j :: 0 <= j < |vars| && NameIn(segment) == vars[j].name)
    && ';' !in segment && '&' !in segment
  }

  lemma BelongsLater(segment: string, vars: seq<Var>)
    requires vars != [] && Belongs(segment, vars[1..])
    ensures Belongs(segment, vars)
  {
    var j :| 0 <= j < |vars[1..]| && NameIn(segment) == vars[1..][j].name;
    assert vars[1..][j] == vars[j + 1];
  }

  lemma {:induction false} SegmentNames(operator: Operator, vars: seq<Var>, values: Values)
    requires IsNamed(operator) && NamesGood(vars)
    ensures forall k :: 0 <= k < |Segments(operator, vars, values)| ==>
            Belongs(Segments(operator, vars, values)[k], vars)
    decreases |vars|
  {
    hide NameStart, ValueOf, Segment, NameIn, Belongs;
    if vars != [] {
      var later := Segments(operator, vars[1..], values);
      SegmentNames(operator, vars[1..], values);
      forall k | 0 <= k < |later|
        ensures Belongs(later[k], vars)
      {
        BelongsLater(later[k], vars);
      }
      var text, all := ValueOf(vars[0], values), Segments(operator, vars, values);
      if text.Some? {
        FirstBelongs(operator, vars, text.value);
        assert all == [Segment(operator, vars[0].name, text.value)] + later;
        assert forall k :: 0 < k < |all| ==> all[k] == later[k - 1];
      } else {
        assert all == later;
      }
    }
  }

  lemma FirstBelongs(operator: Operator, vars: seq<Var>, text: string)
    requires IsNamed(operator) && NamesGood(vars) && vars != []
    ensures Belongs(Segment(operator, vars[0].name, text), vars)
  {
    hide NameStart, Segment, NameIn;
    SegmentNamed(operator, vars[0].name, text);
  }

  /** Equal segments give every variable the same text, or leave it undefined in both. */
  lemma {:induction false} SegmentsOnce(operator: Operator, vars: seq<Var>, a: Values, b: Values)
    requires IsNamed(operator) && NamesGood(vars) && DistinctNames(vars)
    requires Segments(operator, vars, a) == Segments(operator, vars, b)
    ensures forall k :: 0 <= k < |vars| ==> ValueOf(vars[k], a) == ValueOf(vars[k], b)
    decreases |vars|
  {
    hide NameStart, ValueOf, Segment, NameIn;
    if vars != [] {
      var x, y := ValueOf(vars[0], a), ValueOf(vars[0], b);
      var xs, ys := Segments(operator, vars[1..], a), Segments(operator, vars[1..], b);
      HeadOnce(operator, vars, x, xs, y, ys, a, b);
      SegmentsOnce(operator, vars[1..], a, b);
      forall k | 0 <= k < |vars|
        ensures ValueOf(vars[k], a) == ValueOf(vars[k], b)
      {
        assert k > 0 ==> vars[k] == vars[1..][k - 1];
      }
    }
  }

  lemma HeadOnce(operator: Operator, vars: seq<Var>, x: Option<string>, xs: seq<string>, y: Option<string>,
                 ys: seq<string>, a: Values, b: Values)
    requires IsNamed(operator) && NamesGood(vars) && DistinctNames(vars) && vars != []
    requires xs == Segments(operator, vars[1..], a) && ys == Segments(operator, vars[1..], b)
    requires (if x.None? then [] else [Segment(operator, vars[0].name, x.value)]) + xs
          == (if y.None? then [] else [Segment(operator, vars[0].name, y.value)]) + ys
    ensures x == y && xs == ys
  {
    hide NameStart, ValueOf, Segment, NameIn, Segments;
    var name := vars[0].name;
    SegmentNames(operator, vars[1..], a);
    SegmentNames(operator, vars[1..], b);
    assert forall j :: 0 <= j < |vars[1..]| ==> vars[1..][j].name != name;
    assert [] + xs == xs && [] + ys == ys;
    assert x.Some? && y.None? ==> ys[0] == Segment(operator, name, x.value);
    assert y.Some? && x.None? ==> xs[0] == Segment(operator, name, y.value);
    if x.Some? {
      SegmentNamed(operator, name, x.value);
    }
    if y.Some? {
      SegmentNamed(operator, name, y.value);
    }
    if x.Some? && y.Some? {
      var p, q := [Segment(operator, name, x.value)] + xs, [Segment(operator, name, y.value)] + ys;
      assert p[0] == q[0] && xs == p[1..] && ys == q[1..];
      SegmentOnce(operator, name, x.value, y.value);
    }
  }

  /** For path parameters and form queries over distinct names, the expansion tells which variables are
      defined and, without prefixes, their texts. */
  lemma NamedValuesRecovered(operator: Operator, vars: seq<Var>, a: Values, b: Values)
    requires IsNamed(operator) && NamesGood(vars) && DistinctNames(vars)
    requires ExpandExpression(operator, vars, a) == ExpandExpression(operator, vars, b)
    ensures forall k :: 0 <= k < |vars| ==> ValueOf(vars[k], a) == ValueOf(vars[k], b)
    ensures forall k :: 0 <= k < |vars| && vars[k].prefix.None? && vars[k].name in a && vars[k].name in b ==>
              TextOf(a[vars[k].name]) == TextOf(b[vars[k].name])
  {
    hide NamesGood, DistinctNames, Segments, Join;
    var xs, ys := Segments(operator, vars, a), Segments(operator, vars, b);
    SegmentNames(operator, vars, a);
    SegmentNames(operator, vars, b);
    if xs != [] && ys != [] {
      var c := Separator(operator);
      assert First(operator) + Join(c, xs) == First(operator) + Join(c, ys);
      assert (First(operator) + Join(c, xs))[1..] == Join(c, xs) && (First(operator) + Join(c, ys))[1..] == Join(c, ys);
      JoinOnce(c, xs, ys);
    }
    SegmentsOnce(operator, vars, a, b);
  }

  // ---------- The expander ----------

  method ExpandTemplate(template: string, values: Values) returns (r: Option<string>)
    ensures r == Expand(template, values)
  {
    hide Parse, ExpandExpression, ExpandParts;
    assert ExpandParts([], values) == "" by { NoParts(values); }
    if |template| > MAX_TEMPLATE {
      return None;
    }
    var parsed := Parse(template);
    if parsed.None? {
      return None;
    }
    var parts, result, i := parsed.value, "", 0;
    assert parts[0..] == parts && "" + ExpandParts(parts, values) == ExpandParts(parts, values);
    while i < |parts|
      invariant 0 <= i <= |parts| && ExpandParts(parts, values) == result + ExpandParts(parts[i..], values)
    {
      var piece;
      match parts[i] {
        case Literal(text) => piece := text;
        case Expression(operator, vars) => piece := Expanding(operator, vars, values);
      }
      PartsStep(parts, i, values, result);
      result := result + piece;
      i := i + 1;
    }
    assert parts[i..] == [] && result + "" == result;
    if |result| > MAX_EXPANDED {
      return None;
    }
    return Some(result);
  }

  lemma NoParts(values: Values)
    ensures ExpandParts([], values) == ""
  {
  }

  lemma PartsStep(parts: seq<Part>, i: nat, values: Values, result: string)
    requires i < |parts|
    ensures result + ExpandParts(parts[i..], values) ==
            result + ExpandPart(parts[i], values) + ExpandParts(parts[i + 1..], values)
  {
    hide ExpandPart;
    assert parts[i..][1..] == parts[i + 1..];
    assert result + (ExpandPart(parts[i], values) + ExpandParts(parts[i + 1..], values))
        == result + ExpandPart(parts[i], values) + ExpandParts(parts[i + 1..], values);
  }

  lemma NoSegments(operator: Operator, values: Values)
    ensures Segments(operator, [], values) == []
  {
  }

  lemma SegmentsStep(operator: Operator, vars: seq<Var>, k: nat, values: Values, sofar: seq<string>)
    requires k < |vars|
    ensures var value, later := ValueOf(vars[k], values), Segments(operator, vars[k + 1..], values);
            sofar + Segments(operator, vars[k..], values) ==
              if value.None? then sofar + later else sofar + [Segment(operator, vars[k].name, value.value)] + later
  {
    hide ValueOf, Segment;
    assert vars[k..][1..] == vars[k + 1..];
  }

  method Expanding(operator: Operator, vars: seq<Var>, values: Values) returns (text: string)
    ensures text == ExpandExpression(operator, vars, values)
  {
    hide ValueOf, Segment, Segments, Join;
    var segments: seq<string>, k := [], 0;
    assert vars[0..] == vars && [] + Segments(operator, vars, values) == Segments(operator, vars, values);
    while k < |vars|
      invariant 0 <= k <= |vars| && Segments(operator, vars, values) == segments + Segments(operator, vars[k..], values)
    {
      SegmentsStep(operator, vars, k, values, segments);
      var value := ValueOf(vars[k], values);
      if value.Some? {
        segments := segments + [Segment(operator, vars[k].name, value.value)];
      }
      k := k + 1;
    }
    assert vars[k..] == [] && segments + [] == segments;
    NoSegments(operator, values);
    return if segments == [] then "" else First(operator) + Join(Separator(operator), segments);
  }
}
