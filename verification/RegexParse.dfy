/** `compile_pattern`: the grammar of accepted patterns as functions of the text and a position, and the
    recursive-descent parser that moves a shared cursor. */
module RegexParse {
  import opened Wrappers
  import opened RegexTree
  import opened Decimals
  import opened TextTools

  /** A parse result and the position after it. */
  type Parsed<T> = Result<(T, nat)>

  predicate IsSyntax(c: char) {
    c in {'^', '$', '\\', '.', '*', '+', '?', '(', ')', '[', ']', '{', '}', '|', '/', '-'}
  }

  function Sub(text: string, from: nat, to: nat): string {
    if from <= to <= |text| then text[from..to] else ""
  }

  // ---------- Characters ----------

  function Control(c: char): Option<char> {
    match c
    case 'n' => Some('\n')
    case 'r' => Some('\r')
    case 't' => Some('\t')
    case 'f' => Some('\U{000C}')
    case 'v' => Some('\U{000B}')
    case _ => None
  }

  function Shorthand(c: char): Option<Predicate> {
    match c
    case 'd' => Some(Digit)
    case 'w' => Some(Word)
    case 'D' => Some(Not(Digit))
    case 'W' => Some(Not(Word))
    case _ => None
  }

  predicate IsLead(scalar: nat) { 0xD800 <= scalar <= 0xDBFF }

  predicate IsTrail(scalar: nat) { 0xDC00 <= scalar <= 0xDFFF }

  /** The scalar of `\u`, read after the letter. */
  function UnicodeDigits(text: string, pos: nat): (r: Parsed<nat>)
    requires pos <= |text|
    ensures r.Ok? ==> pos < r.value.1 <= |text|
  {
    if pos < |text| && text[pos] == '{' then
      var end := FindFrom(text, '}', pos + 1);
      if end.None? then Err
      else
        var digits := text[pos + 1..end.value];
        if 1 <= |digits| <= 6 && IsHex(digits) then Ok((Hex(digits), end.value + 1)) else Err
    else
      var digits := Sub(text, pos, pos + 4);
      if |digits| == 4 && IsHex(digits) then Ok((Hex(digits), pos + 4)) else Err
  }

  /** Joins a lead surrogate with a `\uXXXX` trail that follows it. */
  function Pair(text: string, scalar: nat, pos: nat): (r: (nat, nat))
    requires pos <= |text|
    ensures pos <= r.1 <= |text|
  {
    if IsLead(scalar) && Sub(text, pos, pos + 2) == "\\u" then
      var trail := Sub(text, pos + 2, pos + 6);
      if |trail| == 4 && IsHex(trail) && IsTrail(Hex(trail)) then
        (0x10000 + (scalar - 0xD800) * 1024 + Hex(trail) - 0xDC00, pos + 6)
      else (scalar, pos)
    else (scalar, pos)
  }

  predicate IsScalar(scalar: nat) { scalar <= 0x10FFFF && !(0xD800 <= scalar <= 0xDFFF) }

  function Unicode(text: string, pos: nat): (r: Parsed<Predicate>)
    requires pos <= |text|
    ensures r.Ok? ==> pos < r.value.1 <= |text|
  {
    var (lead, p) :- UnicodeDigits(text, pos);
    var (scalar, q) := Pair(text, lead, p);
    if IsScalar(scalar) then Ok((Literal(scalar as char), q)) else Err
  }

  /** An escape, read after the backslash. */
  function Escape(text: string, pos: nat, inClass: bool): (r: Parsed<Predicate>)
    requires pos <= |text|
    ensures r.Ok? ==> pos < r.value.1 <= |text|
  {
    if pos >= |text| then Err
    else
      var c := text[pos];
      if c == '-' && !inClass then Err
      else if IsSyntax(c) then Ok((Literal(c), pos + 1))
      else if Control(c).Some? then Ok((Literal(Control(c).value), pos + 1))
      else if Shorthand(c).Some? then Ok((Shorthand(c).value, pos + 1))
      else if c == 'u' then Unicode(text, pos + 1)
      else Err
  }

  function ClassAtom(text: string, pos: nat): (r: Parsed<Predicate>)
    requires pos <= |text|
    ensures r.Ok? ==> pos < r.value.1 <= |text|
  {
    if pos >= |text| then Err
    else if text[pos] == '\\' then Escape(text, pos + 1, true)
    else Ok((Literal(text[pos]), pos + 1))
  }

  predicate RangeFollows(text: string, pos: nat) {
    pos + 1 < |text| && text[pos] == '-' && text[pos + 1] != ']'
  }

  function ClassItem(text: string, pos: nat): (r: Parsed<Predicate>)
    requires pos <= |text|
    ensures r.Ok? ==> pos < r.value.1 <= |text|
  {
    var (left, p) :- ClassAtom(text, pos);
    if !RangeFollows(text, p) then Ok((left, p))
    else
      var (right, q) :- ClassAtom(text, p + 1);
      if left.Literal? && right.Literal? && left.c <= right.c then Ok((Range(left.c, right.c), q)) else Err
  }

  function ClassItems(text: string, pos: nat): (r: Parsed<seq<Predicate>>)
    requires pos <= |text|
    ensures r.Ok? ==> pos <= r.value.1 <= |text|
    decreases |text| - pos
  {
    if pos >= |text| || text[pos] == ']' then Ok(([], pos))
    else
      var (item, p) :- ClassItem(text, pos);
      var (rest, q) :- ClassItems(text, p);
      Ok(([item] + rest, q))
  }

  /** A class, read after the opening bracket. */
  function Class(text: string, pos: nat): (r: Parsed<Predicate>)
    requires pos <= |text|
    ensures r.Ok? ==> pos < r.value.1 <= |text|
  {
    var negate := pos < |text| && text[pos] == '^';
    var (items, p) :- ClassItems(text, if negate then pos + 1 else pos);
    if p < |text| && text[p] == ']' then Ok((if negate then Not(Union(items)) else Union(items), p + 1)) else Err
  }

  // ---------- Repetition ----------

  predicate IsQuantifier(c: char) { c in {'*', '+', '?', '{'} }

  function DigitsEnd(text: string, pos: nat): (end: nat)
    requires pos <= |text|
    ensures pos <= end <= |text| && IsDecimal(text[pos..end]) && (end < |text| ==> !IsDigit(text[end]))
    decreases |text| - pos
  {
    if pos < |text| && IsDigit(text[pos]) then DigitsEnd(text, pos + 1) else pos
  }

  /** The bounds inside braces, read after the opening one. */
  function Bounds(text: string, pos: nat): (r: Parsed<(nat, Option<nat>)>)
    requires pos <= |text|
    ensures r.Ok? ==> pos < r.value.1 <= |text|
  {
    var p := DigitsEnd(text, pos);
    if p == pos || p >= |text| then Err
    else if text[p] == '}' then
      if p - pos > 4 then Err else Ok(((Decimal(text[pos..p]), Some(Decimal(text[pos..p]))), p + 1))
    else if text[p] == ',' then
      var q := DigitsEnd(text, p + 1);
      if q >= |text| || text[q] != '}' || p - pos > 4 || q - (p + 1) > 4 then Err
      else Ok(((Decimal(text[pos..p]), if q == p + 1 then None else Some(Decimal(text[p + 1..q]))), q + 1))
    else Err
  }

  /** The bounds a quantifier stands for. */
  function Sign(text: string, pos: nat): (r: Parsed<(nat, Option<nat>)>)
    requires pos < |text| && IsQuantifier(text[pos])
    ensures r.Ok? ==> pos < r.value.1 <= |text|
  {
    match text[pos]
    case '{' => Bounds(text, pos + 1)
    case '*' => Ok(((0, None), pos + 1))
    case '+' => Ok(((1, None), pos + 1))
    case _ => Ok(((0, Some(1)), pos + 1))
  }

  /** A quantifier with its bounds in order and within the budget, and an optional lazy mark. */
  function Quantifier(text: string, pos: nat, maxRepeat: nat): (r: Parsed<(nat, Option<nat>)>)
    requires pos < |text| && IsQuantifier(text[pos])
    ensures r.Ok? ==> pos < r.value.1 <= |text|
    ensures r.Ok? ==> BoundsAllowed(r.value.0.0, r.value.0.1, maxRepeat)
  {
    var ((min, max), p) :- Sign(text, pos);
    if !BoundsAllowed(min, max, maxRepeat) then Err
    else Ok(((min, max), if p < |text| && text[p] == '?' then p + 1 else p))
  }

  predicate BoundsAllowed(min: nat, max: Option<nat>, maxRepeat: nat) {
    min <= maxRepeat && (max.Some? ==> min <= max.value <= maxRepeat)
  }

  // ---------- Trees ----------

  predicate Ends(text: string, pos: nat) {
    pos >= |text| || text[pos] in {'|', ')'}
  }

  function Atom(text: string, pos: nat, maxRepeat: nat): (r: Parsed<Tree>)
    requires pos < |text|
    ensures r.Ok? ==> pos < r.value.1 <= |text|
    decreases |text| - pos, 0
  {
    var c := text[pos];
    if c == '(' then Group(text, pos + 1, maxRepeat)
    else if c == '[' then
      var (p, q) :- Class(text, pos + 1);
      Ok((Char(p), q))
    else if c == '\\' then
      var (p, q) :- Escape(text, pos + 1, false);
      Ok((Char(p), q))
    else if c == '.' then Ok((Char(Dot), pos + 1))
    else if c == '^' then Ok((Start, pos + 1))
    else if c == '$' then Ok((End, pos + 1))
    else if c in {'*', '+', '?', '{', '}', ']'} then Err
    else Ok((Char(Literal(c)), pos + 1))
  }

  /** A group, read after the opening parenthesis. */
  function Group(text: string, pos: nat, maxRepeat: nat): (r: Parsed<Tree>)
    requires pos <= |text|
    ensures r.Ok? ==> pos < r.value.1 <= |text|
    decreases |text| - pos, 5
  {
    if pos < |text| && text[pos] == '?' && Sub(text, pos, pos + 2) != "?:" then Err
    else
      var inner := if pos < |text| && text[pos] == '?' then pos + 2 else pos;
      var (child, q) :- Alternative(text, inner, maxRepeat);
      if q < |text| && text[q] == ')' then Ok((child, q + 1)) else Err
  }

  function Item(text: string, pos: nat, maxRepeat: nat): (r: Parsed<Tree>)
    requires pos < |text|
    ensures r.Ok? ==> pos < r.value.1 <= |text|
    decreases |text| - pos, 1
  {
    var (child, p) :- Atom(text, pos, maxRepeat);
    if p < |text| && IsQuantifier(text[p]) then
      if child.Start? || child.End? then Err
      else
        var ((min, max), q) :- Quantifier(text, p, maxRepeat);
        Ok((Repeat(child, min, max), q))
    else Ok((child, p))
  }

  function Items(text: string, pos: nat, maxRepeat: nat): (r: Parsed<seq<Tree>>)
    requires pos <= |text|
    ensures r.Ok? ==> pos <= r.value.1 <= |text|
    decreases |text| - pos, 2
  {
    if Ends(text, pos) then Ok(([], pos))
    else
      var (item, p) :- Item(text, pos, maxRepeat);
      var (rest, q) :- Items(text, p, maxRepeat);
      Ok(([item] + rest, q))
  }

  function OfItems(items: seq<Tree>): Tree {
    if items == [] then Empty else Seq(items)
  }

  function Branches(text: string, pos: nat, maxRepeat: nat): (r: Parsed<seq<Tree>>)
    requires pos <= |text|
    ensures r.Ok? ==> pos <= r.value.1 <= |text| && |r.value.0| >= 1
    decreases |text| - pos, 3
  {
    var (items, p) :- Items(text, pos, maxRepeat);
    if p < |text| && text[p] == '|' then
      var (rest, q) :- Branches(text, p + 1, maxRepeat);
      Ok(([OfItems(items)] + rest, q))
    else Ok(([OfItems(items)], p))
  }

  function OfBranches(branches: seq<Tree>): Tree
    requires |branches| >= 1
  {
    if |branches| > 1 then Alt(branches) else branches[0]
  }

  function Alternative(text: string, pos: nat, maxRepeat: nat): (r: Parsed<Tree>)
    requires pos <= |text|
    ensures r.Ok? ==> pos <= r.value.1 <= |text|
    decreases |text| - pos, 4
  {
    var (branches, p) :- Branches(text, pos, maxRepeat);
    Ok((OfBranches(branches), p))
  }

  function Compile(text: string, maxLength: nat, maxRepeat: nat): Result<Tree> {
    if |text| > maxLength then Err
    else
      var (tree, p) :- Alternative(text, 0, maxRepeat);
      if p == |text| then Ok(tree) else Err
  }

  // ---------- The parser with its cursor ----------

  class Parser {
    const text: string
    const maxRepeat: nat
    var position: nat

    constructor (text: string, maxRepeat: nat)
      ensures this.text == text && this.maxRepeat == maxRepeat && position == 0
    {
      this.text, this.maxRepeat, position := text, maxRepeat, 0;
    }

    predicate Peeks(c: char)
      reads this
    {
      position < |text| && text[position] == c
    }

    /** The cursor ends where the grammar says, unless parsing fails. */
    ghost predicate Follows<T>(expected: Parsed<T>, actual: Result<T>)
      reads this
    {
      expected == if actual.Ok? then Ok((actual.value, position)) else Err
    }

    method ParseEscape(inClass: bool) returns (r: Result<Predicate>)
      requires position <= |text|
      modifies this
      ensures Follows(Escape(text, old(position), inClass), r)
    {
      if position >= |text| {
        return Err;
      }
      var c := text[position];
      position := position + 1;
      if c == '-' && !inClass {
        return Err;
      }
      if IsSyntax(c) {
        return Ok(Literal(c));
      }
      if Control(c).Some? {
        return Ok(Literal(Control(c).value));
      }
      if Shorthand(c).Some? {
        return Ok(Shorthand(c).value);
      }
      if c == 'u' {
        r := ParseUnicode();
        return;
      }
      return Err;
    }

    method ParseUnicode() returns (r: Result<Predicate>)
      requires position <= |text|
      modifies this
      ensures Follows(Unicode(text, old(position)), r)
    {
      hide Hex, IsHex, Sub, FindFrom;
      var digits: string;
      if Peeks('{') {
        var end := FindFrom(text, '}', position + 1);
        if end.None? {
          return Err;
        }
        digits := text[position + 1..end.value];
        position := end.value + 1;
        if !(1 <= |digits| <= 6 && IsHex(digits)) {
          return Err;
        }
      } else {
        digits := Sub(text, position, position + 4);
        position := position + 4;
        if !(|digits| == 4 && IsHex(digits)) {
          return Err;
        }
      }
      var scalar := Hex(digits);
      if IsLead(scalar) && Sub(text, position, position + 2) == "\\u" {
        var trail := Sub(text, position + 2, position + 6);
        if |trail| == 4 && IsHex(trail) && IsTrail(Hex(trail)) {
          scalar := 0x10000 + (scalar - 0xD800) * 1024 + Hex(trail) - 0xDC00;
          position := position + 6;
        }
      }
      if !IsScalar(scalar) {
        return Err;
      }
      return Ok(Literal(scalar as char));
    }

    method ParseClassAtom() returns (r: Result<Predicate>)
      requires position <= |text|
      modifies this
      ensures Follows(ClassAtom(text, old(position)), r)
    {
      if position >= |text| {
        return Err;
      }
      var c := text[position];
      position := position + 1;
      if c == '\\' {
        r := ParseEscape(true);
      } else {
        r := Ok(Literal(c));
      }
    }

    method ParseClass() returns (r: Result<Predicate>)
      requires position <= |text|
      modifies this
      ensures Follows(Class(text, old(position)), r)
    {
      hide ClassAtom, RangeFollows, ClassItem, ClassItems, Prepend, Class;
      var negate := Peeks('^');
      ClassIs(text, position, negate);
      position := if negate then position + 1 else position;
      ghost var from := position;
      var items: seq<Predicate> := [];
      PrependNone(items, ClassItems(text, from));
      while position < |text| && text[position] != ']'
        invariant position <= |text|
        invariant ClassItems(text, from) == Prepend(items, ClassItems(text, position))
        decreases |text| - position
      {
        ghost var here := position;
        ClassItemIs(text, here);
        ClassItemsAre(text, here);
        PrependErr(items, ClassItems(text, here));
        var left := ParseClassAtom();
        if left.Err? {
          return Err;
        }
        var item := left.value;
        if RangeFollows(text, position) {
          position := position + 1;
          var right := ParseClassAtom();
          if right.Err? || !item.Literal? || !right.value.Literal? || item.c > right.value.c {
            return Err;
          }
          item := Range(item.c, right.value.c);
        }
        PrependMore(items, item, ClassItems(text, position));
        items := items + [item];
      }
      ClassItemsAre(text, position);
      PrependNone(items, ClassItems(text, position));
      if !Peeks(']') {
        return Err;
      }
      position := position + 1;
      return Ok(if negate then Not(Union(items)) else Union(items));
    }

    method ParseQuantifier() returns (r: Result<(nat, Option<nat>)>)
      requires position < |text| && IsQuantifier(text[position])
      modifies this
      ensures Follows(Quantifier(text, old(position), maxRepeat), r)
    {
      var quantifier := text[position];
      position := position + 1;
      var min: nat, max: Option<nat>;
      if quantifier == '{' {
        var bounds := Bounds(text, position);
        if bounds.Err? {
          return Err;
        }
        min, max := bounds.value.0.0, bounds.value.0.1;
        position := bounds.value.1;
      } else if quantifier == '*' {
        min, max := 0, None;
      } else if quantifier == '+' {
        min, max := 1, None;
      } else {
        min, max := 0, Some(1);
      }
      if !BoundsAllowed(min, max, maxRepeat) {
        return Err;
      }
      if Peeks('?') {
        position := position + 1;
      }
      return Ok((min, max));
    }

    method ParseAtom() returns (r: Result<Tree>)
      requires position < |text|
      modifies this
      ensures Follows(Atom(text, old(position), maxRepeat), r)
      decreases |text| - position, 0
    {
      var c := text[position];
      position := position + 1;
      if c == '(' {
        if Peeks('?') {
          if Sub(text, position, position + 2) != "?:" {
            return Err;
          }
          position := position + 2;
        }
        r := ParseAlternative();
        if r.Err? || !Peeks(')') {
          return Err;
        }
        position := position + 1;
        return;
      }
      if c == '[' {
        var p := ParseClass();
        return if p.Err? then Err else Ok(Char(p.value));
      }
      if c == '\\' {
        var p := ParseEscape(false);
        return if p.Err? then Err else Ok(Char(p.value));
      }
      if c == '.' {
        return Ok(Char(Dot));
      }
      if c in {'^', '$'} {
        return Ok(if c == '^' then Start else End);
      }
      if c in {'*', '+', '?', '{', '}', ']'} {
        return Err;
      }
      return Ok(Char(Literal(c)));
    }

    method ParseSequence() returns (r: Result<Tree>, ghost items: seq<Tree>)
      requires position <= |text|
      modifies this
      ensures old(position) <= position <= |text| || r.Err?
      ensures if r.Ok? then Items(text, old(position), maxRepeat) == Ok((items, position)) && r.value == OfItems(items)
              else Items(text, old(position), maxRepeat).Err?
      decreases |text| - position, 1
    {
      var parsed: seq<Tree> := [];
      items := [];
      PrependNone(parsed, Items(text, position, maxRepeat));
      while position < |text| && text[position] !in {'|', ')'}
        invariant old(position) <= position <= |text|
        invariant Items(text, old(position), maxRepeat) == Prepend(parsed, Items(text, position, maxRepeat))
        decreases |text| - position
      {
        ghost var here := position;
        var child := ParseAtom();
        if child.Err? {
          return Err, [];
        }
        var item := child.value;
        if position < |text| && IsQuantifier(text[position]) {
          if item.Start? || item.End? {
            return Err, [];
          }
          var bounds := ParseQuantifier();
          if bounds.Err? {
            return Err, [];
          }
          item := Repeat(item, bounds.value.0, bounds.value.1);
        }
        assert Item(text, here, maxRepeat) == Ok((item, position));
        PrependMore(parsed, item, Items(text, position, maxRepeat));
        parsed := parsed + [item];
      }
      PrependNone(parsed, Items(text, position, maxRepeat));
      return Ok(if parsed != [] then Seq(parsed) else Empty), parsed;
    }

    method ParseAlternative() returns (r: Result<Tree>)
      requires position <= |text|
      modifies this
      ensures Follows(Alternative(text, old(position), maxRepeat), r)
      decreases |text| - position, 2
    {
      hide Items, OfItems, Branches;
      ghost var from := position;
      var first;
      ghost var items;
      BranchesAre(text, position, maxRepeat);
      first, items := ParseSequence();
      if first.Err? {
        return Err;
      }
      var branches := [first.value];
      while Peeks('|')
        invariant from <= position <= |text| && |branches| >= 1
        invariant Branches(text, from, maxRepeat) ==
                  if Peeks('|') then Prepend(branches, Branches(text, position + 1, maxRepeat))
                      else Ok((branches, position))
        decreases |text| - position
      {
        position := position + 1;
        ghost var here := position;
        var next;
        BranchesAre(text, position, maxRepeat);
        PrependErr(branches, Branches(text, position, maxRepeat));
        next, items := ParseSequence();
        if next.Err? {
          return Err;
        }
        PrependNone(branches, Branches(text, here, maxRepeat));
        if Peeks('|') {
          PrependMore(branches, next.value, Branches(text, position + 1, maxRepeat));
        }
        branches := branches + [next.value];
      }
      return Ok(if |branches| > 1 then Alt(branches) else branches[0]);
    }
  }

  lemma ClassItemIs(text: string, pos: nat)
    requires pos <= |text|
    ensures var first := ClassAtom(text, pos);
            if first.Err? then ClassItem(text, pos).Err?
            else if !RangeFollows(text, first.value.1) then ClassItem(text, pos) == first
            else
              first.value.1 < |text| &&
              var second := ClassAtom(text, first.value.1 + 1);
              ClassItem(text, pos) ==
              if second.Ok? && first.value.0.Literal? && second.value.0.Literal? && first.value.0.c <= second.value.0.c
              then Ok((Range(first.value.0.c, second.value.0.c), second.value.1)) else Err
  {
    hide ClassAtom;
  }

  lemma ClassItemsAre(text: string, pos: nat)
    requires pos <= |text|
    ensures ClassItems(text, pos) ==
            if pos == |text| || text[pos] == ']' then Ok(([], pos))
            else
              var item := ClassItem(text, pos);
              if item.Err? then Err else Prepend([item.value.0], ClassItems(text, item.value.1))
  {
    hide ClassItem;
  }

  lemma ClassIs(text: string, pos: nat, negate: bool)
    requires pos <= |text| && negate == (pos < |text| && text[pos] == '^')
    ensures var items := ClassItems(text, if negate then pos + 1 else pos);
            Class(text, pos) ==
            if items.Ok? && items.value.1 < |text| && text[items.value.1] == ']'
            then Ok((if negate then Not(Union(items.value.0)) else Union(items.value.0), items.value.1 + 1)) else Err
  {
    hide ClassItems;
  }

  lemma PrependErr<T>(items: seq<T>, rest: Parsed<seq<T>>)
    ensures Prepend(items, rest).Err? <==> rest.Err?
  {
  }

  lemma BranchesAre(text: string, pos: nat, maxRepeat: nat)
    requires pos <= |text|
    ensures var items := Items(text, pos, maxRepeat);
            Branches(text, pos, maxRepeat) ==
            if items.Err? then Err
            else if items.value.1 < |text| && text[items.value.1] == '|'
            then Prepend([OfItems(items.value.0)], Branches(text, items.value.1 + 1, maxRepeat))
            else Ok(([OfItems(items.value.0)], items.value.1))
  {
    hide Items, OfItems;
  }

  function Prepend<T>(items: seq<T>, rest: Parsed<seq<T>>): Parsed<seq<T>> {
    if rest.Err? then Err else Ok((items + rest.value.0, rest.value.1))
  }

  lemma PrependNone<T>(items: seq<T>, rest: Parsed<seq<T>>)
    ensures Prepend([], rest) == rest
    ensures rest.Ok? && rest.value.0 == [] ==> Prepend(items, rest) == Ok((items, rest.value.1))
  {
    if rest.Ok? {
      assert [] + rest.value.0 == rest.value.0;
      if rest.value.0 == [] {
        assert items + rest.value.0 == items;
      }
    }
  }

  lemma PrependMore<T>(items: seq<T>, item: T, rest: Parsed<seq<T>>)
    ensures Prepend(items + [item], rest) == Prepend(items, Prepend([item], rest))
  {
    if rest.Ok? {
      assert items + [item] + rest.value.0 == items + ([item] + rest.value.0);
    }
  }

  method CompilePattern(text: string, maxLength: nat, maxRepeat: nat) returns (r: Result<Tree>)
    ensures r == Compile(text, maxLength, maxRepeat)
  {
    if |text| > maxLength {
      return Err;
    }
    var parser := new Parser(text, maxRepeat);
    r := parser.ParseAlternative();
    if r.Ok? && parser.position != |text| {
      return Err;
    }
  }
}
