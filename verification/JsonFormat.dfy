/** The JSON writer and the whitespace formatter, at the level of characters and tokens. */
module JsonFormat {
  import opened Wrappers

  // ---------- Tokens ----------

  predicate IsSpace(c: char) { c in {' ', '\t', '\n', '\r'} }

  predicate IsPunct(c: char) { c in {'{', '}', '[', ']', ',', ':'} }

  /** The end of a string token whose body starts at `s[0]`, if it closes: the first quote that is not escaped. */
  function StringEnd(s: string): (n: nat)
    ensures n <= |s|
  {
    if s == "" then 0
    else if s[0] == '"' then 1
    else if s[0] != '\\' then (var n := StringEnd(s[1..]); if n == 0 then 0 else n + 1)
    else if |s| == 1 || s[1] == '\n' then 0
    else (var n := StringEnd(s[2..]); if n == 0 then 0 else n + 2)
  }

  /** The longest run of characters that are neither space nor punctuation. */
  function RunEnd(s: string): (n: nat)
    ensures n <= |s|
    ensures s != "" && !IsSpace(s[0]) && !IsPunct(s[0]) ==> n > 0
  {
    if s == "" || IsSpace(s[0]) || IsPunct(s[0]) then 0 else 1 + RunEnd(s[1..])
  }

  /** The length of the token at the front: a string, a run, or one punctuation mark; none at white space. */
  function Front(s: string): (n: nat)
    ensures n <= |s|
  {
    if s == "" then 0
    else if s[0] == '"' && StringEnd(s[1..]) > 0 then 1 + StringEnd(s[1..])
    else if RunEnd(s) > 0 then RunEnd(s)
    else if IsPunct(s[0]) then 1
    else 0
  }

  function Tokenize(s: string): seq<string> {
    if s == "" then []
    else if Front(s) == 0 then Tokenize(s[1..])
    else [s[..Front(s)]] + Tokenize(s[Front(s)..])
  }

  /** A string, number or name token: one that is cut again whole, whatever stop follows. */
  predicate IsAtom(t: string) {
    || (t != "" && t[0] == '"' && StringEnd(t[1..]) == |t| - 1 > 0)
    || (t != "" && t[0] != '"' && RunEnd(t) == |t|)
  }

  predicate Stops(s: string) {
    s == "" || IsSpace(s[0]) || IsPunct(s[0])
  }

  // ---------- Values and the writer ----------

  /** A value with its atoms written out; a curly group has one key for each item. */
  datatype Json = Atom(token: string) | Group(curly: bool, keys: seq<string>, items: seq<Json>)

  predicate WellFormed(v: Json) {
    match v
    case Atom(token) => IsAtom(token)
    case Group(curly, keys, items) =>
      && |keys| == (if curly then |items| else 0)
      && (forall k :: 0 <= k < |keys| ==> IsAtom(keys[k]))
      && (forall k :: 0 <= k < |items| ==> WellFormed(items[k]))
  }

  type Value = v: Json | WellFormed(v) witness Atom("0")

  function Opening(curly: bool): string { if curly then "{" else "[" }

  function Closing(curly: bool): string { if curly then "}" else "]" }

  function Indent(depth: int): string { if depth <= 0 then "" else "    " + Indent(depth - 1) }

  function Encode(v: Value, depth: nat): string
    decreases v, if v.Group? then |v.items| + 1 else 0
  {
    match v
    case Atom(token) => token
    case Group(curly, _, items) =>
      if items == [] then Opening(curly) + Closing(curly)
      else
        Opening(curly) + "\n" + Indent(depth + 1) + EncodeItems(v, 0, depth + 1) + "\n" + Indent(depth) + Closing(curly)
  }

  /** The items from `k` on. */
  function EncodeItems(v: Value, k: nat, depth: nat): string
    requires v.Group? && k < |v.items|
    decreases v, |v.items| - k
  {
    KeyText(v, k) + (Encode(v.items[k], depth) + MoreText(v, k, depth))
  }

  function KeyText(v: Value, k: nat): string
    requires v.Group? && k < |v.items|
  {
    if v.curly then v.keys[k] + ": " else ""
  }

  function MoreText(v: Value, k: nat, depth: nat): string
    requires v.Group? && k < |v.items|
    decreases v, |v.items| - k, 0
  {
    if k + 1 < |v.items| then ",\n" + Indent(depth) + EncodeItems(v, k + 1, depth) else ""
  }

  function JsonBytes(v: Value): string { Encode(v, 0) + "\n" }

  function Tokens(v: Value): (ts: seq<string>)
    ensures |ts| > 0
    decreases v, if v.Group? then |v.items| + 1 else 0
  {
    match v
    case Atom(token) => [token]
    case Group(curly, _, items) => [Opening(curly)] + (if items == [] then [] else ItemTokens(v, 0)) + [Closing(curly)]
  }

  function ItemTokens(v: Value, k: nat): (ts: seq<string>)
    requires v.Group? && k < |v.items|
    ensures |ts| > 0
    decreases v, |v.items| - k
  {
    KeyTokens(v, k) + (Tokens(v.items[k]) + MoreTokens(v, k))
  }

  function KeyTokens(v: Value, k: nat): seq<string>
    requires v.Group? && k < |v.items|
  {
    if v.curly then [v.keys[k], ":"] else []
  }

  function MoreTokens(v: Value, k: nat): seq<string>
    requires v.Group? && k < |v.items|
    decreases v, |v.items| - k, 0
  {
    if k + 1 < |v.items| then [","] + ItemTokens(v, k + 1) else []
  }

  // ---------- Reading the tokens of what was written ----------

  lemma {:induction false} StringEndStays(s: string, rest: string)
    requires StringEnd(s) > 0
    ensures StringEnd(s + rest) == StringEnd(s)
    decreases |s|
  {
    if s[0] == '"' {
    } else if s[0] != '\\' {
      assert (s + rest)[1..] == s[1..] + rest;
      StringEndStays(s[1..], rest);
    } else {
      assert (s + rest)[2..] == s[2..] + rest;
      StringEndStays(s[2..], rest);
    }
  }

  lemma {:induction false} RunEndStays(s: string, rest: string)
    requires RunEnd(s) == |s| && Stops(rest)
    ensures RunEnd(s + rest) == |s|
    decreases |s|
  {
    if s == "" {
      assert s + rest == rest;
    } else {
      assert (s + rest)[1..] == s[1..] + rest;
      RunEndStays(s[1..], rest);
    }
  }

  lemma AtomCut(t: string, rest: string)
    requires IsAtom(t) && Stops(rest)
    ensures Tokenize(t + rest) == [t] + Tokenize(rest)
  {
    if t[0] == '"' {
      assert (t + rest)[1..] == t[1..] + rest;
      StringEndStays(t[1..], rest);
    } else {
      RunEndStays(t, rest);
    }
    assert (t + rest)[..|t|] == t && (t + rest)[|t|..] == rest;
  }

  lemma PunctCut(c: char, rest: string)
    requires IsPunct(c)
    ensures Tokenize([c] + rest) == [[c]] + Tokenize(rest)
  {
    var s := [c] + rest;
    assert s[..1] == [c] && s[1..] == rest;
    assert RunEnd(s) == 0;
  }

  lemma {:induction false} SpaceCut(space: string, rest: string)
    requires forall k :: 0 <= k < |space| ==> IsSpace(space[k])
    ensures Tokenize(space + rest) == Tokenize(rest)
    decreases |space|
  {
    if space == "" {
      assert space + rest == rest;
    } else {
      assert (space + rest)[1..] == space[1..] + rest;
      SpaceCut(space[1..], rest);
    }
  }

  lemma {:induction false} IndentIsSpace(depth: int)
    ensures forall k :: 0 <= k < |Indent(depth)| ==> IsSpace(Indent(depth)[k])
    decreases depth
  {
    if depth > 0 {
      IndentIsSpace(depth - 1);
    }
  }

  /** Four blanks for each level. */
  lemma {:induction false} IndentIsFour(depth: nat)
    ensures |Indent(depth)| == 4 * depth && forall k :: 0 <= k < |Indent(depth)| ==> Indent(depth)[k] == ' '
    decreases depth
  {
    if depth > 0 {
      IndentIsFour(depth - 1);
    }
  }

  lemma NewLineCut(depth: int, rest: string)
    ensures Tokenize("\n" + Indent(depth) + rest) == Tokenize(rest) && Stops("\n" + Indent(depth) + rest)
  {
    IndentIsSpace(depth);
    SpaceCut("\n" + Indent(depth), rest);
  }

  /** Cutting what was written gives the tokens back, before any stop. */
  lemma {:induction false} CutEncoded(v: Value, depth: nat, rest: string)
    requires Stops(rest)
    ensures Tokenize(Encode(v, depth) + rest) == Tokens(v) + Tokenize(rest)
    decreases v, if v.Group? then |v.items| + 1 else 0, 1
  {
    hide Tokenize, IsAtom, Indent;
    match v {
      case Atom(token) => AtomCut(token, rest);
      case Group(curly, _, items) =>
        var close := Closing(curly) + rest;
        PunctCut(Closing(curly)[0], rest);
        if items == [] {
          PunctCut(Opening(curly)[0], close);
          assert Encode(v, depth) + rest == Opening(curly) + close;
          assert Tokens(v) + Tokenize(rest) == [Opening(curly)] + ([Closing(curly)] + Tokenize(rest));
        } else {
          CutGroup(v, depth, rest);
        }
    }
  }

  lemma {:induction false} CutGroup(v: Value, depth: nat, rest: string)
    requires v.Group? && v.items != [] && Stops(rest)
    ensures Tokenize(Encode(v, depth) + rest) == Tokens(v) + Tokenize(rest)
    decreases v, |v.items| + 1, 0
  {
    hide Tokenize, IsAtom, Indent, Stops, EncodeItems, ItemTokens, WellFormed;
    var open, close := Opening(v.curly), Closing(v.curly);
    var inner := EncodeItems(v, 0, depth + 1);
    var last := "\n" + Indent(depth) + (close + rest);
    PunctCut(close[0], rest);
    NewLineCut(depth, close + rest);
    CutItems(v, 0, depth + 1, last);
    NewLineCut(depth + 1, inner + last);
    PunctCut(open[0], "\n" + Indent(depth + 1) + (inner + last));
    hide Opening, Closing;
    assert Encode(v, depth) + rest == open + ("\n" + Indent(depth + 1) + (inner + last));
    assert Tokens(v) + Tokenize(rest) == [open] + (ItemTokens(v, 0) + ([close] + Tokenize(rest)));
  }

  lemma {:induction false} CutItems(v: Value, k: nat, depth: nat, rest: string)
    requires v.Group? && k < |v.items| && Stops(rest)
    ensures Tokenize(EncodeItems(v, k, depth) + rest) == ItemTokens(v, k) + Tokenize(rest)
    decreases v, |v.items| - k
  {
    hide Tokenize, IsAtom, Indent, Encode, Tokens, Stops, KeyText, KeyTokens, MoreText, MoreTokens;
    var later := MoreText(v, k, depth) + rest;
    var item := Encode(v.items[k], depth) + later;
    CutMore(v, k, depth, rest);
    CutEncoded(v.items[k], depth, later);
    CutKey(v, k, item);
    assert EncodeItems(v, k, depth) + rest == KeyText(v, k) + item;
    assert ItemTokens(v, k) + Tokenize(rest) ==
           KeyTokens(v, k) + (Tokens(v.items[k]) + (MoreTokens(v, k) + Tokenize(rest)));
  }

  lemma CutKey(v: Value, k: nat, text: string)
    requires v.Group? && k < |v.items|
    ensures Tokenize(KeyText(v, k) + text) == KeyTokens(v, k) + Tokenize(text)
  {
    hide Tokenize, IsAtom;
    if v.curly {
      SpaceCut(" ", text);
      PunctCut(':', " " + text);
      AtomCut(v.keys[k], ":" + (" " + text));
      assert KeyText(v, k) + text == v.keys[k] + (":" + (" " + text));
      assert KeyTokens(v, k) + Tokenize(text) == [v.keys[k]] + ([":"] + Tokenize(text));
    } else {
      assert "" + text == text;
    }
  }

  lemma {:induction false} CutMore(v: Value, k: nat, depth: nat, rest: string)
    requires v.Group? && k < |v.items| && Stops(rest)
    ensures Tokenize(MoreText(v, k, depth) + rest) == MoreTokens(v, k) + Tokenize(rest)
    ensures Stops(MoreText(v, k, depth) + rest)
    decreases v, |v.items| - k, 0
  {
    hide Tokenize, IsAtom, Indent, EncodeItems, ItemTokens, WellFormed;
    if k + 1 < |v.items| {
      var tail := EncodeItems(v, k + 1, depth) + rest;
      CutItems(v, k + 1, depth, rest);
      NewLineCut(depth, tail);
      PunctCut(',', "\n" + Indent(depth) + tail);
      assert MoreText(v, k, depth) + rest == "," + ("\n" + Indent(depth) + tail);
      assert MoreTokens(v, k) + Tokenize(rest) == [","] + (ItemTokens(v, k + 1) + Tokenize(rest));
    } else {
      assert "" + rest == rest;
    }
  }

  // ---------- The formatter ----------

  /** The text laid out for the tokens from `i` on, and the depth reached at the end. */
  datatype Layout = Layout(text: string, depth: int)

  function Before(text: string, l: Layout): Layout { l.(text := text + l.text) }

  function Opens(t: string): bool { t == "{" || t == "[" }

  function Closes(t: string): bool { t == "}" || t == "]" }

  /** The piece written for token `i` at the given depth, and the depth after it. */
  function Piece(tokens: seq<string>, i: nat, depth: int): Layout
    requires i < |tokens|
  {
    var token := tokens[i];
    if Opens(token) then
      if i + 1 < |tokens| && Closes(tokens[i + 1]) then Layout(token, depth)
      else Layout(token + "\n" + Indent(depth + 1), depth + 1)
    else if Closes(token) then
      if i > 0 && Opens(tokens[i - 1]) then Layout(token, depth)
      else Layout("\n" + Indent(depth - 1) + token, depth - 1)
    else if token == "," then Layout(",\n" + Indent(depth), depth)
    else if token == ":" then Layout(": ", depth)
    else Layout(token, depth)
  }

  function LayOut(tokens: seq<string>, i: nat, depth: int): Layout
    requires i <= |tokens|
    decreases |tokens| - i
  {
    if i == |tokens| then Layout("", depth)
    else var p := Piece(tokens, i, depth); Before(p.text, LayOut(tokens, i + 1, p.depth))
  }

  function Format(text: string): string { LayOut(Tokenize(text), 0, 0).text + "\n" }

  /** `format_json`; the strict reading of a text before and after stays a parameter. */
  method FormatJson(text: string, strict: string -> bool) returns (r: Option<string>, ghost end: int)
    ensures r == if strict(text) && strict(Format(text)) then Some(Format(text)) else None
    ensures strict(text) ==> end == LayOut(Tokenize(text), 0, 0).depth
  {
    hide Tokenize, Piece;
    end := 0;
    if !strict(text) {
      return None, end;
    }
    var tokens, index := Tokenize(text), 0;
    var result, depth := "", 0;
    while index < |tokens|
      invariant 0 <= index <= |tokens|
      invariant LayOut(tokens, 0, 0) == Before(result, LayOut(tokens, index, depth))
    {
      var piece := Piece(tokens, index, depth);
      result := result + piece.text;
      depth := piece.depth;
      index := index + 1;
    }
    assert LayOut(tokens, 0, 0) == Layout(result, depth);
    result, end := result + "\n", depth;
    return if strict(result) then Some(result) else None, end;
  }

  lemma {:induction false} FirstAndLast(v: Value)
    ensures !Closes(Tokens(v)[0]) && !Opens(Tokens(v)[|Tokens(v)| - 1])
    ensures v.Atom? ==> !Opens(v.token) && !Closes(v.token) && v.token != "," && v.token != ":"
  {
    if v.Atom? {
      AtomPlain(v.token);
    }
  }

  lemma AtomPlain(t: string)
    requires IsAtom(t)
    ensures !Opens(t) && !Closes(t) && t != "," && t != ":"
  {
  }

  predicate Holds(tokens: seq<string>, i: nat, part: seq<string>) {
    i + |part| <= |tokens| && tokens[i..i + |part|] == part
  }

  lemma Inside(tokens: seq<string>, i: nat, part: seq<string>, first: seq<string>, rest: seq<string>)
    requires Holds(tokens, i, part) && part == first + rest
    ensures Holds(tokens, i, first) && Holds(tokens, i + |first|, rest)
    ensures forall k :: 0 <= k < |first| ==> tokens[i + k] == first[k]
  {
    assert tokens[i..i + |part|][..|first|] == first && tokens[i..i + |part|][|first|..] == rest;
    forall k | 0 <= k < |first|
      ensures tokens[i + k] == first[k]
    {
      assert tokens[i + k] == tokens[i..i + |part|][k];
    }
  }

  /** Laying out the tokens of a value writes what the writer writes, and comes back to the same depth. */
  lemma {:induction false} LayValue(tokens: seq<string>, i: nat, v: Value, depth: nat)
    requires Holds(tokens, i, Tokens(v))
    ensures LayOut(tokens, i, depth) == Before(Encode(v, depth), LayOut(tokens, i + |Tokens(v)|, depth))
    decreases v, if v.Group? then |v.items| + 1 else 0, 1
  {
    hide IsAtom, Indent;
    FirstAndLast(v);
    match v {
      case Atom(token) =>
        Inside(tokens, i, Tokens(v), [token], []);
      case Group(curly, _, items) =>
        if items == [] {
          Inside(tokens, i, Tokens(v), [Opening(curly), Closing(curly)], []);
          assert tokens[i] == Opening(curly) && tokens[i + 1] == Closing(curly);
          var later := LayOut(tokens, i + 2, depth);
          assert LayOut(tokens, i + 1, depth) == Before(Closing(curly), later);
          assert LayOut(tokens, i, depth) == Before(Opening(curly), LayOut(tokens, i + 1, depth));
        } else {
          LayGroup(tokens, i, v, depth);
        }
    }
  }

  lemma LayStep(tokens: seq<string>, i: nat, depth: int)
    requires i < |tokens|
    ensures var p := Piece(tokens, i, depth); LayOut(tokens, i, depth) == Before(p.text, LayOut(tokens, i + 1, p.depth))
  {
  }

  lemma LayOpen(tokens: seq<string>, i: nat, curly: bool, depth: nat)
    requires i + 1 < |tokens| && tokens[i] == Opening(curly) && !Closes(tokens[i + 1])
    ensures LayOut(tokens, i, depth) ==
            Before(Opening(curly) + "\n" + Indent(depth + 1), LayOut(tokens, i + 1, depth + 1))
  {
  }

  lemma LayClose(tokens: seq<string>, j: nat, curly: bool, depth: nat)
    requires 0 < j < |tokens| && tokens[j] == Closing(curly) && !Opens(tokens[j - 1])
    ensures LayOut(tokens, j, depth + 1) == Before("\n" + Indent(depth) + Closing(curly), LayOut(tokens, j + 1, depth))
  {
  }

  lemma BeforeTwice(a: string, b: string, l: Layout)
    ensures Before(a, Before(b, l)) == Before(a + b, l)
  {
    assert a + (b + l.text) == a + b + l.text;
  }

  lemma {:induction false} LayGroup(tokens: seq<string>, i: nat, v: Value, depth: nat)
    requires v.Group? && v.items != [] && Holds(tokens, i, Tokens(v))
    ensures LayOut(tokens, i, depth) == Before(Encode(v, depth), LayOut(tokens, i + |Tokens(v)|, depth))
    decreases v, |v.items| + 1, 0
  {
    hide IsAtom, Indent, LayOut, Holds, Before, Opens, Closes, Piece, Encode, EncodeItems, Tokens, ItemTokens;
    hide Opening, Closing, WellFormed;
    var open, close, inner := Opening(v.curly), Closing(v.curly), ItemTokens(v, 0);
    var j := i + 1 + |inner|;
    Spelled(v, depth);
    Inside(tokens, i, Tokens(v), [open], inner + [close]);
    Inside(tokens, i + 1, inner + [close], inner, [close]);
    Inside(tokens, j, [close], [close], []);
    Bounded(tokens, j, [close]);
    assert tokens[i + 0] == [open][0] && tokens[j + 0] == [close][0];
    assert tokens[i + 1 + 0] == inner[0] && tokens[i + 1 + (|inner| - 1)] == inner[|inner| - 1];
    ItemEnds(v, 0);
    LayItems(tokens, i + 1, v, 0, depth + 1);
    LayOpen(tokens, i, v.curly, depth);
    LayClose(tokens, j, v.curly, depth);
    var first, items := open + "\n" + Indent(depth + 1), EncodeItems(v, 0, depth + 1);
    var last := "\n" + Indent(depth) + close;
    BeforeTwice(items, last, LayOut(tokens, j + 1, depth));
    BeforeTwice(first, items + last, LayOut(tokens, j + 1, depth));
  }

  lemma Spelled(v: Value, depth: nat)
    requires v.Group? && v.items != []
    ensures Tokens(v) == [Opening(v.curly)] + (ItemTokens(v, 0) + [Closing(v.curly)])
    ensures Encode(v, depth) ==
            Opening(v.curly) + "\n" + Indent(depth + 1) +
                (EncodeItems(v, 0, depth + 1) + ("\n" + Indent(depth) + Closing(v.curly)))
  {
    hide Opening, Closing, Indent, EncodeItems, ItemTokens, WellFormed;
  }

  lemma Bounded(tokens: seq<string>, i: nat, part: seq<string>)
    requires Holds(tokens, i, part)
    ensures i + |part| <= |tokens|
  {
  }

  lemma {:induction false} ItemEnds(v: Value, k: nat)
    requires v.Group? && k < |v.items|
    ensures !Closes(ItemTokens(v, k)[0]) && !Opens(ItemTokens(v, k)[|ItemTokens(v, k)| - 1])
    decreases |v.items| - k
  {
    hide IsAtom;
    FirstAndLast(v.items[k]);
    if v.curly {
      AtomPlain(v.keys[k]);
    }
    if k + 1 < |v.items| {
      ItemEnds(v, k + 1);
    }
  }

  /** Laying out the items of a group from `k` on. */
  lemma {:induction false} LayItems(tokens: seq<string>, i: nat, v: Value, k: nat, depth: nat)
    requires v.Group? && k < |v.items| && Holds(tokens, i, ItemTokens(v, k))
    ensures i + |ItemTokens(v, k)| <= |tokens|
    ensures LayOut(tokens, i, depth) == Before(EncodeItems(v, k, depth), LayOut(tokens, i + |ItemTokens(v, k)|, depth))
    decreases v, |v.items| - k, 1
  {
    hide IsAtom, Indent, Encode, Tokens, LayOut, Holds, Before, KeyTokens, KeyText, MoreTokens, MoreText;
    var key, item, more := KeyTokens(v, k), Tokens(v.items[k]), MoreTokens(v, k);
    var a := i + |key|;
    var b := a + |item|;
    Inside(tokens, i, ItemTokens(v, k), key, item + more);
    Inside(tokens, a, item + more, item, more);
    Bounded(tokens, b, more);
    LayKey(tokens, i, v, k, depth);
    LayValue(tokens, a, v.items[k], depth);
    LayMore(tokens, b, v, k, depth);
    var later := LayOut(tokens, b + |more|, depth);
    BeforeTwice(Encode(v.items[k], depth), MoreText(v, k, depth), later);
    BeforeTwice(KeyText(v, k), Encode(v.items[k], depth) + MoreText(v, k, depth), later);
  }

  lemma {:induction false} LayMore(tokens: seq<string>, b: nat, v: Value, k: nat, depth: nat)
    requires v.Group? && k < |v.items| && Holds(tokens, b, MoreTokens(v, k))
    ensures b + |MoreTokens(v, k)| <= |tokens|
    ensures LayOut(tokens, b, depth) == Before(MoreText(v, k, depth), LayOut(tokens, b + |MoreTokens(v, k)|, depth))
    decreases v, |v.items| - k, 0
  {
    hide IsAtom, Indent, EncodeItems, ItemTokens, LayOut, Holds, Before, WellFormed;
    Bounded(tokens, b, MoreTokens(v, k));
    if k + 1 < |v.items| {
      var rest := ItemTokens(v, k + 1);
      Inside(tokens, b, [","] + rest, [","], rest);
      assert tokens[b + 0] == ",";
      LayItems(tokens, b + 1, v, k + 1, depth);
      LayStep(tokens, b, depth);
      BeforeTwice(",\n" + Indent(depth), EncodeItems(v, k + 1, depth), LayOut(tokens, b + 1 + |rest|, depth));
    } else {
      BeforeNothing(LayOut(tokens, b, depth));
    }
  }

  lemma BeforeNothing(l: Layout)
    ensures Before("", l) == l
  {
    assert "" + l.text == l.text;
  }

  lemma LayKey(tokens: seq<string>, i: nat, v: Value, k: nat, depth: nat)
    requires v.Group? && k < |v.items| && Holds(tokens, i, KeyTokens(v, k))
    ensures i + |KeyTokens(v, k)| <= |tokens|
    ensures LayOut(tokens, i, depth) == Before(KeyText(v, k), LayOut(tokens, i + |KeyTokens(v, k)|, depth))
  {
    hide IsAtom, Indent, LayOut, Before, Holds;
    Bounded(tokens, i, KeyTokens(v, k));
    if v.curly {
      var key := v.keys[k];
      AtomPlain(key);
      ghost var pair := [key, ":"];
      Inside(tokens, i, pair, pair, []);
      assert tokens[i + 0] == pair[0] && tokens[i + 1] == pair[1];
      LayStep(tokens, i, depth);
      LayStep(tokens, i + 1, depth);
      BeforeTwice(key, ": ", LayOut(tokens, i + 2, depth));
    } else {
      BeforeNothing(LayOut(tokens, i, depth));
    }
  }

  // ---------- Main results ----------

  /** A text whose tokens are those of a value. */
  ghost predicate IsJson(text: string, v: Value) {
    Tokenize(text) == Tokens(v)
  }

  /** Formatting a text of a value gives exactly what the writer writes for it, ends at depth 0 and keeps the tokens. */
  lemma FormatIsWriter(text: string, v: Value)
    requires IsJson(text, v)
    ensures Format(text) == JsonBytes(v) && LayOut(Tokenize(text), 0, 0).depth == 0
    ensures Tokenize(Format(text)) == Tokenize(text)
  {
    hide Tokenize, Encode, LayOut, Tokens;
    var ts := Tokens(v);
    assert ts[0..0 + |ts|] == ts;
    LayValue(ts, 0, v, 0);
    LayNothing(ts, 0);
    assert Encode(v, 0) + "" == Encode(v, 0);
    JsonCut(v);
  }

  /** When only the tokens of a text decide whether it is read, the second reading of `format_json` never fails. */
  lemma FormattedIsRead(text: string, v: Value, strict: string -> bool)
    requires IsJson(text, v) && strict(text)
    requires forall other :: Tokenize(other) == Tokenize(text) ==> strict(other)
    ensures strict(Format(text))
  {
    hide Format, Tokenize, IsJson;
    FormatIsWriter(text, v);
  }

  lemma LayNothing(tokens: seq<string>, depth: int)
    ensures LayOut(tokens, |tokens|, depth) == Layout("", depth)
  {
  }

  lemma JsonCut(v: Value)
    ensures IsJson(JsonBytes(v), v)
  {
    hide Encode, Tokens;
    CutEncoded(v, 0, "\n");
    assert Tokenize("\n") == [] by {
      SpaceCut("\n", "");
      assert "\n" + "" == "\n";
    }
    assert Tokens(v) + [] == Tokens(v);
  }

  /** What the writer writes is a fixed point of the formatter, and formatting twice is formatting once. */
  lemma FormatSettles(text: string, v: Value)
    requires IsJson(text, v)
    ensures Format(JsonBytes(v)) == JsonBytes(v) && Format(Format(text)) == Format(text)
  {
    hide Format, JsonBytes, IsJson, Tokenize;
    FormatIsWriter(text, v);
    JsonCut(v);
    FormatIsWriter(JsonBytes(v), v);
  }

  // ---------- Tokens and blanks, by their characters ----------

  /** The characters between the quotes of a string token. */
  predicate IsBody(s: string)
    decreases |s|
  {
    || s == ""
    || (s[0] as int != 34 && s[0] as int != 92 && IsBody(s[1..]))
    || (s[0] as int == 92 && |s| > 1 && s[1] as int != 10 && IsBody(s[2..]))
  }

  predicate IsStringToken(t: string) {
    |t| >= 2 && t[0] == '"' && t[|t| - 1] == '"' && IsBody(t[1..|t| - 1])
  }

  /** The four blanks. */
  predicate IsBlank(c: char) { c as int in {9, 10, 13, 32} }

  /** The six marks: comma, colon, brackets, braces. */
  predicate IsMark(c: char) { c as int in {44, 58, 91, 93, 123, 125} }

  predicate IsRunToken(t: string) {
    t != "" && t[0] != '"' && forall k :: 0 <= k < |t| ==> !IsBlank(t[k]) && !IsMark(t[k])
  }

  lemma BlankIs(c: char)
    ensures (IsSpace(c) <==> IsBlank(c)) && (IsPunct(c) <==> IsMark(c))
  {
  }

  lemma {:induction false} BodyCloses(s: string)
    ensures StringEnd(s) == |s| > 0 <==> s != "" && s[|s| - 1] == '"' && IsBody(s[..|s| - 1])
    decreases |s|
  {
    if |s| == 1 {
      assert s[..0] == "";
    } else if |s| > 1 {
      var b := s[..|s| - 1];
      BodyCloses(s[1..]);
      assert s[1..][..|s| - 2] == b[1..];
      if |s| > 2 {
        BodyCloses(s[2..]);
        assert s[2..][..|s| - 3] == b[2..];
      }
    }
  }

  lemma {:induction false} WholeRun(t: string)
    ensures RunEnd(t) == |t| <==> forall k :: 0 <= k < |t| ==> !IsBlank(t[k]) && !IsMark(t[k])
    decreases |t|
  {
    hide IsBlank, IsMark, IsSpace, IsPunct;
    if t != "" {
      BlankIs(t[0]);
      WholeRun(t[1..]);
    }
  }

  /** The atoms are the string tokens and the runs without blanks and marks. */
  lemma AtomIs(t: string)
    ensures IsAtom(t) <==> IsStringToken(t) || IsRunToken(t)
  {
    hide IsBlank, IsMark;
    WholeRun(t);
    if t != "" {
      BodyCloses(t[1..]);
      if |t| > 1 {
        assert t[1..][..|t| - 2] == t[1..|t| - 1];
      }
    }
  }

  /** Tokens with texts around them. */
  function Spread(ts: seq<string>, gaps: seq<string>): string
    requires |gaps| == |ts| + 1
  {
    if ts == [] then gaps[0] else gaps[0] + (ts[0] + Spread(ts[1..], gaps[1..]))
  }

  predicate IsMarkToken(t: string) { |t| == 1 && IsMark(t[0]) }

  /** Atoms and marks, no two atoms side by side. */
  predicate Alternates(ts: seq<string>) {
    && (forall k :: 0 <= k < |ts| ==> IsMarkToken(ts[k]) || IsAtom(ts[k]))
    && (forall k :: 0 <= k < |ts| - 1 ==> IsMarkToken(ts[k]) || IsMarkToken(ts[k + 1]))
  }

  predicate Blank(gap: string) { forall k :: 0 <= k < |gap| ==> IsBlank(gap[k]) }

  lemma GapCut(gap: string, rest: string)
    requires Blank(gap)
    ensures Tokenize(gap + rest) == Tokenize(rest)
    ensures gap != "" ==> Stops(gap + rest)
  {
    forall k | 0 <= k < |gap|
      ensures IsSpace(gap[k])
    {
      BlankIs(gap[k]);
    }
    SpaceCut(gap, rest);
  }

  lemma SpreadStops(ts: seq<string>, gaps: seq<string>)
    requires |gaps| == |ts| + 1 && Blank(gaps[0]) && (ts != [] ==> IsMarkToken(ts[0]))
    ensures Stops(Spread(ts, gaps))
  {
    GapCut(gaps[0], if ts == [] then "" else ts[0] + Spread(ts[1..], gaps[1..]));
    if ts == [] {
      assert gaps[0] + "" == gaps[0];
    } else if gaps[0] == "" {
      BlankIs(ts[0][0]);
      assert "" + (ts[0] + Spread(ts[1..], gaps[1..])) == ts[0] + Spread(ts[1..], gaps[1..]);
    }
  }

  /** Cutting gives the tokens back, whatever blanks stand around them. */
  lemma {:induction false} SpreadCut(ts: seq<string>, gaps: seq<string>)
    requires |gaps| == |ts| + 1 && Alternates(ts) && forall k :: 0 <= k < |gaps| ==> Blank(gaps[k])
    ensures Tokenize(Spread(ts, gaps)) == ts
    decreases |ts|
  {
    hide Tokenize, IsAtom, Blank, IsMarkToken;
    if ts == [] {
      GapCut(gaps[0], "");
      assert gaps[0] + "" == gaps[0];
      assert Tokenize("") == [] by { NoTokens(); }
    } else {
      var rest := Spread(ts[1..], gaps[1..]);
      SpreadCut(ts[1..], gaps[1..]);
      GapCut(gaps[0], ts[0] + rest);
      if IsMarkToken(ts[0]) {
        MarkCut(ts[0], rest);
      } else {
        SpreadStops(ts[1..], gaps[1..]);
        AtomCut(ts[0], rest);
      }
      assert [ts[0]] + ts[1..] == ts;
    }
  }

  lemma NoTokens()
    ensures Tokenize("") == []
  {
  }

  lemma MarkCut(t: string, rest: string)
    requires IsMarkToken(t)
    ensures Tokenize(t + rest) == [t] + Tokenize(rest)
  {
    hide Tokenize;
    BlankIs(t[0]);
    PunctCut(t[0], rest);
    assert [t[0]] == t;
  }

  lemma AlternatesJoin(a: seq<string>, b: seq<string>)
    requires Alternates(a) && Alternates(b) && a != [] && b != []
    requires IsMarkToken(a[|a| - 1]) || IsMarkToken(b[0])
    ensures Alternates(a + b)
  {
    hide IsAtom, IsMarkToken;
    var all := a + b;
    forall k | 0 <= k < |all| - 1
      ensures IsMarkToken(all[k]) || IsMarkToken(all[k + 1])
    {
      if k >= |a| {
        assert all[k] == b[k - |a|] && all[k + 1] == b[k - |a| + 1];
      }
    }
  }

  lemma OneAlternates(t: string)
    requires IsMarkToken(t) || IsAtom(t)
    ensures Alternates([t])
  {
  }

  lemma MarksAlternate()
    ensures Alternates(["{"]) && Alternates(["}"]) && Alternates(["["]) && Alternates(["]"]) && Alternates([","])
    ensures Alternates([":"]) && Alternates(["{", "}"]) && Alternates(["[", "]"])
  {
    hide IsAtom;
    assert IsMarkToken("{") && IsMarkToken("}") && IsMarkToken("[") && IsMarkToken("]");
    assert IsMarkToken(",") && IsMarkToken(":");
  }

  /** The tokens of a value alternate. */
  lemma {:induction false} TokensAlternate(v: Value)
    ensures Alternates(Tokens(v))
    decreases v, if v.Group? then |v.items| + 1 else 0
  {
    MarksAlternate();
    hide IsAtom, Alternates;
    match v {
      case Atom(token) => OneAlternates(token);
      case Group(curly, _, items) =>
        if items == [] {
          assert [Opening(curly)] + [] + [Closing(curly)] == [Opening(curly), Closing(curly)];
        } else {
          ItemsAlternate(v, 0);
          var inner := ItemTokens(v, 0);
          AlternatesJoin([Opening(curly)], inner);
          AlternatesJoin([Opening(curly)] + inner, [Closing(curly)]);
        }
    }
  }

  lemma {:induction false} ItemsAlternate(v: Value, k: nat)
    requires v.Group? && k < |v.items|
    ensures Alternates(ItemTokens(v, k))
    decreases v, |v.items| - k
  {
    MarksAlternate();
    hide IsAtom, Alternates;
    var own, more := Tokens(v.items[k]), MoreTokens(v, k);
    TokensAlternate(v.items[k]);
    if k + 1 < |v.items| {
      ItemsAlternate(v, k + 1);
      AlternatesJoin([","], ItemTokens(v, k + 1));
      AlternatesJoin(own, more);
    } else {
      assert own + [] == own;
    }
    if v.curly {
      OneAlternates(v.keys[k]);
      AlternatesJoin([v.keys[k]], [":"]);
      assert [v.keys[k]] + [":"] == [v.keys[k], ":"];
      AlternatesJoin([v.keys[k], ":"], own + more);
    } else {
      assert [] + (own + more) == own + more;
    }
  }

  /** However the tokens of a value are spread with blanks, formatting writes what the writer writes. */
  lemma BlanksDoNotMatter(v: Value, gaps: seq<string>)
    requires |gaps| == |Tokens(v)| + 1 && forall k :: 0 <= k < |gaps| ==> Blank(gaps[k])
    ensures IsJson(Spread(Tokens(v), gaps), v) && Format(Spread(Tokens(v), gaps)) == JsonBytes(v)
  {
    hide Tokenize, Format, JsonBytes, Spread, Blank, Alternates;
    TokensAlternate(v);
    SpreadCut(Tokens(v), gaps);
    FormatIsWriter(Spread(Tokens(v), gaps), v);
  }
}
