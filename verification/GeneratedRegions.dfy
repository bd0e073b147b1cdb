/** `assemble`: replacing the regions between markers by generated bodies. */
module GeneratedRegions {
  import opened Wrappers
  import opened TextTools

  // ---------- Lines and markers ----------

  datatype Mark = Begin(selector: string) | End(selector: string)

  const BEGIN := "<!-- BEGIN GENERATED: "
  const END := "<!-- END GENERATED: "
  const CLOSE := " -->"

  /** The selector between the head and the close of a marker. */
  function Named(s: string, head: string): Option<string> {
    if |head| + |CLOSE| < |s| && head <= s && s[|s| - |CLOSE|..] == CLOSE && '\r' !in s[|head|..|s| - |CLOSE|]
    then Some(s[|head|..|s| - |CLOSE|]) else None
  }

  /** The marker that a whole line is, apart from blanks at its end. */
  function MarkOf(line: string): Option<Mark> {
    var s := StripRight(line, {' ', '\t'});
    if Named(s, BEGIN).Some? then Some(Begin(Named(s, BEGIN).value))
    else if Named(s, END).Some? then Some(End(Named(s, END).value))
    else None
  }

  /** The line is a marker with this word and selector, and blanks at its end. */
  ghost predicate IsMarker(line: string, word: string, selector: string) {
    && selector != "" && '\r' !in selector
    && exists blanks: string ::
         && line == "<!-- " + word + " GENERATED: " + selector + " -->" + blanks
         && forall k :: 0 <= k < |blanks| ==> blanks[k] == ' ' || blanks[k] == '\t'
  }

  lemma NamedIs(s: string, head: string, selector: string)
    ensures Named(s, head) == Some(selector) <==>
            s == head + selector + " -->" && selector != "" && '\r' !in selector
  {
    if s == head + selector + " -->" {
      assert s[|head|..|s| - 4] == selector && s[|s| - 4..] == " -->" && s[..|head|] == head;
    }
    if Named(s, head) == Some(selector) {
      assert s == s[..|head|] + s[|head|..|s| - 4] + s[|s| - 4..];
    }
  }

  lemma StripsTo(line: string, core: string)
    requires core != "" && core[|core| - 1] !in {' ', '\t'}
    ensures StripRight(line, {' ', '\t'}) == core <==>
            core <= line && forall k :: |core| <= k < |line| ==> line[k] in {' ', '\t'}
  {
    hide StripRight;
    var j := RightCuts(line, {' ', '\t'});
    if core <= line && forall k :: |core| <= k < |line| ==> line[k] in {' ', '\t'} {
      assert line[|core| - 1] == core[|core| - 1];
      assert j == |core|;
    }
  }

  lemma MarkerIs(line: string, word: string, selector: string)
    ensures IsMarker(line, word, selector) <==>
            && selector != "" && '\r' !in selector
            && StripRight(line, {' ', '\t'}) == "<!-- " + word + " GENERATED: " + selector + " -->"
  {
    hide StripRight;
    var core := "<!-- " + word + " GENERATED: " + selector + " -->";
    assert core[|core| - 1] == '>';
    StripsTo(line, core);
    if core <= line && forall k :: |core| <= k < |line| ==> line[k] in {' ', '\t'} {
      var blanks := line[|core|..];
      assert line == core + blanks;
      assert forall k :: 0 <= k < |blanks| ==> blanks[k] == line[|core| + k];
    }
    if IsMarker(line, word, selector) {
      var blanks :| line == core + blanks && forall k :: 0 <= k < |blanks| ==> blanks[k] == ' ' || blanks[k] == '\t';
      assert forall k :: |core| <= k < |line| ==> line[k] == blanks[k - |core|];
    }
  }

  /** A line begins or ends a region exactly when it is such a marker. */
  lemma MarkOfIs(line: string, selector: string)
    ensures MarkOf(line) == Some(Begin(selector)) <==> IsMarker(line, "BEGIN", selector)
    ensures MarkOf(line) == Some(End(selector)) <==> IsMarker(line, "END", selector)
  {
    hide StripRight, Named, IsMarker;
    var s := StripRight(line, {' ', '\t'});
    NamedIs(s, BEGIN, selector);
    NamedIs(s, END, selector);
    MarkerIs(line, "BEGIN", selector);
    MarkerIs(line, "END", selector);
    assert BEGIN == "<!-- " + "BEGIN" + " GENERATED: " && END == "<!-- " + "END" + " GENERATED: ";
    if Named(s, BEGIN).Some? {
      NamedIs(s, BEGIN, Named(s, BEGIN).value);
      assert Named(s, END).None? by { OneHead(s, Named(s, BEGIN).value); }
    }
  }

  lemma OneHead(s: string, selector: string)
    requires s == BEGIN + selector + " -->"
    ensures Named(s, END).None?
  {
    assert s[5] == 'B' && END[5] == 'E';
  }

  function FirstLine(text: string): string { text[..Find(text, '\n')] }

  /** What follows the first line and its break, if there is one. */
  function Rest(text: string): (rest: Option<string>)
    ensures rest.Some? ==> |rest.value| < |text|
  {
    if Find(text, '\n') == |text| then None else Some(text[Find(text, '\n') + 1..])
  }

  predicate OneLine(s: string) { '\n' !in s }

  /** Whole lines, none of them a marker. */
  predicate Clean(body: string) {
    body != "" ==> Rest(body).Some? && MarkOf(FirstLine(body)).None? && Clean(Rest(body).value)
  }

  // ---------- Assembling ----------

  type Bodies = map<string, string>

  function Before(head: string, tail: Result<string>): Result<string> {
    if tail.Err? then Err else Ok(head + tail.value)
  }

  /** The text that replaces `text`, which begins a line, inside the open region or outside of any. */
  function Assembled(text: string, bodies: Bodies, region: Option<string>, seen: set<string>): Result<string>
    requires region.Some? ==> region.value in bodies
    decreases |text|, 1
  {
    var line, rest := FirstLine(text), Rest(text);
    match MarkOf(line)
    case None =>
      if region.None? then Outside(line, rest, bodies, seen, |text|)
      else if rest.None? then Err
      else Assembled(rest.value, bodies, region, seen)
    case Some(Begin(selector)) =>
      if region.Some? || selector in seen || selector !in bodies || rest.None? then Err
      else Before(line, Assembled(rest.value, bodies, Some(selector), seen))
    case Some(End(selector)) =>
      if region != Some(selector) then Err
      else Outside("\n" + bodies[selector] + line, rest, bodies, seen + {selector}, |text|)
  }

  /** Goes on behind a line outside of the regions. */
  function Outside(head: string, rest: Option<string>, bodies: Bodies, seen: set<string>, bound: nat): Result<string>
    requires rest.Some? ==> |rest.value| < bound
    decreases bound, 0
  {
    if rest.Some? then Before(head + "\n", Assembled(rest.value, bodies, None, seen))
    else if seen == bodies.Keys then Ok(head)
    else Err
  }

  /** One line outside of the regions. */
  lemma OutsideLine(text: string, bodies: Bodies, seen: set<string>)
    ensures var line, rest, all := FirstLine(text), Rest(text), Assembled(text, bodies, None, seen);
            if MarkOf(line).None? then all == Outside(line, rest, bodies, seen, |text|)
            else
              var s := MarkOf(line).value.selector;
              if MarkOf(line).value.End? || s in seen || s !in bodies || rest.None? then all.Err?
              else all == Before(line, Assembled(rest.value, bodies, Some(s), seen))
  {
    hide MarkOf, FirstLine, Rest;
  }

  /** One line inside a region. */
  lemma InsideLine(text: string, bodies: Bodies, selector: string, seen: set<string>)
    requires selector in bodies
    ensures var line, rest, all := FirstLine(text), Rest(text), Assembled(text, bodies, Some(selector), seen);
            if MarkOf(line).None? then
              if rest.None? then all.Err? else all == Assembled(rest.value, bodies, Some(selector), seen)
            else if MarkOf(line) == Some(End(selector)) then
              all == Outside("\n" + bodies[selector] + line, rest, bodies, seen + {selector}, |text|)
            else all.Err?
  {
    hide MarkOf, FirstLine, Rest;
  }

  lemma OutsideIs(head: string, rest: Option<string>, bodies: Bodies, seen: set<string>, bound: nat)
    requires rest.Some? ==> |rest.value| < bound
    ensures Outside(head, rest, bodies, seen, bound) ==
            if rest.Some? then Before(head + "\n", Assembled(rest.value, bodies, None, seen))
            else if seen == bodies.Keys then Ok(head) else Err
  {
    hide Assembled;
  }

  lemma Assoc(a: string, b: string, c: string)
    ensures a + b + c == a + (b + c)
  {
  }

  /** `assemble`; the uniqueness of the identifiers in the result stays a parameter. */
  function Assemble(text: string, bodies: Bodies, distinct: string -> bool, check: bool): Result<string> {
    var result :- Assembled(text, bodies, None, {});
    if !distinct(result) || (check && result != text) then Err else Ok(result)
  }

  lemma BeforeTwice(a: string, b: string, tail: Result<string>)
    ensures Before(a, Before(b, tail)) == Before(a + b, tail) && Before("", tail) == tail
  {
    if tail.Ok? {
      assert a + (b + tail.value) == a + b + tail.value;
      assert "" + tail.value == tail.value;
    }
  }

  /** The text written up to `position`, of which the last part is still in `text`. */
  function Kept(parts: string, text: string, offset: nat, end: nat): string
    requires offset <= end <= |text|
  {
    parts + text[offset..end]
  }

  lemma KeptMore(parts: string, text: string, offset: nat, position: nat, end: nat)
    requires offset <= position <= end <= |text|
    ensures Kept(parts, text, offset, end) == Kept(parts, text, offset, position) + text[position..end]
    ensures Kept(parts, text, end, end) == parts
  {
    assert text[offset..end] == text[offset..position] + text[position..end];
  }

  /** The first line of what is left, and the place behind it. */
  lemma LineAt(text: string, position: nat)
    requires position <= |text|
    ensures var end := position + Find(text[position..], '\n');
            && end <= |text| && text[position..end] == FirstLine(text[position..])
            && Rest(text[position..]) == (if end == |text| then None else Some(text[end + 1..]))
            && (end < |text| ==> text[end..end + 1] == "\n")
  {
  }

  /** What is written so far, and what the rest of the text gives. */
  predicate Goes(text: string, bodies: Bodies, parts: string, offset: nat, end: nat, position: nat,
                 region: Option<string>, seen: set<string>)
    requires offset <= end <= |text| && position <= |text| && (region.Some? ==> region.value in bodies)
  {
    Assembled(text, bodies, None, {}) ==
        Before(Kept(parts, text, offset, end), Assembled(text[position..], bodies, region, seen))
  }

  lemma Started(text: string, bodies: Bodies)
    ensures Goes(text, bodies, "", 0, 0, 0, None, {})
  {
    assert text[0..] == text && Kept("", text, 0, 0) == "";
    BeforeTwice("", "", Assembled(text, bodies, None, {}));
  }

  /** A line that is no marker: kept outside of the regions, dropped inside. */
  lemma PlainGoes(text: string, bodies: Bodies, parts: string, offset: nat, start: nat, position: nat, end: nat,
                  region: Option<string>, seen: set<string>)
    requires offset <= start <= |text| && offset <= position <= |text| && (region.Some? ==> region.value in bodies)
    requires Goes(text, bodies, parts, offset, if region.Some? then start else position, position, region, seen)
    requires end == position + Find(text[position..], '\n') && MarkOf(text[position..end]).None?
    ensures end <= |text|
    ensures end < |text| ==>
            Goes(text, bodies, parts, offset, if region.Some? then start else end + 1, end + 1, region, seen)
    ensures end == |text| ==>
              (Assembled(text, bodies, None, {}) ==
               if region.Some? || seen != bodies.Keys then Err else Ok(Kept(parts, text, offset, |text|)))
  {
    hide MarkOf, Kept, FirstLine, Rest, Assembled, Outside, Before;
    LineAt(text, position);
    var here, line := text[position..], text[position..end];
    if region.Some? {
      InsideLine(here, bodies, region.value, seen);
      ErrStays(Kept(parts, text, offset, start));
    } else {
      OutsideLine(here, bodies, seen);
      OutsideIs(line, Rest(here), bodies, seen, |here|);
      KeptMore(parts, text, offset, position, end);
      var before := Kept(parts, text, offset, position);
      ErrStays(before);
      if end < |text| {
        KeptMore(parts, text, offset, end, end + 1);
        BeforeTwice(before, line + "\n", Assembled(text[end + 1..], bodies, None, seen));
        Assoc(before, line, "\n");
      }
    }
  }

  lemma ErrStays(head: string)
    ensures Before(head, Err) == Err && forall text :: Before(head, Ok(text)) == Ok(head + text)
  {
  }

  lemma BeginGoes(text: string, bodies: Bodies, parts: string, offset: nat, start: nat, position: nat, end: nat,
                  region: Option<string>, seen: set<string>, selector: string)
    requires offset <= start <= |text| && offset <= position <= |text| && (region.Some? ==> region.value in bodies)
    requires Goes(text, bodies, parts, offset, if region.Some? then start else position, position, region, seen)
    requires end == position + Find(text[position..], '\n') && MarkOf(text[position..end]) == Some(Begin(selector))
    ensures end <= |text|
    ensures region.Some? || selector in seen || selector !in bodies || end == |text| ==>
            Assembled(text, bodies, None, {}).Err?
    ensures region.None? && selector !in seen && selector in bodies && end < |text| ==>
              Goes(text, bodies, parts, offset, end, end + 1, Some(selector), seen)
  {
    hide MarkOf, Kept, FirstLine, Rest, Assembled, Outside, Before;
    LineAt(text, position);
    var here, line := text[position..], text[position..end];
    if region.Some? {
      InsideLine(here, bodies, region.value, seen);
      ErrStays(Kept(parts, text, offset, start));
    } else {
      OutsideLine(here, bodies, seen);
      ErrStays(Kept(parts, text, offset, position));
      if selector !in seen && selector in bodies && end < |text| {
        KeptMore(parts, text, offset, position, end);
        BeforeTwice(Kept(parts, text, offset, position), line,
                    Assembled(text[end + 1..], bodies, Some(selector), seen));
      }
    }
  }

  lemma EndGoes(text: string, bodies: Bodies, parts: string, offset: nat, start: nat, position: nat, end: nat,
                region: Option<string>, seen: set<string>, selector: string)
    requires offset <= start <= |text| && offset <= position <= |text| && (region.Some? ==> region.value in bodies)
    requires Goes(text, bodies, parts, offset, if region.Some? then start else position, position, region, seen)
    requires end == position + Find(text[position..], '\n') && MarkOf(text[position..end]) == Some(End(selector))
    ensures end <= |text|
    ensures region != Some(selector) ==> Assembled(text, bodies, None, {}).Err?
    ensures region == Some(selector) ==>
              var more := parts + text[offset..start] + "\n" + bodies[selector] + text[position..end];
              && (end < |text| ==> Goes(text, bodies, more, end, end + 1, end + 1, None, seen + {selector}))
              && (end == |text| ==>
                    (Assembled(text, bodies, None, {}) ==
                     if seen + {selector} != bodies.Keys then Err else Ok(more + text[end..])))
  {
    hide MarkOf, Kept, FirstLine, Rest, Assembled, Outside, Before;
    LineAt(text, position);
    var here, line := text[position..], text[position..end];
    if region.None? {
      OutsideLine(here, bodies, seen);
      ErrStays(Kept(parts, text, offset, position));
    } else {
      var before := Kept(parts, text, offset, start);
      InsideLine(here, bodies, region.value, seen);
      ErrStays(before);
      if region == Some(selector) {
        var head, all := "\n" + bodies[selector] + line, seen + {selector};
        OutsideIs(head, Rest(here), bodies, all, |here|);
        KeptEnd(parts, text, offset, start, end, bodies[selector], line);
        if end < |text| {
          BeforeTwice(before, head + "\n", Assembled(text[end + 1..], bodies, None, all));
        }
      }
    }
  }

  lemma KeptEnd(parts: string, text: string, offset: nat, start: nat, end: nat, body: string, line: string)
    requires offset <= start <= |text| && end <= |text|
    ensures var more, head := parts + text[offset..start] + "\n" + body + line, "\n" + body + line;
            && (end < |text| && text[end..end + 1] == "\n" ==>
                Kept(parts, text, offset, start) + (head + "\n") == Kept(more, text, end, end + 1))
            && (end == |text| ==> Kept(parts, text, offset, start) + head == more + text[end..])
  {
  }

  method AssembleText(text: string, bodies: Bodies, distinct: string -> bool, check: bool) returns (r: Result<string>)
    ensures r == Assemble(text, bodies, distinct, check)
  {
    hide MarkOf, Before, FirstLine, Rest, Goes, Assembled, Outside;
    var seen: set<string>, parts, offset := {}, "", 0;
    var region: Option<string>, start := None, 0;
    var position, last := 0, false;
    Started(text, bodies);
    while !last
      invariant offset <= start <= |text| && offset <= position <= |text| && (region.Some? ==> region.value in bodies)
      invariant !last ==>
                Goes(text, bodies, parts, offset, if region.Some? then start else position, position, region, seen)
      invariant last ==> Assembled(text, bodies, None, {}) ==
                         if region.Some? || seen != bodies.Keys then Err else Ok(parts + text[offset..])
      decreases |text| - position, !last
    {
      LineAt(text, position);
      var end := position + Find(text[position..], '\n');
      match MarkOf(text[position..end]) {
        case Some(Begin(selector)) =>
          BeginGoes(text, bodies, parts, offset, start, position, end, region, seen, selector);
          if region.Some? || selector in seen || selector !in bodies {
            return Err;
          }
          region, start := Some(selector), end;
        case Some(End(selector)) =>
          EndGoes(text, bodies, parts, offset, start, position, end, region, seen, selector);
          if region != Some(selector) {
            return Err;
          }
          parts := parts + text[offset..start] + "\n" + bodies[selector] + text[position..end];
          offset := end;
          seen := seen + {selector};
          region, start := None, end;
        case None =>
          PlainGoes(text, bodies, parts, offset, start, position, end, region, seen);
      }
      last, position := end == |text|, if end < |text| then end + 1 else end;
      assert text[offset..|text|] == text[offset..];
    }
    if region.Some? || seen != bodies.Keys {
      return Err;
    }
    var result := parts + text[offset..];
    if !distinct(result) || (check && result != text) {
      return Err;
    }
    return Ok(result);
  }


  // ---------- Documents ----------

  /** A line outside of the regions, or a region: its two marker lines and the whole lines between them. */
  datatype Part = Plain(line: string) | Region(selector: string, begin: string, inside: string, end: string)

  function Written(p: Part): string {
    match p
    case Plain(line) => line
    case Region(_, begin, inside, end) => begin + "\n" + (inside + end)
  }

  /** The parts, each on lines of its own. */
  function Text(doc: seq<Part>): string
    requires doc != []
  {
    Written(doc[0]) + Tail(doc[1..])
  }

  function Tail(doc: seq<Part>): string {
    if doc == [] then "" else "\n" + (Written(doc[0]) + Tail(doc[1..]))
  }

  function Filled(p: Part, bodies: Bodies): Part {
    if p.Region? && p.selector in bodies then p.(inside := bodies[p.selector]) else p
  }

  /** The document with every region holding its body. */
  function Fill(doc: seq<Part>, bodies: Bodies): seq<Part> {
    if doc == [] then [] else [Filled(doc[0], bodies)] + Fill(doc[1..], bodies)
  }

  predicate PartOk(p: Part) {
    match p
    case Plain(line) => OneLine(line) && MarkOf(line).None?
    case Region(selector, begin, inside, end) =>
      && OneLine(begin) && MarkOf(begin) == Some(Begin(selector)) && Clean(inside)
      && OneLine(end) && MarkOf(end) == Some(End(selector))
  }

  /** Every part is what its lines say, and the regions are those of the bodies not seen before, each once. */
  predicate Marked(doc: seq<Part>, bodies: Bodies, seen: set<string>) {
    if doc == [] then seen == bodies.Keys
    else
      && PartOk(doc[0])
      && if doc[0].Plain? then Marked(doc[1..], bodies, seen)
         else
           doc[0].selector in bodies && doc[0].selector !in seen && Marked(doc[1..], bodies, seen + {doc[0].selector})
  }

  lemma LineFirst(line: string, tail: string)
    requires OneLine(line) && (tail == "" || tail[0] == '\n')
    ensures FirstLine(line + tail) == line && Rest(line + tail) == if tail == "" then None else Some(tail[1..])
  {
    var text := line + tail;
    assert forall k :: 0 <= k < |line| ==> text[k] == line[k];
    FindIs(text, '\n', |line|);
    assert text[..|line|] == line;
    if tail != "" {
      assert text[|line| + 1..] == tail[1..];
    }
  }

  lemma CleanSplits(body: string, later: string)
    requires Clean(body) && body != ""
    ensures Rest(body).Some? && OneLine(FirstLine(body)) && MarkOf(FirstLine(body)).None? && Clean(Rest(body).value)
    ensures body + later == FirstLine(body) + ("\n" + (Rest(body).value + later))
    ensures ("\n" + (Rest(body).value + later))[1..] == Rest(body).value + later
  {
    hide MarkOf, OneLine;
    LineSplits(body);
    hide FirstLine, Rest;
    SplitJoins(FirstLine(body), Rest(body).value, later);
  }

  lemma SplitJoins(line: string, more: string, later: string)
    ensures line + ("\n" + more) + later == line + ("\n" + (more + later))
    ensures ("\n" + (more + later))[1..] == more + later
  {
  }

  /** The lines of a clean text in front of `later` are dropped inside a region. */
  lemma {:induction false} CleanSkipped(body: string, later: string, bodies: Bodies, selector: string,
                                        seen: set<string>)
    requires Clean(body) && selector in bodies
    ensures Assembled(body + later, bodies, Some(selector), seen) == Assembled(later, bodies, Some(selector), seen)
    decreases |body|
  {
    hide MarkOf;
    if body == "" {
      assert body + later == later;
    } else {
      var line, more := FirstLine(body), Rest(body).value;
      CleanSplits(body, later);
      hide Clean, FirstLine, Rest, Assembled;
      LineFirst(line, "\n" + (more + later));
      InsideLine(body + later, bodies, selector, seen);
      CleanSkipped(more, later, bodies, selector, seen);
    }
  }

  lemma TailText(doc: seq<Part>)
    requires doc != []
    ensures Tail(doc) == "\n" + Text(doc) && Tail(doc)[0] == '\n' && Tail(doc)[1..] == Text(doc)
  {
  }

  lemma OutsideTail(head: string, later: seq<Part>, bodies: Bodies, seen: set<string>, bound: nat)
    requires later != [] ==>
             |Text(later)| < bound && Assembled(Text(later), bodies, None, seen) == Ok(Text(Fill(later, bodies)))
    requires later == [] ==> seen == bodies.Keys
    ensures Outside(head, if later == [] then None else Some(Text(later)), bodies, seen, bound) ==
            Ok(head + Tail(Fill(later, bodies)))
  {
    hide Assembled, Text, Outside, Before;
    OutsideIs(head, if later == [] then None else Some(Text(later)), bodies, seen, bound);
    if later == [] {
      assert head + Tail([]) == head;
    } else {
      TailText(Fill(later, bodies));
      ErrStays(head + "\n");
      Assoc(head, "\n", Text(Fill(later, bodies)));
    }
  }

  /** A marked document is accepted, and its regions are filled. */
  lemma {:induction false} MarkedAssembles(doc: seq<Part>, bodies: Bodies, seen: set<string>)
    requires doc != [] && Marked(doc, bodies, seen)
    ensures Assembled(Text(doc), bodies, None, seen) == Ok(Text(Fill(doc, bodies)))
    decreases |doc|
  {
    hide PartOk, Assembled, Text, Fill;
    var p, later := doc[0], doc[1..];
    assert doc == [p] + later;
    if later != [] {
      MarkedAssembles(later, bodies, if p.Plain? then seen else seen + {p.selector});
    }
    if p.Plain? {
      PlainAssembles(p, later, bodies, seen);
    } else {
      RegionAssembles(p, later, bodies, seen);
    }
  }

  lemma TailOf(later: seq<Part>)
    ensures if later == [] then Tail(later) == ""
            else Tail(later) != "" && Tail(later)[0] == '\n' && Tail(later)[1..] == Text(later)
  {
  }

  lemma PlainAssembles(p: Part, later: seq<Part>, bodies: Bodies, seen: set<string>)
    requires p.Plain? && PartOk(p)
    requires later != [] ==> Assembled(Text(later), bodies, None, seen) == Ok(Text(Fill(later, bodies)))
    requires later == [] ==> seen == bodies.Keys
    ensures Assembled(Text([p] + later), bodies, None, seen) == Ok(Text(Fill([p] + later, bodies)))
  {
    hide MarkOf, FirstLine, Rest, OneLine, Outside, Fill, Tail, Assembled;
    var text := p.line + Tail(later);
    TailOf(later);
    LineFirst(p.line, Tail(later));
    OutsideLine(text, bodies, seen);
    OutsideTail(p.line, later, bodies, seen, |text|);
    FillFirst(p, later, bodies);
  }

  /** The text of a region and what follows it, cut at the ends of its marker lines. */
  lemma RegionText(p: Part, later: seq<Part>)
    requires p.Region?
    ensures Text([p] + later) == p.begin + ("\n" + (p.inside + (p.end + Tail(later))))
    ensures ("\n" + (p.inside + (p.end + Tail(later))))[1..] == p.inside + (p.end + Tail(later))
  {
    hide Tail;
  }

  lemma RegionAssembles(p: Part, later: seq<Part>, bodies: Bodies, seen: set<string>)
    requires p.Region? && PartOk(p) && p.selector in bodies && p.selector !in seen
    requires later != [] ==> Assembled(Text(later), bodies, None, seen + {p.selector}) == Ok(Text(Fill(later, bodies)))
    requires later == [] ==> seen + {p.selector} == bodies.Keys
    ensures Assembled(Text([p] + later), bodies, None, seen) == Ok(Text(Fill([p] + later, bodies)))
  {
    hide MarkOf, FirstLine, Rest, Clean, OneLine, Outside, Fill, Tail, Assembled, Text;
    var ending, head := p.end + Tail(later), "\n" + bodies[p.selector] + p.end;
    RegionText(p, later);
    LineFirst(p.begin, "\n" + (p.inside + ending));
    OutsideLine(Text([p] + later), bodies, seen);
    CleanSkipped(p.inside, ending, bodies, p.selector, seen);
    TailOf(later);
    LineFirst(p.end, Tail(later));
    InsideLine(ending, bodies, p.selector, seen);
    OutsideTail(head, later, bodies, seen + {p.selector}, |ending|);
    FillFirst(p, later, bodies);
    RegionText(Filled(p, bodies), Fill(later, bodies));
    BodyFirst(bodies[p.selector], p.end, Tail(Fill(later, bodies)));
  }

  lemma BodyFirst(body: string, end: string, tail: string)
    ensures "\n" + body + end + tail == "\n" + (body + (end + tail))
  {
  }

  lemma FillFirst(p: Part, later: seq<Part>, bodies: Bodies)
    ensures Fill([p] + later, bodies) == [Filled(p, bodies)] + Fill(later, bodies)
  {
  }

  lemma LineSplits(text: string)
    ensures OneLine(FirstLine(text))
    ensures text == FirstLine(text) + if Rest(text).None? then "" else "\n" + Rest(text).value
  {
  }

  /** Behind a line outside of the regions there is the tail of a document. */
  lemma {:induction false} TailDoc(head: string, rest: Option<string>, bodies: Bodies, seen: set<string>, bound: nat)
    returns (doc: seq<Part>)
    requires (rest.Some? ==> |rest.value| < bound) && Outside(head, rest, bodies, seen, bound).Ok?
    ensures Marked(doc, bodies, seen) && Tail(doc) == if rest.None? then "" else "\n" + rest.value
    ensures Outside(head, rest, bodies, seen, bound).value == head + Tail(Fill(doc, bodies))
    decreases bound, 0
  {
    hide Assembled, Text, Marked, Outside, Before, Fill, Tail;
    OutsideIs(head, rest, bodies, seen, bound);
    if rest.None? {
      doc := [];
      NoParts(bodies, seen);
      assert head + "" == head;
    } else {
      ErrStays(head + "\n");
      doc := OutsideDoc(rest.value, bodies, seen);
      TailText(doc);
      TailText(Fill(doc, bodies));
      Assoc(head, "\n", Text(Fill(doc, bodies)));
    }
  }

  lemma NoParts(bodies: Bodies, seen: set<string>)
    ensures (Marked([], bodies, seen) <==> seen == bodies.Keys) && Fill([], bodies) == [] && Tail([]) == ""
  {
  }

  /** An accepted text is a marked document. */
  lemma {:induction false} OutsideDoc(text: string, bodies: Bodies, seen: set<string>) returns (doc: seq<Part>)
    requires Assembled(text, bodies, None, seen).Ok?
    ensures doc != [] && Marked(doc, bodies, seen) && text == Text(doc)
    ensures Fill(doc, bodies) != [] && Assembled(text, bodies, None, seen) == Ok(Text(Fill(doc, bodies)))
    decreases |text|, 1
  {
    hide MarkOf, FirstLine, Rest, Clean, OneLine, Assembled, Outside, Before, Text, Tail, Fill, Marked;
    var line, rest := FirstLine(text), Rest(text);
    LineSplits(text);
    OutsideLine(text, bodies, seen);
    if MarkOf(line).None? {
      var later := TailDoc(line, rest, bodies, seen, |text|);
      PlainDoc(line, later, bodies, seen);
      doc := [Plain(line)] + later;
    } else {
      var selector := MarkOf(line).value.selector;
      ErrStays(line);
      var inside, end, later := InsideDoc(rest.value, bodies, selector, seen);
      var p := Region(selector, line, inside, end);
      RegionDoc(p, later, bodies, seen);
      doc := [p] + later;
    }
  }

  lemma PlainDoc(line: string, later: seq<Part>, bodies: Bodies, seen: set<string>)
    requires OneLine(line) && MarkOf(line).None? && Marked(later, bodies, seen)
    ensures var doc := [Plain(line)] + later;
            && Marked(doc, bodies, seen) && Text(doc) == line + Tail(later)
            && Fill(doc, bodies) != [] && Text(Fill(doc, bodies)) == line + Tail(Fill(later, bodies))
  {
    hide MarkOf, OneLine, Tail;
    FillFirst(Plain(line), later, bodies);
  }

  lemma RegionDoc(p: Part, later: seq<Part>, bodies: Bodies, seen: set<string>)
    requires p.Region? && PartOk(p) && p.selector in bodies && p.selector !in seen
    requires Marked(later, bodies, seen + {p.selector})
    ensures var doc := [p] + later;
            && Marked(doc, bodies, seen) && Text(doc) == p.begin + ("\n" + (p.inside + p.end + Tail(later)))
            && Fill(doc, bodies) != []
            && Text(Fill(doc, bodies)) == p.begin + ("\n" + bodies[p.selector] + p.end + Tail(Fill(later, bodies)))
  {
    hide PartOk, Tail, Text, Fill;
    FillFirst(p, later, bodies);
    RegionText(p, later);
    RegionText(Filled(p, bodies), Fill(later, bodies));
    Assoc(p.inside, p.end, Tail(later));
    BodyFirst(bodies[p.selector], p.end, Tail(Fill(later, bodies)));
  }

  /** Inside a region there are clean lines up to its end marker, and then the tail of a document. */
  lemma {:induction false} InsideDoc(text: string, bodies: Bodies, selector: string, seen: set<string>)
    returns (inside: string, end: string, doc: seq<Part>)
    requires selector in bodies && Assembled(text, bodies, Some(selector), seen).Ok?
    ensures Clean(inside) && OneLine(end) && MarkOf(end) == Some(End(selector))
    ensures Marked(doc, bodies, seen + {selector})
    ensures text == inside + end + Tail(doc)
    ensures Assembled(text, bodies, Some(selector), seen) == Ok("\n" + bodies[selector] + end + Tail(Fill(doc, bodies)))
    decreases |text|, 1
  {
    hide MarkOf, FirstLine, Rest, OneLine, Assembled, Outside, Tail, Fill, Marked, Clean;
    var line, rest := FirstLine(text), Rest(text);
    LineSplits(text);
    InsideLine(text, bodies, selector, seen);
    if MarkOf(line).Some? {
      doc := TailDoc("\n" + bodies[selector] + line, rest, bodies, seen + {selector}, |text|);
      inside, end := "", line;
      NothingClean();
      assert "" + line == line;
    } else {
      var more;
      more, end, doc := InsideDoc(rest.value, bodies, selector, seen);
      inside := line + ("\n" + more);
      CleanJoins(line, more, end + Tail(doc));
      Assoc(more, end, Tail(doc));
      Assoc(inside, end, Tail(doc));
    }
  }

  lemma NothingClean()
    ensures Clean("")
  {
  }

  lemma CleanJoins(line: string, more: string, later: string)
    requires OneLine(line) && MarkOf(line).None? && Clean(more)
    ensures var body := line + ("\n" + more);
            Clean(body) && line + ("\n" + (more + later)) == body + later
  {
    hide MarkOf, OneLine, FirstLine, Rest;
    LineFirst(line, "\n" + more);
    assert ("\n" + more)[1..] == more;
  }

  /** Accepts exactly the marked documents, and fills exactly their regions. */
  lemma AssembleIsGrammar(text: string, bodies: Bodies, result: string)
    ensures Assembled(text, bodies, None, {}) == Ok(result) <==> exists doc :: Describes(doc, bodies, text, result)
  {
    hide Assembled, Text, Fill, Marked;
    if Assembled(text, bodies, None, {}) == Ok(result) {
      var doc := OutsideDoc(text, bodies, {});
      assert Describes(doc, bodies, text, result);
    }
    if doc :| Describes(doc, bodies, text, result) {
      MarkedAssembles(doc, bodies, {});
    }
  }

  ghost predicate Describes(doc: seq<Part>, bodies: Bodies, text: string, result: string) {
    doc != [] && Marked(doc, bodies, {}) && text == Text(doc) && Fill(doc, bodies) != [] &&
        result == Text(Fill(doc, bodies))
  }

  // ---------- Fixed points ----------

  /** A line of the text that starts at `p` begins the region `s`. */
  predicate BeginAt(text: string, p: nat, s: string) {
    p <= |text| && (p == 0 || text[p - 1] == '\n') && MarkOf(FirstLine(text[p..])) == Some(Begin(s))
  }

  lemma BeginBehind(head: string, text: string, p: nat, s: string)
    ensures BeginAt(head + ("\n" + text), |head| + 1 + p, s) <==> BeginAt(text, p, s)
  {
    hide MarkOf, FirstLine;
    var all := head + ("\n" + text);
    if p <= |text| {
      assert all[|head| + 1 + p..] == text[p..];
      assert all[|head| + p] == if p == 0 then '\n' else text[p - 1];
    }
  }

  /** Where a line stands first, a region begins there or behind it. */
  lemma BeginFirst(line: string, tail: string, p: nat, s: string)
    requires OneLine(line) && (tail == "" || tail[0] == '\n') && BeginAt(line + tail, p, s)
    ensures if p == 0 then MarkOf(line) == Some(Begin(s))
            else p > |line| && tail != "" && BeginAt(tail[1..], p - |line| - 1, s)
  {
    hide MarkOf, Rest;
    var text := line + tail;
    if p == 0 {
      assert text[0..] == text;
      LineFirst(line, tail);
    } else {
      if p <= |line| {
        NotBroken(line, tail, p);
      }
      assert tail == "\n" + tail[1..];
      hide FirstLine, BeginAt;
      BeginBehind(line, tail[1..], p - |line| - 1, s);
    }
  }

  lemma NotBroken(line: string, tail: string, p: nat)
    requires OneLine(line) && 0 < p <= |line|
    ensures (line + tail)[p - 1] != '\n'
  {
  }

  lemma {:induction false} CleanBegins(body: string, later: string, p: nat, s: string)
    requires Clean(body) && BeginAt(body + later, p, s)
    ensures p >= |body| && BeginAt(later, p - |body|, s)
    decreases |body|
  {
    hide MarkOf, BeginAt;
    if body == "" {
      assert body + later == later;
    } else {
      var line, more := FirstLine(body), Rest(body).value;
      var tail := "\n" + (more + later);
      CleanSplits(body, later);
      assert |body| == |line| + 1 + |more| by { LineSplits(body); }
      hide FirstLine, Rest, Clean;
      BeginFirst(line, tail, p, s);
      CleanBegins(more, later, p - |line| - 1, s);
    }
  }

  predicate Holds(doc: seq<Part>, s: string) {
    doc != [] && ((doc[0].Region? && doc[0].selector == s) || Holds(doc[1..], s))
  }

  /** Where the region `s` begins in the text. */
  function Offset(doc: seq<Part>, s: string): nat
    requires Holds(doc, s)
  {
    if doc[0].Region? && doc[0].selector == s then 0 else |Written(doc[0])| + 1 + Offset(doc[1..], s)
  }

  lemma {:induction false} BeginsThere(doc: seq<Part>, s: string)
    requires Holds(doc, s)
    requires forall k :: 0 <= k < |doc| && doc[k].Region? ==>
             OneLine(doc[k].begin) && MarkOf(doc[k].begin) == Some(Begin(doc[k].selector))
    ensures BeginAt(Text(doc), Offset(doc, s), s)
    decreases |doc|
  {
    hide MarkOf, FirstLine, Rest, OneLine, BeginAt;
    var p, later := doc[0], doc[1..];
    if p.Region? && p.selector == s {
      var tail := "\n" + (p.inside + p.end + Tail(later));
      assert Text(doc) == p.begin + tail;
      LineFirst(p.begin, tail);
      FirstBegins(Text(doc), s);
    } else {
      TailText(later);
      BeginsThere(later, s);
      BeginBehind(Written(p), Text(later), Offset(later, s), s);
    }
  }

  lemma FirstBegins(text: string, s: string)
    requires MarkOf(FirstLine(text)) == Some(Begin(s))
    ensures BeginAt(text, 0, s)
  {
    assert text[0..] == text;
  }

  /** In the text of a marked document each region begins at one place only. */
  lemma {:induction false} BeginsOnce(doc: seq<Part>, bodies: Bodies, seen: set<string>, p: nat, s: string)
    requires doc != [] && Marked(doc, bodies, seen) && BeginAt(Text(doc), p, s)
    ensures Holds(doc, s) && s !in seen && p == Offset(doc, s)
    decreases |doc|
  {
    hide PartOk, BeginAt, Text;
    var part, later := doc[0], doc[1..];
    assert doc == [part] + later;
    PartBegins(part, later, p, s);
    if later != [] && !(part.Region? && p == 0) {
      BeginsOnce(later, bodies, if part.Plain? then seen else seen + {part.selector}, p - |Written(part)| - 1, s);
    }
  }

  /** In the text of a part and what follows, a region begins only at the front or behind the part. */
  lemma PartBegins(part: Part, later: seq<Part>, p: nat, s: string)
    requires PartOk(part) && BeginAt(Text([part] + later), p, s)
    ensures if p == 0 then part.Region? && part.selector == s
            else later != [] && p > |Written(part)| && BeginAt(Text(later), p - |Written(part)| - 1, s)
  {
    hide MarkOf, FirstLine, Rest, OneLine, BeginAt, Clean, Tail, Text;
    TailOf(later);
    if part.Plain? {
      PlainText(part, later);
      BeginFirst(part.line, Tail(later), p, s);
    } else {
      var ending := part.end + Tail(later);
      RegionText(part, later);
      BeginFirst(part.begin, "\n" + (part.inside + ending), p, s);
      if p > 0 {
        var q := p - |part.begin| - 1;
        CleanBegins(part.inside, ending, q, s);
        BeginFirst(part.end, Tail(later), q - |part.inside|, s);
      }
    }
  }

  lemma PlainText(p: Part, later: seq<Part>)
    requires p.Plain?
    ensures Text([p] + later) == p.line + Tail(later)
  {
    hide Tail;
  }

  function NextRegion(doc: seq<Part>): Option<string> {
    if doc == [] then None else if doc[0].Region? then Some(doc[0].selector) else NextRegion(doc[1..])
  }

  /** Up to its first region a document stays as it is when it is filled. */
  lemma {:induction false} FillsBehind(doc: seq<Part>, bodies: Bodies)
    ensures NextRegion(doc).None? ==> Fill(doc, bodies) == doc
    ensures NextRegion(doc).Some? ==>
              var s := NextRegion(doc).value;
              Holds(doc, s) && Holds(Fill(doc, bodies), s) && Offset(doc, s) == Offset(Fill(doc, bodies), s)
    decreases |doc|
  {
    if doc != [] && doc[0].Plain? {
      FillsBehind(doc[1..], bodies);
      assert doc == [doc[0]] + doc[1..];
    }
  }

  lemma {:induction false} FillBegins(doc: seq<Part>, bodies: Bodies, seen: set<string>)
    requires Marked(doc, bodies, seen)
    ensures |Fill(doc, bodies)| == |doc|
    ensures forall k :: 0 <= k < |doc| && Fill(doc, bodies)[k].Region? ==>
              var p := Fill(doc, bodies)[k]; OneLine(p.begin) && MarkOf(p.begin) == Some(Begin(p.selector))
    decreases |doc|
  {
    hide MarkOf, OneLine, Clean;
    if doc != [] {
      FillBegins(doc[1..], bodies, if doc[0].Plain? then seen else seen + {doc[0].selector});
    }
  }

  lemma EqualParts(a: string, b: string, x: string, y: string)
    requires a + x == b + y && |a| == |b|
    ensures a == b && x == y
  {
    assert (a + x)[..|a|] == a && (b + y)[..|b|] == b && (a + x)[|a|..] == x && (b + y)[|b|..] == y;
  }

  /** A region whose body has another length would move the beginning of the next one, or the end of the text. */
  lemma SameLength(doc: seq<Part>, bodies: Bodies, seen: set<string>)
    requires doc != [] && doc[0].Region? && Marked(doc, bodies, seen) && Fill(doc, bodies) != []
    requires Text(doc) == Text(Fill(doc, bodies))
    ensures |doc[0].inside| == |bodies[doc[0].selector]|
  {
    hide MarkOf, OneLine, Clean, BeginAt, PartOk;
    var later := doc[1..];
    assert Fill(doc, bodies) == [Filled(doc[0], bodies)] + Fill(later, bodies);
    FillsBehind(later, bodies);
    if NextRegion(later).Some? {
      var s := NextRegion(later).value;
      NextIsFresh(later, bodies, seen + {doc[0].selector});
      FillBegins(doc, bodies, seen);
      BeginsThere(Fill(doc, bodies), s);
      BeginsOnce(doc, bodies, seen, Offset(Fill(doc, bodies), s), s);
    }
  }

  lemma {:induction false} NextIsFresh(doc: seq<Part>, bodies: Bodies, seen: set<string>)
    requires Marked(doc, bodies, seen) && NextRegion(doc).Some?
    ensures NextRegion(doc).value !in seen
    decreases |doc|
  {
    if doc[0].Plain? {
      NextIsFresh(doc[1..], bodies, seen);
    }
  }

  /** A marked document whose text does not change when it is filled holds its bodies already. */
  lemma {:induction false} HoldsBodies(doc: seq<Part>, bodies: Bodies, seen: set<string>)
    requires doc != [] && Marked(doc, bodies, seen) && Fill(doc, bodies) != [] && Text(doc) == Text(Fill(doc, bodies))
    ensures Fill(doc, bodies) == doc
    decreases |doc|
  {
    hide MarkOf, OneLine, Clean, PartOk;
    var p, later := doc[0], doc[1..];
    var q, filled := Filled(p, bodies), Fill(later, bodies);
    assert Fill(doc, bodies) == [q] + filled;
    if p.Region? {
      SameLength(doc, bodies, seen);
    }
    EqualParts(Written(p), Written(q), Tail(later), Tail(filled));
    if p.Region? {
      EqualParts(p.begin + "\n", p.begin + "\n", p.inside + p.end, q.inside + p.end);
      EqualParts(p.inside, q.inside, p.end, p.end);
    }
    if later != [] {
      assert filled != [] by { assert |Tail(filled)| > 0; }
      TailText(later);
      TailText(filled);
      EqualParts("\n", "\n", Text(later), Text(filled));
      HoldsBodies(later, bodies, if p.Plain? then seen else seen + {p.selector});
    }
    assert doc == [p] + later;
  }

  ghost predicate AllClean(bodies: Bodies) {
    forall s :: s in bodies ==> Clean(bodies[s])
  }

  lemma {:induction false} FilledIsMarked(doc: seq<Part>, bodies: Bodies, seen: set<string>)
    requires Marked(doc, bodies, seen) && AllClean(bodies)
    ensures Marked(Fill(doc, bodies), bodies, seen) && Fill(Fill(doc, bodies), bodies) == Fill(doc, bodies)
    decreases |doc|
  {
    hide MarkOf, OneLine, Clean;
    if doc != [] {
      FilledIsMarked(doc[1..], bodies, if doc[0].Plain? then seen else seen + {doc[0].selector});
    }
  }

  lemma {:induction false} HeldAreClean(doc: seq<Part>, bodies: Bodies, seen: set<string>)
    requires Marked(doc, bodies, seen) && Fill(doc, bodies) == doc
    ensures forall s :: s in bodies && s !in seen ==> Clean(bodies[s])
    decreases |doc|
  {
    hide MarkOf, OneLine, Clean;
    if doc != [] {
      var p, later := doc[0], doc[1..];
      assert Fill(doc, bodies)[0] == Filled(p, bodies) && Fill(doc, bodies)[1..] == Fill(later, bodies);
      HeldAreClean(later, bodies, if p.Plain? then seen else seen + {p.selector});
    }
  }

  /** Assembling a result again changes nothing exactly when every body is made of whole lines without a marker. */
  lemma FixedPoint(text: string, bodies: Bodies, result: string)
    requires Assembled(text, bodies, None, {}) == Ok(result)
    ensures Assembled(result, bodies, None, {}) == Ok(result) <==> AllClean(bodies)
  {
    hide Assembled, Text, Fill, Marked, Clean;
    if AllClean(bodies) {
      var doc := OutsideDoc(text, bodies, {});
      FilledIsMarked(doc, bodies, {});
      MarkedAssembles(Fill(doc, bodies), bodies, {});
    }
    if Assembled(result, bodies, None, {}) == Ok(result) {
      var doc := OutsideDoc(result, bodies, {});
      HoldsBodies(doc, bodies, {});
      HeldAreClean(doc, bodies, {});
    }
  }

  /** A result passes the check, unchanged, exactly when every body is made of whole lines without a marker. */
  lemma ResultPassesCheck(text: string, bodies: Bodies, distinct: string -> bool, check: bool)
    requires Assemble(text, bodies, distinct, check).Ok?
    ensures var result := Assemble(text, bodies, distinct, check).value;
            && (Assemble(result, bodies, distinct, true) == Ok(result) <==> AllClean(bodies))
            && (AllClean(bodies) ==> Assemble(result, bodies, distinct, false) == Ok(result))
  {
    hide Assembled, Clean;
    FixedPoint(text, bodies, Assemble(text, bodies, distinct, check).value);
  }
}
