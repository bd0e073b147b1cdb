/** The contract evaluator: a location table of subschemas, the same-instance edges between them,
    the hand-written validity check with its `evaluated` name set, and the annotation-collecting
    reading of section 11.3 of JSON Schema Core 2020-12. */
module SchemaContract {
  import opened Wrappers

  datatype Json =
    | Null
    | Bool(b: bool)
    | Number(n: real)
    | Str(s: string)
    | Arr(items: seq<Json>)
    | Obj(members: map<string, Json>)

  datatype Keyword =
    | AllOf | AnyOf | OneOf | Not | If | Then | Else | DependentSchemas
    | Properties | PatternProperties | AdditionalProperties | UnevaluatedProperties
    | PropertyNames | Items | Contains | Defs | ContentSchema

  /** The applicators whose subschema sees the instance itself. */
  predicate SameInstance(keyword: Keyword) {
    keyword in {AllOf, AnyOf, OneOf, Not, If, Then, Else, DependentSchemas}
  }

  /** One step of a location: the keyword, and the member name or array index below it
      (empty for a keyword that holds a single subschema). */
  datatype Token = Token(keyword: Keyword, name: string)

  type Path = seq<Token>

  /** A subschema. Its reference is kept as the location the fragment denotes; the assertion
      keywords that apply no subschema are folded into the contract's `local` predicate. */
  datatype Schema =
    | BoolSchema(value: bool)
    | ObjSchema(ref: Option<Path>, children: map<Token, Schema>, minContains: nat, maxContains: Option<nat>)

  function One(keyword: Keyword): Token { Token(keyword, "") }

  // ---------- Locations and same-instance edges ----------

  /** The subschema found by walking a location down from the root. */
  function At(root: Schema, path: Path): Option<Schema> {
    if path == [] then Some(root)
    else if root.ObjSchema? && path[0] in root.children then At(root.children[path[0]], path[1..])
    else None
  }

  lemma {:induction false} AtChild(root: Schema, path: Path, t: Token)
    requires At(root, path).Some?
    ensures At(root, path + [t]) ==
            if At(root, path).value.ObjSchema? && t in At(root, path).value.children
            then Some(At(root, path).value.children[t]) else None
  {
    if path == [] {
      assert (path + [t])[1..] == [];
    } else {
      assert (path + [t])[1..] == path[1..] + [t];
      AtChild(root.children[path[0]], path[1..], t);
    }
  }

  lemma {:induction false} AtPrefix(root: Schema, path: Path, suffix: Path)
    requires At(root, path + suffix).Some?
    ensures At(root, path).Some?
  {
    if path == [] {
    } else {
      assert (path + suffix)[1..] == path[1..] + suffix;
      AtPrefix(root.children[path[0]], path[1..], suffix);
    }
  }

  /** A table holds exactly the locations of a schema. */
  ghost predicate Locates(root: Schema, locations: map<Path, Schema>) {
    forall p :: (p in locations <==> At(root, p).Some?) && (p in locations ==> Some(locations[p]) == At(root, p))
  }

  ghost predicate Closed(locations: map<Path, Schema>) {
    forall p, t {:trigger p + [t]} :: p in locations && locations[p].ObjSchema? && t in locations[p].children ==>
      p + [t] in locations && locations[p + [t]] == locations[p].children[t]
  }

  lemma LocatesCloses(root: Schema, locations: map<Path, Schema>)
    requires Locates(root, locations)
    ensures Closed(locations)
  {
    forall p, t | p in locations && locations[p].ObjSchema? && t in locations[p].children
      ensures p + [t] in locations && locations[p + [t]] == locations[p].children[t]
    {
      AtChild(root, p, t);
    }
  }

  function ChildEdges(p: Path, node: Schema): set<Path> {
    if node.BoolSchema? then {} else EdgesTo(p, node.children.Keys)
  }

  function EdgesTo(p: Path, tokens: set<Token>): set<Path> {
    set t | t in tokens && SameInstance(t.keyword) :: p + [t]
  }

  function EdgesFrom(p: Path, node: Schema): set<Path> {
    ChildEdges(p, node) + (if node.ObjSchema? && node.ref.Some? then {node.ref.value} else {})
  }

  ghost predicate Resolved(locations: map<Path, Schema>) {
    forall p :: p in locations && locations[p].ObjSchema? && locations[p].ref.Some? ==>
        locations[p].ref.value in locations
  }

  ghost predicate IsRank(locations: map<Path, Schema>, rank: map<Path, nat>) {
    && locations.Keys <= rank.Keys
    && forall p, q :: p in locations && q in EdgesFrom(p, locations[p]) ==> q in rank && rank[q] < rank[p]
  }

  /** A nonempty closed walk along the edges. */
  ghost predicate IsCycle(locations: map<Path, Schema>, walk: seq<Path>) {
    && |walk| > 0
    && (forall i :: 0 <= i < |walk| ==> walk[i] in locations)
    && (forall i :: 0 < i < |walk| ==> walk[i] in EdgesFrom(walk[i - 1], locations[walk[i - 1]]))
    && walk[0] in EdgesFrom(walk[|walk| - 1], locations[walk[|walk| - 1]])
  }

  lemma RankDescends(locations: map<Path, Schema>, rank: map<Path, nat>, walk: seq<Path>, i: nat)
    requires IsRank(locations, rank) && IsCycle(locations, walk) && i < |walk|
    ensures rank[walk[i]] + i <= rank[walk[0]]
  {
    if i == 0 {
    } else {
      RankDescends(locations, rank, walk, i - 1);
    }
  }

  /** A rank and a cycle exclude each other. */
  lemma RankExcludesCycle(locations: map<Path, Schema>, rank: map<Path, nat>, walk: seq<Path>)
    requires IsRank(locations, rank)
    ensures !IsCycle(locations, walk)
  {
    if IsCycle(locations, walk) {
      RankDescends(locations, rank, walk, |walk| - 1);
    }
  }

  // ---------- The compiled contract ----------

  /** `local` decides the assertion keywords of a location and `search` is the pattern search; `rank`
      is an order of the locations that evaluation never needs to look at, only to descend along. */
  datatype Table = Table(
    locations: map<Path, Schema>,
    rank: map<Path, nat>,
    local: (Path, Json) -> bool,
    search: (string, string) -> bool)
  {
    /** Children and references lie in the table, and those that see the same instance rank lower. */
    ghost predicate WellFormed() {
      && locations.Keys <= rank.Keys
      && (forall p, t {:trigger p + [t]} :: p in locations && locations[p].ObjSchema? && t in locations[p].children ==>
            p + [t] in locations && (SameInstance(t.keyword) ==> rank[p + [t]] < rank[p]))
      && (forall p :: p in locations && locations[p].ObjSchema? && locations[p].ref.Some? ==>
            locations[p].ref.value in locations && rank[locations[p].ref.value] < rank[p])
    }

    predicate Known(children: map<Token, Schema>, name: string) {
      || Token(Properties, name) in children
      || exists t :: t in children && t.keyword == PatternProperties && search(t.name, name)
    }
  }

  lemma RankedIsWellFormed(c: Table)
    requires Closed(c.locations) && Resolved(c.locations) && IsRank(c.locations, c.rank)
    ensures c.WellFormed()
  {
    forall p, t | p in c.locations && c.locations[p].ObjSchema? && t in c.locations[p].children &&
        SameInstance(t.keyword)
      ensures c.rank[p + [t]] < c.rank[p]
    {
      assert p + [t] in EdgesFrom(p, c.locations[p]);
    }
  }

  /** What an accepted schema compiles to. */
  type Contract = c: Table | c.WellFormed() witness Table(map[], map[], (_, _) => true, (_, _) => false)

  function Depth(v: Json): nat { if v.Arr? || v.Obj? then 1 else 0 }

  // ---------- What the keywords demand of their subschemas ----------

  /** Which subschema applications of one location passed: its reference, the same-instance children,
      the children on member values, and those on member names and array items. */
  datatype Verdicts = Verdicts(
    ref: bool,
    inPlace: set<Token>,
    members: set<(Token, string)>,
    names: set<string>,
    items: set<int>,
    contained: set<int>)

  /** The verdict of every keyword except `unevaluatedProperties`. */
  predicate Holds(c: Contract, p: Path, v: Json, j: Verdicts)
    requires p in c.locations && c.locations[p].ObjSchema?
  {
    var s := c.locations[p];
    && c.local(p, v)
    && (s.ref.Some? ==> j.ref)
    && HoldsInPlace(s.children, v, j.inPlace)
    && (v.Arr? ==>
          && (One(Items) in s.children ==> forall i :: 0 <= i < |v.items| ==> i in j.items)
          && (One(Contains) in s.children ==>
                s.minContains <= |j.contained| && (s.maxContains.Some? ==> |j.contained| <= s.maxContains.value)))
    && (v.Obj? ==> HoldsMembers(c, s.children, v.members.Keys, j))
  }

  predicate HoldsInPlace(ch: map<Token, Schema>, v: Json, passed: set<Token>) {
    && (forall t :: t in ch && t.keyword == AllOf ==> t in passed)
    && ((exists t :: t in ch && t.keyword == AnyOf) ==> exists t :: t in ch && t.keyword == AnyOf && t in passed)
    && ((exists t :: t in ch && t.keyword == OneOf) ==> |set t | t in ch && t.keyword == OneOf && t in passed| == 1)
    && (One(Not) in ch ==> One(Not) !in passed)
    && (One(If) in ch ==>
          if One(If) in passed then One(Then) in ch ==> One(Then) in passed
          else One(Else) in ch ==> One(Else) in passed)
    && (v.Obj? ==> forall t :: t in ch && t.keyword == DependentSchemas && t.name in v.members ==> t in passed)
  }

  predicate HoldsMembers(c: Contract, ch: map<Token, Schema>, names: set<string>, j: Verdicts) {
    && (forall t :: t in ch && t.keyword == Properties && t.name in names ==> (t, t.name) in j.members)
    && (forall t, k :: t in ch && t.keyword == PatternProperties && k in names && c.search(t.name, k) ==>
        (t, k) in j.members)
    && (One(AdditionalProperties) in ch ==>
          forall k :: k in names && !c.Known(ch, k) ==> (One(AdditionalProperties), k) in j.members)
    && (One(PropertyNames) in ch ==> names <= j.names)
  }

  // ---------- Validity as the evaluator computes it ----------

  predicate Valid(c: Contract, p: Path, v: Json)
    requires p in c.locations
    decreases Depth(v), v, c.rank[p], 2
  {
    match c.locations[p]
    case BoolSchema(value) => value
    case ObjSchema(_, ch, _, _) =>
      var j := Judge(c, p, v);
      && Holds(c, p, v, j)
      && (v.Obj? && One(UnevaluatedProperties) in ch ==> Covers(v.members.Keys, Evaluated(c, p, v), j))
  }

  /** Every name outside `evaluated` passed `unevaluatedProperties`. */
  predicate Covers(names: set<string>, evaluated: set<string>, j: Verdicts) {
    forall k :: k in names && k !in evaluated ==> (One(UnevaluatedProperties), k) in j.members
  }

  function Judge(c: Contract, p: Path, v: Json): Verdicts
    requires p in c.locations && c.locations[p].ObjSchema?
    decreases Depth(v), v, c.rank[p], 0
  {
    var s := c.locations[p];
    Verdicts(
      s.ref.Some? && Valid(c, s.ref.value, v),
      set t | t in s.children && SameInstance(t.keyword) && Valid(c, p + [t], v),
      if v.Obj? then set t, k | t in s.children && k in v.members && Valid(c, p + [t], v.members[k]) :: (t, k) else {},
      if v.Obj? && One(PropertyNames) in s.children
        then set k | k in v.members && Valid(c, p + [One(PropertyNames)], Str(k)) else {},
      if v.Arr? && One(Items) in s.children
        then set i | 0 <= i < |v.items| && Valid(c, p + [One(Items)], v.items[i]) else {},
      if v.Arr? && One(Contains) in s.children
        then set i | 0 <= i < |v.items| && Valid(c, p + [One(Contains)], v.items[i]) else {})
  }

  /** The names the hand-written collection counts as evaluated. References, dependent schemas and the
      chosen branch are followed without asking whether they passed, and `unevaluatedProperties` feeds
      the set it is itself judged by. */
  function Evaluated(c: Contract, p: Path, v: Json): (r: set<string>)
    requires p in c.locations && v.Obj?
    ensures r <= v.members.Keys
    decreases Depth(v), v, c.rank[p], 1
  {
    var s := c.locations[p];
    if s.BoolSchema? then {} else
    var j := Judge(c, p, v);
    NamesHere(c, s.children, v.members.Keys, j)
    + (if s.ref.Some? then Evaluated(c, s.ref.value, v) else {})
    + UnionOf(EvaluatedBelow(c, p, v, Followed(s.children, v, j.inPlace)))
  }

  function EvaluatedBelow(c: Contract, p: Path, v: Json, tokens: set<Token>): (r: map<Token, set<string>>)
    requires p in c.locations && c.locations[p].ObjSchema? && v.Obj?
    requires forall t :: t in tokens ==> t in c.locations[p].children && SameInstance(t.keyword)
    ensures forall t :: t in r ==> r[t] <= v.members.Keys
    decreases Depth(v), v, c.rank[p], 0
  {
    map t | t in tokens :: Evaluated(c, p + [t], v)
  }

  function UnionOf(parts: map<Token, set<string>>): set<string> {
    set t, k | t in parts && k in parts[t] :: k
  }

  function NamesHere(c: Contract, ch: map<Token, Schema>, names: set<string>, j: Verdicts): set<string> {
    Declared(ch, names) + Matched(c, ch, names)
    + Passed(One(AdditionalProperties), names, j) + Passed(One(UnevaluatedProperties), names, j)
  }

  function Declared(ch: map<Token, Schema>, names: set<string>): set<string> {
    set k | k in names && Token(Properties, k) in ch
  }

  function Matched(c: Contract, ch: map<Token, Schema>, names: set<string>): set<string> {
    set k | k in names && exists t :: t in ch && t.keyword == PatternProperties && c.search(t.name, k)
  }

  function Passed(t: Token, names: set<string>, j: Verdicts): set<string> {
    set k | k in names && (t, k) in j.members
  }

  /** The dependent schemas whose name is present, the other in-place children that passed, and the
      branch that `if` selects. */
  function Followed(ch: map<Token, Schema>, v: Json, passed: set<Token>): (r: set<Token>)
    ensures forall t :: t in r ==> t in ch && SameInstance(t.keyword)
  {
    set t | t in ch &&
      (|| (t.keyword == DependentSchemas && v.Obj? && t.name in v.members)
       || (t.keyword in {AllOf, AnyOf, OneOf} && t in passed)
       || (t == One(If) && t in passed)
       || (One(If) in ch && t == Branch(passed)))
  }

  function Branch(passed: set<Token>): Token {
    if One(If) in passed then One(Then) else One(Else)
  }

  // ---------- Annotation collection, section 11.3 of JSON Schema Core 2020-12 ----------

  /** One pass over a schema: no result when it rejects the instance, otherwise the union of the
      annotations of the four property keywords, its own and those of the in-place applicators
      that passed. A rejecting schema contributes nothing. */
  ghost function Collect(c: Contract, p: Path, v: Json): (r: Option<set<string>>)
    requires p in c.locations
    ensures v.Obj? ==> Annotations(r) <= v.members.Keys
    decreases Depth(v), v, c.rank[p], 2
  {
    match c.locations[p]
    case BoolSchema(value) => if value then Some({}) else None
    case ObjSchema(_, ch, _, _) =>
      var j := JudgeCollecting(c, p, v);
      if !Holds(c, p, v, j) then None
      else if !v.Obj? then Some({})
      else
        var adjacent := Adjacent(c, p, v);
        if One(UnevaluatedProperties) !in ch then Some(adjacent)
        else if Covers(v.members.Keys, adjacent, j) then Some(adjacent + v.members.Keys)
        else None
  }

  ghost function JudgeCollecting(c: Contract, p: Path, v: Json): Verdicts
    requires p in c.locations && c.locations[p].ObjSchema?
    decreases Depth(v), v, c.rank[p], 0
  {
    var s := c.locations[p];
    Verdicts(
      s.ref.Some? && Collect(c, s.ref.value, v).Some?,
      set t | t in s.children && SameInstance(t.keyword) && Collect(c, p + [t], v).Some?,
      if v.Obj? then set t, k | t in s.children && k in v.members && Collect(c, p + [t], v.members[k]).Some? :: (t, k)
          else {},
      if v.Obj? && One(PropertyNames) in s.children
        then set k | k in v.members && Collect(c, p + [One(PropertyNames)], Str(k)).Some? else {},
      if v.Arr? && One(Items) in s.children
        then set i | 0 <= i < |v.items| && Collect(c, p + [One(Items)], v.items[i]).Some? else {},
      if v.Arr? && One(Contains) in s.children
        then set i | 0 <= i < |v.items| && Collect(c, p + [One(Contains)], v.items[i]).Some? else {})
  }

  /** The annotations of adjacent `properties`, `patternProperties` and `additionalProperties`, and of
      every in-place applicator that applies and passes. */
  ghost function Adjacent(c: Contract, p: Path, v: Json): (r: set<string>)
    requires p in c.locations && c.locations[p].ObjSchema? && v.Obj?
    ensures r <= v.members.Keys
    decreases Depth(v), v, c.rank[p], 1
  {
    var s := c.locations[p];
    (if One(AdditionalProperties) in s.children then v.members.Keys
     else Declared(s.children, v.members.Keys) + Matched(c, s.children, v.members.Keys))
    + (if s.ref.Some? then Annotations(Collect(c, s.ref.value, v)) else {})
    + UnionOf(CollectedBelow(c, p, v, Applied(s.children, v, JudgeCollecting(c, p, v).inPlace)))
  }

  ghost function CollectedBelow(c: Contract, p: Path, v: Json, tokens: set<Token>): (r: map<Token, set<string>>)
    requires p in c.locations && c.locations[p].ObjSchema? && v.Obj?
    requires forall t :: t in tokens ==> t in c.locations[p].children && SameInstance(t.keyword)
    ensures forall t :: t in r ==> r[t] <= v.members.Keys
    decreases Depth(v), v, c.rank[p], 0
  {
    map t | t in tokens :: Annotations(Collect(c, p + [t], v))
  }

  /** The in-place applicators whose annotations can reach the enclosing schema; `not` never passes any on. */
  function Applied(ch: map<Token, Schema>, v: Json, passed: set<Token>): (r: set<Token>)
    ensures forall t :: t in r ==> t in ch && SameInstance(t.keyword)
  {
    set t | t in ch &&
      (|| t.keyword in {AllOf, AnyOf, OneOf}
       || (t.keyword == DependentSchemas && v.Obj? && t.name in v.members)
       || t == One(If)
       || (One(If) in ch && t == Branch(passed)))
  }

  function Annotations(result: Option<set<string>>): set<string> {
    if result.Some? then result.value else {}
  }

  // ---------- Agreement ----------

  /** The hand-written check and the collecting pass give the same verdict, and on an accepted object
      the same names. */
  ghost predicate Agrees(c: Contract, p: Path, v: Json)
    requires p in c.locations
  {
    && (Valid(c, p, v) <==> Collect(c, p, v).Some?)
    && (v.Obj? && Valid(c, p, v) ==> Collect(c, p, v) == Some(Evaluated(c, p, v)))
  }

  /** The readings agree on every location that sees the same instance as `p`. */
  ghost predicate AgreesInPlace(c: Contract, p: Path, v: Json)
    requires p in c.locations && c.locations[p].ObjSchema?
  {
    var s := c.locations[p];
    && (s.ref.Some? ==> Agrees(c, s.ref.value, v))
    && (forall t :: t in s.children && SameInstance(t.keyword) ==> Agrees(c, p + [t], v))
  }

  /** When the other keywords pass, every applied child that passed was followed, and every followed
      child passed. */
  lemma FollowedIsApplied(ch: map<Token, Schema>, v: Json, passed: set<Token>)
    requires HoldsInPlace(ch, v, passed)
    ensures forall t :: t in Followed(ch, v, passed) <==> t in Applied(ch, v, passed) && t in passed
  {
  }

  lemma AdditionalCovers(c: Contract, ch: map<Token, Schema>, names: set<string>, j: Verdicts)
    requires HoldsMembers(c, ch, names, j)
    requires forall m :: m in j.members ==> m.0 in ch
    ensures NamesHere(c, ch, names, j) ==
            (if One(AdditionalProperties) in ch then names else Declared(ch, names) + Matched(c, ch, names))
            + Passed(One(UnevaluatedProperties), names, j)
  {
    if One(AdditionalProperties) in ch {
      forall k | k in names ensures k in NamesHere(c, ch, names, j) {
        if !c.Known(ch, k) {
          assert (One(AdditionalProperties), k) in j.members;
        }
      }
    } else {
      assert Passed(One(AdditionalProperties), names, j) == {};
    }
  }

  /** Once the other keywords pass, the hand-written names differ from the adjacent annotations only by
      names whose value already satisfies `unevaluatedProperties`. */
  lemma EvaluatedIsAdjacent(c: Contract, p: Path, v: Json)
    requires p in c.locations && c.locations[p].ObjSchema? && v.Obj?
    requires AgreesInPlace(c, p, v)
    requires Judge(c, p, v) == JudgeCollecting(c, p, v) && Holds(c, p, v, Judge(c, p, v))
    ensures Evaluated(c, p, v) ==
            Adjacent(c, p, v) + Passed(One(UnevaluatedProperties), v.members.Keys, Judge(c, p, v))
  {
    var s := c.locations[p];
    var j := Judge(c, p, v);
    FollowedIsApplied(s.children, v, j.inPlace);
    AdditionalCovers(c, s.children, v.members.Keys, j);
    var followed, applied := Followed(s.children, v, j.inPlace), Applied(s.children, v, j.inPlace);
    BelowMatches(c, p, v, followed, applied, j.inPlace);
  }

  lemma BelowMatches(c: Contract, p: Path, v: Json, followed: set<Token>, applied: set<Token>, passed: set<Token>)
    requires p in c.locations && c.locations[p].ObjSchema? && v.Obj? && AgreesInPlace(c, p, v)
    requires followed <= applied && forall t :: t in applied ==> t in c.locations[p].children && SameInstance(t.keyword)
    requires forall t :: t in followed <==> t in applied && t in passed
    requires forall t :: t in applied ==> (t in passed <==> Valid(c, p + [t], v))
    ensures UnionOf(EvaluatedBelow(c, p, v, followed)) == UnionOf(CollectedBelow(c, p, v, applied))
  {
    var mine, theirs := EvaluatedBelow(c, p, v, followed), CollectedBelow(c, p, v, applied);
    forall t | t in applied ensures theirs[t] == if t in followed then mine[t] else {} {
      assert Agrees(c, p + [t], v);
    }
    SameUnion(mine, theirs);
  }

  lemma SameUnion(a: map<Token, set<string>>, b: map<Token, set<string>>)
    requires a.Keys <= b.Keys
    requires forall t :: t in b ==> b[t] == if t in a then a[t] else {}
    ensures UnionOf(a) == UnionOf(b)
  {
  }

  /** Agreement below a location carries over to it. */
  lemma AgreementLifts(c: Contract, p: Path, v: Json)
    requires p in c.locations && c.locations[p].ObjSchema?
    requires AgreesInPlace(c, p, v) && Judge(c, p, v) == JudgeCollecting(c, p, v)
    ensures Agrees(c, p, v)
  {
    if v.Obj? && Holds(c, p, v, Judge(c, p, v)) {
      EvaluatedIsAdjacent(c, p, v);
      NamesLift(v.members.Keys, Judge(c, p, v), Evaluated(c, p, v), Adjacent(c, p, v));
    }
  }

  /** Counting names that `unevaluatedProperties` accepts as evaluated changes neither its verdict nor,
      when it passes, the names that are evaluated in the end. */
  lemma NamesLift(names: set<string>, j: Verdicts, evaluated: set<string>, adjacent: set<string>)
    requires adjacent <= names
    requires evaluated == adjacent + Passed(One(UnevaluatedProperties), names, j)
    ensures Covers(names, evaluated, j) <==> Covers(names, adjacent, j)
    ensures (forall m :: m in j.members ==> m.0 != One(UnevaluatedProperties)) ==> evaluated == adjacent
    ensures Covers(names, adjacent, j) ==> evaluated == adjacent + names
  {
    if Covers(names, adjacent, j) {
      forall k | k in names ensures k in evaluated {
      }
    }
  }

  /** For every location and every instance the two readings agree. */
  lemma {:induction false} HandWrittenMatchesAnnotations(c: Contract, p: Path, v: Json)
    requires p in c.locations
    ensures Agrees(c, p, v)
    decreases Depth(v), v, c.rank[p], 2
  {
    if c.locations[p].ObjSchema? {
      InPlaceAgrees(c, p, v);
      VerdictsMatch(c, p, v);
      AgreementLifts(c, p, v);
    }
  }

  lemma {:induction false} InPlaceAgrees(c: Contract, p: Path, v: Json)
    requires p in c.locations && c.locations[p].ObjSchema?
    ensures AgreesInPlace(c, p, v)
    decreases Depth(v), v, c.rank[p], 0
  {
    var s := c.locations[p];
    if s.ref.Some? { HandWrittenMatchesAnnotations(c, s.ref.value, v); }
    forall t | t in s.children && SameInstance(t.keyword) ensures Agrees(c, p + [t], v) {
      HandWrittenMatchesAnnotations(c, p + [t], v);
    }
  }

  lemma {:induction false} VerdictsMatch(c: Contract, p: Path, v: Json)
    requires p in c.locations && c.locations[p].ObjSchema? && AgreesInPlace(c, p, v)
    ensures Judge(c, p, v) == JudgeCollecting(c, p, v)
    decreases Depth(v), v, c.rank[p], 1
  {
    var s := c.locations[p];
    var j, k := Judge(c, p, v), JudgeCollecting(c, p, v);
    forall t | t in s.children && SameInstance(t.keyword) ensures t in j.inPlace <==> t in k.inPlace {
      assert Agrees(c, p + [t], v);
    }
    assert j.inPlace == k.inPlace;
    if v.Arr? { ItemVerdictsMatch(c, p, v); }
    if v.Obj? {
      MemberVerdictsMatch(c, p, v);
      NameVerdictsMatch(c, p, v);
    }
  }

  lemma {:induction false} ItemVerdictsMatch(c: Contract, p: Path, v: Json)
    requires p in c.locations && c.locations[p].ObjSchema? && v.Arr?
    ensures Judge(c, p, v).items == JudgeCollecting(c, p, v).items
    ensures Judge(c, p, v).contained == JudgeCollecting(c, p, v).contained
    decreases Depth(v), v, c.rank[p], 0
  {
    forall t, i | t in c.locations[p].children && 0 <= i < |v.items|
      ensures Valid(c, p + [t], v.items[i]) <==> Collect(c, p + [t], v.items[i]).Some?
    {
      HandWrittenMatchesAnnotations(c, p + [t], v.items[i]);
    }
  }

  lemma {:induction false} MemberVerdictsMatch(c: Contract, p: Path, v: Json)
    requires p in c.locations && c.locations[p].ObjSchema? && v.Obj?
    ensures Judge(c, p, v).members == JudgeCollecting(c, p, v).members
    decreases Depth(v), v, c.rank[p], 0
  {
    var ch := c.locations[p].children;
    var mine, theirs := Judge(c, p, v).members, JudgeCollecting(c, p, v).members;
    forall t, k | t in ch && k in v.members ensures (t, k) in mine <==> (t, k) in theirs {
      HandWrittenMatchesAnnotations(c, p + [t], v.members[k]);
    }
    assert forall m :: m in mine || m in theirs ==> m == (m.0, m.1) && m.0 in ch && m.1 in v.members;
  }

  lemma {:induction false} NameVerdictsMatch(c: Contract, p: Path, v: Json)
    requires p in c.locations && c.locations[p].ObjSchema? && v.Obj?
    ensures Judge(c, p, v).names == JudgeCollecting(c, p, v).names
    decreases Depth(v), v, c.rank[p], 0
  {
    if One(PropertyNames) in c.locations[p].children {
      forall k | k in v.members
        ensures Valid(c, p + [One(PropertyNames)], Str(k)) <==> Collect(c, p + [One(PropertyNames)], Str(k)).Some?
      {
        HandWrittenMatchesAnnotations(c, p + [One(PropertyNames)], Str(k));
      }
    }
  }

  // ---------- The collection as the evaluator runs it ----------

  /** The recursion of the evaluator: one set grown by comprehension and by following children. */
  method EvaluatedProperties(c: Contract, p: Path, v: Json) returns (found: set<string>)
    requires p in c.locations && v.Obj?
    ensures found == Evaluated(c, p, v)
    decreases c.rank[p], 1
  {
    var s := c.locations[p];
    if s.BoolSchema? {
      return {};
    }
    var j := Judge(c, p, v);
    var names := v.members.Keys;
    found := Declared(s.children, names);
    if s.ref.Some? {
      var fromRef := EvaluatedProperties(c, s.ref.value, v);
      found := found + fromRef;
    }
    found := found + Matched(c, s.children, names);
    found := found + Passed(One(AdditionalProperties), names, j);
    found := found + Passed(One(UnevaluatedProperties), names, j);
    var followed := FollowAll(c, p, v, Followed(s.children, v, j.inPlace));
    found := found + UnionOf(followed);
    assert found == NamesHere(c, s.children, names, j) + (if s.ref.Some? then Evaluated(c, s.ref.value, v) else {}) +
        UnionOf(followed);
  }

  method FollowAll(c: Contract, p: Path, v: Json, tokens: set<Token>) returns (parts: map<Token, set<string>>)
    requires p in c.locations && c.locations[p].ObjSchema? && v.Obj?
    requires forall t :: t in tokens ==> t in c.locations[p].children && SameInstance(t.keyword)
    ensures parts == EvaluatedBelow(c, p, v, tokens)
    decreases c.rank[p], 0
  {
    parts := map[];
    var rest := tokens;
    while rest != {}
      invariant rest <= tokens && parts.Keys == tokens - rest
      invariant forall t :: t in parts ==> parts[t] == Evaluated(c, p + [t], v)
    {
      var t :| t in rest;
      var more := EvaluatedProperties(c, p + [t], v);
      parts, rest := parts[t := more], rest - {t};
    }
  }
}
