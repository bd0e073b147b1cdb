/** What a contract means, keyword by keyword, after the vocabularies of JSON Schema 2020-12; the evaluator
    decides exactly this. */
module SchemaMeaning {
  import opened Wrappers
  import opened SchemaContract

  // ---------- The meaning ----------

  /** The value satisfies the schema at this location. */
  ghost predicate Satisfies(c: Contract, p: Path, v: Json)
    requires p in c.locations
    decreases Depth(v), v, c.rank[p], 5, 0
  {
    match c.locations[p]
    case BoolSchema(value) => value
    case ObjSchema(ref, ch, _, _) =>
      && c.local(p, v)
      && (ref.Some? ==> Satisfies(c, ref.value, v))
      && SatisfiesInPlace(c, p, v)
      && (v.Arr? ==> SatisfiesItems(c, p, v))
      && (v.Obj? ==> SatisfiesMembers(c, p, v))
  }

  /** The keywords whose subschemas see the value itself. */
  ghost predicate SatisfiesInPlace(c: Contract, p: Path, v: Json)
    requires p in c.locations && c.locations[p].ObjSchema?
    decreases Depth(v), v, c.rank[p], 4, 0
  {
    EachOfAll(c, p, v) && SomeOfAny(c, p, v) && OnlyOne(c, p, v) && Branches(c, p, v) && EachDependent(c, p, v)
  }

  /** `allOf` */
  ghost predicate EachOfAll(c: Contract, p: Path, v: Json)
    requires p in c.locations && c.locations[p].ObjSchema?
    decreases Depth(v), v, c.rank[p], 3, 0
  {
    forall t :: t in c.locations[p].children && t.keyword.AllOf? ==> Satisfies(c, p + [t], v)
  }

  /** `anyOf` */
  ghost predicate SomeOfAny(c: Contract, p: Path, v: Json)
    requires p in c.locations && c.locations[p].ObjSchema?
    decreases Depth(v), v, c.rank[p], 3, 0
  {
    var ch := c.locations[p].children;
    (forall t :: t in ch ==> !t.keyword.AnyOf?) || exists t :: t in ch && t.keyword.AnyOf? && Satisfies(c, p + [t], v)
  }

  /** `oneOf` */
  ghost predicate OnlyOne(c: Contract, p: Path, v: Json)
    requires p in c.locations && c.locations[p].ObjSchema?
    decreases Depth(v), v, c.rank[p], 3, 0
  {
    var ch := c.locations[p].children;
    (forall t :: t in ch ==> !t.keyword.OneOf?) || exists t :: t in ch && IsOnly(c, p, v, t)
  }

  /** This alternative of `oneOf` is satisfied and no other. */
  ghost predicate IsOnly(c: Contract, p: Path, v: Json, t: Token)
    requires p in c.locations && c.locations[p].ObjSchema? && t in c.locations[p].children
    decreases Depth(v), v, c.rank[p], 2, 0
  {
    && t.keyword.OneOf? && Satisfies(c, p + [t], v)
    && forall u :: u in c.locations[p].children && u.keyword.OneOf? && u != t ==> !Satisfies(c, p + [u], v)
  }

  /** `not`, and `if` with the branch it selects */
  ghost predicate Branches(c: Contract, p: Path, v: Json)
    requires p in c.locations && c.locations[p].ObjSchema?
    decreases Depth(v), v, c.rank[p], 3, 0
  {
    var ch := c.locations[p].children;
    && (Token(Not, "") in ch ==> !Satisfies(c, p + [Token(Not, "")], v))
    && (Token(If, "") in ch ==>
          if Satisfies(c, p + [Token(If, "")], v) then Token(Then, "") in ch ==> Satisfies(c, p + [Token(Then, "")], v)
          else Token(Else, "") in ch ==> Satisfies(c, p + [Token(Else, "")], v))
  }

  /** `dependentSchemas` */
  ghost predicate EachDependent(c: Contract, p: Path, v: Json)
    requires p in c.locations && c.locations[p].ObjSchema?
    decreases Depth(v), v, c.rank[p], 3, 0
  {
    v.Obj? ==>
      forall k :: k in v.members && Token(DependentSchemas, k) in c.locations[p].children ==>
        Satisfies(c, p + [Token(DependentSchemas, k)], v)
  }

  /** Every item satisfies `items`, and as many as the bounds allow satisfy `contains`. */
  ghost predicate SatisfiesItems(c: Contract, p: Path, v: Json)
    requires p in c.locations && c.locations[p].ObjSchema? && v.Arr?
    decreases Depth(v), v, c.rank[p], 3, 0
  {
    var s := c.locations[p];
    && (Token(Items, "") in s.children ==>
          forall k :: 0 <= k < |v.items| ==> Satisfies(c, p + [Token(Items, "")], v.items[k]))
    && (Token(Contains, "") in s.children ==>
          var n := Count(c, p + [Token(Contains, "")], v, |v.items|);
          s.minContains <= n && (s.maxContains.Some? ==> n <= s.maxContains.value))
  }

  /** How many of the first `k` items satisfy the schema. */
  ghost function Count(c: Contract, q: Path, v: Json, k: nat): nat
    requires q in c.locations && v.Arr? && k <= |v.items|
    decreases Depth(v), v, 0, 0, k
  {
    if k == 0 then 0 else Count(c, q, v, k - 1) + if Satisfies(c, q, v.items[k - 1]) then 1 else 0
  }

  /** The keywords that apply to the members of an object and to their names. */
  ghost predicate SatisfiesMembers(c: Contract, p: Path, v: Json)
    requires p in c.locations && c.locations[p].ObjSchema? && v.Obj?
    decreases Depth(v), v, c.rank[p], 4, 0
  {
    && (forall k :: k in v.members ==> MemberSatisfies(c, p, v, k))
    && (Token(UnevaluatedProperties, "") in c.locations[p].children ==>
          forall k :: k in v.members && !Annotates(c, p, v, k) ==>
            Satisfies(c, p + [Token(UnevaluatedProperties, "")], v.members[k]))
  }

  /** `properties`, `patternProperties`, `additionalProperties` and `propertyNames` at one member */
  ghost predicate MemberSatisfies(c: Contract, p: Path, v: Json, k: string)
    requires p in c.locations && c.locations[p].ObjSchema? && v.Obj? && k in v.members
    decreases Depth(v), v, c.rank[p], 3, 0
  {
    var ch := c.locations[p].children;
    && (Token(Properties, k) in ch ==> Satisfies(c, p + [Token(Properties, k)], v.members[k]))
    && (forall t :: t in ch && t.keyword.PatternProperties? && c.search(t.name, k) ==>
          Satisfies(c, p + [t], v.members[k]))
    && (Token(AdditionalProperties, "") in ch && Token(Properties, k) !in ch && !MatchesPattern(c, ch, k) ==>
          Satisfies(c, p + [Token(AdditionalProperties, "")], v.members[k]))
    && (Token(PropertyNames, "") in ch ==> Satisfies(c, p + [Token(PropertyNames, "")], Str(k)))
  }

  predicate MatchesPattern(c: Contract, ch: map<Token, Schema>, name: string) {
    exists t :: t in ch && t.keyword.PatternProperties? && c.search(t.name, name)
  }

  /** The member is evaluated by a keyword beside `unevaluatedProperties`: by one of the property keywords
      here, or by a schema that is applied in place and satisfied. */
  ghost predicate Annotates(c: Contract, p: Path, v: Json, name: string)
    requires p in c.locations && c.locations[p].ObjSchema? && v.Obj?
    decreases Depth(v), v, c.rank[p], 2, 0
  {
    var s := c.locations[p];
    || Token(AdditionalProperties, "") in s.children || Token(Properties, name) in s.children
    || MatchesPattern(c, s.children, name)
    || (s.ref.Some? && Satisfies(c, s.ref.value, v) && Evaluates(c, s.ref.value, v, name))
    || exists t :: t in s.children && PassesOn(c, p, v, t) && Evaluates(c, p + [t], v, name)
  }

  /** The subschema is applied to the value itself, outside of `not`, and satisfied. */
  ghost predicate PassesOn(c: Contract, p: Path, v: Json, t: Token)
    requires p in c.locations && c.locations[p].ObjSchema? && v.Obj? && t in c.locations[p].children
    decreases Depth(v), v, c.rank[p], 1, 0
  {
    var ch := c.locations[p].children;
    match t.keyword
    case AllOf => Satisfies(c, p + [t], v)
    case AnyOf => Satisfies(c, p + [t], v)
    case OneOf => Satisfies(c, p + [t], v)
    case DependentSchemas => t.name in v.members && Satisfies(c, p + [t], v)
    case If => t.name == "" && Satisfies(c, p + [t], v)
    case Then =>
      t.name == "" && Token(If, "") in ch && Satisfies(c, p + [Token(If, "")], v) && Satisfies(c, p + [t], v)
    case Else =>
      t.name == "" && Token(If, "") in ch && !Satisfies(c, p + [Token(If, "")], v) && Satisfies(c, p + [t], v)
    case _ => false
  }

  /** A satisfied schema evaluates the member, `unevaluatedProperties` included. */
  ghost predicate Evaluates(c: Contract, p: Path, v: Json, name: string)
    requires p in c.locations && v.Obj?
    decreases Depth(v), v, c.rank[p], 3, 0
  {
    c.locations[p].ObjSchema? && (Token(UnevaluatedProperties, "") in c.locations[p].children ||
                                  Annotates(c, p, v, name))
  }

  // ---------- The evaluator decides the meaning ----------

  /** At this location and value, the collecting pass accepts what satisfies the schema and returns the members
      it evaluates. */
  ghost predicate Means(c: Contract, p: Path, v: Json)
    requires p in c.locations
  {
    && (Collect(c, p, v).Some? <==> Satisfies(c, p, v))
    && (v.Obj? && Satisfies(c, p, v) ==>
          forall k :: k in v.members ==> (k in Collect(c, p, v).value <==> Evaluates(c, p, v, k)))
  }

  ghost predicate MeansInPlace(c: Contract, p: Path, v: Json)
    requires p in c.locations && c.locations[p].ObjSchema?
  {
    var s := c.locations[p];
    && (s.ref.Some? ==> Means(c, s.ref.value, v))
    && (forall t :: t in s.children && SameInstance(t.keyword) ==> Means(c, p + [t], v))
  }

  ghost predicate MeansItems(c: Contract, p: Path, v: Json)
    requires p in c.locations && c.locations[p].ObjSchema? && v.Arr?
  {
    forall t, k :: t in c.locations[p].children && 0 <= k < |v.items| ==> Means(c, p + [t], v.items[k])
  }

  ghost predicate MeansMembers(c: Contract, p: Path, v: Json)
    requires p in c.locations && c.locations[p].ObjSchema? && v.Obj?
  {
    && (forall t, k :: t in c.locations[p].children && k in v.members ==> Means(c, p + [t], v.members[k]))
    && (forall t, k :: t in c.locations[p].children && k in v.members ==> Means(c, p + [t], Str(k)))
  }

  /** The tokens in place that the collecting pass accepted are those that are satisfied. */
  lemma InPlaceVerdicts(c: Contract, p: Path, v: Json)
    requires p in c.locations && c.locations[p].ObjSchema? && MeansInPlace(c, p, v)
    ensures forall t :: t in JudgeCollecting(c, p, v).inPlace <==>
              t in c.locations[p].children && SameInstance(t.keyword) && Satisfies(c, p + [t], v)
  {
    hide Satisfies, Collect, Evaluates, SameInstance;
  }

  lemma InPlaceHolds(c: Contract, p: Path, v: Json)
    requires p in c.locations && c.locations[p].ObjSchema? && MeansInPlace(c, p, v)
    ensures HoldsInPlace(c.locations[p].children, v, JudgeCollecting(c, p, v).inPlace) <==> SatisfiesInPlace(c, p, v)
  {
    hide Satisfies, Collect, Evaluates, SameInstance, JudgeCollecting, MeansInPlace;
    hide EachOfAll, SomeOfAny, OnlyOne, Branches, EachDependent;
    AllHolds(c, p, v);
    AnyHolds(c, p, v);
    OneHolds(c, p, v);
    BranchHolds(c, p, v);
    DependentHolds(c, p, v);
  }

  lemma AllHolds(c: Contract, p: Path, v: Json)
    requires p in c.locations && c.locations[p].ObjSchema? && MeansInPlace(c, p, v)
    ensures EachOfAll(c, p, v) <==>
            forall t :: t in c.locations[p].children && t.keyword == AllOf ==> t in JudgeCollecting(c, p, v).inPlace
  {
    hide Satisfies, Collect, Evaluates, JudgeCollecting, MeansInPlace;
    InPlaceVerdicts(c, p, v);
  }

  lemma AnyHolds(c: Contract, p: Path, v: Json)
    requires p in c.locations && c.locations[p].ObjSchema? && MeansInPlace(c, p, v)
    ensures var ch := c.locations[p].children;
            SomeOfAny(c, p, v) <==>
            ((exists t :: t in ch && t.keyword == AnyOf) ==>
               exists t :: t in ch && t.keyword == AnyOf && t in JudgeCollecting(c, p, v).inPlace)
  {
    hide Satisfies, Collect, Evaluates, JudgeCollecting, MeansInPlace;
    InPlaceVerdicts(c, p, v);
    assert forall t :: t in c.locations[p].children && t.keyword.AnyOf? ==>
        (t in JudgeCollecting(c, p, v).inPlace <==> Satisfies(c, p + [t], v));
  }

  ghost predicate OnePasses(ch: map<Token, Schema>, passed: set<Token>) {
    (exists t :: t in ch && t.keyword == OneOf) ==> |set t | t in ch && t.keyword == OneOf && t in passed| == 1
  }

  ghost predicate Sole(ch: map<Token, Schema>, passed: set<Token>, t: Token) {
    && t in ch && t.keyword.OneOf? && t in passed
    && forall u :: u in ch && u.keyword.OneOf? && u != t ==> u !in passed
  }

  lemma SoleIsOne(ch: map<Token, Schema>, passed: set<Token>)
    ensures OnePasses(ch, passed) <==>
            (forall t :: t in ch ==> !t.keyword.OneOf?) || exists t :: t in ch && Sole(ch, passed, t)
  {
    var chosen := set t | t in ch && t.keyword == OneOf && t in passed;
    if |chosen| == 1 {
      var t := OneElement(chosen);
      assert forall u :: u in ch && u.keyword.OneOf? && u in passed ==> u in chosen;
      assert t in chosen;
      assert Sole(ch, passed, t);
    }
    if t :| t in ch && Sole(ch, passed, t) {
      SizeOne(chosen, t);
    }
  }

  lemma OneHolds(c: Contract, p: Path, v: Json)
    requires p in c.locations && c.locations[p].ObjSchema? && MeansInPlace(c, p, v)
    ensures OnlyOne(c, p, v) <==> OnePasses(c.locations[p].children, JudgeCollecting(c, p, v).inPlace)
  {
    hide Satisfies, Collect, Evaluates, JudgeCollecting, MeansInPlace, SameInstance, IsOnly, Sole, OnePasses;
    var ch, passed := c.locations[p].children, JudgeCollecting(c, p, v).inPlace;
    OneVerdicts(c, p, v);
    SoleIsOne(ch, passed);
    forall t | t in ch
      ensures IsOnly(c, p, v, t) <==> Sole(ch, passed, t)
    {
      SoleSatisfies(c, p, v, passed, t);
    }
  }

  lemma SoleSatisfies(c: Contract, p: Path, v: Json, passed: set<Token>, t: Token)
    requires p in c.locations && c.locations[p].ObjSchema? && t in c.locations[p].children
    requires forall t :: t in c.locations[p].children && t.keyword.OneOf? ==>
             (t in passed <==> Satisfies(c, p + [t], v))
    ensures IsOnly(c, p, v, t) <==> Sole(c.locations[p].children, passed, t)
  {
    hide Satisfies;
  }

  lemma OneVerdicts(c: Contract, p: Path, v: Json)
    requires p in c.locations && c.locations[p].ObjSchema? && MeansInPlace(c, p, v)
    ensures forall t :: t in c.locations[p].children && t.keyword.OneOf? ==>
              (t in JudgeCollecting(c, p, v).inPlace <==> Satisfies(c, p + [t], v))
  {
    hide Satisfies, Collect, Evaluates, JudgeCollecting, MeansInPlace;
    InPlaceVerdicts(c, p, v);
  }

  lemma BranchHolds(c: Contract, p: Path, v: Json)
    requires p in c.locations && c.locations[p].ObjSchema? && MeansInPlace(c, p, v)
    ensures var ch, passed := c.locations[p].children, JudgeCollecting(c, p, v).inPlace;
            Branches(c, p, v) <==>
            (&& (One(Not) in ch ==> One(Not) !in passed)
             && (One(If) in ch ==>
                   if One(If) in passed then One(Then) in ch ==> One(Then) in passed
                   else One(Else) in ch ==> One(Else) in passed))
  {
    hide Satisfies, Collect, Evaluates, JudgeCollecting, MeansInPlace;
    InPlaceVerdicts(c, p, v);
  }

  lemma DependentHolds(c: Contract, p: Path, v: Json)
    requires p in c.locations && c.locations[p].ObjSchema? && MeansInPlace(c, p, v)
    ensures var ch, passed := c.locations[p].children, JudgeCollecting(c, p, v).inPlace;
            EachDependent(c, p, v) <==>
            (v.Obj? ==> forall t :: t in ch && t.keyword == DependentSchemas && t.name in v.members ==> t in passed)
  {
    hide Satisfies, Collect, Evaluates, JudgeCollecting, MeansInPlace;
    InPlaceVerdicts(c, p, v);
    if v.Obj? {
      var ch, passed := c.locations[p].children, JudgeCollecting(c, p, v).inPlace;
      assert forall t :: t in ch && t.keyword == DependentSchemas ==> t == Token(DependentSchemas, t.name);
      assert forall k :: Token(DependentSchemas, k) in ch ==>
          (Token(DependentSchemas, k) in passed <==> Satisfies(c, p + [Token(DependentSchemas, k)], v));
    }
  }

  lemma SizeOne<T>(s: set<T>, x: T)
    requires x in s && forall y :: y in s ==> y == x
    ensures |s| == 1
  {
    assert s == {x};
  }

  lemma OneElement<T>(s: set<T>) returns (x: T)
    requires |s| == 1
    ensures s == {x}
  {
    x :| x in s;
    assert |s - {x}| == 0;
    assert s == (s - {x}) + {x};
  }

  lemma {:induction false} CountIsSize(c: Contract, p: Path, v: Json, k: nat, passed: set<int>)
    requires p in c.locations && c.locations[p].ObjSchema? && v.Arr? && k <= |v.items|
    requires Token(Contains, "") in c.locations[p].children
    requires forall i :: i in passed <==> 0 <= i < k && Satisfies(c, p + [Token(Contains, "")], v.items[i])
    ensures |passed| == Count(c, p + [Token(Contains, "")], v, k)
    decreases k
  {
    hide Satisfies;
    if k == 0 {
      assert forall i :: i !in passed;
      assert passed == {};
    } else {
      CountIsSize(c, p, v, k - 1, passed - {k - 1});
      assert k - 1 in passed ==> passed == (passed - {k - 1}) + {k - 1};
    }
  }

  ghost predicate ItemsPass(s: Schema, v: Json, j: Verdicts)
    requires s.ObjSchema? && v.Arr?
  {
    && (One(Items) in s.children ==> forall i :: 0 <= i < |v.items| ==> i in j.items)
    && (One(Contains) in s.children ==>
          s.minContains <= |j.contained| && (s.maxContains.Some? ==> |j.contained| <= s.maxContains.value))
  }

  lemma ItemsHold(c: Contract, p: Path, v: Json)
    requires p in c.locations && c.locations[p].ObjSchema? && v.Arr? && MeansItems(c, p, v)
    ensures ItemsPass(c.locations[p], v, JudgeCollecting(c, p, v)) <==> SatisfiesItems(c, p, v)
  {
    hide Satisfies, Collect, Evaluates, Count, Means, JudgeCollecting, MeansItems;
    ItemVerdicts(c, p, v);
    var s, j := c.locations[p], JudgeCollecting(c, p, v);
    if One(Contains) in s.children {
      CountIsSize(c, p, v, |v.items|, j.contained);
    }
  }

  lemma ItemVerdicts(c: Contract, p: Path, v: Json)
    requires p in c.locations && c.locations[p].ObjSchema? && v.Arr? && MeansItems(c, p, v)
    ensures Token(Items, "") in c.locations[p].children ==>
              forall k :: 0 <= k < |v.items| ==>
                (k in JudgeCollecting(c, p, v).items <==> Satisfies(c, p + [Token(Items, "")], v.items[k]))
    ensures Token(Contains, "") in c.locations[p].children ==>
              forall k :: k in JudgeCollecting(c, p, v).contained <==>
                0 <= k < |v.items| && Satisfies(c, p + [Token(Contains, "")], v.items[k])
  {
    hide Satisfies, Collect, Evaluates;
  }

  lemma MemberVerdicts(c: Contract, p: Path, v: Json)
    requires p in c.locations && c.locations[p].ObjSchema? && v.Obj? && MeansMembers(c, p, v)
    ensures forall t, k :: t in c.locations[p].children && k in v.members ==>
              ((t, k) in JudgeCollecting(c, p, v).members <==> Satisfies(c, p + [t], v.members[k]))
    ensures Token(PropertyNames, "") in c.locations[p].children ==> forall k :: k in v.members ==>
              (k in JudgeCollecting(c, p, v).names <==> Satisfies(c, p + [Token(PropertyNames, "")], Str(k)))
  {
    hide Satisfies, Collect, Evaluates;
  }

  /** All keywords on members except `unevaluatedProperties`, at one member and then at all. */
  lemma MemberHolds(c: Contract, p: Path, v: Json, k: string)
    requires p in c.locations && c.locations[p].ObjSchema? && v.Obj? && MeansMembers(c, p, v) && k in v.members
    ensures MemberSatisfies(c, p, v, k) <==> MemberPasses(c, c.locations[p].children, JudgeCollecting(c, p, v), k)
  {
    hide Satisfies, Collect, Evaluates, JudgeCollecting, MeansMembers;
    MemberVerdicts(c, p, v);
    KnownIs(c, c.locations[p].children, k);
  }

  ghost predicate MemberPasses(c: Contract, ch: map<Token, Schema>, j: Verdicts, k: string) {
    && (Token(Properties, k) in ch ==> (Token(Properties, k), k) in j.members)
    && (forall t :: t in ch && t.keyword == PatternProperties && c.search(t.name, k) ==> (t, k) in j.members)
    && (One(AdditionalProperties) in ch && !c.Known(ch, k) ==> (One(AdditionalProperties), k) in j.members)
    && (One(PropertyNames) in ch ==> k in j.names)
  }

  lemma MembersPass(c: Contract, ch: map<Token, Schema>, names: set<string>, j: Verdicts)
    ensures HoldsMembers(c, ch, names, j) <==> forall k :: k in names ==> MemberPasses(c, ch, j, k)
  {
    if forall k :: k in names ==> MemberPasses(c, ch, j, k) {
      forall t | t in ch && t.keyword == Properties && t.name in names
        ensures (t, t.name) in j.members
      {
        assert t == Token(Properties, t.name);
        assert MemberPasses(c, ch, j, t.name);
      }
    }
  }

  lemma MembersHold(c: Contract, p: Path, v: Json)
    requires p in c.locations && c.locations[p].ObjSchema? && v.Obj? && MeansMembers(c, p, v)
    ensures var ch := c.locations[p].children;
            (&& HoldsMembers(c, ch, v.members.Keys, JudgeCollecting(c, p, v))
             && (Token(UnevaluatedProperties, "") in ch ==>
                   forall k :: k in v.members && !Annotates(c, p, v, k) ==>
                     (Token(UnevaluatedProperties, ""), k) in JudgeCollecting(c, p, v).members))
            <==> SatisfiesMembers(c, p, v)
  {
    hide Satisfies, Collect, Evaluates, JudgeCollecting, Annotates, MeansMembers, HoldsMembers, MemberPasses;
    hide MemberSatisfies;
    MemberVerdicts(c, p, v);
    MembersPass(c, c.locations[p].children, v.members.Keys, JudgeCollecting(c, p, v));
    forall k | k in v.members
      ensures MemberSatisfies(c, p, v, k) <==> MemberPasses(c, c.locations[p].children, JudgeCollecting(c, p, v), k)
    {
      MemberHolds(c, p, v, k);
    }
  }

  lemma KnownIs(c: Contract, ch: map<Token, Schema>, name: string)
    ensures c.Known(ch, name) <==> Token(Properties, name) in ch || MatchesPattern(c, ch, name)
  {
  }

  /** An in-place subschema passes its names on exactly when the collecting pass applies and accepts it. */
  lemma AppliedPassesOn(c: Contract, p: Path, v: Json, t: Token)
    requires p in c.locations && c.locations[p].ObjSchema? && v.Obj? && MeansInPlace(c, p, v)
    requires t in c.locations[p].children
    ensures PassesOn(c, p, v, t) <==>
            && t in Applied(c.locations[p].children, v, JudgeCollecting(c, p, v).inPlace)
            && Collect(c, p + [t], v).Some?
  {
    InPlaceVerdicts(c, p, v);
    hide Satisfies, Evaluates, JudgeCollecting, Collect;
    if SameInstance(t.keyword) {
      assert Means(c, p + [t], v);
    }
  }

  lemma BelowNames(c: Contract, p: Path, v: Json, name: string)
    requires p in c.locations && c.locations[p].ObjSchema? && v.Obj? && MeansInPlace(c, p, v) && name in v.members
    ensures name in UnionOf(CollectedBelow(c, p, v,
                                           Applied(c.locations[p].children, v, JudgeCollecting(c, p, v).inPlace))) <==>
            exists t :: t in c.locations[p].children && PassesOn(c, p, v, t) && Evaluates(c, p + [t], v, name)
  {
    var ch, applied := c.locations[p].children, Applied(c.locations[p].children, v, JudgeCollecting(c, p, v).inPlace);
    var parts := CollectedBelow(c, p, v, applied);
    hide Satisfies, Evaluates, JudgeCollecting, Collect, Applied, PassesOn;
    forall t | t in ch
      ensures t in applied && name in parts[t] <==> PassesOn(c, p, v, t) && Evaluates(c, p + [t], v, name)
    {
      AppliedPassesOn(c, p, v, t);
      PassingIsInPlace(c, p, v, t);
      if SameInstance(t.keyword) {
        assert Means(c, p + [t], v);
      }
    }
    if name in UnionOf(parts) {
      var t :| t in parts && name in parts[t];
      assert t in ch && PassesOn(c, p, v, t);
    }
    if t :| t in ch && PassesOn(c, p, v, t) && Evaluates(c, p + [t], v, name) {
      assert t in parts && name in parts[t];
    }
  }

  lemma PassingIsInPlace(c: Contract, p: Path, v: Json, t: Token)
    requires p in c.locations && c.locations[p].ObjSchema? && v.Obj? && t in c.locations[p].children
    ensures PassesOn(c, p, v, t) ==> SameInstance(t.keyword) && Satisfies(c, p + [t], v)
  {
    hide Satisfies;
  }

  lemma AdjacentAnnotates(c: Contract, p: Path, v: Json, name: string)
    requires p in c.locations && c.locations[p].ObjSchema? && v.Obj? && MeansInPlace(c, p, v) && name in v.members
    ensures name in Adjacent(c, p, v) <==> Annotates(c, p, v, name)
  {
    var s := c.locations[p];
    BelowNames(c, p, v, name);
    hide Satisfies, Evaluates, JudgeCollecting, Collect, Applied, PassesOn, CollectedBelow, UnionOf;
    if s.ref.Some? {
      assert Means(c, s.ref.value, v);
    }
  }

  /** When the collecting pass accepts an object schema, and what it returns for an object. */
  lemma CollectAccepts(c: Contract, p: Path, v: Json)
    requires p in c.locations && c.locations[p].ObjSchema?
    ensures Collect(c, p, v).Some? <==>
            && c.local(p, v)
            && (c.locations[p].ref.Some? ==> JudgeCollecting(c, p, v).ref)
            && HoldsInPlace(c.locations[p].children, v, JudgeCollecting(c, p, v).inPlace)
            && (v.Arr? ==> ItemsPass(c.locations[p], v, JudgeCollecting(c, p, v)))
            && (v.Obj? ==>
                  && HoldsMembers(c, c.locations[p].children, v.members.Keys, JudgeCollecting(c, p, v))
                  && (One(UnevaluatedProperties) in c.locations[p].children ==>
                        Covers(v.members.Keys, Adjacent(c, p, v), JudgeCollecting(c, p, v))))
    ensures v.Obj? && Collect(c, p, v).Some? ==>
              Collect(c, p, v).value ==
              if One(UnevaluatedProperties) in c.locations[p].children then Adjacent(c, p, v) + v.members.Keys
              else Adjacent(c, p, v)
  {
    hide HoldsInPlace, HoldsMembers, Covers, Adjacent, JudgeCollecting;
  }

  lemma Accepts(c: Contract, p: Path, v: Json)
    requires p in c.locations && c.locations[p].ObjSchema? && MeansInPlace(c, p, v)
    requires v.Arr? ==> MeansItems(c, p, v)
    requires v.Obj? ==> MeansMembers(c, p, v)
    requires v.Obj? ==> forall k :: k in v.members ==> (k in Adjacent(c, p, v) <==> Annotates(c, p, v, k))
    ensures Collect(c, p, v).Some? <==> Satisfies(c, p, v)
  {
    hide SatisfiesInPlace, SatisfiesItems, SatisfiesMembers, HoldsInPlace, HoldsMembers, JudgeCollecting, Adjacent;
    hide Annotates, Collect, MeansInPlace, MeansItems, MeansMembers, ItemsPass;
    CollectAccepts(c, p, v);
    InPlaceHolds(c, p, v);
    if v.Arr? {
      ItemsHold(c, p, v);
    }
    if v.Obj? {
      MembersHold(c, p, v);
    }
    RefMeans(c, p, v);
  }

  /** What the parts mean, put together. */
  lemma ObjectMeans(c: Contract, p: Path, v: Json)
    requires p in c.locations && c.locations[p].ObjSchema? && MeansInPlace(c, p, v)
    requires (v.Arr? ==> MeansItems(c, p, v)) && (v.Obj? ==> MeansMembers(c, p, v))
    ensures Means(c, p, v)
  {
    hide Adjacent, Annotates, Collect, MeansInPlace, MeansItems, MeansMembers, Satisfies, HoldsInPlace, HoldsMembers;
    hide JudgeCollecting, ItemsPass, Covers;
    if v.Obj? {
      forall k | k in v.members
        ensures k in Adjacent(c, p, v) <==> Annotates(c, p, v, k)
      {
        AdjacentAnnotates(c, p, v, k);
      }
    }
    Accepts(c, p, v);
    CollectAccepts(c, p, v);
  }

  lemma RefMeans(c: Contract, p: Path, v: Json)
    requires p in c.locations && c.locations[p].ObjSchema? && MeansInPlace(c, p, v)
    ensures c.locations[p].ref.Some? ==> (JudgeCollecting(c, p, v).ref <==> Satisfies(c, c.locations[p].ref.value, v))
  {
    hide Satisfies, Collect, Evaluates;
  }

  lemma {:induction false} CollectMeans(c: Contract, p: Path, v: Json)
    requires p in c.locations
    ensures Means(c, p, v)
    decreases Depth(v), v, c.rank[p], 1
  {
    hide SameInstance;
    var s := c.locations[p];
    if s.ObjSchema? {
      if s.ref.Some? {
        CollectMeans(c, s.ref.value, v);
      }
      forall t | t in s.children && SameInstance(t.keyword)
        ensures Means(c, p + [t], v)
      {
        CollectMeans(c, p + [t], v);
      }
      BelowMeans(c, p, v);
      hide Means;
      ObjectMeans(c, p, v);
    }
  }

  lemma {:induction false} BelowMeans(c: Contract, p: Path, v: Json)
    requires p in c.locations && c.locations[p].ObjSchema?
    ensures (v.Arr? ==> MeansItems(c, p, v)) && (v.Obj? ==> MeansMembers(c, p, v))
    decreases Depth(v), v, c.rank[p], 0
  {
    hide Means;
    var ch := c.locations[p].children;
    if v.Arr? {
      forall t, k | t in ch && 0 <= k < |v.items|
        ensures Means(c, p + [t], v.items[k])
      {
        CollectMeans(c, p + [t], v.items[k]);
      }
    }
    if v.Obj? {
      forall t, k | t in ch && k in v.members
        ensures Means(c, p + [t], v.members[k])
      {
        CollectMeans(c, p + [t], v.members[k]);
      }
      forall t, k | t in ch && k in v.members
        ensures Means(c, p + [t], Str(k))
      {
        CollectMeans(c, p + [t], Str(k));
      }
    }
  }

  /** For every location and every instance the evaluator decides the meaning of the schema, and on an accepted
      object it collects exactly the members that the schema evaluates. */
  lemma ValidIsSatisfied(c: Contract, p: Path, v: Json)
    requires p in c.locations
    ensures Valid(c, p, v) <==> Satisfies(c, p, v)
    ensures v.Obj? && Valid(c, p, v) ==> forall k :: k in v.members ==>
            (k in Evaluated(c, p, v) <==> Evaluates(c, p, v, k))
  {
    hide Valid, Satisfies, Collect, Evaluated, Evaluates;
    HandWrittenMatchesAnnotations(c, p, v);
    CollectMeans(c, p, v);
  }
}
