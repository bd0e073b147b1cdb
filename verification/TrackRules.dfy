/** The representation rules of a Track: the direct validator, and what the compiled shape demands. */
module TrackRules {
  import opened Shacl
  import opened Wrappers

  const ALL_FIELDS: set<Field> :=
    {Width, Height, Codec, PixelFormat, Cadence, FrameRate, SampleRate, Channels, ChannelLayout, SampleFormat,
     BufferLayout}

  /** The fields that the validator knows; the shape's own list above has no `representation`. */
  const TRACK_FIELDS: set<Field> :=
    {Representation, Width, Height, Codec, PixelFormat, Cadence, FrameRate, SampleRate, Channels, ChannelLayout,
     SampleFormat, BufferLayout}

  const CONSTANT := Iri("Constant")
  const MONO := Iri("Mono")
  const STEREO := Iri("StereoLR")

  datatype Rule = Rule(required: set<Field>, optional: set<Field>, choices: map<Field, seq<string>>)

  type Table = map<string, Rule>

  /** Every rule is about a known representation and names Track fields. */
  predicate WellFormed(table: Table, known: set<string>) {
    && table.Keys <= known
    && forall name :: name in table ==> table[name].required <= TRACK_FIELDS && table[name].choices.Keys <= TRACK_FIELDS
  }

  /** The fields of a Track with their normalized values; every field is single-valued. */
  type Track = map<Field, Term>

  function FocusOf(track: Track): Focus {
    map field | field in track :: {track[field]}
  }

  function Iris(names: seq<string>): seq<Term> {
    seq(|names|, i requires 0 <= i < |names| => Iri(names[i]))
  }

  // ---------- What the shape demands ----------

  function ExactlyAll(fields: set<Field>, n: nat): set<Check> {
    set field | field in fields :: Exactly(field, n)
  }

  function AmongAll(choices: map<Field, seq<string>>, fields: set<Field>): set<Check>
    requires fields <= choices.Keys
  {
    set field | field in fields :: Among(field, Iris(choices[field]))
  }

  function VariantChecks(name: string, rule: Rule): set<Check> {
    {Has(Representation, Iri(name))}
    + ExactlyAll(rule.required, 1)
    + ExactlyAll(ALL_FIELDS - rule.required - rule.optional, 0)
    + AmongAll(rule.choices, rule.choices.Keys)
  }

  function Variants(table: Table, order: seq<string>): (forms: seq<Form>)
    requires forall k :: 0 <= k < |order| ==> order[k] in table
    ensures |forms| == |order|
  {
    seq(|order|, k requires 0 <= k < |order| => All(VariantChecks(order[k], table[order[k]])))
  }

  function Implies(left: Form, right: Form): Form { Either(Negation(left), right) }

  function TrackForm(when: Check, negated: bool, expected: Check): Form {
    Implies(if negated then Negation(All({when})) else All({when}), All({expected}))
  }

  function Laws(): seq<Form> {
    [TrackForm(Has(Cadence, CONSTANT), false, Exactly(FrameRate, 1)),
     TrackForm(Has(Cadence, CONSTANT), true, Exactly(FrameRate, 0)),
     TrackForm(Has(ChannelLayout, MONO), false, Has(Channels, Number(1))),
     TrackForm(Has(ChannelLayout, STEREO), false, Has(Channels, Number(2)))]
  }

  function FirstLaws(n: nat): seq<Form>
    requires n <= 4
  {
    Laws()[..n]
  }

  lemma LawsStepwise()
    ensures FirstLaws(1) == [] + [TrackForm(Has(Cadence, CONSTANT), false, Exactly(FrameRate, 1))]
    ensures FirstLaws(2) == FirstLaws(1) + [TrackForm(Has(Cadence, CONSTANT), true, Exactly(FrameRate, 0))]
    ensures FirstLaws(3) == FirstLaws(2) + [TrackForm(Has(ChannelLayout, MONO), false, Has(Channels, Number(1)))]
    ensures Laws() == FirstLaws(3) + [TrackForm(Has(ChannelLayout, STEREO), false, Has(Channels, Number(2)))]
  {
  }

  // ---------- The direct validator ----------

  predicate FitsFields(track: Track, rule: Rule) {
    && rule.required <= track.Keys * TRACK_FIELDS
    && track.Keys * TRACK_FIELDS <= rule.required + rule.optional + {Representation}
    && FitsChoices(track, rule, TRACK_FIELDS)
  }

  predicate FitsChoices(track: Track, rule: Rule, fields: set<Field>) {
    forall field :: field in track.Keys * fields && field in rule.choices ==>
      track[field].Iri? && track[field].name in rule.choices[field]
  }

  lemma IrisAre(t: Term, names: seq<string>)
    ensures t in Iris(names) <==> t.Iri? && t.name in names
  {
    if t.Iri? && t.name in names {
      var k :| 0 <= k < |names| && names[k] == t.name;
      assert Iris(names)[k] == t;
    }
  }

  function Kept(track: Track, fields: set<Field>): Track {
    map field | field in track && field in fields :: track[field]
  }

  predicate FitsCadence(track: Track) {
    (Cadence in track && track[Cadence] == Iri("Constant")) <==> FrameRate in track
  }

  function Expected(layout: Term): Option<int> {
    if layout == Iri("Mono") then Some(1) else if layout == Iri("StereoLR") then Some(2) else None
  }

  predicate FitsChannels(track: Track) {
    ChannelLayout in track && Expected(track[ChannelLayout]).Some? ==>
      Channels in track && track[Channels] == Number(Expected(track[ChannelLayout]).value)
  }

  /** The representation is known and has a rule, and the Track follows it. */
  predicate Accepts(track: Track, table: Table, known: set<string>) {
    && Representation in track && track[Representation].Iri? && track[Representation].name in known
    && track[Representation].name in table
    && FitsFields(track, table[track[Representation].name])
    && FitsCadence(track) && FitsChannels(track)
  }

  predicate FitsStill(track: Track) {
    Representation in track && track[Representation] in {Iri("EncodedVideo"), Iri("RawVideo")} && Cadence !in track &&
        FrameRate !in track
  }

  lemma NoneFits(track: Track, rule: Rule)
    ensures FitsChoices(track, rule, {})
  {
  }

  lemma FitsOneMore(track: Track, rule: Rule, fields: set<Field>, field: Field)
    ensures FitsChoices(track, rule, fields + {field}) <==>
            && FitsChoices(track, rule, fields)
            && (field in track && field in rule.choices ==>
                track[field].Iri? && track[field].name in rule.choices[field])
  {
    assert forall other :: other in fields + {field} <==> other in fields || other == field;
  }

  lemma FitsPart(track: Track, rule: Rule, part: set<Field>, fields: set<Field>)
    requires part <= fields
    ensures FitsChoices(track, rule, fields) ==> FitsChoices(track, rule, part)
  {
  }

  /** The loop over the fields: every restricted value is one of its choices. */
  method NormalizeFields(value: Track, rule: Rule, fields: set<Field>) returns (r: Result<Track>)
    ensures r.Ok? <==> FitsChoices(value, rule, fields)
    ensures r.Ok? ==> r.value == Kept(value, fields)
  {
    hide FitsChoices;
    NoneFits(value, rule);
    var result: Track, pending := map[], fields;
    assert fields - pending == {};
    while pending != {}
      invariant pending <= fields && result == Kept(value, fields - pending)
      invariant FitsChoices(value, rule, fields - pending)
      decreases |pending|
    {
      var field :| field in pending;
      assert fields - (pending - {field}) == fields - pending + {field};
      FitsOneMore(value, rule, fields - pending, field);
      FitsPart(value, rule, fields - pending + {field}, fields);
      pending := pending - {field};
      if field in value {
        var item := value[field];
        if field in rule.choices && !(item.Iri? && item.name in rule.choices[field]) {
          return Err;
        }
        result := result[field := item];
      }
    }
    assert fields - {} == fields;
    return Ok(result);
  }

  method NormalizeTrack(value: Track, still: bool, table: Table, known: set<string>) returns (r: Result<Track>)
    ensures r.Ok? <==> Accepts(value, table, known) && (still ==> FitsStill(value))
    ensures r.Ok? ==> r.value == Kept(value, TRACK_FIELDS)
  {
    hide Iris, FitsChoices;
    if Representation !in value || !value[Representation].Iri? || value[Representation].name !in known {
      return Err;
    }
    var representation := value[Representation];
    if representation.name !in table {
      return Err;
    }
    var rule := table[representation.name];
    var permitted := rule.required + rule.optional + {Representation};
    var fields := value.Keys * TRACK_FIELDS;
    if rule.required - fields != {} || fields - permitted != {} {
      Unfit(value, rule);
      return Err;
    }
    var result :- NormalizeFields(value, rule, TRACK_FIELDS);
    assert FitsFields(value, rule) by { Unfit(value, rule); }
    hide FitsFields;
    if still
       && (representation !in {Iri("EncodedVideo"), Iri("RawVideo")} || Cadence in result || FrameRate in result) {
      return Err;
    }
    if (Cadence in result && result[Cadence] == Iri("Constant")) != (FrameRate in result) {
      return Err;
    }
    if ChannelLayout in result {
      var expected := Expected(result[ChannelLayout]);
      if expected.Some? && (Channels !in result || result[Channels] != Number(expected.value)) {
        return Err;
      }
    }
    return Ok(result);
  }

  lemma Unfit(track: Track, rule: Rule)
    ensures FitsFields(track, rule) <==>
            && rule.required - track.Keys * TRACK_FIELDS == {}
            && track.Keys * TRACK_FIELDS - (rule.required + rule.optional + {Representation}) == {}
            && FitsChoices(track, rule, TRACK_FIELDS)
  {
    hide FitsChoices;
  }

  // ---------- The two agree ----------

  lemma OneValue(track: Track, field: Field)
    ensures Of(FocusOf(track), field) == if field in track then {track[field]} else {}
  {
  }

  lemma CheckOnTrack(track: Track, field: Field, t: Term, among: seq<Term>)
    ensures Holds(Exactly(field, 1), FocusOf(track)) <==> field in track
    ensures Holds(Exactly(field, 0), FocusOf(track)) <==> field !in track
    ensures Holds(Has(field, t), FocusOf(track)) <==> field in track && track[field] == t
    ensures Holds(Among(field, among), FocusOf(track)) <==> (field in track ==> track[field] in among)
  {
    OneValue(track, field);
  }

  /** One variant demands its representation and the fields of its rule. */
  lemma VariantOnTrack(track: Track, name: string, rule: Rule)
    requires rule.required <= TRACK_FIELDS && rule.choices.Keys <= TRACK_FIELDS
    ensures HoldAll(VariantChecks(name, rule), FocusOf(track)) <==>
            Representation in track && track[Representation] == Iri(name) && FitsFields(track, rule)
  {
    hide Holds, FocusOf, Iris;
    var f, checks := FocusOf(track), VariantChecks(name, rule);
    CheckOnTrack(track, Representation, Iri(name), []);
    forall field: Field
      ensures Holds(Exactly(field, 1), f) <==> field in track
      ensures Holds(Exactly(field, 0), f) <==> field !in track
    {
      CheckOnTrack(track, field, NIL, []);
    }
    forall field | field in rule.choices
      ensures Holds(Among(field, Iris(rule.choices[field])), f) <==>
              (field in track ==> track[field].Iri? && track[field].name in rule.choices[field])
    {
      CheckOnTrack(track, field, NIL, Iris(rule.choices[field]));
      if field in track {
        IrisAre(track[field], rule.choices[field]);
      }
    }
    if HoldAll(checks, f) {
      assert Holds(Has(Representation, Iri(name)), f);
      forall field | field in rule.required
        ensures field in track
      {
        assert Exactly(field, 1) in checks;
      }
      forall field | field in ALL_FIELDS - rule.required - rule.optional
        ensures field !in track
      {
        assert Exactly(field, 0) in checks;
      }
      forall field | field in track.Keys * TRACK_FIELDS && field in rule.choices
        ensures track[field].Iri? && track[field].name in rule.choices[field]
      {
        assert Among(field, Iris(rule.choices[field])) in checks;
      }
    }
    if Representation in track && track[Representation] == Iri(name) && FitsFields(track, rule) {
      forall c | c in checks
        ensures Holds(c, f)
      {
        if field :| field in ALL_FIELDS - rule.required - rule.optional && c == Exactly(field, 0) {
          assert field in TRACK_FIELDS && field != Representation;
          assert field in track ==> field in track.Keys * TRACK_FIELDS;
        } else if field :| field in rule.choices.Keys && c == Among(field, Iris(rule.choices[field])) {
          assert field in track ==> field in track.Keys * TRACK_FIELDS;
        }
      }
    }
  }

  predicate Enumerates(order: seq<string>, table: Table) {
    && (forall k :: 0 <= k < |order| ==> order[k] in table)
    && (forall j, k :: 0 <= j < k < |order| ==> order[j] != order[k])
    && (forall name :: name in table ==> name in order)
  }

  /** At most one variant can hold, so exactly one does when the Track's own does. */
  lemma {:induction false} CountVariants(track: Track, table: Table, order: seq<string>, n: nat)
    requires n <= |order| && (forall k :: 0 <= k < |order| ==> order[k] in table)
    requires forall j, k :: 0 <= j < k < |order| ==> order[j] != order[k]
    requires forall name :: name in table ==>
             table[name].required <= TRACK_FIELDS && table[name].choices.Keys <= TRACK_FIELDS
    ensures MeetCount(Variants(table, order)[..n], FocusOf(track)) ==
            if exists k :: 0 <= k < n && Representation in track && track[Representation] == Iri(order[k]) &&
                FitsFields(track, table[order[k]]) then 1 else 0
    decreases n
  {
    hide FitsFields, VariantChecks, HoldAll, FocusOf;
    if n > 0 {
      CountVariants(track, table, order, n - 1);
      VariantOnTrack(track, order[n - 1], table[order[n - 1]]);
      assert Variants(table, order)[..n][..n - 1] == Variants(table, order)[..n - 1];
    }
  }

  lemma LawsOnTrack(track: Track)
    ensures MeetCount(Laws(), FocusOf(track)) == |Laws()| <==> FitsCadence(track) && FitsChannels(track)
  {
    hide FocusOf, Holds, MeetCount, Laws, Meets;
    var f := FocusOf(track);
    FourLaws(f);
    CheckOnTrack(track, Cadence, CONSTANT, []);
    CheckOnTrack(track, FrameRate, NIL, []);
    CheckOnTrack(track, ChannelLayout, MONO, []);
    CheckOnTrack(track, ChannelLayout, STEREO, []);
    CheckOnTrack(track, Channels, Number(1), []);
    CheckOnTrack(track, Channels, Number(2), []);
    LawMeans(Has(Cadence, CONSTANT), false, Exactly(FrameRate, 1), f);
    LawMeans(Has(Cadence, CONSTANT), true, Exactly(FrameRate, 0), f);
    LawMeans(Has(ChannelLayout, MONO), false, Has(Channels, Number(1)), f);
    LawMeans(Has(ChannelLayout, STEREO), false, Has(Channels, Number(2)), f);
  }

  lemma FourLaws(f: Focus)
    ensures MeetCount(Laws(), f) == |Laws()| <==>
            && Meets(TrackForm(Has(Cadence, CONSTANT), false, Exactly(FrameRate, 1)), f)
            && Meets(TrackForm(Has(Cadence, CONSTANT), true, Exactly(FrameRate, 0)), f)
            && Meets(TrackForm(Has(ChannelLayout, MONO), false, Has(Channels, Number(1))), f)
            && Meets(TrackForm(Has(ChannelLayout, STEREO), false, Has(Channels, Number(2))), f)
  {
    hide Meets;
    var l := Laws();
    assert l[..4] == l;
    assert l[..4][..3] == l[..3] && l[..3][..2] == l[..2] && l[..2][..1] == l[..1] && l[..1][..0] == [];
    assert MeetCount(l, f) == MeetCount(l[..3], f) + if Meets(l[3], f) then 1 else 0;
    assert MeetCount(l[..3], f) == MeetCount(l[..2], f) + if Meets(l[2], f) then 1 else 0;
    assert MeetCount(l[..2], f) == MeetCount(l[..1], f) + if Meets(l[1], f) then 1 else 0;
    assert MeetCount(l[..1], f) == if Meets(l[0], f) then 1 else 0;
  }

  lemma LawMeans(when: Check, negated: bool, expected: Check, f: Focus)
    ensures Meets(TrackForm(when, negated, expected), f) <==> (Holds(when, f) != negated ==> Holds(expected, f))
  {
    hide Holds;
    MeetsImplies(All({when}), All({expected}), f);
    MeetsImplies(Negation(All({when})), All({expected}), f);
    OneCheck(when, f);
    OneCheck(expected, f);
  }

  lemma MeetsImplies(a: Form, b: Form, f: Focus)
    ensures Meets(Implies(a, b), f) == (Meets(a, f) ==> Meets(b, f)) && Meets(Negation(a), f) == !Meets(a, f)
  {
  }

  lemma OneCheck(c: Check, f: Focus)
    ensures Meets(All({c}), f) == Holds(c, f)
  {
  }

  /** The compiled demands hold of a Track exactly when the direct checks do. */
  lemma DemandsAreChecks(track: Track, table: Table, known: set<string>, order: seq<string>)
    requires WellFormed(table, known) && Enumerates(order, table)
    ensures MeetCount(Variants(table, order), FocusOf(track)) == 1 && MeetCount(Laws(), FocusOf(track)) == |Laws()|
            <==> Accepts(track, table, known)
  {
    hide FitsFields, VariantChecks, FocusOf, MeetCount, FitsCadence, FitsChannels, Laws;
    CountVariants(track, table, order, |order|);
    assert Variants(table, order)[..|order|] == Variants(table, order);
    LawsOnTrack(track);
  }
}
