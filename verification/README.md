# Verified models of the WoT AV and ONVIF reference tools

These Dafny modules model the algorithms and protocols of the repository that are hardest to get right, and prove what each of
them is for. `dafny verify dfyconfig.toml` checks everything. Code that works by expressions and recursion is a function here;
code that changes fields, moves a cursor, runs a worklist or loops over variables is a method or a class, and its contract ties it
to a specification function or predicate about which the results are proved.

- **Schema contracts** (`SchemaContract`, `SchemaMeaning`, `SchemaCompile`). A compiled contract is a table of locations. The
  compiler's verdict is exact: too many locations, an unresolved reference, a cycle of same-instance edges, or a table ranked along
  those edges. On every such table the hand-written `evaluated_properties` check gives the verdict, and on accepted objects the names, of the
  annotation-collecting reading of section 11.3 of JSON Schema Core 2020-12, and both decide what the schema means, which is
  stated keyword by keyword without the evaluator. Evaluation terminates by the lexicographic measure
  (instance, rank), which is the `decreases` clause of the evaluator itself.
- **Portable regular expressions** (`RegexTree`, `RegexMatch`, `RegexParse`, `RegexSyntax`, `RegexGrammar`, `RegexPrint`). The memoised
  matcher computes the denotation over sets of characters, with a tick bound over all start positions; the parser accepts exactly
  a grammar with its own tables of code points, inverts a printer on canonical trees, and returns canonical trees only.
- **Canonical XML codec** (`XmlCodec`, `XmlMeaning`, `XmlElements`, `XmlRelations`, `XmlWriting`, `XmlRoundTrip`, `XmlLoops`).
  The decoder returns exactly what an element stands for and the encoder writes exactly what a value is written as, both stated
  as relations down to the lexical space of every scalar kind. Decoding inverts encoding up to a canonical form exactly when no
  element with a declared default carries an explicit value that encodes to nothing and no attribute is given that the decoder
  takes for a nil or type mark.
- **Track shapes** (`Shacl`, `TrackRules`, `ShapeBuilder`). The shape compiled triple by triple from the representation rules, read by
  sections 4.6.1 to 4.6.4 of W3C SHACL, accepts exactly the Tracks that the direct validator accepts.
- **Worker pipe** (`IpcFrame`, `IpcReader`, `IpcQueue`) and **metadata reassembly** (`Metadata`). An incremental decoder agrees with a
  one-shot parse however bytes arrive; the bounded queue conserves frames in every interleaving; reassembled documents are exactly
  the coherent packet runs that begin right after a marker.
- **Archive verification** (`PaxRecords`, `TarArchive`, `TarInspector`). The inspector accepts exactly the bytes that spell a legal
  archive of the plan, laid out in blocks of 512 bytes.
- **Source lock** (`SourceLock`, `SourceRegistry`). Loading decides validity, selection is a least closure, and an export loads again
  exactly when there was something to select from.
- **Generated regions** (`GeneratedRegions`). Assembling accepts exactly the texts whose marker lines delimit one region for each body,
  fills exactly those regions, and leaves its own result alone exactly when every body is made of whole lines without a marker.
- **URI templates** (`UriTemplate`, `ScalarText`, `UriMeaning`). The expander gives exactly the text that the grammar of a template and
  the operators of RFC 6570 give.
- **JSON layout** (`JsonFormat`) and the **bridge lifecycle** (`Bridge`).

`Wrappers`, `Decimals` and `TextTools` hold the option and result types, decimal and hexadecimal texts, and searching and stripping.

## Model

| member | source | states |
|---|---|---|
| SchemaContract.HandWrittenMatchesAnnotations | av/tools/schema_contract.py:317-353 | For every compiled contract, location and instance, the hand-written check and the annotation-collecting reading give the same verdict, and on an accepted object the same evaluated names; by `SchemaMeaning.ValidIsSatisfied` both are what the schema means |
| SchemaMeaning.ValidIsSatisfied | av/tools/schema_contract.py:262-353 | For every compiled contract, location and instance, the evaluator accepts exactly what satisfies the schema, stated keyword by keyword on the schema and the value: the members, patterns, other members and names of objects, items, `contains` with its bounds, the combinators, conditions, dependent schemas and unevaluated members; on an accepted object the names it collects are those the schema evaluates |
| SchemaMeaning.CollectMeans | av/tools/schema_contract.py:317-353 | The same for the annotation-collecting reading |
| SchemaContract.EvaluatedIsAdjacent | av/tools/schema_contract.py:317-348 | Once the other keywords pass, the names collected without checking references, dependent schemas and then/else differ from the adjacent annotations only by names that already satisfy `unevaluatedProperties` |
| SchemaContract.FollowedIsApplied | av/tools/schema_contract.py:333-347 | When the in-place keywords hold, the subschemas whose names are collected are exactly the applied ones that passed |
| SchemaContract.NamesLift | av/tools/schema_contract.py:328-332 | Letting a schema's own `unevaluatedProperties` feed the set changes neither its verdict nor the final names |
| SchemaContract.AdditionalCovers | av/tools/schema_contract.py:306-311 | A passing `additionalProperties` leaves no name unevaluated |
| SchemaContract.EvaluatedProperties | av/tools/schema_contract.py:317-348 | The set grown by the loops is the specified name set |
| SchemaContract.FollowAll | av/tools/schema_contract.py:333-347 | The recursion into followed subschemas collects each one's names |
| SchemaContract.RankExcludesCycle | av/tools/schema_contract.py:233-246 | A ranked edge graph has no cycle |
| SchemaContract.LocatesCloses | av/tools/schema_contract.py:194-200 | A complete location table is closed under children |
| SchemaCompile.Compile | av/tools/schema_contract.py:109-259 | The outcome is the exact verdict on the schema: location budget, dangling reference, same-instance cycle, or acceptance with a ranked table of all locations |
| SchemaCompile.Compiler.Visit | av/tools/schema_contract.py:130-198 | The recursion records exactly the subtree below a path with its same-instance edges, or stops because a location beyond the budget exists |
| SchemaCompile.Compiler.ResolveReferences | av/tools/schema_contract.py:222-230 | Adds exactly the reference edges, or finds a reference to no location |
| SchemaCompile.Compiler.Acyclic | av/tools/schema_contract.py:233-243 | The depth-first search closes a walk on failure and extends a ranking of visited locations on success |
| SchemaCompile.Compiler.SearchAll | av/tools/schema_contract.py:245-246 | Either every location is ranked or some walk is closed |
| SchemaCompile.RankedIsAcyclic | av/tools/schema_contract.py:233-246 | A table ranked along all its edges has no cycle of same-instance edges |
| SchemaCompile.WalkIsCycle | av/tools/schema_contract.py:233-236 | The walk found by the search is a circle of the schema itself |
| SchemaCompile.CycleIsCircle | av/tools/schema_contract.py:189-246 | A closed walk along the recorded edges is one in which each subschema looks at its own instance again, through its reference or through one of eight keywords |
| SchemaCompile.TooMany | av/tools/schema_contract.py:131-133 | Stopping at the budget means the schema has more locations than allowed |
| SchemaCompile.WithinLimit | av/tools/schema_contract.py:131-134 | A recorded schema does not exceed the budget |
| RegexMatch.Search | av/tools/portable_regex.py:23-70 | Found exactly when some substring matches, every class being a set of characters, with at most tree size times (length + 1) ticks over all starts |
| RegexTree.AcceptsIsMember | av/tools/portable_regex.py:73-89 | A character is accepted exactly when it lies in the set of the class: ten digits, 63 word characters, all but four line ends, a range by code points, a union, a complement |
| RegexMatch.Searcher.Evaluate | av/tools/portable_regex.py:26-68 | With a sound cache, the returned set is the set of ends of the denotational matches, and ticks count new cache entries |
| RegexMatch.Searcher.EvaluateSeq | av/tools/portable_regex.py:42-45 | Positions are threaded through a sequence |
| RegexMatch.Searcher.EvaluateAlt | av/tools/portable_regex.py:40-41 | The ends of an alternative are the union of its branches' ends |
| RegexMatch.Searcher.RepeatUnbounded | av/tools/portable_regex.py:52-58 | The frontier fixpoint reaches exactly the ends of `min` or more iterations, also over empty bodies |
| RegexMatch.Searcher.RepeatBounded | av/tools/portable_regex.py:59-64 | The bounded loop reaches exactly the ends of `min` to `max` iterations, also when it stops early |
| RegexMatch.RepeatEnds | av/tools/portable_regex.py:46-64 | The iteration counts of a repeat describe its matches |
| RegexMatch.FixpointEnds | av/tools/portable_regex.py:52-58 | A set closed under one more iteration holds all ends of the unbounded repeat |
| RegexMatch.CacheBounded | av/tools/portable_regex.py:27-30 | The cache holds at most one entry for each node and position |
| RegexTree.MatchStays | av/tools/portable_regex.py:32-64 | A match ends at or after its start and within the text |
| RegexParse.CompilePattern | av/tools/portable_regex.py:92-245 | The cursor-moving parser returns exactly what the specified parse gives, failures included |
| RegexParse.Parser.ParseEscape | av/tools/portable_regex.py:103-143 | An escape is read as specified, and the cursor moves past it |
| RegexParse.Parser.ParseUnicode | av/tools/portable_regex.py:118-140 | Unicode escapes, surrogate pairs and scalar checks |
| RegexParse.Parser.ParseClass | av/tools/portable_regex.py:153-171 | A character class is read item by item |
| RegexParse.Parser.ParseQuantifier | av/tools/portable_regex.py:206-230 | The bounds of a quantifier, with order and budget checks |
| RegexParse.Parser.ParseAtom | av/tools/portable_regex.py:173-199 | One atom, with groups |
| RegexParse.Parser.ParseSequence | av/tools/portable_regex.py:201-232 | Items up to a bar or a closing parenthesis |
| RegexParse.Parser.ParseAlternative | av/tools/portable_regex.py:234-240 | Branches separated by bars |
| RegexGrammar.CompileIsGrammar | av/tools/portable_regex.py:92-245 | A text within the length bound compiles to a tree exactly when some concrete spelling of the grammar writes the text and means the tree |
| RegexSyntax.ReadBranches | av/tools/portable_regex.py:234-240 | Every valid spelling of branches is read back as its meaning |
| RegexSyntax.ReadBounds | av/tools/portable_regex.py:211-222 | Every valid spelling of repetition bounds is read back |
| RegexSyntax.ReadEscaped | av/tools/portable_regex.py:103-143 | Every valid escape is read back |
| RegexSyntax.TablesAgree | av/tools/portable_regex.py:111-117 | The escapes of syntax characters, of the five control characters by their code points, and of the four shorthand classes are those of the grammar |
| Decimals.HexIsPlaceValue | av/tools/portable_regex.py:125-131 | Hexadecimal digits are read by their place value |
| Decimals.DecimalIsPlaceValue | av/tools/portable_regex.py:211-222 | Decimal digits are read by their place value |
| RegexPrint.ParseInvertsPrint | av/tools/portable_regex.py:92-245 | Compiling the printed form of a canonical tree returns the tree |
| RegexPrint.AcceptedIsCanonical | av/tools/portable_regex.py:201-245 | Every accepted tree is canonical and has at most 2·length + 1 nodes |
| RegexPrint.AcceptedTrees | av/tools/portable_regex.py:92-245 | Some text compiles to a tree exactly when the tree is canonical |
| RegexPrint.CanonicalAtomOrdered | av/tools/portable_regex.py:221-227 | Canonical trees have ordered repeat bounds |
| RegexPrint.PatternSearch | av/tools/portable_regex.py:19-70 | Compiling and searching makes at most (2·pattern length + 1)·(text length + 1) ticks |
| XmlRoundTrip.DecodeInvertsEncode | onvif/samples/applications/spec-consumer/public_contract.py:268-400 | For every well-formed registry and accepted value, decoding the encoded tree gives the canonical value exactly when no defaulted element carries an explicit empty value and no attribute named xsi:nil or xsi:type is given |
| XmlRoundTrip.EmptyDefaultIsLost | onvif/samples/applications/spec-consumer/public_contract.py:282-287 | A concrete value with an explicit empty text in a defaulted element comes back as the default marker |
| XmlRoundTrip.MarkedAttributeIsLost | onvif/samples/applications/spec-consumer/public_contract.py:331-342 | A concrete value whose attribute is named xsi:type is encoded, and the decoder refuses the result |
| XmlRoundTrip.EncodeCanon | onvif/samples/applications/spec-consumer/public_contract.py:268-329 | Where no particle has a reserved key, encoding the canonical value gives the same tree |
| XmlRoundTrip.ReservedKeyIsRefused | onvif/samples/applications/spec-consumer/public_contract.py:268-276 | A concrete registry with the reserved key `$type` whose canonical value is refused by the encoder |
| XmlRoundTrip.SameTreeSameCanon | onvif/samples/applications/spec-consumer/public_contract.py:268-400 | Explicit values have the same encoding exactly when they have the same canonical form |
| XmlRoundTrip.AttributesBack | onvif/samples/applications/spec-consumer/public_contract.py:364-379 | Attributes written are read back under their keys |
| XmlRoundTrip.ParticlesBack | onvif/samples/applications/spec-consumer/public_contract.py:380-397 | The children of a sequence are consumed particle by particle and give the members back |
| XmlRoundTrip.RunBack | onvif/samples/applications/spec-consumer/public_contract.py:386-389 | The run of elements of one particle gives its items back and stops at the next name |
| XmlCodec.ScalarRoundTrip | onvif/samples/applications/spec-consumer/public_contract.py:195-266 | An accepted scalar, written and read again through its restrictions, is unchanged |
| XmlCodec.PrimitiveRoundTrip | onvif/samples/applications/spec-consumer/public_contract.py:230-266 | The same for the primitive kinds |
| XmlMeaning.PrimitiveIsDenoted | onvif/samples/applications/spec-consumer/public_contract.py:230-259 | For every kind, text and value: the text is read as the value exactly when it lies in the lexical space of the value, blanks around numbers and booleans, signs, leading zeros, ranges, and the words of collapsed texts included |
| XmlMeaning.NormalizedIsTreated | onvif/samples/applications/spec-consumer/public_contract.py:204-212 | The treatment of blanks gives the text, and the only one, that has the same words with single spaces between |
| XmlMeaning.ScalarIsMeant | onvif/samples/applications/spec-consumer/public_contract.py:195-260 | The same through aliases, restrictions, length facets and enumerations |
| XmlMeaning.WritableIsMeant | onvif/samples/applications/spec-consumer/public_contract.py:195-266 | A value is accepted for writing exactly when a text that spells it stands for it, and that text is written |
| XmlMeaning.ResolveStandsFor | onvif/samples/applications/spec-consumer/public_contract.py:185-193 | An alias resolves exactly to the end of its chain, and fails exactly when the chain has no end |
| XmlRelations.DecodeIsRead | onvif/samples/applications/spec-consumer/public_contract.py:331-400 | For every well-formed registry, element and value, the decoder returns the value exactly when the element stands for it: names, nil and default marks, attributes, one run of children for each particle within its occurrence bounds, fixed texts and spacing |
| XmlWriting.EncodeIsWritten | onvif/samples/applications/spec-consumer/public_contract.py:268-329 | For every well-formed registry, value and element, the encoder returns the element exactly when the value is written as it |
| XmlCodec.ResolveAlias | onvif/samples/applications/spec-consumer/public_contract.py:185-193 | The visited-set loop finds the end of an alias chain or fails on a cycle |
| XmlLoops.WriteElement | onvif/samples/applications/spec-consumer/public_contract.py:268-329 | The encoder with its loops computes the specified tree |
| XmlLoops.ReadElement | onvif/samples/applications/spec-consumer/public_contract.py:331-400 | The decoder with its loops computes the specified value |
| XmlLoops.WriteAttributes | onvif/samples/applications/spec-consumer/public_contract.py:293-305 | The attribute loop of the encoder |
| XmlLoops.WriteParticles | onvif/samples/applications/spec-consumer/public_contract.py:307-324 | The particle loop of the encoder |
| XmlLoops.ReadAttributes | onvif/samples/applications/spec-consumer/public_contract.py:364-377 | The attribute loops of the decoder |
| XmlLoops.ReadRun | onvif/samples/applications/spec-consumer/public_contract.py:386-389 | The position loop over one particle's elements |
| XmlLoops.ReadParticles | onvif/samples/applications/spec-consumer/public_contract.py:380-397 | The particle loop of the decoder |
| ShapeBuilder.MakeTrackShape | av/tools/model.py:287-321 | For every well-formed rule table, compiled into any shapes in which the Track shape has no constraint yet and followed by implications of other owners, the finished Track shape conforms on a Track exactly when the direct checks accept it |
| TrackRules.DemandsAreChecks | av/tools/matching.py:136-172 | One variant and all implications hold of a Track exactly when the direct checks do |
| TrackRules.CountVariants | av/tools/model.py:293-303 | At most one variant can hold, so `sh:xone` holds when the Track's own variant does |
| TrackRules.VariantOnTrack | av/tools/model.py:294-301 | A variant demands its representation and the required, forbidden and chosen fields of its rule |
| TrackRules.LawsOnTrack | av/tools/model.py:304-312 | The four implications are the cadence and channel-layout checks |
| TrackRules.NormalizeTrack | av/tools/matching.py:131-173 | The validator succeeds exactly on accepted Tracks (and on image Tracks without cadence for stills) and returns their fields |
| Shacl.OrMeans | av/tools/model.py:188-193 | A node with one `sh:or` pair means the disjunction, whatever triples are added elsewhere later |
| Shacl.NotMeans | av/tools/model.py:189-190 | A node with one `sh:not` means the negation |
| Shacl.OwnerMeans | av/tools/model.py:195-197 | An owner with one `sh:xone` and one `sh:and` list holds when exactly one variant and every constraint hold |
| Shacl.ListIsUnique | av/tools/model.py:146-157 | A list head spells at most one list |
| ShapeBuilder.WrittenDemands | av/tools/model.py:164-175 | A property shape written out in triples demands its counts, required value and allowed values |
| ShapeBuilder.Shapes.RdfList | av/tools/model.py:146-157 | The cells added spell exactly the given values and concern new blank nodes only |
| ShapeBuilder.Shapes.NewProperty | av/tools/model.py:164-172 | Exactly the triples of a property shape are added |
| ShapeBuilder.Shapes.MemberOf | av/tools/model.py:174-175 | An `sh:in` list of the given values |
| ShapeBuilder.Shapes.CheckNode | av/tools/model.py:177-186 | A node that demands exactly one check |
| ShapeBuilder.Shapes.Implication | av/tools/model.py:188-193 | The constraint appended to an owner means the implication |
| ShapeBuilder.Shapes.Variant | av/tools/model.py:295-302 | The node built for a representation demands exactly its checks |
| ShapeBuilder.Shapes.TrackVariants | av/tools/model.py:287-312 | The Track shape gets one variant for each rule and the four implications |
| ShapeBuilder.Shapes.Finish | av/tools/model.py:195-197 | Every owner's constraints become one `sh:and` list and nothing else changes |
| IpcFrame.FrameBack | onvif/tools/fixtures/native-media/p0_ipc.c:11-22 | A written header is good, tells its payload length, and gives its command back |
| IpcFrame.HeaderLayout | onvif/tools/fixtures/native-media/p0_ipc.c:11-22 | The bytes of a header by position: four letters and six numbers in network order |
| IpcFrame.GoodHeaderIs | onvif/tools/fixtures/native-media/p0_ipc.c:97-104 | A header is good exactly when its letters, its protocol number and the bound on its length are right |
| IpcReader.ParseInvertsStream | onvif/tools/fixtures/native-media/p0_ipc.c:90-128 | Parsing a concatenation of frames gives the commands, whatever follows |
| IpcReader.ChunksDoNotMatter | onvif/tools/fixtures/native-media/p0_ipc.c:90-128 | In every run, failing system calls included, the commands returned are a prefix of those of the whole stream, complete once nothing is left to do; the full-buffer failure never occurs; end of input is reported only for whole frames |
| IpcReader.ReadStep | onvif/tools/fixtures/native-media/p0_ipc.c:96-128 | One call takes from the pending bytes exactly the command it returns |
| IpcReader.ParseGrows | onvif/tools/fixtures/native-media/p0_ipc.c:96-118 | Later bytes extend a parse without changing its commands |
| IpcReader.FrontStays | onvif/tools/fixtures/native-media/p0_ipc.c:96-124 | A full buffer always shows a bad header or a whole command |
| IpcReader.Ipc.ReadCommand | onvif/tools/fixtures/native-media/p0_ipc.c:90-128 | The in-place buffer version is the specified call, failing peeks and reads included |
| IpcReader.Ipc.Drain | onvif/tools/fixtures/native-media/p0_ipc.c:90-128 | Repeated calls return all commands of the pending bytes, then a bad header, nothing, end of input exactly for whole frames, or a broken frame |
| IpcQueue.NothingIsLost | onvif/tools/fixtures/native-media/p0_ipc.c:39-68 | In every interleaving, accepted = written + discarded + counted as queued (after clearing: written + discarded); the byte counter is exact and within its bound |
| IpcQueue.PipeIsInOrder | onvif/tools/fixtures/native-media/p0_ipc.c:24-68 | The pipe carries accepted frames 1..n in order and then a part of the next, proper unless the writer is about to settle it |
| IpcQueue.PeakIsHighest | onvif/tools/fixtures/native-media/p0_ipc.c:161-164 | The reported peak is the most bytes ever queued in the run |
| IpcQueue.FailedOnlyUnstopped | onvif/tools/fixtures/native-media/p0_ipc.c:62-66 | In every run, failure is reported exactly when the writer gave up a frame before anybody asked it to stop |
| IpcQueue.StepKeeps | onvif/tools/fixtures/native-media/p0_ipc.c:39-200 | Every atomic step of producer, writer, stopper and clearing keeps the invariant |
| IpcQueue.PushExactly | onvif/tools/fixtures/native-media/p0_ipc.c:149-164 | Within the bounds the unsigned counters never wrap; only the sequence number does |
| IpcQueue.DataQueue.PushTail | onvif/tools/fixtures/native-media/p0_ipc.c:152-167 | The guarded part of a send |
| IpcQueue.DataQueue.PopHead | onvif/tools/fixtures/native-media/p0_ipc.c:46-48 | The guarded part of taking a frame |
| IpcQueue.DataQueue.SettleFrame | onvif/tools/fixtures/native-media/p0_ipc.c:54-59 | The guarded part of settling a frame |
| IpcQueue.DataQueue.ClearFrames | onvif/tools/fixtures/native-media/p0_ipc.c:186-192 | Clearing counts every remaining frame as discarded and leaves the other counters |
| Metadata.FinishedIsDocument | onvif/tools/fixtures/native-media/p0_metadata.c:126-170 | After any history, a finished document is a run with one source, consecutive sequence numbers modulo 2^16, the marker on its last packet only, inside the deadline and size, that began right after a marker; content and fields are that run's |
| Metadata.DocumentFinishes | onvif/tools/fixtures/native-media/p0_metadata.c:126-170 | Conversely, feeding such a run, repetitions and polls included, to an idle assembler finishes it with its payloads |
| Metadata.EveryHistory | onvif/tools/fixtures/native-media/p0_metadata.c:113-170 | The assembler is right after a marker, or collecting a run, or discarding since an event that no run could hold with no marker since; never two of these |
| Metadata.CollectingStep | onvif/tools/fixtures/native-media/p0_metadata.c:130-169 | While collecting, an event continues the run, repeats its last packet, or abandons it: as a gap when it comes in time but is foreign or wrongly numbered, as a limit when it is late or too long |
| Metadata.DiscardStep | onvif/tools/fixtures/native-media/p0_metadata.c:142-146 | While discarding, nothing is kept and only a marker ends it |
| Metadata.RunExtends | onvif/tools/fixtures/native-media/p0_metadata.c:133-162 | The stored fields decide whether an event extends the run |
| Metadata.Reassembler.Receive | onvif/tools/fixtures/native-media/p0_metadata.c:126-170 | The in-place version is the specified push |
| Metadata.Reassembler.ExpireAt | onvif/tools/fixtures/native-media/p0_metadata.c:113-123 | The in-place version is the specified expiry |
| PaxRecords.FieldsAreSpelled | av/tools/publication/stage-site.py:1365-1401 | A text yields fields exactly when it is a concatenation of records that state their own length, with distinct approved keys, and the fields are theirs |
| PaxRecords.RecordsAreSpelled | av/tools/publication/stage-site.py:1368-1379 | Splitting recovers exactly the records concatenated |
| PaxRecords.FirstIsSpelled | av/tools/publication/stage-site.py:1369-1379 | The record cut at the front is exactly the well-formed record the data begins with |
| PaxRecords.FieldGives | av/tools/publication/stage-site.py:1366-1386 | A record gives a key a value exactly when both decode, the key is one of the nine approved ones and the value is acceptable |
| PaxRecords.PaxFields | av/tools/publication/stage-site.py:1365-1401 | The offset loop computes the specified fields |
| TarInspector.InspectArchive | av/tools/publication/stage-site.py:1404-1467 | For a committed plan and below the size limit, the loop accepts exactly the bytes that spell a legal archive: every header at a multiple of 512, fewer than 512 zeros after each content, and 1024 or more zeros at the end |
| TarArchive.WalkIsLegal | av/tools/publication/stage-site.py:1410-1467 | The block walk returns entries exactly when they are legal and the bytes are laid out as them |
| TarArchive.SpellsIsStrung | av/tools/publication/stage-site.py:1414-1465 | Padded entries in a row are exactly the bytes in which every header starts at a multiple of 512, its content follows, fewer than 512 zeros lead to the next header, and at least 1024 zeros end the data |
| TarInspector.InspectHeader | av/tools/publication/stage-site.py:1419-1444 | The checks of one header block decide whether it is acceptable |
| TarArchive.PayloadsAreThePlan | av/tools/publication/stage-site.py:1448-1467 | A legal archive holds every planned payload exactly once, with its planned size and digest, and no other |
| TarArchive.LocalForgets | av/tools/publication/stage-site.py:1429-1442 | A local header says nothing after the next entry that is not a PAX header |
| TarArchive.GlobalKeeps | av/tools/publication/stage-site.py:1434-1436 | Global headers never rename or resize a payload |
| TarInspector.InspectPax | av/tools/publication/stage-site.py:1428-1440 | One extension header, in place |
| TarInspector.InspectMember | av/tools/publication/stage-site.py:1441-1466 | One directory or payload, in place |
| TarInspector.Stream.ReadContent | av/tools/publication/stage-site.py:1458-1465 | The chunk loop reads exactly the content and its zero padding |
| TarInspector.Stream.OnlyZeros | av/tools/publication/stage-site.py:1416-1417 | The trailing loop accepts zeros only |
| SourceLock.RestrictedLoads | onvif/tools/fetch_onvif_sources.py:505-517 | A restriction of a valid lock loads again exactly when something is selected and the selection is closed |
| SourceLock.PickedRecords | onvif/tools/fetch_onvif_sources.py:510 | Any selection of valid records, in any order, is valid as records |
| SourceLock.LinksRestricted | onvif/tools/fetch_onvif_sources.py:282-326 | With the records kept, a source's notices and imports resolve exactly when they are selected |
| SourceLock.GroupsKept | onvif/tools/fetch_onvif_sources.py:510-516 | A group of a restriction keeps its selected members and disappears exactly with the last of them |
| SourceLock.OnlyKeeps | onvif/tools/fetch_onvif_sources.py:513 | Member by member, in place |
| SourceRegistry.ExportIsSmallest | onvif/tools/fetch_onvif_sources.py:505-517 | What a selection writes out loads again exactly when there was a seed, and every other restriction with the seeds that loads contains it |
| SourceRegistry.ScopeExportLoads | onvif/tools/fetch_onvif_sources.py:328-354 | An export by scope loads again exactly when some source of the lock is in the scope |
| SourceRegistry.EmptyScopeDoesNotLoad | onvif/tools/fetch_onvif_sources.py:328-354 | A concrete valid lock without PDFs whose export by the scope `profiles` does not load |
| SourceRegistry.Registry.Selected | onvif/tools/fetch_onvif_sources.py:328-354 | The worklist returns the least closed set with the seeds, on cyclic imports too, and fails exactly on unknown or no explicit seeds |
| SourceRegistry.Registry.Load | onvif/tools/fetch_onvif_sources.py:200-290 | Loading succeeds exactly on valid locks, version and baseline included, and builds the record and URL tables |
| SourceRegistry.Registry.AddRecord | onvif/tools/fetch_onvif_sources.py:219-269 | A record is added exactly when it fits the ones before it |
| SourceRegistry.Registry.CheckFields | onvif/tools/fetch_onvif_sources.py:224-276 | The field checks of one record, with their loops, decide whether it is acceptable by itself |
| SourceRegistry.Registry.CheckImport | onvif/tools/fetch_onvif_sources.py:292-326 | The URL table decides what the import record promises |
| SourceRegistry.Registry.CheckLinks | onvif/tools/fetch_onvif_sources.py:282-290 | All notices and imports of a source |
| SourceRegistry.ValidKnown | onvif/tools/fetch_onvif_sources.py:282-290 | In a valid lock whatever a source needs is present |
| JsonFormat.FormatIsWriter | av/tools/json_format.py:101-149 | Formatting any text of a value writes exactly what the writer writes, ends at depth 0 and keeps the token sequence |
| JsonFormat.BlanksDoNotMatter | av/tools/json_format.py:101-149 | However the tokens of a value are spread with spaces, tabs and line breaks, formatting writes what the writer writes |
| JsonFormat.FormatSettles | av/tools/json_format.py:121-149 | Written texts are fixed points and formatting is idempotent |
| JsonFormat.CutEncoded | av/tools/json_format.py:104-125 | Cutting what the writer wrote gives the tokens back |
| JsonFormat.AtomIs | av/tools/json_format.py:125 | The atoms are the closed strings with their escapes and the runs without blanks and marks |
| JsonFormat.LayValue | av/tools/json_format.py:128-146 | The layout of a value's tokens, anywhere in a token sequence, is its encoding at that depth |
| JsonFormat.IndentIsFour | av/tools/json_format.py:112-113 | Four blanks for each level |
| JsonFormat.FormatJson | av/tools/json_format.py:121-149 | Between the two strict readings of the text, the loop over tokens computes the specified layout and depth |
| JsonFormat.FormattedIsRead | av/tools/json_format.py:121-149 | The second strict reading cannot fail when it depends on the tokens alone |
| GeneratedRegions.AssembleIsGrammar | av/tools/generated_regions.py:97-120 | A text is accepted exactly when it is a document of plain lines and one region for each body, and the result is that document with every region holding its body and all else kept |
| GeneratedRegions.ResultPassesCheck | av/tools/generated_regions.py:97-127 | Every result passes the check unchanged exactly when each body is made of whole lines without a marker |
| GeneratedRegions.HoldsBodies | av/tools/generated_regions.py:97-120 | A document whose text does not change when its regions are filled holds its bodies already |
| GeneratedRegions.MarkOfIs | av/tools/generated_regions.py:10 | A line begins or ends a region exactly when it is the marker with that word and a nonempty selector, apart from spaces and tabs at its end |
| GeneratedRegions.AssembleText | av/tools/generated_regions.py:97-127 | The loop over markers with its offsets computes the specified text, the checks of identifiers and of staleness included |
| UriTemplate.ExpansionIsPlain | av/tools/native_parameters.py:44-113 | The expansion of an accepted template has no brace |
| UriTemplate.NamedValuesRecovered | av/tools/native_parameters.py:86-107 | For the operators of sections 3.2.7 to 3.2.9 of RFC 6570 with distinct names, equal expansions leave each variable undefined in both or give it the same text |
| UriTemplate.QuoteOnce | av/tools/native_parameters.py:100 | Percent-encoding in UTF-8 is injective |
| UriTemplate.ExpandTemplate | av/tools/native_parameters.py:86-113 | The loops compute the specified expansion, length budgets included |
| UriMeaning.ExpandIs | av/tools/native_parameters.py:26-113 | For every template and values: the expander returns a text exactly when both lengths are within their bounds, the template has the grammar of section 2 of RFC 6570, and the text is its expansion by the prefix, separator, names and quoting of each operator |
| UriMeaning.TemplateIs | av/tools/native_parameters.py:38-63 | A template is read as its literals and expressions exactly when the grammar writes it so |
| UriMeaning.QuotedTextIs | av/tools/native_parameters.py:100 | Quoting keeps the unreserved characters, and the delimiters where the operator keeps them, and writes every other one as capital triplets of its UTF-8 bytes |
| ScalarText.TextIsNumber | av/tools/native_parameters.py:66-83 | Two exact numbers have the same text exactly when they are equal |
| UriMeaning.TextStandsFor | av/tools/native_parameters.py:66-83 | The text of an exact number is that number by place value, without needless zeros, signs or points |
| UriMeaning.StandsOnce | av/tools/native_parameters.py:66-83 | No other text stands for the number in this way |
| ScalarText.TextIsCanonical | av/tools/native_parameters.py:74-81 | Stripping fixed-point notation writes the reduced form |
| Bridge.EveryRunIsOrderly | onvif/samples/reference-runtime/src/bridge.ts:80-196 | In every run nothing is handed over after `close()`, reconciliations never overlap, the engine is closed before closing settles, the publisher is asked to close only with no reconciliation outstanding, and an inspecting bridge touches no publisher |
| Bridge.ReconcilingHandsOver | onvif/samples/reference-runtime/src/bridge.ts:166-184 | In every run, reconciling on a running bridge does nothing while one is kept, and otherwise starts one and hands over exactly the publication that could be prepared, unless the bridge only inspects |
| Bridge.StartRuns | onvif/samples/reference-runtime/src/bridge.ts:80-137 | A start whose awaited promises resolve brings every bridge to running, with one engine if it discovers and one first publication |
| Bridge.ClosingSettles | onvif/samples/reference-runtime/src/bridge.ts:186-196 | Whatever a bridge did before, closing it with nothing outstanding closes its engine, then its publisher, and settles |
| Bridge.StepKeeps | onvif/samples/reference-runtime/src/bridge.ts:80-196 | Every synchronous stretch keeps the fields consistent with what happened |
| Bridge.OnvifBridge.Start | onvif/samples/reference-runtime/src/bridge.ts:80-100 | The stretch of a start before its first await |
| Bridge.OnvifBridge.Resumed | onvif/samples/reference-runtime/src/bridge.ts:95-137 | The stretches of initialisation between awaits, a failing creation of the engine included |
| Bridge.OnvifBridge.FailedStart | onvif/samples/reference-runtime/src/bridge.ts:82-87 | The rejection handler of a start, up to the closing it awaits |
| Bridge.OnvifBridge.Reconcile | onvif/samples/reference-runtime/src/bridge.ts:166-184 | A reconciliation up to its hand-over |
| Bridge.OnvifBridge.WorkForgotten | onvif/samples/reference-runtime/src/bridge.ts:170-172 | The stored promise is dropped after it settled |
| Bridge.OnvifBridge.Close | onvif/samples/reference-runtime/src/bridge.ts:186-189 | Closing up to its first await |
| Bridge.OnvifBridge.ClosePublisher | onvif/samples/reference-runtime/src/bridge.ts:189-190 | Closing after engine and reconciliation settled |
| Bridge.OnvifBridge.ClosingDone | onvif/samples/reference-runtime/src/bridge.ts:190-194 | Closing after the publisher settled |

## Left out

- `$dynamicRef`, `unevaluatedItems` and the handlers inherited from the `jsonschema` library: assertions that apply no subschema are one predicate of the contract; references are kept as resolved locations, so anchors, `$id` bases and pointer escapes of `resolve` are not modelled.
- SchemaCompile.Compile: the rejections by dialect, keyword, vocabulary, `$id`, anchor, empty `enum` and pattern look at one node at a time and are not part of the verdict.
- SchemaCompile.Compiler.Visit: the same checks of the visited node are left out.
- SchemaCompile.Compiler.ResolveReferences: the edges of `$dynamicRef` and the syntax of reference fragments are left out.
- The evaluation-state and regex-step budgets: ticks are counted and bounded, not cut off.
- Error messages, error classes and the order in which several errors would be reported: a rejection is one failure value.
- Lone surrogates in texts: Dafny characters are Unicode scalar values, so the checks that reject surrogates have nothing to reject.
- RegexMatch.Search: nodes are identified by their place in the tree; sharing of equal nodes by the host could only lower the ticks.
- XML text and namespaces: elements are trees with resolved names; floats, and Python's limit on integer digits, are outside the codec's scalars here.
- XmlRoundTrip.DecodeInvertsEncode: stated for registries whose element names and keys differ within a sequence and whose attribute names and keys differ within a type; other registries are not covered.
- XmlRelations.DecodeIsRead: stated for the same registries.
- XmlWriting.EncodeIsWritten: stated for the same registries.
- XmlMeaning.ScalarIsMeant: restrictions nest up to a bound that is a parameter, as the host's recursion limit is.
- XmlRoundTrip.EncodeCanon: in addition no particle key is one of the reserved `$attributes`, `$nil`, `$default` and `$type`, which are no XML names; `ReservedKeyIsRefused` shows that it fails with such a key.
- XmlRoundTrip.SameTreeSameCanon: the same registries as for the canonical encoding.
- ShapeBuilder.MakeTrackShape: the property constraints that `basic_shape` puts on the Track shape, the nested `sh:node` of the Mode rule and the RDF library are left out; fields are visited in any order, which only changes blank node numbers.
- TrackRules.NormalizeTrack: the checks of the record and the normalisation of its values (integers, controlled terms, rationals) come before; the method receives normalised values.
- `offer_descriptors`, `identity_consistency` and `core_signature` of matching.py: bookkeeping over records whose checks need the vocabulary data.
- `write_all` and the writer thread are steps of the state machine rather than one method, because other threads run between them; a failed write is taken to deliver fewer bytes than were left.
- IpcQueue.NothingIsLost: the clearing after a failed initialisation, when no writer thread was started, is no run of the model.
- `p0_rtp_info` and the XML check of a finished metadata document: the check is a parameter.
- Tar header decoding, name normalisation, UTF-8 decoding, single PAX value checks and SHA-256 are parameters; the checks of the reader for links and for changes of the file are not modelled.
- SourceRegistry.Registry.Load: the JSON types of the lock and of its records are the types of the model, so checks of types have nothing to reject.
- URL, path, digest, commit and case-folding rules of the source lock are parameters; sorting of the selection is not modelled (results hold for any order), nor are the redistribution check of an export and the XML metadata check of fetched bytes.
- JsonFormat: scalars are written tokens already, valid texts are those whose tokens are a value's, and `strict_json` is a parameter. `IsSpace` knows the four blanks of JSON where the token pattern takes every Unicode blank; texts of values are cut alike.
- GeneratedRegions: the inventory checks and the rendering of `generated_bodies` are left out; the bodies are a parameter, and so is the uniqueness of identifiers in the result.
- UriTemplate.NamedValuesRecovered: one expression at a time, since literals around expressions can imitate their text.
- Bridge: snapshots, projection and the publishers' own work; whether the first publication overlaps a reconciliation and the final lifecycle after a failing start are not claimed, because the code does not keep either.
