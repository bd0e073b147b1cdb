/** The source lock: which locks load, and what a restricted lock keeps. */
module SourceLock {
  import opened Wrappers

  const MAX_XML_BYTES := 2 * 1024 * 1024
  const MAX_DOCUMENT_BYTES := 8 * 1024 * 1024
  const MAX_TOTAL_BYTES := 64 * 1024 * 1024
  const MAX_SOURCES := 128

  datatype Kind = Wsdl | Xsd | Xml | Pdf | Notice | OtherKind
  datatype ImportKind = XsdImport | XsdInclude | XsdRedefine | XsdOverride | WsdlImport
  datatype Storage = Vendored | FetchOnly | ReferenceOnly
  datatype Status = PermittedUnchanged | ReviewRequired

  datatype Import = Import(kind: ImportKind, sourceId: string, location: Option<string>, namespace: Option<string>,
                           declaringNamespace: Option<string>)

  datatype Source = Source(id: string, path: string, kind: Kind, bytes: int, digest: string, storage: Storage,
                           status: Status, noticeIds: seq<string>, markers: seq<string>, url: string,
                           aliases: seq<string>,
                           imports: seq<Import>, rootElement: string, targetNamespace: Option<string>)

  /** Path, URL, digest and commit syntax, case folding and URL joining stay parameters; `join` gives nothing for a
      location that is unsafe, leaves the pinned tree or resolves to a refused URL. */
  datatype Syntax = Syntax(pathOk: string -> bool, fold: string -> string, digestOk: string -> bool,
                           urlOk: (string, bool) -> bool, join: (string, string) -> Option<string>,
                           root: Kind -> string, commitOk: string -> bool)

  predicate IsXml(kind: Kind) { kind.Wsdl? || kind.Xsd? || kind.Xml? }

  function UrlsOf(s: Source): seq<string> { [s.url] + s.aliases }

  predicate NoRepeats(items: seq<string>) {
    forall i, j :: 0 <= i < j < |items| ==> items[i] != items[j]
  }

  predicate Nonempty(items: seq<string>) {
    forall i :: 0 <= i < |items| ==> items[i] != ""
  }

  /** The fields of one record. */
  predicate FieldsOk(x: Syntax, s: Source) {
    && 0 < |s.id| <= 200 && x.pathOk(s.path) && !s.kind.OtherKind?
    && 0 < s.bytes <= (if IsXml(s.kind) then MAX_XML_BYTES else MAX_DOCUMENT_BYTES)
    && x.digestOk(s.digest) && (s.storage.Vendored? ==> s.status.PermittedUnchanged?)
    && Nonempty(s.noticeIds) && Nonempty(s.markers)
    && x.urlOk(s.url, true)
    && (forall k :: 0 <= k < |s.aliases| ==> x.urlOk(s.aliases[k], s.aliases[k] == s.url))
    && (if IsXml(s.kind) then s.targetNamespace.Some? && s.rootElement == x.root(s.kind) else s.imports == [])
  }

  predicate RecordOk(x: Syntax, s: Source) {
    FieldsOk(x, s) && NoRepeats(UrlsOf(s))
  }

  predicate Apart(x: Syntax, s: Source, t: Source) {
    && s.id != t.id && x.fold(s.path) != x.fold(t.path)
    && forall u :: u in UrlsOf(s) ==> u !in UrlsOf(t)
  }

  function Total(sources: seq<Source>): int {
    if sources == [] then 0 else Total(sources[..|sources| - 1]) + sources[|sources| - 1].bytes
  }

  /** The records alone: each fine, no two sharing an identifier, a path or a URL, all within the total. */
  predicate RecordsOk(x: Syntax, sources: seq<Source>) {
    && (forall i :: 0 <= i < |sources| ==> RecordOk(x, sources[i]))
    && (forall i, j :: 0 <= i < j < |sources| ==> Apart(x, sources[i], sources[j]))
    && Total(sources) <= MAX_TOTAL_BYTES
  }

  function Ids(sources: seq<Source>): set<string> {
    set i | 0 <= i < |sources| :: sources[i].id
  }

  /** The records by identifier; meant for distinct identifiers. */
  function ById(sources: seq<Source>): (m: map<string, Source>)
    ensures m.Keys == Ids(sources)
    ensures forall id :: id in m ==> m[id].id == id && m[id] in sources
  {
    if sources == [] then map[]
    else
      var last := sources[|sources| - 1];
      assert Ids(sources) == Ids(sources[..|sources| - 1]) + {last.id};
      ById(sources[..|sources| - 1])[last.id := last]
  }

  predicate ImportOk(x: Syntax, s: Source, d: Import, sources: map<string, Source>) {
    && d.sourceId in sources
    && var target := sources[d.sourceId];
    && (if d.location.Some? then
          var url := x.join(s.url, d.location.value);
          url.Some? && url.value in UrlsOf(target)
        else d.kind.XsdImport? && d.namespace.Some? && d.namespace.value != "")
    && target.kind == (if d.kind.WsdlImport? then Wsdl else Xsd)
    && target.targetNamespace ==
       if d.kind.XsdInclude? || d.kind.XsdRedefine? || d.kind.XsdOverride? then d.declaringNamespace else d.namespace
  }

  predicate NoticeOk(id: string, sources: map<string, Source>) {
    id in sources && sources[id].kind.Notice?
  }

  predicate LinksOk(x: Syntax, s: Source, sources: map<string, Source>) {
    && (forall k :: 0 <= k < |s.noticeIds| ==> NoticeOk(s.noticeIds[k], sources))
    && (forall k :: 0 <= k < |s.imports| ==> ImportOk(x, s, s.imports[k], sources))
  }

  datatype Lock = Lock(version: int, repository: string, commit: string, sources: seq<Source>,
                       groups: map<string, seq<string>>)

  /** The schema version and the pinned baseline. */
  predicate HeadOk(x: Syntax, lock: Lock) {
    lock.version == 1 && lock.repository == "onvif/specs" && x.commitOk(lock.commit)
  }

  /** The lock loads. */
  predicate Valid(x: Syntax, lock: Lock) {
    && HeadOk(x, lock) && 1 <= |lock.sources| <= MAX_SOURCES
    && RecordsOk(x, lock.sources)
    && (forall g :: g in lock.groups ==> forall k :: 0 <= k < |lock.groups[g]| ==>
        lock.groups[g][k] in Ids(lock.sources))
    && (forall id :: id in ById(lock.sources) ==> LinksOk(x, ById(lock.sources)[id], ById(lock.sources)))
  }

  // ---------- Restricting a lock ----------

  function Needs(s: Source): seq<string> {
    s.noticeIds + seq(|s.imports|, k requires 0 <= k < |s.imports| => s.imports[k].sourceId)
  }

  /** Every selected source has its notices and imports selected. */
  predicate Closed(sources: map<string, Source>, selection: set<string>)
    requires selection <= sources.Keys
  {
    forall id :: id in selection ==> forall k :: 0 <= k < |Needs(sources[id])| ==> Needs(sources[id])[k] in selection
  }

  function Only(members: seq<string>, selection: set<string>): seq<string> {
    if members == [] then []
    else
      var last := members[|members| - 1];
      Only(members[..|members| - 1], selection) + if last in selection then [last] else []
  }

  predicate AllIn(order: seq<string>, ids: set<string>) {
    forall k :: 0 <= k < |order| ==> order[k] in ids
  }

  function Picked(sources: map<string, Source>, order: seq<string>): seq<Source>
    requires AllIn(order, sources.Keys)
  {
    seq(|order|, k requires 0 <= k < |order| => sources[order[k]])
  }

  /** What an export writes: the selected records in the given order, and the groups that still have members. */
  function Restrict(lock: Lock, order: seq<string>): Lock
    requires AllIn(order, Ids(lock.sources))
  {
    var selection := set k | 0 <= k < |order| :: order[k];
    Lock(lock.version, lock.repository, lock.commit, Picked(ById(lock.sources), order),
         map g | g in lock.groups && (exists k :: 0 <= k < |lock.groups[g]| && lock.groups[g][k] in selection)
           :: Only(lock.groups[g], selection))
  }

  /** A group keeps its selected members, each in its place. */
  lemma {:induction false} OnlyKeeps(a: seq<string>, b: seq<string>, id: string, selection: set<string>)
    ensures Only(a + b, selection) == Only(a, selection) + Only(b, selection)
    ensures Only([id], selection) == if id in selection then [id] else []
    decreases |b|
  {
    if b == [] {
      assert a + b == a;
    } else {
      var n := |b| - 1;
      OnlyKeeps(a, b[..n], id, selection);
      assert (a + b)[..|a + b| - 1] == a + b[..n] && (a + b)[|a + b| - 1] == b[n];
    }
    assert [id][..0] == [];
  }

  /** A group disappears exactly with the last of its members. */
  lemma GroupsKept(lock: Lock, order: seq<string>, g: string)
    requires AllIn(order, Ids(lock.sources))
    ensures var kept := Restrict(lock, order).groups;
            && (g in kept <==> g in lock.groups && exists id :: id in lock.groups[g] && id in order)
            && (g in kept ==> kept[g] == Only(lock.groups[g], set id | id in order))
  {
    hide Only, ById, Ids, Picked;
    var selection := set k | 0 <= k < |order| :: order[k];
    assert selection == set id | id in order;
    if g in lock.groups {
      if id :| id in lock.groups[g] && id in order {
        var k :| 0 <= k < |lock.groups[g]| && lock.groups[g][k] == id;
        assert lock.groups[g][k] in selection;
      }
    }
  }

  predicate DistinctIds(sources: seq<Source>) {
    forall i, j :: 0 <= i < j < |sources| ==> sources[i].id != sources[j].id
  }

  lemma {:induction false} FoundById(sources: seq<Source>, i: nat)
    requires DistinctIds(sources) && i < |sources|
    ensures sources[i].id in ById(sources) && ById(sources)[sources[i].id] == sources[i]
    decreases |sources|
  {
    var n := |sources| - 1;
    if i < n {
      FoundById(sources[..n], i);
    }
  }

  lemma {:induction false} TotalRemove(sources: seq<Source>, p: nat)
    requires p < |sources|
    ensures Total(sources) == Total(sources[..p] + sources[p + 1..]) + sources[p].bytes
    decreases |sources|
  {
    var n := |sources| - 1;
    if p == n {
      assert sources[..p] + sources[p + 1..] == sources[..n];
    } else {
      var rest := sources[..p] + sources[p + 1..];
      assert rest[..|rest| - 1] == sources[..n][..p] + sources[..n][p + 1..];
      TotalRemove(sources[..n], p);
    }
  }

  /** A selection weighs no more than the whole. */
  lemma {:induction false} PickedTotal(sources: seq<Source>, order: seq<string>)
    requires DistinctIds(sources) && NoRepeats(order) && AllIn(order, Ids(sources))
    requires forall i :: 0 <= i < |sources| ==> sources[i].bytes > 0
    ensures Total(Picked(ById(sources), order)) <= Total(sources)
    decreases |sources|
  {
    hide ById, Ids, Without, NoRepeats, Picked, AllIn, DistinctIds;
    if sources == [] {
      NothingPicked(order);
    } else {
      FewerDistinct(sources);
      var n := |sources| - 1;
      if p :| 0 <= p < |order| && order[p] == sources[n].id {
        PicksLast(sources, order, p);
        PickedTotal(sources[..n], Without(order, p));
      } else {
        SkipsLast(sources, order);
        PickedTotal(sources[..n], order);
      }
    }
  }

  lemma NothingPicked(order: seq<string>)
    requires AllIn(order, Ids([]))
    ensures order == [] && Picked(ById([]), order) == []
  {
    if order != [] {
      SomeIn(order, Ids([]));
    }
  }

  lemma SomeIn(order: seq<string>, ids: set<string>)
    requires AllIn(order, ids) && order != []
    ensures exists id :: id in ids
  {
    assert order[0] in ids;
  }

  lemma FewerDistinct(sources: seq<Source>)
    requires DistinctIds(sources) && sources != []
    ensures DistinctIds(sources[..|sources| - 1])
  {
  }

  lemma PicksLast(sources: seq<Source>, order: seq<string>, p: nat)
    requires sources != [] && DistinctIds(sources) && NoRepeats(order) && p < |order|
    requires AllIn(order, Ids(sources)) && order[p] == sources[|sources| - 1].id
    ensures var (fewer, rest) := (sources[..|sources| - 1], Without(order, p));
            && NoRepeats(rest) && AllIn(rest, Ids(fewer))
            && Total(Picked(ById(sources), order)) == Total(Picked(ById(fewer), rest)) + sources[|sources| - 1].bytes
  {
    hide ById, Ids, Without, NoRepeats, Picked, DistinctIds, Total;
    var fewer := sources[..|sources| - 1];
    LastById(sources);
    WithoutOne(order, p, Ids(sources), Ids(fewer));
    PickedRemove(ById(sources), ById(fewer), order, p);
  }

  lemma SkipsLast(sources: seq<Source>, order: seq<string>)
    requires sources != [] && AllIn(order, Ids(sources)) && sources[|sources| - 1].id !in order
    ensures var fewer := sources[..|sources| - 1];
            && AllIn(order, Ids(fewer))
            && Picked(ById(sources), order) == Picked(ById(fewer), order)
  {
    hide ById, Ids, Picked;
    LastById(sources);
    PickedSame(ById(sources), ById(sources[..|sources| - 1]), order);
  }

  lemma LastById(sources: seq<Source>)
    requires sources != []
    ensures var n := |sources| - 1;
            && Ids(sources) == Ids(sources[..n]) + {sources[n].id}
            && ById(sources) == ById(sources[..n])[sources[n].id := sources[n]]
  {
    hide Ids;
    var n := |sources| - 1;
    assert ById(sources) == ById(sources[..n])[sources[n].id := sources[n]];
    assert ById(sources).Keys == Ids(sources) && ById(sources[..n]).Keys == Ids(sources[..n]);
  }

  function Without(order: seq<string>, p: nat): (rest: seq<string>)
    requires p < |order|
    ensures |rest| == |order| - 1
  {
    order[..p] + order[p + 1..]
  }

  lemma WithoutOne(order: seq<string>, p: nat, ids: set<string>, fewer: set<string>)
    requires p < |order| && NoRepeats(order) && AllIn(order, ids) && ids <= fewer + {order[p]}
    ensures NoRepeats(Without(order, p)) && AllIn(Without(order, p), fewer)
    ensures forall k :: 0 <= k < |order| && k != p ==> order[k] != order[p] && order[k] in fewer
  {
    forall k | 0 <= k < |order| - 1
      ensures Without(order, p)[k] in fewer
    {
      var j := if k < p then k else k + 1;
      assert Without(order, p)[k] == order[j] && order[j] != order[p];
    }
  }

  lemma PickedRemove(sources: map<string, Source>, fewer: map<string, Source>, order: seq<string>, p: nat)
    requires p < |order| && AllIn(order, sources.Keys)
    requires forall k :: 0 <= k < |order| && k != p ==> order[k] in fewer && fewer[order[k]] == sources[order[k]]
    ensures AllIn(Without(order, p), fewer.Keys)
    ensures Total(Picked(sources, order)) == Total(Picked(fewer, Without(order, p))) + sources[order[p]].bytes
  {
    TotalRemove(Picked(sources, order), p);
    assert Picked(sources, order)[..p] + Picked(sources, order)[p + 1..] == Picked(fewer, Without(order, p));
  }

  lemma PickedSame(sources: map<string, Source>, fewer: map<string, Source>, order: seq<string>)
    requires AllIn(order, sources.Keys)
    requires forall k :: 0 <= k < |order| ==> order[k] in fewer && fewer[order[k]] == sources[order[k]]
    ensures AllIn(order, fewer.Keys) && Picked(sources, order) == Picked(fewer, order)
  {
  }

  lemma PickedRecords(x: Syntax, sources: seq<Source>, order: seq<string>)
    requires RecordsOk(x, sources) && NoRepeats(order) && AllIn(order, Ids(sources))
    ensures RecordsOk(x, Picked(ById(sources), order))
  {
    hide RecordOk, Apart, ById, Total;
    var picked := Picked(ById(sources), order);
    RecordsDistinct(x, sources);
    PickedTotal(sources, order);
    forall i, j | 0 <= i < j < |picked|
      ensures Apart(x, picked[i], picked[j])
    {
      var a :| 0 <= a < |sources| && sources[a] == picked[i];
      var b :| 0 <= b < |sources| && sources[b] == picked[j];
      assert a != b by { assert order[i] != order[j]; }
      ApartEitherWay(x, sources[a], sources[b]);
    }
  }

  lemma ApartEitherWay(x: Syntax, s: Source, t: Source)
    ensures Apart(x, s, t) == Apart(x, t, s)
  {
  }

  lemma PickedById(sources: seq<Source>, order: seq<string>)
    requires DistinctIds(sources) && NoRepeats(order) && AllIn(order, Ids(sources))
    ensures var picked := Picked(ById(sources), order);
            && ById(picked).Keys == (set k | 0 <= k < |order| :: order[k])
            && forall id :: id in ById(picked) ==> id in ById(sources) && ById(picked)[id] == ById(sources)[id]
  {
    hide ById, Ids, Picked, DistinctIds;
    var picked := Picked(ById(sources), order);
    PickedIds(ById(sources), order);
    forall k | 0 <= k < |order|
      ensures order[k] in ById(picked) && ById(picked)[order[k]] == ById(sources)[order[k]]
    {
      FoundById(picked, k);
    }
  }

  lemma PickedIds(sources: map<string, Source>, order: seq<string>)
    requires NoRepeats(order) && AllIn(order, sources.Keys)
    requires forall k :: 0 <= k < |order| ==> sources[order[k]].id == order[k]
    ensures var picked := Picked(sources, order);
            && DistinctIds(picked) && Ids(picked) == (set k | 0 <= k < |order| :: order[k])
            && |picked| == |order| && forall k :: 0 <= k < |order| ==> picked[k] == sources[order[k]]
  {
    var picked := Picked(sources, order);
    assert forall k :: 0 <= k < |order| ==> picked[k].id == order[k];
  }

  /** With the records kept, the links of a selected source hold exactly when what it needs is selected. */
  lemma LinksRestricted(x: Syntax, s: Source, all: map<string, Source>, some: map<string, Source>)
    requires LinksOk(x, s, all) && some.Keys <= all.Keys && forall id :: id in some ==> some[id] == all[id]
    ensures LinksOk(x, s, some) <==> forall k :: 0 <= k < |Needs(s)| ==> Needs(s)[k] in some
  {
    var needs, n := Needs(s), |s.noticeIds|;
    assert forall k :: 0 <= k < n ==> needs[k] == s.noticeIds[k];
    assert forall k :: 0 <= k < |s.imports| ==> needs[n + k] == s.imports[k].sourceId;
    if LinksOk(x, s, some) {
      forall k | 0 <= k < |needs|
        ensures needs[k] in some
      {
        if k < n {
          assert NoticeOk(s.noticeIds[k], some);
        } else {
          assert ImportOk(x, s, s.imports[k - n], some);
        }
      }
    } else if forall k :: 0 <= k < |needs| ==> needs[k] in some {
      forall k | 0 <= k < n
        ensures NoticeOk(s.noticeIds[k], some)
      {
        assert NoticeOk(s.noticeIds[k], all) && needs[k] in some;
      }
      forall k | 0 <= k < |s.imports|
        ensures ImportOk(x, s, s.imports[k], some)
      {
        assert ImportOk(x, s, s.imports[k], all) && needs[n + k] in some;
      }
      assert false;
    }
  }

  lemma {:induction false} OnlySelected(members: seq<string>, selection: set<string>)
    ensures forall k :: 0 <= k < |Only(members, selection)| ==> Only(members, selection)[k] in selection
    decreases |members|
  {
    if members != [] {
      OnlySelected(members[..|members| - 1], selection);
    }
  }

  /** An exported lock loads again exactly when something is selected and the selection is closed. */
  lemma RestrictedLoads(x: Syntax, lock: Lock, order: seq<string>)
    requires Valid(x, lock) && NoRepeats(order) && AllIn(order, Ids(lock.sources))
    ensures Valid(x, Restrict(lock, order)) <==>
            order != [] && Closed(ById(lock.sources), set k | 0 <= k < |order| :: order[k])
  {
    hide RecordsOk, LinksOk, Only, Apart, ById, DistinctIds, NoRepeats;
    var all, small := ById(lock.sources), Restrict(lock, order);
    assert DistinctIds(lock.sources) by { RecordsDistinct(x, lock.sources); }
    PickedRecords(x, lock.sources, order);
    PickedById(lock.sources, order);
    var some := ById(small.sources);
    forall id | id in some
      ensures LinksOk(x, some[id], some) <==> forall k :: 0 <= k < |Needs(all[id])| ==> Needs(all[id])[k] in some
    {
      LinksRestricted(x, all[id], all, some);
    }
    forall g | g in small.groups
      ensures forall k :: 0 <= k < |small.groups[g]| ==> small.groups[g][k] in Ids(small.sources)
    {
      OnlySelected(lock.groups[g], some.Keys);
    }
    assert |order| <= |lock.sources| by { FewIds(order, lock.sources); }
  }

  lemma RecordsDistinct(x: Syntax, sources: seq<Source>)
    requires RecordsOk(x, sources)
    ensures DistinctIds(sources) && forall i :: 0 <= i < |sources| ==> sources[i].bytes > 0
  {
    forall i, j | 0 <= i < j < |sources|
      ensures sources[i].id != sources[j].id
    {
      assert Apart(x, sources[i], sources[j]);
    }
  }

  lemma {:induction false} FewIds(order: seq<string>, sources: seq<Source>)
    requires NoRepeats(order) && AllIn(order, Ids(sources))
    ensures |order| <= |sources|
    decreases |sources|
  {
    if sources == [] {
      NothingPicked(order);
    } else {
      var n := |sources| - 1;
      LastById(sources);
      if p :| 0 <= p < |order| && order[p] == sources[n].id {
        WithoutOne(order, p, Ids(sources), Ids(sources[..n]));
        FewIds(Without(order, p), sources[..n]);
      } else {
        FewIds(order, sources[..n]);
      }
    }
  }
}
