/** Loading a lock and selecting sources with everything they need. */
module SourceRegistry {
  import opened Wrappers
  import opened SourceLock

  /** Every URL of the records, with the one record it belongs to. */
  ghost predicate UrlMap(sources: seq<Source>, urls: map<string, string>) {
    && (forall i, u :: 0 <= i < |sources| && u in UrlsOf(sources[i]) ==> u in urls && urls[u] == sources[i].id)
    && (forall u :: u in urls ==> exists i :: 0 <= i < |sources| && u in UrlsOf(sources[i]) && urls[u] == sources[i].id)
  }

  function Paths(x: Syntax, sources: seq<Source>): set<string> {
    set i | 0 <= i < |sources| :: x.fold(sources[i].path)
  }

  lemma RecordsSnoc(x: Syntax, sources: seq<Source>, s: Source)
    requires RecordsOk(x, sources)
    ensures RecordsOk(x, sources + [s]) <==>
            RecordOk(x, s) && (forall i :: 0 <= i < |sources| ==> Apart(x, sources[i], s)) &&
                Total(sources) + s.bytes <= MAX_TOTAL_BYTES
  {
    hide RecordOk, Apart;
    var more, n := sources + [s], |sources|;
    assert more[..n] == sources && more[n] == s;
    if RecordsOk(x, more) {
      assert RecordOk(x, more[n]);
      forall i | 0 <= i < n
        ensures Apart(x, sources[i], s)
      {
        assert Apart(x, more[i], more[n]);
      }
    }
  }

  /** The URLs of the records before `s`, and the first `k` of its own. */
  ghost predicate UrlsAdded(before: seq<Source>, s: Source, k: nat, urls: map<string, string>)
    requires k <= |UrlsOf(s)|
  {
    && (forall i, u :: 0 <= i < |before| && u in UrlsOf(before[i]) ==> u in urls && urls[u] == before[i].id)
    && (forall j :: 0 <= j < k ==> UrlsOf(s)[j] in urls && urls[UrlsOf(s)[j]] == s.id)
    && (forall u :: u in urls ==>
          || (exists j :: 0 <= j < k && UrlsOf(s)[j] == u && urls[u] == s.id)
          || (exists i :: 0 <= i < |before| && u in UrlsOf(before[i]) && urls[u] == before[i].id))
  }

  /** The first `k` URLs of `s` differ from each other and from those of the records before it. */
  ghost predicate Free(before: seq<Source>, s: Source, k: nat)
    requires k <= |UrlsOf(s)|
  {
    && (forall i, j :: 0 <= i < j < k ==> UrlsOf(s)[i] != UrlsOf(s)[j])
    && (forall i, j :: 0 <= i < |before| && 0 <= j < k ==> UrlsOf(s)[j] !in UrlsOf(before[i]))
  }

  lemma UrlStep(before: seq<Source>, s: Source, k: nat, urls: map<string, string>)
    requires k < |UrlsOf(s)| && UrlsAdded(before, s, k, urls) && Free(before, s, k)
    ensures if UrlsOf(s)[k] in urls then !Free(before, s, k + 1)
            else UrlsAdded(before, s, k + 1, urls[UrlsOf(s)[k] := s.id]) && Free(before, s, k + 1)
  {
    hide UrlsOf;
  }

  lemma UrlsDone(before: seq<Source>, s: Source, urls: map<string, string>)
    ensures UrlMap(before, urls) ==> UrlsAdded(before, s, 0, urls)
    ensures UrlsAdded(before, s, |UrlsOf(s)|, urls) ==> UrlMap(before + [s], urls)
  {
    hide UrlsOf;
    var more := before + [s];
    if UrlsAdded(before, s, |UrlsOf(s)|, urls) {
      assert more[|before|] == s;
      forall u | u in urls
        ensures exists i :: 0 <= i < |more| && u in UrlsOf(more[i]) && urls[u] == more[i].id
      {
        if i :| 0 <= i < |before| && u in UrlsOf(before[i]) && urls[u] == before[i].id {
          assert more[i] == before[i];
        }
      }
    }
  }

  /** When a record fits the records before it. */
  lemma Fits(x: Syntax, before: seq<Source>, s: Source, k: nat)
    requires RecordsOk(x, before) && k <= |UrlsOf(s)|
    ensures !Free(before, s, k) ==> !RecordsOk(x, before + [s])
    ensures k == |UrlsOf(s)| && Free(before, s, k) ==>
              (RecordsOk(x, before + [s]) <==>
                FieldsOk(x, s) && s.id !in Ids(before) && x.fold(s.path) !in Paths(x, before) &&
                    Total(before) + s.bytes <= MAX_TOTAL_BYTES)
    ensures !FieldsOk(x, s) || s.id in Ids(before) || x.fold(s.path) in Paths(x, before) ||
            Total(before) + s.bytes > MAX_TOTAL_BYTES ==>
              !RecordsOk(x, before + [s])
  {
    hide UrlsOf, FieldsOk, RecordsOk;
    RecordsSnoc(x, before, s);
    if i, j :| 0 <= i < |before| && 0 <= j < k && UrlsOf(s)[j] in UrlsOf(before[i]) {
      assert !Apart(x, before[i], s);
    }
    if Free(before, s, k) && k == |UrlsOf(s)| && s.id !in Ids(before) && x.fold(s.path) !in Paths(x, before) {
      forall i | 0 <= i < |before|
        ensures Apart(x, before[i], s)
      {
        assert before[i].id in Ids(before) && x.fold(before[i].path) in Paths(x, before);
      }
    }
  }

  class Registry {
    var sources: map<string, Source>
    var urls: map<string, string>

    constructor ()
      ensures sources == map[] && urls == map[]
    {
      sources, urls := map[], map[];
    }

    /** The fields of one record by themselves. */
    method CheckFields(x: Syntax, s: Source) returns (ok: bool)
      ensures ok == FieldsOk(x, s)
    {
      if s.id == "" || |s.id| > 200 || !x.pathOk(s.path) || s.kind == OtherKind {
        return false;
      }
      var xml := s.kind == Wsdl || s.kind == Xsd || s.kind == Xml;
      var limit := if xml then 2 * 1024 * 1024 else 8 * 1024 * 1024;
      if s.bytes <= 0 || s.bytes > limit || !x.digestOk(s.digest) {
        return false;
      }
      if s.storage == Vendored && s.status != PermittedUnchanged {
        return false;
      }
      var k := 0;
      while k < |s.noticeIds|
        invariant 0 <= k <= |s.noticeIds| && forall j :: 0 <= j < k ==> s.noticeIds[j] != ""
      {
        if s.noticeIds[k] == "" {
          return false;
        }
        k := k + 1;
      }
      k := 0;
      while k < |s.markers|
        invariant 0 <= k <= |s.markers| && forall j :: 0 <= j < k ==> s.markers[j] != ""
      {
        if s.markers[k] == "" {
          return false;
        }
        k := k + 1;
      }
      if !x.urlOk(s.url, true) {
        return false;
      }
      k := 0;
      while k < |s.aliases|
        invariant 0 <= k <= |s.aliases|
        invariant forall j :: 0 <= j < k ==> x.urlOk(s.aliases[j], s.aliases[j] == s.url)
      {
        if !x.urlOk(s.aliases[k], s.aliases[k] == s.url) {
          return false;
        }
        k := k + 1;
      }
      if xml {
        return s.targetNamespace.Some? && s.rootElement == x.root(s.kind);
      }
      return s.imports == [];
    }

    /** Adds the next record, or reports that it does not fit the ones before it. */
    method AddRecord(x: Syntax, s: Source, paths: set<string>, total: int, ghost before: seq<Source>)
      returns (ok: bool, allPaths: set<string>, newTotal: int)
      requires RecordsOk(x, before) && sources == ById(before) && UrlMap(before, urls)
      requires paths == Paths(x, before) && total == Total(before)
      modifies this
      ensures ok <==> RecordsOk(x, before + [s])
      ensures ok ==> sources == ById(before + [s]) && UrlMap(before + [s], urls)
      ensures ok ==> allPaths == Paths(x, before + [s]) && newTotal == Total(before + [s])
    {
      hide FieldsOk, UrlMap, UrlsAdded, UrlsOf, ById, RecordsOk, Paths, Ids, Free, Total;
      allPaths, newTotal := paths, total;
      Fits(x, before, s, 0);
      UrlsDone(before, s, urls);
      AddedBy(x, before, s);
      var fine := CheckFields(x, s);
      if !fine || s.id in sources || x.fold(s.path) in paths {
        return false, paths, total;
      }
      newTotal := total + s.bytes;
      if newTotal > 64 * 1024 * 1024 {
        return false, paths, newTotal;
      }
      var values, k := [s.url] + s.aliases, 0;
      assert values == UrlsOf(s) by { UrlsAre(s); }
      NothingTaken(before, s);
      while k < |values|
        invariant 0 <= k <= |values| && UrlsAdded(before, s, k, urls) && Free(before, s, k) && sources == ById(before)
      {
        UrlStep(before, s, k, urls);
        if values[k] in urls {
          Fits(x, before, s, k + 1);
          return false, paths, newTotal;
        }
        urls := urls[values[k] := s.id];
        k := k + 1;
      }
      Fits(x, before, s, k);
      UrlsDone(before, s, urls);
      sources := sources[s.id := s];
      allPaths := paths + {x.fold(s.path)};
      ok := true;
    }

    method CheckImport(x: Syntax, s: Source, d: Import, ghost records: seq<Source>) returns (ok: bool)
      requires RecordsOk(x, records) && sources == ById(records) && UrlMap(records, urls)
      ensures ok == ImportOk(x, s, d, sources)
    {
      if d.sourceId !in sources {
        return false;
      }
      var target := sources[d.sourceId];
      if d.location.Some? {
        var resolved := x.join(s.url, d.location.value);
        if resolved.None? {
          return false;
        }
        UrlOwner(x, records, urls, resolved.value, d.sourceId);
        if resolved.value !in urls || urls[resolved.value] != d.sourceId {
          return false;
        }
      } else if !d.kind.XsdImport? || d.namespace.None? || d.namespace.value == "" {
        return false;
      }
      if target.kind != if d.kind.WsdlImport? then Wsdl else Xsd {
        return false;
      }
      var namespace := d.namespace;
      if d.kind.XsdInclude? || d.kind.XsdRedefine? || d.kind.XsdOverride? {
        namespace := d.declaringNamespace;
      }
      return namespace == target.targetNamespace;
    }

    method CheckLinks(x: Syntax, s: Source, ghost records: seq<Source>) returns (ok: bool)
      requires RecordsOk(x, records) && sources == ById(records) && UrlMap(records, urls)
      ensures ok == LinksOk(x, s, sources)
    {
      hide ImportOk, RecordsOk, UrlMap, ById;
      var k := 0;
      while k < |s.noticeIds|
        invariant 0 <= k <= |s.noticeIds| && forall j :: 0 <= j < k ==> NoticeOk(s.noticeIds[j], sources)
      {
        if s.noticeIds[k] !in sources || !sources[s.noticeIds[k]].kind.Notice? {
          return false;
        }
        k := k + 1;
      }
      k := 0;
      while k < |s.imports|
        invariant 0 <= k <= |s.imports| && forall j :: 0 <= j < k ==> ImportOk(x, s, s.imports[j], sources)
      {
        var fine := CheckImport(x, s, s.imports[k], records);
        if !fine {
          return false;
        }
        k := k + 1;
      }
      return true;
    }

    method AddRecords(x: Syntax, records: seq<Source>) returns (ok: bool)
      requires sources == map[] && urls == map[]
      modifies this
      ensures ok <==> RecordsOk(x, records)
      ensures ok ==> sources == ById(records) && UrlMap(records, urls)
    {
      hide UrlMap, ById, Paths, Total;
      var paths, total, k := {}, 0, 0;
      Nothing(x);
      assert records[..0] == [];
      while k < |records|
        invariant 0 <= k <= |records| && RecordsOk(x, records[..k]) && sources == ById(records[..k])
        invariant UrlMap(records[..k], urls)
        invariant paths == Paths(x, records[..k]) && total == Total(records[..k])
      {
        hide RecordsOk;
        assert records[..k] + [records[k]] == records[..k + 1];
        RecordsPrefix(x, records, k + 1);
        ok, paths, total := AddRecord(x, records[k], paths, total, records[..k]);
        if !ok {
          return false;
        }
        k := k + 1;
      }
      assert records[..|records|] == records;
      return true;
    }

    method Load(x: Syntax, lock: Lock) returns (ok: bool)
      requires sources == map[] && urls == map[]
      modifies this
      ensures ok <==> Valid(x, lock)
      ensures ok ==> sources == ById(lock.sources) && UrlMap(lock.sources, urls)
    {
      hide RecordsOk, LinksOk, UrlMap, ById, Ids;
      if lock.version != 1 || lock.repository != "onvif/specs" || !x.commitOk(lock.commit) || lock.sources == []
         || |lock.sources| > 128
      {
        return false;
      }
      var fine := AddRecords(x, lock.sources);
      if !fine {
        return false;
      }
      fine := CheckGroups(lock.groups);
      if !fine {
        return false;
      }
      ok := CheckAllLinks(x, lock.sources);
    }

    method CheckGroups(groups: map<string, seq<string>>) returns (ok: bool)
      ensures ok <==> forall g :: g in groups ==> AllIn(groups[g], sources.Keys)
    {
      var rest := groups.Keys;
      while rest != {}
        invariant rest <= groups.Keys
        invariant forall g :: g in groups && g !in rest ==> AllIn(groups[g], sources.Keys)
        decreases |rest|
      {
        var g :| g in rest;
        if exists k :: 0 <= k < |groups[g]| && groups[g][k] !in sources {
          return false;
        }
        rest := rest - {g};
      }
      return true;
    }

    method CheckAllLinks(x: Syntax, ghost records: seq<Source>) returns (ok: bool)
      requires RecordsOk(x, records) && sources == ById(records) && UrlMap(records, urls)
      ensures ok <==> forall id :: id in sources ==> LinksOk(x, sources[id], sources)
    {
      hide RecordsOk, LinksOk, UrlMap, ById;
      var ids := sources.Keys;
      while ids != {}
        invariant ids <= sources.Keys
        invariant forall id :: id in sources && id !in ids ==> LinksOk(x, sources[id], sources)
        decreases |ids|
      {
        var id :| id in ids;
        var fine := CheckLinks(x, sources[id], records);
        if !fine {
          return false;
        }
        ids := ids - {id};
      }
      return true;
    }

    method Seeds(scope: Scope) returns (seeds: seq<string>)
      ensures forall id :: id in seeds <==> id in sources && InScope(scope, sources[id])
    {
      seeds := [];
      var pending := sources.Keys;
      while pending != {}
        invariant pending <= sources.Keys
        invariant forall id :: id in seeds <==> id in sources && id !in pending && InScope(scope, sources[id])
        decreases |pending|
      {
        var id :| id in pending;
        pending := pending - {id};
        var kind := sources[id].kind;
        if scope == AllScope || (scope == XmlScope && (kind == Wsdl || kind == Xsd || kind == Xml))
           || (scope == VendoredScope && sources[id].storage == Vendored) || (scope == ProfilesScope && kind == Pdf)
        {
          seeds := seeds + [id];
        }
      }
    }

    /** The least set with the seeds that is closed under notices and imports, also when imports are cyclic. */
    method Selected(scope: Scope, explicit: Option<seq<string>>) returns (r: Result<set<string>>)
      requires Known(sources)
      ensures r.Ok? <==>
              (explicit.Some? ==> explicit.value != [] && forall id :: id in explicit.value ==> id in sources)
      ensures r.Ok? ==> r.value <= sources.Keys
                        && Least(sources, r.value,
                                 if explicit.Some? then Elements(explicit.value) else ScopeSeeds(scope, sources))
    {
      var seeds;
      if explicit.Some? {
        seeds := explicit.value;
        if seeds == [] {
          return Err;
        }
      } else {
        seeds := Seeds(scope);
      }
      ghost var wanted := Elements(seeds);
      assert explicit.None? ==> wanted == ScopeSeeds(scope, sources);
      hide Needs, Elements, Working, Least;
      var selected: set<string>, pending := {}, seeds;
      WorkStarts(sources, seeds);
      while pending != []
        invariant selected <= sources.Keys && Working(sources, wanted, selected, pending)
        decreases sources.Keys - selected, |pending|
      {
        var n := |pending| - 1;
        var key := pending[n];
        WorkStep(sources, wanted, selected, pending);
        pending := pending[..n];
        if key !in sources {
          return Err;
        }
        if key in selected {
          continue;
        }
        selected := selected + {key};
        pending := pending + Needs(sources[key]);
      }
      WorkEnds(sources, wanted, selected);
      return Ok(selected);
    }
  }

  /** Where the worklist stands: everything wanted or needed is selected or pending, and nothing else is. */
  ghost predicate Working(sources: map<string, Source>, wanted: set<string>, selected: set<string>,
                          pending: seq<string>)
    requires selected <= sources.Keys
  {
    && wanted <= selected + Elements(pending)
    && (forall id :: id in selected ==> Elements(Needs(sources[id])) <= selected + Elements(pending))
    && (wanted <= sources.Keys ==> Elements(pending) <= sources.Keys)
    && forall t: set<string> :: t <= sources.Keys && wanted <= t && Closed(sources, t) ==>
        selected <= t && Elements(pending) <= t
  }

  lemma WorkStarts(sources: map<string, Source>, seeds: seq<string>)
    ensures Working(sources, Elements(seeds), {}, seeds)
  {
    hide Elements;
  }

  lemma ClosedNeeds(sources: map<string, Source>, t: set<string>, id: string)
    requires t <= sources.Keys && Closed(sources, t) && id in t
    ensures Elements(Needs(sources[id])) <= t
  {
    hide Needs;
  }

  lemma ElementsLast(items: seq<string>)
    requires items != []
    ensures Elements(items) == Elements(items[..|items| - 1]) + {items[|items| - 1]}
  {
  }

  lemma ElementsJoin(a: seq<string>, b: seq<string>)
    ensures Elements(a + b) == Elements(a) + Elements(b)
  {
    assert forall k :: 0 <= k < |a| ==> (a + b)[k] == a[k];
    assert forall k :: 0 <= k < |b| ==> (a + b)[|a| + k] == b[k];
  }

  /** Taking the last pending key: unknown, already selected, or selected now with all it needs. */
  lemma WorkStep(sources: map<string, Source>, wanted: set<string>, selected: set<string>, pending: seq<string>)
    requires Known(sources) && selected <= sources.Keys && pending != [] && Working(sources, wanted, selected, pending)
    ensures var (key, rest) := (pending[|pending| - 1], pending[..|pending| - 1]);
            if key !in sources then !(wanted <= sources.Keys)
            else if key in selected then Working(sources, wanted, selected, rest)
            else Working(sources, wanted, selected + {key}, rest + Needs(sources[key]))
  {
    hide Elements, Needs, Closed, Known;
    var (key, rest) := (pending[|pending| - 1], pending[..|pending| - 1]);
    ElementsLast(pending);
    if key in sources && key !in selected {
      ElementsJoin(rest, Needs(sources[key]));
      KnownNeeds(sources, key);
      forall t: set<string> | t <= sources.Keys && wanted <= t && Closed(sources, t)
        ensures selected + {key} <= t && Elements(rest + Needs(sources[key])) <= t
      {
        ClosedNeeds(sources, t, key);
      }
    }
  }

  lemma KnownNeeds(sources: map<string, Source>, id: string)
    requires Known(sources) && id in sources
    ensures Elements(Needs(sources[id])) <= sources.Keys
  {
    hide Needs;
  }

  lemma WorkEnds(sources: map<string, Source>, wanted: set<string>, selected: set<string>)
    requires selected <= sources.Keys && Working(sources, wanted, selected, [])
    ensures wanted <= sources.Keys && Least(sources, selected, wanted)
  {
    hide Needs;
    assert Elements([]) == {};
    forall id | id in selected
      ensures forall k :: 0 <= k < |Needs(sources[id])| ==> Needs(sources[id])[k] in selected
    {
      assert forall k :: 0 <= k < |Needs(sources[id])| ==> Needs(sources[id])[k] in Elements(Needs(sources[id]));
    }
  }

  lemma UrlsAre(s: Source)
    ensures UrlsOf(s) == [s.url] + s.aliases
  {
  }

  lemma NothingTaken(before: seq<Source>, s: Source)
    ensures Free(before, s, 0)
  {
  }

  datatype Scope = XmlScope | VendoredScope | ProfilesScope | AllScope

  predicate InScope(scope: Scope, s: Source) {
    match scope
    case XmlScope => IsXml(s.kind)
    case VendoredScope => s.storage.Vendored?
    case ProfilesScope => s.kind.Pdf?
    case AllScope => true
  }

  function ScopeSeeds(scope: Scope, sources: map<string, Source>): set<string> {
    set id | id in sources && InScope(scope, sources[id])
  }

  function Elements(items: seq<string>): set<string> {
    set k | 0 <= k < |items| :: items[k]
  }

  /** Whatever a source needs is in the registry, as loading ensures. */
  ghost predicate Known(sources: map<string, Source>) {
    forall id :: id in sources ==> forall k :: 0 <= k < |Needs(sources[id])| ==> Needs(sources[id])[k] in sources
  }

  ghost predicate Least(sources: map<string, Source>, selection: set<string>, seeds: set<string>)
    requires selection <= sources.Keys
  {
    && seeds <= selection && Closed(sources, selection)
    && forall t: set<string> :: t <= sources.Keys && seeds <= t && Closed(sources, t) ==> selection <= t
  }

  lemma UrlOwner(x: Syntax, records: seq<Source>, urls: map<string, string>, url: string, id: string)
    requires RecordsOk(x, records) && UrlMap(records, urls) && id in ById(records)
    ensures url in UrlsOf(ById(records)[id]) <==> url in urls && urls[url] == id
  {
    hide UrlsOf, UrlMap, RecordsOk, DistinctIds;
    RecordsDistinct(x, records);
    OwnerIsOnly(records, urls, url, ById(records)[id]);
  }

  lemma OwnerIsOnly(records: seq<Source>, urls: map<string, string>, url: string, s: Source)
    requires DistinctIds(records) && UrlMap(records, urls) && s in records
    ensures url in UrlsOf(s) <==> url in urls && urls[url] == s.id
  {
    hide UrlsOf;
    var i :| 0 <= i < |records| && records[i] == s;
    if url in urls && urls[url] == s.id {
      var j :| 0 <= j < |records| && url in UrlsOf(records[j]) && urls[url] == records[j].id;
      assert i == j;
    }
  }

  lemma Nothing(x: Syntax)
    ensures RecordsOk(x, []) && ById([]) == map[] && UrlMap([], map[]) && Paths(x, []) == {} && Total([]) == 0
  {
  }

  lemma {:induction false} TotalPrefix(x: Syntax, records: seq<Source>, k: nat)
    requires k <= |records| && forall i :: 0 <= i < |records| ==> RecordOk(x, records[i])
    ensures Total(records[..k]) <= Total(records)
    decreases |records|
  {
    var n := |records| - 1;
    if k <= n {
      assert RecordOk(x, records[n]);
      assert records[..n][..k] == records[..k];
      TotalPrefix(x, records[..n], k);
    } else {
      assert records[..k] == records;
    }
  }

  lemma RecordsPrefix(x: Syntax, records: seq<Source>, k: nat)
    requires k <= |records|
    ensures RecordsOk(x, records) ==> RecordsOk(x, records[..k])
  {
    hide RecordOk, Apart;
    if RecordsOk(x, records) {
      TotalPrefix(x, records, k);
    }
  }

  lemma AddedBy(x: Syntax, before: seq<Source>, s: Source)
    ensures ById(before + [s]) == ById(before)[s.id := s]
    ensures Total(before + [s]) == Total(before) + s.bytes
    ensures Paths(x, before + [s]) == Paths(x, before) + {x.fold(s.path)}
  {
    assert (before + [s])[..|before|] == before;
    var more := before + [s];
    forall p
      ensures p in Paths(x, more) <==> p in Paths(x, before) + {x.fold(s.path)}
    {
      assert forall i :: 0 <= i < |before| ==> more[i] == before[i];
      assert more[|before|] == s;
    }
  }

  lemma ValidKnown(x: Syntax, lock: Lock)
    requires Valid(x, lock)
    ensures Known(ById(lock.sources))
  {
    hide RecordsOk, ById;
    var all := ById(lock.sources);
    forall id | id in all
      ensures forall k :: 0 <= k < |Needs(all[id])| ==> Needs(all[id])[k] in all
    {
      LinksRestricted(x, all[id], all, all);
    }
  }

  /** Only from nothing nothing is selected. */
  lemma LeastIsEmpty(sources: map<string, Source>, selection: set<string>, seeds: set<string>)
    requires selection <= sources.Keys && Least(sources, selection, seeds)
    ensures selection == {} <==> seeds == {}
  {
    assert Closed(sources, {});
  }

  /** What a selection writes out loads again exactly when there was a seed, and no smaller part with the seeds does. */
  lemma ExportIsSmallest(x: Syntax, lock: Lock, seeds: set<string>, order: seq<string>)
    requires Valid(x, lock) && NoRepeats(order) && Elements(order) <= Ids(lock.sources)
    requires Least(ById(lock.sources), Elements(order), seeds)
    ensures AllIn(order, Ids(lock.sources)) && (Valid(x, Restrict(lock, order)) <==> seeds != {})
    ensures forall other :: NoRepeats(other) && AllIn(other, Ids(lock.sources)) ==>
              seeds <= Elements(other) && Valid(x, Restrict(lock, other)) ==> Elements(order) <= Elements(other)
  {
    hide Valid, ById, Ids, Restrict, NoRepeats;
    assert AllIn(order, Ids(lock.sources)) by { assert forall k :: 0 <= k < |order| ==> order[k] in Elements(order); }
    RestrictedLoads(x, lock, order);
    LeastIsEmpty(ById(lock.sources), Elements(order), seeds);
    assert order != [] ==> order[0] in Elements(order);
    forall other | NoRepeats(other) && AllIn(other, Ids(lock.sources)) && seeds <= Elements(other) &&
        Valid(x, Restrict(lock, other))
      ensures Elements(order) <= Elements(other)
    {
      RestrictedLoads(x, lock, other);
    }
  }

  /** An export by scope loads again exactly when some source of the lock is in the scope. */
  lemma ScopeExportLoads(x: Syntax, lock: Lock, scope: Scope, order: seq<string>)
    requires Valid(x, lock) && NoRepeats(order) && Elements(order) <= Ids(lock.sources)
    requires Least(ById(lock.sources), Elements(order), ScopeSeeds(scope, ById(lock.sources)))
    ensures AllIn(order, Ids(lock.sources))
    ensures Valid(x, Restrict(lock, order)) <==> ScopeSeeds(scope, ById(lock.sources)) != {}
    ensures Valid(x, Restrict(lock, order)) <==> exists i :: 0 <= i < |lock.sources| && InScope(scope, lock.sources[i])
  {
    hide ById, Restrict, NoRepeats, InScope, RecordsOk, LinksOk;
    var all := ById(lock.sources);
    ExportIsSmallest(x, lock, ScopeSeeds(scope, all), order);
    RecordsDistinct(x, lock.sources);
    if i :| 0 <= i < |lock.sources| && InScope(scope, lock.sources[i]) {
      FoundById(lock.sources, i);
      assert lock.sources[i].id in ScopeSeeds(scope, all);
    }
    if id :| id in ScopeSeeds(scope, all) {
      assert all[id] in lock.sources && InScope(scope, all[id]);
    }
  }

  /** A syntax without restrictions, and a lock with one WSDL source and no PDF. */
  const FREE_SYNTAX := Syntax(_ => true, path => path, _ => true, (_, _) => true, (_, _) => None, _ => "definitions",
                              _ => true)

  const ONE_WSDL := Lock(1, "onvif/specs", "0",
                         [Source("wsdl", "a.wsdl", Wsdl, 1, "0", Vendored, PermittedUnchanged, [], [], "https://a", [],
                                 [], "definitions", Some("urn:a"))], map[])

  /** The profiles of a lock without PDFs: the lock loads, and its export by that scope does not. */
  lemma EmptyScopeDoesNotLoad()
    ensures Valid(FREE_SYNTAX, ONE_WSDL)
    ensures Least(ById(ONE_WSDL.sources), {}, ScopeSeeds(ProfilesScope, ById(ONE_WSDL.sources)))
    ensures Elements([]) == {} && !Valid(FREE_SYNTAX, Restrict(ONE_WSDL, []))
  {
    var s := ONE_WSDL.sources[0];
    assert ONE_WSDL.sources == [s] && ById([s]) == map[s.id := s] && Total([s]) == 1 by {
      assert [s][..0] == [] && ById([]) == map[];
    }
    assert NoRepeats(UrlsOf(s)) && RecordOk(FREE_SYNTAX, s) && LinksOk(FREE_SYNTAX, s, map[s.id := s]);
    assert ScopeSeeds(ProfilesScope, ById([s])) == {};
  }
}
