/** The archive inspection loop, over a stream that is read block by block. */
module TarInspector {
  import opened PaxRecords
  import opened TarArchive
  import opened Wrappers

  /** There are `size` bytes and zero padding up to the block. */
  predicate HasContent(rest: Octets, size: nat) {
    var end := size + Padding(size);
    end <= |rest| && rest[size..end] == Zeros(Padding(size))
  }

  function Content(rest: Octets, size: nat): Octets
    requires HasContent(rest, size)
  {
    rest[..size]
  }

  function Later(rest: Octets, size: nat): (later: Octets)
    requires HasContent(rest, size)
    ensures |later| <= |rest|
  {
    rest[size + Padding(size)..]
  }

  class Stream {
    var rest: Octets

    constructor (data: Octets)
      ensures rest == data
    {
      rest := data;
    }

    /** At most `count` bytes, and fewer only at the end. */
    method Read(count: nat) returns (data: Octets)
      modifies this
      ensures data + rest == old(rest) && |data| == if count <= |old(rest)| then count else |old(rest)|
    {
      var n := if count <= |rest| then count else |rest|;
      data := rest[..n];
      rest := rest[n..];
    }

    method ExactRead(count: nat) returns (data: Option<Octets>)
      modifies this
      ensures data.Some? <==> count <= |old(rest)|
      ensures data.Some? ==> data.value == old(rest)[..count] && rest == old(rest)[count..]
    {
      var found := Read(count);
      if |found| != count {
        return None;
      }
      assert found == old(rest)[..count] && rest == old(rest)[count..];
      return Some(found);
    }

    /** The rest of the stream is zeros. */
    method OnlyZeros() returns (ok: bool)
      modifies this
      ensures ok <==> old(rest) == Zeros(|old(rest)|)
    {
      ghost var done: Octets := [];
      while rest != []
        invariant done + rest == old(rest) && done == Zeros(|done|)
        decreases |rest|
      {
        var trailing := Read(CHUNK);
        if trailing != Zeros(|trailing|) {
          assert old(rest)[|done|..|done| + |trailing|] == trailing;
          assert Zeros(|old(rest)|)[|done|..|done| + |trailing|] == Zeros(|trailing|);
          return false;
        }
        assert done + trailing == Zeros(|done| + |trailing|);
        done := done + trailing;
      }
      assert done == old(rest);
      return true;
    }

    /** The next `size` bytes, in chunks. */
    method ReadChunks(size: nat) returns (content: Option<Octets>)
      modifies this
      ensures content.Some? <==> size <= |old(rest)|
      ensures content.Some? ==> content.value == old(rest)[..size] && rest == old(rest)[size..]
    {
      var remaining, bytes := size, [];
      while remaining > 0
        invariant 0 <= remaining <= size && |bytes| == size - remaining && bytes + rest == old(rest)
      {
        var chunk := ExactRead(if CHUNK < remaining then CHUNK else remaining);
        if chunk.None? {
          return None;
        }
        bytes := bytes + chunk.value;
        remaining := remaining - |chunk.value|;
      }
      assert bytes == old(rest)[..size] && rest == old(rest)[size..];
      return Some(bytes);
    }

    /** The content in chunks, then zero padding up to the block. */
    method ReadContent(size: nat) returns (content: Option<Octets>)
      modifies this
      ensures content.Some? <==> HasContent(old(rest), size)
      ensures content.Some? ==>
              content.value == Content(old(rest), size) && |content.value| == size && rest == Later(old(rest), size)
    {
      hide Zeros, Padding;
      content := ReadChunks(size);
      if content.None? {
        return None;
      }
      var padding := ExactRead(-(size as int) % BLOCK);
      PaddingIs(size);
      SplitContent(old(rest), size);
      if padding.None? || padding.value != Zeros(Padding(size)) {
        return None;
      }
    }
  }

  lemma PaddingIs(size: nat)
    ensures -(size as int) % BLOCK == Padding(size)
  {
    var q, p := size / BLOCK, size % BLOCK;
    RemainderIs(-(size as int), if p == 0 then -q else -q - 1, Padding(size));
  }

  lemma RemainderIs(n: int, q: int, r: nat)
    requires n == BLOCK * q + r && r < BLOCK
    ensures n % BLOCK == r
  {
  }

  lemma SplitContent(rest: Octets, size: nat)
    requires size <= |rest|
    ensures Padding(size) <= |rest[size..]| ==>
              rest[size..][..Padding(size)] == rest[size..size + Padding(size)]
              && rest[size..][Padding(size)..] == rest[size + Padding(size)..]
  {
    hide Padding;
  }

  /** The variables of the inspection loop. */
  datatype Memory = Memory(seen: set<string>, directories: set<string>, local: map<string, string>,
                           global: map<string, string>, count: nat, total: nat)

  /** What the loop remembers is what the entries so far mean. */
  function Remembered(x: Reader, es: seq<Entry>): Memory {
    Memory(Names(x, es, Regular), Names(x, es, Directory), Local(x, es), Global(x, es), |es|, PayloadBytes(x, es))
  }

  lemma RemembersMore(x: Reader, es: seq<Entry>, e: Entry)
    requires x.header(e.block).Some?
    ensures var info, all := x.header(e.block).value, es + [e];
            && (forall kind :: Names(x, all, kind) == Names(x, es, kind)
                  + if info.kind == kind && NameOf(x, es, info).Some? then {NameOf(x, es, info).value} else {})
            && Local(x, all) == (if info.kind.LocalPax? then PaxOf(x, e) else if info.kind.GlobalPax? then Local(x, es)
                                 else map[])
            && Global(x, all) == Global(x, es) + (if info.kind.GlobalPax? then PaxOf(x, e) else map[])
            && PayloadBytes(x, all) == PayloadBytes(x, es) + if info.kind.Regular? then |e.content| else 0
  {
    assert (es + [e])[..|es|] == es;
  }

  /** One step of the walk, after a header block that is not zero. */
  lemma WalkStep(x: Reader, plan: Plan, data: Octets, es: seq<Entry>, size: nat)
    requires |data| >= BLOCK && data[..BLOCK] != Zeros(BLOCK)
    ensures ContentSize(x, plan, es, data[..BLOCK]).None? ==> Walk(x, plan, data, es).None?
    ensures ContentSize(x, plan, es, data[..BLOCK]) == Some(size) ==>
              var rest := data[BLOCK..];
              if HasContent(rest, size) && EntryOk(x, plan, es, Entry(data[..BLOCK], Content(rest, size))) then
                Walk(x, plan, data, es) ==
                    Walk(x, plan, Later(rest, size), es + [Entry(data[..BLOCK], Content(rest, size))])
              else Walk(x, plan, data, es).None?
  {
    hide EntryOk, ContentSize, Local, Names, Zeros, Padding, HasContent, Content, Later;
    CutContent(data, size);
  }

  /** The content behind a header, by its place in the data. */
  lemma CutContent(data: Octets, size: nat)
    requires |data| >= BLOCK
    ensures var end := BLOCK + size + Padding(size);
            && (HasContent(data[BLOCK..], size) <==> end <= |data| && data[BLOCK + size..end] == Zeros(Padding(size)))
            && (HasContent(data[BLOCK..], size) ==>
                  Content(data[BLOCK..], size) == data[BLOCK..BLOCK + size] &&
                      Later(data[BLOCK..], size) == data[end..])
  {
    hide Zeros, Padding;
    var rest, end := data[BLOCK..], size + Padding(size);
    if end <= |rest| {
      assert rest[size..end] == data[BLOCK + size..BLOCK + end] && rest[..size] == data[BLOCK..BLOCK + size];
      assert rest[end..] == data[BLOCK + end..];
    }
  }

  lemma WalkEnds(x: Reader, plan: Plan, data: Octets, es: seq<Entry>)
    ensures |data| < BLOCK ==> Walk(x, plan, data, es).None?
    ensures |data| >= BLOCK && data[..BLOCK] == Zeros(BLOCK) ==>
              Walk(x, plan, data, es) ==
                if |data| >= 2 * BLOCK && data[BLOCK..] == Zeros(|data| - BLOCK) && Local(x, es) == map[]
                   && Names(x, es, Regular) == plan.stamps.Keys then Some(es) else None
  {
    hide EntryOk, ContentSize, Local, Names;
    if |data| >= BLOCK && data[..BLOCK] == Zeros(BLOCK) {
      assert data == data[..BLOCK] + data[BLOCK..];
      ZerosSplit(BLOCK, |data| - BLOCK);
      if data == Zeros(|data|) {
        assert data[BLOCK..] == Zeros(|data| - BLOCK);
      }
    }
  }

  lemma NothingYet(x: Reader)
    ensures Remembered(x, []) == Memory({}, {}, map[], map[], 0, 0)
  {
  }

  /** Header `block` of an entry, taken from in front of `rest`, led the walk on to `e` and `later`. */
  ghost predicate Advances(x: Reader, plan: Plan, data: Octets, es: seq<Entry>, e: Entry, later: Octets) {
    Walk(x, plan, data, es) == Walk(x, plan, later, es + [e])
  }

  method InspectPax(x: Reader, plan: Plan, stream: Stream, block: Octets, info: Info, m: Memory, ghost es: seq<Entry>)
    returns (next: Option<Memory>, ghost e: Entry)
    requires HeaderOk(x, plan, block) && x.header(block) == Some(info) && info.kind in {LocalPax, GlobalPax}
    requires m == Remembered(x, es) && |es| < plan.files * 4
    modifies stream
    ensures next.None? ==> Walk(x, plan, block + old(stream.rest), es).None?
    ensures next.Some? ==>
            Advances(x, plan, block + old(stream.rest), es, e, stream.rest) && next.value == Remembered(x, es + [e])
    ensures next.Some? ==> |stream.rest| <= |old(stream.rest)|
  {
    hide Walk, HeaderOk, Local, Global, Names, PayloadBytes, Fields;
    ghost var data, rest := block + stream.rest, stream.rest;
    e := Entry(block, []);
    BlockSize(x, plan, block);
    assert data[..BLOCK] == block && data[BLOCK..] == rest;
    WalkStep(x, plan, data, es, info.size);
    hide HasContent, Content, Later;
    var content := stream.ReadContent(info.size);
    if content.None? {
      return None, e;
    }
    e := Entry(block, content.value);
    var fields := PaxFields(x.texts, content.value);
    if fields.None? {
      return None, e;
    }
    RemembersMore(x, es, e);
    if info.kind.GlobalPax? {
      if "path" in fields.value || "size" in fields.value {
        return None, e;
      }
      return Some(m.(global := m.global + fields.value, count := m.count + 1)), e;
    }
    if m.local != map[] {
      return None, e;
    }
    return Some(m.(local := fields.value, count := m.count + 1)), e;
  }

  lemma BlockSize(x: Reader, plan: Plan, block: Octets)
    requires HeaderOk(x, plan, block)
    ensures |block| == BLOCK && block != Zeros(BLOCK) && x.header(block).Some? && x.header(block).value.size >= 0
  {
  }

  lemma NoContent(rest: Octets)
    ensures HasContent(rest, 0) && Content(rest, 0) == [] && Later(rest, 0) == rest
  {
    assert rest[0..0] == Zeros(0);
  }

  lemma DirectoryStep(x: Reader, plan: Plan, block: Octets, rest: Octets, es: seq<Entry>, info: Info)
    requires HeaderOk(x, plan, block) && x.header(block) == Some(info) && info.kind.Directory? && |es| < plan.files * 4
    ensures if DirectoryOk(x, plan, es, info)
            then Walk(x, plan, block + rest, es) == Walk(x, plan, rest, es + [Entry(block, [])])
            else Walk(x, plan, block + rest, es).None?
  {
    hide Walk, HeaderOk, DirectoryOk;
    BlockSize(x, plan, block);
    assert (block + rest)[..BLOCK] == block && (block + rest)[BLOCK..] == rest;
    NoContent(rest);
    hide Content, Later, HasContent;
    WalkStep(x, plan, block + rest, es, 0);
  }

  lemma PayloadRefused(x: Reader, plan: Plan, block: Octets, rest: Octets, es: seq<Entry>, info: Info)
    requires HeaderOk(x, plan, block) && x.header(block) == Some(info) && info.kind.Regular? && |es| < plan.files * 4
    requires !PayloadFits(x, plan, es, info)
    ensures Walk(x, plan, block + rest, es).None?
  {
    hide Walk, HeaderOk, PayloadFits;
    BlockSize(x, plan, block);
    assert (block + rest)[..BLOCK] == block;
    WalkStep(x, plan, block + rest, es, 0);
  }

  lemma PayloadStep(x: Reader, plan: Plan, block: Octets, rest: Octets, es: seq<Entry>, info: Info, stamp: Stamp)
    requires HeaderOk(x, plan, block) && x.header(block) == Some(info) && info.kind.Regular? && |es| < plan.files * 4
    requires PayloadFits(x, plan, es, info) && stamp == plan.stamps[NameOf(x, es, info).value]
    ensures if HasContent(rest, stamp.bytes) && |Content(rest, stamp.bytes)| == stamp.bytes
               && x.digest(Content(rest, stamp.bytes)) == stamp.digest
            then Walk(x, plan, block + rest, es) ==
                 Walk(x, plan, Later(rest, stamp.bytes), es + [Entry(block, Content(rest, stamp.bytes))])
            else Walk(x, plan, block + rest, es).None?
  {
    hide Walk, HeaderOk, NameOf, SizeOf, PayloadBytes, HasContent, Content, Later, Names;
    BlockSize(x, plan, block);
    assert (block + rest)[..BLOCK] == block && (block + rest)[BLOCK..] == rest;
    WalkStep(x, plan, block + rest, es, stamp.bytes);
  }

  /** A directory or a payload: its effective name and size, then its own checks. */
  method InspectMember(x: Reader, plan: Plan, stream: Stream, block: Octets, info: Info, m: Memory,
                       ghost es: seq<Entry>)
    returns (next: Option<Memory>, ghost e: Entry)
    requires HeaderOk(x, plan, block) && x.header(block) == Some(info) && info.kind in {Regular, Directory}
    requires m == Remembered(x, es) && |es| < plan.files * 4
    modifies stream
    ensures next.None? ==> Walk(x, plan, block + old(stream.rest), es).None?
    ensures next.Some? ==>
            Advances(x, plan, block + old(stream.rest), es, e, stream.rest) && next.value == Remembered(x, es + [e])
    ensures next.Some? ==> |stream.rest| <= |old(stream.rest)|
  {
    hide Walk, HeaderOk, Local, Global, Names, PayloadBytes, Advances, EntryOk;
    var effective := m.global + m.local;
    var found := x.name(if "path" in effective then effective["path"] else info.name);
    var size := if "size" in effective then x.number(effective["size"]) else info.size;
    assert found == NameOf(x, es, info) && size == SizeOf(x, es, info);
    hide NameOf, SizeOf;
    if info.kind.Directory? {
      next, e := InspectDirectory(x, plan, stream.rest, block, info, found, size, m, es);
    } else {
      next, e := InspectPayload(x, plan, stream, block, info, found, size, m, es);
    }
  }

  method InspectDirectory(x: Reader, plan: Plan, ghost rest: Octets, block: Octets, info: Info, found: Option<string>,
                          size: int, m: Memory, ghost es: seq<Entry>)
    returns (next: Option<Memory>, ghost e: Entry)
    requires HeaderOk(x, plan, block) && x.header(block) == Some(info) && info.kind.Directory?
    requires m == Remembered(x, es) && |es| < plan.files * 4 && found == NameOf(x, es, info)
    requires size == SizeOf(x, es, info)
    ensures next.None? ==> Walk(x, plan, block + rest, es).None?
    ensures next.Some? ==> Advances(x, plan, block + rest, es, e, rest) && next.value == Remembered(x, es + [e])
  {
    hide Walk, HeaderOk, Local, Global, Names, PayloadBytes, NameOf, SizeOf;
    e := Entry(block, []);
    DirectoryStep(x, plan, block, rest, es, info);
    if found.None? || size != 0 || found.value !in plan.directories || found.value in m.directories {
      return None, e;
    }
    RemembersMore(x, es, e);
    return Some(m.(directories := m.directories + {found.value}, local := map[], count := m.count + 1)), e;
  }

  method InspectPayload(x: Reader, plan: Plan, stream: Stream, block: Octets, info: Info, found: Option<string>,
                        size: int, m: Memory, ghost es: seq<Entry>)
    returns (next: Option<Memory>, ghost e: Entry)
    requires HeaderOk(x, plan, block) && x.header(block) == Some(info) && info.kind.Regular?
    requires m == Remembered(x, es) && |es| < plan.files * 4 && found == NameOf(x, es, info)
    requires size == SizeOf(x, es, info)
    modifies stream
    ensures next.None? ==> Walk(x, plan, block + old(stream.rest), es).None?
    ensures next.Some? ==>
            Advances(x, plan, block + old(stream.rest), es, e, stream.rest) && next.value == Remembered(x, es + [e])
    ensures next.Some? ==> |stream.rest| <= |old(stream.rest)|
  {
    hide Walk, HeaderOk, Local, Global, Names, PayloadBytes, NameOf, SizeOf;
    e := Entry(block, []);
    if found.None? || found.value !in plan.stamps || found.value in m.seen {
      PayloadRefused(x, plan, block, stream.rest, es, info);
      return None, e;
    }
    var expected := plan.stamps[found.value];
    if size != expected.bytes || m.total + size >= plan.siteBytes {
      PayloadRefused(x, plan, block, stream.rest, es, info);
      return None, e;
    }
    PayloadStep(x, plan, block, stream.rest, es, info, expected);
    hide PayloadFits, HasContent, Content, Later;
    var content := stream.ReadContent(size);
    if content.None? || x.digest(content.value) != expected.digest {
      return None, e;
    }
    e := Entry(block, content.value);
    RemembersMore(x, es, e);
    return Some(m.(seen := m.seen + {found.value}, local := map[], count := m.count + 1, total := m.total + size)), e;
  }

  lemma WalkAccepts(x: Reader, plan: Plan, data: Octets)
    ensures Walk(x, plan, data, []).Some? <==> exists es :: Legal(x, plan, es) && Spells(data, es)
  {
    hide Walk, Legal, Spells;
    if Walk(x, plan, data, []).Some? {
      WalkIsLegal(x, plan, data, Walk(x, plan, data, []).value);
    }
    if es :| Legal(x, plan, es) && Spells(data, es) {
      WalkIsLegal(x, plan, data, es);
    }
  }

  /** Accepts exactly the bytes, below the size limit, that spell a legal archive of a committed plan. */
  method InspectArchive(x: Reader, plan: Plan, stream: Stream, committed: bool, archiveBytes: nat) returns (ok: bool)
    modifies stream
    ensures ok <==>
            && committed && |old(stream.rest)| < archiveBytes
            && exists es :: Legal(x, plan, es) && Spells(old(stream.rest), es)
  {
    hide Legal, Spells;
    if !committed || |stream.rest| >= archiveBytes {
      return false;
    }
    WalkAccepts(x, plan, stream.rest);
    hide Walk, HeaderOk, EntryOk, ContentSize, Local, Global, Names, PayloadBytes;
    var m := Memory({}, {}, map[], map[], 0, 0);
    ghost var es: seq<Entry> := [];
    NothingYet(x);
    while true
      invariant m == Remembered(x, es)
      invariant Walk(x, plan, old(stream.rest), []) == Walk(x, plan, stream.rest, es)
      decreases |stream.rest|
    {
      ghost var data := stream.rest;
      WalkEnds(x, plan, data, es);
      var block := stream.ExactRead(BLOCK);
      if block.None? {
        return false;
      }
      assert data == block.value + stream.rest;
      if block.value == Zeros(BLOCK) {
        var long := |stream.rest| >= BLOCK;
        var zeros := stream.OnlyZeros();
        return long && zeros && m.local == map[] && m.seen == plan.stamps.Keys;
      }
      var info := InspectHeader(x, plan, block.value);
      if m.count >= plan.files * 4 || info.None? {
        HeaderRefused(x, plan, data, es);
        return false;
      }
      var next;
      ghost var e;
      if info.value.kind == LocalPax || info.value.kind == GlobalPax {
        next, e := InspectPax(x, plan, stream, block.value, info.value, m, es);
      } else {
        next, e := InspectMember(x, plan, stream, block.value, info.value, m, es);
      }
      if next.None? {
        return false;
      }
      m := next.value;
      es := es + [e];
    }
  }

  /** The checks of a header block by itself. */
  method InspectHeader(x: Reader, plan: Plan, block: Octets) returns (info: Option<Info>)
    requires |block| == BLOCK && block != Zeros(BLOCK)
    ensures info.Some? <==> HeaderOk(x, plan, block)
    ensures info.Some? ==> info == x.header(block) && !info.value.kind.Forbidden?
  {
    info := x.header(block);
    if info.None? || info.value.size < 0 || info.value.size >= plan.siteBytes {
      return None;
    }
    if info.value.kind == LocalPax || info.value.kind == GlobalPax {
      if !x.metadataName(info.value.name) || info.value.size > CHUNK {
        return None;
      }
      return info;
    }
    if info.value.kind == Forbidden || info.value.linked || x.name(info.value.name).None? {
      return None;
    }
  }

  lemma HeaderRefused(x: Reader, plan: Plan, data: Octets, es: seq<Entry>)
    requires |data| >= BLOCK && data[..BLOCK] != Zeros(BLOCK)
    requires |es| >= plan.files * 4 || !HeaderOk(x, plan, data[..BLOCK])
    ensures Walk(x, plan, data, es).None?
  {
    WalkStep(x, plan, data, es, 0);
  }
}
