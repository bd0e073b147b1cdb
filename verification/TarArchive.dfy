/** The deployment archive: a block stream of headers, extension headers, payloads and padding. */
module TarArchive {
  import opened PaxRecords
  import opened Wrappers

  const BLOCK := 512
  const CHUNK := 65536

  datatype EntryKind = LocalPax | GlobalPax | Regular | Directory | Forbidden

  /** What a header block says; `linked` covers link names and sparse files. */
  datatype Info = Info(name: string, size: int, kind: EntryKind, linked: bool)

  datatype Stamp = Stamp(bytes: nat, digest: string)

  /** The planned payloads, the directories above them, and the limits. */
  datatype Plan = Plan(stamps: map<string, Stamp>, directories: set<string>, files: nat, siteBytes: nat)

  /** Header decoding with its checksum, name normalisation, numbers in fields and the digest stay parameters. */
  datatype Reader = Reader(texts: Texts, header: Octets -> Option<Info>, name: string -> Option<string>,
                           metadataName: string -> bool, number: string -> nat, digest: Octets -> string)

  /** One header block with what follows it: a PAX text, nothing, or a payload. */
  datatype Entry = Entry(block: Octets, content: Octets)

  function Zeros(n: nat): (z: Octets)
    ensures |z| == n
  {
    seq(n, _ => '\0')
  }

  function Padding(size: nat): nat { (BLOCK - size % BLOCK) % BLOCK }

  function SpellEntry(e: Entry): Octets { e.block + e.content + Zeros(Padding(|e.content|)) }

  function SpellAll(es: seq<Entry>): Octets {
    if es == [] then [] else SpellEntry(es[0]) + SpellAll(es[1..])
  }

  // ---------- What the entries of an archive mean ----------

  predicate IsPax(x: Reader, e: Entry) {
    x.header(e.block).Some? && x.header(e.block).value.kind in {LocalPax, GlobalPax}
  }

  function PaxOf(x: Reader, e: Entry): map<string, string> {
    match Fields(x.texts, e.content)
    case Some(fields) => fields
    case None => map[]
  }

  /** The fields of all global headers so far, later ones winning. */
  function Global(x: Reader, es: seq<Entry>): map<string, string> {
    if es == [] then map[]
    else
      var e := es[|es| - 1];
      Global(x, es[..|es| - 1])
      + if x.header(e.block).Some? && x.header(e.block).value.kind.GlobalPax? then PaxOf(x, e) else map[]
  }

  /** The fields of the local header since the last entry that is not a PAX header. */
  function Local(x: Reader, es: seq<Entry>): map<string, string> {
    if es == [] then map[]
    else
      var e := es[|es| - 1];
      if !IsPax(x, e) then map[]
      else if x.header(e.block).value.kind.LocalPax? then PaxOf(x, e)
      else Local(x, es[..|es| - 1])
  }

  function Effective(x: Reader, before: seq<Entry>): map<string, string> {
    Global(x, before) + Local(x, before)
  }

  /** The name of an entry after the entries before it. */
  function NameOf(x: Reader, before: seq<Entry>, info: Info): Option<string> {
    var fields := Effective(x, before);
    x.name(if "path" in fields then fields["path"] else info.name)
  }

  function SizeOf(x: Reader, before: seq<Entry>, info: Info): int {
    var fields := Effective(x, before);
    if "size" in fields then x.number(fields["size"]) else info.size
  }

  /** The names of the entries of one kind. */
  function Names(x: Reader, es: seq<Entry>, kind: EntryKind): set<string> {
    if es == [] then {}
    else
      var n := |es| - 1;
      var header := x.header(es[n].block);
      Names(x, es[..n], kind)
      + if header.Some? && header.value.kind == kind && NameOf(x, es[..n], header.value).Some?
        then {NameOf(x, es[..n], header.value).value} else {}
  }

  function PayloadBytes(x: Reader, es: seq<Entry>): nat {
    if es == [] then 0
    else
      var n := |es| - 1;
      var header := x.header(es[n].block);
      PayloadBytes(x, es[..n]) + if header.Some? && header.value.kind.Regular? then |es[n].content| else 0
  }

  /** The header is readable, within its bound, and of a permitted kind with an acceptable name. */
  predicate HeaderOk(x: Reader, plan: Plan, block: Octets) {
    && |block| == BLOCK && block != Zeros(BLOCK)
    && x.header(block).Some?
    && var info := x.header(block).value;
    && 0 <= info.size < plan.siteBytes
    && if info.kind in {LocalPax, GlobalPax} then x.metadataName(info.name) && info.size <= 65536
       else info.kind in {Regular, Directory} && !info.linked && x.name(info.name).Some?
  }

  predicate PaxOk(x: Reader, before: seq<Entry>, info: Info, text: Octets) {
    && |text| == info.size && Fields(x.texts, text).Some?
    && if info.kind.GlobalPax? then {"path", "size"} !! Fields(x.texts, text).value.Keys
       else Local(x, before) == map[]
  }

  predicate DirectoryOk(x: Reader, plan: Plan, before: seq<Entry>, info: Info) {
    && NameOf(x, before, info).Some? && SizeOf(x, before, info) == 0
    && NameOf(x, before, info).value in plan.directories - Names(x, before, Directory)
  }

  predicate PayloadFits(x: Reader, plan: Plan, before: seq<Entry>, info: Info) {
    && NameOf(x, before, info).Some?
    && var name := NameOf(x, before, info).value;
    && name in plan.stamps && name !in Names(x, before, Regular)
    && SizeOf(x, before, info) == plan.stamps[name].bytes
    && PayloadBytes(x, before) + plan.stamps[name].bytes < plan.siteBytes
  }

  /** An entry is acceptable after the entries before it. */
  predicate EntryOk(x: Reader, plan: Plan, before: seq<Entry>, e: Entry) {
    && |before| < plan.files * 4 && HeaderOk(x, plan, e.block)
    && var info := x.header(e.block).value;
    && if info.kind in {LocalPax, GlobalPax} then PaxOk(x, before, info, e.content)
       else if info.kind.Directory? then DirectoryOk(x, plan, before, info) && e.content == []
       else
         && PayloadFits(x, plan, before, info)
         && |e.content| == plan.stamps[NameOf(x, before, info).value].bytes
         && x.digest(e.content) == plan.stamps[NameOf(x, before, info).value].digest
  }

  predicate EachOk(x: Reader, plan: Plan, es: seq<Entry>) {
    forall k :: 0 <= k < |es| ==> EntryOk(x, plan, es[..k], es[k])
  }

  /** A complete archive: every entry acceptable, no local header left over, every planned payload present. */
  predicate Legal(x: Reader, plan: Plan, es: seq<Entry>) {
    EachOk(x, plan, es) && Local(x, es) == map[] && Names(x, es, Regular) == plan.stamps.Keys
  }

  /** The bytes are these entries in a row, padded, followed by at least two blocks of zeros. */
  ghost predicate Strung(data: Octets, es: seq<Entry>) {
    exists n: nat :: n >= 2 * BLOCK && data == SpellAll(es) + Zeros(n)
  }

  // ---------- The walk over the blocks ----------

  /** How many bytes of content follow a header, when the header alone is acceptable. */
  function ContentSize(x: Reader, plan: Plan, before: seq<Entry>, block: Octets): Option<nat> {
    if |before| >= plan.files * 4 || !HeaderOk(x, plan, block) then None
    else
      var info := x.header(block).value;
      if info.kind in {LocalPax, GlobalPax} then Some(info.size)
      else if info.kind.Directory? then (if DirectoryOk(x, plan, before, info) then Some(0) else None)
      else if PayloadFits(x, plan, before, info) then Some(plan.stamps[NameOf(x, before, info).value].bytes)
      else None
  }

  function Walk(x: Reader, plan: Plan, data: Octets, before: seq<Entry>): Option<seq<Entry>>
    decreases |data|
  {
    if |data| < BLOCK then None
    else if data[..BLOCK] == Zeros(BLOCK) then
      if |data| >= 2 * BLOCK && data == Zeros(|data|) && Local(x, before) == map[]
         && Names(x, before, Regular) == plan.stamps.Keys
      then Some(before) else None
    else match ContentSize(x, plan, before, data[..BLOCK])
      case None => None
      case Some(size) =>
        var end := BLOCK + size + Padding(size);
        if |data| < end then None
        else
          var e := Entry(data[..BLOCK], data[BLOCK..BLOCK + size]);
          if EntryOk(x, plan, before, e) && data[BLOCK + size..end] == Zeros(Padding(size))
          then Walk(x, plan, data[end..], before + [e]) else None
  }

  lemma ZerosSplit(a: nat, b: nat)
    ensures Zeros(a) + Zeros(b) == Zeros(a + b)
  {
  }

  lemma {:induction false} WalkSound(x: Reader, plan: Plan, data: Octets, before: seq<Entry>, es: seq<Entry>)
    requires EachOk(x, plan, before) && Walk(x, plan, data, before) == Some(es)
    ensures before <= es && Legal(x, plan, es) && Strung(data, es[|before|..])
    decreases |data|
  {
    hide HeaderOk, EntryOk, Local, Names, ContentSize, Strung, EachOk, Zeros, Padding, SpellAll;
    if data[..BLOCK] == Zeros(BLOCK) {
      assert es[|before|..] == [];
      assert Strung(data, []) by { ZerosSpell(|data|); }
    } else {
      var size := ContentSize(x, plan, before, data[..BLOCK]).value;
      var end := BLOCK + size + Padding(size);
      var e := Entry(data[..BLOCK], data[BLOCK..BLOCK + size]);
      EachOkSnoc(x, plan, before, e);
      WalkSound(x, plan, data[end..], before + [e], es);
      PrefixOne(before, e, es);
      StrungMore(data, size, es[|before| + 1..]);
    }
  }

  lemma ZerosSpell(n: nat)
    requires n >= 2 * BLOCK
    ensures Strung(Zeros(n), [])
  {
    assert SpellAll([]) + Zeros(n) == Zeros(n);
  }

  lemma PrefixOne(before: seq<Entry>, e: Entry, es: seq<Entry>)
    requires before + [e] <= es
    ensures before <= es && es[|before|..] == [e] + es[|before| + 1..]
  {
  }

  lemma StrungMore(data: Octets, size: nat, es: seq<Entry>)
    requires var end := BLOCK + size + Padding(size);
             |data| >= end && data[BLOCK + size..end] == Zeros(Padding(size)) && Strung(data[end..], es)
    ensures Strung(data, [Entry(data[..BLOCK], data[BLOCK..BLOCK + size])] + es)
  {
    hide Zeros, Padding, SpellAll, SpellEntry;
    var e := Entry(data[..BLOCK], data[BLOCK..BLOCK + size]);
    var end := BLOCK + size + Padding(size);
    var n: nat :| n >= 2 * BLOCK && data[end..] == SpellAll(es) + Zeros(n);
    EntrySpelled(data, size);
    SpellFirst(e, es);
    JoinFront(data, end, SpellEntry(e), SpellAll(es), Zeros(n));
  }

  lemma EntrySpelled(data: Octets, size: nat)
    requires var end := BLOCK + size + Padding(size);
             |data| >= end && data[BLOCK + size..end] == Zeros(Padding(size))
    ensures data[..BLOCK + size + Padding(size)] == SpellEntry(Entry(data[..BLOCK], data[BLOCK..BLOCK + size]))
  {
    hide Zeros, Padding;
    var end := BLOCK + size + Padding(size);
    assert data[..end] == data[..BLOCK] + data[BLOCK..BLOCK + size] + data[BLOCK + size..end];
  }

  lemma SpellFirst(e: Entry, es: seq<Entry>)
    ensures SpellAll([e] + es) == SpellEntry(e) + SpellAll(es)
  {
    hide SpellEntry;
    assert ([e] + es)[1..] == es;
  }

  lemma JoinFront(data: Octets, end: nat, front: Octets, rest: Octets, zeros: Octets)
    requires end <= |data| && data[..end] == front && data[end..] == rest + zeros
    ensures data == front + rest + zeros
  {
    assert data == data[..end] + data[end..];
  }

  lemma EachOkSnoc(x: Reader, plan: Plan, before: seq<Entry>, e: Entry)
    requires EachOk(x, plan, before) && EntryOk(x, plan, before, e)
    ensures EachOk(x, plan, before + [e])
  {
    hide EntryOk;
    var all := before + [e];
    forall k | 0 <= k < |all|
      ensures EntryOk(x, plan, all[..k], all[k])
    {
      assert all[..k] == before[..k];
      assert before[..|before|] == before;
    }
  }

  /** An acceptable entry announces its own size. */
  lemma Announced(x: Reader, plan: Plan, before: seq<Entry>, e: Entry)
    requires EntryOk(x, plan, before, e)
    ensures ContentSize(x, plan, before, e.block) == Some(|e.content|)
    ensures |e.block| == BLOCK && e.block != Zeros(BLOCK)
  {
    hide NameOf, SizeOf, PayloadBytes, Names, Local, Fields;
  }

  lemma NothingSpelled(n: nat)
    requires n >= 2 * BLOCK
    ensures var data := SpellAll([]) + Zeros(n);
            |data| == n && data == Zeros(n) && data[..BLOCK] == Zeros(BLOCK)
  {
    assert SpellAll([]) + Zeros(n) == Zeros(n);
  }

  /** The spelling of an entry in front of the others, cut at its boundaries. */
  lemma FirstSpelled(e: Entry, es: seq<Entry>, n: nat)
    requires |e.block| == BLOCK
    ensures var data, size := SpellAll([e] + es) + Zeros(n), |e.content|;
            var end := BLOCK + size + Padding(size);
            && end <= |data| && data[..BLOCK] == e.block && data[BLOCK..BLOCK + size] == e.content
            && data[BLOCK + size..end] == Zeros(Padding(size)) && data[end..] == SpellAll(es) + Zeros(n)
  {
    hide Zeros, Padding;
    var rest := SpellAll(es) + Zeros(n);
    assert ([e] + es)[1..] == es;
    assert SpellAll([e] + es) + Zeros(n) == e.block + e.content + Zeros(Padding(|e.content|)) + rest;
  }

  lemma WalkGoesOn(x: Reader, plan: Plan, data: Octets, before: seq<Entry>, e: Entry)
    requires EntryOk(x, plan, before, e)
    requires var size := |e.content|;
             var end := BLOCK + size + Padding(size);
             && end <= |data| && data[..BLOCK] == e.block && data[BLOCK..BLOCK + size] == e.content
             && data[BLOCK + size..end] == Zeros(Padding(size))
    ensures Walk(x, plan, data, before) ==
            Walk(x, plan, data[BLOCK + |e.content| + Padding(|e.content|)..], before + [e])
  {
    hide HeaderOk, EntryOk, Local, Names, ContentSize, Zeros, Padding;
    Announced(x, plan, before, e);
  }

  lemma WalkStops(x: Reader, plan: Plan, data: Octets, es: seq<Entry>)
    requires Legal(x, plan, es) && |data| >= 2 * BLOCK && data == Zeros(|data|) && data[..BLOCK] == Zeros(BLOCK)
    ensures Walk(x, plan, data, es) == Some(es)
  {
    hide HeaderOk, EntryOk, Local, Names, ContentSize, EachOk;
  }

  lemma EntryIsOk(x: Reader, plan: Plan, es: seq<Entry>, k: nat)
    requires Legal(x, plan, es) && k < |es|
    ensures EntryOk(x, plan, es[..k], es[k])
  {
    hide EntryOk, Local, Names;
  }

  lemma {:induction false} WalkComplete(x: Reader, plan: Plan, data: Octets, es: seq<Entry>, k: nat)
    requires k <= |es| && Legal(x, plan, es) && Strung(data, es[k..])
    ensures Walk(x, plan, data, es[..k]) == Some(es)
    decreases |es| - k
  {
    hide EntryOk, Zeros, Padding, SpellAll, Legal, Walk;
    var n: nat :| n >= 2 * BLOCK && data == SpellAll(es[k..]) + Zeros(n);
    if k == |es| {
      assert es[k..] == [] && es[..k] == es;
      NothingSpelled(n);
      WalkStops(x, plan, data, es);
    } else {
      var e := es[k];
      EntryIsOk(x, plan, es, k);
      Announced(x, plan, es[..k], e);
      assert es[k..] == [e] + es[k + 1..] && es[..k + 1] == es[..k] + [e];
      FirstSpelled(e, es[k + 1..], n);
      WalkGoesOn(x, plan, data, es[..k], e);
      WalkComplete(x, plan, SpellAll(es[k + 1..]) + Zeros(n), es, k + 1);
    }
  }

  // ---------- The layout ----------

  predicate ZeroFrom(data: Octets, from: nat, end: nat)
    requires from <= end <= |data|
  {
    forall k :: from <= k < end ==> data[k] == '\0'
  }

  /** The entry's header block begins at `start`, a multiple of 512, its content follows, and between the content and
      `next` there are fewer than 512 bytes, all zero. */
  predicate LaidAt(data: Octets, e: Entry, start: nat, next: nat) {
    var from := start + 512;
    var end := from + |e.content|;
    && start % 512 == 0 && end <= next < end + 512 && next <= |data|
    && data[start..from] == e.block && data[from..end] == e.content && ZeroFrom(data, end, next)
  }

  /** Every entry is laid at its start, and from the last one to the end there are at least two blocks of zeros. */
  predicate Laid(data: Octets, es: seq<Entry>, starts: seq<nat>) {
    && |starts| == |es| + 1 && starts[0] == 0
    && (forall k :: 0 <= k < |es| ==> LaidAt(data, es[k], starts[k], starts[k + 1]))
    && starts[|es|] % 512 == 0 && starts[|es|] + 1024 <= |data| && ZeroFrom(data, starts[|es|], |data|)
  }

  ghost predicate Spells(data: Octets, es: seq<Entry>) {
    exists starts :: Laid(data, es, starts)
  }

  /** The layout from the start of entry `k` on. */
  predicate LaidFrom(data: Octets, es: seq<Entry>, starts: seq<nat>, k: nat) {
    && |starts| == |es| + 1
    && (forall j :: k <= j < |es| ==> LaidAt(data, es[j], starts[j], starts[j + 1]))
    && starts[|es|] % 512 == 0 && starts[|es|] + 1024 <= |data| && ZeroFrom(data, starts[|es|], |data|)
  }

  lemma ZerosThere(data: Octets, from: nat, end: nat)
    requires from <= end <= |data|
    ensures ZeroFrom(data, from, end) <==> data[from..end] == Zeros(end - from)
  {
    if data[from..end] == Zeros(end - from) {
      forall k | from <= k < end
        ensures data[k] == '\0'
      {
        assert data[from..end][k - from] == Zeros(end - from)[k - from];
      }
    }
  }

  /** Padding is what reaches the next multiple of 512. */
  lemma PaddingReaches(start: nat, size: nat, next: nat)
    requires start % 512 == 0
    ensures next == start + BLOCK + size + Padding(size) <==>
            start + 512 + size <= next < start + 512 + size + 512 && next % 512 == 0
  {
    var q, p, t := size / 512, size % 512, start / 512;
    assert size == 512 * q + p && start == 512 * t;
    if p == 0 {
      assert start + BLOCK + size + Padding(size) == 512 * (t + 1 + q);
    } else {
      assert start + BLOCK + size + Padding(size) == 512 * (t + 2 + q);
    }
    if start + 512 + size <= next < start + 512 + size + 512 && next % 512 == 0 {
      var m := next / 512;
      assert next == 512 * m;
    }
  }

  lemma {:induction false} StrungIsLaid(data: Octets, es: seq<Entry>, starts: seq<nat>, k: nat)
    requires k <= |es| && LaidFrom(data, es, starts, k)
    requires forall j :: 0 <= j < |es| ==> |es[j].block| == BLOCK
    requires starts[k] <= |data|
    ensures Strung(data[starts[k]..], es[k..])
    decreases |es| - k
  {
    hide Zeros, Padding, SpellAll, Strung, LaidAt, ZeroFrom;
    if k == |es| {
      ZerosThere(data, starts[k], |data|);
      assert data[starts[k]..|data|] == data[starts[k]..];
      assert es[k..] == [];
      ZerosSpell(|data| - starts[k]);
    } else {
      var here, next := starts[k], starts[k + 1];
      Multiple(data, es, starts, k);
      EntryLies(data, es[k], here, next);
      StrungIsLaid(data, es, starts, k + 1);
      StrungMore(data[here..], |es[k].content|, es[k + 1..]);
      assert es[k..] == [es[k]] + es[k + 1..];
    }
  }

  lemma Multiple(data: Octets, es: seq<Entry>, starts: seq<nat>, k: nat)
    requires k < |es| && LaidFrom(data, es, starts, k)
    ensures LaidAt(data, es[k], starts[k], starts[k + 1]) && starts[k] % 512 == 0 && starts[k + 1] % 512 == 0
    ensures LaidFrom(data, es, starts, k + 1) && starts[k + 1] <= |data|
  {
    if k + 1 < |es| {
      assert LaidAt(data, es[k + 1], starts[k + 1], starts[k + 2]);
    }
  }

  /** An entry laid at its start, as the walk cuts it. */
  lemma EntryLies(data: Octets, e: Entry, here: nat, next: nat)
    requires |e.block| == BLOCK && here <= |data| && here % 512 == 0
    requires LaidAt(data, e, here, next) && next % 512 == 0
    ensures var size := |e.content|;
            var end := BLOCK + size + Padding(size);
            && next == here + end && end <= |data[here..]| && data[here..][..BLOCK] == e.block
            && data[here..][BLOCK..BLOCK + size] == e.content
            && data[here..][BLOCK + size..end] == Zeros(Padding(size)) && data[here..][end..] == data[next..]
  {
    hide Padding, Zeros, ZeroFrom;
    var size := |e.content|;
    PaddingReaches(here, size, next);
    ZerosThere(data, here + BLOCK + size, next);
    var rest := data[here..];
    assert rest[..BLOCK] == data[here..here + BLOCK];
    assert rest[BLOCK..BLOCK + size] == data[here + BLOCK..here + BLOCK + size];
    assert rest[BLOCK + size..next - here] == data[here + BLOCK + size..next];
  }

  lemma {:induction false} LaysStrung(data: Octets, here: nat, es: seq<Entry>) returns (starts: seq<nat>)
    requires here <= |data| && here % 512 == 0 && Strung(data[here..], es)
    requires forall j :: 0 <= j < |es| ==> |es[j].block| == BLOCK
    ensures LaidFrom(data, es, starts, 0) && starts[0] == here
    decreases |es|
  {
    hide Zeros, Padding, SpellAll, LaidAt, ZeroFrom;
    var n: nat :| n >= 2 * BLOCK && data[here..] == SpellAll(es) + Zeros(n);
    if es == [] {
      NothingSpelled(n);
      ZerosThere(data, here, |data|);
      assert data[here..|data|] == data[here..];
      return [here];
    }
    var e, others := es[0], es[1..];
    assert es == [e] + others;
    FirstSpelled(e, others, n);
    var size := |e.content|;
    var next := here + BLOCK + size + Padding(size);
    EntryLaid(data, e, here);
    assert Strung(data[next..], others);
    var more := LaysStrung(data, next, others);
    OneMoreLaid(data, es, here, more);
    return [here] + more;
  }

  lemma OneMoreLaid(data: Octets, es: seq<Entry>, here: nat, more: seq<nat>)
    requires es != [] && LaidFrom(data, es[1..], more, 0) && LaidAt(data, es[0], here, more[0])
    ensures LaidFrom(data, es, [here] + more, 0)
  {
    hide LaidAt, ZeroFrom;
    var others, starts := es[1..], [here] + more;
    forall j | 0 <= j < |es|
      ensures LaidAt(data, es[j], starts[j], starts[j + 1])
    {
      if j > 0 {
        assert es[j] == others[j - 1] && starts[j] == more[j - 1] && starts[j + 1] == more[j];
      }
    }
  }

  lemma EntryLaid(data: Octets, e: Entry, here: nat)
    requires here <= |data| && here % 512 == 0 && |e.block| == BLOCK
    requires var size := |e.content|;
             var end := BLOCK + size + Padding(size);
             && end <= |data[here..]| && data[here..][..BLOCK] == e.block &&
                 data[here..][BLOCK..BLOCK + size] == e.content
             && data[here..][BLOCK + size..end] == Zeros(Padding(size))
    ensures var next := here + BLOCK + |e.content| + Padding(|e.content|);
            && LaidAt(data, e, here, next) && next % 512 == 0
            && data[here..][BLOCK + |e.content| + Padding(|e.content|)..] == data[next..]
  {
    hide Padding, Zeros, ZeroFrom;
    var size := |e.content|;
    var next := here + BLOCK + size + Padding(size);
    PaddingReaches(here, size, next);
    var rest := data[here..];
    assert rest[..BLOCK] == data[here..here + BLOCK];
    assert rest[BLOCK..BLOCK + size] == data[here + BLOCK..here + BLOCK + size];
    assert rest[BLOCK + size..next - here] == data[here + BLOCK + size..next];
    ZerosThere(data, here + BLOCK + size, next);
  }

  /** The bytes are padded entries in a row exactly when every entry is laid at a multiple of 512 with fewer than 512
      zeros after its content. */
  lemma SpellsIsStrung(data: Octets, es: seq<Entry>)
    requires forall j :: 0 <= j < |es| ==> |es[j].block| == BLOCK
    ensures Spells(data, es) <==> Strung(data, es)
  {
    hide Strung, LaidAt, ZeroFrom;
    assert data[0..] == data && es[0..] == es;
    if starts :| Laid(data, es, starts) {
      StrungIsLaid(data, es, starts, 0);
    }
    if Strung(data, es) {
      var starts := LaysStrung(data, 0, es);
      assert Laid(data, es, starts);
    }
  }

  lemma LegalBlocks(x: Reader, plan: Plan, es: seq<Entry>)
    requires Legal(x, plan, es)
    ensures forall j :: 0 <= j < |es| ==> |es[j].block| == BLOCK
  {
    hide EntryOk, Local, Names;
    forall j | 0 <= j < |es|
      ensures |es[j].block| == BLOCK
    {
      EntryIsOk(x, plan, es, j);
      Announced(x, plan, es[..j], es[j]);
    }
  }

  /** The walk accepts exactly the bytes that spell a legal archive, and reads back its entries. */
  lemma WalkIsLegal(x: Reader, plan: Plan, data: Octets, es: seq<Entry>)
    ensures Walk(x, plan, data, []) == Some(es) <==> Legal(x, plan, es) && Spells(data, es)
  {
    hide Walk, Legal, Spells, Strung;
    assert es[0..] == es && es[..0] == [];
    if Walk(x, plan, data, []) == Some(es) {
      assert EachOk(x, plan, []);
      WalkSound(x, plan, data, [], es);
    }
    if Legal(x, plan, es) {
      LegalBlocks(x, plan, es);
      SpellsIsStrung(data, es);
      if Strung(data, es) {
        WalkComplete(x, plan, data, es, 0);
      }
    }
  }

  // ---------- What a legal archive guarantees ----------

  /** Entry `k` is the payload called `name`. */
  predicate IsPayload(x: Reader, es: seq<Entry>, k: nat, name: string)
    requires k < |es|
  {
    && x.header(es[k].block).Some? && x.header(es[k].block).value.kind.Regular?
    && NameOf(x, es[..k], x.header(es[k].block).value) == Some(name)
  }

  lemma {:induction false} NamesOfPayloads(x: Reader, es: seq<Entry>, name: string)
    ensures name in Names(x, es, Regular) <==> exists k: nat :: k < |es| && IsPayload(x, es, k, name)
    decreases |es|
  {
    hide NameOf;
    if es != [] {
      var n := |es| - 1;
      NamesOfPayloads(x, es[..n], name);
      forall k: nat | k < n
        ensures IsPayload(x, es, k, name) == IsPayload(x, es[..n], k, name)
      {
        assert es[..n][..k] == es[..k];
      }
      assert name in Names(x, es, Regular) <==> name in Names(x, es[..n], Regular) || IsPayload(x, es, n, name);
    }
  }

  /** Every planned payload is there exactly once, with its planned size and digest, and nothing else is. */
  lemma PayloadsAreThePlan(x: Reader, plan: Plan, es: seq<Entry>)
    requires Legal(x, plan, es)
    ensures forall name :: name in plan.stamps <==> exists k: nat :: k < |es| && IsPayload(x, es, k, name)
    ensures forall j: nat, k: nat, name :: j < k < |es| && IsPayload(x, es, j, name) ==> !IsPayload(x, es, k, name)
    ensures forall k: nat, name :: k < |es| && IsPayload(x, es, k, name) ==>
              name in plan.stamps && |es[k].content| == plan.stamps[name].bytes &&
                  x.digest(es[k].content) == plan.stamps[name].digest
  {
    hide NameOf, Names, Local, Fields, EntryOk, IsPayload, EachOk;
    forall name
      ensures name in plan.stamps <==> exists k: nat :: k < |es| && IsPayload(x, es, k, name)
    {
      NamesOfPayloads(x, es, name);
    }
    forall k: nat, name | k < |es| && IsPayload(x, es, k, name)
      ensures name in plan.stamps && name !in Names(x, es[..k], Regular)
      ensures |es[k].content| == plan.stamps[name].bytes && x.digest(es[k].content) == plan.stamps[name].digest
    {
      EntryIsOk(x, plan, es, k);
      PayloadIsPlanned(x, plan, es, k, name);
    }
    forall j: nat, k: nat, name | j < k < |es| && IsPayload(x, es, j, name)
      ensures !IsPayload(x, es, k, name)
    {
      NamesOfPayloads(x, es[..k], name);
      PayloadStays(x, es, j, k, name);
    }
  }

  lemma PayloadIsPlanned(x: Reader, plan: Plan, es: seq<Entry>, k: nat, name: string)
    requires k < |es| && EntryOk(x, plan, es[..k], es[k]) && IsPayload(x, es, k, name)
    ensures name in plan.stamps && name !in Names(x, es[..k], Regular)
    ensures |es[k].content| == plan.stamps[name].bytes && x.digest(es[k].content) == plan.stamps[name].digest
  {
    hide NameOf, Names, Local, Fields;
  }

  lemma PayloadStays(x: Reader, es: seq<Entry>, j: nat, k: nat, name: string)
    requires j < k < |es| && IsPayload(x, es, j, name)
    ensures IsPayload(x, es[..k], j, name)
  {
    hide NameOf;
    assert es[..k][..j] == es[..j];
  }

  /** A local header says nothing about anything after the next entry that is not a PAX header. */
  lemma {:induction false} LocalForgets(x: Reader, es: seq<Entry>, m: nat)
    requires m < |es| && !IsPax(x, es[m])
    ensures Local(x, es) == Local(x, es[m + 1..])
    decreases |es|
  {
    hide PaxOf;
    var n := |es| - 1;
    if m == n {
      assert es[m + 1..] == [];
    } else {
      LocalForgets(x, es[..n], m);
      assert es[..n][m + 1..] == es[m + 1..][..n - m - 1];
      assert es[m + 1..][|es[m + 1..]| - 1] == es[n];
    }
  }

  lemma GlobalFields(x: Reader, plan: Plan, before: seq<Entry>, e: Entry)
    requires EntryOk(x, plan, before, e) && x.header(e.block).Some? && x.header(e.block).value.kind.GlobalPax?
    ensures "path" !in PaxOf(x, e) && "size" !in PaxOf(x, e)
  {
    hide HeaderOk, PayloadFits, DirectoryOk, Fields, Local;
    assert "path" in {"path", "size"} && "size" in {"path", "size"};
  }

  lemma EachOkPrefix(x: Reader, plan: Plan, es: seq<Entry>)
    requires EachOk(x, plan, es) && es != []
    ensures var n := |es| - 1; EachOk(x, plan, es[..n]) && EntryOk(x, plan, es[..n], es[n])
  {
    hide EntryOk;
    var n := |es| - 1;
    forall k | 0 <= k < n
      ensures EntryOk(x, plan, es[..n][..k], es[..n][k])
    {
      assert es[..n][..k] == es[..k];
    }
  }

  /** Global headers never rename a payload or change its size. */
  lemma {:induction false} GlobalKeeps(x: Reader, plan: Plan, es: seq<Entry>)
    requires EachOk(x, plan, es)
    ensures "path" !in Global(x, es) && "size" !in Global(x, es)
    decreases |es|
  {
    hide EachOk, EntryOk, PaxOf;
    if es != [] {
      var n := |es| - 1;
      EachOkPrefix(x, plan, es);
      GlobalKeeps(x, plan, es[..n]);
      if x.header(es[n].block).Some? && x.header(es[n].block).value.kind.GlobalPax? {
        GlobalFields(x, plan, es[..n], es[n]);
      }
    }
  }
}
