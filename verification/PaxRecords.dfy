/** PAX extension headers: records that state their own length in decimal. */
module PaxRecords {
  import opened Decimals
  import opened TextTools
  import opened Wrappers

  /** A byte, written as the character with its code. */
  type Octet = c: char | c as int < 256

  type Octets = seq<Octet>

  datatype Record = Record(length: Octets, key: Octets, value: Octets)

  function Spell(r: Record): Octets {
    r.length + [' '] + r.key + ['='] + r.value + ['\n']
  }

  /** The length is a decimal of fewer than eight digits, leading zeros included, that counts the whole record. */
  predicate Good(r: Record) {
    && 1 <= |r.length| < 8 && IsDecimal(r.length) && Decimal(r.length) == |Spell(r)|
    && forall k :: 0 <= k < |r.key| ==> r.key[k] != '='
  }

  /** The record at the front of the data, as the scanner cuts it. */
  function First(data: Octets): Option<Record> {
    var separator := Find(data, ' ');
    if !(0 < separator < |data|) || !IsDecimal(data[..separator]) || separator >= 8 then None
    else
      var end := Decimal(data[..separator]);
      if !(separator + 1 < end <= |data|) || data[end - 1] != '\n' then None
      else
        var record := data[separator + 1..end - 1];
        var equals := Find(record, '=');
        if equals == |record| then None else Some(Record(data[..separator], record[..equals], record[equals + 1..]))
  }

  /** The scanner finds exactly the well-formed record that the data begins with. */
  lemma FirstIsSpelled(data: Octets, r: Record)
    ensures First(data) == Some(r) <==> Good(r) && Spell(r) <= data
  {
    if First(data) == Some(r) {
      FirstFound(data, r);
    }
    if Good(r) && Spell(r) <= data {
      SpelledFirst(data, r);
    }
  }

  lemma FirstFound(data: Octets, r: Record)
    requires First(data) == Some(r)
    ensures Good(r) && Spell(r) <= data
  {
    hide Decimal, IsDecimal, Find;
    var separator := Find(data, ' ');
    var end := Decimal(data[..separator]);
    Reassemble(data, separator, end, Find(data[separator + 1..end - 1], '='));
  }

  lemma Reassemble(data: Octets, n: nat, end: nat, k: nat)
    requires n + 1 < end <= |data| && data[n] == ' ' && data[end - 1] == '\n'
    requires k < end - n - 2 && data[n + 1..end - 1][k] == '='
    ensures var record := data[n + 1..end - 1];
            data[..n] + [' '] + record[..k] + ['='] + record[k + 1..] + ['\n'] == data[..end]
  {
    var record := data[n + 1..end - 1];
    assert record == record[..k] + ['='] + record[k + 1..];
    assert data[..end] == data[..n] + [' '] + record + ['\n'];
  }

  lemma SpelledFirst(data: Octets, r: Record)
    requires Good(r) && Spell(r) <= data
    ensures First(data) == Some(r)
  {
    hide Decimal, IsDecimal, Find, Spell;
    var s, n := Spell(r), |r.length|;
    LengthFound(data, r);
    RecordEnds(data, r);
    FieldFound(r, data[n + 1..|s| - 1]);
  }

  lemma RecordEnds(data: Octets, r: Record)
    requires Spell(r) <= data
    ensures var s, n := Spell(r), |r.length|;
            n + 3 <= |s| && data[|s| - 1] == '\n' && data[n + 1..|s| - 1] == s[n + 1..|s| - 1]
  {
    var s := Spell(r);
    assert s == data[..|s|];
    assert data[|s| - 1] == s[|s| - 1] == '\n';
  }

  lemma LengthFound(data: Octets, r: Record)
    requires Good(r) && Spell(r) <= data
    ensures Find(data, ' ') == |r.length| && data[..|r.length|] == r.length
  {
    hide Decimal;
    var s, n := Spell(r), |r.length|;
    assert forall k :: 0 <= k < n ==> s[k] == r.length[k];
    assert s[n] == ' ';
    forall k | 0 <= k <= n
      ensures data[k] == s[k]
    {
    }
    FindIs(data, ' ', n);
  }

  lemma FieldFound(r: Record, record: Octets)
    requires Good(r) && record == Spell(r)[|r.length| + 1..|Spell(r)| - 1]
    ensures Find(record, '=') == |r.key| < |record| && record[..|r.key|] == r.key && record[|r.key| + 1..] == r.value
  {
    hide Decimal, IsDecimal;
    assert record == r.key + ['='] + r.value;
    FindIs(record, '=', |r.key|);
  }

  function Concat(rs: seq<Record>): Octets {
    if rs == [] then [] else Spell(rs[0]) + Concat(rs[1..])
  }

  function Records(data: Octets): Option<seq<Record>>
    decreases |data|
  {
    if data == [] then Some([])
    else match First(data)
      case None => None
      case Some(r) =>
        FirstIsSpelled(data, r);
        assert |Spell(r)| > 0;
        match Records(data[|Spell(r)|..])
        case None => None
        case Some(rs) => Some([r] + rs)
  }

  /** Splitting recovers exactly the records of which the data is the concatenation. */
  lemma {:induction false} RecordsAreSpelled(data: Octets, rs: seq<Record>)
    ensures Records(data) == Some(rs) <==> (forall k :: 0 <= k < |rs| ==> Good(rs[k])) && Concat(rs) == data
    decreases |data|
  {
    hide First, Good, Spell;
    if data == [] {
      if rs != [] {
        assert |Spell(rs[0])| > 0 by { SpellSize(rs[0]); }
      }
    } else {
      if First(data).Some? {
        var r := First(data).value;
        FirstIsSpelled(data, r);
        SpellSize(r);
        var n := |Spell(r)|;
        assert data == Spell(r) + data[n..];
        if rs != [] {
          RecordsAreSpelled(data[n..], rs[1..]);
          assert [r] + rs[1..] == rs <==> r == rs[0];
        }
      }
      if rs != [] && Good(rs[0]) && Concat(rs) == data {
        assert Spell(rs[0]) <= data;
        FirstIsSpelled(data, rs[0]);
        assert data[|Spell(rs[0])|..] == Concat(rs[1..]);
      }
    }
  }

  lemma SpellSize(r: Record)
    ensures |Spell(r)| > 0
  {
  }

  // ---------- Fields ----------

  const APPROVED: set<string> := {"path", "size", "mtime", "atime", "ctime", "uid", "gid", "uname", "gname"}

  /** Decoding of UTF-8 and the checks of one value stay parameters. */
  datatype Texts = Texts(decode: Octets -> Option<string>, valueOk: (string, string) -> bool)

  /** The key and value of a record, when both decode and are acceptable. */
  function Field(x: Texts, r: Record): Option<(string, string)> {
    match (x.decode(r.key), x.decode(r.value))
    case (Some(key), Some(value)) => if key in APPROVED && x.valueOk(key, value) then Some((key, value)) else None
    case _ => None
  }

  /** The record gives this key, one of the nine that are approved, this value. */
  predicate Gives(x: Texts, r: Record, key: string, value: string) {
    && x.decode(r.key) == Some(key) && x.decode(r.value) == Some(value) && x.valueOk(key, value)
    && (key == "path" || key == "size" || key == "mtime" || key == "atime" || key == "ctime" || key == "uid" ||
        key == "gid" || key == "uname" || key == "gname")
  }

  lemma FieldGives(x: Texts, r: Record, key: string, value: string)
    ensures Field(x, r) == Some((key, value)) <==> Gives(x, r, key, value)
  {
  }

  /** The fields of records in order; a repeated key is refused. */
  function Gather(x: Texts, rs: seq<Record>): Option<map<string, string>> {
    if rs == [] then Some(map[])
    else match (Gather(x, rs[..|rs| - 1]), Field(x, rs[|rs| - 1]))
      case (Some(fields), Some((key, value))) => if key in fields then None else Some(fields[key := value])
      case _ => None
  }

  function Fields(x: Texts, data: Octets): Option<map<string, string>> {
    match Records(data)
    case None => None
    case Some(rs) => Gather(x, rs)
  }

  ghost predicate Says(x: Texts, rs: seq<Record>, fields: map<string, string>) {
    && (forall k :: 0 <= k < |rs| ==> Field(x, rs[k]).Some?)
    && (forall j, k :: 0 <= j < k < |rs| ==> Field(x, rs[j]).value.0 != Field(x, rs[k]).value.0)
    && (forall key :: key in fields <==> exists k :: 0 <= k < |rs| && Field(x, rs[k]).value.0 == key)
    && (forall k :: 0 <= k < |rs| ==>
        Field(x, rs[k]).value.0 in fields && fields[Field(x, rs[k]).value.0] == Field(x, rs[k]).value.1)
  }

  lemma {:induction false} GatherSays(x: Texts, rs: seq<Record>, fields: map<string, string>)
    ensures Gather(x, rs) == Some(fields) <==> Says(x, rs, fields)
    decreases |rs|
  {
    hide Field;
    if rs != [] {
      var n := |rs| - 1;
      var so, last := rs[..n], Field(x, rs[n]);
      if Gather(x, so).Some? {
        var before := Gather(x, so).value;
        GatherSays(x, so, before);
        if last.Some? && last.value.0 !in before {
          var all := before[last.value.0 := last.value.1];
          SaysMore(x, rs, before);
          SaysOnce(x, rs, fields, all);
        }
      } else if Says(x, rs, fields) {
        var fewer := fields - {last.value.0};
        assert Says(x, so, fewer);
        GatherSays(x, so, fewer);
      }
    }
  }

  lemma SaysMore(x: Texts, rs: seq<Record>, before: map<string, string>)
    requires rs != [] && Says(x, rs[..|rs| - 1], before) && Field(x, rs[|rs| - 1]).Some?
    requires Field(x, rs[|rs| - 1]).value.0 !in before
    ensures var (key, value) := Field(x, rs[|rs| - 1]).value; Says(x, rs, before[key := value])
  {
    hide Field;
  }

  lemma SaysOnce(x: Texts, rs: seq<Record>, a: map<string, string>, b: map<string, string>)
    ensures Says(x, rs, a) && Says(x, rs, b) ==> a == b
  {
  }

  /** A text is accepted with these fields exactly when it is a concatenation of records that state their own
      length, with distinct approved keys, and the fields are theirs. */
  lemma FieldsAreSpelled(x: Texts, data: Octets, fields: map<string, string>)
    ensures Fields(x, data) == Some(fields) <==>
            exists rs :: (forall k :: 0 <= k < |rs| ==> Good(rs[k])) && Concat(rs) == data && Says(x, rs, fields)
  {
    hide Good, Says, Gather, Records, Concat;
    if Fields(x, data) == Some(fields) {
      var rs := Records(data).value;
      RecordsAreSpelled(data, rs);
      GatherSays(x, rs, fields);
    }
    if rs :| (forall k :: 0 <= k < |rs| ==> Good(rs[k])) && Concat(rs) == data && Says(x, rs, fields) {
      RecordsAreSpelled(data, rs);
      GatherSays(x, rs, fields);
    }
  }

  // ---------- The scanner ----------

  lemma {:induction false} GatherFails(x: Texts, rs: seq<Record>, more: seq<Record>)
    requires Gather(x, rs).None?
    ensures Gather(x, rs + more).None?
    decreases |more|
  {
    if more == [] {
      assert rs + more == rs;
    } else {
      var n := |more| - 1;
      GatherFails(x, rs, more[..n]);
      assert (rs + more)[..|rs + more| - 1] == rs + more[..n];
    }
  }

  /** What is left to scan after the records `rs`. */
  ghost predicate Scanned(data: Octets, rs: seq<Record>, offset: nat) {
    offset <= |data| && Records(data) ==
        match Records(data[offset..]) { case None => None case Some(more) => Some(rs + more) }
  }

  lemma ScanOne(data: Octets, rs: seq<Record>, offset: nat)
    requires Scanned(data, rs, offset) && offset < |data|
    ensures match First(data[offset..])
            case None => Records(data).None?
            case Some(r) =>
              offset + |Spell(r)| <= |data| && |Spell(r)| > 0 && Scanned(data, rs + [r], offset + |Spell(r)|)
  {
    hide Spell, First, Good;
    var rest := data[offset..];
    if First(rest).Some? {
      var r := First(rest).value;
      FirstIsSpelled(rest, r);
      SpellSize(r);
      assert rest[|Spell(r)|..] == data[offset + |Spell(r)|..];
      var more := Records(rest[|Spell(r)|..]);
      if more.Some? {
        assert rs + ([r] + more.value) == rs + [r] + more.value;
      }
    }
  }

  lemma ScannedFails(x: Texts, data: Octets, rs: seq<Record>, offset: nat)
    requires Scanned(data, rs, offset) && Gather(x, rs).None?
    ensures Fields(x, data).None?
  {
    hide Gather;
    if Records(data[offset..]).Some? {
      GatherFails(x, rs, Records(data[offset..]).value);
    }
  }

  method PaxFields(x: Texts, data: Octets) returns (result: Option<map<string, string>>)
    ensures result == Fields(x, data)
  {
    hide Records, First, Good, Spell, Field;
    var fields: map<string, string>, offset := map[], 0;
    ghost var rs: seq<Record> := [];
    assert Scanned(data, [], 0) by { ScanStarts(data); }
    while offset < |data|
      invariant Scanned(data, rs, offset) && Gather(x, rs) == Some(fields)
      decreases |data| - offset
    {
      hide Scanned;
      ScanOne(data, rs, offset);
      var found := First(data[offset..]);
      if found.None? {
        return None;
      }
      var r := found.value;
      var field := Field(x, r);
      assert (rs + [r])[..|rs|] == rs;
      if field.None? || field.value.0 in fields {
        ScannedFails(x, data, rs + [r], offset + |Spell(r)|);
        return None;
      }
      fields := fields[field.value.0 := field.value.1];
      rs := rs + [r];
      offset := offset + |Spell(r)|;
    }
    assert data[offset..] == [];
    assert Records(data) == Some(rs) by { ScanEnds(data, rs, offset); }
    return Some(fields);
  }

  lemma ScanStarts(data: Octets)
    ensures Scanned(data, [], 0)
  {
    assert data[0..] == data;
    if Records(data).Some? {
      assert [] + Records(data).value == Records(data).value;
    }
  }

  lemma ScanEnds(data: Octets, rs: seq<Record>, offset: nat)
    requires Scanned(data, rs, offset) && offset == |data|
    ensures Records(data) == Some(rs)
  {
    assert data[offset..] == [];
    assert rs + [] == rs;
  }
}
