/** The fixed header that both directions of the worker pipe share. */
module IpcFrame {
  type Byte = b: int | 0 <= b < 0x100
  type Word = w: int | 0 <= w < 0x1_0000
  type DWord = d: int | 0 <= d < 0x1_0000_0000

  const PROTOCOL: Word := 1
  const HEADER_SIZE := 24
  const CONTROL_MAX := 4096
  const DATA_MAX := 65536
  const QUEUE_MAX := 1024 * 1024
  const QUEUE_FRAMES := 64

  function MAGIC(): seq<Byte> { [0x4F, 0x4D, 0x50, 0x47] }

  function PutWord(w: Word): (s: seq<Byte>)
    ensures |s| == 2
  {
    [w / 0x100, w % 0x100]
  }

  function PutDWord(d: DWord): (s: seq<Byte>)
    ensures |s| == 4
  {
    PutWord(d / 0x1_0000) + PutWord(d % 0x1_0000)
  }

  function GetWord(s: seq<Byte>, at: nat): Word
    requires at + 2 <= |s|
  {
    s[at] as int * 0x100 + s[at + 1] as int
  }

  function GetDWord(s: seq<Byte>, at: nat): DWord
    requires at + 4 <= |s|
  {
    GetWord(s, at) as int * 0x1_0000 + GetWord(s, at + 2) as int
  }

  datatype Command = Command(kind: Word, session: DWord, generation: DWord, sequence: DWord, payload: seq<Byte>)

  function Header(kind: Word, session: DWord, generation: DWord, sequence: DWord, length: DWord): (h: seq<Byte>)
    ensures |h| == HEADER_SIZE
  {
    MAGIC() + PutWord(PROTOCOL) + PutWord(kind) + PutDWord(session) + PutDWord(generation) + PutDWord(sequence) +
        PutDWord(length)
  }

  function Frame(c: Command): (f: seq<Byte>)
    requires |c.payload| < 0x1_0000_0000
    ensures |f| == HEADER_SIZE + |c.payload|
  {
    Header(c.kind, c.session, c.generation, c.sequence, |c.payload|) + c.payload
  }

  predicate GoodHeader(s: seq<Byte>)
    requires |s| >= HEADER_SIZE
  {
    s[..4] == MAGIC() && GetWord(s, 4) == PROTOCOL && GetDWord(s, 20) <= CONTROL_MAX
  }

  /** The command at the front of a buffer whose header is good and complete. */
  function FrontCommand(s: seq<Byte>): Command
    requires |s| >= HEADER_SIZE && |s| >= HEADER_SIZE + GetDWord(s, 20)
  {
    Command(GetWord(s, 6), GetDWord(s, 8), GetDWord(s, 12), GetDWord(s, 16),
            s[HEADER_SIZE..HEADER_SIZE + GetDWord(s, 20)])
  }

  lemma WordBack(w: Word, s: seq<Byte>, at: nat)
    requires at + 2 <= |s| && s[at..at + 2] == PutWord(w)
    ensures GetWord(s, at) == w
  {
    assert s[at] == s[at..at + 2][0] && s[at + 1] == s[at..at + 2][1];
  }

  lemma DWordBack(d: DWord, s: seq<Byte>, at: nat)
    requires at + 4 <= |s| && s[at..at + 4] == PutDWord(d)
    ensures GetDWord(s, at) == d
  {
    assert s[at..at + 2] == s[at..at + 4][..2] == PutWord(d / 0x1_0000);
    assert s[at + 2..at + 4] == s[at..at + 4][2..] == PutWord(d % 0x1_0000);
    WordBack(d / 0x1_0000, s, at);
    WordBack(d % 0x1_0000, s, at + 2);
  }

  /** Reading a written frame gives the command back. */
  lemma FrameBack(c: Command, rest: seq<Byte>)
    requires |c.payload| <= CONTROL_MAX
    ensures GoodHeader(Frame(c) + rest) && GetDWord(Frame(c) + rest, 20) == |c.payload|
    ensures FrontCommand(Frame(c) + rest) == c
  {
    hide PutWord, PutDWord, GetDWord, GetWord;
    var s := Frame(c) + rest;
    assert s[..4] == MAGIC();
    assert s[4..6] == PutWord(PROTOCOL) && s[6..8] == PutWord(c.kind);
    assert s[8..12] == PutDWord(c.session) && s[12..16] == PutDWord(c.generation);
    assert s[16..20] == PutDWord(c.sequence) && s[20..24] == PutDWord(|c.payload|);
    WordBack(PROTOCOL, s, 4);
    WordBack(c.kind, s, 6);
    DWordBack(c.session, s, 8);
    DWordBack(c.generation, s, 12);
    DWordBack(c.sequence, s, 16);
    DWordBack(|c.payload|, s, 20);
  }

  /** The number that big-endian bytes make. */
  function BigEndian(bytes: seq<Byte>): nat {
    if bytes == [] then 0 else BigEndian(bytes[..|bytes| - 1]) * 256 + bytes[|bytes| - 1]
  }

  lemma BigEndianTwo(b: seq<Byte>)
    requires |b| == 2
    ensures BigEndian(b) == b[0] as int * 256 + b[1] as int
  {
    assert b[..1][..0] == [] && BigEndian(b[..1]) == b[0];
  }

  lemma BigEndianFour(b: seq<Byte>)
    requires |b| == 4
    ensures BigEndian(b) == ((b[0] as int * 256 + b[1] as int) * 256 + b[2] as int) * 256 + b[3] as int
  {
    var c := b[..3];
    assert c[..2] == b[..2];
    BigEndianTwo(b[..2]);
    assert BigEndian(c) == BigEndian(c[..2]) * 256 + c[2];
  }

  lemma FieldBytes(s: seq<Byte>, at: nat)
    ensures at + 2 <= |s| ==> GetWord(s, at) == BigEndian(s[at..at + 2])
    ensures at + 4 <= |s| ==> GetDWord(s, at) == BigEndian(s[at..at + 4])
  {
    if at + 2 <= |s| {
      BigEndianTwo(s[at..at + 2]);
    }
    if at + 4 <= |s| {
      BigEndianFour(s[at..at + 4]);
    }
  }

  /** The header by its byte positions: the letters OMPG, and six numbers in network order. */
  lemma HeaderLayout(kind: Word, session: DWord, generation: DWord, sequence: DWord, length: DWord)
    ensures var h := Header(kind, session, generation, sequence, length);
            && |h| == 24 && h[..4] == [79, 77, 80, 71] && BigEndian(h[4..6]) == 1 && BigEndian(h[6..8]) == kind
            && BigEndian(h[8..12]) == session && BigEndian(h[12..16]) == generation
            && BigEndian(h[16..20]) == sequence && BigEndian(h[20..24]) == length
  {
    hide PutWord, PutDWord, GetDWord, GetWord, BigEndian;
    var h := Header(kind, session, generation, sequence, length);
    assert h[4..6] == PutWord(PROTOCOL) && h[6..8] == PutWord(kind);
    assert h[8..12] == PutDWord(session) && h[12..16] == PutDWord(generation);
    assert h[16..20] == PutDWord(sequence) && h[20..24] == PutDWord(length);
    WordBack(PROTOCOL, h, 4);
    WordBack(kind, h, 6);
    DWordBack(session, h, 8);
    DWordBack(generation, h, 12);
    DWordBack(sequence, h, 16);
    DWordBack(length, h, 20);
    FieldBytes(h, 4);
    FieldBytes(h, 6);
    FieldBytes(h, 8);
    FieldBytes(h, 12);
    FieldBytes(h, 16);
    FieldBytes(h, 20);
  }

  /** A header is good exactly when its letters, its protocol number and its length are right. */
  lemma GoodHeaderIs(s: seq<Byte>)
    requires |s| >= 24
    ensures GoodHeader(s) <==> s[..4] == [79, 77, 80, 71] && BigEndian(s[4..6]) == 1 && BigEndian(s[20..24]) <= 4096
  {
    hide GetDWord, GetWord, BigEndian;
    FieldBytes(s, 4);
    FieldBytes(s, 20);
  }
}
