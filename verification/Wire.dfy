/** The packed little-endian formats exchanged with the ground: the three upload commands
    and the telemetry that answers them. */
module Wire {
  type byte = b: int | 0 <= b < 0x100
  type u16 = n: int | 0 <= n < 0x1_0000
  type u32 = n: int | 0 <= n < 0x1_0000_0000

  /** The result code of a malformed command. */
  const EINVAL: int := 22

  const OPEN_CMD: byte := 2
  const DATA_CMD: byte := 3
  const CLOSE_CMD: byte := 4
  const UNKNOWN_CMD: byte := 255

  const FILE_NAME_MAX_LEN: nat := 64
  const UPLOAD_DATA_LEN: nat := 200
  const OPEN_CMD_SIZE: nat := 3 + FILE_NAME_MAX_LEN
  const DATA_CMD_SIZE: nat := 11 + UPLOAD_DATA_LEN
  const CLOSE_CMD_SIZE: nat := 3
  const REPLY_ENTRIES: nat := 20

  // ---------- scalars ----------

  /** The `uint32_t` that a C `int` turns into (two's complement). */
  function ToU32(code: int): u32 { code % 0x1_0000_0000 }

  function Le16(n: u16): (s: seq<byte>)
    ensures |s| == 2
  {
    [n % 0x100, n / 0x100]
  }

  function Le32(n: u32): (s: seq<byte>)
    ensures |s| == 4
  {
    [n % 0x100, n / 0x100 % 0x100, n / 0x1_0000 % 0x100, n / 0x100_0000]
  }

  function Load16(s: seq<byte>, at: nat): u16
    requires at + 2 <= |s|
  {
    s[at] as int + 0x100 * s[at + 1] as int
  }

  function Load32(s: seq<byte>, at: nat): u32
    requires at + 4 <= |s|
  {
    s[at] as int + 0x100 * s[at + 1] as int + 0x1_0000 * s[at + 2] as int + 0x100_0000 * s[at + 3] as int
  }

  /** An 8-byte `unsigned long` load on a little-endian host. */
  function Load64(s: seq<byte>, at: nat): nat
    requires at + 8 <= |s|
  {
    Load32(s, at) as int + 0x1_0000_0000 * Load32(s, at + 4) as int
  }

  /** What `le32toh(*(unsigned long *)p)` leaves: eight bytes are read, the low 32 bits kept. */
  function LongField(s: seq<byte>, at: nat): u32
    requires at + 8 <= |s|
  {
    Load64(s, at) % 0x1_0000_0000
  }

  lemma LongFieldIsLoad32(s: seq<byte>, at: nat)
    requires at + 8 <= |s|
    ensures LongField(s, at) == Load32(s, at)
  {
    var lo: int, hi: int := Load32(s, at), Load32(s, at + 4);
    assert (lo + 0x1_0000_0000 * hi) % 0x1_0000_0000 == lo;
  }

  /** What the ground makes of an error code: the number as a signed one. */
  function Signed(n: u32): int {
    if n < 0x8000_0000 then n else n - 0x1_0000_0000
  }

  lemma CodeRecovered(code: int)
    requires -0x8000_0000 <= code < 0x8000_0000
    ensures Signed(ToU32(code)) == code
  {
  }

  /** The number that bytes stand for, the least significant first. */
  function LittleEndian(s: seq<byte>): nat {
    if s == [] then 0 else s[0] as int + 0x100 * LittleEndian(s[1..])
  }

  lemma TwoBytes(s: seq<byte>)
    requires |s| == 2
    ensures LittleEndian(s) == s[0] as int + 0x100 * s[1] as int
  {
    assert LittleEndian(s[1..]) == s[1] as int + 0x100 * LittleEndian(s[1..][1..]);
  }

  lemma FourBytes(s: seq<byte>)
    requires |s| == 4
    ensures LittleEndian(s)
      == s[0] as int + 0x100 * s[1] as int + 0x1_0000 * s[2] as int + 0x100_0000 * s[3] as int
  {
    assert LittleEndian(s) == s[0] as int + 0x100 * LittleEndian(s[1..]);
    assert LittleEndian(s[1..]) == s[1] as int + 0x100 * LittleEndian(s[1..][1..]);
    assert s[1..][1..] == s[2..];
    TwoBytes(s[2..]);
  }

  /** Both directions are little-endian. */
  lemma ScalarsAreLittleEndian(n: u16, m: u32, s: seq<byte>, at: nat)
    ensures LittleEndian(Le16(n)) == n && LittleEndian(Le32(m)) == m
    ensures at + 2 <= |s| ==> Load16(s, at) == LittleEndian(s[at..at + 2])
    ensures at + 4 <= |s| ==> Load32(s, at) == LittleEndian(s[at..at + 4])
  {
    TwoBytes(Le16(n));
    FourBytes(Le32(m));
    Le32RoundTrip(m, [], []);
    assert [] + Le32(m) + [] == Le32(m);
    if at + 2 <= |s| {
      TwoBytes(s[at..at + 2]);
    }
    if at + 4 <= |s| {
      FourBytes(s[at..at + 4]);
    }
  }

  lemma Le16RoundTrip(n: u16, before: seq<byte>, after: seq<byte>)
    ensures Load16(before + Le16(n) + after, |before|) == n
  {
    assert (before + Le16(n) + after)[|before|] == n % 0x100;
    assert (before + Le16(n) + after)[|before| + 1] == n / 0x100;
  }

  lemma Le32RoundTrip(n: u32, before: seq<byte>, after: seq<byte>)
    ensures Load32(before + Le32(n) + after, |before|) == n
  {
    var s := before + Le32(n) + after;
    var k := |before|;
    assert s[k] == n % 0x100 && s[k + 1] == n / 0x100 % 0x100;
    assert s[k + 2] == n / 0x1_0000 % 0x100 && s[k + 3] == n / 0x100_0000;
    var a := n / 0x100;
    var b := n / 0x1_0000;
    assert b == a / 0x100 && n / 0x100_0000 == b / 0x100;
  }

  // ---------- zero-padded text ----------

  function Zeros(n: nat): (s: seq<byte>)
    ensures |s| == n && forall i :: 0 <= i < n ==> s[i] == 0
  {
    seq(n, _ => 0)
  }

  function Pad(s: seq<byte>, n: nat): (r: seq<byte>)
    requires |s| <= n
    ensures |r| == n && s <= r
    ensures forall i :: |s| <= i < n ==> r[i] == 0
  {
    s + Zeros(n - |s|)
  }

  /** The C string held in a buffer: everything before the first NUL. */
  function CStr(s: seq<byte>): (r: seq<byte>)
    ensures r <= s && 0 !in r
    ensures |r| < |s| ==> s[|r|] == 0
  {
    if s == [] || s[0] == 0 then [] else [s[0]] + CStr(s[1..])
  }

  lemma {:induction false} CStrOf(name: seq<byte>, rest: seq<byte>)
    requires 0 !in name && (rest == [] || rest[0] == 0)
    ensures CStr(name + rest) == name
  {
    if name != [] {
      assert (name + rest)[1..] == name[1..] + rest;
      CStrOf(name[1..], rest);
    } else {
      assert name + rest == rest;
    }
  }

  // ---------- commands ----------

  type Name = seq<byte>

  datatype Fields =
    | Open(sid: u16, name: Name)
    | Data(sid: u16, offset: u32, payload: seq<byte>)
    | Close(sid: u16)
    | BadOpen
    | BadData
    | BadClose
    | Unknown

  predicate Fits(r: Fields) {
    && (r.Open? ==> |r.name| < FILE_NAME_MAX_LEN && 0 !in r.name)
    && (r.Data? ==> |r.payload| <= UPLOAD_DATA_LEN)
  }

  type Request = r: Fields | Fits(r) witness Unknown

  /** What the fixed C buffers demand of a command: a file name ends inside its field, and a
      data size does not exceed the data field. */
  predicate WellFormed(p: seq<byte>) {
    && (|p| == OPEN_CMD_SIZE && p[0] == OPEN_CMD ==> 0 in p[3..])
    && (|p| == DATA_CMD_SIZE && p[0] == DATA_CMD ==> LongField(p, 7) <= UPLOAD_DATA_LEN)
  }

  type Command = p: seq<byte> | WellFormed(p) witness []

  /** The dispatch on command id and length, with each handler's reading of its fields. */
  function Parse(p: Command): Request {
    if |p| < 1 then Unknown
    else if p[0] == OPEN_CMD then
      if |p| != OPEN_CMD_SIZE then BadOpen
      else Open(Load16(p, 1), CStr(p[3..]))
    else if p[0] == DATA_CMD then
      if |p| != DATA_CMD_SIZE then BadData
      else Data(Load16(p, 1), LongField(p, 3), p[11..11 + LongField(p, 7)])
    else if p[0] == CLOSE_CMD then
      if |p| != CLOSE_CMD_SIZE then BadClose
      else Close(Load16(p, 1))
    else Unknown
  }

  /** Which commands are refused, by id and length: every one is read as what its first byte says
      if it has exactly the length of that command. */
  lemma ParseKinds(p: Command)
    ensures Parse(p).Unknown? <==> p == [] || (p[0] != 2 && p[0] != 3 && p[0] != 4)
    ensures Parse(p).BadOpen? <==> p != [] && p[0] == 2 && |p| != 67
    ensures Parse(p).Open? <==> p != [] && p[0] == 2 && |p| == 67
    ensures Parse(p).BadData? <==> p != [] && p[0] == 3 && |p| != 211
    ensures Parse(p).Data? <==> p != [] && p[0] == 3 && |p| == 211
    ensures Parse(p).BadClose? <==> p != [] && p[0] == 4 && |p| != 3
    ensures Parse(p).Close? <==> p != [] && p[0] == 4 && |p| == 3
  {
  }

  /** Where the fields of a command are: little-endian numbers, and the bytes of the name up to its
      NUL or of the data up to their size. */
  lemma ParseReads(p: Command)
    ensures var r := Parse(p);
      && (r.Open? ==>
        && r.sid == LittleEndian(p[1..3])
        && |r.name| < 64 && p[3..3 + |r.name|] == r.name && 0 !in r.name && p[3 + |r.name|] == 0)
      && (r.Data? ==>
        && r.sid == LittleEndian(p[1..3]) && r.offset == LittleEndian(p[3..7])
        && |r.payload| == LittleEndian(p[7..11]) <= 200 && r.payload == p[11..11 + |r.payload|])
      && (r.Close? ==> r.sid == LittleEndian(p[1..3]))
  {
    ParseKinds(p);
    if |p| >= 3 {
      ScalarsAreLittleEndian(0, 0, p, 1);
    }
    if Parse(p).Open? {
      assert Parse(p).name == CStr(p[3..]);
    } else if Parse(p).Data? {
      ScalarsAreLittleEndian(0, 0, p, 3);
      ScalarsAreLittleEndian(0, 0, p, 7);
      LongFieldIsLoad32(p, 3);
      LongFieldIsLoad32(p, 7);
    }
  }

  /** The ground's side of `Parse`: how a well-formed request is put on the wire. */
  function EncodeOpen(sid: u16, name: Name): (p: seq<byte>)
    requires |name| < FILE_NAME_MAX_LEN
  {
    [OPEN_CMD] + Le16(sid) + Pad(name, FILE_NAME_MAX_LEN)
  }

  function EncodeData(sid: u16, offset: u32, payload: seq<byte>): (p: seq<byte>)
    requires |payload| <= UPLOAD_DATA_LEN
  {
    [DATA_CMD] + Le16(sid) + Le32(offset) + Le32(|payload|) + Pad(payload, UPLOAD_DATA_LEN)
  }

  function EncodeClose(sid: u16): (p: seq<byte>) {
    [CLOSE_CMD] + Le16(sid)
  }

  lemma OpenRoundTrip(sid: u16, name: Name)
    requires |name| < FILE_NAME_MAX_LEN && 0 !in name
    ensures WellFormed(EncodeOpen(sid, name))
    ensures Parse(EncodeOpen(sid, name)) == Open(sid, name)
  {
    var p := EncodeOpen(sid, name);
    assert p[3..] == name + Zeros(FILE_NAME_MAX_LEN - |name|);
    assert p[3..][|name|] == 0;
    CStrOf(name, Zeros(FILE_NAME_MAX_LEN - |name|));
    Le16RoundTrip(sid, [OPEN_CMD], Pad(name, FILE_NAME_MAX_LEN));
  }

  lemma DataRoundTrip(sid: u16, offset: u32, payload: seq<byte>)
    requires |payload| <= UPLOAD_DATA_LEN
    ensures WellFormed(EncodeData(sid, offset, payload))
    ensures Parse(EncodeData(sid, offset, payload)) == Data(sid, offset, payload)
  {
    var p := EncodeData(sid, offset, payload);
    var body := Pad(payload, UPLOAD_DATA_LEN);
    var h1 := [DATA_CMD] + Le16(sid);
    var h2 := h1 + Le32(offset);
    Le16RoundTrip(sid, [DATA_CMD], Le32(offset) + Le32(|payload|) + body);
    assert p == [DATA_CMD] + Le16(sid) + (Le32(offset) + Le32(|payload|) + body);
    Le32RoundTrip(offset, h1, Le32(|payload|) + body);
    assert p == h1 + Le32(offset) + (Le32(|payload|) + body);
    Le32RoundTrip(|payload|, h2, body);
    assert p == h2 + Le32(|payload|) + body;
    LongFieldIsLoad32(p, 3);
    LongFieldIsLoad32(p, 7);
    assert p[11..] == body;
  }

  lemma CloseRoundTrip(sid: u16)
    ensures WellFormed(EncodeClose(sid))
    ensures Parse(EncodeClose(sid)) == Close(sid)
  {
    Le16RoundTrip(sid, [CLOSE_CMD], []);
    assert EncodeClose(sid) == [CLOSE_CMD] + Le16(sid) + [];
  }

  // ---------- telemetry ----------

  datatype Entry = Entry(code: u32, offset: u32, size: u32)

  const NO_ENTRY := Entry(0, 0, 0)

  function Blank(n: nat): (es: seq<Entry>)
    ensures |es| == n && forall i :: 0 <= i < n ==> es[i] == NO_ENTRY
  {
    seq(n, _ => NO_ENTRY)
  }

  function EncodeEntry(e: Entry): (s: seq<byte>)
    ensures |s| == 12
  {
    Le32(e.code) + Le32(e.offset) + Le32(e.size)
  }

  function EncodeEntries(es: seq<Entry>): (s: seq<byte>)
    ensures |s| == 12 * |es|
  {
    if es == [] then [] else EncodeEntry(es[0]) + EncodeEntries(es[1..])
  }

  function DecodeEntries(s: seq<byte>, n: nat): (es: seq<Entry>)
    requires |s| == 12 * n
    ensures |es| == n
    decreases n
  {
    if n == 0 then []
    else [Entry(Load32(s, 0), Load32(s, 4), Load32(s, 8))] + DecodeEntries(s[12..], n - 1)
  }

  lemma {:induction false} EntriesRoundTrip(es: seq<Entry>)
    ensures DecodeEntries(EncodeEntries(es), |es|) == es
  {
    if es != [] {
      var e, rest := es[0], EncodeEntries(es[1..]);
      var s := EncodeEntry(e) + rest;
      Le32RoundTrip(e.code, [], Le32(e.offset) + Le32(e.size) + rest);
      assert s == [] + Le32(e.code) + (Le32(e.offset) + Le32(e.size) + rest);
      Le32RoundTrip(e.offset, Le32(e.code), Le32(e.size) + rest);
      assert s == Le32(e.code) + Le32(e.offset) + (Le32(e.size) + rest);
      Le32RoundTrip(e.size, Le32(e.code) + Le32(e.offset), rest);
      assert s == Le32(e.code) + Le32(e.offset) + Le32(e.size) + rest;
      assert s[12..] == rest;
      EntriesRoundTrip(es[1..]);
    }
  }

  datatype Telemetry =
    | OpenReply(tid: byte, code: u32, sid: u16, name: Name)
    | DataReply(tid: byte, sid: u16, entries: seq<Entry>)
    | CloseReply(tid: byte, code: u32, sid: u16)
    | ErrReply(tid: byte, code: u32)

  predicate Sendable(t: Telemetry) {
    match t
    case OpenReply(_, _, _, name) => |name| < FILE_NAME_MAX_LEN && 0 !in name
    case DataReply(_, _, es) => |es| == REPLY_ENTRIES
    case _ => true
  }

  type Reply = t: Telemetry | Sendable(t) witness ErrReply(0, 0)

  /** The packed struct copied into the reply packet. */
  function Encode(t: Reply): (s: seq<byte>)
    ensures 0 < |s| <= 243
  {
    match t
    case OpenReply(tid, code, sid, name) => [tid] + Le32(code) + Le16(sid) + Pad(name, FILE_NAME_MAX_LEN)
    case DataReply(tid, sid, es) => [tid] + Le16(sid) + EncodeEntries(es)
    case CloseReply(tid, code, sid) => [tid] + Le32(code) + Le16(sid)
    case ErrReply(tid, code) => [tid] + Le32(code)
  }

  /** The ground tells the four structs apart by their lengths: 71, 243, 7 and 5 bytes. */
  function Decode(s: seq<byte>): Telemetry {
    if |s| == 71 then OpenReply(s[0], Load32(s, 1), Load16(s, 5), CStr(s[7..]))
    else if |s| == 243 then DataReply(s[0], Load16(s, 1), DecodeEntries(s[3..], REPLY_ENTRIES))
    else if |s| == 7 then CloseReply(s[0], Load32(s, 1), Load16(s, 5))
    else if |s| == 5 then ErrReply(s[0], Load32(s, 1))
    else ErrReply(0, 0)
  }

  lemma TelemetryRoundTrip(t: Reply)
    ensures Decode(Encode(t)) == t
  {
    var s := Encode(t);
    match t
    case OpenReply(tid, code, sid, name) =>
      var rest := Pad(name, FILE_NAME_MAX_LEN);
      Le32RoundTrip(code, [tid], Le16(sid) + rest);
      assert s == [tid] + Le32(code) + (Le16(sid) + rest);
      Le16RoundTrip(sid, [tid] + Le32(code), rest);
      assert s[7..] == name + Zeros(FILE_NAME_MAX_LEN - |name|);
      CStrOf(name, Zeros(FILE_NAME_MAX_LEN - |name|));
    case DataReply(tid, sid, es) =>
      Le16RoundTrip(sid, [tid], EncodeEntries(es));
      assert s[3..] == EncodeEntries(es);
      EntriesRoundTrip(es);
    case CloseReply(tid, code, sid) =>
      Le32RoundTrip(code, [tid], Le16(sid));
      Le16RoundTrip(sid, [tid] + Le32(code), []);
      assert s == [tid] + Le32(code) + Le16(sid) + [];
    case ErrReply(tid, code) =>
      Le32RoundTrip(code, [tid], []);
      assert s == [tid] + Le32(code) + [];
  }

  lemma Field16(s: seq<byte>, at: nat, n: u16)
    requires at + 2 <= |s| && s[at..at + 2] == Le16(n)
    ensures LittleEndian(s[at..at + 2]) == n
  {
    ScalarsAreLittleEndian(n, 0, [], 0);
  }

  lemma Field32(s: seq<byte>, at: nat, n: u32)
    requires at + 4 <= |s| && s[at..at + 4] == Le32(n)
    ensures LittleEndian(s[at..at + 4]) == n
  {
    ScalarsAreLittleEndian(0, n, [], 0);
  }

  /** Where the fields of a reply to an OPEN are. */
  lemma OpenReplyLayout(t: Reply)
    requires t.OpenReply?
    ensures var s := Encode(t);
      && |s| == 71 && s[0] == t.tid && LittleEndian(s[1..5]) == t.code && LittleEndian(s[5..7]) == t.sid
      && s[7..7 + |t.name|] == t.name && forall i :: 7 + |t.name| <= i < 71 ==> s[i] == 0
  {
    var s := Encode(t);
    Field32(s, 1, t.code);
    Field16(s, 5, t.sid);
  }

  /** And of the other replies, the entries of a DATA reply apart. */
  lemma ReplyLayout(t: Reply)
    requires !t.OpenReply?
    ensures var s := Encode(t);
      && |s| == (if t.DataReply? then 243 else if t.CloseReply? then 7 else 5) && s[0] == t.tid
      && (t.DataReply? ==> LittleEndian(s[1..3]) == t.sid)
      && (!t.DataReply? ==> LittleEndian(s[1..5]) == t.code)
      && (t.CloseReply? ==> LittleEndian(s[5..7]) == t.sid)
  {
    var s := Encode(t);
    match t
    case DataReply(tid, sid, es) =>
      Field16(s, 1, sid);
    case CloseReply(tid, code, sid) =>
      Field32(s, 1, code);
      Field16(s, 5, sid);
    case ErrReply(tid, code) =>
      Field32(s, 1, code);
  }

  lemma {:induction false} EntryPlace(es: seq<Entry>, i: nat)
    requires i < |es|
    ensures 12 * i + 12 <= |EncodeEntries(es)|
    ensures EncodeEntries(es)[12 * i..12 * i + 12] == EncodeEntry(es[i])
  {
    if i > 0 {
      EntryPlace(es[1..], i - 1);
    }
  }

  lemma EntryFields(e: Entry)
    ensures LittleEndian(EncodeEntry(e)[0..4]) == e.code
    ensures LittleEndian(EncodeEntry(e)[4..8]) == e.offset
    ensures LittleEndian(EncodeEntry(e)[8..12]) == e.size
  {
    Field32(EncodeEntry(e), 0, e.code);
    Field32(EncodeEntry(e), 4, e.offset);
    Field32(EncodeEntry(e), 8, e.size);
  }

  lemma SubSlice<T>(s: seq<T>, from: nat, part: seq<T>, a: nat, b: nat)
    requires from + |part| <= |s| && s[from..from + |part|] == part && a <= b <= |part|
    ensures s[from + a..from + b] == part[a..b]
  {
    forall k | 0 <= k < b - a ensures s[from + a..from + b][k] == part[a..b][k] {
      assert s[from..from + |part|][a + k] == s[from + a + k];
    }
  }

  /** And where the fields of its entries are: code, offset, size, every twelve bytes from byte 3. */
  lemma EntryLayout(t: Reply, i: nat)
    requires t.DataReply? && i < |t.entries|
    ensures var s, at := Encode(t), 3 + 12 * i;
      && at + 12 <= |s|
      && LittleEndian(s[at..at + 4]) == t.entries[i].code
      && LittleEndian(s[at + 4..at + 8]) == t.entries[i].offset
      && LittleEndian(s[at + 8..at + 12]) == t.entries[i].size
  {
    var s, at, part := Encode(t), 3 + 12 * i, EncodeEntry(t.entries[i]);
    EntryPlace(t.entries, i);
    assert s[3..] == EncodeEntries(t.entries);
    SubSlice(s, 3, s[3..], 12 * i, 12 * i + 12);
    SubSlice(s, at, part, 0, 4);
    SubSlice(s, at, part, 4, 8);
    SubSlice(s, at, part, 8, 12);
    EntryFields(t.entries[i]);
  }
}
