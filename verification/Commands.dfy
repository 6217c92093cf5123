/** What each upload command does, spelled out: the answer field by field, with its codes as they
    stand on the wire, and the sessions, files, slots and lists before and after. */
module Commands {
  import opened Wire
  import opened FileStore
  import opened Upload
  import opened Sessions
  import Acks

  /** -1, -2, -17, -22 and -24 as 32-bit numbers. */
  lemma CodesOnWire()
    ensures ToU32(FAILED) == 0xFFFF_FFFF && ToU32(-ENOENT) == 0xFFFF_FFFE
    ensures ToU32(-EEXIST) == 0xFFFF_FFEF && ToU32(-EINVAL) == 0xFFFF_FFEA && ToU32(-EMFILE) == 0xFFFF_FFE8
    ensures ToU32(0) == 0
  {
  }

  /** At power-up there is no session, all five slots wait in order, nothing is pending, and the
      files are those that were there. */
  lemma PowerUp(files: map<Name, Bytes>)
    ensures var st := Init(files);
      && Registry(st) == map[] && st.fs.files == files && st.fs.live == map[]
      && st.used == [] && st.unused == [0, 1, 2, 3, 4]
      && forall j :: 0 <= j < 5 ==> Pending(st.slots[j]) == []
  {
  }

  // ---------- OPEN ----------

  lemma OpenAnswer(st: State, input: Input, sid: u16, name: Name)
    requires input.req == Open(sid, name)
    ensures Effects(st, input) == [Sent(OpenReply(2,
      if sid in Registry(st) then 0xFFFF_FFEF else if |Registry(st)| == 5 then 0xFFFF_FFE8 else 0, sid, name))]
  {
    CodesOnWire();
    RegistrySize(st);
  }

  /** A refused OPEN changes nothing. */
  lemma OpenRefused(st: State, input: Input, sid: u16, name: Name)
    requires input.req == Open(sid, name)
    requires sid in Registry(st) || |Registry(st)| == 5
    ensures Step(st, input) == st
  {
    RegistrySize(st);
  }

  /** One of the two `fopen` calls succeeds. */
  predicate CanOpen(st: State, name: Name, env: Env) {
    (env.reopens && name in st.fs.files) || env.creates
  }

  /** The sessions after an OPEN that was not refused: the new one if the file could be opened, on
      the file it names and a stream of its own, and the old ones as they were. */
  lemma OpenRegisters(st: State, input: Input, sid: u16, name: Name)
    requires input.req == Open(sid, name) && sid !in Registry(st) && |Registry(st)| < 5
    ensures Registry(Step(st, input)) ==
      if CanOpen(st, name, input.env) then Registry(st)[sid := Session(name, st.fs.next)] else Registry(st)
    ensures st.fs.next !in st.fs.live
  {
    OpenSessions(st, sid, name, input.env, Step(st, input));
  }

  /** The files: only one that could not be reopened and had to be created is emptied. */
  lemma OpenFiles(st: State, input: Input, sid: u16, name: Name)
    requires input.req == Open(sid, name) && sid !in Registry(st) && |Registry(st)| < 5
    ensures Step(st, input).fs.files ==
      if !(input.env.reopens && name in st.fs.files) && input.env.creates
      then st.fs.files[name := []] else st.fs.files
  {
    RegistrySize(st);
  }

  /** The slots and lists: the first free slot goes to the end of the used list, or, if the file
      could not be opened, to the end of the unused one. Its acknowledgements stay. */
  lemma OpenTakes(st: State, input: Input, sid: u16, name: Name)
    requires input.req == Open(sid, name) && sid !in Registry(st) && |Registry(st)| < 5
    ensures st.unused != []
    ensures var st', i, took := Step(st, input), st.unused[0], CanOpen(st, name, input.env);
      && st'.used == (if took then st.used + [i] else st.used)
      && st'.unused == (if took then st.unused[1..] else st.unused[1..] + [i])
      && st'.slots[i].id == sid && st'.slots[i].fname == name
      && st'.slots[i].entries == st.slots[i].entries && st'.slots[i].count == st.slots[i].count
      && forall k :: 0 <= k < 5 && k != i ==> st'.slots[k] == st.slots[k]
  {
    RegistrySize(st);
  }

  // ---------- DATA ----------

  /** A DATA for an unknown session changes nothing, and its answer repeats its id, offset and
      size; the other nineteen entries are whatever was in memory. */
  lemma DataRefused(st: State, input: Input, sid: u16, offset: u32, payload: Bytes)
    requires |payload| <= UPLOAD_DATA_LEN
    requires input.req == Data(sid, offset, payload) && sid !in Registry(st)
    ensures Step(st, input) == st
    ensures Effects(st, input) ==
      [Sent(DataReply(3, sid, [Entry(0xFFFF_FFFE, offset, |payload|)] + input.env.junk))]
  {
    CodesOnWire();
  }

  /** How many bytes of the payload `fwrite` takes. */
  function Taken(input: Input): nat
    requires input.req.Data?
  {
    if input.env.written < |input.req.payload| then input.env.written else |input.req.payload|
  }

  /** The acknowledgement of a DATA that found its session. */
  function Acknowledged(input: Input): Entry
    requires input.req.Data?
  {
    Entry(if input.env.seeks then Taken(input) else 0xFFFF_FFFF, input.req.offset, |input.req.payload|)
  }

  lemma AckIs(st: State, input: Input)
    requires input.req.Data? && input.req.sid in Registry(st)
    ensures Acks.AckOf(st, input) == Acknowledged(input)
  {
    CodesOnWire();
  }

  /** The packet of an accepted DATA: freed if the acknowledgement joins the batch, and otherwise
      sent with the batch, the acknowledgement and zeros. */
  lemma DataAcknowledged(st: State, input: Input, sid: u16, offset: u32, payload: Bytes, j: nat)
    requires |payload| <= UPLOAD_DATA_LEN
    requires input.req == Data(sid, offset, payload) && Search(st, sid) == Some(j)
    ensures var due := Pending(st.slots[j]) + [Acknowledged(input)];
      && |due| <= 20 && Effects(st, input) != []
      && (|due| < 20 && |payload| == 200 ==>
        && Effects(st, input)[0] == Freed
        && Pending(Step(st, input).slots[j]) == due)
      && (|due| == 20 || |payload| != 200 ==>
        && Effects(st, input)[0] == Sent(DataReply(3, sid, due + Blank(20 - |due|)))
        && Pending(Step(st, input).slots[j]) == [])
  {
    AckIs(st, input);
    Acks.AcceptedData(st, input, j);
  }

  /** Only a failed seek has a second effect: an error reply with the same acknowledgement. */
  lemma DataFailed(st: State, input: Input, sid: u16, offset: u32, payload: Bytes)
    requires |payload| <= UPLOAD_DATA_LEN
    requires input.req == Data(sid, offset, payload) && sid in Registry(st)
    ensures |Effects(st, input)| == if input.env.seeks then 1 else 2
    ensures !input.env.seeks ==>
      Effects(st, input)[1] == Sent(DataReply(3, sid, [Entry(0xFFFF_FFFF, offset, |payload|)] + input.env.junk))
  {
    CodesOnWire();
  }

  /** A DATA touches no session, no list, no stream, and no slot but its own. */
  lemma DataKeeps(st: State, input: Input, sid: u16, offset: u32, payload: Bytes)
    requires |payload| <= UPLOAD_DATA_LEN
    requires input.req == Data(sid, offset, payload)
    ensures var st' := Step(st, input);
      && Registry(st') == Registry(st)
      && st'.used == st.used && st'.unused == st.unused && st'.fs.live == st.fs.live
      && forall k :: 0 <= k < 5 && Search(st, sid) != Some(k) ==> st'.slots[k] == st.slots[k]
  {
    DataSessions(st, sid, offset, payload, input.env, Step(st, input));
  }

  /** How many bytes of the file a DATA writes. */
  function Written(input: Input): nat
    requires input.req.Data?
  {
    if input.env.seeks then Taken(input) else 0
  }

  lemma DataFiles(st: State, input: Input, sid: u16, offset: u32, payload: Bytes)
    requires |payload| <= UPLOAD_DATA_LEN
    requires input.req == Data(sid, offset, payload) && sid in Registry(st)
    ensures Registry(st)[sid].name in st.fs.files
    ensures Step(st, input).fs.files == st.fs.files[Registry(st)[sid].name :=
      WriteAt(st.fs.files[Registry(st)[sid].name], offset, payload[..Written(input)])]
  {
    var s := st.slots[Search(st, sid).value];
    assert st.fs.live[s.file.value] == s.fname;
  }

  /** The file of the session, byte by byte: the bytes that were taken are at the offset, a gap
      before them is zero, and the rest is as it was. No other file changes. */
  lemma DataWrites(st: State, input: Input, sid: u16, offset: u32, payload: Bytes)
    requires |payload| <= UPLOAD_DATA_LEN
    requires input.req == Data(sid, offset, payload) && sid in Registry(st)
    ensures var f, n := Registry(st)[sid].name, Written(input);
      var was, now := st.fs.files, Step(st, input).fs.files;
      && f in was && was.Keys == now.Keys && (forall g :: g in was && g != f ==> now[g] == was[g])
      && (n == 0 ==> now[f] == was[f])
      && (n > 0 ==> Overwritten(was[f], now[f], offset, payload[..n]))
  {
    DataFiles(st, input, sid, offset, payload);
    if Written(input) > 0 {
      WriteAtPointwise(st.fs.files[Registry(st)[sid].name], offset, payload[..Written(input)]);
    }
  }

  predicate Overwritten(was: Bytes, now: Bytes, offset: nat, data: Bytes) {
    && |now| == (if |was| < offset + |data| then offset + |data| else |was|)
    && (forall i :: 0 <= i < |data| ==> now[offset + i] == data[i])
    && (forall i :: 0 <= i < |now| && (i < offset || offset + |data| <= i) ==>
         now[i] == if i < |was| then was[i] else 0)
  }

  // ---------- CLOSE ----------

  lemma CloseAnswer(st: State, input: Input, sid: u16)
    requires input.req == Close(sid)
    ensures Effects(st, input) == [Sent(CloseReply(4,
      if sid !in Registry(st) then 0xFFFF_FFFE else if input.env.closes then 0 else 0xFFFF_FFFF, sid))]
  {
    CodesOnWire();
  }

  /** A CLOSE takes out its session and its stream, whatever `fclose` returns, and nothing else.
      Its slot, with its acknowledgements, goes to the end of the unused list. */
  lemma CloseReleases(st: State, input: Input, sid: u16)
    requires input.req == Close(sid)
    ensures var st' := Step(st, input);
      && Registry(st') == Registry(st) - {sid}
      && st'.fs.files == st.fs.files && st'.slots == st.slots
      && (sid !in Registry(st) ==> st' == st)
      && (sid in Registry(st) ==>
        && st'.fs.live == st.fs.live - {Registry(st)[sid].handle}
        && st'.unused == st.unused + [Search(st, sid).value])
  {
    CloseSessions(st, sid, input.env, Step(st, input));
  }

  // ---------- malformed commands ----------

  /** The answers to commands of a wrong length or an unknown id, none of which changes anything. */
  lemma MalformedAnswers(st: State, input: Input)
    requires !input.req.Open? && !input.req.Data? && !input.req.Close?
    ensures Step(st, input) == st && |Effects(st, input)| == 1
    ensures input.req.BadOpen? ==> Effects(st, input)[0] == Sent(OpenReply(2, 0xFFFF_FFEA, 0, []))
    ensures input.req.BadData? ==>
      Effects(st, input)[0] == Sent(DataReply(3, 0, [Entry(0xFFFF_FFEA, 0, 0)] + input.env.junk))
    ensures input.req.BadClose? ==> Effects(st, input)[0] == Sent(CloseReply(4, 0xFFFF_FFEA, 0))
    ensures input.req.Unknown? ==> Effects(st, input)[0] == Sent(ErrReply(255, 0xFFFF_FFEA))
  {
    CodesOnWire();
  }

  // ---------- in bytes ----------

  /** The first answer of the service, in bytes: a CLOSE of session 7 that nobody opened, an OPEN cut
      short, and a command that does not exist. */
  lemma FirstAnswers(files: map<Name, Bytes>, env: Env)
    ensures WellFormed([4, 7, 0]) && WellFormed([2]) && WellFormed([])
    ensures var es := Effects(Init(files), Receive([4, 7, 0], env));
      |es| == 1 && es[0].Sent? && Encode(es[0].reply) == [4, 0xFE, 0xFF, 0xFF, 0xFF, 7, 0]
    ensures var es := Effects(Init(files), Receive([2], env));
      |es| == 1 && es[0].Sent? && Encode(es[0].reply) == [2, 0xEA, 0xFF, 0xFF, 0xFF, 0, 0] + Zeros(64)
    ensures var es := Effects(Init(files), Receive([], env));
      |es| == 1 && es[0].Sent? && Encode(es[0].reply) == [255, 0xEA, 0xFF, 0xFF, 0xFF]
  {
    var close: Command, open: Command := [4, 7, 0], [2];
    assert Parse(close) == Close(7);
    assert Parse(open) == BadOpen;
    CloseAnswer(Init(files), Receive(close, env), 7);
    MalformedAnswers(Init(files), Receive(open, env));
    MalformedAnswers(Init(files), Receive([], env));
    CloseBytes();
  }

  lemma CloseBytes()
    ensures Encode(CloseReply(4, 0xFFFF_FFFE, 7)) == [4, 0xFE, 0xFF, 0xFF, 0xFF, 7, 0]
    ensures Encode(OpenReply(2, 0xFFFF_FFEA, 0, [])) == [2, 0xEA, 0xFF, 0xFF, 0xFF, 0, 0] + Zeros(64)
    ensures Encode(ErrReply(255, 0xFFFF_FFEA)) == [255, 0xEA, 0xFF, 0xFF, 0xFF]
  {
    assert Le32(0xFFFF_FFFE) == [0xFE, 0xFF, 0xFF, 0xFF];
    assert Le32(0xFFFF_FFEA) == [0xEA, 0xFF, 0xFF, 0xFF];
    assert Le16(7) == [7, 0] && Le16(0) == [0, 0];
    assert Pad([], 64) == Zeros(64);
  }
}
