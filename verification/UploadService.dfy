/** The upload handlers as they run: session records updated in place, two lists of slots, and
    packet buffers overwritten with their own replies. Each handler is proved to be one step of
    the transition function in module Upload. */
module UploadService {
  import opened Wire
  import opened FileStore
  import opened Upload
  import opened Csp

  /** The static variables of the upload handlers. `sessions` is the array of records; a pointer in
      a C list is the index of the record that it points to. */
  class Service {
    const sessions: array<Slot>
    var sessionUsed: seq<nat>
    var sessionUnused: seq<nat>
    var fs: Store

    /** What has become of the packets, in order. */
    ghost var log: seq<Effect>

    /** The state of the transition function that the fields stand for. */
    ghost var state: State

    ghost predicate Valid()
      reads this, sessions
    {
      && sessions.Length == SESSIONS
      && state == Pool(sessions[..], sessionUsed, sessionUnused, fs)
    }

    /** `upload_handler_init`: the zero-initialised records, all on the unused list. */
    constructor (files: map<Name, Bytes>)
      ensures Valid() && fresh(sessions)
      ensures state == Init(files) && log == []
    {
      sessions := new Slot[SESSIONS](_ => FREE_SLOT);
      sessionUsed, sessionUnused := [], [0, 1, 2, 3, 4];
      fs := Store(files, map[], 0);
      log := [];
      state := Init(files);
      new;
      assert sessions[..] == state.slots;
    }

    method SearchUsedSession(sid: u16) returns (r: Option<nat>)
      requires Valid()
      ensures r == Search(state, sid)
    {
      var l := 0;
      while l < |sessionUsed|
        invariant l <= |sessionUsed|
        invariant InRange(sessionUsed[l..])
        invariant SearchUsed(state.slots, sessionUsed, sid) == SearchUsed(state.slots, sessionUsed[l..], sid)
      {
        if sessions[sessionUsed[l]].id == sid {
          return Some(sessionUsed[l]);
        }
        assert sessionUsed[l..][1..] == sessionUsed[l + 1..];
        l := l + 1;
      }
      return None;
    }

    method GetUnusedSession() returns (r: Option<nat>)
      modifies `sessionUsed, `sessionUnused
      ensures old(sessionUnused) == [] ==>
        r == None && sessionUsed == old(sessionUsed) && sessionUnused == old(sessionUnused)
      ensures old(sessionUnused) != [] ==>
        && r == Some(old(sessionUnused)[0])
        && sessionUsed == old(sessionUsed) + [old(sessionUnused)[0]] && sessionUnused == old(sessionUnused)[1..]
    {
      if sessionUnused == [] {
        return None;
      }
      var session := sessionUnused[0];
      sessionUnused := Remove(sessionUnused, session);
      sessionUsed := sessionUsed + [session];
      return Some(session);
    }

    method ReleaseSession(session: nat)
      modifies `sessionUsed, `sessionUnused
      ensures sessionUsed == Remove(old(sessionUsed), session)
      ensures sessionUnused == old(sessionUnused) + [session]
    {
      sessionUsed := Remove(sessionUsed, session);
      sessionUnused := sessionUnused + [session];
    }

    /** `csp_sendto_reply`: the buffer goes out with the bytes it holds, which are telemetry `t`. */
    ghost method SendtoReply(packet: Packet, t: Reply)
      requires packet.Valid() && packet.Bytes() == Encode(t)
      modifies `log
      ensures log == old(log) + [Sent(t)]
    {
      log := log + [Sent(t)];
    }

    /** `csp_buffer_free`. */
    ghost method BufferFree(packet: Packet)
      modifies `log
      ensures log == old(log) + [Freed]
    {
      log := log + [Freed];
    }

    /** The telemetry is copied over the packet and sent back where the packet came from. */
    method Answer(packet: Packet, t: Reply)
      requires packet.Valid()
      modifies `log, packet, packet.data
      ensures packet.Valid() && packet.Bytes() == Encode(t)
      ensures log == old(log) + [Sent(t)]
    {
      packet.Overwrite(Encode(t));
      SendtoReply(packet, t);
    }

    /** The part of `open_upload_file` that has a slot in hand. */
    method OpenInSlot(session: nat, sid: u16, fname: Name, env: Env)
      requires sessions.Length == SESSIONS && session < SESSIONS
      modifies sessions, `fs, `sessionUsed, `sessionUnused
      ensures var (fs', file) := Fopen(old(fs), fname, env.reopens, env.creates);
        && fs == fs'
        && sessions[..] == old(sessions[..])[session := old(sessions[session]).(file := file, id := sid, fname := fname)]
        && sessionUsed == (if file.None? then Remove(old(sessionUsed), session) else old(sessionUsed))
        && sessionUnused == (if file.None? then old(sessionUnused) + [session] else old(sessionUnused))
    {
      var stream := Fopen(fs, fname, env.reopens, env.creates);
      fs := stream.0;
      sessions[session] := sessions[session].(file := stream.1);
      if sessions[session].file.None? {
        ReleaseSession(session);
      }
      sessions[session] := sessions[session].(id := sid);
      sessions[session] := sessions[session].(fname := fname);
    }

    method OpenUploadFile(sid: u16, fname: Name, env: Env) returns (ret: int)
      requires Valid()
      modifies sessions, `fs, `sessionUsed, `sessionUnused
      ensures (Pool(sessions[..], sessionUsed, sessionUnused, fs), ret) == OpenFile(state, sid, fname, env)
    {
      var session := SearchUsedSession(sid);
      if session.Some? {
        return -EEXIST;
      }
      session := GetUnusedSession();
      if session.None? {
        return -EMFILE;
      }
      assert session.value in state.unused && session.value !in state.used;
      RemoveLast(state.used, session.value);
      OpenInSlot(session.value, sid, fname, env);
      return 0;
    }

    method WriteUploadFile(session: nat, offset: u32, data: Bytes, env: Env) returns (ret: int)
      requires Valid() && session in sessionUsed
      modifies `fs
      ensures ret == WriteResult(env, |data|)
      ensures fs == WriteFile(state, session, offset, data, env)
    {
      if !env.seeks {
        return FAILED;
      }
      ret := if env.written < |data| then env.written else |data|;
      fs := Fwrite(fs, sessions[session].file.value, offset, data[..ret]);
    }

    method CloseUploadFile(sid: u16, env: Env) returns (ret: int)
      requires Valid()
      modifies `fs, `sessionUsed, `sessionUnused
      ensures (Pool(sessions[..], sessionUsed, sessionUnused, fs), ret) == CloseFile(state, sid, env)
    {
      var session := SearchUsedSession(sid);
      if session.None? {
        return -ENOENT;
      }
      assert session.value in state.used;
      fs := Fclose(fs, sessions[session.value].file.value);
      ReleaseSession(session.value);
      return if env.closes then 0 else FAILED;
    }

    ghost predicate Incoming(packet: Packet)
      reads packet, packet.data
    {
      packet.Valid() && WellFormed(packet.Bytes())
    }

    /** What a handler must achieve: the step of the transition function, and its effects. */
    twostate predicate Stepped(input: Input)
      reads this, sessions
    {
      && Valid()
      && state == Step(old(state), input)
      && log == old(log) + Effects(old(state), input)
    }

    method AnswerOpen(packet: Packet, sid: u16, fname: Name, env: Env)
      requires Valid() && packet.Valid() && |fname| < FILE_NAME_MAX_LEN && 0 !in fname
      modifies this, sessions, packet, packet.data
      ensures packet.Valid() && Stepped(Input(Open(sid, fname), env))
    {
      var ret := OpenUploadFile(sid, fname, env);
      state := Step(state, Input(Open(sid, fname), env));
      Answer(packet, OpenReply(OPEN_CMD, ToU32(ret), sid, fname));
    }

    method FileUploadOpenCmd(packet: Packet, env: Env)
      requires Valid() && Incoming(packet)
      requires packet.length > 0 && packet.data[0] == OPEN_CMD
      modifies this, sessions, packet, packet.data
      ensures packet.Valid() && Stepped(Receive(old(packet.Bytes()), env))
    {
      if packet.length != OPEN_CMD_SIZE {
        Answer(packet, OpenReply(OPEN_CMD, ToU32(-EINVAL), 0, []));
      } else {
        var p := packet.Bytes();
        assert Parse(p) == Open(Load16(p, 1), CStr(p[3..]));
        AnswerOpen(packet, Load16(p, 1), CStr(p[3..]), env);
      }
    }

    method AnswerClose(packet: Packet, sid: u16, env: Env)
      requires Valid() && packet.Valid()
      modifies this, sessions, packet, packet.data
      ensures packet.Valid() && Stepped(Input(Close(sid), env))
    {
      var ret := CloseUploadFile(sid, env);
      state := Step(state, Input(Close(sid), env));
      Answer(packet, CloseReply(CLOSE_CMD, ToU32(ret), sid));
    }

    method FileUploadCloseCmd(packet: Packet, env: Env)
      requires Valid() && Incoming(packet)
      requires packet.length > 0 && packet.data[0] == CLOSE_CMD
      modifies this, sessions, packet, packet.data
      ensures packet.Valid() && Stepped(Receive(old(packet.Bytes()), env))
    {
      if packet.length != CLOSE_CMD_SIZE {
        Answer(packet, CloseReply(CLOSE_CMD, ToU32(-EINVAL), 0));
      } else {
        var p := packet.Bytes();
        assert Parse(p) == Close(Load16(p, 1));
        AnswerClose(packet, Load16(p, 1), env);
      }
    }

    method StackUploadDataReply(session: nat, errCode: int, offset: u32, size: u32)
      requires session < sessions.Length && ValidBuffer(sessions[session])
      modifies sessions
      ensures sessions[..] == old(sessions[..])[session := Stack(old(sessions[session]), errCode, offset, size)]
    {
      var count := sessions[session].count;
      var entry := Entry(ToU32(errCode), offset, size);
      sessions[session] := sessions[session].(tid := DATA_CMD);
      sessions[session] := sessions[session].(header := sessions[session].id);
      sessions[session] := sessions[session].(entries := sessions[session].entries[count := entry]);
      sessions[session] := sessions[session].(count := count + 1);
    }

    method SendUploadDataReply(packet: Packet, session: nat)
      requires packet.Valid() && session < sessions.Length && |sessions[session].entries| == REPLY_ENTRIES
      modifies `log, packet, packet.data, sessions
      ensures packet.Valid()
      ensures sessions[..] == old(sessions[..])[session :=
        old(sessions[session]).(entries := Blank(REPLY_ENTRIES), count := 0)]
      ensures var s := old(sessions[session]); log == old(log) + [Sent(DataReply(s.tid, s.header, s.entries))]
    {
      var s := sessions[session];
      Answer(packet, DataReply(s.tid, s.header, s.entries));
      sessions[session] := sessions[session].(count := 0);
      sessions[session] := sessions[session].(entries := Blank(REPLY_ENTRIES));
    }

    /** An accepted DATA: the write, the acknowledgement, and the packet's first fate. */
    method AcceptData(packet: Packet, session: nat, offset: u32, data: Bytes, env: Env) returns (ret: int)
      requires Valid() && packet.Valid() && session in sessionUsed && |data| <= UPLOAD_DATA_LEN
      modifies sessions, `fs, `log, packet, packet.data
      ensures packet.Valid() && ret == WriteResult(env, |data|)
      ensures fs == WriteFile(state, session, offset, data, env)
      ensures var s := Stack(state.slots[session], ret, offset, |data|);
        && sessions[..] == state.slots[session :=
             if FlushDue(s.count, |data|) then s.(entries := Blank(REPLY_ENTRIES), count := 0) else s]
        && log == old(log) +
             [if FlushDue(s.count, |data|) then Sent(DataReply(s.tid, s.header, s.entries)) else Freed]
    {
      ret := WriteUploadFile(session, offset, data, env);
      StackUploadDataReply(session, ret, offset, |data|);
      if sessions[session].count >= REPLY_ENTRIES || |data| != UPLOAD_DATA_LEN {
        SendUploadDataReply(packet, session);
      } else {
        BufferFree(packet);
      }
    }

    method AnswerData(packet: Packet, sid: u16, offset: u32, data: Bytes, env: Env)
      requires Valid() && packet.Valid() && |data| <= UPLOAD_DATA_LEN
      modifies this, sessions, packet, packet.data
      ensures packet.Valid() && Stepped(Input(Data(sid, offset, data), env))
    {
      var session := SearchUsedSession(sid);
      var ret;
      if session.None? {
        ret := -ENOENT;
      } else {
        ret := AcceptData(packet, session.value, offset, data, env);
      }
      state := Step(state, Input(Data(sid, offset, data), env));
      if ret < 0 {
        Answer(packet, DataReply(DATA_CMD, sid, [Entry(ToU32(ret), offset, |data|)] + env.junk));
      }
    }

    method FileUploadDataCmd(packet: Packet, env: Env)
      requires Valid() && Incoming(packet)
      requires packet.length > 0 && packet.data[0] == DATA_CMD
      modifies this, sessions, packet, packet.data
      ensures packet.Valid() && Stepped(Receive(old(packet.Bytes()), env))
    {
      if packet.length != DATA_CMD_SIZE {
        Answer(packet, DataReply(DATA_CMD, 0, [Entry(ToU32(-EINVAL), 0, 0)] + env.junk));
      } else {
        var p := packet.Bytes();
        var data := p[11..11 + LongField(p, 7)];
        assert Parse(p) == Data(Load16(p, 1), LongField(p, 3), data);
        AnswerData(packet, Load16(p, 1), LongField(p, 3), data, env);
      }
    }

    /** The dispatcher run by the file worker on each packet it pops. */
    method CspFileWork(packet: Packet, env: Env)
      requires Valid() && Incoming(packet)
      modifies this, sessions, packet, packet.data
      ensures packet.Valid() && Stepped(Receive(old(packet.Bytes()), env))
    {
      if packet.length >= 1 && packet.data[0] == OPEN_CMD {
        FileUploadOpenCmd(packet, env);
      } else if packet.length >= 1 && packet.data[0] == DATA_CMD {
        FileUploadDataCmd(packet, env);
      } else if packet.length >= 1 && packet.data[0] == CLOSE_CMD {
        FileUploadCloseCmd(packet, env);
      } else {
        assert Parse(packet.Bytes()) == Unknown;
        Answer(packet, ErrReply(UNKNOWN_CMD, ToU32(-EINVAL)));
      }
    }
  }
}
