/** The slots and the two lists implement a map from session id to open file with room for five. */
module Sessions {
  import opened Wire
  import opened FileStore
  import opened Upload

  datatype Session = Session(name: Name, handle: Handle)

  /** What the ground knows of the service: which sessions are open on which files. */
  datatype View = View(sessions: map<u16, Session>, fs: Store)

  ghost function SessionOf(s: Slot): Session
    requires s.file.Some?
  {
    Session(s.fname, s.file.value)
  }

  ghost function Registry(st: State): map<u16, Session> {
    map sid: u16 | 0 <= sid < 0x1_0000 && Search(st, sid).Some? :: SessionOf(st.slots[Search(st, sid).value])
  }

  ghost function ViewOf(st: State): View {
    View(Registry(st), st.fs)
  }

  ghost function Image<T>(s: seq<nat>, f: nat -> T): set<T> {
    set i | i in s :: f(i)
  }

  /** A list without repetitions is as long as its image under a map that has a left inverse. */
  lemma {:induction false} ImageSize<T>(s: seq<nat>, f: nat -> T, g: T -> Option<nat>)
    requires NoDup(s)
    requires forall i {:trigger i in s} :: i in s ==> g(f(i)) == Some(i)
    ensures |Image(s, f)| == |s|
  {
    if s != [] {
      assert forall i :: i in s[1..] ==> i in s;
      ImageSize(s[1..], f, g);
      assert Image(s, f) == {f(s[0])} + Image(s[1..], f);
      assert s[0] in s && s[0] !in s[1..];
    }
  }

  lemma RegistryKeys(st: State, ids: nat -> u16)
    requires forall i :: i in st.used ==> ids(i) == st.slots[i].id
    ensures Registry(st).Keys == Image(st.used, ids)
  {
    forall sid | sid in Registry(st) ensures sid in Image(st.used, ids) {
      var i := Search(st, sid).value;
      assert i in st.used && ids(i) == sid;
    }
  }

  lemma RegistrySize(st: State)
    ensures |Registry(st)| == |st.used|
  {
    var ids := (i: nat) => if i < SESSIONS then st.slots[i].id else 0;
    ImageSize<u16>(st.used, ids, (sid: u16) => Search(st, sid));
    RegistryKeys(st, ids);
    assert |Registry(st)| == |Registry(st).Keys|;
  }

  lemma SubsetOfSameSize<T>(a: set<T>, b: set<T>)
    requires a <= b && |a| == |b|
    ensures a == b
  {
    assert |b - a| == |b| - |a|;
  }

  /** No stream is shared, and each is open on the file of its session. */
  lemma SessionsOwnTheirStreams(st: State, s: u16, t: u16)
    requires s in Registry(st)
    ensures Registry(st)[s].handle in st.fs.live
    ensures st.fs.live[Registry(st)[s].handle] == Registry(st)[s].name
    ensures t in Registry(st) && s != t ==> Registry(st)[s].handle != Registry(st)[t].handle
  {
    if t in Registry(st) && s != t {
      assert st.slots[Search(st, s).value].file != st.slots[Search(st, t).value].file;
    }
  }

  ghost function Handles(m: map<u16, Session>): set<Handle> {
    set s | s in m :: m[s].handle
  }

  lemma HandlesSplit(m: map<u16, Session>, s: u16)
    requires s in m
    requires forall t :: t in m && t != s ==> m[t].handle != m[s].handle
    ensures |m| == |m - {s}| + 1
    ensures Handles(m) == {m[s].handle} + Handles(m - {s}) && m[s].handle !in Handles(m - {s})
  {
    var m' := m - {s};
    assert m == m'[s := m[s]];
  }

  lemma {:induction false} HandleCount(m: map<u16, Session>)
    requires forall s, t :: s in m && t in m && s != t ==> m[s].handle != m[t].handle
    ensures |Handles(m)| == |m|
  {
    if m != map[] {
      var s :| s in m;
      HandleCount(m - {s});
      HandlesSplit(m, s);
    } else {
      assert Handles(m) == {};
    }
  }

  /** No stream leaks: the open streams are exactly those of the sessions. */
  lemma StreamsAreSessions(st: State)
    ensures st.fs.live.Keys == Handles(Registry(st))
  {
    var m := Registry(st);
    forall s, t | s in m && t in m && s != t ensures m[s].handle != m[t].handle {
      SessionsOwnTheirStreams(st, s, t);
    }
    HandleCount(m);
    RegistrySize(st);
    forall s | s in m ensures m[s].handle in st.fs.live {
      SessionsOwnTheirStreams(st, s, s);
    }
    SubsetOfSameSize(Handles(m), st.fs.live.Keys);
  }

  // ---------- the map-based service ----------

  /** The service on a map: the next view and the result code of the command. */
  function Serve(v: View, r: Request, env: Env): (View, int) {
    match r
    case Open(sid, name) =>
      if sid in v.sessions then (v, -EEXIST)
      else if |v.sessions| >= SESSIONS then (v, -EMFILE)
      else
        var (fs, file) := Fopen(v.fs, name, env.reopens, env.creates);
        (View(if file.Some? then v.sessions[sid := Session(name, file.value)] else v.sessions, fs), 0)
    case Data(sid, offset, payload) =>
      if sid !in v.sessions then (v, -ENOENT)
      else if !env.seeks then (v, FAILED)
      else
        var n := if env.written < |payload| then env.written else |payload|;
        var name := v.sessions[sid].name;
        (v.(fs := v.fs.(files := v.fs.files[name := WriteAt(Content(v.fs, name), offset, payload[..n])])), n)
    case Close(sid) =>
      if sid !in v.sessions then (v, -ENOENT)
      else (View(v.sessions - {sid}, Fclose(v.fs, v.sessions[sid].handle)), if env.closes then 0 else FAILED)
    case _ => (v, -EINVAL)
  }

  /** How the result code reaches the ground. An accepted DATA is acknowledged later, in a batch;
      all other answers are in the telemetry of this very packet. */
  ghost predicate Answers(v: View, r: Request, ret: int, env: Env, effects: seq<Effect>) {
    match r
    case Open(sid, name) => effects == [Sent(OpenReply(OPEN_CMD, ToU32(ret), sid, name))]
    case Close(sid) => effects == [Sent(CloseReply(CLOSE_CMD, ToU32(ret), sid))]
    case BadOpen => effects == [Sent(OpenReply(OPEN_CMD, ToU32(ret), 0, []))]
    case BadClose => effects == [Sent(CloseReply(CLOSE_CMD, ToU32(ret), 0))]
    case BadData => effects == [DataErr(0, ret, 0, 0, env.junk)]
    case Unknown => effects == [Sent(ErrReply(UNKNOWN_CMD, ToU32(ret)))]
    case Data(sid, offset, payload) =>
      if sid !in v.sessions then effects == [DataErr(sid, ret, offset, |payload|, env.junk)]
      else if ret < 0 then |effects| == 2 && effects[1] == DataErr(sid, ret, offset, |payload|, env.junk)
      else |effects| == 1
  }

  lemma SearchAfterOpen(st: State, sid: u16, name: Name, env: Env, t: u16, st': State)
    requires st' == OpenFile(st, sid, name, env).0
    requires Search(st, sid).None? && st.unused != []
    ensures Search(st', t) == if t == sid && st'.used != st.used then Some(st.unused[0]) else Search(st, t)
  {
    FreshSlot(st);
    if st'.used == st.used {
      SearchSameIds(st.slots, st'.slots, st.used, t);
    } else {
      SearchAfterAppend(st.slots, st.used, st.unused[0], st'.slots[st.unused[0]], t);
    }
  }

  /** The two maps agree on this key. */
  ghost predicate AgreeOn(m: map<u16, Session>, m': map<u16, Session>, t: u16) {
    (t in m <==> t in m') && (t in m ==> m[t] == m'[t])
  }

  lemma SameMap(m: map<u16, Session>, m': map<u16, Session>)
    requires forall t: u16 :: AgreeOn(m, m', t)
    ensures m == m'
  {
    forall t: u16 ensures t in m <==> t in m' {
      assert AgreeOn(m, m', t);
    }
    forall t: u16 | t in m ensures m[t] == m'[t] {
      assert AgreeOn(m, m', t);
    }
  }

  lemma RoomLeft(st: State)
    ensures st.unused != [] <==> |Registry(st)| < SESSIONS
  {
    RegistrySize(st);
  }

  lemma NewSession(st: State, sid: u16, name: Name, env: Env, st': State)
    requires st' == OpenFile(st, sid, name, env).0
    requires Search(st, sid).None? && st.unused != [] && |Registry(st)| < SESSIONS
    ensures AgreeOn(Registry(st'), Opened(Registry(st), st.fs, sid, name, env), sid)
  {
    FreshSlot(st);
    SearchAfterOpen(st, sid, name, env, sid, st');
  }

  lemma SlotAfterOpen(st: State, sid: u16, name: Name, env: Env, k: nat, st': State)
    requires st' == OpenFile(st, sid, name, env).0
    requires k < SESSIONS && st.unused != [] && k != st.unused[0]
    ensures st'.slots[k] == st.slots[k]
  {
  }

  lemma OtherSession(st: State, sid: u16, name: Name, env: Env, t: u16, st': State)
    requires st' == OpenFile(st, sid, name, env).0
    requires Search(st, sid).None? && st.unused != [] && t != sid
    ensures AgreeOn(Registry(st'), Registry(st), t)
  {
    SearchAfterOpen(st, sid, name, env, t, st');
    if Search(st, t).Some? {
      FreshSlot(st);
      SlotAfterOpen(st, sid, name, env, Search(st, t).value, st');
    }
  }

  function Opened(m: map<u16, Session>, fs: Store, sid: u16, name: Name, env: Env): map<u16, Session> {
    var file := Fopen(fs, name, env.reopens, env.creates).1;
    if file.Some? then m[sid := Session(name, file.value)] else m
  }

  lemma OpenSessions(st: State, sid: u16, name: Name, env: Env, st': State)
    requires |name| < FILE_NAME_MAX_LEN && 0 !in name
    requires st' == OpenFile(st, sid, name, env).0
    ensures Registry(st') == Serve(ViewOf(st), Open(sid, name), env).0.sessions
  {
    RoomLeft(st);
    if Search(st, sid).None? && st.unused != [] {
      var wanted := Opened(Registry(st), st.fs, sid, name, env);
      forall t: u16 ensures AgreeOn(Registry(st'), wanted, t) {
        if t == sid {
          NewSession(st, sid, name, env, st');
        } else {
          OtherSession(st, sid, name, env, t, st');
        }
      }
      SameMap(Registry(st'), wanted);
    }
  }

  lemma FreshSlot(st: State)
    requires st.unused != []
    ensures st.unused[0] !in st.used && st.unused[0] < SESSIONS
  {
    assert st.unused[0] in st.unused;
  }

  lemma OpenStore(st: State, sid: u16, name: Name, env: Env)
    requires |name| < FILE_NAME_MAX_LEN && 0 !in name
    ensures OpenFile(st, sid, name, env).0.fs == Serve(ViewOf(st), Open(sid, name), env).0.fs
    ensures OpenFile(st, sid, name, env).1 == Serve(ViewOf(st), Open(sid, name), env).1
  {
    RegistrySize(st);
  }

  lemma DataSessions(st: State, sid: u16, offset: u32, payload: Bytes, env: Env, st': State)
    requires |payload| <= UPLOAD_DATA_LEN
    requires st' == DataCmd(st, sid, offset, payload, env).st
    ensures Registry(st') == Registry(st)
  {
    forall t: u16 ensures AgreeOn(Registry(st'), Registry(st), t) {
      SearchSameIds(st.slots, st'.slots, st.used, t);
    }
    SameMap(Registry(st'), Registry(st));
  }

  lemma DataStore(st: State, sid: u16, offset: u32, payload: Bytes, env: Env)
    requires |payload| <= UPLOAD_DATA_LEN
    ensures DataCmd(st, sid, offset, payload, env).st.fs == Serve(ViewOf(st), Data(sid, offset, payload), env).0.fs
  {
    if Search(st, sid).Some? {
      var s := st.slots[Search(st, sid).value];
      assert st.fs.live[s.file.value] == s.fname;
    }
  }

  lemma DataAnswer(st: State, sid: u16, offset: u32, payload: Bytes, env: Env)
    requires |payload| <= UPLOAD_DATA_LEN
    ensures Answers(ViewOf(st), Data(sid, offset, payload), Serve(ViewOf(st), Data(sid, offset, payload), env).1,
              env, DataCmd(st, sid, offset, payload, env).effects)
  {
  }

  lemma SearchAfterClose(st: State, sid: u16, env: Env, t: u16, st': State)
    requires st' == CloseFile(st, sid, env).0
    ensures Search(st', t) == if t == sid then None else Search(st, t)
  {
    if Search(st, sid).Some? {
      var i := Search(st, sid).value;
      if t != sid {
        SearchAfterRemove(st.slots, st.used, i, t);
      } else {
        RemoveNoDup(st.used, i);
      }
    }
  }

  lemma SessionAfterClose(st: State, sid: u16, env: Env, t: u16, st': State)
    requires st' == CloseFile(st, sid, env).0
    ensures AgreeOn(Registry(st'), Registry(st) - {sid}, t)
  {
    SearchAfterClose(st, sid, env, t, st');
  }

  lemma CloseSessions(st: State, sid: u16, env: Env, st': State)
    requires st' == CloseFile(st, sid, env).0
    ensures Registry(st') == Registry(st) - {sid}
  {
    forall t: u16 ensures AgreeOn(Registry(st'), Registry(st) - {sid}, t) {
      SessionAfterClose(st, sid, env, t, st');
    }
    SameMap(Registry(st'), Registry(st) - {sid});
  }

  /** One command on the slots and lists is one command on the map. */
  lemma PoolRefinesMap(st: State, input: Input)
    ensures ViewOf(Step(st, input)) == Serve(ViewOf(st), input.req, input.env).0
    ensures Answers(ViewOf(st), input.req, Serve(ViewOf(st), input.req, input.env).1, input.env, Effects(st, input))
  {
    var env := input.env;
    match input.req
    case Open(sid, name) =>
      OpenSessions(st, sid, name, env, Step(st, input));
      OpenStore(st, sid, name, env);
    case Data(sid, offset, payload) =>
      DataSessions(st, sid, offset, payload, env, Step(st, input));
      DataStore(st, sid, offset, payload, env);
      DataAnswer(st, sid, offset, payload, env);
    case Close(sid) =>
      CloseSessions(st, sid, env, Step(st, input));
    case _ =>
  }

  // ---------- whole runs ----------

  function ServeAll(v: View, ins: seq<Input>): View {
    if ins == [] then v
    else
      var last := ins[|ins| - 1];
      Serve(ServeAll(v, ins[..|ins| - 1]), last.req, last.env).0
  }

  lemma {:induction false} RunView(st: State, ins: seq<Input>)
    ensures ViewOf(After(st, ins)) == ServeAll(ViewOf(st), ins)
  {
    if ins != [] {
      var n := |ins| - 1;
      RunView(st, ins[..n]);
      PoolRefinesMap(After(st, ins[..n]), ins[n]);
    }
  }

  /** The map service, run on the earlier commands, gives the answer of the `k`-th one. */
  ghost predicate AnsweredAsMapped(st: State, ins: seq<Input>, k: nat)
    requires k < |ins|
  {
    var v := ServeAll(ViewOf(st), ins[..k]);
    Answers(v, ins[k].req, Serve(v, ins[k].req, ins[k].env).1, ins[k].env, EffectsAt(st, ins, k))
  }

  lemma CommandAnsweredAsMapped(st: State, ins: seq<Input>, k: nat)
    requires k < |ins|
    ensures AnsweredAsMapped(st, ins, k)
  {
    RunView(st, ins[..k]);
    PoolRefinesMap(At(st, ins, k), ins[k]);
  }

  /** A run on the slots and lists is the run on the map: the same sessions and files at the end,
      and the same result code for every command on the way. */
  lemma RunRefinesMap(st: State, ins: seq<Input>)
    ensures ViewOf(After(st, ins)) == ServeAll(ViewOf(st), ins)
    ensures forall k: nat :: k < |ins| ==> AnsweredAsMapped(st, ins, k)
  {
    RunView(st, ins);
    forall k: nat | k < |ins| ensures AnsweredAsMapped(st, ins, k) {
      CommandAnsweredAsMapped(st, ins, k);
    }
  }

  lemma CodesDiffer()
    ensures ToU32(-EEXIST) != ToU32(-EMFILE) && ToU32(-EEXIST) != 0 && ToU32(-EMFILE) != 0
  {
  }

  lemma OpenCode(st: State, input: Input, sid: u16, name: Name, code: u32)
    requires input.req == Open(sid, name)
    requires Effects(st, input) == [Sent(OpenReply(OPEN_CMD, code, sid, name))]
    ensures code == ToU32(Serve(ViewOf(st), input.req, input.env).1)
    ensures ViewOf(Step(st, input)) == Serve(ViewOf(st), input.req, input.env).0
  {
    PoolRefinesMap(st, input);
  }

  lemma ServedCode(v: View, sid: u16, name: Name, env: Env, code: u32)
    requires |name| < FILE_NAME_MAX_LEN && 0 !in name && |v.sessions| <= SESSIONS
    requires code == ToU32(Serve(v, Open(sid, name), env).1)
    ensures code == ToU32(-EEXIST) <==> sid in v.sessions
    ensures code == ToU32(-EMFILE) <==> sid !in v.sessions && |v.sessions| == SESSIONS
    ensures code == 0 <==> sid !in v.sessions && |v.sessions| < SESSIONS
    ensures code != 0 ==> Serve(v, Open(sid, name), env).0 == v
  {
    CodesDiffer();
  }

  /** The verdicts of an OPEN in the ground's terms. */
  lemma OpenVerdicts(st: State, input: Input, sid: u16, name: Name, code: u32)
    requires input.req == Open(sid, name)
    requires Effects(st, input) == [Sent(OpenReply(OPEN_CMD, code, sid, name))]
    ensures code == ToU32(-EEXIST) <==> sid in Registry(st)
    ensures code == ToU32(-EMFILE) <==> sid !in Registry(st) && |Registry(st)| == SESSIONS
    ensures code == 0 <==> sid !in Registry(st) && |Registry(st)| < SESSIONS
    ensures code != 0 ==> ViewOf(Step(st, input)) == ViewOf(st)
  {
    RegistrySize(st);
    OpenCode(st, input, sid, name, code);
    ServedCode(ViewOf(st), sid, name, input.env, code);
  }

  /** The verdicts of a CLOSE in the ground's terms. */
  lemma CloseVerdicts(st: State, input: Input, sid: u16, code: u32)
    requires input.req == Close(sid)
    requires Effects(st, input) == [Sent(CloseReply(CLOSE_CMD, code, sid))]
    ensures code == ToU32(-ENOENT) <==> sid !in Registry(st)
    ensures code == ToU32(FAILED) <==> sid in Registry(st) && !input.env.closes
    ensures code == 0 <==> sid in Registry(st) && input.env.closes
    ensures Registry(Step(st, input)) == Registry(st) - {sid}
  {
    PoolRefinesMap(st, input);
    DataCodesDiffer(0);
  }

  lemma DataCodesDiffer(n: nat)
    requires n <= UPLOAD_DATA_LEN
    ensures ToU32(-ENOENT) != ToU32(FAILED) && ToU32(-ENOENT) != ToU32(n) && ToU32(FAILED) != ToU32(n)
    ensures ToU32(n) == n
  {
  }

  /** The service answers with one DATA reply under this id whose first entry has this code. */
  predicate Refused(effects: seq<Effect>, sid: u16, code: u32) {
    && |effects| == 1 && effects[0].Sent? && effects[0].reply.DataReply?
    && effects[0].reply.sid == sid && effects[0].reply.entries != []
    && effects[0].reply.entries[0].code == code
  }

  lemma FirstCode(s: Slot, ret: int, offset: u32, size: u32)
    requires ValidBuffer(s) && ret != -ENOENT && FAILED <= ret <= UPLOAD_DATA_LEN
    ensures Stack(s, ret, offset, size).entries[0].code != ToU32(-ENOENT)
  {
    DataCodesDiffer(if ret < 0 then 0 else ret);
  }

  /** A DATA is answered "no such session" exactly when there is none, and then nothing changes.
      No acknowledgement can be mistaken for that answer. */
  lemma DataVerdicts(st: State, input: Input, sid: u16, offset: u32, payload: Bytes)
    requires |payload| <= UPLOAD_DATA_LEN
    requires input.req == Data(sid, offset, payload)
    ensures Refused(Effects(st, input), sid, ToU32(-ENOENT)) <==> sid !in Registry(st)
    ensures sid !in Registry(st) ==> Step(st, input) == st
    ensures Registry(Step(st, input)) == Registry(st)
  {
    DataSessions(st, sid, offset, payload, input.env, Step(st, input));
    if Search(st, sid).Some? {
      FirstCode(st.slots[Search(st, sid).value], WriteResult(input.env, |payload|), offset, |payload|);
    }
  }

  /** An answer of 0 does not promise a session: it comes without one exactly when both attempts
      to open the file fail, and then nothing has changed. */
  lemma AcceptedOpen(st: State, input: Input, sid: u16, name: Name)
    requires input.req == Open(sid, name)
    requires Effects(st, input) == [Sent(OpenReply(OPEN_CMD, 0, sid, name))]
    ensures sid in Registry(Step(st, input)) <==>
      (input.env.reopens && name in st.fs.files) || input.env.creates
    ensures sid !in Registry(Step(st, input)) ==> ViewOf(Step(st, input)) == ViewOf(st)
  {
    OpenVerdicts(st, input, sid, name, 0);
    PoolRefinesMap(st, input);
  }
}
