/** The upload service as a transition function: five session slots on two lists, the
    acknowledgement buffer inside each slot, and the files. */
module Upload {
  import opened Wire
  import opened FileStore
  import Seqs

  const SESSIONS: nat := 5

  const FAILED: int := -1 // from fseek and fclose
  const ENOENT: int := 2
  const EEXIST: int := 17
  const EMFILE: int := 24

  // ---------- state ----------

  datatype Slot = Slot(
    id: u16, file: Option<Handle>, fname: Name,
    tid: byte, header: u16, entries: seq<Entry>, count: nat)

  datatype Pool = Pool(slots: seq<Slot>, used: seq<nat>, unused: seq<nat>, fs: Store)

  /** The 19 entries of an error reply that the handler leaves uninitialised. */
  type Junk = es: seq<Entry> | |es| == 19 witness Blank(19)

  /** Everything the C library answers while one command is handled. */
  datatype Env = Env(reopens: bool, creates: bool, seeks: bool, written: nat, closes: bool, junk: Junk)

  datatype Input = Input(req: Request, env: Env)

  /** A command packet as the handlers read it. */
  function Receive(p: Command, env: Env): Input {
    Input(Parse(p), env)
  }

  /** What is done with the packet buffer: sent back as telemetry, or freed. */
  datatype Effect = Sent(reply: Reply) | Freed

  datatype Outcome = Outcome(st: Pool, effects: seq<Effect>)

  // ---------- lists ----------

  ghost predicate NoDup(s: seq<nat>) {
    s != [] ==> s[0] !in s[1..] && NoDup(s[1..])
  }

  lemma {:induction false} AppendNoDup(s: seq<nat>, x: nat)
    requires NoDup(s) && x !in s
    ensures NoDup(s + [x])
  {
    if s != [] {
      AppendNoDup(s[1..], x);
      assert (s + [x])[1..] == s[1..] + [x];
    }
  }

  /** Removal of the first occurrence, as `g_slist_remove` does it. */
  function Remove(s: seq<nat>, x: nat): (r: seq<nat>)
    ensures x !in s ==> r == s
    ensures forall y :: y in r ==> y in s
    ensures forall y :: y in s && y != x ==> y in r
    ensures x in s ==> |r| == |s| - 1
  {
    if s == [] then []
    else if s[0] == x then s[1..]
    else [s[0]] + Remove(s[1..], x)
  }

  lemma {:induction false} RemoveNoDup(s: seq<nat>, x: nat)
    requires NoDup(s)
    ensures NoDup(Remove(s, x)) && x !in Remove(s, x)
  {
    if s != [] && s[0] != x {
      RemoveNoDup(s[1..], x);
    }
  }

  lemma {:induction false} RemoveLast(s: seq<nat>, x: nat)
    requires x !in s
    ensures Remove(s + [x], x) == s
  {
    if s != [] {
      assert (s + [x])[1..] == s[1..] + [x];
      RemoveLast(s[1..], x);
    }
  }

  ghost predicate InRange(s: seq<nat>) {
    forall k :: 0 <= k < |s| ==> s[k] < SESSIONS
  }

  /** The first slot of the used list with this session id. */
  function SearchUsed(slots: seq<Slot>, used: seq<nat>, sid: u16): (r: Option<nat>)
    requires |slots| == SESSIONS && InRange(used)
    ensures r.Some? ==> r.value in used && r.value < SESSIONS && slots[r.value].id == sid
  {
    if used == [] then None
    else if slots[used[0]].id == sid then Some(used[0])
    else SearchUsed(slots, used[1..], sid)
  }

  lemma {:induction false} SearchAfterAppend(slots: seq<Slot>, used: seq<nat>, i: nat, s: Slot, sid: u16)
    requires |slots| == SESSIONS && InRange(used + [i]) && InRange(used) && i !in used && i < SESSIONS
    ensures SearchUsed(slots[i := s], used + [i], sid) ==
      if SearchUsed(slots, used, sid).Some? then SearchUsed(slots, used, sid)
      else if s.id == sid then Some(i) else None
  {
    if used != [] {
      assert (used + [i])[1..] == used[1..] + [i];
      assert used[0] in used;
      SearchAfterAppend(slots, used[1..], i, s, sid);
    }
  }

  lemma {:induction false} SearchAfterRemove(slots: seq<Slot>, used: seq<nat>, i: nat, sid: u16)
    requires |slots| == SESSIONS && InRange(used) && InRange(Remove(used, i)) && i in used && NoDup(used)
    requires SearchUsed(slots, used, slots[i].id) == Some(i)
    requires sid != slots[i].id
    ensures SearchUsed(slots, Remove(used, i), sid) == SearchUsed(slots, used, sid)
  {
    if used[0] != i {
      assert Remove(used, i)[1..] == Remove(used[1..], i);
      SearchAfterRemove(slots, used[1..], i, sid);
    }
  }

  lemma {:induction false} SearchSameIds(slots: seq<Slot>, slots': seq<Slot>, used: seq<nat>, sid: u16)
    requires |slots| == |slots'| == SESSIONS && InRange(used)
    requires forall i :: 0 <= i < SESSIONS && i in used ==> slots'[i].id == slots[i].id
    ensures SearchUsed(slots', used, sid) == SearchUsed(slots, used, sid)
  {
    if used != [] {
      assert used[0] in used;
      SearchSameIds(slots, slots', used[1..], sid);
    }
  }

  // ---------- invariant ----------

  /** The used and the unused list share out the five slots. */
  ghost predicate Shared(used: seq<nat>, unused: seq<nat>) {
    && NoDup(used) && NoDup(unused)
    && |used| + |unused| == SESSIONS
    && InRange(used) && InRange(unused)
    && (forall i :: 0 <= i < SESSIONS ==> (i in used <==> i !in unused))
  }

  lemma SharedAfterTake(used: seq<nat>, unused: seq<nat>)
    requires Shared(used, unused) && unused != []
    ensures Shared(used + [unused[0]], unused[1..])
    ensures Shared(used, unused[1..] + [unused[0]])
  {
    assert unused == [unused[0]] + unused[1..];
    assert unused[0] in unused;
    AppendNoDup(used, unused[0]);
    AppendNoDup(unused[1..], unused[0]);
  }

  lemma SharedAfterRelease(used: seq<nat>, unused: seq<nat>, i: nat)
    requires Shared(used, unused) && i in used
    ensures Shared(Remove(used, i), unused + [i])
  {
    RemoveNoDup(used, i);
    var rest := Remove(used, i);
    forall k | 0 <= k < |rest| ensures rest[k] < SESSIONS {
      assert rest[k] in used;
    }
    assert InRange(rest);
    AppendNoDup(unused, i);
  }

  ghost predicate ValidLists(st: Pool) {
    |st.slots| == SESSIONS && Shared(st.used, st.unused)
  }

  /** Session ids of used slots are distinct: the search for one finds that very slot. */
  ghost predicate ValidIds(slots: seq<Slot>, used: seq<nat>)
    requires |slots| == SESSIONS && InRange(used)
  {
    forall i {:trigger i in used} :: i in used ==> i < SESSIONS && SearchUsed(slots, used, slots[i].id) == Some(i)
  }

  lemma IdsAfterAppend(slots: seq<Slot>, used: seq<nat>, i: nat, s: Slot)
    requires |slots| == SESSIONS && InRange(used + [i]) && InRange(used) && i !in used && i < SESSIONS
    requires ValidIds(slots, used) && SearchUsed(slots, used, s.id).None?
    ensures ValidIds(slots[i := s], used + [i])
  {
    forall k | k in used + [i]
      ensures k < SESSIONS && SearchUsed(slots[i := s], used + [i], slots[i := s][k].id) == Some(k)
    {
      SearchAfterAppend(slots, used, i, s, slots[i := s][k].id);
    }
  }

  lemma IdsAfterRemove(slots: seq<Slot>, used: seq<nat>, i: nat)
    requires |slots| == SESSIONS && InRange(used) && InRange(Remove(used, i)) && i in used && NoDup(used)
    requires ValidIds(slots, used)
    ensures ValidIds(slots, Remove(used, i))
  {
    assert i !in Remove(used, i) by { RemoveNoDup(used, i); }
    forall k | k in Remove(used, i)
      ensures k < SESSIONS && SearchUsed(slots, Remove(used, i), slots[k].id) == Some(k)
    {
      assert k in used;
      SearchAfterRemove(slots, used, i, slots[k].id);
    }
  }

  lemma IdsUnmoved(slots: seq<Slot>, slots': seq<Slot>, used: seq<nat>)
    requires |slots| == |slots'| == SESSIONS && InRange(used)
    requires ValidIds(slots, used)
    requires forall i :: 0 <= i < SESSIONS && i in used ==> slots'[i].id == slots[i].id
    ensures ValidIds(slots', used)
  {
    forall k | k in used ensures k < SESSIONS && SearchUsed(slots', used, slots'[k].id) == Some(k) {
      SearchSameIds(slots, slots', used, slots'[k].id);
    }
  }

  /** Every used slot has an open stream of its own on the file it names, and there are no more
      open streams than used slots. */
  ghost predicate ValidStreams(st: Pool)
    requires ValidLists(st)
  {
    && ValidStore(st.fs)
    && (forall i {:trigger i in st.used} :: i in st.used ==>
        && st.slots[i].file.Some? && st.slots[i].file.value in st.fs.live
        && st.fs.live[st.slots[i].file.value] == st.slots[i].fname)
    && (forall i, j {:trigger st.slots[i].file, st.slots[j].file} ::
        i in st.used && j in st.used && i != j ==> st.slots[i].file != st.slots[j].file)
    && |st.fs.live| == |st.used|
  }

  /** Room for one more entry, nothing but zeros past the pending ones, and every pending entry
      acknowledges a full chunk of a session that was found. */
  ghost predicate ValidBuffer(s: Slot) {
    && |s.entries| == REPLY_ENTRIES
    && s.count < REPLY_ENTRIES
    && (forall k :: s.count <= k < REPLY_ENTRIES ==> s.entries[k] == NO_ENTRY)
    && (forall k :: 0 <= k < s.count ==> s.entries[k].size == UPLOAD_DATA_LEN)
    && (forall k :: 0 <= k < s.count ==> s.entries[k].code != ToU32(-ENOENT))
  }

  ghost predicate Valid(st: Pool) {
    && ValidLists(st) && ValidIds(st.slots, st.used) && ValidStreams(st)
    && forall i :: 0 <= i < SESSIONS ==> ValidBuffer(st.slots[i])
  }

  const FREE_SLOT := Slot(0, None, [], 0, 0, Blank(REPLY_ENTRIES), 0)

  function FreshPool(files: map<Name, Bytes>): (st: Pool)
    ensures Valid(st)
  {
    AllUnused();
    Pool(seq(SESSIONS, _ => FREE_SLOT), [], [0, 1, 2, 3, 4], Store(files, map[], 0))
  }

  lemma AllUnused()
    ensures Shared([], [0, 1, 2, 3, 4])
  {
  }

  type State = st: Pool | Valid(st) ghost witness FreshPool(map[])

  /** After `upload_handler_init`, over whatever files there are. */
  function Init(files: map<Name, Bytes>): State {
    FreshPool(files)
  }

  function Search(st: State, sid: u16): (r: Option<nat>)
    ensures r.Some? ==> r.value in st.used && st.slots[r.value].id == sid
  {
    SearchUsed(st.slots, st.used, sid)
  }

  function Pending(s: Slot): seq<Entry>
    requires ValidBuffer(s)
  {
    s.entries[..s.count]
  }

  // ---------- OPEN ----------

  /** A failed `fopen` puts the slot at the back of the unused list, with the id and the name
      stored in it, and still yields 0. */
  function OpenFile(st: State, sid: u16, name: Name, env: Env): (Pool, int)
  {
    if Search(st, sid).Some? then (st, -EEXIST)
    else if st.unused == [] then (st, -EMFILE)
    else
      var i := st.unused[0];
      var (fs, file) := Fopen(st.fs, name, env.reopens, env.creates);
      var slots := st.slots[i := st.slots[i].(file := file, id := sid, fname := name)];
      if file.None? then (Pool(slots, st.used, st.unused[1..] + [i], fs), 0)
      else (Pool(slots, st.used + [i], st.unused[1..], fs), 0)
  }

  function OpenCmd(st: State, sid: u16, name: Name, env: Env): Outcome
    requires |name| < FILE_NAME_MAX_LEN && 0 !in name
  {
    var (st', ret) := OpenFile(st, sid, name, env);
    Outcome(st', [Sent(OpenReply(OPEN_CMD, ToU32(ret), sid, name))])
  }

  // ---------- DATA ----------

  /** The result of `write_upload_file`: the count written, or -1 when the seek failed. */
  function WriteResult(env: Env, size: nat): int {
    if !env.seeks then FAILED else if env.written < size then env.written else size
  }

  function WriteFile(st: State, i: nat, offset: u32, payload: Bytes, env: Env): Store
    requires i in st.used
  {
    if !env.seeks then st.fs
    else Fwrite(st.fs, st.slots[i].file.value, offset, payload[..WriteResult(env, |payload|)])
  }

  function Stack(s: Slot, ret: int, offset: u32, size: u32): Slot
    requires ValidBuffer(s)
  {
    s.(tid := DATA_CMD, header := s.id,
       entries := s.entries[s.count := Entry(ToU32(ret), offset, size)], count := s.count + 1)
  }

  /** A reply is due when the buffer is full or the chunk is not a full one. */
  predicate FlushDue(count: nat, size: u32) {
    count >= REPLY_ENTRIES || size != UPLOAD_DATA_LEN
  }

  function DataErr(sid: u16, ret: int, offset: u32, size: u32, junk: Junk): Effect {
    Sent(DataReply(DATA_CMD, sid, [Entry(ToU32(ret), offset, size)] + junk))
  }

  /** A DATA whose seek failed is acknowledged like any other, and its packet, already consumed,
      is then sent once more as an error reply. */
  function DataCmd(st: State, sid: u16, offset: u32, payload: Bytes, env: Env): Outcome
    requires |payload| <= UPLOAD_DATA_LEN
  {
    var size := |payload|;
    match Search(st, sid)
    case None => Outcome(st, [DataErr(sid, -ENOENT, offset, size, env.junk)])
    case Some(i) =>
      var ret := WriteResult(env, size);
      var s := Stack(st.slots[i], ret, offset, size);
      var flush := FlushDue(s.count, size);
      var s' := if flush then s.(entries := Blank(REPLY_ENTRIES), count := 0) else s;
      Outcome(
        st.(slots := st.slots[i := s'], fs := WriteFile(st, i, offset, payload, env)),
        [if flush then Sent(DataReply(s.tid, s.header, s.entries)) else Freed]
        + if ret < 0 then [DataErr(sid, ret, offset, size, env.junk)] else [])
  }

  // ---------- CLOSE ----------

  function CloseFile(st: State, sid: u16, env: Env): (Pool, int)
  {
    match Search(st, sid)
    case None => (st, -ENOENT)
    case Some(i) =>
      (st.(used := Remove(st.used, i), unused := st.unused + [i],
           fs := Fclose(st.fs, st.slots[i].file.value)),
       if env.closes then 0 else FAILED)
  }

  function CloseCmd(st: State, sid: u16, env: Env): Outcome
  {
    var (st', ret) := CloseFile(st, sid, env);
    Outcome(st', [Sent(CloseReply(CLOSE_CMD, ToU32(ret), sid))])
  }

  // ---------- one command, and a run of them ----------

  function Handle(st: State, input: Input): Outcome {
    var env := input.env;
    match input.req
    case Open(sid, name) => OpenCmd(st, sid, name, env)
    case Data(sid, offset, payload) => DataCmd(st, sid, offset, payload, env)
    case Close(sid) => CloseCmd(st, sid, env)
    case BadOpen => Outcome(st, [Sent(OpenReply(OPEN_CMD, ToU32(-EINVAL), 0, []))])
    case BadData => Outcome(st, [DataErr(0, -EINVAL, 0, 0, env.junk)])
    case BadClose => Outcome(st, [Sent(CloseReply(CLOSE_CMD, ToU32(-EINVAL), 0))])
    case Unknown => Outcome(st, [Sent(ErrReply(UNKNOWN_CMD, ToU32(-EINVAL)))])
  }

  /** Every command keeps the pool invariant: this is what makes `Handle`'s result a `State`. */
  lemma HandleValid(st: State, input: Input)
    ensures Valid(Handle(st, input).st)
  {
    match input.req
    case Open(sid, name) => OpenValid(st, sid, name, input.env);
    case Data(sid, offset, payload) => DataValid(st, sid, offset, payload, input.env);
    case Close(sid) => CloseValid(st, sid, input.env);
    case _ =>
  }

  function Step(st: State, input: Input): State {
    HandleValid(st, input);
    Handle(st, input).st
  }

  function Effects(st: State, input: Input): seq<Effect> {
    Handle(st, input).effects
  }

  lemma OpenValid(st: State, sid: u16, name: Name, env: Env)
    ensures Valid(OpenFile(st, sid, name, env).0)
  {
    if Search(st, sid).None? && st.unused != [] {
      var i := st.unused[0];
      assert i in st.unused && i !in st.used;
      SharedAfterTake(st.used, st.unused);
      var (fs, file) := Fopen(st.fs, name, env.reopens, env.creates);
      var s := st.slots[i].(file := file, id := sid, fname := name);
      if file.Some? {
        SlotTaken(st, i, s, fs);
      } else {
        SlotReturned(st, i, s);
      }
    }
  }

  lemma SlotTaken(st: State, i: nat, s: Slot, fs: Store)
    requires st.unused != [] && i == st.unused[0] && i < SESSIONS && i !in st.used
    requires Shared(st.used + [i], st.unused[1..])
    requires ValidBuffer(s) && Search(st, s.id).None?
    requires ValidStore(fs) && s.file == Some(st.fs.next) && fs.live == st.fs.live[st.fs.next := s.fname]
    ensures Valid(Pool(st.slots[i := s], st.used + [i], st.unused[1..], fs))
  {
    var st' := Pool(st.slots[i := s], st.used + [i], st.unused[1..], fs);
    IdsAfterAppend(st.slots, st.used, i, s);
    assert ValidStreams(st');
  }

  lemma SlotReturned(st: State, i: nat, s: Slot)
    requires st.unused != [] && i == st.unused[0] && i < SESSIONS && i !in st.used
    requires Shared(st.used, st.unused[1..] + [i])
    requires ValidBuffer(s)
    ensures Valid(Pool(st.slots[i := s], st.used, st.unused[1..] + [i], st.fs))
  {
    var st' := Pool(st.slots[i := s], st.used, st.unused[1..] + [i], st.fs);
    IdsUnmoved(st.slots, st'.slots, st.used);
    assert ValidStreams(st');
  }

  lemma DataValid(st: State, sid: u16, offset: u32, payload: Bytes, env: Env)
    requires |payload| <= UPLOAD_DATA_LEN
    ensures Valid(DataCmd(st, sid, offset, payload, env).st)
  {
    var st' := DataCmd(st, sid, offset, payload, env).st;
    if Search(st, sid).Some? {
      var i := Search(st, sid).value;
      SameSessions(st, i, st'.slots[i], st'.fs);
    }
  }

  /** Nothing but the acknowledgement buffer of a used slot and the file contents has changed. */
  lemma SameSessions(st: State, i: nat, s: Slot, fs: Store)
    requires i in st.used && ValidBuffer(s)
    requires s.id == st.slots[i].id && s.file == st.slots[i].file && s.fname == st.slots[i].fname
    requires ValidStore(fs) && fs.live == st.fs.live
    ensures Valid(st.(slots := st.slots[i := s], fs := fs))
  {
    var st' := st.(slots := st.slots[i := s], fs := fs);
    assert forall k :: 0 <= k < SESSIONS ==>
      && st'.slots[k].id == st.slots[k].id && st'.slots[k].file == st.slots[k].file
      && st'.slots[k].fname == st.slots[k].fname;
    IdsUnmoved(st.slots, st'.slots, st.used);
  }

  lemma CloseValid(st: State, sid: u16, env: Env)
    ensures Valid(CloseFile(st, sid, env).0)
  {
    var st' := CloseFile(st, sid, env).0;
    if Search(st, sid).Some? {
      var i := Search(st, sid).value;
      SharedAfterRelease(st.used, st.unused, i);
      IdsAfterRemove(st.slots, st.used, i);
      assert i !in st'.used by { RemoveNoDup(st.used, i); }
    }
  }

  /** The state after a run of commands. */
  function After(st: State, ins: seq<Input>): State {
    if ins == [] then st else Step(After(st, ins[..|ins| - 1]), ins[|ins| - 1])
  }

  /** The state in which the `k`-th command of the run is handled. */
  function At(st: State, ins: seq<Input>, k: nat): State
    requires k <= |ins|
  {
    After(st, ins[..k])
  }

  /** What becomes of the `k`-th command's packet. */
  function EffectsAt(st: State, ins: seq<Input>, k: nat): seq<Effect>
    requires k < |ins|
  {
    Effects(At(st, ins, k), ins[k])
  }

  /** All effects of a run of commands, in order. */
  function AllEffects(st: State, ins: seq<Input>): seq<Effect> {
    if ins == [] then [] else AllEffects(st, ins[..|ins| - 1]) + EffectsAt(st, ins, |ins| - 1)
  }

  lemma AfterSnoc(st: State, ins: seq<Input>, last: Input)
    ensures After(st, ins + [last]) == Step(After(st, ins), last)
  {
    Seqs.SnocPrefix(ins, last);
  }

  lemma {:induction false} AfterAppend(st: State, first: seq<Input>, second: seq<Input>)
    ensures After(st, first + second) == After(After(st, first), second)
  {
    if second == [] {
      assert first + second == first;
    } else {
      var n := |second| - 1;
      AfterAppend(st, first, second[..n]);
      Seqs.AppendSnoc(first, second);
      AfterSnoc(st, first + second[..n], second[n]);
    }
  }
}
