/** A run in which one reply holds the acknowledgements of two sessions. */
module MixedReply {
  import opened Wire
  import opened FileStore
  import opened Upload
  import opened Acks
  import opened Attribution
  import Sessions
  import Seqs

  const WELL := Env(true, true, true, UPLOAD_DATA_LEN, true, Blank(19))

  const FNAME: Name := [0x61]

  function OpenOf(sid: u16): Input { Input(Open(sid, FNAME), WELL) }

  function FullOf(sid: u16): Input { Input(Data(sid, 0, Zeros(UPLOAD_DATA_LEN)), WELL) }

  function ShortOf(sid: u16): Input { Input(Data(sid, 0, [1]), WELL) }

  function CloseOf(sid: u16): Input { Input(Close(sid), WELL) }

  /** What a full chunk of the run is acknowledged with, and what a short one is. */
  const FULL_ACK := Entry(UPLOAD_DATA_LEN, 0, UPLOAD_DATA_LEN)
  const SHORT_ACK := Entry(1, 0, 1)

  /** The ids in use, the slots still free, and what slot 0 has pending. */
  ghost predicate Looks(st: State, ids: set<u16>, unused: seq<nat>, pending: seq<Entry>) {
    && Sessions.Registry(st).Keys == ids && st.unused == unused && Pending(st.slots[0]) == pending
  }

  lemma OpenLists(st: State, sid: u16)
    requires sid !in Sessions.Registry(st) && st.unused != []
    ensures Step(st, OpenOf(sid)).unused == st.unused[1..]
    ensures OpensInto(st, OpenOf(sid), st.unused[0])
  {
    Sessions.FreshSlot(st);
  }

  lemma OpenIds(st: State, sid: u16)
    requires sid !in Sessions.Registry(st) && st.unused != []
    ensures Sessions.Registry(Step(st, OpenOf(sid))).Keys == Sessions.Registry(st).Keys + {sid}
  {
    Sessions.OpenSessions(st, sid, FNAME, WELL, Step(st, OpenOf(sid)));
    Sessions.RegistrySize(st);
  }

  lemma OpenSearch(st: State, sid: u16)
    requires sid !in Sessions.Registry(st) && st.unused != []
    ensures Search(Step(st, OpenOf(sid)), sid) == Some(st.unused[0])
  {
    Sessions.FreshSlot(st);
    Sessions.SearchAfterOpen(st, sid, FNAME, WELL, sid, Step(st, OpenOf(sid)));
  }

  lemma OpenLooks(st: State, sid: u16, ids: set<u16>, unused: seq<nat>, pending: seq<Entry>)
    requires Looks(st, ids, unused, pending) && sid !in ids && unused != []
    ensures Looks(Step(st, OpenOf(sid)), ids + {sid}, unused[1..], pending)
  {
    OpenLists(st, sid);
    OpenIds(st, sid);
    OtherCommand(st, OpenOf(sid), 0);
  }

  lemma AckOfWell(st: State, sid: u16, chunk: Input)
    requires Search(st, sid).Some?
    requires chunk == FullOf(sid) || chunk == ShortOf(sid)
    ensures AckOf(st, chunk) == if chunk == FullOf(sid) then FULL_ACK else SHORT_ACK
  {
  }

  lemma FullPending(st: State, sid: u16)
    requires Search(st, sid) == Some(0) && Pending(st.slots[0]) == []
    ensures Pending(Step(st, FullOf(sid)).slots[0]) == [FULL_ACK]
    ensures Step(st, FullOf(sid)).unused == st.unused
    ensures !Flushes(st, FullOf(sid), 0)
  {
    AcceptedData(st, FullOf(sid), 0);
    AckOfWell(st, sid, FullOf(sid));
  }

  lemma FullLooks(st: State, sid: u16, ids: set<u16>, unused: seq<nat>)
    requires Looks(st, ids, unused, []) && Search(st, sid) == Some(0)
    ensures Looks(Step(st, FullOf(sid)), ids, unused, [FULL_ACK])
    ensures Search(Step(st, FullOf(sid)), sid) == Some(0)
  {
    Sessions.DataSessions(st, sid, 0, Zeros(UPLOAD_DATA_LEN), WELL, Step(st, FullOf(sid)));
    FullPending(st, sid);
    SearchSameIds(st.slots, Step(st, FullOf(sid)).slots, st.used, sid);
  }

  lemma CloseLooks(st: State, sid: u16, ids: set<u16>, unused: seq<nat>, pending: seq<Entry>)
    requires Looks(st, ids, unused, pending) && Search(st, sid) == Some(0)
    ensures Looks(Step(st, CloseOf(sid)), ids - {sid}, unused + [0], pending)
  {
    Sessions.CloseSessions(st, sid, WELL, Step(st, CloseOf(sid)));
    OtherCommand(st, CloseOf(sid), 0);
  }

  /** Opening new sessions one after the other uses up the free slots in order. */
  function Opens(sids: seq<u16>): seq<Input> {
    if sids == [] then [] else Opens(sids[..|sids| - 1]) + [OpenOf(sids[|sids| - 1])]
  }

  ghost function Ids(sids: seq<u16>): set<u16> { set s | s in sids }

  ghost predicate Fresh(sids: seq<u16>) {
    sids != [] ==> sids[|sids| - 1] !in sids[..|sids| - 1] && Fresh(sids[..|sids| - 1])
  }

  lemma {:induction false} OpensLook(st: State, sids: seq<u16>, ids: set<u16>, unused: seq<nat>, pending: seq<Entry>)
    requires Looks(st, ids, unused, pending) && |sids| <= |unused|
    requires Fresh(sids) && Ids(sids) !! ids
    ensures Looks(After(st, Opens(sids)), ids + Ids(sids), unused[|sids|..], pending)
  {
    if sids != [] {
      var n := |sids| - 1;
      assert Ids(sids[..n]) <= Ids(sids);
      OpensLook(st, sids[..n], ids, unused, pending);
      OneMoreOpen(After(st, Opens(sids[..n])), sids, ids, unused, pending);
      AfterSnoc(st, Opens(sids[..n]), OpenOf(sids[n]));
    } else {
      assert ids + Ids(sids) == ids;
    }
  }

  lemma OneMoreOpen(st: State, sids: seq<u16>, ids: set<u16>, unused: seq<nat>, pending: seq<Entry>)
    requires sids != [] && |sids| <= |unused| && Fresh(sids) && Ids(sids) !! ids
    requires Looks(st, ids + Ids(sids[..|sids| - 1]), unused[|sids| - 1..], pending)
    ensures Looks(Step(st, OpenOf(sids[|sids| - 1])), ids + Ids(sids), unused[|sids|..], pending)
  {
    var n := |sids| - 1;
    IdsSnoc(sids, ids);
    OpenLooks(st, sids[n], ids + Ids(sids[..n]), unused[n..], pending);
    assert unused[n..][1..] == unused[n + 1..];
  }

  lemma IdsSnoc(sids: seq<u16>, ids: set<u16>)
    requires sids != [] && Fresh(sids) && Ids(sids) !! ids
    ensures sids[|sids| - 1] !in ids + Ids(sids[..|sids| - 1])
    ensures ids + Ids(sids) == ids + Ids(sids[..|sids| - 1]) + {sids[|sids| - 1]}
  {
    Seqs.Unsnoc(sids);
    assert sids[|sids| - 1] in Ids(sids);
  }

  lemma OneStep(st: State, x: Input)
    ensures After(st, [x]) == Step(st, x)
  {
    AfterSnoc(st, [], x);
    assert [] + [x] == [x];
  }

  lemma ThreeSteps(st: State, x: Input, y: Input, z: Input)
    ensures After(st, ([x] + [y]) + [z]) == Step(Step(Step(st, x), y), z)
  {
    OneStep(st, x);
    AfterSnoc(st, [x], y);
    AfterSnoc(st, [x] + [y], z);
  }

  function OneSession(a: u16): seq<Input> { ([OpenOf(a)] + [FullOf(a)]) + [CloseOf(a)] }

  lemma SessionLooks(st: State, a: u16)
    requires Looks(st, {}, [0, 1, 2, 3, 4], [])
    ensures Looks(Step(Step(Step(st, OpenOf(a)), FullOf(a)), CloseOf(a)), {}, [1, 2, 3, 4] + [0], [FULL_ACK])
  {
    OpenLooks(st, a, {}, [0, 1, 2, 3, 4], []);
    OpenSearch(st, a);
    FullLooks(Step(st, OpenOf(a)), a, {} + {a}, [0, 1, 2, 3, 4][1..]);
    CloseLooks(Step(Step(st, OpenOf(a)), FullOf(a)), a, {a}, [1, 2, 3, 4], [FULL_ACK]);
  }

  /** Session `a` sends one full chunk and closes; four others open; session `b` then gets the
      slot that `a` had. */
  function MixingRun(a: u16, others: seq<u16>, b: u16): seq<Input> {
    (OneSession(a) + Opens(others)) + [OpenOf(b)]
  }

  lemma OthersLook(st: State, others: seq<u16>)
    requires Looks(st, {}, [1, 2, 3, 4] + [0], [FULL_ACK])
    requires |others| == 4 && Fresh(others)
    ensures Looks(After(st, Opens(others)), Ids(others), [0], [FULL_ACK])
  {
    OpensLook(st, others, {}, [1, 2, 3, 4] + [0], [FULL_ACK]);
    assert ([1, 2, 3, 4] + [0])[4..] == [0];
    assert {} + Ids(others) == Ids(others);
  }

  /** The slot of session `a` is free again, and the only one that is. */
  lemma FiveSessions(st: State, a: u16, others: seq<u16>)
    requires Looks(st, {}, [0, 1, 2, 3, 4], [])
    requires |others| == 4 && Fresh(others)
    ensures Looks(After(st, OneSession(a) + Opens(others)), Ids(others), [0], [FULL_ACK])
  {
    SessionLooks(st, a);
    ThreeSteps(st, OpenOf(a), FullOf(a), CloseOf(a));
    OthersLook(After(st, OneSession(a)), others);
    AfterAppend(st, OneSession(a), Opens(others));
  }

  ghost predicate NoData(ins: seq<Input>) {
    forall k :: 0 <= k < |ins| ==> !ins[k].req.Data?
  }

  lemma {:induction false} OpensNoData(sids: seq<u16>)
    ensures NoData(Opens(sids))
  {
    if sids != [] {
      OpensNoData(sids[..|sids| - 1]);
    }
  }

  /** Without DATA commands nobody is owed more or less. */
  lemma {:induction false} SameLedger(st: State, first: seq<Input>, second: seq<Input>, j: nat)
    requires NoData(second)
    ensures Ledger(st, first + second, j) == Ledger(st, first, j)
  {
    if second == [] {
      assert first + second == first;
    } else {
      var n := |second| - 1;
      SameLedger(st, first, second[..n], j);
      Seqs.AppendSnoc(first, second);
      Seqs.SnocPrefix(first + second[..n], second[n]);
    }
  }

  /** The stream that session `a` is opened with. */
  ghost function FirstStream(st: State, a: u16): Handle
    requires 0 in Step(st, OpenOf(a)).used
  {
    Owner(Step(st, OpenOf(a)), 0)
  }

  lemma FullLedger(st: State, ins: seq<Input>, a: u16)
    requires Search(After(st, ins), a) == Some(0)
    requires PendingAfter(st, ins, 0) == [] && Ledger(st, ins, 0) == []
    ensures Ledger(st, ins + [FullOf(a)], 0) == [Owed(FULL_ACK, Owner(After(st, ins), 0))]
  {
    Seqs.SnocPrefix(ins, FullOf(a));
    FullPending(After(st, ins), a);
    AckOfWell(After(st, ins), a, FullOf(a));
  }

  lemma FirstLedger(st: State, a: u16)
    requires Looks(st, {}, [0, 1, 2, 3, 4], [])
    ensures 0 in Step(st, OpenOf(a)).used
    ensures Ledger(st, [OpenOf(a)] + [FullOf(a)], 0) == [Owed(FULL_ACK, FirstStream(st, a))]
  {
    OpenSearch(st, a);
    OneStep(st, OpenOf(a));
    OtherCommand(st, OpenOf(a), 0);
    SameLedger(st, [], [OpenOf(a)], 0);
    assert [] + [OpenOf(a)] == [OpenOf(a)];
    FullLedger(st, [OpenOf(a)], a);
  }

  /** The rest of the run neither flushes nor adds to what session `a` left behind. */
  lemma QuietRest(st: State, a: u16, others: seq<u16>, b: u16)
    ensures Ledger(st, MixingRun(a, others, b), 0) == Ledger(st, [OpenOf(a)] + [FullOf(a)], 0)
  {
    SameLedger(st, [OpenOf(a)] + [FullOf(a)], [CloseOf(a)], 0);
    OpensNoData(others);
    SameLedger(st, OneSession(a), Opens(others), 0);
    SameLedger(st, OneSession(a) + Opens(others), [OpenOf(b)], 0);
  }

  /** After the run, a short DATA of session `b` gets a reply that names `b` and holds two entries:
      one that was carried over, owed to the session with stream `h`, and one owed to `b`. */
  ghost predicate Mixes(st: State, run: seq<Input>, h: Handle, b: u16) {
    var s := After(st, run);
    && Search(s, b) == Some(0) && Flushes(s, ShortOf(b), 0)
    && Effects(s, ShortOf(b))[0] == Sent(DataReply(DATA_CMD, b, Padded([FULL_ACK, SHORT_ACK])))
    && CarriedEntries(st, run, 0) == [FULL_ACK]
    && FlushedLedger(st, run, 0, ShortOf(b)) == [Owed(FULL_ACK, h), Owed(SHORT_ACK, Owner(s, 0))]
    && h != Owner(s, 0)
  }

  /** From power-up, for any distinct session ids: the reply names `b`, and its first entry is owed
      to `a`. */
  lemma ReplyMixesSessions(files: map<Name, Bytes>, a: u16, others: seq<u16>, b: u16)
    requires |others| == 4 && Fresh(others) && b !in others
    ensures 0 in Step(Init(files), OpenOf(a)).used
    ensures Mixes(Init(files), MixingRun(a, others, b), FirstStream(Init(files), a), b)
  {
    NothingOpen(files);
    MixedFrom(Init(files), a, others, b);
  }

  lemma MixedFrom(st: State, a: u16, others: seq<u16>, b: u16)
    requires Looks(st, {}, [0, 1, 2, 3, 4], [])
    requires |others| == 4 && Fresh(others) && b !in others
    ensures 0 in Step(st, OpenOf(a)).used
    ensures Mixes(st, MixingRun(a, others, b), FirstStream(st, a), b)
  {
    FiveSessions(st, a, others);
    LastOpen(st, OneSession(a) + Opens(others), others, b);
    FirstLedger(st, a);
    QuietRest(st, a, others, b);
    TwoOwners(st, MixingRun(a, others, b), b, FirstStream(st, a));
  }

  lemma FirstOwner(st: State, ins: seq<Input>)
    requires Pending(st.slots[0]) == [] && 0 in After(st, ins).used
    requires |CarriedEntries(st, ins, 0)| == 1
    ensures Ledger(st, ins, 0) != [] && Ledger(st, ins, 0)[0].owner != Owner(After(st, ins), 0)
  {
    CarriedComeFirst(st, ins, 0);
    PendingSplits(st, ins, 0);
  }

  lemma TwoOwners(st: State, ins: seq<Input>, b: u16, h: Handle)
    requires Pending(st.slots[0]) == [] && Flushes(After(st, ins), ShortOf(b), 0)
    requires Ledger(st, ins, 0) == [Owed(FULL_ACK, h)] && CarriedEntries(st, ins, 0) == [FULL_ACK]
    ensures FlushedLedger(st, ins, 0, ShortOf(b)) == [Owed(FULL_ACK, h), Owed(SHORT_ACK, Owner(After(st, ins), 0))]
    ensures h != Owner(After(st, ins), 0)
  {
    AckOfWell(After(st, ins), b, ShortOf(b));
    FirstOwner(st, ins);
  }

  lemma NothingOpen(files: map<Name, Bytes>)
    ensures Looks(Init(files), {}, [0, 1, 2, 3, 4], [])
  {
    assert Sessions.Registry(Init(files)).Keys == {};
  }

  lemma LastOpen(st: State, ins: seq<Input>, others: seq<u16>, b: u16)
    requires Looks(After(st, ins), Ids(others), [0], [FULL_ACK]) && b !in others
    ensures Search(After(st, ins + [OpenOf(b)]), b) == Some(0)
    ensures Flushes(After(st, ins + [OpenOf(b)]), ShortOf(b), 0)
    ensures Effects(After(st, ins + [OpenOf(b)]), ShortOf(b))[0]
         == Sent(DataReply(DATA_CMD, b, Padded([FULL_ACK, SHORT_ACK])))
    ensures CarriedEntries(st, ins + [OpenOf(b)], 0) == [FULL_ACK]
  {
    var s := After(st, ins);
    OpenLists(s, b);
    Seqs.SnocPrefix(ins, OpenOf(b));
    AfterSnoc(st, ins, OpenOf(b));
    OpenSearch(s, b);
    OpenLooks(s, b, Ids(others), [0], [FULL_ACK]);
    ShortReply(Step(s, OpenOf(b)), b);
  }

  lemma ShortReply(st: State, b: u16)
    requires Search(st, b) == Some(0) && Pending(st.slots[0]) == [FULL_ACK]
    ensures Flushes(st, ShortOf(b), 0)
    ensures Effects(st, ShortOf(b))[0] == Sent(DataReply(DATA_CMD, b, Padded([FULL_ACK, SHORT_ACK])))
  {
    AcceptedData(st, ShortOf(b), 0);
    AckOfWell(st, b, ShortOf(b));
    assert Batch(st, ShortOf(b), 0) == [FULL_ACK, SHORT_ACK];
  }
}
