/** Short runs from power-up in which the unexpected happens. */
module Witnesses {
  import opened Wire
  import opened FileStore
  import opened Upload
  import opened Acks
  import Attribution
  import MixedReply
  import Sessions
  import Seqs

  /** A chunk of one byte for which the seek fails. */
  function UnseekableOf(sid: u16): Input { Input(Data(sid, 0, [1]), MixedReply.WELL.(seeks := false)) }

  function EmptyOf(sid: u16): Input { Input(Data(sid, 0, []), MixedReply.WELL) }

  const FAILED_ACK := Entry(ToU32(FAILED), 0, 1)

  /** Power-up, and one session opened. */
  function Opened(files: map<Name, Bytes>, sid: u16): State {
    Step(Init(files), MixedReply.OpenOf(sid))
  }

  lemma OpenedSession(files: map<Name, Bytes>, sid: u16)
    ensures Search(Opened(files, sid), sid) == Some(0)
    ensures Pending(Opened(files, sid).slots[0]) == []
  {
    MixedReply.NothingOpen(files);
    MixedReply.OpenSearch(Init(files), sid);
    OtherCommand(Init(files), MixedReply.OpenOf(sid), 0);
  }

  lemma SecondCommand(files: map<Name, Bytes>, sid: u16, input: Input)
    ensures EffectsAt(Init(files), [MixedReply.OpenOf(sid)] + [input], 1) == Effects(Opened(files, sid), input)
  {
    MixedReply.OneStep(Init(files), MixedReply.OpenOf(sid));
    Seqs.SnocPrefix([MixedReply.OpenOf(sid)], input);
  }

  lemma FailedReplies(st: State, sid: u16)
    requires Search(st, sid) == Some(0) && Pending(st.slots[0]) == []
    ensures |Effects(st, UnseekableOf(sid))| == 2
    ensures Effects(st, UnseekableOf(sid))[0] == Sent(DataReply(DATA_CMD, sid, Padded([FAILED_ACK])))
    ensures Effects(st, UnseekableOf(sid))[1]
         == Sent(DataReply(DATA_CMD, sid, [FAILED_ACK] + UnseekableOf(sid).env.junk))
  {
    AcceptedData(st, UnseekableOf(sid), 0);
    Attribution.PacketConsumed(st, UnseekableOf(sid));
    assert Batch(st, UnseekableOf(sid), 0) == [FAILED_ACK];
  }

  /** A packet consumed twice: the batch reply and the error reply to one DATA carry the same
      acknowledgement, under the same id. */
  lemma SentTwice(files: map<Name, Bytes>, sid: u16)
    ensures EffectsAt(Init(files), [MixedReply.OpenOf(sid)] + [UnseekableOf(sid)], 1) ==
      [Sent(DataReply(DATA_CMD, sid, Padded([FAILED_ACK])))] +
      [Sent(DataReply(DATA_CMD, sid, [FAILED_ACK] + UnseekableOf(sid).env.junk))]
  {
    SecondCommand(files, sid, UnseekableOf(sid));
    OpenedSession(files, sid);
    FailedReplies(Opened(files, sid), sid);
  }

  lemma BlankReads()
    ensures Trim(Padded([NO_ENTRY])) == []
  {
    TrimPadded([NO_ENTRY], REPLY_ENTRIES - 1);
    assert [NO_ENTRY][..0] == [];
  }

  lemma EmptyReply(st: State, sid: u16)
    requires Search(st, sid) == Some(0) && Pending(st.slots[0]) == []
    ensures Effects(st, EmptyOf(sid)) == [Sent(DataReply(DATA_CMD, sid, Padded([NO_ENTRY])))]
    ensures Batch(st, EmptyOf(sid), 0) == [NO_ENTRY]
  {
    AcceptedData(st, EmptyOf(sid), 0);
    Attribution.PacketConsumed(st, EmptyOf(sid));
    BlankAck(st, EmptyOf(sid), 0);
    assert Batch(st, EmptyOf(sid), 0) == [NO_ENTRY];
  }

  /** A reply that the ground misreads: it carries one acknowledgement and shows none. */
  lemma ReadsAsEmpty(files: map<Name, Bytes>, sid: u16)
    ensures EffectsAt(Init(files), [MixedReply.OpenOf(sid)] + [EmptyOf(sid)], 1)
         == [Sent(DataReply(DATA_CMD, sid, Padded([NO_ENTRY])))]
    ensures Accepts(Opened(files, sid), EmptyOf(sid), 0)
    ensures Batch(Opened(files, sid), EmptyOf(sid), 0) == [NO_ENTRY]
    ensures Trim(Padded([NO_ENTRY])) == []
  {
    SecondCommand(files, sid, EmptyOf(sid));
    OpenedSession(files, sid);
    EmptyReply(Opened(files, sid), sid);
    BlankReads();
  }

  /** An OPEN without a file name, which no `fopen` accepts. */
  function NamelessOpen(sid: u16): Input {
    Input(Open(sid, []), MixedReply.WELL.(reopens := false, creates := false))
  }

  /** An OPEN that is answered 0 and leaves no session. */
  lemma AnsweredWithoutSession(files: map<Name, Bytes>, sid: u16)
    ensures Effects(Init(files), NamelessOpen(sid)) == [Sent(OpenReply(OPEN_CMD, 0, sid, []))]
    ensures sid !in Sessions.Registry(Step(Init(files), NamelessOpen(sid)))
  {
    MixedReply.NothingOpen(files);
    Sessions.AcceptedOpen(Init(files), NamelessOpen(sid), sid, []);
  }
}
