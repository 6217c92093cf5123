/** The batched acknowledgements of DATA commands: none lost, none repeated, none reordered. */
module Acks {
  import opened Wire
  import opened FileStore
  import opened Upload
  import Sessions
  import Seqs

  // ---------- what one command adds to a slot ----------

  /** The DATA command finds its session, in this slot. */
  predicate Accepts(st: State, input: Input, j: nat) {
    input.req.Data? && Search(st, input.req.sid) == Some(j)
  }

  /** The acknowledgement owed for an accepted DATA: its result, offset and size. */
  ghost function AckOf(st: State, input: Input): Entry
    requires input.req.Data?
  {
    var result := Sessions.Serve(Sessions.ViewOf(st), input.req, input.env).1;
    Entry(ToU32(result), input.req.offset, |input.req.payload|)
  }

  /** The pending entries and the new one. */
  ghost function Batch(st: State, input: Input, j: nat): seq<Entry>
    requires Accepts(st, input, j)
  {
    Pending(st.slots[j]) + [AckOf(st, input)]
  }

  predicate Flushes(st: State, input: Input, j: nat) {
    Accepts(st, input, j) && Effects(st, input) != [] && Effects(st, input)[0].Sent?
  }

  /** An accepted DATA either joins the batch, and its packet is freed, or completes it, and its
      packet carries the batch, padded with zeros to twenty entries, under the session's own id. */
  lemma AcceptedData(st: State, input: Input, j: nat)
    requires Accepts(st, input, j)
    ensures |Batch(st, input, j)| <= REPLY_ENTRIES
    ensures Flushes(st, input, j) <==>
      |Batch(st, input, j)| == REPLY_ENTRIES || |input.req.payload| != UPLOAD_DATA_LEN
    ensures Flushes(st, input, j) ==>
      && Effects(st, input)[0] == Sent(DataReply(DATA_CMD, input.req.sid, Padded(Batch(st, input, j))))
      && Pending(Step(st, input).slots[j]) == []
    ensures !Flushes(st, input, j) ==>
      && Effects(st, input) != [] && Effects(st, input)[0] == Freed
      && Pending(Step(st, input).slots[j]) == Batch(st, input, j)
  {
    var s := st.slots[j];
    var ret := WriteResult(input.env, |input.req.payload|);
    StackedEntries(s, ret, input.req.offset, |input.req.payload|);
  }

  function Padded(batch: seq<Entry>): (es: seq<Entry>)
    requires |batch| <= REPLY_ENTRIES
    ensures |es| == REPLY_ENTRIES
  {
    batch + Blank(REPLY_ENTRIES - |batch|)
  }

  lemma StackedEntries(s: Slot, ret: int, offset: u32, size: u32)
    requires ValidBuffer(s)
    ensures Stack(s, ret, offset, size).entries == Padded(Pending(s) + [Entry(ToU32(ret), offset, size)])
    ensures s.count + 1 <= REPLY_ENTRIES
    ensures Stack(s, ret, offset, size).entries[..s.count + 1] == Pending(s) + [Entry(ToU32(ret), offset, size)]
  {
  }

  /** No other command touches the acknowledgements of a slot: not OPEN, CLOSE, a DATA for
      another session, or a malformed command. */
  lemma OtherCommand(st: State, input: Input, j: nat)
    requires j < SESSIONS && !Accepts(st, input, j)
    ensures Step(st, input).slots[j].entries == st.slots[j].entries
    ensures Step(st, input).slots[j].count == st.slots[j].count
  {
  }

  // ---------- whole runs ----------

  /** Every acknowledgement owed by slot `j`, in order. */
  ghost function Accepted(st: State, ins: seq<Input>, j: nat): seq<Entry> {
    if ins == [] then []
    else
      var n := |ins| - 1;
      var s := At(st, ins, n);
      Accepted(st, ins[..n], j) + if Accepts(s, ins[n], j) then [AckOf(s, ins[n])] else []
  }

  /** The batch replies that slot `j` has sent, as they appear on the wire. */
  ghost function Replies(st: State, ins: seq<Input>, j: nat): seq<Reply> {
    if ins == [] then []
    else
      var n := |ins| - 1;
      var s := At(st, ins, n);
      Replies(st, ins[..n], j) + if Flushes(s, ins[n], j) then [Effects(s, ins[n])[0].reply] else []
  }

  /** The batches behind those replies. */
  ghost function Batches(st: State, ins: seq<Input>, j: nat): seq<seq<Entry>> {
    if ins == [] then []
    else
      var n := |ins| - 1;
      var s := At(st, ins, n);
      Batches(st, ins[..n], j) + if Flushes(s, ins[n], j) then [Batch(s, ins[n], j)] else []
  }

  ghost function PendingAfter(st: State, ins: seq<Input>, j: nat): seq<Entry>
    requires j < SESSIONS
  {
    Pending(After(st, ins).slots[j])
  }

  /** Conservation, for every slot and over every run: the flushed batches in order, and then the
      pending entries, are what was pending at the start followed by every acknowledgement owed. */
  lemma {:induction false} AcksConserved(st: State, ins: seq<Input>, j: nat)
    requires j < SESSIONS
    ensures Seqs.Flatten(Batches(st, ins, j)) + PendingAfter(st, ins, j)
         == Pending(st.slots[j]) + Accepted(st, ins, j)
  {
    if ins != [] {
      var n := |ins| - 1;
      AcksConserved(st, ins[..n], j);
      ConservedStep(At(st, ins, n), ins[n], j, Batches(st, ins[..n], j),
        Pending(st.slots[j]) + Accepted(st, ins[..n], j));
      var s := At(st, ins, n);
      Seqs.Assoc(Pending(st.slots[j]), Accepted(st, ins[..n], j), if Accepts(s, ins[n], j) then [AckOf(s, ins[n])] else []);
    }
  }

  lemma AcceptedConserves(s: State, input: Input, j: nat, sent: seq<Entry>)
    requires Accepts(s, input, j)
    ensures Flushes(s, input, j) ==>
      (sent + Batch(s, input, j)) + Pending(Step(s, input).slots[j]) == (sent + Pending(s.slots[j])) + [AckOf(s, input)]
    ensures !Flushes(s, input, j) ==>
      sent + Pending(Step(s, input).slots[j]) == (sent + Pending(s.slots[j])) + [AckOf(s, input)]
  {
    AcceptedData(s, input, j);
    Regroup(sent, Pending(s.slots[j]), AckOf(s, input));
  }

  lemma ConservedStep(s: State, input: Input, j: nat, batches: seq<seq<Entry>>, owed: seq<Entry>)
    requires j < SESSIONS
    requires Seqs.Flatten(batches) + Pending(s.slots[j]) == owed
    ensures Seqs.Flatten(batches + if Flushes(s, input, j) then [Batch(s, input, j)] else [])
        + Pending(Step(s, input).slots[j])
      == owed + if Accepts(s, input, j) then [AckOf(s, input)] else []
  {
    if Accepts(s, input, j) {
      AcceptedConserves(s, input, j, Seqs.Flatten(batches));
      if Flushes(s, input, j) {
        Seqs.FlattenSnoc(batches, Batch(s, input, j));
      } else {
        assert batches + [] == batches;
      }
    } else {
      OtherCommand(s, input, j);
      assert batches + [] == batches;
      assert owed + [] == owed;
    }
  }

  lemma Regroup<T>(a: seq<T>, b: seq<T>, x: T)
    ensures (a + b) + [x] == a + (b + [x])
    ensures a + (b + [x]) + [] == a + (b + [x])
  {
  }

  ghost predicate CarriedBy(reply: Reply, batch: seq<Entry>) {
    0 < |batch| <= REPLY_ENTRIES && reply.DataReply? && reply.entries == Padded(batch)
  }

  ghost predicate AllCarried(replies: seq<Reply>, batches: seq<seq<Entry>>) {
    |replies| == |batches| && forall i :: 0 <= i < |replies| ==> CarriedBy(replies[i], batches[i])
  }

  lemma CarriedSnoc(replies: seq<Reply>, batches: seq<seq<Entry>>, reply: Reply, batch: seq<Entry>)
    requires AllCarried(replies, batches) && CarriedBy(reply, batch)
    ensures AllCarried(replies + [reply], batches + [batch])
  {
  }

  lemma FlushIsCarried(st: State, input: Input, j: nat)
    requires Flushes(st, input, j)
    ensures CarriedBy(Effects(st, input)[0].reply, Batch(st, input, j))
  {
    AcceptedData(st, input, j);
  }

  /** On the wire each reply is its batch padded with zero entries. */
  lemma {:induction false} RepliesCarryBatches(st: State, ins: seq<Input>, j: nat)
    ensures AllCarried(Replies(st, ins, j), Batches(st, ins, j))
  {
    if ins != [] {
      var n := |ins| - 1;
      RepliesCarryBatches(st, ins[..n], j);
      var s := At(st, ins, n);
      if Flushes(s, ins[n], j) {
        FlushIsCarried(s, ins[n], j);
        CarriedSnoc(Replies(st, ins[..n], j), Batches(st, ins[..n], j), Effects(s, ins[n])[0].reply, Batch(s, ins[n], j));
      }
    }
  }

  // ---------- what the ground can read off a reply ----------

  /** The ground's reading of a reply: the entries without the zero padding. */
  function Trim(es: seq<Entry>): seq<Entry> {
    if es != [] && es[|es| - 1] == NO_ENTRY then Trim(es[..|es| - 1]) else es
  }

  lemma {:induction false} TrimPadded(batch: seq<Entry>, n: nat)
    ensures Trim(batch + Blank(n)) == Trim(batch)
  {
    if n > 0 {
      Seqs.SnocPrefix(batch + Blank(n - 1), NO_ENTRY);
      assert batch + Blank(n) == (batch + Blank(n - 1)) + [NO_ENTRY];
      TrimPadded(batch, n - 1);
    } else {
      assert batch + Blank(0) == batch;
    }
  }

  lemma {:induction false} TrimShortens(es: seq<Entry>)
    ensures |Trim(es)| <= |es|
    ensures es != [] && es[|es| - 1] == NO_ENTRY ==> Trim(es) != es
  {
    if es != [] && es[|es| - 1] == NO_ENTRY {
      TrimShortens(es[..|es| - 1]);
    }
  }

  /** The ground recovers a batch exactly unless the DATA that completed it was an empty one at
      offset 0 whose (empty) write succeeded: that one looks like padding. */
  lemma GroundRecovers(st: State, input: Input, j: nat)
    requires Flushes(st, input, j)
    ensures Effects(st, input)[0].reply.DataReply?
    ensures Trim(Effects(st, input)[0].reply.entries) == Batch(st, input, j) <==>
      !(input.req.payload == [] && input.req.offset == 0 && input.env.seeks)
  {
    AcceptedData(st, input, j);
    BlankAck(st, input, j);
    TrimRecovers(Batch(st, input, j));
  }

  /** Trimming a padded batch gives it back exactly when its last entry is not itself blank. */
  lemma TrimRecovers(batch: seq<Entry>)
    requires 0 < |batch| <= REPLY_ENTRIES
    ensures Trim(Padded(batch)) == batch <==> batch[|batch| - 1] != NO_ENTRY
  {
    TrimPadded(batch, REPLY_ENTRIES - |batch|);
    TrimShortens(batch);
  }

  lemma BlankAck(st: State, input: Input, j: nat)
    requires Accepts(st, input, j)
    ensures AckOf(st, input) == NO_ENTRY <==> input.req.payload == [] && input.req.offset == 0 && input.env.seeks
  {
    NegativeResult();
  }

  lemma NegativeResult()
    ensures ToU32(FAILED) != 0
  {
  }

  ghost function Readings(replies: seq<Reply>): seq<seq<Entry>> {
    seq(|replies|, i requires 0 <= i < |replies| => if replies[i].DataReply? then Trim(replies[i].entries) else [])
  }

  /** Conservation on the wire, slot by slot. As long as no accepted DATA is answered by an all-zero
      entry, the batch replies of the slot without their zero padding, and then what is still
      pending, are all the acknowledgements owed. */
  lemma ReadingsConserved(st: State, ins: seq<Input>, j: nat)
    requires j < SESSIONS && NO_ENTRY !in Accepted(st, ins, j)
    ensures Seqs.Flatten(Readings(Replies(st, ins, j))) + PendingAfter(st, ins, j)
         == Pending(st.slots[j]) + Accepted(st, ins, j)
  {
    AcksConserved(st, ins, j);
    RepliesCarryBatches(st, ins, j);
    var batches := Batches(st, ins, j);
    PendingIsNotBlank(st.slots[j]);
    assert NO_ENTRY !in Seqs.Flatten(batches) by {
      assert NO_ENTRY !in Seqs.Flatten(batches) + PendingAfter(st, ins, j);
    }
    ReadingsAreBatches(Replies(st, ins, j), batches);
  }

  lemma ReadingsAreBatches(replies: seq<Reply>, batches: seq<seq<Entry>>)
    requires AllCarried(replies, batches)
    requires NO_ENTRY !in Seqs.Flatten(batches)
    ensures Readings(replies) == batches
  {
    forall i | 0 <= i < |batches| ensures Readings(replies)[i] == batches[i] {
      assert CarriedBy(replies[i], batches[i]);
      TrimPadded(batches[i], REPLY_ENTRIES - |batches[i]|);
      Seqs.InFlatten(batches, i, batches[i][|batches[i]| - 1]);
    }
  }

  lemma PendingIsNotBlank(s: Slot)
    requires ValidBuffer(s)
    ensures NO_ENTRY !in Pending(s)
  {
  }

  // ---------- how many replies ----------

  function ShortOnes(es: seq<Entry>): nat {
    if es == [] then 0
    else ShortOnes(es[..|es| - 1]) + if es[|es| - 1].size != UPLOAD_DATA_LEN then 1 else 0
  }

  lemma ShortOnesSnoc(es: seq<Entry>, e: Entry)
    ensures ShortOnes(es + [e]) == ShortOnes(es) + if e.size != UPLOAD_DATA_LEN then 1 else 0
  {
    Seqs.SnocPrefix(es, e);
  }

  /** The downlink bound: one reply for each short chunk, and one for every twenty others. */
  lemma {:induction false} DownlinkBound(st: State, ins: seq<Input>, j: nat)
    requires j < SESSIONS
    ensures ShortOnes(Accepted(st, ins, j)) <= |Replies(st, ins, j)|
    ensures REPLY_ENTRIES * (|Replies(st, ins, j)| - ShortOnes(Accepted(st, ins, j)))
        + ShortOnes(Accepted(st, ins, j)) + |PendingAfter(st, ins, j)|
      <= |Pending(st.slots[j])| + |Accepted(st, ins, j)|
  {
    if ins != [] {
      var n := |ins| - 1;
      DownlinkBound(st, ins[..n], j);
      var s := At(st, ins, n);
      if Accepts(s, ins[n], j) {
        AcceptedData(s, ins[n], j);
        ShortOnesSnoc(Accepted(st, ins[..n], j), AckOf(s, ins[n]));
      } else {
        OtherCommand(s, ins[n], j);
        assert Accepted(st, ins, j) == Accepted(st, ins[..n], j);
      }
    }
  }

  lemma NextOfTwenty(n: nat)
    ensures (n + 1) % REPLY_ENTRIES == if n % REPLY_ENTRIES + 1 == REPLY_ENTRIES then 0 else n % REPLY_ENTRIES + 1
    ensures (n + 1) / REPLY_ENTRIES == n / REPLY_ENTRIES + if n % REPLY_ENTRIES + 1 == REPLY_ENTRIES then 1 else 0
  {
  }

  lemma FullFlush(s: State, input: Input, j: nat)
    requires Accepts(s, input, j) && AckOf(s, input).size == UPLOAD_DATA_LEN
    ensures Flushes(s, input, j) <==> |Pending(s.slots[j])| + 1 == REPLY_ENTRIES
    ensures |Pending(Step(s, input).slots[j])| == if Flushes(s, input, j) then 0 else |Pending(s.slots[j])| + 1
  {
    AcceptedData(s, input, j);
  }

  lemma FullStep(s: State, input: Input, j: nat, n: nat)
    requires Accepts(s, input, j) && AckOf(s, input).size == UPLOAD_DATA_LEN
    requires |Pending(s.slots[j])| == n % REPLY_ENTRIES
    ensures |Pending(Step(s, input).slots[j])| == (n + 1) % REPLY_ENTRIES
    ensures (n + 1) / REPLY_ENTRIES == n / REPLY_ENTRIES + if Flushes(s, input, j) then 1 else 0
  {
    FullFlush(s, input, j);
    NextOfTwenty(n);
  }

  predicate AllFull(es: seq<Entry>) {
    forall e :: e in es ==> e.size == UPLOAD_DATA_LEN
  }

  lemma AllFullSnoc(es: seq<Entry>, more: seq<Entry>)
    requires AllFull(es + more)
    ensures AllFull(es) && AllFull(more)
  {
    assert forall e :: e in es || e in more ==> e in es + more;
  }

  /** From a clean slot, full chunks alone: a reply after every twentieth. */
  lemma {:induction false} FullChunks(st: State, ins: seq<Input>, j: nat)
    requires j < SESSIONS && Pending(st.slots[j]) == [] && AllFull(Accepted(st, ins, j))
    ensures |Replies(st, ins, j)| == |Accepted(st, ins, j)| / REPLY_ENTRIES
    ensures |PendingAfter(st, ins, j)| == |Accepted(st, ins, j)| % REPLY_ENTRIES
  {
    if ins != [] {
      var n := |ins| - 1;
      var s := At(st, ins, n);
      AllFullSnoc(Accepted(st, ins[..n], j), if Accepts(s, ins[n], j) then [AckOf(s, ins[n])] else []);
      FullChunks(st, ins[..n], j);
      if Accepts(s, ins[n], j) {
        assert AckOf(s, ins[n]) in [AckOf(s, ins[n])];
        FullStep(s, ins[n], j, |Accepted(st, ins[..n], j)|);
      } else {
        OtherCommand(s, ins[n], j);
      }
    }
  }

  /** From a clean slot, `q` full chunks and then a short one (the upload of `200 * q + r` bytes,
      `0 < r < 200`): exactly `q / 20 + 1` replies, and nothing left pending. */
  lemma {:induction false} UploadWithShortEnd(st: State, ins: seq<Input>, j: nat, q: nat)
    requires j < SESSIONS && Pending(st.slots[j]) == []
    requires |Accepted(st, ins, j)| == q + 1
    requires AllFull(Accepted(st, ins, j)[..q])
    requires Accepted(st, ins, j)[q].size != UPLOAD_DATA_LEN
    ensures |Replies(st, ins, j)| == q / REPLY_ENTRIES + 1
    ensures PendingAfter(st, ins, j) == []
  {
    var n := |ins| - 1;
    var s, before := At(st, ins, n), Accepted(st, ins[..n], j);
    if Accepts(s, ins[n], j) {
      Seqs.SnocPrefix(before, AckOf(s, ins[n]));
      assert |before| == q && Accepted(st, ins, j)[..q] == before;
      FullChunks(st, ins[..n], j);
      ShortFlush(s, ins[n], j);
    } else {
      OtherCommand(s, ins[n], j);
      assert Accepted(st, ins, j) == before;
      UploadWithShortEnd(st, ins[..n], j, q);
    }
  }

  lemma ShortFlush(s: State, input: Input, j: nat)
    requires Accepts(s, input, j) && AckOf(s, input).size != UPLOAD_DATA_LEN
    ensures Flushes(s, input, j) && Pending(Step(s, input).slots[j]) == []
  {
    AcceptedData(s, input, j);
  }

  /** How many acknowledgements of full chunks there are since the last other one. */
  function Trailing(acks: seq<Entry>): nat {
    if acks == [] || acks[|acks| - 1].size != UPLOAD_DATA_LEN then 0 else Trailing(acks[..|acks| - 1]) + 1
  }

  /** The same count, starting again at every twentieth. */
  function LeftOver(acks: seq<Entry>): nat {
    if acks == [] || acks[|acks| - 1].size != UPLOAD_DATA_LEN then 0
    else NextLeft(LeftOver(acks[..|acks| - 1]))
  }

  function NextLeft(left: nat): nat {
    if left + 1 == REPLY_ENTRIES then 0 else left + 1
  }

  lemma {:induction false} LeftOverIsMod(acks: seq<Entry>)
    ensures LeftOver(acks) == Trailing(acks) % REPLY_ENTRIES
  {
    if acks != [] && acks[|acks| - 1].size == UPLOAD_DATA_LEN {
      LeftOverIsMod(acks[..|acks| - 1]);
      NextOfTwenty(Trailing(acks[..|acks| - 1]));
    }
  }

  lemma LeftOverSnoc(acks: seq<Entry>, e: Entry)
    ensures LeftOver(acks + [e]) == if e.size != UPLOAD_DATA_LEN then 0 else NextLeft(LeftOver(acks))
  {
    Seqs.SnocPrefix(acks, e);
  }

  lemma LeftOverStep(s: State, input: Input, j: nat, owed: seq<Entry>)
    requires j < SESSIONS && |Pending(s.slots[j])| == LeftOver(owed)
    ensures |Pending(Step(s, input).slots[j])|
      == LeftOver(owed + if Accepts(s, input, j) then [AckOf(s, input)] else [])
  {
    if Accepts(s, input, j) {
      AcceptedData(s, input, j);
      LeftOverSnoc(owed, AckOf(s, input));
    } else {
      OtherCommand(s, input, j);
      assert owed + [] == owed;
    }
  }

  lemma {:induction false} PendingIsLeftOver(st: State, ins: seq<Input>, j: nat)
    requires j < SESSIONS && Pending(st.slots[j]) == []
    ensures |PendingAfter(st, ins, j)| == LeftOver(Accepted(st, ins, j))
  {
    if ins != [] {
      var n := |ins| - 1;
      PendingIsLeftOver(st, ins[..n], j);
      LeftOverStep(At(st, ins, n), ins[n], j, Accepted(st, ins[..n], j));
    }
  }

  /** How much is pending can be told from the DATA commands: from a clean slot it is what is left,
      after every twentieth, of the full chunks since the last short one. */
  lemma PendingIsTrailing(st: State, ins: seq<Input>, j: nat)
    requires j < SESSIONS && Pending(st.slots[j]) == []
    ensures |PendingAfter(st, ins, j)| == Trailing(Accepted(st, ins, j)) % REPLY_ENTRIES
  {
    PendingIsLeftOver(st, ins, j);
    LeftOverIsMod(Accepted(st, ins, j));
  }
}
