/** Whose acknowledgements a reply holds, and how often a packet is consumed. */
module Attribution {
  import opened Wire
  import opened FileStore
  import opened Upload
  import opened Acks
  import Sessions
  import Seqs

  // ---------- whose entries ----------

  /** The stream of the session that the accepted DATA belongs to. Streams are never reused, so
      this names one OPEN, even when the same session id is opened again later. */
  function Owner(st: State, j: nat): Handle
    requires j in st.used
  {
    st.slots[j].file.value
  }

  /** A pending acknowledgement and the stream of the session it is owed to. */
  datatype Owed = Owed(ack: Entry, owner: Handle)

  /** What slot `j`, which starts with nothing pending, owes to whom. */
  ghost function Ledger(st: State, ins: seq<Input>, j: nat): seq<Owed> {
    if ins == [] then []
    else
      var n := |ins| - 1;
      LedgerNext(Ledger(st, ins[..n], j), At(st, ins, n), ins[n], j)
  }

  ghost function LedgerNext(ledger: seq<Owed>, s: State, input: Input, j: nat): seq<Owed> {
    if !Accepts(s, input, j) then ledger
    else if Flushes(s, input, j) then []
    else ledger + [Owed(AckOf(s, input), Owner(s, j))]
  }

  function AcksIn(ledger: seq<Owed>): (acks: seq<Entry>)
    ensures |acks| == |ledger|
    ensures forall i :: 0 <= i < |ledger| ==> acks[i] == ledger[i].ack
  {
    seq(|ledger|, i requires 0 <= i < |ledger| => ledger[i].ack)
  }

  /** The command opens a session in slot `j`. */
  predicate OpensInto(st: State, input: Input, j: nat) {
    j !in st.used && j in Step(st, input).used
  }

  predicate ClosesOut(st: State, input: Input, j: nat) {
    j in st.used && j !in Step(st, input).used
  }

  /** How many of the pending entries were there when the slot was last opened. */
  ghost function Carried(st: State, ins: seq<Input>, j: nat): nat
    requires j < SESSIONS
  {
    if ins == [] then 0
    else
      var n := |ins| - 1;
      var s := At(st, ins, n);
      if OpensInto(s, ins[n], j) then |Pending(s.slots[j])|
      else if Flushes(s, ins[n], j) then 0
      else Carried(st, ins[..n], j)
  }

  /** The acknowledgements that the current batch took over from earlier sessions: those pending
      when the slot was last opened, until they are flushed. */
  ghost function CarriedEntries(st: State, ins: seq<Input>, j: nat): seq<Entry>
    requires j < SESSIONS
  {
    if ins == [] then []
    else
      var n := |ins| - 1;
      var s := At(st, ins, n);
      if OpensInto(s, ins[n], j) then Pending(s.slots[j])
      else if Flushes(s, ins[n], j) then []
      else CarriedEntries(st, ins[..n], j)
  }

  /** They are as many as `Carried` says, and come first among the pending ones. */
  lemma {:induction false} CarriedComeFirst(st: State, ins: seq<Input>, j: nat)
    requires j < SESSIONS && Pending(st.slots[j]) == []
    ensures |CarriedEntries(st, ins, j)| == Carried(st, ins, j)
    ensures CarriedEntries(st, ins, j) <= PendingAfter(st, ins, j)
  {
    if ins != [] {
      var n := |ins| - 1;
      CarriedComeFirst(st, ins[..n], j);
      var s := At(st, ins, n);
      if Accepts(s, ins[n], j) {
        AcceptedData(s, ins[n], j);
      } else {
        OtherCommand(s, ins[n], j);
      }
    }
  }

  lemma LedgerStep(s: State, input: Input, j: nat, ledger: seq<Owed>)
    requires j < SESSIONS && AcksIn(ledger) == Pending(s.slots[j])
    ensures AcksIn(LedgerNext(ledger, s, input, j)) == Pending(Step(s, input).slots[j])
  {
    if Accepts(s, input, j) {
      AcceptedData(s, input, j);
      assert Flushes(s, input, j) || Pending(Step(s, input).slots[j]) == Pending(s.slots[j]) + [AckOf(s, input)];
    } else {
      OtherCommand(s, input, j);
    }
  }

  /** The ledger lists exactly the pending acknowledgements. */
  lemma {:induction false} LedgerIsPending(st: State, ins: seq<Input>, j: nat)
    requires j < SESSIONS && Pending(st.slots[j]) == []
    ensures AcksIn(Ledger(st, ins, j)) == PendingAfter(st, ins, j)
  {
    if ins != [] {
      var n := |ins| - 1;
      LedgerIsPending(st, ins[..n], j);
      LedgerStep(At(st, ins, n), ins[n], j, Ledger(st, ins[..n], j));
    }
  }

  /** Stream numbers only grow. */
  lemma StreamsGrow(st: State, input: Input)
    ensures st.fs.next <= Step(st, input).fs.next
  {
  }

  /** An OPEN that takes a slot gives it the next stream number; any other command leaves the
      stream of a used slot alone. */
  lemma StreamOfSlot(st: State, input: Input, j: nat)
    requires j in Step(st, input).used
    ensures OpensInto(st, input, j) ==>
      Owner(Step(st, input), j) == st.fs.next && st.fs.next < Step(st, input).fs.next
    ensures !OpensInto(st, input, j) ==> Owner(Step(st, input), j) == Owner(st, j)
  {
    if st.unused != [] {
      Sessions.FreshSlot(st);
    }
  }

  ghost predicate Split(ledger: seq<Owed>, c: nat, h: Handle) {
    && c <= |ledger|
    && (forall i :: 0 <= i < c ==> ledger[i].owner != h)
    && (forall i :: c <= i < |ledger| ==> ledger[i].owner == h)
  }

  /** The pending entries of a live session are those carried over, all owed to earlier sessions,
      followed by its own. */
  lemma {:induction false} PendingSplits(st: State, ins: seq<Input>, j: nat)
    requires j < SESSIONS && Pending(st.slots[j]) == []
    ensures AcksIn(Ledger(st, ins, j)) == PendingAfter(st, ins, j)
    ensures forall i :: 0 <= i < |Ledger(st, ins, j)| ==> Ledger(st, ins, j)[i].owner < After(st, ins).fs.next
    ensures j in After(st, ins).used ==>
      Split(Ledger(st, ins, j), Carried(st, ins, j), Owner(After(st, ins), j))
  {
    LedgerIsPending(st, ins, j);
    if ins != [] {
      var n := |ins| - 1;
      PendingSplits(st, ins[..n], j);
      SplitStep(At(st, ins, n), ins[n], j, Ledger(st, ins[..n], j), Carried(st, ins[..n], j),
        Ledger(st, ins, j), Carried(st, ins, j));
    }
  }

  lemma SplitStep(s: State, input: Input, j: nat, ledger: seq<Owed>, c: nat, ledger': seq<Owed>, c': nat)
    requires j < SESSIONS && |ledger| == |Pending(s.slots[j])|
    requires forall i :: 0 <= i < |ledger| ==> ledger[i].owner < s.fs.next
    requires j in s.used ==> Split(ledger, c, Owner(s, j))
    requires ledger' == LedgerNext(ledger, s, input, j)
    requires c' == if OpensInto(s, input, j) then |Pending(s.slots[j])| else if Flushes(s, input, j) then 0 else c
    ensures forall i :: 0 <= i < |ledger'| ==> ledger'[i].owner < Step(s, input).fs.next
    ensures j in Step(s, input).used ==> Split(ledger', c', Owner(Step(s, input), j))
  {
    StreamsGrow(s, input);
    if Accepts(s, input, j) {
      assert j in s.used && s.slots[j].file.value in s.fs.live;
    }
    if j in Step(s, input).used {
      StreamOfSlot(s, input, j);
    }
  }

  /** The batch that a flushed reply carries, entry by entry with its owner. */
  ghost function FlushedLedger(st: State, ins: seq<Input>, j: nat, input: Input): seq<Owed>
    requires Accepts(After(st, ins), input, j)
  {
    Ledger(st, ins, j) + [Owed(AckOf(After(st, ins), input), Owner(After(st, ins), j))]
  }

  lemma FlushedBatch(st: State, ins: seq<Input>, j: nat, input: Input)
    requires j < SESSIONS && Pending(st.slots[j]) == []
    requires Accepts(After(st, ins), input, j)
    ensures AcksIn(FlushedLedger(st, ins, j, input)) == Batch(After(st, ins), input, j)
  {
    LedgerIsPending(st, ins, j);
  }

  lemma PaddedPrefix(carried: seq<Entry>, pending: seq<Entry>, ack: Entry)
    requires carried <= pending && |pending| < REPLY_ENTRIES
    ensures Padded(pending + [ack])[..|carried|] == carried
  {
  }

  lemma CarriedInBatch(st: State, ins: seq<Input>, j: nat, input: Input)
    requires j < SESSIONS && Pending(st.slots[j]) == []
    requires Accepts(After(st, ins), input, j)
    ensures Carried(st, ins, j) < |Batch(After(st, ins), input, j)| <= REPLY_ENTRIES
    ensures Padded(Batch(After(st, ins), input, j))[..Carried(st, ins, j)] == CarriedEntries(st, ins, j)
  {
    CarriedComeFirst(st, ins, j);
    PaddedPrefix(CarriedEntries(st, ins, j), PendingAfter(st, ins, j), AckOf(After(st, ins), input));
  }

  lemma FlushedReply(st: State, input: Input, j: nat)
    requires Flushes(st, input, j)
    ensures Effects(st, input)[0] == Sent(DataReply(DATA_CMD, input.req.sid, Padded(Batch(st, input, j))))
    ensures st.slots[j].id == input.req.sid && j in st.used
  {
    AcceptedData(st, input, j);
  }

  lemma FlushedSplits(st: State, ins: seq<Input>, j: nat, input: Input)
    requires j < SESSIONS && Pending(st.slots[j]) == []
    requires Accepts(After(st, ins), input, j)
    ensures Split(FlushedLedger(st, ins, j, input), Carried(st, ins, j), Owner(After(st, ins), j))
  {
    PendingSplits(st, ins, j);
  }

  /** A flushed reply names the session of the DATA that completed it. Its first entries are the
      carried-over ones, owed to earlier sessions of the slot; the rest, at least one, are owed to
      the session it names. */
  lemma ReplyAttribution(st: State, ins: seq<Input>, j: nat, input: Input)
    requires j < SESSIONS && Pending(st.slots[j]) == []
    requires Flushes(After(st, ins), input, j)
    ensures Effects(After(st, ins), input)[0].reply.DataReply?
    ensures Effects(After(st, ins), input)[0].reply.sid == input.req.sid == After(st, ins).slots[j].id
    ensures Carried(st, ins, j) < |FlushedLedger(st, ins, j, input)| <= REPLY_ENTRIES
    ensures Effects(After(st, ins), input)[0].reply.entries == Padded(AcksIn(FlushedLedger(st, ins, j, input)))
    ensures Effects(After(st, ins), input)[0].reply.entries[..Carried(st, ins, j)] == CarriedEntries(st, ins, j)
    ensures Split(FlushedLedger(st, ins, j, input), Carried(st, ins, j), Owner(After(st, ins), j))
  {
    FlushedReply(After(st, ins), input, j);
    FlushedBatch(st, ins, j, input);
    CarriedInBatch(st, ins, j, input);
    FlushedSplits(st, ins, j, input);
  }

  /** So a reply speaks of one session only exactly when nothing was carried over. */
  lemma OneSessionOnly(st: State, ins: seq<Input>, j: nat, input: Input)
    requires j < SESSIONS && Pending(st.slots[j]) == []
    requires Flushes(After(st, ins), input, j)
    ensures (forall x :: x in FlushedLedger(st, ins, j, input) ==> x.owner == Owner(After(st, ins), j))
      <==> Carried(st, ins, j) == 0
  {
    ReplyAttribution(st, ins, j, input);
    var ledger := FlushedLedger(st, ins, j, input);
    if Carried(st, ins, j) > 0 {
      assert ledger[0] in ledger;
    }
  }

  /** What an OPEN carries over is what the slot had pending when it was last closed: nothing
      touches the acknowledgements of a slot that is not in use. */
  lemma {:induction false} IdleSlotKeepsPending(st: State, ins: seq<Input>, j: nat)
    requires j < SESSIONS && forall k :: 0 <= k <= |ins| ==> j !in At(st, ins, k).used
    ensures PendingAfter(st, ins, j) == Pending(st.slots[j])
  {
    if ins != [] {
      var n := |ins| - 1;
      forall k | 0 <= k <= n ensures j !in At(st, ins[..n], k).used {
        Seqs.PrefixOfPrefix(ins, k, n);
        assert j !in At(st, ins, k).used;
      }
      IdleSlotKeepsPending(st, ins[..n], j);
      assert j !in At(st, ins, n).used;
      OtherCommand(At(st, ins, n), ins[n], j);
    }
  }

  /** The carried-over entries are those pending at the previous CLOSE of the slot, however long it
      stayed idle since. */
  lemma CarriedSinceClose(st: State, before: seq<Input>, close: Input, idle: seq<Input>, open: Input, j: nat)
    requires j < SESSIONS && ClosesOut(After(st, before), close, j)
    requires forall k :: 0 <= k <= |idle| ==> j !in At(After(st, before + [close]), idle, k).used
    requires OpensInto(After(st, before + [close] + idle), open, j)
    ensures CarriedEntries(st, before + [close] + idle + [open], j) == PendingAfter(st, before, j)
  {
    AfterSnoc(st, before, close);
    OtherCommandWhenIdle(After(st, before), close, j);
    OtherCommand(After(st, before), close, j);
    IdleSlotKeepsPending(After(st, before + [close]), idle, j);
    AfterAppend(st, before + [close], idle);
    Seqs.SnocPrefix(before + [close] + idle, open);
  }

  // ---------- closing cleanly ----------

  /** What a CLOSE leaves behind can be told from the DATA commands: nothing exactly when the full
      chunks since the last short one are a multiple of twenty. */
  lemma CloseLeavesNothing(st: State, ins: seq<Input>, j: nat, close: Input)
    requires j < SESSIONS && Pending(st.slots[j]) == []
    requires ClosesOut(After(st, ins), close, j)
    ensures Pending(Step(After(st, ins), close).slots[j]) == []
      <==> Trailing(Accepted(st, ins, j)) % REPLY_ENTRIES == 0
  {
    PendingIsTrailing(st, ins, j);
    OtherCommandWhenIdle(After(st, ins), close, j);
    OtherCommand(After(st, ins), close, j);
  }

  /** And so can what an OPEN carries over. */
  lemma OpenCarries(st: State, ins: seq<Input>, j: nat, open: Input)
    requires j < SESSIONS && Pending(st.slots[j]) == []
    requires OpensInto(After(st, ins), open, j)
    ensures Carried(st, ins + [open], j) == Trailing(Accepted(st, ins, j)) % REPLY_ENTRIES
  {
    PendingIsTrailing(st, ins, j);
    Seqs.SnocPrefix(ins, open);
  }

  ghost predicate CleanAt(st: State, ins: seq<Input>, j: nat, k: nat)
    requires k < |ins|
  {
    ClosesOut(At(st, ins, k), ins[k], j) ==> Trailing(Accepted(st, ins[..k], j)) % REPLY_ENTRIES == 0
  }

  /** At every CLOSE of slot `j` the full chunks since the last short one are a multiple of twenty. */
  ghost predicate CleanCloses(st: State, ins: seq<Input>, j: nat) {
    forall k: nat :: k < |ins| ==> CleanAt(st, ins, j, k)
  }

  ghost predicate IdleCleanAt(st: State, ins: seq<Input>, j: nat, k: nat)
    requires j < SESSIONS && k <= |ins|
  {
    j !in At(st, ins, k).used ==> PendingAfter(st, ins[..k], j) == []
  }

  /** Slot `j` never has anything pending while it is not in use. */
  ghost predicate IdleClean(st: State, ins: seq<Input>, j: nat)
    requires j < SESSIONS
  {
    forall k: nat :: k <= |ins| ==> IdleCleanAt(st, ins, j, k)
  }

  lemma CleanAtPrefix(st: State, ins: seq<Input>, j: nat, n: nat, k: nat)
    requires k < n <= |ins|
    ensures CleanAt(st, ins[..n], j, k) <==> CleanAt(st, ins, j, k)
  {
    Seqs.PrefixOfPrefix(ins, k, n);
  }

  lemma CleanClosesPrefix(st: State, ins: seq<Input>, j: nat, n: nat)
    requires CleanCloses(st, ins, j) && n <= |ins|
    ensures CleanCloses(st, ins[..n], j)
  {
    forall k: nat | k < n ensures CleanAt(st, ins[..n], j, k) {
      CleanAtPrefix(st, ins, j, n, k);
    }
  }

  lemma {:induction false} IdleIsClean(st: State, ins: seq<Input>, j: nat)
    requires j < SESSIONS && Pending(st.slots[j]) == []
    requires CleanCloses(st, ins, j) && j !in After(st, ins).used
    ensures PendingAfter(st, ins, j) == []
  {
    if ins != [] {
      var n := |ins| - 1;
      var s := At(st, ins, n);
      if j in s.used {
        assert CleanAt(st, ins, j, n);
        CloseLeavesNothing(st, ins[..n], j, ins[n]);
      } else {
        OtherCommandWhenIdle(s, ins[n], j);
        OtherCommand(s, ins[n], j);
        CleanClosesPrefix(st, ins, j, n);
        IdleIsClean(st, ins[..n], j);
      }
    }
  }

  lemma IdleCleanMeansCleanAt(st: State, ins: seq<Input>, j: nat, k: nat)
    requires j < SESSIONS && Pending(st.slots[j]) == []
    requires k < |ins| && IdleCleanAt(st, ins, j, k + 1)
    ensures CleanAt(st, ins, j, k)
  {
    if ClosesOut(At(st, ins, k), ins[k], j) {
      CloseLeavesNothing(st, ins[..k], j, ins[k]);
      Seqs.PrefixSnoc(ins, k);
      AfterSnoc(st, ins[..k], ins[k]);
    }
  }

  /** The slot is clean whenever it is idle exactly when the ground closes at the right moments. */
  lemma CleanClosesIff(st: State, ins: seq<Input>, j: nat)
    requires j < SESSIONS && Pending(st.slots[j]) == []
    ensures CleanCloses(st, ins, j) <==> IdleClean(st, ins, j)
  {
    if CleanCloses(st, ins, j) {
      forall k: nat | k <= |ins| ensures IdleCleanAt(st, ins, j, k) {
        CleanClosesPrefix(st, ins, j, k);
        if j !in At(st, ins, k).used {
          IdleIsClean(st, ins[..k], j);
        }
      }
    }
    if IdleClean(st, ins, j) {
      forall k: nat | k < |ins| ensures CleanAt(st, ins, j, k) {
        assert IdleCleanAt(st, ins, j, k + 1);
        IdleCleanMeansCleanAt(st, ins, j, k);
      }
    }
  }

  /** A ground that closes at those moments never carries anything over, so every reply speaks of
      one session only. */
  lemma {:induction false} CleanClosesCarryNothing(st: State, ins: seq<Input>, j: nat)
    requires j < SESSIONS && Pending(st.slots[j]) == []
    requires CleanCloses(st, ins, j)
    ensures Carried(st, ins, j) == 0
  {
    if ins != [] {
      var n := |ins| - 1;
      CleanClosesPrefix(st, ins, j, n);
      CleanClosesCarryNothing(st, ins[..n], j);
      if OpensInto(At(st, ins, n), ins[n], j) {
        IdleIsClean(st, ins[..n], j);
      }
    }
  }

  lemma OtherCommandWhenIdle(st: State, input: Input, j: nat)
    requires j !in Step(st, input).used
    ensures !Accepts(st, input, j)
  {
  }

  // ---------- packets ----------

  /** The seek of an accepted DATA fails. */
  predicate SeekFails(st: State, input: Input) {
    input.req.Data? && Search(st, input.req.sid).Some? && !input.env.seeks
  }

  /** Each packet is sent or freed exactly once, except after a failed seek, when it is consumed
      twice, the second time as an error reply. */
  lemma PacketConsumed(st: State, input: Input)
    ensures |Effects(st, input)| == if SeekFails(st, input) then 2 else 1
    ensures SeekFails(st, input) ==>
      Effects(st, input)[1] == DataErr(input.req.sid, FAILED, input.req.offset, |input.req.payload|, input.env.junk)
  {
  }

  ghost function Consumed(st: State, ins: seq<Input>): nat {
    if ins == [] then 0 else Consumed(st, ins[..|ins| - 1]) + |EffectsAt(st, ins, |ins| - 1)|
  }

  ghost function SeekFailures(st: State, ins: seq<Input>): nat {
    if ins == [] then 0
    else SeekFailures(st, ins[..|ins| - 1]) + if SeekFails(At(st, ins, |ins| - 1), ins[|ins| - 1]) then 1 else 0
  }

  /** So over a run the buffers handed back are those handed in exactly when no seek fails. */
  lemma {:induction false} PacketsConserved(st: State, ins: seq<Input>)
    ensures Consumed(st, ins) == |ins| + SeekFailures(st, ins)
  {
    if ins != [] {
      PacketsConserved(st, ins[..|ins| - 1]);
      PacketConsumed(At(st, ins, |ins| - 1), ins[|ins| - 1]);
    }
  }

  ghost predicate SeeksAt(st: State, ins: seq<Input>, k: nat)
    requires k < |ins|
  {
    !SeekFails(At(st, ins, k), ins[k])
  }

  ghost predicate AllSeek(st: State, ins: seq<Input>) {
    forall k: nat :: k < |ins| ==> SeeksAt(st, ins, k)
  }

  lemma SeeksAtPrefix(st: State, ins: seq<Input>, n: nat, k: nat)
    requires k < n <= |ins|
    ensures SeeksAt(st, ins[..n], k) <==> SeeksAt(st, ins, k)
  {
    Seqs.PrefixOfPrefix(ins, k, n);
  }

  lemma AllSeekPrefix(st: State, ins: seq<Input>, n: nat)
    requires AllSeek(st, ins) && n < |ins|
    ensures AllSeek(st, ins[..n]) && SeeksAt(st, ins, n)
  {
    assert SeeksAt(st, ins, n);
    forall k: nat | k < n ensures SeeksAt(st, ins[..n], k) {
      SeeksAtPrefix(st, ins, n, k);
    }
  }

  lemma AllSeekSnoc(st: State, ins: seq<Input>)
    requires ins != [] && AllSeek(st, ins[..|ins| - 1]) && SeeksAt(st, ins, |ins| - 1)
    ensures AllSeek(st, ins)
  {
    var n := |ins| - 1;
    forall k: nat | k <= n ensures SeeksAt(st, ins, k) {
      if k < n {
        assert SeeksAt(st, ins[..n], k);
        SeeksAtPrefix(st, ins, n, k);
      }
    }
  }

  lemma {:induction false} NoSeekFailures(st: State, ins: seq<Input>)
    ensures SeekFailures(st, ins) == 0 <==> AllSeek(st, ins)
  {
    if ins != [] {
      NoSeekFailures(st, ins[..|ins| - 1]);
      if SeekFailures(st, ins) == 0 {
        AllSeekSnoc(st, ins);
      } else if AllSeek(st, ins) {
        AllSeekPrefix(st, ins, |ins| - 1);
      }
    }
  }

  /** The buffers given back over a run are as many as were handed in exactly when no seek fails. */
  lemma BuffersBalance(st: State, ins: seq<Input>)
    ensures Consumed(st, ins) == |ins| <==> AllSeek(st, ins)
  {
    PacketsConserved(st, ins);
    NoSeekFailures(st, ins);
  }
}
