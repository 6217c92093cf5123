/** What a ground station that listens for one session id makes of everything the service sends. */
module Downlink {
  import opened Wire
  import opened FileStore
  import opened Upload
  import opened Acks
  import Attribution
  import opened Closing
  import Seqs

  /** The DATA telemetry with this id among the effects: batch replies and error replies, which
      have the same form. */
  function Heard(effects: seq<Effect>, s: u16): seq<Reply> {
    if effects == [] then []
    else
      var last := effects[|effects| - 1];
      Heard(effects[..|effects| - 1], s) +
        if last.Sent? && last.reply.DataReply? && last.reply.sid == s then [last.reply] else []
  }

  lemma {:induction false} HeardAppend(a: seq<Effect>, b: seq<Effect>, s: u16)
    ensures Heard(a + b, s) == Heard(a, s) + Heard(b, s)
  {
    if b == [] {
      assert a + b == a;
    } else {
      Seqs.AppendSnoc(a, b);
      Seqs.SnocPrefix(a + b[..|b| - 1], b[|b| - 1]);
      HeardAppend(a, b[..|b| - 1], s);
    }
  }

  /** The service answers this command with an error reply under the id: a DATA for it that finds
      no session or whose seek fails, and for id 0 also any malformed DATA. */
  predicate ErrorFor(st: State, input: Input, s: u16) {
    match input.req
    case Data(sid, _, _) => sid == s && (Search(st, s).None? || !input.env.seeks)
    case BadData => s == 0
    case _ => false
  }

  /** The batch reply of session `s` to this command, if there is one. */
  function BatchReply(st: State, input: Input, s: u16): seq<Reply> {
    if OwnData(st, input, s) && Flushes(st, input, Search(st, s).value) then [Effects(st, input)[0].reply] else []
  }

  lemma HeardOne(effects: seq<Effect>, s: u16)
    requires |effects| == 1
    ensures Heard(effects, s) ==
      if effects[0].Sent? && effects[0].reply.DataReply? && effects[0].reply.sid == s then [effects[0].reply] else []
  {
    assert effects[..0] == [];
  }

  lemma HeardTwo(effects: seq<Effect>, s: u16)
    requires |effects| == 2
    ensures Heard(effects, s) == Heard(effects[..1], s) + Heard(effects[1..], s)
  {
    HeardAppend(effects[..1], effects[1..], s);
    assert effects == effects[..1] + effects[1..];
  }

  lemma OwnDataHeard(st: State, input: Input, s: u16)
    requires OwnData(st, input, s)
    ensures !ErrorFor(st, input, s) ==> Heard(Effects(st, input), s) == BatchReply(st, input, s)
    ensures ErrorFor(st, input, s) ==> |Heard(Effects(st, input), s)| == |BatchReply(st, input, s)| + 1
  {
    var effects := Effects(st, input);
    AcceptedData(st, input, Search(st, s).value);
    Attribution.PacketConsumed(st, input);
    HeardOne(effects[..1], s);
    if |effects| == 2 {
      HeardTwo(effects, s);
      HeardOne(effects[1..], s);
    } else {
      assert effects[..1] == effects;
    }
  }

  lemma OtherDataHeard(st: State, input: Input, s: u16)
    requires input.req.Data? && input.req.sid != s
    ensures Heard(Effects(st, input), s) == []
  {
    var effects := Effects(st, input);
    Attribution.PacketConsumed(st, input);
    if Search(st, input.req.sid).Some? {
      AcceptedData(st, input, Search(st, input.req.sid).value);
    }
    HeardOne(effects[..1], s);
    if |effects| == 2 {
      HeardTwo(effects, s);
      HeardOne(effects[1..], s);
    } else {
      assert effects[..1] == effects;
    }
  }

  /** What is heard of one command: its batch reply, and then an error reply if there is one. */
  lemma HeardStep(st: State, input: Input, s: u16)
    ensures !ErrorFor(st, input, s) ==> Heard(Effects(st, input), s) == BatchReply(st, input, s)
    ensures ErrorFor(st, input, s) ==> |Heard(Effects(st, input), s)| == |BatchReply(st, input, s)| + 1
  {
    if OwnData(st, input, s) {
      OwnDataHeard(st, input, s);
    } else if input.req.Data? && input.req.sid != s {
      OtherDataHeard(st, input, s);
    } else {
      Attribution.PacketConsumed(st, input);
      HeardOne(Effects(st, input), s);
    }
  }

  // ---------- whole runs ----------

  /** Everything heard for session `s` over the run. */
  function HeardOver(st: State, ins: seq<Input>, s: u16): seq<Reply> {
    Heard(AllEffects(st, ins), s)
  }

  /** The batch replies of session `s` over the run, whatever slots it was given. */
  function BatchReplies(st: State, ins: seq<Input>, s: u16): seq<Reply> {
    if ins == [] then []
    else BatchReplies(st, ins[..|ins| - 1], s) + BatchReply(At(st, ins, |ins| - 1), ins[|ins| - 1], s)
  }

  function Errors(st: State, ins: seq<Input>, s: u16): nat {
    if ins == [] then 0
    else Errors(st, ins[..|ins| - 1], s) + if ErrorFor(At(st, ins, |ins| - 1), ins[|ins| - 1], s) then 1 else 0
  }

  predicate ErrorAt(st: State, ins: seq<Input>, s: u16, k: nat)
    requires k < |ins|
  {
    ErrorFor(At(st, ins, k), ins[k], s)
  }

  /** Every DATA for `s` finds its session and seeks, and if `s` is 0 none is malformed. */
  ghost predicate NoErrors(st: State, ins: seq<Input>, s: u16) {
    forall k: nat :: k < |ins| ==> !ErrorAt(st, ins, s, k)
  }

  lemma NoErrorsPrefix(st: State, ins: seq<Input>, s: u16, n: nat)
    requires NoErrors(st, ins, s) && n <= |ins|
    ensures NoErrors(st, ins[..n], s)
  {
    forall k: nat | k < n ensures !ErrorAt(st, ins[..n], s, k) {
      Seqs.PrefixOfPrefix(ins, k, n);
      assert !ErrorAt(st, ins, s, k);
    }
  }

  lemma NoErrorsSnoc(st: State, ins: seq<Input>, s: u16)
    requires ins != [] && NoErrors(st, ins[..|ins| - 1], s) && !ErrorAt(st, ins, s, |ins| - 1)
    ensures NoErrors(st, ins, s)
  {
    var n := |ins| - 1;
    forall k: nat | k <= n ensures !ErrorAt(st, ins, s, k) {
      if k < n {
        Seqs.PrefixOfPrefix(ins, k, n);
        assert !ErrorAt(st, ins[..n], s, k);
      }
    }
  }

  lemma {:induction false} CountErrors(st: State, ins: seq<Input>, s: u16)
    ensures Errors(st, ins, s) == 0 <==> NoErrors(st, ins, s)
  {
    if ins != [] {
      var n := |ins| - 1;
      CountErrors(st, ins[..n], s);
      if Errors(st, ins, s) == 0 {
        NoErrorsSnoc(st, ins, s);
      }
      if NoErrors(st, ins, s) {
        NoErrorsPrefix(st, ins, s, n);
        assert !ErrorAt(st, ins, s, n);
      }
    }
  }

  lemma {:induction false} HeardBatchesAndErrors(st: State, ins: seq<Input>, s: u16)
    ensures |HeardOver(st, ins, s)| == |BatchReplies(st, ins, s)| + Errors(st, ins, s)
    ensures Errors(st, ins, s) == 0 ==> HeardOver(st, ins, s) == BatchReplies(st, ins, s)
  {
    if ins != [] {
      var n := |ins| - 1;
      HeardBatchesAndErrors(st, ins[..n], s);
      HeardAppend(AllEffects(st, ins[..n]), EffectsAt(st, ins, n), s);
      HeardStep(At(st, ins, n), ins[n], s);
    }
  }

  /** Batch replies and error replies look alike. What is heard under an id is its batch replies,
      and nothing else, exactly when every DATA for it finds its session and seeks, and if it is 0
      no DATA is malformed. */
  lemma HeardAreBatches(st: State, ins: seq<Input>, s: u16)
    ensures HeardOver(st, ins, s) == BatchReplies(st, ins, s) <==> NoErrors(st, ins, s)
  {
    HeardBatchesAndErrors(st, ins, s);
    CountErrors(st, ins, s);
  }

  // ---------- what the ground can add up ----------

  /** Session `s` is opened or closed by this command only with nothing pending. */
  ghost predicate CleanChange(st: State, input: Input, s: u16) {
    Search(st, s).Some? != Search(Step(st, input), s).Some? ==>
      PendingOf(st, s) == [] && PendingOf(Step(st, input), s) == []
  }

  ghost predicate CleanChangeAt(st: State, ins: seq<Input>, s: u16, k: nat)
    requires k < |ins|
  {
    CleanChange(At(st, ins, k), ins[k], s)
  }

  ghost predicate AlwaysClean(st: State, ins: seq<Input>, s: u16) {
    forall k: nat :: k < |ins| ==> CleanChangeAt(st, ins, s, k)
  }

  lemma AlwaysCleanPrefix(st: State, ins: seq<Input>, s: u16, n: nat)
    requires AlwaysClean(st, ins, s) && n <= |ins|
    ensures AlwaysClean(st, ins[..n], s)
  {
    forall k: nat | k < n ensures CleanChangeAt(st, ins[..n], s, k) {
      Seqs.PrefixOfPrefix(ins, k, n);
      assert CleanChangeAt(st, ins, s, k);
    }
  }

  /** The batch behind the reply. */
  ghost function OwnBatch(st: State, input: Input, s: u16): seq<seq<Entry>> {
    if OwnData(st, input, s) && Flushes(st, input, Search(st, s).value)
    then [Batch(st, input, Search(st, s).value)] else []
  }

  ghost function OwnBatches(st: State, ins: seq<Input>, s: u16): seq<seq<Entry>> {
    if ins == [] then []
    else OwnBatches(st, ins[..|ins| - 1], s) + OwnBatch(At(st, ins, |ins| - 1), ins[|ins| - 1], s)
  }

  ghost function OwnAck(st: State, input: Input, s: u16): seq<Entry> {
    if OwnData(st, input, s) then [AckOf(st, input)] else []
  }

  ghost function OwnAcks(st: State, ins: seq<Input>, s: u16): seq<Entry> {
    if ins == [] then []
    else OwnAcks(st, ins[..|ins| - 1], s) + OwnAck(At(st, ins, |ins| - 1), ins[|ins| - 1], s)
  }

  /** No other command changes what session `s` has pending, if it comes and goes cleanly. */
  lemma PendingUnmoved(st: State, input: Input, s: u16)
    requires !OwnData(st, input, s) && CleanChange(st, input, s)
    ensures PendingOf(Step(st, input), s) == PendingOf(st, s)
  {
    if Search(st, s).Some? && Search(Step(st, input), s).Some? {
      StaysPending(st, input, s);
    }
  }

  lemma OwnStepConserves(st: State, input: Input, s: u16, batches: seq<seq<Entry>>, owed: seq<Entry>)
    requires CleanChange(st, input, s)
    requires Seqs.Flatten(batches) + PendingOf(st, s) == owed
    ensures Seqs.Flatten(batches + OwnBatch(st, input, s)) + PendingOf(Step(st, input), s)
         == owed + OwnAck(st, input, s)
  {
    if OwnData(st, input, s) {
      SlotAfterData(st, input, s);
      ConservedStep(st, input, Search(st, s).value, batches, owed);
    } else {
      PendingUnmoved(st, input, s);
      assert batches + [] == batches;
      assert owed + [] == owed;
    }
  }

  lemma {:induction false} SessionConserved(st: State, ins: seq<Input>, s: u16)
    requires AlwaysClean(st, ins, s)
    ensures Seqs.Flatten(OwnBatches(st, ins, s)) + PendingOf(After(st, ins), s)
         == PendingOf(st, s) + OwnAcks(st, ins, s)
  {
    if ins != [] {
      var n := |ins| - 1;
      AlwaysCleanPrefix(st, ins, s, n);
      SessionConserved(st, ins[..n], s);
      assert CleanChangeAt(st, ins, s, n);
      OwnStepConserves(At(st, ins, n), ins[n], s, OwnBatches(st, ins[..n], s),
        PendingOf(st, s) + OwnAcks(st, ins[..n], s));
      Seqs.Assoc(PendingOf(st, s), OwnAcks(st, ins[..n], s), OwnAck(At(st, ins, n), ins[n], s));
    }
  }

  lemma {:induction false} BatchRepliesCarry(st: State, ins: seq<Input>, s: u16)
    ensures AllCarried(BatchReplies(st, ins, s), OwnBatches(st, ins, s))
  {
    if ins != [] {
      var n := |ins| - 1;
      var st' := At(st, ins, n);
      BatchRepliesCarry(st, ins[..n], s);
      if OwnBatch(st', ins[n], s) != [] {
        FlushIsCarried(st', ins[n], Search(st', s).value);
        CarriedSnoc(BatchReplies(st, ins[..n], s), OwnBatches(st, ins[..n], s),
          Effects(st', ins[n])[0].reply, Batch(st', ins[n], Search(st', s).value));
      }
    }
  }

  /** One acknowledgement for every DATA that names the session: what was stored, and where. */
  function DataAcks(ins: seq<Input>, s: u16): seq<Entry> {
    if ins == [] then [] else DataAcks(ins[..|ins| - 1], s) + DataAck(ins[|ins| - 1], s)
  }

  function DataAck(input: Input, s: u16): seq<Entry> {
    if input.req.Data? && input.req.sid == s
    then [Entry(Stored(input), input.req.offset, |input.req.payload|)] else []
  }

  function Stored(input: Input): u32
    requires input.req.Data?
  {
    if input.env.written < |input.req.payload| then input.env.written else |input.req.payload|
  }

  lemma AckWithoutError(st: State, input: Input, s: u16)
    requires !ErrorFor(st, input, s)
    ensures OwnAck(st, input, s) == DataAck(input, s)
  {
  }

  lemma {:induction false} AcksWithoutErrors(st: State, ins: seq<Input>, s: u16)
    requires NoErrors(st, ins, s)
    ensures OwnAcks(st, ins, s) == DataAcks(ins, s)
  {
    if ins != [] {
      var n := |ins| - 1;
      NoErrorsPrefix(st, ins, s, n);
      AcksWithoutErrors(st, ins[..n], s);
      assert !ErrorAt(st, ins, s, n);
      AckWithoutError(At(st, ins, n), ins[n], s);
    }
  }

  lemma PendingOfNotBlank(st: State, s: u16)
    ensures NO_ENTRY !in PendingOf(st, s)
  {
    if Search(st, s).Some? {
      PendingIsNotBlank(st.slots[Search(st, s).value]);
    }
  }

  /** Conservation as the ground can check it, on everything the service sends. If session `s` is
      never answered with an error, opens and closes with nothing pending, and sends no empty DATA
      at offset 0, then the telemetry under its id, without the padding, and then what is still
      pending, is one acknowledgement for each of its DATA commands, in order. */
  lemma LogConserved(st: State, ins: seq<Input>, s: u16)
    requires NoErrors(st, ins, s) && AlwaysClean(st, ins, s) && NO_ENTRY !in DataAcks(ins, s)
    ensures Seqs.Flatten(Readings(HeardOver(st, ins, s))) + PendingOf(After(st, ins), s)
         == PendingOf(st, s) + DataAcks(ins, s)
  {
    HeardAreBatches(st, ins, s);
    SessionConserved(st, ins, s);
    AcksWithoutErrors(st, ins, s);
    BatchRepliesCarry(st, ins, s);
    PendingOfNotBlank(st, s);
    var batches := OwnBatches(st, ins, s);
    assert NO_ENTRY !in Seqs.Flatten(batches) by {
      assert NO_ENTRY !in Seqs.Flatten(batches) + PendingOf(After(st, ins), s);
    }
    ReadingsAreBatches(BatchReplies(st, ins, s), batches);
  }

  lemma CleanWhenChanged(st: State, input: Input, s: u16)
    requires IdleNow(st) && IdleNow(Step(st, input))
    ensures CleanChange(st, input, s)
  {
    if Search(st, s).Some? && Search(Step(st, input), s).None? {
      var j := Search(st, s).value;
      ChangeOfSlot(st, input, s, j);
      OtherCommand(st, input, j);
    } else if Search(st, s).None? && Search(Step(st, input), s).Some? {
      var j := Search(Step(st, input), s).value;
      ChangeOfSlot(st, input, s, j);
      OtherCommand(st, input, j);
    }
  }

  /** A ground that closes every session at the right moments has this of all of them. */
  lemma CleanClosesSuffice(st: State, ins: seq<Input>, s: u16)
    requires NonePending(st) && WellClosed(st, ins)
    ensures AlwaysClean(st, ins, s)
  {
    WellClosedIffIdle(st, ins);
    forall k: nat | k < |ins| ensures CleanChangeAt(st, ins, s, k) {
      Seqs.PrefixSnoc(ins, k);
      AfterSnoc(st, ins[..k], ins[k]);
      assert IdleNow(At(st, ins, k)) && IdleNow(At(st, ins, k + 1));
      CleanWhenChanged(At(st, ins, k), ins[k], s);
    }
  }

  /** The ground's balance, in what it sends and hears. If it closes every session at the right
      moments, and session `s` is never answered with an error and sends no empty DATA at offset 0,
      then it has heard one acknowledgement for each DATA of `s`, in order, except for the last
      few full chunks of a session that is still open: as many as `OwnFull` is over a multiple of
      twenty. */
  lemma GroundBalance(st: State, ins: seq<Input>, s: u16)
    requires NonePending(st) && WellClosed(st, ins)
    requires NoErrors(st, ins, s) && NO_ENTRY !in DataAcks(ins, s)
    ensures var due := if Search(After(st, ins), s).Some? then OwnFull(st, ins, s) % REPLY_ENTRIES else 0;
      && due <= |DataAcks(ins, s)|
      && Seqs.Flatten(Readings(HeardOver(st, ins, s))) == DataAcks(ins, s)[..|DataAcks(ins, s)| - due]
  {
    CleanClosesSuffice(st, ins, s);
    LogConserved(st, ins, s);
    WellClosedIffIdle(st, ins);
    if Search(After(st, ins), s).Some? {
      PendingIsOwnFull(st, ins, s);
    }
    Remainder(Seqs.Flatten(Readings(HeardOver(st, ins, s))), PendingOf(After(st, ins), s), DataAcks(ins, s));
  }

  lemma Remainder(heard: seq<Entry>, due: seq<Entry>, all: seq<Entry>)
    requires heard + due == all
    ensures |due| <= |all| && heard == all[..|all| - |due|]
  {
  }
}
