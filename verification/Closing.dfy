/** Closing sessions so that they leave nothing behind, and what the ground gains by it. */
module Closing {
  import opened Wire
  import opened FileStore
  import opened Upload
  import opened Acks
  import Attribution
  import Isolation
  import Sessions
  import Seqs

  /** A DATA of session `s`. */
  predicate OwnData(st: State, input: Input, s: u16) {
    input.req.Data? && input.req.sid == s && Search(st, s).Some?
  }

  /** What session `s` has pending; nothing if it is not open. */
  ghost function PendingOf(st: State, s: u16): seq<Entry> {
    if Search(st, s).Some? then Pending(st.slots[Search(st, s).value]) else []
  }

  lemma SlotAfterData(st: State, input: Input, s: u16)
    requires OwnData(st, input, s)
    ensures Search(Step(st, input), s) == Search(st, s)
  {
    SearchSameIds(st.slots, Step(st, input).slots, st.used, s);
  }

  /** A session that is closed or opened had its slot idle just after or just before. */
  lemma ChangeOfSlot(st: State, input: Input, s: u16, j: nat)
    requires (Search(st, s) == Some(j) && Search(Step(st, input), s).None?)
          || (Search(st, s).None? && Search(Step(st, input), s) == Some(j))
    ensures j < SESSIONS && !Accepts(st, input, j)
    ensures Search(st, s).Some? ==> j !in Step(st, input).used
    ensures Search(st, s).None? ==> j !in st.used
  {
    if !Isolation.Own(input, s) {
      Isolation.SearchOfOthers(st, input, s);
    } else if input.req.Open? && st.unused != [] {
      Sessions.FreshSlot(st);
      Sessions.SearchAfterOpen(st, s, input.req.name, input.env, s, Step(st, input));
    } else if input.req.Data? && Search(st, s).Some? {
      SlotAfterData(st, input, s);
    } else if input.req.Close? && Search(st, s).Some? {
      RemoveNoDup(st.used, j);
    }
  }

  /** No other command changes what a session has pending while it stays open. */
  lemma StaysPending(st: State, input: Input, s: u16)
    requires !OwnData(st, input, s) && Search(st, s).Some? && Search(Step(st, input), s).Some?
    ensures PendingOf(Step(st, input), s) == PendingOf(st, s)
  {
    if !Isolation.Own(input, s) {
      Isolation.SearchOfOthers(st, input, s);
    }
    OtherCommand(st, input, Search(st, s).value);
  }

  // ---------- when to close ----------

  /** The full chunks of session `s` that were accepted since it was opened and since its last short
      one: a count that the ground can keep for each of its sessions, without knowing of slots,
      since a DATA that is not accepted is answered so at once (`Sessions.DataVerdicts`). */
  function OwnFull(st: State, ins: seq<Input>, s: u16): nat {
    if ins == [] then 0
    else OwnFullNext(OwnFull(st, ins[..|ins| - 1], s), At(st, ins, |ins| - 1), ins[|ins| - 1], s)
  }

  function OwnFullNext(full: nat, st: State, input: Input, s: u16): nat {
    if Search(st, s).None? then 0
    else if !OwnData(st, input, s) then full
    else if |input.req.payload| == UPLOAD_DATA_LEN then full + 1
    else 0
  }

  predicate ClosesWell(st: State, input: Input, full: nat) {
    input.req.Close? && Search(st, input.req.sid).Some? ==> full % REPLY_ENTRIES == 0
  }

  ghost predicate ClosesWellAt(st: State, ins: seq<Input>, k: nat)
    requires k < |ins|
  {
    ins[k].req.Close? ==> ClosesWell(At(st, ins, k), ins[k], OwnFull(st, ins[..k], ins[k].req.sid))
  }

  /** At every CLOSE of every session its own count is a multiple of twenty. */
  ghost predicate WellClosed(st: State, ins: seq<Input>) {
    forall k: nat :: k < |ins| ==> ClosesWellAt(st, ins, k)
  }

  /** Nothing is pending in any slot, as at power-up. */
  ghost predicate NonePending(st: State) {
    forall j :: 0 <= j < SESSIONS ==> Pending(st.slots[j]) == []
  }

  /** Nothing is pending in the slots that are not in use. */
  ghost predicate IdleNow(st: State) {
    forall j :: 0 <= j < SESSIONS && j !in st.used ==> Pending(st.slots[j]) == []
  }

  ghost predicate IdleThroughout(st: State, ins: seq<Input>) {
    forall k: nat :: k <= |ins| ==> IdleNow(At(st, ins, k))
  }

  lemma IdleThroughoutPrefix(st: State, ins: seq<Input>, n: nat)
    requires IdleThroughout(st, ins) && n <= |ins|
    ensures IdleThroughout(st, ins[..n])
  {
    forall k: nat | k <= n ensures IdleNow(At(st, ins[..n], k)) {
      Seqs.PrefixOfPrefix(ins, k, n);
      assert IdleNow(At(st, ins, k));
    }
  }

  lemma WellClosedPrefix(st: State, ins: seq<Input>, n: nat)
    requires WellClosed(st, ins) && n <= |ins|
    ensures WellClosed(st, ins[..n])
  {
    forall k: nat | k < n ensures ClosesWellAt(st, ins[..n], k) {
      Seqs.PrefixOfPrefix(ins, k, n);
      assert ClosesWellAt(st, ins, k);
    }
  }

  lemma FullDataStep(st: State, input: Input, s: u16, full: nat)
    requires OwnData(st, input, s) && |input.req.payload| == UPLOAD_DATA_LEN
    requires |PendingOf(st, s)| == full % REPLY_ENTRIES
    ensures |PendingOf(Step(st, input), s)| == (full + 1) % REPLY_ENTRIES
  {
    SlotAfterData(st, input, s);
    FullStep(st, input, Search(st, s).value, full);
  }

  lemma ShortDataStep(st: State, input: Input, s: u16)
    requires OwnData(st, input, s) && |input.req.payload| != UPLOAD_DATA_LEN
    ensures PendingOf(Step(st, input), s) == []
  {
    SlotAfterData(st, input, s);
    AcceptedData(st, input, Search(st, s).value);
  }

  lemma OwnDataStep(st: State, input: Input, s: u16, full: nat)
    requires OwnData(st, input, s) && |PendingOf(st, s)| == full % REPLY_ENTRIES
    ensures |PendingOf(Step(st, input), s)| == OwnFullNext(full, st, input, s) % REPLY_ENTRIES
  {
    if |input.req.payload| == UPLOAD_DATA_LEN {
      FullDataStep(st, input, s, full);
    } else {
      ShortDataStep(st, input, s);
    }
  }

  lemma OwnFullStep(st: State, input: Input, s: u16, full: nat)
    requires IdleNow(st) && Search(Step(st, input), s).Some?
    requires Search(st, s).Some? ==> |PendingOf(st, s)| == full % REPLY_ENTRIES
    ensures |PendingOf(Step(st, input), s)| == OwnFullNext(full, st, input, s) % REPLY_ENTRIES
  {
    if Search(st, s).None? {
      var j := Search(Step(st, input), s).value;
      ChangeOfSlot(st, input, s, j);
      OtherCommand(st, input, j);
    } else if OwnData(st, input, s) {
      OwnDataStep(st, input, s, full);
    } else {
      StaysPending(st, input, s);
    }
  }

  /** While idle slots are clean, what a session has pending is its own count modulo twenty. */
  lemma {:induction false} PendingIsOwnFull(st: State, ins: seq<Input>, s: u16)
    requires NonePending(st) && IdleThroughout(st, ins)
    requires Search(After(st, ins), s).Some?
    ensures |PendingOf(After(st, ins), s)| == OwnFull(st, ins, s) % REPLY_ENTRIES
  {
    if ins != [] {
      var n := |ins| - 1;
      IdleThroughoutPrefix(st, ins, n);
      if Search(At(st, ins, n), s).Some? {
        PendingIsOwnFull(st, ins[..n], s);
      }
      assert IdleNow(At(st, ins, n));
      OwnFullStep(At(st, ins, n), ins[n], s, OwnFull(st, ins[..n], s));
    }
  }

  /** Only a CLOSE of its session takes a slot out of use. */
  lemma OutOfUse(st: State, input: Input, j: nat)
    requires j in st.used && j !in Step(st, input).used
    ensures input.req.Close? && Search(st, input.req.sid) == Some(j)
  {
  }

  lemma IdleStep(st: State, input: Input)
    requires IdleNow(st)
    requires input.req.Close? ==> PendingOf(st, input.req.sid) == []
    ensures IdleNow(Step(st, input))
  {
    forall j | 0 <= j < SESSIONS && j !in Step(st, input).used ensures Pending(Step(st, input).slots[j]) == [] {
      Attribution.OtherCommandWhenIdle(st, input, j);
      OtherCommand(st, input, j);
      if j in st.used {
        OutOfUse(st, input, j);
      }
    }
  }

  lemma {:induction false} WellClosedKeepsIdle(st: State, ins: seq<Input>)
    requires NonePending(st) && WellClosed(st, ins)
    ensures IdleThroughout(st, ins)
  {
    if ins != [] {
      var n := |ins| - 1;
      WellClosedPrefix(st, ins, n);
      WellClosedKeepsIdle(st, ins[..n]);
      var s := At(st, ins, n);
      assert At(st, ins[..n], n) == s by { Seqs.PrefixOfPrefix(ins, n, n); }
      if ins[n].req.Close? && Search(s, ins[n].req.sid).Some? {
        assert ClosesWellAt(st, ins, n);
        PendingIsOwnFull(st, ins[..n], ins[n].req.sid);
      }
      IdleStep(s, ins[n]);
      IdleSnoc(st, ins);
    }
  }

  lemma IdleSnoc(st: State, ins: seq<Input>)
    requires ins != [] && IdleThroughout(st, ins[..|ins| - 1]) && IdleNow(After(st, ins))
    ensures IdleThroughout(st, ins)
  {
    var n := |ins| - 1;
    forall k: nat | k <= |ins| ensures IdleNow(At(st, ins, k)) {
      if k <= n {
        Seqs.PrefixOfPrefix(ins, k, n);
        assert IdleNow(At(st, ins[..n], k));
      } else {
        assert ins[..k] == ins;
      }
    }
  }

  lemma NothingLeftAtClose(st: State, input: Input)
    requires input.req.Close? && IdleNow(Step(st, input))
    ensures PendingOf(st, input.req.sid) == []
  {
    var s := input.req.sid;
    if Search(st, s).Some? {
      var j := Search(st, s).value;
      Sessions.SearchAfterClose(st, s, input.env, s, Step(st, input));
      ChangeOfSlot(st, input, s, j);
      OtherCommand(st, input, j);
    }
  }

  lemma IdleMeansWellClosed(st: State, ins: seq<Input>, k: nat)
    requires NonePending(st) && IdleThroughout(st, ins) && k < |ins|
    ensures ClosesWellAt(st, ins, k)
  {
    if ins[k].req.Close? && Search(At(st, ins, k), ins[k].req.sid).Some? {
      Seqs.PrefixSnoc(ins, k);
      AfterSnoc(st, ins[..k], ins[k]);
      assert IdleNow(At(st, ins, k + 1));
      NothingLeftAtClose(At(st, ins, k), ins[k]);
      IdleThroughoutPrefix(st, ins, k);
      PendingIsOwnFull(st, ins[..k], ins[k].req.sid);
    }
  }

  /** The rule for the ground, session by session: no slot out of use ever has anything pending if
      and only if every session is closed when its own count is a multiple of twenty. */
  lemma WellClosedIffIdle(st: State, ins: seq<Input>)
    requires NonePending(st)
    ensures WellClosed(st, ins) <==> IdleThroughout(st, ins)
  {
    if WellClosed(st, ins) {
      WellClosedKeepsIdle(st, ins);
    }
    if IdleThroughout(st, ins) {
      forall k: nat | k < |ins| ensures ClosesWellAt(st, ins, k) {
        IdleMeansWellClosed(st, ins, k);
      }
    }
  }

  // ---------- isolation of the replies ----------

  lemma CleanTwinStep(a: State, b: State, s: u16, own: set<Name>, input: Input)
    requires Isolation.Twins(a, b, s, own) && IdleNow(a) && IdleNow(b) && IdleNow(Step(a, input))
    requires input.req.Open? ==> (Isolation.Own(input, s) <==> input.req.name in own)
    requires Isolation.Own(input, s) ==> Isolation.HasRoom(Sessions.ViewOf(a), input)
    ensures Isolation.Twins(Step(a, input), if Isolation.Own(input, s) then Step(b, input) else b, s, own)
    ensures Isolation.Own(input, s) ==> Effects(a, input) == Effects(b, input)
    ensures Isolation.Own(input, s) ==> IdleNow(Step(b, input))
  {
    Isolation.TwinStep(a, b, s, own, input);
    if Isolation.Own(input, s) {
      if input.req.Close? {
        NothingLeftAtClose(a, input);
      }
      IdleStep(b, input);
    }
  }

  lemma {:induction false} CleanTwinRuns(a: State, b: State, ins: seq<Input>, s: u16, own: set<Name>)
    requires Isolation.Twins(a, b, s, own) && IdleThroughout(a, ins) && IdleNow(b)
    requires Isolation.Separate(ins, s, own) && Isolation.RoomFor(a, ins, s)
    ensures Isolation.Twins(After(a, ins), After(b, Isolation.Alone(ins, s)), s, own)
    ensures IdleNow(After(b, Isolation.Alone(ins, s)))
  {
    if ins != [] {
      var n := |ins| - 1;
      IdleThroughoutPrefix(a, ins, n);
      Isolation.SeparatePrefix(ins, s, own, n);
      RoomPrefix(a, ins, s, n);
      CleanTwinRuns(a, b, ins[..n], s, own);
      OneTwinStep(a, b, ins, s, own, n);
      Isolation.AfterAloneSnoc(b, ins, s);
    }
  }

  lemma RoomPrefix(a: State, ins: seq<Input>, s: u16, n: nat)
    requires Isolation.RoomFor(a, ins, s) && n <= |ins|
    ensures Isolation.RoomFor(a, ins[..n], s)
  {
    forall k: nat | k < n && Isolation.Own(ins[..n][k], s) ensures Isolation.RoomAt(a, ins[..n], k) {
      Seqs.PrefixOfPrefix(ins, k, n);
      assert Isolation.RoomAt(a, ins, k);
    }
  }

  lemma OneTwinStep(a: State, b: State, ins: seq<Input>, s: u16, own: set<Name>, k: nat)
    requires k < |ins| && IdleThroughout(a, ins)
    requires Isolation.Separate(ins, s, own) && Isolation.RoomFor(a, ins, s)
    requires Isolation.Twins(At(a, ins, k), After(b, Isolation.Alone(ins[..k], s)), s, own)
    requires IdleNow(After(b, Isolation.Alone(ins[..k], s)))
    ensures var twin := After(b, Isolation.Alone(ins[..k], s));
      var twin' := if Isolation.Own(ins[k], s) then Step(twin, ins[k]) else twin;
      && Isolation.Twins(Step(At(a, ins, k), ins[k]), twin', s, own) && IdleNow(twin')
      && (Isolation.Own(ins[k], s) ==> EffectsAt(a, ins, k) == Effects(twin, ins[k]))
  {
    Seqs.PrefixSnoc(ins, k);
    AfterSnoc(a, ins[..k], ins[k]);
    assert IdleNow(At(a, ins, k)) && IdleNow(At(a, ins, k + 1));
    if Isolation.Own(ins[k], s) {
      assert Isolation.RoomAt(a, ins, k);
    }
    CleanTwinStep(At(a, ins, k), After(b, Isolation.Alone(ins[..k], s)), s, own, ins[k]);
  }

  lemma IsolatedWhenIdle(a: State, b: State, ins: seq<Input>, s: u16, own: set<Name>, k: nat)
    requires Isolation.Twins(a, b, s, own) && IdleThroughout(a, ins) && IdleNow(b)
    requires Isolation.Separate(ins, s, own) && Isolation.RoomFor(a, ins, s)
    requires k < |ins| && Isolation.Own(ins[k], s)
    ensures EffectsAt(a, ins, k) == Effects(After(b, Isolation.Alone(ins[..k], s)), ins[k])
  {
    IdleThroughoutPrefix(a, ins, k);
    Isolation.SeparatePrefix(ins, s, own, k);
    RoomPrefix(a, ins, s, k);
    CleanTwinRuns(a, b, ins[..k], s, own);
    OneTwinStep(a, b, ins, s, own, k);
  }

  /** Reply isolation in terms of the interleaved run alone. From power-up, if each OPEN of session
      `s` finds room, nobody else opens its files, and every session is closed at the right moment,
      then every packet of `s` is answered, or freed, as it would be in the run of `s` alone. */
  lemma IsolatedFromPowerUp(files: map<Name, Bytes>, ins: seq<Input>, s: u16, own: set<Name>, k: nat)
    requires Isolation.Separate(ins, s, own) && Isolation.RoomFor(Init(files), ins, s)
    requires WellClosed(Init(files), ins)
    requires k < |ins| && Isolation.Own(ins[k], s)
    ensures EffectsAt(Init(files), ins, k) == Effects(After(Init(files), Isolation.Alone(ins[..k], s)), ins[k])
  {
    var st := Init(files);
    Isolation.TwinsAtPowerUp(files, s, own);
    WellClosedIffIdle(st, ins);
    IsolatedWhenIdle(st, st, ins, s, own, k);
  }
}
