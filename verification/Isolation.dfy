/** A session in the middle of others fares as it would alone. */
module Isolation {
  import opened Wire
  import opened FileStore
  import opened Upload
  import opened Sessions
  import Acks
  import Attribution
  import Seqs

  /** The command names this session. */
  predicate Own(input: Input, s: u16) {
    match input.req
    case Open(sid, _) => sid == s
    case Data(sid, _, _) => sid == s
    case Close(sid) => sid == s
    case _ => false
  }

  /** The run without the commands of other sessions and without malformed ones. */
  function Alone(ins: seq<Input>, s: u16): seq<Input> {
    if ins == [] then []
    else
      var n := |ins| - 1;
      Alone(ins[..n], s) + if Own(ins[n], s) then [ins[n]] else []
  }

  lemma {:induction false} AloneIsOwn(ins: seq<Input>, s: u16)
    ensures forall k :: 0 <= k < |Alone(ins, s)| ==> Own(Alone(ins, s)[k], s)
  {
    if ins != [] {
      AloneIsOwn(ins[..|ins| - 1], s);
    }
  }

  /** Session `s` opens only files of its own, `files`; the others keep away from them. */
  ghost predicate Separate(ins: seq<Input>, s: u16, files: set<Name>) {
    forall k :: 0 <= k < |ins| && ins[k].req.Open? ==> (Own(ins[k], s) <==> ins[k].req.name in files)
  }

  /** The service among others, `v`, and the service alone, `w`, agree on session `s` and on its
      files. */
  ghost predicate Alike(v: View, w: View, s: u16, files: set<Name>) {
    && (s in v.sessions <==> s in w.sessions)
    && (s in v.sessions ==> v.sessions[s].name == w.sessions[s].name && v.sessions[s].name in files)
    && (forall t :: t in v.sessions && t != s ==> v.sessions[t].name !in files)
    && w.sessions.Keys <= {s}
    && (forall f :: f in files ==> (f in v.fs.files <==> f in w.fs.files) && Content(v.fs, f) == Content(w.fs, f))
  }

  function Verdict(v: View, input: Input): int {
    Serve(v, input.req, input.env).1
  }

  /** An OPEN of a new session finds fewer than five others. */
  predicate HasRoom(v: View, input: Input) {
    input.req.Open? ==> input.req.sid in v.sessions || |v.sessions| < SESSIONS
  }

  lemma FullVerdict(v: View, input: Input)
    ensures Verdict(v, input) == -EMFILE <==> !HasRoom(v, input)
  {
  }

  lemma AtMostOne(m: map<u16, Session>, s: u16)
    requires m.Keys <= {s}
    ensures |m| <= 1
  {
    if s in m {
      assert m.Keys == {s};
    } else {
      assert m.Keys == {};
    }
    assert |m| == |m.Keys|;
  }

  /** An own command does the same in both and is answered the same, unless there was no room. */
  lemma OwnStep(v: View, w: View, s: u16, files: set<Name>, input: Input)
    requires Alike(v, w, s, files) && Own(input, s)
    requires input.req.Open? ==> input.req.name in files
    ensures HasRoom(w, input)
    ensures HasRoom(v, input) ==>
      && Verdict(v, input) == Verdict(w, input)
      && Alike(Serve(v, input.req, input.env).0, Serve(w, input.req, input.env).0, s, files)
  {
    AtMostOne(w.sessions, s);
  }

  lemma OthersStep(v: View, w: View, s: u16, files: set<Name>, input: Input)
    requires Alike(v, w, s, files) && !Own(input, s)
    requires input.req.Open? ==> input.req.name !in files
    ensures Alike(Serve(v, input.req, input.env).0, w, s, files)
  {
  }

  /** No OPEN of session `s` finds five other sessions. */
  ghost predicate AlwaysRoom(v: View, ins: seq<Input>, s: u16) {
    forall k: nat :: k < |ins| && Own(ins[k], s) ==> HasRoom(ServeAll(v, ins[..k]), ins[k])
  }

  ghost predicate SameVerdicts(v: View, w: View, ins: seq<Input>, s: u16) {
    forall k: nat :: k < |ins| && Own(ins[k], s) ==>
      Verdict(ServeAll(v, ins[..k]), ins[k]) == Verdict(ServeAll(w, Alone(ins[..k], s)), ins[k])
  }

  lemma ServeAllSnoc(v: View, ins: seq<Input>, last: Input)
    ensures ServeAll(v, ins + [last]) == Serve(ServeAll(v, ins), last.req, last.env).0
  {
    Seqs.SnocPrefix(ins, last);
  }

  lemma AlwaysRoomPrefix(v: View, ins: seq<Input>, s: u16, n: nat)
    requires AlwaysRoom(v, ins, s) && n <= |ins|
    ensures AlwaysRoom(v, ins[..n], s)
  {
    forall k: nat | k < n && Own(ins[..n][k], s) ensures HasRoom(ServeAll(v, ins[..n][..k]), ins[..n][k]) {
      Seqs.PrefixOfPrefix(ins, k, n);
    }
  }

  lemma SeparatePrefix(ins: seq<Input>, s: u16, files: set<Name>, n: nat)
    requires Separate(ins, s, files) && n <= |ins|
    ensures Separate(ins[..n], s, files)
  {
  }

  lemma IsolatedStep(a: View, b: View, s: u16, files: set<Name>, input: Input)
    requires Alike(a, b, s, files)
    requires input.req.Open? ==> (Own(input, s) <==> input.req.name in files)
    requires Own(input, s) ==> HasRoom(a, input)
    ensures Alike(Serve(a, input.req, input.env).0,
              if Own(input, s) then Serve(b, input.req, input.env).0 else b, s, files)
  {
    if Own(input, s) {
      OwnStep(a, b, s, files, input);
    } else {
      OthersStep(a, b, s, files, input);
    }
  }

  lemma AloneSnoc(w: View, ins: seq<Input>, s: u16)
    requires ins != []
    ensures var n := |ins| - 1;
      ServeAll(w, Alone(ins, s)) ==
        if Own(ins[n], s) then Serve(ServeAll(w, Alone(ins[..n], s)), ins[n].req, ins[n].env).0
        else ServeAll(w, Alone(ins[..n], s))
  {
    var n := |ins| - 1;
    if Own(ins[n], s) {
      ServeAllSnoc(w, Alone(ins[..n], s), ins[n]);
    } else {
      assert Alone(ins, s) == Alone(ins[..n], s);
    }
  }

  lemma {:induction false} ViewIsolated(v: View, w: View, ins: seq<Input>, s: u16, files: set<Name>)
    requires Alike(v, w, s, files) && Separate(ins, s, files) && AlwaysRoom(v, ins, s)
    ensures Alike(ServeAll(v, ins), ServeAll(w, Alone(ins, s)), s, files)
  {
    if ins != [] {
      var n := |ins| - 1;
      AlwaysRoomPrefix(v, ins, s, n);
      SeparatePrefix(ins, s, files, n);
      ViewIsolated(v, w, ins[..n], s, files);
      IsolatedStep(ServeAll(v, ins[..n]), ServeAll(w, Alone(ins[..n], s)), s, files, ins[n]);
      AloneSnoc(w, ins, s);
    }
  }

  lemma {:induction false} AloneHasRoom(w: View, ins: seq<Input>, s: u16)
    requires w.sessions.Keys <= {s}
    requires forall k :: 0 <= k < |ins| ==> Own(ins[k], s)
    ensures ServeAll(w, ins).sessions.Keys <= {s}
  {
    if ins != [] {
      AloneHasRoom(w, ins[..|ins| - 1], s);
    }
  }

  lemma RoomForOne(v: View, input: Input, s: u16)
    requires v.sessions.Keys <= {s}
    ensures HasRoom(v, input)
  {
    AtMostOne(v.sessions, s);
  }

  lemma ViewVerdictsIffRoom(v: View, w: View, ins: seq<Input>, s: u16, files: set<Name>)
    requires Alike(v, w, s, files) && Separate(ins, s, files)
    ensures SameVerdicts(v, w, ins, s) <==> AlwaysRoom(v, ins, s)
  {
    if AlwaysRoom(v, ins, s) {
      forall k: nat | k < |ins| && Own(ins[k], s)
        ensures Verdict(ServeAll(v, ins[..k]), ins[k]) == Verdict(ServeAll(w, Alone(ins[..k], s)), ins[k])
      {
        AlwaysRoomPrefix(v, ins, s, k);
        ViewIsolated(v, w, ins[..k], s, files);
        OwnStep(ServeAll(v, ins[..k]), ServeAll(w, Alone(ins[..k], s)), s, files, ins[k]);
      }
    }
    if SameVerdicts(v, w, ins, s) {
      forall k: nat | k < |ins| && Own(ins[k], s) ensures HasRoom(ServeAll(v, ins[..k]), ins[k]) {
        AloneIsOwn(ins[..k], s);
        AloneHasRoom(w, Alone(ins[..k], s), s);
        RoomForOne(ServeAll(w, Alone(ins[..k], s)), ins[k], s);
        FullVerdict(ServeAll(w, Alone(ins[..k], s)), ins[k]);
        FullVerdict(ServeAll(v, ins[..k]), ins[k]);
      }
    }
  }

  // ---------- the same on the slots and lists ----------

  ghost predicate RoomAt(st: State, ins: seq<Input>, k: nat)
    requires k < |ins|
  {
    HasRoom(ViewOf(At(st, ins, k)), ins[k])
  }

  /** Whenever session `s` is opened it is open already, or fewer than five others are. */
  ghost predicate RoomFor(st: State, ins: seq<Input>, s: u16) {
    forall k: nat :: k < |ins| && Own(ins[k], s) ==> RoomAt(st, ins, k)
  }

  lemma RoomOnMap(st: State, ins: seq<Input>, s: u16)
    ensures RoomFor(st, ins, s) <==> AlwaysRoom(ViewOf(st), ins, s)
  {
    forall k: nat | k < |ins| ensures RoomAt(st, ins, k) <==> HasRoom(ServeAll(ViewOf(st), ins[..k]), ins[k]) {
      RunView(st, ins[..k]);
    }
  }

  /** In any interleaving with other sessions that use other files, session `s` and its files end
      up as if it had been alone. */
  lemma SessionIsolated(a: State, b: State, ins: seq<Input>, s: u16, files: set<Name>)
    requires Alike(ViewOf(a), ViewOf(b), s, files) && Separate(ins, s, files) && RoomFor(a, ins, s)
    ensures Alike(ViewOf(After(a, ins)), ViewOf(After(b, Alone(ins, s))), s, files)
  {
    RoomOnMap(a, ins, s);
    ViewIsolated(ViewOf(a), ViewOf(b), ins, s, files);
    RunView(a, ins);
    RunView(b, Alone(ins, s));
  }

  /** The `k`-th command gets the result code that it would get in the run of its session alone. */
  ghost predicate SameVerdictAt(a: State, b: State, ins: seq<Input>, s: u16, k: nat)
    requires k < |ins|
  {
    Verdict(ViewOf(At(a, ins, k)), ins[k]) == Verdict(ViewOf(After(b, Alone(ins[..k], s))), ins[k])
  }

  ghost predicate AllVerdictsSame(a: State, b: State, ins: seq<Input>, s: u16) {
    forall k: nat :: k < |ins| && Own(ins[k], s) ==> SameVerdictAt(a, b, ins, s, k)
  }

  lemma VerdictsOnMap(a: State, b: State, ins: seq<Input>, s: u16)
    ensures AllVerdictsSame(a, b, ins, s) <==> SameVerdicts(ViewOf(a), ViewOf(b), ins, s)
  {
    forall k: nat | k < |ins|
      ensures ViewOf(At(a, ins, k)) == ServeAll(ViewOf(a), ins[..k])
      ensures ViewOf(After(b, Alone(ins[..k], s))) == ServeAll(ViewOf(b), Alone(ins[..k], s))
    {
      RunView(a, ins[..k]);
      RunView(b, Alone(ins[..k], s));
    }
  }

  /** Isolation is exact: every command of session `s` gets the result code it would get alone if
      and only if none of its OPENs comes while five other sessions are open. */
  lemma SameVerdictsIffRoom(a: State, b: State, ins: seq<Input>, s: u16, files: set<Name>)
    requires Alike(ViewOf(a), ViewOf(b), s, files) && Separate(ins, s, files)
    ensures AllVerdictsSame(a, b, ins, s) <==> RoomFor(a, ins, s)
  {
    RoomOnMap(a, ins, s);
    VerdictsOnMap(a, b, ins, s);
    ViewVerdictsIffRoom(ViewOf(a), ViewOf(b), ins, s, files);
  }

  // ---------- the replies, byte for byte ----------

  /** Both services hold the same pending acknowledgements for session `s`. */
  ghost predicate SameAcks(a: State, b: State, s: u16) {
    && (Search(a, s).Some? <==> Search(b, s).Some?)
    && (Search(a, s).Some? ==> Pending(a.slots[Search(a, s).value]) == Pending(b.slots[Search(b, s).value]))
  }

  ghost predicate Twins(a: State, b: State, s: u16, files: set<Name>) {
    Alike(ViewOf(a), ViewOf(b), s, files) && SameAcks(a, b, s)
  }

  /** At power-up the service is its own twin, for any session and any set of files. */
  lemma TwinsAtPowerUp(files: map<Name, Bytes>, s: u16, own: set<Name>)
    ensures Twins(Init(files), Init(files), s, own)
  {
  }

  /** If the command opens a session, the slot it takes has nothing pending. */
  ghost predicate CleanOpen(st: State, input: Input) {
    forall j :: 0 <= j < SESSIONS && Attribution.OpensInto(st, input, j) ==> Pending(st.slots[j]) == []
  }

  lemma OwnEffects(a: State, b: State, s: u16, files: set<Name>, input: Input)
    requires Twins(a, b, s, files) && Own(input, s)
    requires Verdict(ViewOf(a), input) == Verdict(ViewOf(b), input)
    ensures Effects(a, input) == Effects(b, input)
  {
    PoolRefinesMap(a, input);
    PoolRefinesMap(b, input);
    if input.req.Data? && Search(a, s).Some? {
      var i, j := Search(a, s).value, Search(b, s).value;
      Acks.AcceptedData(a, input, i);
      Acks.AcceptedData(b, input, j);
      assert Acks.Batch(a, input, i) == Acks.Batch(b, input, j);
      Attribution.PacketConsumed(a, input);
      Attribution.PacketConsumed(b, input);
    }
  }

  lemma SearchOfOthers(st: State, input: Input, s: u16)
    requires !Own(input, s)
    ensures Search(Step(st, input), s) == Search(st, s)
  {
    match input.req
    case Open(sid, name) =>
      if Search(st, sid).None? && st.unused != [] {
        SearchAfterOpen(st, sid, name, input.env, s, Step(st, input));
      }
    case Data(sid, offset, payload) =>
      SearchSameIds(st.slots, Step(st, input).slots, st.used, s);
    case Close(sid) =>
      SearchAfterClose(st, sid, input.env, s, Step(st, input));
    case _ =>
  }

  lemma OthersKeepAcks(a: State, b: State, s: u16, input: Input)
    requires SameAcks(a, b, s) && !Own(input, s)
    ensures SameAcks(Step(a, input), b, s)
  {
    SearchOfOthers(a, input, s);
    if Search(a, s).Some? {
      Acks.OtherCommand(a, input, Search(a, s).value);
    }
  }

  /** What session `s` has pending after one of its own commands, in terms of what it had. */
  lemma OwnPending(st: State, s: u16, input: Input)
    requires Own(input, s) && CleanOpen(st, input)
    ensures var st' := Step(st, input);
      Search(st', s).Some? ==>
        Pending(st'.slots[Search(st', s).value]) ==
          if Search(st, s).None? then []
          else if !input.req.Data? then Pending(st.slots[Search(st, s).value])
          else if Acks.Flushes(st, input, Search(st, s).value) then []
          else Acks.Batch(st, input, Search(st, s).value)
  {
    var st' := Step(st, input);
    match input.req
    case Open(sid, name) =>
      if Search(st, s).None? && st.unused != [] {
        SearchAfterOpen(st, s, name, input.env, s, st');
        FreshSlot(st);
        Acks.OtherCommand(st, input, st.unused[0]);
      }
    case Data(sid, offset, payload) =>
      SearchSameIds(st.slots, st'.slots, st.used, s);
      if Search(st, s).Some? {
        Acks.AcceptedData(st, input, Search(st, s).value);
      }
    case Close(sid) =>
      SearchAfterClose(st, s, input.env, s, st');
    case _ =>
  }

  lemma OwnKeepsAcks(a: State, b: State, s: u16, files: set<Name>, input: Input)
    requires Twins(a, b, s, files) && Own(input, s)
    requires CleanOpen(a, input) && CleanOpen(b, input)
    requires Verdict(ViewOf(a), input) == Verdict(ViewOf(b), input)
    requires Alike(ViewOf(Step(a, input)), ViewOf(Step(b, input)), s, files)
    ensures SameAcks(Step(a, input), Step(b, input), s)
  {
    OwnPending(a, s, input);
    OwnPending(b, s, input);
    if input.req.Data? && Search(a, s).Some? {
      Acks.AcceptedData(a, input, Search(a, s).value);
      Acks.AcceptedData(b, input, Search(b, s).value);
    }
  }

  /** One command of the interleaved run, with or without its twin in the run alone. */
  lemma TwinStep(a: State, b: State, s: u16, files: set<Name>, input: Input)
    requires Twins(a, b, s, files)
    requires input.req.Open? ==> (Own(input, s) <==> input.req.name in files)
    requires Own(input, s) ==>
      CleanOpen(a, input) && CleanOpen(b, input) && HasRoom(ViewOf(a), input)
    ensures Twins(Step(a, input), if Own(input, s) then Step(b, input) else b, s, files)
    ensures Own(input, s) ==> Effects(a, input) == Effects(b, input)
  {
    PoolRefinesMap(a, input);
    if Own(input, s) {
      PoolRefinesMap(b, input);
      OwnStep(ViewOf(a), ViewOf(b), s, files, input);
      OwnEffects(a, b, s, files, input);
      OwnKeepsAcks(a, b, s, files, input);
    } else {
      OthersStep(ViewOf(a), ViewOf(b), s, files, input);
      OthersKeepAcks(a, b, s, input);
    }
  }

  /** The hypotheses of reply isolation, in both runs: room for every OPEN of session `s`, and
      nothing pending in the slot it takes. */
  ghost predicate Undisturbed(a: State, b: State, ins: seq<Input>, s: u16) {
    forall k: nat :: k < |ins| && Own(ins[k], s) ==>
      && RoomAt(a, ins, k)
      && CleanOpen(At(a, ins, k), ins[k])
      && CleanOpen(After(b, Alone(ins[..k], s)), ins[k])
  }

  lemma UndisturbedPrefix(a: State, b: State, ins: seq<Input>, s: u16, n: nat)
    requires Undisturbed(a, b, ins, s) && n <= |ins|
    ensures Undisturbed(a, b, ins[..n], s)
  {
    forall k: nat | k < n && Own(ins[..n][k], s)
      ensures At(a, ins[..n], k) == At(a, ins, k) && ins[..n][..k] == ins[..k]
    {
      Seqs.PrefixOfPrefix(ins, k, n);
    }
  }

  lemma AfterAloneSnoc(b: State, ins: seq<Input>, s: u16)
    requires ins != []
    ensures var n := |ins| - 1;
      After(b, Alone(ins, s)) ==
        if Own(ins[n], s) then Step(After(b, Alone(ins[..n], s)), ins[n]) else After(b, Alone(ins[..n], s))
  {
    var n := |ins| - 1;
    if Own(ins[n], s) {
      AfterSnoc(b, Alone(ins[..n], s), ins[n]);
    } else {
      assert Alone(ins, s) == Alone(ins[..n], s);
    }
  }

  lemma {:induction false} TwinRuns(a: State, b: State, ins: seq<Input>, s: u16, files: set<Name>)
    requires Twins(a, b, s, files) && Separate(ins, s, files) && Undisturbed(a, b, ins, s)
    ensures Twins(After(a, ins), After(b, Alone(ins, s)), s, files)
  {
    if ins != [] {
      var n := |ins| - 1;
      UndisturbedPrefix(a, b, ins, s, n);
      SeparatePrefix(ins, s, files, n);
      TwinRuns(a, b, ins[..n], s, files);
      TwinStep(At(a, ins, n), After(b, Alone(ins[..n], s)), s, files, ins[n]);
      AfterAloneSnoc(b, ins, s);
    }
  }

  /** Every packet of session `s` is answered as it would be in the run alone: the same telemetry
      in the same places, and the same packets freed without one. */
  lemma RepliesIsolated(a: State, b: State, ins: seq<Input>, s: u16, files: set<Name>, k: nat)
    requires Twins(a, b, s, files) && Separate(ins, s, files) && Undisturbed(a, b, ins, s)
    requires k < |ins| && Own(ins[k], s)
    ensures EffectsAt(a, ins, k) == Effects(After(b, Alone(ins[..k], s)), ins[k])
  {
    UndisturbedPrefix(a, b, ins, s, k);
    TwinRuns(a, b, ins[..k], s, files);
    TwinStep(At(a, ins, k), After(b, Alone(ins[..k], s)), s, files, ins[k]);
  }
}
