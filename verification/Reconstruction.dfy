/** What a run of commands leaves in a file. */
module Reconstruction {
  import opened Wire
  import opened FileStore
  import opened Upload
  import opened Sessions
  import Seqs

  /** What one command does to the contents of file `f`: at most one event. Truncation is the
      second `fopen` finding a file that the first could not open. */
  function EventOf(v: View, input: Input, f: Name): (es: seq<Event>)
    ensures |es| <= 1
  {
    var env := input.env;
    match input.req
    case Open(sid, name) =>
      if && name == f && f in v.fs.files && sid !in v.sessions && |v.sessions| < SESSIONS
         && !env.reopens && env.creates
      then [Reset] else []
    case Data(sid, offset, payload) =>
      if sid in v.sessions && v.sessions[sid].name == f && env.seeks
      then [Put(offset, payload[..if env.written < |payload| then env.written else |payload|])] else []
    case _ => []
  }

  function History(v: View, ins: seq<Input>, f: Name): seq<Event> {
    if ins == [] then []
    else
      var n := |ins| - 1;
      History(v, ins[..n], f) + EventOf(ServeAll(v, ins[..n]), ins[n], f)
  }

  lemma ContentAfterServe(v: View, input: Input, f: Name)
    ensures Content(Serve(v, input.req, input.env).0.fs, f) == Replay(Content(v.fs, f), EventOf(v, input, f))
  {
    var es := EventOf(v, input, f);
    if es != [] {
      assert es[..0] == [];
    }
  }

  lemma {:induction false} ReplaySnoc(was: Bytes, log: seq<Event>, es: seq<Event>)
    requires |es| <= 1
    ensures Replay(was, log + es) == Replay(Replay(was, log), es)
  {
    if es == [] {
      assert log + es == log;
    } else {
      Seqs.SnocPrefix(log, es[0]);
      assert es == [es[0]] && es[..0] == [];
    }
  }

  lemma {:induction false} HistoryIsContent(v: View, ins: seq<Input>, f: Name)
    ensures Content(ServeAll(v, ins).fs, f) == Replay(Content(v.fs, f), History(v, ins, f))
  {
    if ins != [] {
      var n := |ins| - 1;
      HistoryIsContent(v, ins[..n], f);
      ContentAfterServe(ServeAll(v, ins[..n]), ins[n], f);
      ReplaySnoc(Content(v.fs, f), History(v, ins[..n], f), EventOf(ServeAll(v, ins[..n]), ins[n], f));
    }
  }

  /** Over any run, whatever the other sessions do, a file is its original contents with its own
      history of truncations and writes replayed on them. */
  lemma FileIsReplay(st: State, ins: seq<Input>, f: Name)
    ensures Content(After(st, ins).fs, f) == Replay(Content(st.fs, f), History(ViewOf(st), ins, f))
  {
    RunView(st, ins);
    HistoryIsContent(ViewOf(st), ins, f);
  }

  /** Byte for byte: each byte of the file is that of the last write over it. */
  lemma FileIsLastWrites(st: State, ins: seq<Input>, f: Name, i: nat)
    requires i < |Content(After(st, ins).fs, f)|
    ensures |Content(After(st, ins).fs, f)| == Extent(Content(st.fs, f), History(ViewOf(st), ins, f))
    ensures forall k: nat :: Decides(History(ViewOf(st), ins, f), k, i) ==>
      var e := History(ViewOf(st), ins, f)[k];
      Content(After(st, ins).fs, f)[i] == if e.Put? then e.data[i - e.offset] else 0
    ensures Undecided(History(ViewOf(st), ins, f), i) ==>
      Content(After(st, ins).fs, f)[i] == if i < |Content(st.fs, f)| then Content(st.fs, f)[i] else 0
  {
    FileIsReplay(st, ins, f);
    var log := History(ViewOf(st), ins, f);
    LastWriterWins(Content(st.fs, f), log, i);
    ReplayLength(Content(st.fs, f), log);
  }

  // ---------- in terms of the commands ----------

  /** The `k`-th command of the run is a DATA for a session that is open on `f`. */
  ghost predicate DataFor(st: State, ins: seq<Input>, k: nat, f: Name) {
    && k < |ins| && ins[k].req.Data?
    && ins[k].req.sid in Registry(At(st, ins, k))
    && Registry(At(st, ins, k))[ins[k].req.sid].name == f
  }

  /** The `k`-th command of the run is an OPEN that empties the existing file `f`. */
  ghost predicate Truncates(st: State, ins: seq<Input>, k: nat, f: Name) {
    && k < |ins| && ins[k].req.Open?
    && EventOf(ViewOf(At(st, ins, k)), ins[k], f) == [Reset]
  }

  /** A DATA that the ground took from `src`, and that the file system stored in full. */
  predicate Faithful(input: Input, src: Bytes)
    requires input.req.Data?
  {
    && input.env.seeks && input.env.written >= |input.req.payload|
    && input.req.offset + |input.req.payload| <= |src|
    && input.req.payload == src[input.req.offset..input.req.offset + |input.req.payload|]
  }

  ghost predicate Arrived(st: State, ins: seq<Input>, f: Name, i: nat) {
    exists k: nat :: DataFor(st, ins, k, f) && ins[k].req.offset <= i < ins[k].req.offset + |ins[k].req.payload|
  }

  ghost predicate ComesFrom(st: State, ins: seq<Input>, f: Name, e: Event, k: nat) {
    k < |ins| && EventOf(ViewOf(At(st, ins, k)), ins[k], f) == [e]
  }

  lemma {:induction false} EventsComeFromCommands(st: State, ins: seq<Input>, f: Name, e: Event)
    requires e in History(ViewOf(st), ins, f)
    ensures exists k: nat :: ComesFrom(st, ins, f, e, k)
  {
    var n := |ins| - 1;
    RunView(st, ins[..n]);
    if e in EventOf(ServeAll(ViewOf(st), ins[..n]), ins[n], f) {
      assert ComesFrom(st, ins, f, e, n);
    } else {
      EventsComeFromCommands(st, ins[..n], f, e);
      var k: nat :| ComesFrom(st, ins[..n], f, e, k);
      Seqs.PrefixOfPrefix(ins, k, n);
      assert ComesFrom(st, ins, f, e, k);
    }
  }

  lemma {:induction false} CommandsLeaveEvents(st: State, ins: seq<Input>, f: Name, e: Event, k: nat)
    requires ComesFrom(st, ins, f, e, k)
    ensures e in History(ViewOf(st), ins, f)
  {
    var n := |ins| - 1;
    if k == n {
      RunView(st, ins[..n]);
    } else {
      Seqs.PrefixOfPrefix(ins, k, n);
      assert ComesFrom(st, ins[..n], f, e, k);
      CommandsLeaveEvents(st, ins[..n], f, e, k);
    }
  }

  /** The upload theorem. If every DATA that reached `f` carried the bytes of `src` at its own
      offset and was stored, if together they covered `src`, and if no OPEN emptied the file in
      between, then the file is `src` followed by what it held beyond it: whatever the order,
      the repetitions and overlaps, however often the session was closed and opened again, and
      whatever else ran in between. A failed `fclose` counts as harmless here, since a write
      reaches the file at once; with stdio buffering it can cost the last chunk. */
  lemma UploadReconstructs(st: State, ins: seq<Input>, f: Name, src: Bytes)
    requires forall k: nat :: DataFor(st, ins, k, f) ==> Faithful(ins[k], src)
    requires forall i :: 0 <= i < |src| ==> Arrived(st, ins, f, i)
    requires forall k: nat :: !Truncates(st, ins, k, f)
    ensures Content(After(st, ins).fs, f) == src + Tail(Content(st.fs, f), |src|)
  {
    var log := History(ViewOf(st), ins, f);
    forall e | e in log ensures Carries(e, src) {
      EventsComeFromCommands(st, ins, f, e);
      var k: nat :| ComesFrom(st, ins, f, e, k);
      OnlyFaithful(st, ins, f, src, e, k);
    }
    forall i | 0 <= i < |src| ensures CoveredSince(log, 0, i) {
      ArrivedIsCovered(st, ins, f, src, i);
    }
    CarriesAll(log, src);
    Reconstructed(Content(st.fs, f), log, src);
    FileIsReplay(st, ins, f);
  }

  lemma CarriesAll(log: seq<Event>, src: Bytes)
    requires forall e :: e in log ==> Carries(e, src)
    requires forall i :: 0 <= i < |src| ==> CoveredSince(log, 0, i)
    ensures Epoch(log) == 0 && Delivers(log, src)
  {
    assert forall k :: 0 <= k < |log| ==> log[k] in log;
  }

  lemma FaithfulLeavesEvent(st: State, ins: seq<Input>, f: Name, src: Bytes, k: nat)
    requires DataFor(st, ins, k, f) && Faithful(ins[k], src)
    ensures Put(ins[k].req.offset, ins[k].req.payload) in History(ViewOf(st), ins, f)
  {
    var e := Put(ins[k].req.offset, ins[k].req.payload);
    assert ins[k].req.payload[..|ins[k].req.payload|] == ins[k].req.payload;
    CommandsLeaveEvents(st, ins, f, e, k);
  }

  lemma ArrivedIsCovered(st: State, ins: seq<Input>, f: Name, src: Bytes, i: nat)
    requires forall k: nat :: DataFor(st, ins, k, f) ==> Faithful(ins[k], src)
    requires Arrived(st, ins, f, i)
    ensures CoveredSince(History(ViewOf(st), ins, f), 0, i)
  {
    var k: nat :| DataFor(st, ins, k, f) && ins[k].req.offset <= i < ins[k].req.offset + |ins[k].req.payload|;
    FaithfulLeavesEvent(st, ins, f, src, k);
    var e := Put(ins[k].req.offset, ins[k].req.payload);
    var log := History(ViewOf(st), ins, f);
    var m :| 0 <= m < |log| && log[m] == e;
    assert Covers(log[m], i);
  }

  lemma OnlyFaithful(st: State, ins: seq<Input>, f: Name, src: Bytes, e: Event, k: nat)
    requires ComesFrom(st, ins, f, e, k)
    requires DataFor(st, ins, k, f) ==> Faithful(ins[k], src)
    requires !Truncates(st, ins, k, f)
    ensures Carries(e, src)
  {
    if e.Put? {
      assert DataFor(st, ins, k, f);
    }
  }

  /** With truncations the same holds of the writes since the last one; the file then keeps
      nothing of what it held before. */
  lemma UploadReconstructsAfterReset(st: State, ins: seq<Input>, f: Name, src: Bytes)
    requires Delivers(History(ViewOf(st), ins, f), src)
    ensures Content(After(st, ins).fs, f)
      == src + Tail(Base(Content(st.fs, f), History(ViewOf(st), ins, f)), |src|)
  {
    FileIsReplay(st, ins, f);
    Reconstructed(Content(st.fs, f), History(ViewOf(st), ins, f), src);
  }
}
