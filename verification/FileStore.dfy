/** Files as byte sequences, the open streams on them, and what a history of writes leaves. */
module FileStore {
  import opened Wire

  type Bytes = seq<byte>
  type Handle = nat

  datatype Option<+T> = None | Some(value: T)

  /** `live` holds the open streams; handles are never reused. */
  datatype Store = Store(files: map<Name, Bytes>, live: map<Handle, Name>, next: Handle)

  ghost predicate ValidStore(fs: Store) {
    forall h :: h in fs.live ==> h < fs.next && fs.live[h] in fs.files
  }

  function Content(fs: Store, f: Name): Bytes {
    if f in fs.files then fs.files[f] else []
  }

  /** `fopen(name, "r+b")`, and `fopen(name, "w+b")` when that fails. The first can only succeed
      on a file that exists; the second creates or truncates. */
  function Fopen(fs: Store, name: Name, reopens: bool, creates: bool): (Store, Option<Handle>) {
    if reopens && name in fs.files then
      (Store(fs.files, fs.live[fs.next := name], fs.next + 1), Some(fs.next))
    else if creates then
      (Store(fs.files[name := []], fs.live[fs.next := name], fs.next + 1), Some(fs.next))
    else (fs, None)
  }

  /** `fseek(SEEK_SET)` then `fwrite`: a gap past the end reads as zeros, and an empty write
      changes nothing. */
  function WriteAt(was: Bytes, offset: nat, data: Bytes): Bytes {
    if data == [] then was
    else
      var base := if |was| < offset then was + Zeros(offset - |was|) else was;
      base[..offset] + data + (if offset + |data| < |base| then base[offset + |data|..] else [])
  }

  function Fwrite(fs: Store, h: Handle, offset: nat, data: Bytes): Store
    requires ValidStore(fs) && h in fs.live
  {
    fs.(files := fs.files[fs.live[h] := WriteAt(fs.files[fs.live[h]], offset, data)])
  }

  /** The stream is gone after `fclose`, whatever it returns. */
  function Fclose(fs: Store, h: Handle): Store {
    fs.(live := fs.live - {h})
  }

  function Max(a: nat, b: nat): nat { if a < b then b else a }

  lemma WriteAtPointwise(was: Bytes, offset: nat, data: Bytes)
    requires data != []
    ensures |WriteAt(was, offset, data)| == Max(|was|, offset + |data|)
    ensures forall i :: 0 <= i < |WriteAt(was, offset, data)| ==>
      WriteAt(was, offset, data)[i] ==
        if offset <= i < offset + |data| then data[i - offset]
        else if i < |was| then was[i] else 0
  {
    var base := if |was| < offset then was + Zeros(offset - |was|) else was;
    assert forall i :: 0 <= i < |base| ==> base[i] == if i < |was| then was[i] else 0;
  }

  // ---------- histories ----------

  /** What can happen to the contents of one file. */
  datatype Event = Reset | Put(offset: nat, data: Bytes)

  function Apply(was: Bytes, e: Event): Bytes {
    match e
    case Reset => []
    case Put(offset, data) => WriteAt(was, offset, data)
  }

  function Replay(was: Bytes, log: seq<Event>): Bytes {
    if log == [] then was else Apply(Replay(was, log[..|log| - 1]), log[|log| - 1])
  }

  predicate Covers(e: Event, i: nat) {
    e.Put? && e.offset <= i < e.offset + |e.data|
  }

  ghost predicate CoveredSince(log: seq<Event>, start: nat, i: nat) {
    exists k :: start <= k < |log| && Covers(log[k], i)
  }

  /** Event `k` is the last one that determines byte `i`. */
  ghost predicate Decides(log: seq<Event>, k: nat, i: nat) {
    && k < |log|
    && (log[k].Reset? || Covers(log[k], i))
    && forall m :: k < m < |log| ==> !log[m].Reset? && !Covers(log[m], i)
  }

  lemma DecidesBefore(log: seq<Event>, k: nat, i: nat)
    requires Decides(log, k, i) && k < |log| - 1
    ensures Decides(log[..|log| - 1], k, i)
    ensures log[|log| - 1].Put? && !Covers(log[|log| - 1], i)
  {
  }

  /** A write that misses byte `i` leaves it, and beyond the old end makes it zero or leaves it out. */
  lemma Missed(was: Bytes, e: Event, i: nat)
    requires e.Put? && !Covers(e, i)
    ensures |was| <= |Apply(was, e)|
    ensures i < |Apply(was, e)| ==> Apply(was, e)[i] == if i < |was| then was[i] else 0
  {
    if e.data != [] {
      WriteAtPointwise(was, e.offset, e.data);
    }
  }

  lemma Hit(was: Bytes, e: Event, i: nat)
    requires Covers(e, i)
    ensures i < |Apply(was, e)| && Apply(was, e)[i] == e.data[i - e.offset]
  {
    WriteAtPointwise(was, e.offset, e.data);
  }

  /** Nothing since the last truncation reaches past the end of the file. */
  lemma {:induction false} BeyondEnd(was: Bytes, log: seq<Event>, k: nat, i: nat)
    requires i >= |Replay(was, log)| && Decides(log, k, i)
    ensures log[k].Reset?
  {
    var n := |log| - 1;
    var prev := Replay(was, log[..n]);
    if k < n {
      DecidesBefore(log, k, i);
      Missed(prev, log[n], i);
      BeyondEnd(was, log[..n], k, i);
    } else if log[k].Put? {
      Hit(prev, log[n], i);
    }
  }

  lemma {:induction false} LastWriter(was: Bytes, log: seq<Event>, k: nat, i: nat)
    requires i < |Replay(was, log)| && Decides(log, k, i)
    ensures Replay(was, log)[i] == if log[k].Put? then log[k].data[i - log[k].offset] else 0
  {
    var n := |log| - 1;
    var prev := Replay(was, log[..n]);
    if k < n {
      DecidesBefore(log, k, i);
      Missed(prev, log[n], i);
      if i < |prev| {
        LastWriter(was, log[..n], k, i);
      } else {
        BeyondEnd(was, log[..n], k, i);
      }
    } else if log[k].Put? {
      Hit(prev, log[n], i);
    }
  }

  /** No event of the history determines byte `i`. */
  predicate Undecided(log: seq<Event>, i: nat) {
    forall k :: 0 <= k < |log| ==> !log[k].Reset? && !Covers(log[k], i)
  }

  lemma {:induction false} Untouched(was: Bytes, log: seq<Event>, i: nat)
    requires Undecided(log, i)
    ensures |was| <= |Replay(was, log)|
    ensures i < |Replay(was, log)| ==> Replay(was, log)[i] == if i < |was| then was[i] else 0
  {
    if log != [] {
      var n := |log| - 1;
      Untouched(was, log[..n], i);
      Missed(Replay(was, log[..n]), log[n], i);
    }
  }

  /** Last writer wins: byte `i` comes from the latest write over it; with none since the last
      truncation it is zero, and with no event at all it is the original byte. */
  lemma LastWriterWins(was: Bytes, log: seq<Event>, i: nat)
    requires i < |Replay(was, log)|
    ensures forall k: nat :: Decides(log, k, i) ==>
      Replay(was, log)[i] == if log[k].Put? then log[k].data[i - log[k].offset] else 0
    ensures Undecided(log, i) ==> Replay(was, log)[i] == if i < |was| then was[i] else 0
  {
    forall k: nat | Decides(log, k, i)
      ensures Replay(was, log)[i] == if log[k].Put? then log[k].data[i - log[k].offset] else 0
    {
      LastWriter(was, log, k, i);
    }
    if Undecided(log, i) {
      Untouched(was, log, i);
    }
  }

  /** How far a file reaches: the end of its furthest non-empty write since the last truncation,
      and, if there was none, its original length. */
  function Extent(was: Bytes, log: seq<Event>): nat {
    if log == [] then |was|
    else
      var e := log[|log| - 1];
      if e.Reset? then 0
      else if e.data == [] then Extent(was, log[..|log| - 1])
      else Max(Extent(was, log[..|log| - 1]), e.offset + |e.data|)
  }

  lemma {:induction false} ReplayLength(was: Bytes, log: seq<Event>)
    ensures |Replay(was, log)| == Extent(was, log)
  {
    if log != [] {
      var e := log[|log| - 1];
      ReplayLength(was, log[..|log| - 1]);
      if e.Put? && e.data != [] {
        WriteAtPointwise(Replay(was, log[..|log| - 1]), e.offset, e.data);
      }
    }
  }

  // ---------- reconstruction ----------

  /** Where the last stretch without truncation begins. */
  function Epoch(log: seq<Event>): (k: nat)
    ensures k <= |log|
    ensures forall i :: k <= i < |log| ==> !log[i].Reset?
    ensures k == 0 || log[k - 1].Reset?
  {
    if log == [] then 0
    else if log[|log| - 1].Reset? then |log|
    else Epoch(log[..|log| - 1])
  }

  /** The write carries the bytes of `src` at its own offset. */
  predicate Carries(e: Event, src: Bytes) {
    e.Put? && e.offset + |e.data| <= |src| && e.data == src[e.offset..e.offset + |e.data|]
  }

  function Tail(was: Bytes, n: nat): Bytes {
    if n < |was| then was[n..] else []
  }

  /** The writes since the last truncation all carry `src` and together cover it. */
  ghost predicate Delivers(log: seq<Event>, src: Bytes) {
    && (forall k :: Epoch(log) <= k < |log| ==> log[k].data == [] || Carries(log[k], src))
    && (forall i :: 0 <= i < |src| ==> CoveredSince(log, Epoch(log), i))
  }

  /** What the last stretch without truncation started from. */
  function Base(was: Bytes, log: seq<Event>): Bytes {
    if Epoch(log) == 0 then was else []
  }

  /** Any order, any repetition, any overlap: writes that all carry `src` and together cover it
      leave `src`, followed by what the file already held beyond it. */
  lemma Reconstructed(was: Bytes, log: seq<Event>, src: Bytes)
    requires Delivers(log, src)
    ensures Replay(was, log) == src + Tail(Base(was, log), |src|)
  {
    var r, wanted := Replay(was, log), src + Tail(Base(was, log), |src|);
    ReconstructedLength(was, log, src);
    forall i | 0 <= i < |r| ensures r[i] == wanted[i] {
      ReconstructedByte(was, log, src, i);
    }
  }

  lemma ReconstructedLength(was: Bytes, log: seq<Event>, src: Bytes)
    requires Delivers(log, src)
    ensures |Replay(was, log)| == Max(|Base(was, log)|, |src|)
  {
    ReplayLength(was, log);
    ExtentOfSource(was, log, src);
    if src != [] {
      assert CoveredSince(log, Epoch(log), |src| - 1);
    }
  }

  lemma ReconstructedByte(was: Bytes, log: seq<Event>, src: Bytes, i: nat)
    requires Delivers(log, src)
    requires i < |Replay(was, log)|
    ensures i < |src| ==> Replay(was, log)[i] == src[i]
    ensures i >= |src| && i < |Base(was, log)| ==> Replay(was, log)[i] == Base(was, log)[i]
  {
    if i < |src| {
      SourceByte(was, log, src, i);
    } else if Epoch(log) == 0 {
      BeyondSource(log, src, i);
      Untouched(was, log, i);
    }
  }

  lemma SourceByte(was: Bytes, log: seq<Event>, src: Bytes, i: nat)
    requires Delivers(log, src) && i < |src| && i < |Replay(was, log)|
    ensures Replay(was, log)[i] == src[i]
  {
    assert CoveredSince(log, Epoch(log), i);
    var k :| Epoch(log) <= k < |log| && Covers(log[k], i);
    var d := LastCover(log, i, k);
    LastWriter(was, log, d, i);
    assert Carries(log[d], src);
  }

  lemma BeyondSource(log: seq<Event>, src: Bytes, i: nat)
    requires Delivers(log, src) && Epoch(log) == 0 && i >= |src|
    ensures Undecided(log, i)
  {
    forall k | 0 <= k < |log| ensures !log[k].Reset? && !Covers(log[k], i) {
      assert log[k].data == [] || Carries(log[k], src);
    }
  }

  lemma {:induction false} LastCover(log: seq<Event>, i: nat, k: nat) returns (d: nat)
    requires Epoch(log) <= k < |log| && Covers(log[k], i)
    ensures Epoch(log) <= d < |log| && Covers(log[d], i) && Decides(log, d, i)
    decreases |log| - k
  {
    if m :| k < m < |log| && Covers(log[m], i) {
      d := LastCover(log, i, m);
    } else {
      d := k;
    }
  }

  lemma {:induction false} ExtentOfSource(was: Bytes, log: seq<Event>, src: Bytes)
    requires forall k :: Epoch(log) <= k < |log| ==> log[k].data == [] || Carries(log[k], src)
    ensures Extent(was, log) <= Max(|Base(was, log)|, |src|)
    ensures |Base(was, log)| <= Extent(was, log)
    ensures forall k :: Epoch(log) <= k < |log| && log[k].data != [] ==>
      log[k].offset + |log[k].data| <= Extent(was, log)
  {
    if log != [] && !log[|log| - 1].Reset? {
      var before := log[..|log| - 1];
      assert forall k :: 0 <= k < |before| ==> before[k] == log[k];
      ExtentOfSource(was, before, src);
    }
  }
}
