/** What the ground can tell from the stream of shell replies. */
module ShellStream {
  import opened Wire
  import opened FileStore
  import opened Shell
  import Seqs

  // ---------- one command ----------

  /** The result fields of the replies, end to end. */
  function Payload(rs: seq<ShellReply>): Bytes {
    if rs == [] then []
    else Payload(rs[..|rs| - 1]) + if rs[|rs| - 1].CmdReply? then rs[|rs| - 1].result else []
  }

  const LIMIT: nat := RESULT_SIZE * MAX_REPLIES

  function Delivered(out: Bytes): Bytes {
    if |out| <= LIMIT then out else out[..LIMIT]
  }

  lemma FragmentExtends(out: Bytes, k: nat)
    requires RESULT_SIZE * k < |out|
    ensures out[..RESULT_SIZE * k] + Fragment(out, k) ==
      if RESULT_SIZE * (k + 1) <= |out| then out[..RESULT_SIZE * (k + 1)] else Pad(out, RESULT_SIZE * (k + 1))
  {
  }

  lemma PayloadSnoc(rs: seq<ShellReply>, k: nat)
    requires k < |rs| && rs[k].CmdReply?
    ensures Payload(rs[..k + 1]) == Payload(rs[..k]) + rs[k].result
  {
    Seqs.PrefixOfPrefix(rs, k, k + 1);
  }

  lemma {:induction false} PayloadOfPrefix(number: u32, out: Bytes, k: nat)
    requires k <= FragmentCount(|out|)
    ensures Payload(Fragments(number, out)[..k]) ==
      if RESULT_SIZE * k <= |out| then out[..RESULT_SIZE * k] else Pad(out, RESULT_SIZE * k)
  {
    if k > 0 {
      FragmentsLeft(|out|, k - 1);
      PayloadOfPrefix(number, out, k - 1);
      PayloadSnoc(Fragments(number, out), k - 1);
      FragmentExtends(out, k - 1);
    }
  }

  /** The fragments, end to end, are the first 12000 bytes of the output and then only zeros; as
      many replies are sent as that takes, and every one but the last is full. */
  lemma Fragmentation(number: u32, out: Bytes)
    ensures var rs := Fragments(number, out);
      && |Delivered(out)| <= RESULT_SIZE * |rs| < |Delivered(out)| + RESULT_SIZE
      && Payload(rs) == Pad(Delivered(out), RESULT_SIZE * |rs|)
      && |rs| <= MAX_REPLIES
      && forall k :: 0 <= k < |rs| - 1 ==> rs[k] == Ok(number, out[RESULT_SIZE * k..RESULT_SIZE * (k + 1)])
  {
    var rs := Fragments(number, out);
    var n := |rs|;
    CountCovers(|out|);
    PayloadOfPrefix(number, out, n);
    assert rs[..n] == rs;
    forall k | 0 <= k < n - 1
      ensures RESULT_SIZE * (k + 1) <= |out| && rs[k] == Ok(number, out[RESULT_SIZE * k..RESULT_SIZE * (k + 1)])
    {
      FullFragment(number, out, k);
    }
  }

  lemma FullFragment(number: u32, out: Bytes, k: nat)
    requires k + 1 < FragmentCount(|out|)
    ensures RESULT_SIZE * (k + 1) <= |out|
    ensures Fragments(number, out)[k] == Ok(number, out[RESULT_SIZE * k..RESULT_SIZE * (k + 1)])
  {
    FragmentsLeft(|out|, k + 1);
  }

  lemma CountCovers(n: nat)
    ensures var d := if n <= LIMIT then n else LIMIT;
      d <= RESULT_SIZE * FragmentCount(n) < d + RESULT_SIZE
    ensures RESULT_SIZE * FragmentCount(n) < n ==> n > LIMIT && FragmentCount(n) == MAX_REPLIES
  {
  }

  /** Every way a command can fail, and an output that is empty, is answered by one reply. */
  lemma ReplyCount(number: u32, job: Job)
    ensures |CmdReplies(number, job)| ==
      if |job.packet| == SHELL_CMD_SIZE && job.run.Output? && job.run.bytes != []
      then FragmentCount(|job.run.bytes|) else 1
    ensures forall r :: r in CmdReplies(number, job) ==> r.CmdReply? && r.number == number
    ensures 1 <= |CmdReplies(number, job)| <= MAX_REPLIES
  {
  }

  function TrimZeros(s: Bytes): (r: Bytes)
    ensures r <= s
    ensures r != [] ==> r[|r| - 1] != 0
    ensures s != [] && s[|s| - 1] != 0 ==> r == s
  {
    if s != [] && s[|s| - 1] == 0 then TrimZeros(s[..|s| - 1]) else s
  }

  lemma {:induction false} TrimPadding(s: Bytes, n: nat)
    requires |s| <= n
    ensures TrimZeros(Pad(s, n)) == TrimZeros(s)
  {
    if |s| < n {
      var p := Pad(s, n);
      assert p[n - 1] == 0 && p[..n - 1] == Pad(s, n - 1);
      TrimPadding(s, n - 1);
    } else {
      assert Pad(s, n) == s;
    }
  }

  /** The ground reads the delivered output off the replies by dropping trailing zeros, exactly
      when it does not itself end in a zero byte; an empty output it reads as the text
      "No output". */
  lemma GroundReads(number: u32, out: Bytes)
    ensures out == [] ==> TrimZeros(Payload(OutputReplies(number, out))) == NO_OUTPUT
    ensures out != [] ==>
      (TrimZeros(Payload(OutputReplies(number, out))) == Delivered(out)
       <==> Delivered(out)[|Delivered(out)| - 1] != 0)
  {
    if out == [] {
      var r := Ok(number, Pad(NO_OUTPUT, RESULT_SIZE));
      PayloadSnoc([r], 0);
      assert [r][..1] == [r] && Payload([r]) == Pad(NO_OUTPUT, RESULT_SIZE);
      TrimPadding(NO_OUTPUT, RESULT_SIZE);
      assert NO_OUTPUT[|NO_OUTPUT| - 1] != 0;
    } else {
      Fragmentation(number, out);
      TrimPadding(Delivered(out), RESULT_SIZE * |Fragments(number, out)|);
    }
  }

  /** What the replies show of an output: an empty one is reported in words. */
  function Shown(out: Bytes): Bytes {
    if out == [] then NO_OUTPUT else out
  }

  lemma RepliesShow(number: u32, out: Bytes)
    ensures OutputReplies(number, out) == Fragments(number, Shown(out))
  {
    if out == [] {
      assert Fragment(NO_OUTPUT, 0) == Pad(NO_OUTPUT, RESULT_SIZE);
      assert Fragments(number, NO_OUTPUT) == [Ok(number, Pad(NO_OUTPUT, RESULT_SIZE))];
    }
  }

  lemma {:induction false} PadTrimmed(s: Bytes, n: nat)
    requires |s| <= n
    ensures Pad(TrimZeros(s), n) == Pad(s, n)
  {
    if s != [] && s[|s| - 1] == 0 {
      var t := s[..|s| - 1];
      PadTrimmed(t, n);
      assert Pad(t, n) == Pad(s, n);
    }
  }

  lemma SamePadded(a: Bytes, b: Bytes, n: nat)
    requires |a| <= n && |b| <= n
    ensures Pad(a, n) == Pad(b, n) <==> TrimZeros(a) == TrimZeros(b)
  {
    TrimPadding(a, n);
    TrimPadding(b, n);
    PadTrimmed(a, n);
    PadTrimmed(b, n);
  }

  /** The replies are determined by their number and by their result fields end to end. */
  lemma FragmentOfPayload(number: u32, out: Bytes, k: nat)
    requires k < FragmentCount(|out|)
    ensures RESULT_SIZE * (k + 1) <= |Payload(Fragments(number, out))|
    ensures Fragment(out, k) == Payload(Fragments(number, out))[RESULT_SIZE * k..RESULT_SIZE * (k + 1)]
  {
    var rs := Fragments(number, out);
    PayloadOfPrefix(number, out, k);
    FragmentsLeft(|out|, k);
    PayloadSnoc(rs, k);
    PayloadGrows(rs, k + 1);
    Middle(Payload(rs[..k]), Fragment(out, k), Payload(rs));
  }

  lemma Middle(a: Bytes, b: Bytes, all: Bytes)
    requires a + b <= all
    ensures all[|a|..|a| + |b|] == b
  {
    assert all[..|a| + |b|] == a + b;
  }

  /** What the first replies hold is the beginning of what all of them hold. */
  lemma {:induction false} PayloadGrows(rs: seq<ShellReply>, k: nat)
    requires k <= |rs|
    ensures Payload(rs[..k]) <= Payload(rs)
  {
    if k < |rs| {
      PayloadGrows(rs[..|rs| - 1], k);
      Seqs.PrefixOfPrefix(rs, k, |rs| - 1);
    } else {
      assert rs[..k] == rs;
    }
  }

  lemma SameFragments(number: u32, a: Bytes, b: Bytes)
    requires FragmentCount(|a|) == FragmentCount(|b|)
    requires Payload(Fragments(number, a)) == Payload(Fragments(number, b))
    ensures Fragments(number, a) == Fragments(number, b)
  {
    var ra, rb := Fragments(number, a), Fragments(number, b);
    forall k | 0 <= k < |ra| ensures ra[k] == rb[k] {
      FragmentOfPayload(number, a, k);
      FragmentOfPayload(number, b, k);
    }
  }

  /** Two outputs get the same replies exactly when they take the same number of fragments and
      their first 12000 bytes agree up to trailing zeros, an empty output being read as the text
      that stands for it. */
  lemma SameReplies(number: u32, a: Bytes, b: Bytes)
    ensures OutputReplies(number, a) == OutputReplies(number, b)
      <==> FragmentCount(|Shown(a)|) == FragmentCount(|Shown(b)|)
           && TrimZeros(Delivered(Shown(a))) == TrimZeros(Delivered(Shown(b)))
  {
    var sa, sb := Shown(a), Shown(b);
    RepliesShow(number, a);
    RepliesShow(number, b);
    Fragmentation(number, sa);
    Fragmentation(number, sb);
    if FragmentCount(|sa|) == FragmentCount(|sb|) {
      SamePadded(Delivered(sa), Delivered(sb), RESULT_SIZE * FragmentCount(|sa|));
      if TrimZeros(Delivered(sa)) == TrimZeros(Delivered(sb)) {
        SameFragments(number, sa, sb);
      }
    }
  }

  /** One instance: no output at all, and the nine bytes that say so. */
  lemma SilentLooksLikeText(number: u32)
    ensures OutputReplies(number, []) == OutputReplies(number, NO_OUTPUT)
  {
    SameReplies(number, [], NO_OUTPUT);
  }

  /** Each packet is consumed once: freed after its clones, or sent back itself. */
  lemma PacketOnce(number: u32, job: Job)
    ensures var es := Work(number, job).1;
      && es != [] && !es[|es| - 1].CloneSent?
      && forall i :: 0 <= i < |es| - 1 ==> es[i].CloneSent?
    ensures IsCommand(job) ==> |Work(number, job).1| == |CmdReplies(number, job)| + 1
    ensures Work(number, job).1[|Work(number, job).1| - 1].OriginalFreed? <==> IsCommand(job)
  {
  }

  // ---------- a run of commands ----------

  const WRAP: nat := 0x1_0000_0000

  function Commands(jobs: seq<Job>): (n: nat)
    ensures n <= |jobs|
  {
    if jobs == [] then 0
    else Commands(jobs[..|jobs| - 1]) + if IsCommand(jobs[|jobs| - 1]) then 1 else 0
  }

  /** The sequence number that the next command will get. */
  function NumberAfter(first: u32, jobs: seq<Job>): u32 {
    if jobs == [] then first else Work(NumberAfter(first, jobs[..|jobs| - 1]), jobs[|jobs| - 1]).0
  }

  function RepliesOf(es: seq<ShellEffect>): seq<ShellReply> {
    if es == [] then []
    else RepliesOf(es[..|es| - 1]) + match es[|es| - 1]
      case CloneSent(r) => [r]
      case OriginalSent(r) => [r]
      case OriginalFreed => []
  }

  /** Everything the ground receives from a run of jobs. */
  function Stream(first: u32, jobs: seq<Job>): seq<ShellReply> {
    if jobs == [] then []
    else
      var n := |jobs| - 1;
      Stream(first, jobs[..n]) + RepliesOf(Work(NumberAfter(first, jobs[..n]), jobs[n]).1)
  }

  /** The replies that bear one number. */
  function Group(rs: seq<ShellReply>, number: u32): seq<ShellReply> {
    if rs == [] then []
    else
      var r := rs[|rs| - 1];
      Group(rs[..|rs| - 1], number) + if r.CmdReply? && r.number == number then [r] else []
  }

  lemma {:induction false} GroupAppend(a: seq<ShellReply>, b: seq<ShellReply>, number: u32)
    ensures Group(a + b, number) == Group(a, number) + Group(b, number)
  {
    if b == [] {
      assert a + b == a;
    } else {
      Seqs.AppendSnoc(a, b);
      Seqs.SnocPrefix(a + b[..|b| - 1], b[|b| - 1]);
      GroupAppend(a, b[..|b| - 1], number);
    }
  }

  lemma {:induction false} GroupSame(rs: seq<ShellReply>, number: u32, other: u32)
    requires forall r :: r in rs ==> r.CmdReply? && r.number == number
    ensures Group(rs, other) == if other == number then rs else []
  {
    if rs != [] {
      Seqs.Unsnoc(rs);
      GroupSame(rs[..|rs| - 1], number, other);
    }
  }

  lemma {:induction false} RepliesOfClones(rs: seq<ShellReply>)
    ensures RepliesOf(Clones(rs)) == rs
  {
    if rs != [] {
      var n := |rs| - 1;
      RepliesOfClones(rs[..n]);
      assert Clones(rs)[..n] == Clones(rs[..n]);
      Seqs.Unsnoc(rs);
    }
  }

  lemma JobReplies(number: u32, job: Job)
    ensures RepliesOf(Work(number, job).1) ==
      if IsCommand(job) then CmdReplies(number, job) else [ShellErr(UNKNOWN_CMD, ToU32(-EINVAL))]
  {
    if IsCommand(job) {
      Seqs.SnocPrefix(Clones(CmdReplies(number, job)), OriginalFreed);
      RepliesOfClones(CmdReplies(number, job));
    } else {
      var e := OriginalSent(ShellErr(UNKNOWN_CMD, ToU32(-EINVAL)));
      assert [e][..0] == [];
    }
  }

  /** The number of a job, counted by the commands before it. */
  lemma {:induction false} NumberIsCount(first: u32, jobs: seq<Job>)
    ensures NumberAfter(first, jobs) == (first + Commands(jobs)) % WRAP
  {
    if jobs != [] {
      NumberIsCount(first, jobs[..|jobs| - 1]);
      AddOne(first + Commands(jobs[..|jobs| - 1]));
    }
  }

  lemma AddOne(n: nat)
    ensures (n % WRAP + 1) % WRAP == (n + 1) % WRAP
  {
  }

  lemma {:induction false} CommandsGrow(jobs: seq<Job>, k: nat)
    requires k < |jobs|
    ensures Commands(jobs[..k]) + (if IsCommand(jobs[k]) then 1 else 0) <= Commands(jobs)
  {
    var n := |jobs| - 1;
    if k < n {
      Seqs.PrefixOfPrefix(jobs, k, n);
      CommandsGrow(jobs[..n], k);
    }
  }

  /** Two commands share a number exactly when a multiple of 2^32 commands lies between them. */
  lemma NumbersWrap(first: u32, jobs: seq<Job>, i: nat, k: nat)
    requires i <= k < |jobs|
    ensures NumberAfter(first, jobs[..i]) == NumberAfter(first, jobs[..k])
      <==> (Commands(jobs[..k]) - Commands(jobs[..i])) % WRAP == 0
  {
    NumberIsCount(first, jobs[..i]);
    NumberIsCount(first, jobs[..k]);
    ModEqual(first + Commands(jobs[..i]), first + Commands(jobs[..k]));
  }

  lemma ModEqual(a: int, b: int)
    ensures a % WRAP == b % WRAP <==> (b - a) % WRAP == 0
  {
  }

  lemma JobGroup(number: u32, job: Job, other: u32)
    ensures Group(RepliesOf(Work(number, job).1), other) ==
      if IsCommand(job) && other == number then CmdReplies(number, job) else []
  {
    JobReplies(number, job);
    if IsCommand(job) {
      ReplyCount(number, job);
      GroupSame(CmdReplies(number, job), number, other);
    } else {
      var r := ShellErr(UNKNOWN_CMD, ToU32(-EINVAL));
      assert [r][..0] == [];
    }
  }

  lemma StreamGroup(first: u32, jobs: seq<Job>, number: u32)
    requires jobs != []
    ensures var n := |jobs| - 1;
      var last := NumberAfter(first, jobs[..n]);
      Group(Stream(first, jobs), number) == Group(Stream(first, jobs[..n]), number)
        + if IsCommand(jobs[n]) && number == last then CmdReplies(last, jobs[n]) else []
  {
    var n := |jobs| - 1;
    var last := NumberAfter(first, jobs[..n]);
    GroupAppend(Stream(first, jobs[..n]), RepliesOf(Work(last, jobs[n]).1), number);
    JobGroup(last, jobs[n], number);
  }

  lemma NumbersDiffer(first: u32, i: nat, k: nat)
    requires i < k < i + WRAP
    ensures (first + i) % WRAP != (first + k) % WRAP
  {
    ModEqual(first + i, first + k);
  }

  /** No command of the run is given this number. */
  predicate NotGiven(first: u32, jobs: seq<Job>, number: u32) {
    jobs != [] ==>
      var n := |jobs| - 1;
      NotGiven(first, jobs[..n], number) && (IsCommand(jobs[n]) ==> NumberAfter(first, jobs[..n]) != number)
  }

  lemma {:induction false} NotGivenNotHeard(first: u32, jobs: seq<Job>, number: u32)
    requires NotGiven(first, jobs, number)
    ensures Group(Stream(first, jobs), number) == []
  {
    if jobs != [] {
      NotGivenNotHeard(first, jobs[..|jobs| - 1], number);
      StreamGroup(first, jobs, number);
    }
  }

  lemma {:induction false} LaterNotGiven(first: u32, jobs: seq<Job>, later: nat, number: u32)
    requires Commands(jobs) <= later < WRAP && number == (first + later) % WRAP
    ensures NotGiven(first, jobs, number)
  {
    if jobs != [] {
      var n := |jobs| - 1;
      LaterNotGiven(first, jobs[..n], later, number);
      if IsCommand(jobs[n]) {
        NumberIsCount(first, jobs[..n]);
        NumbersDiffer(first, Commands(jobs[..n]), later);
      }
    }
  }

  /** Over any run of at most 2^32 shell commands, with malformed packets in between, grouping the
      stream by number gives back the replies of each command, complete and in order. */
  lemma {:induction false} Demultiplexed(first: u32, jobs: seq<Job>, k: nat)
    requires Commands(jobs) <= WRAP && k < |jobs| && IsCommand(jobs[k])
    ensures Group(Stream(first, jobs), NumberAfter(first, jobs[..k])) == CmdReplies(NumberAfter(first, jobs[..k]), jobs[k])
  {
    var n := |jobs| - 1;
    StreamGroup(first, jobs, NumberAfter(first, jobs[..k]));
    if k == n {
      LastGroupIsNew(first, jobs);
    } else {
      Seqs.PrefixOfPrefix(jobs, k, n);
      Demultiplexed(first, jobs[..n], k);
      if IsCommand(jobs[n]) {
        LastIsNew(first, jobs, k);
      }
    }
  }

  lemma LastGroupIsNew(first: u32, jobs: seq<Job>)
    requires jobs != [] && Commands(jobs) <= WRAP && IsCommand(jobs[|jobs| - 1])
    ensures Group(Stream(first, jobs[..|jobs| - 1]), NumberAfter(first, jobs[..|jobs| - 1])) == []
  {
    var before := jobs[..|jobs| - 1];
    NumberIsCount(first, before);
    LaterNotGiven(first, before, Commands(before), NumberAfter(first, before));
    NotGivenNotHeard(first, before, NumberAfter(first, before));
  }

  /** So the ground recovers from the whole stream what each command put out, up to 12000 bytes,
      as long as that is not empty and does not end in a zero byte. */
  lemma OutputRecovered(first: u32, jobs: seq<Job>, k: nat, number: u32, out: Bytes)
    requires Commands(jobs) <= WRAP && k < |jobs| && IsCommand(jobs[k])
    requires |jobs[k].packet| == SHELL_CMD_SIZE && jobs[k].run == Output(out) && out != []
    requires number == NumberAfter(first, jobs[..k])
    ensures TrimZeros(Payload(Group(Stream(first, jobs), number))) == Delivered(out)
      <==> Delivered(out)[|Delivered(out)| - 1] != 0
  {
    Demultiplexed(first, jobs, k);
    assert CmdReplies(number, jobs[k]) == OutputReplies(number, out);
    GroundReads(number, out);
  }

  lemma LastIsNew(first: u32, jobs: seq<Job>, k: nat)
    requires Commands(jobs) <= WRAP && k < |jobs| - 1 && IsCommand(jobs[k]) && IsCommand(jobs[|jobs| - 1])
    ensures NumberAfter(first, jobs[..|jobs| - 1]) != NumberAfter(first, jobs[..k])
  {
    var n := |jobs| - 1;
    Seqs.PrefixOfPrefix(jobs, k, n);
    CommandsGrow(jobs[..n], k);
    NumbersWrap(first, jobs, k, n);
  }

  ghost predicate Ordered(rs: seq<ShellReply>) {
    forall i, j :: 0 <= i < j < |rs| && rs[i].CmdReply? && rs[j].CmdReply? ==> rs[i].number <= rs[j].number
  }

  ghost predicate Below(rs: seq<ShellReply>, n: nat) {
    forall i :: 0 <= i < |rs| && rs[i].CmdReply? ==> rs[i].number < n
  }

  lemma OrderedAppend(a: seq<ShellReply>, b: seq<ShellReply>, number: u32)
    requires Ordered(a) && Below(a, number)
    requires forall i :: 0 <= i < |b| && b[i].CmdReply? ==> b[i].number == number
    ensures Ordered(a + b) && Below(a + b, number + 1)
  {
  }

  lemma OrderedErr(a: seq<ShellReply>, r: ShellReply, n: nat)
    requires Ordered(a) && Below(a, n) && r.ShellErr?
    ensures Ordered(a + [r]) && Below(a + [r], n)
  {
  }

  lemma PlainNumber(jobs: seq<Job>)
    requires Commands(jobs) < WRAP
    ensures NumberAfter(0, jobs) == Commands(jobs)
  {
    NumberIsCount(0, jobs);
  }

  lemma OneMoreCommand(a: seq<ShellReply>, number: u32, job: Job)
    requires Ordered(a) && Below(a, number) && IsCommand(job)
    ensures var rs := a + RepliesOf(Work(number, job).1); Ordered(rs) && Below(rs, number + 1)
  {
    JobReplies(number, job);
    var rs := CmdReplies(number, job);
    ReplyCount(number, job);
    assert forall i :: 0 <= i < |rs| ==> rs[i] in rs;
    OrderedAppend(a, rs, number);
  }

  lemma OneMoreError(a: seq<ShellReply>, number: u32, job: Job, n: nat)
    requires Ordered(a) && Below(a, n) && !IsCommand(job)
    ensures var rs := a + RepliesOf(Work(number, job).1); Ordered(rs) && Below(rs, n)
  {
    JobReplies(number, job);
    OrderedErr(a, ShellErr(UNKNOWN_CMD, ToU32(-EINVAL)), n);
  }

  /** From power-up, numbers never decrease along the stream. */
  lemma {:induction false} NumbersOrdered(jobs: seq<Job>)
    requires Commands(jobs) <= WRAP
    ensures Ordered(Stream(0, jobs)) && Below(Stream(0, jobs), Commands(jobs))
  {
    if jobs != [] {
      var n := |jobs| - 1;
      NumbersOrdered(jobs[..n]);
      if IsCommand(jobs[n]) {
        PlainNumber(jobs[..n]);
        OneMoreCommand(Stream(0, jobs[..n]), NumberAfter(0, jobs[..n]), jobs[n]);
      } else {
        OneMoreError(Stream(0, jobs[..n]), NumberAfter(0, jobs[..n]), jobs[n], Commands(jobs[..n]));
      }
    }
  }
}
