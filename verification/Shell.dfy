/** The shell service: the output of a command, cut into numbered replies of fixed size. */
module Shell {
  import opened Wire
  import opened FileStore
  import opened Csp

  const RESULT_SIZE: nat := 240
  const MAX_REPLIES: nat := 50
  const SHELL_CMD: byte := 0
  const SHELL_CMD_SIZE: nat := 203

  const EIO: int := 5
  const ETIMEDOUT: int := 110

  // ---------- telemetry ----------

  datatype ShellTelemetry =
    | CmdReply(tid: byte, code: u32, number: u32, result: Bytes)
    | ShellErr(tid: byte, code: u32)

  type ShellReply = t: ShellTelemetry | t.CmdReply? ==> |t.result| == RESULT_SIZE witness ShellErr(0, 0)

  function EncodeShell(t: ShellReply): (s: Bytes)
    ensures |s| <= CAPACITY
  {
    match t
    case CmdReply(tid, code, number, result) => [tid] + Le32(code) + Le32(number) + result
    case ShellErr(tid, code) => [tid] + Le32(code)
  }

  function DecodeShell(s: Bytes): ShellTelemetry {
    if |s| == 9 + RESULT_SIZE then CmdReply(s[0], Load32(s, 1), Load32(s, 5), s[9..])
    else if |s| == 5 then ShellErr(s[0], Load32(s, 1))
    else ShellErr(0, 0)
  }

  lemma ShellRoundTrip(t: ShellReply)
    ensures DecodeShell(EncodeShell(t)) == t
  {
    var s := EncodeShell(t);
    match t
    case CmdReply(tid, code, number, result) =>
      Le32RoundTrip(code, [tid], Le32(number) + result);
      assert s == [tid] + Le32(code) + (Le32(number) + result);
      Le32RoundTrip(number, [tid] + Le32(code), result);
    case ShellErr(tid, code) =>
      Le32RoundTrip(code, [tid], []);
      assert s == [tid] + Le32(code) + [];
  }

  /** Where the fields of a reply are. */
  lemma ShellLayout(t: ShellReply)
    ensures var s := EncodeShell(t);
      && 5 <= |s| && s[0] == t.tid && LittleEndian(s[1..5]) == t.code
      && (t.CmdReply? ==> |s| == 249 && LittleEndian(s[5..9]) == t.number && s[9..] == t.result)
      && (t.ShellErr? ==> |s| == 5)
  {
    var s := EncodeShell(t);
    ScalarsAreLittleEndian(0, t.code, s, 0);
    assert s[1..5] == Le32(t.code);
    if t.CmdReply? {
      ScalarsAreLittleEndian(0, t.number, s, 0);
      assert s[5..9] == Le32(t.number);
    }
  }

  // ---------- what one command is answered ----------

  /** How the command's process turned out. */
  datatype Run = NoProcess | SelectFails | TimesOut | Output(bytes: Bytes)

  datatype Job = Job(packet: Bytes, run: Run)

  function Fragment(out: Bytes, k: nat): (s: Bytes)
    requires RESULT_SIZE * k <= |out|
    ensures |s| == RESULT_SIZE
  {
    Pad(if RESULT_SIZE * (k + 1) <= |out| then out[RESULT_SIZE * k..RESULT_SIZE * (k + 1)] else out[RESULT_SIZE * k..],
        RESULT_SIZE)
  }

  /** One fragment for every 240 bytes begun, and never more than fifty. */
  function FragmentCount(n: nat): nat {
    var all := (n + RESULT_SIZE - 1) / RESULT_SIZE;
    if all < MAX_REPLIES then all else MAX_REPLIES
  }

  lemma FragmentsLeft(n: nat, k: nat)
    ensures k < FragmentCount(n) <==> k < MAX_REPLIES && RESULT_SIZE * k < n
  {
  }

  /** The zeroed buffer with the next bytes of the output in it. */
  lemma BufferIsFragment(out: Bytes, k: nat, result: Bytes)
    requires |result| == RESULT_SIZE && RESULT_SIZE * k <= |out|
    requires forall i :: 0 <= i < RESULT_SIZE ==>
      result[i] == if RESULT_SIZE * k + i < |out| then out[RESULT_SIZE * k + i] else 0
    ensures result == Fragment(out, k)
  {
    PieceOf(out, k);
  }

  const NO_OUTPUT: Bytes := [78, 111, 32, 111, 117, 116, 112, 117, 116]

  function Ok(number: u32, result: Bytes): ShellReply
    requires |result| == RESULT_SIZE
  {
    CmdReply(SHELL_CMD, 0, number, result)
  }

  function Fragments(number: u32, out: Bytes): (rs: seq<ShellReply>)
    ensures |rs| == FragmentCount(|out|)
  {
    seq(FragmentCount(|out|), k requires 0 <= k < FragmentCount(|out|) => Ok(number, Fragment(out, k)))
  }

  function OutputReplies(number: u32, out: Bytes): seq<ShellReply> {
    if out == [] then [Ok(number, Pad(NO_OUTPUT, RESULT_SIZE))] else Fragments(number, out)
  }

  function Failed(number: u32, code: int): ShellReply {
    CmdReply(SHELL_CMD, ToU32(code), number, Zeros(RESULT_SIZE))
  }

  predicate IsCommand(job: Job) {
    |job.packet| > 0 && job.packet[0] == SHELL_CMD
  }

  /** The replies to a shell command that is given this number. */
  function CmdReplies(number: u32, job: Job): seq<ShellReply> {
    if |job.packet| != SHELL_CMD_SIZE then [Failed(number, -EINVAL)]
    else match job.run
      case NoProcess => [Failed(number, -EIO)]
      case SelectFails => [Failed(number, -1)]
      case TimesOut => [Failed(number, -ETIMEDOUT)]
      case Output(out) => OutputReplies(number, out)
  }

  /** Replies go out in clones; the packet itself is freed at the end, or, when it is no shell
      command, sent back as an error. */
  datatype ShellEffect = CloneSent(reply: ShellReply) | OriginalSent(reply: ShellReply) | OriginalFreed

  function Clones(rs: seq<ShellReply>): seq<ShellEffect> {
    seq(|rs|, i requires 0 <= i < |rs| => CloneSent(rs[i]))
  }

  lemma ClonesSnoc(rs: seq<ShellReply>, k: nat)
    requires k < |rs|
    ensures Clones(rs[..k + 1]) == Clones(rs[..k]) + [CloneSent(rs[k])]
  {
  }

  lemma ClonesAll(rs: seq<ShellReply>)
    ensures Clones(rs[..|rs|]) == Clones(rs) && Clones(rs[..0]) == []
  {
  }

  lemma NextFragment(number: u32, out: Bytes, k: nat)
    requires k < FragmentCount(|out|)
    ensures RESULT_SIZE * k <= |out|
    ensures Clones(Fragments(number, out)[..k + 1])
      == Clones(Fragments(number, out)[..k]) + [CloneSent(Ok(number, Fragment(out, k)))]
  {
    FragmentsLeft(|out|, k);
    ClonesSnoc(Fragments(number, out), k);
  }

  function Work(number: u32, job: Job): (u32, seq<ShellEffect>) {
    if IsCommand(job) then ((number + 1) % 0x1_0000_0000, Clones(CmdReplies(number, job)) + [OriginalFreed])
    else (number, [OriginalSent(ShellErr(UNKNOWN_CMD, ToU32(-EINVAL)))])
  }

  // ---------- the answers, spelled out ----------

  lemma Failures()
    ensures ToU32(-EINVAL) == 0xFFFF_FFEA && ToU32(-EIO) == 0xFFFF_FFFB
    ensures ToU32(-1) == 0xFFFF_FFFF && ToU32(-ETIMEDOUT) == 0xFFFF_FF92
  {
  }

  /** A command that fails gets one reply with the number it was given, all zeros but for the code:
      -22 for a wrong length, -5 without a process, -1 after a failed `select`, -110 after a timeout. */
  lemma FailureReplies(number: u32, job: Job)
    requires |job.packet| != 203 || !job.run.Output?
    ensures var rs := CmdReplies(number, job);
      && |rs| == 1 && rs[0].CmdReply? && rs[0].tid == 0 && rs[0].number == number
      && (forall i :: 0 <= i < 240 ==> rs[0].result[i] == 0)
      && rs[0].code == if |job.packet| != 203 then 0xFFFF_FFEA else match job.run
        case NoProcess => 0xFFFF_FFFB
        case SelectFails => 0xFFFF_FFFF
        case TimesOut => 0xFFFF_FF92
        case Output(_) => 0
  {
    Failures();
  }

  /** How many replies an output takes: as many as there are 240 bytes begun, at most fifty. */
  lemma OutputCount(number: u32, job: Job, out: Bytes)
    requires |job.packet| == 203 && job.run == Output(out) && out != []
    ensures var n := |CmdReplies(number, job)|;
      1 <= n <= 50 && 240 * (n - 1) < |out| && (n < 50 ==> |out| <= 240 * n)
  {
  }

  /** Every reply to an output has code 0 and the command's number, and holds its own 240 bytes of
      the output, zeros past its end. */
  lemma OutputReply(number: u32, job: Job, out: Bytes, k: nat)
    requires |job.packet| == 203 && job.run == Output(out) && out != []
    requires k < |CmdReplies(number, job)|
    ensures var r := CmdReplies(number, job)[k];
      && r.CmdReply? && r.tid == 0 && r.code == 0 && r.number == number
      && forall i :: 0 <= i < 240 ==> r.result[i] == if 240 * k + i < |out| then out[240 * k + i] else 0
  {
    FragmentsLeft(|out|, k);
    PieceOf(out, k);
  }

  lemma PieceOf(out: Bytes, k: nat)
    requires RESULT_SIZE * k <= |out|
    ensures forall i :: 0 <= i < 240 ==>
      Fragment(out, k)[i] == if 240 * k + i < |out| then out[240 * k + i] else 0
  {
    var rest := out[RESULT_SIZE * k..];
    assert forall i :: 0 <= i < |rest| ==> rest[i] == out[RESULT_SIZE * k + i];
  }

  /** An empty output gets one reply, of code 0, with the text "No output" and then zeros. */
  lemma SilentReply(number: u32, job: Job)
    requires |job.packet| == 203 && job.run == Output([])
    ensures var rs := CmdReplies(number, job);
      && |rs| == 1 && rs[0].CmdReply? && rs[0].tid == 0 && rs[0].code == 0 && rs[0].number == number
      && forall i :: 0 <= i < 240 ==> rs[0].result[i] == if i < 9 then "No output"[i] as int else 0
  {
    TextBytes();
  }

  lemma TextBytes()
    ensures |NO_OUTPUT| == |"No output"| == 9
    ensures forall i :: 0 <= i < 9 ==> NO_OUTPUT[i] == "No output"[i] as int
  {
    var text := "No output";
    assert text == ['N', 'o', ' ', 'o', 'u', 't', 'p', 'u', 't'];
  }

  /** What becomes of a packet and of the number. A packet that is empty or has another first byte
      than 0 is sent back as an error and takes no number. */
  lemma JobDone(number: u32, job: Job)
    ensures var (next, es) := Work(number, job);
      if job.packet == [] || job.packet[0] != 0 then
        next == number && es == [OriginalSent(ShellErr(255, 0xFFFF_FFEA))]
      else
        var rs := CmdReplies(number, job);
        && next == (if number == 0xFFFF_FFFF then 0 else number + 1)
        && |es| == |rs| + 1 && es[|rs|] == OriginalFreed
        && forall i :: 0 <= i < |rs| ==> es[i] == CloneSent(rs[i])
  {
    Failures();
  }

  // ---------- the service ----------

  class ShellService {
    var seqNumber: u32

    /** What has become of packets and clones, in order. */
    ghost var log: seq<ShellEffect>

    constructor ()
      ensures seqNumber == 0 && log == []
    {
      seqNumber := 0;
      log := [];
    }

    /** `csp_sendto_reply` on a clone: it goes out with the bytes it holds, which are telemetry `t`. */
    ghost method SendClone(clone: Packet, t: ShellReply)
      requires clone.Valid() && clone.Bytes() == EncodeShell(t)
      modifies `log
      ensures log == old(log) + [CloneSent(t)]
    {
      log := log + [CloneSent(t)];
    }

    /** The same on the packet that brought the command. */
    ghost method SendOriginal(packet: Packet, t: ShellReply)
      requires packet.Valid() && packet.Bytes() == EncodeShell(t)
      modifies `log
      ensures log == old(log) + [OriginalSent(t)]
    {
      log := log + [OriginalSent(t)];
    }

    method SendCmdReply(packet: Packet, code: int, result: Bytes)
      requires packet.Valid() && |result| == RESULT_SIZE
      modifies `log
      ensures log == old(log) + [CloneSent(CmdReply(SHELL_CMD, ToU32(code), seqNumber, result))]
    {
      var t := CmdReply(SHELL_CMD, ToU32(code), seqNumber, result);
      var clone := packet.Clone();
      clone.Overwrite(EncodeShell(t));
      SendClone(clone, t);
    }

    /** `fread` into the result buffer: the next bytes of the output, up to its size. */
    method Fread(result: array<byte>, out: Bytes, at: nat) returns (rsize: nat)
      requires result.Length == RESULT_SIZE && at <= |out|
      modifies result
      ensures rsize == if |out| - at < RESULT_SIZE then |out| - at else RESULT_SIZE
      ensures forall i :: 0 <= i < RESULT_SIZE ==> result[i] == if i < rsize then out[at + i] else old(result[i])
    {
      rsize := if |out| - at < RESULT_SIZE then |out| - at else RESULT_SIZE;
      forall i | 0 <= i < rsize {
        result[i] := out[at + i];
      }
    }

    method Clear(result: array<byte>)
      modifies result
      ensures forall i :: 0 <= i < result.Length ==> result[i] == 0
    {
      forall i | 0 <= i < result.Length {
        result[i] := 0;
      }
    }

    /** Sends the filled buffer and clears it again. */
    method SendFragment(packet: Packet, result: array<byte>, out: Bytes, k: nat)
      requires packet.Valid() && result.Length == RESULT_SIZE && RESULT_SIZE * k <= |out|
      requires forall i :: 0 <= i < RESULT_SIZE ==>
        result[i] == if RESULT_SIZE * k + i < |out| then out[RESULT_SIZE * k + i] else 0
      modifies `log, result
      ensures log == old(log) + [CloneSent(Ok(seqNumber, Fragment(out, k)))]
      ensures forall i :: 0 <= i < RESULT_SIZE ==> result[i] == 0
    {
      BufferIsFragment(out, k, result[..]);
      SendCmdReply(packet, 0, result[..]);
      Clear(result);
    }

    /** The read-and-send loop over a process that produces `out`. */
    method SendOutput(packet: Packet, out: Bytes)
      requires packet.Valid()
      modifies `log
      ensures log == old(log) + Clones(OutputReplies(seqNumber, out))
    {
      ghost var rs := Fragments(seqNumber, out);
      ClonesAll(rs);
      var result := new byte[RESULT_SIZE](_ => 0);
      var at, replyCount := 0, 0;
      while replyCount < MAX_REPLIES
        invariant replyCount <= |rs| && replyCount <= MAX_REPLIES
        invariant at == if RESULT_SIZE * replyCount <= |out| then RESULT_SIZE * replyCount else |out|
        invariant forall i :: 0 <= i < RESULT_SIZE ==> result[i] == 0
        invariant log == old(log) + Clones(rs[..replyCount])
      {
        FragmentsLeft(|out|, replyCount);
        var rsize := Fread(result, out, at);
        if rsize <= 0 {
          if replyCount == 0 {
            SendNoOutput(packet, result);
          }
          break;
        }
        SendFragment(packet, result, out, replyCount);
        NextFragment(seqNumber, out, replyCount);
        at := at + rsize;
        replyCount := replyCount + 1;
      }
    }

    method SendNoOutput(packet: Packet, result: array<byte>)
      requires packet.Valid() && result.Length == RESULT_SIZE
      requires forall i :: 0 <= i < RESULT_SIZE ==> result[i] == 0
      modifies `log, result
      ensures log == old(log) + [CloneSent(Ok(seqNumber, Pad(NO_OUTPUT, RESULT_SIZE)))]
    {
      forall i | 0 <= i < |NO_OUTPUT| {
        result[i] := NO_OUTPUT[i];
      }
      assert result[..] == Pad(NO_OUTPUT, RESULT_SIZE);
      SendCmdReply(packet, 0, result[..]);
    }

    method ShellCmd(packet: Packet, run: Run)
      requires packet.Valid()
      modifies this
      ensures seqNumber == (old(seqNumber) + 1) % 0x1_0000_0000
      ensures log == old(log) + (Clones(CmdReplies(old(seqNumber), Job(packet.Bytes(), run))) + [OriginalFreed])
    {
      var ret := 0;
      if packet.length != SHELL_CMD_SIZE {
        ret := -EINVAL;
      } else {
        match run
        case NoProcess => ret := -EIO;
        case SelectFails => ret := -1;
        case TimesOut => ret := -ETIMEDOUT;
        case Output(out) => SendOutput(packet, out);
      }
      if ret < 0 {
        SendCmdReply(packet, ret, Zeros(RESULT_SIZE));
      }
      seqNumber := (seqNumber + 1) % 0x1_0000_0000;
      log := log + [OriginalFreed];
    }

    method CspShellWork(packet: Packet, run: Run)
      requires packet.Valid()
      modifies this, packet, packet.data
      ensures packet.Valid()
      ensures (seqNumber, log) ==
        (Work(old(seqNumber), Job(old(packet.Bytes()), run)).0,
         old(log) + Work(old(seqNumber), Job(old(packet.Bytes()), run)).1)
    {
      if packet.length >= 1 && packet.data[0] == SHELL_CMD {
        ShellCmd(packet, run);
      } else {
        var t := ShellErr(UNKNOWN_CMD, ToU32(-EINVAL));
        packet.Overwrite(EncodeShell(t));
        SendOriginal(packet, t);
      }
    }
  }
}
