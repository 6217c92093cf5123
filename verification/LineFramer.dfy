/** The console echo sample: bytes that arrive in interrupts are framed into lines, queued, and
    echoed by the main thread. */
module LineFramer {
  import opened Wire
  import opened FileStore
  import Seqs

  const MSG_SIZE: nat := 32
  const QUEUE_MAX: nat := 10
  const LF: byte := 10
  const CR: byte := 13

  predicate IsEnd(b: byte) { b == LF || b == CR }

  // ---------- what a line is ----------

  /** A line is any first byte, a terminator included, and then no terminator. */
  ghost predicate IsLine(s: Bytes) {
    s != [] && forall i :: 1 <= i < |s| ==> !IsEnd(s[i])
  }

  datatype Framed = Framed(lines: seq<Bytes>, ends: seq<byte>, rest: Bytes)

  function Unframe(lines: seq<Bytes>, ends: seq<byte>): Bytes
    requires |lines| == |ends|
  {
    if lines == [] then []
    else Unframe(lines[..|lines| - 1], ends[..|ends| - 1]) + lines[|lines| - 1] + [ends[|ends| - 1]]
  }

  /** A way to cut a stream into lines, their terminators, and an unfinished rest. */
  ghost predicate Frames(stream: Bytes, f: Framed) {
    && |f.lines| == |f.ends|
    && (forall i :: 0 <= i < |f.lines| ==> IsLine(f.lines[i]) && IsEnd(f.ends[i]))
    && (f.rest == [] || IsLine(f.rest))
    && stream == Unframe(f.lines, f.ends) + f.rest
  }

  /** Byte by byte: a terminator ends the line if there is one, and otherwise begins it. */
  function Feed(f: Framed, b: byte): Framed {
    if IsEnd(b) && f.rest != [] then Framed(f.lines + [f.rest], f.ends + [b], [])
    else f.(rest := f.rest + [b])
  }

  function Frame(stream: Bytes): Framed {
    if stream == [] then Framed([], [], []) else Feed(Frame(stream[..|stream| - 1]), stream[|stream| - 1])
  }

  lemma FeedFrames(stream: Bytes, f: Framed, b: byte)
    requires Frames(stream, f)
    ensures Frames(stream + [b], Feed(f, b))
  {
    if IsEnd(b) && f.rest != [] {
      Seqs.SnocPrefix(f.lines, f.rest);
      Seqs.SnocPrefix(f.ends, b);
    }
  }

  lemma {:induction false} FrameFrames(stream: Bytes)
    ensures Frames(stream, Frame(stream))
  {
    if stream != [] {
      FrameFrames(stream[..|stream| - 1]);
      FeedFrames(stream[..|stream| - 1], Frame(stream[..|stream| - 1]), stream[|stream| - 1]);
      Seqs.Unsnoc(stream);
    }
  }

  /** Any framing of a stream is one step of `Feed` from a framing of the stream before its last byte. */
  lemma Unfeed(stream: Bytes, f: Framed) returns (g: Framed)
    requires Frames(stream, f) && stream != []
    ensures Frames(stream[..|stream| - 1], g) && f == Feed(g, stream[|stream| - 1])
  {
    var n := |f.lines|;
    if f.rest != [] {
      g := f.(rest := f.rest[..|f.rest| - 1]);
      assert stream[..|stream| - 1] == Unframe(g.lines, g.ends) + g.rest;
      Seqs.Unsnoc(f.rest);
    } else {
      g := Framed(f.lines[..n - 1], f.ends[..n - 1], f.lines[n - 1]);
      assert stream[..|stream| - 1] == Unframe(g.lines, g.ends) + g.rest;
      Seqs.Unsnoc(f.lines);
      Seqs.Unsnoc(f.ends);
    }
  }

  lemma {:induction false} UnframeLength(lines: seq<Bytes>, ends: seq<byte>)
    requires |lines| == |ends|
    ensures |lines| <= |Unframe(lines, ends)|
  {
    if lines != [] {
      UnframeLength(lines[..|lines| - 1], ends[..|ends| - 1]);
    }
  }

  /** The framing of a stream is unique: the lines are the only way to cut it. */
  lemma {:induction false} FramingUnique(stream: Bytes, f: Framed)
    requires Frames(stream, f)
    ensures f == Frame(stream)
  {
    if stream != [] {
      var g := Unfeed(stream, f);
      FramingUnique(stream[..|stream| - 1], g);
    } else {
      UnframeLength(f.lines, f.ends);
    }
  }

  /** Every terminator of the stream directly follows a byte that is none. */
  predicate Tidy(stream: Bytes) {
    forall i :: 0 <= i < |stream| && IsEnd(stream[i]) ==> i > 0 && !IsEnd(stream[i - 1])
  }

  /** No line, and not the unfinished rest, begins with a terminator. */
  predicate StartsClean(f: Framed) {
    && (forall i :: 0 <= i < |f.lines| ==> f.lines[i] != [] && !IsEnd(f.lines[i][0]))
    && (f.rest != [] ==> !IsEnd(f.rest[0]))
  }

  lemma TidySnoc(stream: Bytes, b: byte)
    ensures Tidy(stream + [b]) <==>
      Tidy(stream) && (IsEnd(b) ==> stream != [] && !IsEnd(stream[|stream| - 1]))
  {
    var t := stream + [b];
    assert forall i :: 0 <= i < |stream| ==> t[i] == stream[i];
    if Tidy(t) {
      assert t[|stream|] == b;
    }
  }

  lemma CleanSnoc(f: Framed, b: byte)
    requires f.rest == [] || IsLine(f.rest)
    ensures StartsClean(Feed(f, b)) <==> StartsClean(f) && (IsEnd(b) ==> f.rest != [])
  {
    var g := Feed(f, b);
    if IsEnd(b) && f.rest != [] {
      assert g.lines[|f.lines|] == f.rest;
      assert forall i :: 0 <= i < |f.lines| ==> g.lines[i] == f.lines[i];
    }
  }

  /** A line is in progress exactly after a byte that is no terminator, as long as none has begun
      a line. */
  lemma {:induction false} RestAtEnd(stream: Bytes)
    ensures Frame(stream).rest == [] || IsLine(Frame(stream).rest)
    ensures StartsClean(Frame(stream)) ==>
      (Frame(stream).rest != [] <==> stream != [] && !IsEnd(stream[|stream| - 1]))
  {
    if stream != [] {
      RestAtEnd(stream[..|stream| - 1]);
      CleanSnoc(Frame(stream[..|stream| - 1]), stream[|stream| - 1]);
    }
  }

  /** What a line is handed on with carries no terminator exactly when the sender lets each
      terminator follow a byte that is none: never two in a row, and none first. */
  lemma {:induction false} CleanIffTidy(stream: Bytes)
    ensures StartsClean(Frame(stream)) <==> Tidy(stream)
  {
    if stream != [] {
      var before, b := stream[..|stream| - 1], stream[|stream| - 1];
      CleanIffTidy(before);
      RestAtEnd(before);
      CleanSnoc(Frame(before), b);
      TidySnoc(before, b);
      Seqs.Unsnoc(stream);
    }
  }

  /** Lines as a sender writes them that ends each with CR LF. */
  function CrLf(ls: seq<Bytes>): Bytes {
    if ls == [] then [] else CrLf(ls[..|ls| - 1]) + ls[|ls| - 1] + [CR] + [LF]
  }

  /** No text yet: the console is not in the middle of a line. */
  predicate AllEmpty(ls: seq<Bytes>) {
    forall i :: 0 <= i < |ls| ==> ls[i] == []
  }

  /** The same lines as they are handed on. After the first line that has text, each begins with
      the LF before it. Before that, each empty line is handed on as a CR, ended by its own LF. */
  function Shifted(ls: seq<Bytes>): seq<Bytes> {
    if ls == [] then []
    else
      var before, last := ls[..|ls| - 1], ls[|ls| - 1];
      Shifted(before) + [if !AllEmpty(before) then [LF] + last else if last == [] then [CR] else last]
  }

  lemma {:induction false} FeedAll(stream: Bytes, text: Bytes)
    requires forall i :: 0 <= i < |text| ==> !IsEnd(text[i])
    ensures Frame(stream + text) == Frame(stream).(rest := Frame(stream).rest + text)
  {
    if text == [] {
      assert stream + text == stream;
      assert Frame(stream).rest + text == Frame(stream).rest;
    } else {
      var n := |text| - 1;
      FeedAll(stream, text[..n]);
      Seqs.AppendSnoc(stream, text);
      Seqs.SnocPrefix(stream + text[..n], text[n]);
      Seqs.AppendSnoc(Frame(stream).rest, text);
    }
  }

  lemma FrameSnoc(stream: Bytes, b: byte)
    ensures Frame(stream + [b]) == Feed(Frame(stream), b)
  {
    Seqs.SnocPrefix(stream, b);
  }

  lemma CrLfLine(stream: Bytes, text: Bytes)
    requires forall i :: 0 <= i < |text| ==> !IsEnd(text[i])
    requires Frame(stream).rest + text != []
    ensures Frame(stream + text + [CR] + [LF])
      == Framed(Frame(stream).lines + [Frame(stream).rest + text], Frame(stream).ends + [CR], [LF])
  {
    FeedAll(stream, text);
    FrameSnoc(stream + text, CR);
    FrameSnoc(stream + text + [CR], LF);
  }

  lemma BareCrLf(stream: Bytes)
    requires Frame(stream).rest == []
    ensures Frame(stream + [] + [CR] + [LF])
      == Framed(Frame(stream).lines + [[CR]], Frame(stream).ends + [LF], [])
  {
    assert stream + [] == stream;
    FrameSnoc(stream, CR);
    assert Frame(stream).rest + [CR] == [CR];
    FrameSnoc(stream + [CR], LF);
  }

  /** A sender that ends its lines with CR LF gets each LF back at the head of its next line, and
      the last one as the beginning of a line that never comes. This starts with its first line
      that has text; an empty line before that is handed on as a CR. */
  lemma {:induction false} LineFeedsShift(ls: seq<Bytes>)
    requires forall i, k :: 0 <= i < |ls| && 0 <= k < |ls[i]| ==> !IsEnd(ls[i][k])
    ensures Frame(CrLf(ls)).lines == Shifted(ls)
    ensures Frame(CrLf(ls)).rest == if AllEmpty(ls) then [] else [LF]
  {
    if ls != [] {
      var before, last := ls[..|ls| - 1], ls[|ls| - 1];
      LineFeedsShift(before);
      assert AllEmpty(ls) <==> AllEmpty(before) && last == [] by { Seqs.Unsnoc(ls); }
      if AllEmpty(ls) {
        BareCrLf(CrLf(before));
      } else {
        assert Frame(CrLf(before)).rest + last == if AllEmpty(before) then last else [LF] + last;
        CrLfLine(CrLf(before), last);
      }
    }
  }

  // ---------- the console over time ----------

  /** The text of a line: its first 31 bytes, up to a NUL if there is one. */
  function Text(line: Bytes): Bytes {
    CStr(if |line| < MSG_SIZE then line else line[..MSG_SIZE - 1])
  }

  /** The text is all of the line up to the first NUL, and 31 bytes at most. */
  lemma TextIs(line: Bytes)
    ensures var t := Text(line);
      && t <= line && |t| <= 31 && 0 !in t
      && (|t| < |line| && |t| < 31 ==> line[|t|] == 0)
  {
  }

  datatype Console = Console(rest: Bytes, queue: seq<Bytes>, echoed: seq<Bytes>)

  datatype Happening = Byte(b: byte) | Get

  /** A finished line is queued, or dropped when ten are waiting; the main thread takes the oldest. */
  function Happen(c: Console, e: Happening): Console {
    match e
    case Byte(b) =>
      if IsEnd(b) && c.rest != [] then
        Console([], if |c.queue| < QUEUE_MAX then c.queue + [Text(c.rest)] else c.queue, c.echoed)
      else c.(rest := c.rest + [b])
    case Get => if c.queue != [] then Console(c.rest, c.queue[1..], c.echoed + [c.queue[0]]) else c
  }

  function HappenAll(c: Console, es: seq<Happening>): Console {
    if es == [] then c else Happen(HappenAll(c, es[..|es| - 1]), es[|es| - 1])
  }

  const SILENT := Console([], [], [])

  /** The bytes received, whatever else happened in between. */
  function Received(es: seq<Happening>): Bytes {
    if es == [] then []
    else Received(es[..|es| - 1]) + if es[|es| - 1].Byte? then [es[|es| - 1].b] else []
  }

  /** For each finished line, whether there was room for it. */
  function Kept(es: seq<Happening>): seq<bool> {
    if es == [] then []
    else
      var c, e := HappenAll(SILENT, es[..|es| - 1]), es[|es| - 1];
      Kept(es[..|es| - 1]) +
        if e.Byte? && IsEnd(e.b) && c.rest != [] then [|c.queue| < QUEUE_MAX] else []
  }

  function Select(lines: seq<Bytes>, kept: seq<bool>): seq<Bytes>
    requires |lines| == |kept|
  {
    if lines == [] then []
    else
      var before := Select(lines[..|lines| - 1], kept[..|kept| - 1]);
      before + (if kept[|kept| - 1] then [Text(lines[|lines| - 1])] else [])
  }

  lemma SelectSnoc(lines: seq<Bytes>, kept: seq<bool>, line: Bytes, k: bool)
    requires |lines| == |kept|
    ensures Select(lines + [line], kept + [k]) == Select(lines, kept) + if k then [Text(line)] else []
  {
    Seqs.SnocPrefix(lines, line);
    Seqs.SnocPrefix(kept, k);
  }

  ghost predicate Tracks(c: Console, f: Framed, kept: seq<bool>) {
    && c.rest == f.rest && |kept| == |f.lines| && |c.queue| <= QUEUE_MAX
    && c.echoed + c.queue == Select(f.lines, kept)
  }

  lemma TracksStep(c: Console, f: Framed, kept: seq<bool>, e: Happening)
    requires Tracks(c, f, kept)
    ensures Tracks(Happen(c, e), if e.Byte? then Feed(f, e.b) else f,
              kept + if e.Byte? && IsEnd(e.b) && c.rest != [] then [|c.queue| < QUEUE_MAX] else [])
  {
    if e.Byte? && IsEnd(e.b) && c.rest != [] {
      SelectSnoc(f.lines, kept, f.rest, |c.queue| < QUEUE_MAX);
    } else {
      assert kept + [] == kept;
    }
  }

  /** For every interleaving of received bytes with the main thread: the messages echoed, and then
      those queued, are the texts of the lines of the whole stream, in order, without those that
      found ten messages queued; the unfinished line is the stream's own. */
  lemma {:induction false} EchoesTheLines(es: seq<Happening>)
    ensures Tracks(HappenAll(SILENT, es), Frame(Received(es)), Kept(es))
  {
    if es != [] {
      var n := |es| - 1;
      EchoesTheLines(es[..n]);
      TracksStep(HappenAll(SILENT, es[..n]), Frame(Received(es[..n])), Kept(es[..n]), es[n]);
      if es[n].Byte? {
        Seqs.SnocPrefix(Received(es[..n]), es[n].b);
      } else {
        assert Received(es) == Received(es[..n]);
      }
    }
  }

  function Texts(lines: seq<Bytes>): (ts: seq<Bytes>)
    ensures |ts| == |lines|
  {
    if lines == [] then [] else Texts(lines[..|lines| - 1]) + [Text(lines[|lines| - 1])]
  }

  predicate AllTrue(ks: seq<bool>) {
    ks != [] ==> ks[|ks| - 1] && AllTrue(ks[..|ks| - 1])
  }

  lemma {:induction false} SelectLength(lines: seq<Bytes>, kept: seq<bool>)
    requires |lines| == |kept|
    ensures |Select(lines, kept)| <= |lines|
    ensures |Select(lines, kept)| == |lines| ==> AllTrue(kept)
  {
    if lines != [] {
      SelectLength(lines[..|lines| - 1], kept[..|kept| - 1]);
    }
  }

  lemma {:induction false} SelectAll(lines: seq<Bytes>, kept: seq<bool>)
    requires |lines| == |kept|
    requires AllTrue(kept)
    ensures Select(lines, kept) == Texts(lines)
  {
    if lines != [] {
      SelectAll(lines[..|lines| - 1], kept[..|kept| - 1]);
    }
  }

  lemma LostIffFull(es: seq<Happening>)
    ensures HappenAll(SILENT, es).echoed + HappenAll(SILENT, es).queue == Texts(Frame(Received(es)).lines)
      <==> AllTrue(Kept(es))
  {
    EchoesTheLines(es);
    var lines, kept := Frame(Received(es)).lines, Kept(es);
    assert HappenAll(SILENT, es).echoed + HappenAll(SILENT, es).queue == Select(lines, kept);
    SelectLength(lines, kept);
    assert |Texts(lines)| == |lines|;
    if AllTrue(kept) {
      SelectAll(lines, kept);
    }
  }

  /** The event finishes a line of the stream received before it. */
  predicate Finishes(es: seq<Happening>, e: Happening) {
    e.Byte? && IsEnd(e.b) && Frame(Received(es)).rest != []
  }

  /** Lines finished less lines taken, had the queue no bound: a matter of arrivals and gets alone. */
  function Waiting(es: seq<Happening>): nat {
    if es == [] then 0
    else
      var before, e := es[..|es| - 1], es[|es| - 1];
      if Finishes(before, e) then Waiting(before) + 1
      else if e.Get? && Waiting(before) > 0 then Waiting(before) - 1
      else Waiting(before)
  }

  /** Never more than ten lines are waiting. */
  predicate KeepsUp(es: seq<Happening>) {
    es != [] ==> Waiting(es) <= QUEUE_MAX && KeepsUp(es[..|es| - 1])
  }

  lemma {:induction false} KeptIffKeepsUp(es: seq<Happening>)
    ensures AllTrue(Kept(es)) <==> KeepsUp(es)
    ensures KeepsUp(es) ==> |HappenAll(SILENT, es).queue| == Waiting(es)
  {
    if es != [] {
      var before, e := es[..|es| - 1], es[|es| - 1];
      KeptIffKeepsUp(before);
      KeptStep(before, e, es);
    }
  }

  /** One more event is kept track of in both ways, if the counts have agreed so far. */
  lemma KeptStep(before: seq<Happening>, e: Happening, es: seq<Happening>)
    requires es != [] && before == es[..|es| - 1] && e == es[|es| - 1]
    requires KeepsUp(before) ==> |HappenAll(SILENT, before).queue| == Waiting(before)
    ensures AllTrue(Kept(es)) <==>
      AllTrue(Kept(before)) && (Finishes(before, e) ==> |HappenAll(SILENT, before).queue| < QUEUE_MAX)
    ensures KeepsUp(es) ==> |HappenAll(SILENT, es).queue| == Waiting(es)
  {
    EchoesTheLines(before);
    var c := HappenAll(SILENT, before);
    assert c.rest == Frame(Received(before)).rest;
    if Finishes(before, e) {
      Seqs.SnocPrefix(Kept(before), |c.queue| < QUEUE_MAX);
    } else {
      assert Kept(es) == Kept(before);
    }
  }

  /** No line is lost exactly when, counting lines as they finish and gets as they come, never
      more than ten are waiting. */
  lemma NothingLost(es: seq<Happening>)
    ensures HappenAll(SILENT, es).echoed + HappenAll(SILENT, es).queue == Texts(Frame(Received(es)).lines)
      <==> KeepsUp(es)
  {
    LostIffFull(es);
    KeptIffKeepsUp(es);
  }

  /** The terminators are LF and CR. A terminator with a line in progress ends it: its text is
      queued behind the others, and dropped if and only if ten are waiting. Any other byte extends
      the line. */
  lemma ByteDoes(c: Console, b: byte)
    requires |c.queue| <= 10
    ensures var c' := Happen(c, Byte(b));
      && c'.echoed == c.echoed
      && ((b == 10 || b == 13) && c.rest != [] ==>
        c'.rest == [] && c'.queue == if |c.queue| == 10 then c.queue else c.queue + [Text(c.rest)])
      && (!(b == 10 || b == 13) || c.rest == [] ==> c'.rest == c.rest + [b] && c'.queue == c.queue)
  {
  }

  lemma EchoText()
    ensures |ECHO| == |"Echo: "| && forall i :: 0 <= i < |ECHO| ==> ECHO[i] == "Echo: "[i] as int
    ensures |CRLF| == |"\r\n"| && forall i :: 0 <= i < |CRLF| ==> CRLF[i] == "\r\n"[i] as int
  {
    var text := "Echo: ";
    assert text == ['E', 'c', 'h', 'o', ':', ' '];
    var end := "\r\n";
    assert end == ['\r', '\n'];
  }

  // ---------- interrupts ----------

  function Bytewise(chunk: Bytes): seq<Happening> {
    seq(|chunk|, i requires 0 <= i < |chunk| => Byte(chunk[i]))
  }

  function Interrupts(c: Console, chunks: seq<Bytes>): Console {
    if chunks == [] then c
    else HappenAll(Interrupts(c, chunks[..|chunks| - 1]), Bytewise(chunks[|chunks| - 1]))
  }

  lemma {:induction false} HappenAppend(c: Console, a: seq<Happening>, b: seq<Happening>)
    ensures HappenAll(c, a + b) == HappenAll(HappenAll(c, a), b)
  {
    if b == [] {
      assert a + b == a;
    } else {
      Seqs.AppendSnoc(a, b);
      Seqs.SnocPrefix(a + b[..|b| - 1], b[|b| - 1]);
      HappenAppend(c, a, b[..|b| - 1]);
    }
  }

  /** How the bytes are split into interrupts does not matter. */
  lemma {:induction false} AnyPartition(c: Console, chunks: seq<Bytes>)
    ensures Interrupts(c, chunks) == HappenAll(c, Bytewise(Seqs.Flatten(chunks)))
  {
    if chunks != [] {
      var n := |chunks| - 1;
      AnyPartition(c, chunks[..n]);
      HappenAppend(c, Bytewise(Seqs.Flatten(chunks[..n])), Bytewise(chunks[n]));
      BytewiseAppend(Seqs.Flatten(chunks[..n]), chunks[n]);
    }
  }

  lemma BytewiseAppend(a: Bytes, b: Bytes)
    ensures Bytewise(a + b) == Bytewise(a) + Bytewise(b)
  {
  }

  // ---------- the code ----------

  const ECHO: Bytes := [69, 99, 104, 111, 58, 32]
  const CRLF: Bytes := [CR, LF]

  class ConsoleEcho {
    const rxBuf: array<byte>
    var rxBufPos: nat

    /** The message queue of the kernel: whole buffers, copied in and out. */
    var uartMsgq: seq<Bytes>

    /** What has been written to the UART. */
    ghost var sent: Bytes

    /** The console that the fields stand for. */
    ghost var console: Console

    ghost predicate Valid()
      reads this, rxBuf
    {
      && rxBuf.Length == MSG_SIZE
      && rxBufPos == (if |console.rest| < MSG_SIZE then |console.rest| else MSG_SIZE - 1)
      && rxBuf[..rxBufPos] == console.rest[..rxBufPos]
      && |uartMsgq| == |console.queue| <= QUEUE_MAX
      && forall i :: 0 <= i < |uartMsgq| ==> CStr(uartMsgq[i]) == console.queue[i]
    }

    constructor ()
      ensures Valid() && fresh(rxBuf)
      ensures console == SILENT && sent == []
    {
      rxBuf := new byte[MSG_SIZE](_ => 0);
      rxBufPos := 0;
      uartMsgq := [];
      sent := [];
      console := SILENT;
    }

    /** `k_msgq_put` without waiting: a full queue drops the message. */
    method MsgqPut(msg: Bytes)
      modifies `uartMsgq
      ensures uartMsgq == if |old(uartMsgq)| < QUEUE_MAX then old(uartMsgq) + [msg] else old(uartMsgq)
    {
      if |uartMsgq| < QUEUE_MAX {
        uartMsgq := uartMsgq + [msg];
      }
    }

    method OneByte(c: byte)
      requires Valid()
      modifies this, rxBuf
      ensures Valid() && console == Happen(old(console), Byte(c)) && sent == old(sent)
    {
      if (c == LF || c == CR) && rxBufPos > 0 {
        rxBuf[rxBufPos] := 0;
        TerminatedText(console.rest, rxBuf[..], rxBufPos);
        MsgqPut(rxBuf[..]);
        rxBufPos := 0;
      } else if rxBufPos < MSG_SIZE - 1 {
        rxBuf[rxBufPos] := c;
        rxBufPos := rxBufPos + 1;
      }
      console := Happen(console, Byte(c));
    }

    /** Reads until the FIFO is empty. */
    method SerialCallbackHandler(fifo: Bytes)
      requires Valid()
      modifies this, rxBuf
      ensures Valid() && console == HappenAll(old(console), Bytewise(fifo)) && sent == old(sent)
    {
      var i := 0;
      while i < |fifo|
        invariant i <= |fifo| && Valid() && sent == old(sent)
        invariant console == HappenAll(old(console), Bytewise(fifo[..i]))
      {
        OneByte(fifo[i]);
        assert Bytewise(fifo[..i + 1]) == Bytewise(fifo[..i]) + [Byte(fifo[i])];
        Seqs.SnocPrefix(Bytewise(fifo[..i]), Byte(fifo[i]));
        i := i + 1;
      }
      assert fifo[..i] == fifo;
    }

    /** `print_uart`: byte by byte up to the NUL. */
    method PrintUart(buf: Bytes)
      modifies `sent
      ensures sent == old(sent) + CStr(buf)
    {
      var msg := CStr(buf);
      var i := 0;
      while i < |msg|
        invariant i <= |msg| && sent == old(sent) + msg[..i]
      {
        sent := sent + [msg[i]];
        i := i + 1;
      }
    }

    method PrintLiteral(text: Bytes)
      requires 0 !in text
      modifies `sent
      ensures sent == old(sent) + text
    {
      CStrOf(text, []);
      assert text + [] == text;
      PrintUart(text);
    }

    /** One round of the main loop, once there is a message to get. */
    method EchoOne()
      requires Valid() && uartMsgq != []
      modifies `uartMsgq, `sent, `console
      ensures Valid() && console == Happen(old(console), Get)
      ensures sent == old(sent) + ECHO + old(console.queue[0]) + CRLF
    {
      var txBuf := uartMsgq[0];
      uartMsgq := uartMsgq[1..];
      console := Happen(console, Get);
      PrintLiteral(ECHO);
      PrintUart(txBuf);
      PrintLiteral(CRLF);
    }
  }

  lemma TerminatedText(line: Bytes, buf: Bytes, pos: nat)
    requires |buf| == MSG_SIZE && pos == (if |line| < MSG_SIZE then |line| else MSG_SIZE - 1)
    requires buf[..pos] == line[..pos] && buf[pos] == 0
    ensures CStr(buf) == Text(line)
  {
    CStrCut(line[..pos], buf[pos..]);
    assert buf == line[..pos] + buf[pos..];
    if |line| < MSG_SIZE {
      assert line[..pos] == line;
    }
  }

  lemma {:induction false} CStrCut(s: Bytes, rest: Bytes)
    requires rest != [] && rest[0] == 0
    ensures CStr(s + rest) == CStr(s)
  {
    if s != [] {
      assert (s + rest)[1..] == s[1..] + rest;
      CStrCut(s[1..], rest);
    } else {
      assert s + rest == rest;
    }
  }
}
