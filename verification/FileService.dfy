/** The file queue as it runs: the packet handler pushes packets to its tail, and the worker pops
    them from its head. */
module FileService {
  import opened Wire
  import opened FileStore
  import opened Upload
  import opened Csp
  import UploadService
  import Schedule
  import Shell
  import Seqs

  /** Distinct packets have distinct buffers. */
  ghost predicate Apart(queue: seq<Packet>) {
    forall i, j :: 0 <= i < j < |queue| ==> queue[i] != queue[j] && queue[i].data != queue[j].data
  }

  ghost function Buffers(queue: seq<Packet>): set<object> {
    set i | 0 <= i < |queue| :: queue[i].data as object
  }

  /** The packets from `k` on are still as they arrived. */
  ghost predicate Holds(queue: seq<Packet>, cmds: seq<Command>, k: nat)
    reads queue, Buffers(queue)
  {
    |cmds| == |queue| && forall i :: k <= i < |queue| ==> queue[i].Valid() && queue[i].Bytes() == cmds[i]
  }

  /** The commands waiting in the queue, with the environment's answers in the order in which the
      worker will get them. */
  function Inputs(cmds: seq<Command>, envs: seq<Env>): (ins: seq<Input>)
    requires |envs| == |cmds|
    ensures |ins| == |cmds|
  {
    seq(|cmds|, i requires 0 <= i < |cmds| => Receive(cmds[i], envs[i]))
  }

  lemma InputsInOrder(cmds: seq<Command>, envs: seq<Env>, i: nat)
    requires |envs| == |cmds| && i < |cmds|
    ensures Inputs(cmds, envs)[i].req == Parse(cmds[i]) && Inputs(cmds, envs)[i].env == envs[i]
  {
  }

  class FileWork {
    const service: UploadService.Service
    var queue: seq<Packet>

    constructor (files: map<Name, Bytes>)
      ensures service.Valid() && fresh(service) && fresh(service.sessions)
      ensures service.state == Init(files) && service.log == [] && queue == []
    {
      service := new UploadService.Service(files);
      queue := [];
    }

    method FileHandler(packet: Packet)
      modifies `queue
      ensures queue == old(queue) + [packet]
    {
      queue := queue + [packet];
    }

    /** One packet: popped from the head, and handled. */
    method FileWorkStep(env: Env, ghost cmd: Command)
      requires service.Valid() && queue != [] && queue[0].Valid() && queue[0].Bytes() == cmd
      modifies `queue, service, service.sessions, queue[0], queue[0].data
      ensures queue == old(queue)[1..] && service.Valid()
      ensures service.state == Step(old(service.state), Receive(cmd, env))
      ensures service.log == old(service.log) + Effects(old(service.state), Receive(cmd, env))
    {
      var packet := queue[0];
      queue := queue[1..];
      service.CspFileWork(packet, env);
    }

    /** The worker thread until the queue is empty. */
    method FileWorkThread(envs: seq<Env>, ghost cmds: seq<Command>)
      requires service.Valid() && Apart(queue) && Holds(queue, cmds, 0) && |envs| == |queue|
      modifies `queue, service, service.sessions, queue, Buffers(queue)
      ensures queue == [] && service.Valid()
      ensures service.state == After(old(service.state), Inputs(cmds, envs))
      ensures service.log == old(service.log) + AllEffects(old(service.state), Inputs(cmds, envs))
    {
      ghost var all, ins, was, log := queue, Inputs(cmds, envs), service.state, service.log;
      var k := 0;
      while queue != []
        invariant k <= |all| && queue == all[k..]
        invariant service.Valid() && Holds(all, cmds, k)
        invariant service.state == Schedule.Ran(was, ins, k).0
        invariant service.log == log + Schedule.Ran(was, ins, k).1
        decreases |queue|
      {
        assert queue[0] == all[k] && queue[1..] == all[k + 1..];
        Schedule.RanNext(was, ins, k);
        FileWorkStep(envs[k], cmds[k]);
        Seqs.Assoc(log, Schedule.Ran(was, ins, k).1, Effects(Schedule.Ran(was, ins, k).0, ins[k]));
        k := k + 1;
      }
      assert ins[..k] == ins;
    }
  }

  // ---------- the packet handler ----------

  datatype Received = Received(port: nat, packet: Packet)

  function OnPort(conn: seq<Received>, port: nat): seq<Packet> {
    if conn == [] then []
    else
      var last := conn[|conn| - 1];
      OnPort(conn[..|conn| - 1], port) + (if last.port == port then [last.packet] else [])
  }

  function AllOnPort(conns: seq<seq<Received>>, port: nat): seq<Packet> {
    if conns == [] then [] else AllOnPort(conns[..|conns| - 1], port) + OnPort(conns[|conns| - 1], port)
  }

  function CameOn(port: nat): Received -> bool {
    (r: Received) => r.port == port
  }

  function ThePacket(): (Received, Packet) -> bool {
    (r: Received, packet: Packet) => packet == r.packet
  }

  /** These are all the packets that came on the port, in order. */
  ghost predicate PacketsOn(received: seq<Received>, port: nat, packets: seq<Packet>) {
    Seqs.Picked(received, CameOn(port), ThePacket(), packets)
  }

  lemma {:induction false} OnPortIsAll(conn: seq<Received>, port: nat)
    ensures PacketsOn(conn, port, OnPort(conn, port))
  {
    if conn == [] {
      Seqs.NonePicked(CameOn(port), ThePacket());
    } else {
      var n, last := |conn| - 1, conn[|conn| - 1];
      OnPortIsAll(conn[..n], port);
      Seqs.Unsnoc(conn);
      if last.port == port {
        Seqs.PickedTake(conn[..n], CameOn(port), ThePacket(), OnPort(conn[..n], port), last, last.packet);
      } else {
        Seqs.PickedSkip(conn[..n], CameOn(port), ThePacket(), OnPort(conn[..n], port), last);
      }
    }
  }

  lemma {:induction false} OnPortAppend(a: seq<Received>, b: seq<Received>, port: nat)
    ensures OnPort(a + b, port) == OnPort(a, port) + OnPort(b, port)
  {
    if b == [] {
      assert a + b == a;
    } else {
      OnPortAppend(a, b[..|b| - 1], port);
      Seqs.AppendSnoc(a, b);
      Seqs.SnocPrefix(a + b[..|b| - 1], b[|b| - 1]);
    }
  }

  /** The connections count end to end. */
  lemma {:induction false} EndToEndOnPort(conns: seq<seq<Received>>, port: nat)
    ensures AllOnPort(conns, port) == OnPort(Seqs.Flatten(conns), port)
  {
    if conns != [] {
      var n := |conns| - 1;
      EndToEndOnPort(conns[..n], port);
      OnPortAppend(Seqs.Flatten(conns[..n]), conns[n], port);
    }
  }

  lemma AllOnPortIsAll(conns: seq<seq<Received>>, port: nat)
    ensures PacketsOn(Seqs.Flatten(conns), port, AllOnPort(conns, port))
  {
    EndToEndOnPort(conns, port);
    OnPortIsAll(Seqs.Flatten(conns), port);
  }

  class Handler {
    const files: FileWork
    var shellQueue: seq<Packet>

    constructor (files: FileWork)
      ensures this.files == files && shellQueue == []
    {
      this.files := files;
      shellQueue := [];
    }

    /** The packets read from one connection, each sent to the service on its port. */
    method ReadConnection(conn: seq<Received>)
      modifies files`queue, `shellQueue
      ensures files.queue == old(files.queue) + OnPort(conn, Schedule.PORT_FILE)
      ensures shellQueue == old(shellQueue) + OnPort(conn, Schedule.PORT_SHELL)
    {
      var i := 0;
      while i < |conn|
        invariant i <= |conn|
        invariant files.queue == old(files.queue) + OnPort(conn[..i], Schedule.PORT_FILE)
        invariant shellQueue == old(shellQueue) + OnPort(conn[..i], Schedule.PORT_SHELL)
      {
        assert conn[..i + 1][..i] == conn[..i];
        if conn[i].port == Schedule.PORT_SHELL {
          shellQueue := shellQueue + [conn[i].packet];
        } else if conn[i].port == Schedule.PORT_FILE {
          files.FileHandler(conn[i].packet);
        }
        i := i + 1;
      }
      assert conn[..i] == conn;
    }

    /** One connection after the other is accepted and read to its end. */
    method HandleCspPacket(conns: seq<seq<Received>>)
      modifies files`queue, `shellQueue
      ensures files.queue == old(files.queue) + AllOnPort(conns, Schedule.PORT_FILE)
      ensures shellQueue == old(shellQueue) + AllOnPort(conns, Schedule.PORT_SHELL)
      ensures PacketsOn(Seqs.Flatten(conns), 13, files.queue[|old(files.queue)|..])
      ensures PacketsOn(Seqs.Flatten(conns), 10, shellQueue[|old(shellQueue)|..])
    {
      var i := 0;
      while i < |conns|
        invariant i <= |conns|
        invariant files.queue == old(files.queue) + AllOnPort(conns[..i], Schedule.PORT_FILE)
        invariant shellQueue == old(shellQueue) + AllOnPort(conns[..i], Schedule.PORT_SHELL)
      {
        assert conns[..i + 1][..i] == conns[..i];
        ReadConnection(conns[i]);
        i := i + 1;
      }
      assert conns[..i] == conns;
      AllOnPortIsAll(conns, 13);
      AllOnPortIsAll(conns, 10);
      assert files.queue[|old(files.queue)|..] == AllOnPort(conns, 13);
      assert shellQueue[|old(shellQueue)|..] == AllOnPort(conns, 10);
    }
  }

  // ---------- the same packets as arrivals of the schedule ----------

  /** The packet is what arrives. */
  ghost predicate Depicts(a: Schedule.Arrival, r: Received)
    reads r.packet, r.packet.data
  {
    r.packet.Valid() && a.port == r.port && a.bytes == r.packet.Bytes()
  }

  /** What arrives in the course of a schedule. */
  function Arrivals(acts: seq<Schedule.Action>): seq<Schedule.Arrival> {
    if acts == [] then []
    else Arrivals(acts[..|acts| - 1]) + if acts[|acts| - 1].Arrives? then [acts[|acts| - 1].a] else []
  }

  ghost predicate Depict(arrivals: seq<Schedule.Arrival>, received: seq<Received>)
    reads set r | r in received :: r.packet, set r | r in received :: r.packet.data
  {
    |arrivals| == |received| && forall i :: 0 <= i < |received| ==> Depicts(arrivals[i], received[i])
  }

  /** If what arrives in a schedule are the packets that the handler reads, then the file commands
      of the schedule are, one for one, the packets that the handler queues for the file worker. */
  lemma {:induction false} QueuedAreFileArrivals(acts: seq<Schedule.Action>, received: seq<Received>)
    requires Depict(Arrivals(acts), received)
    ensures |Schedule.FileArrivals(acts)| == |OnPort(received, 13)|
    ensures forall i :: 0 <= i < |OnPort(received, 13)| ==>
      IsCommand(OnPort(received, 13)[i], Schedule.FileArrivals(acts)[i])
  {
    if acts != [] {
      var n, act := |acts| - 1, acts[|acts| - 1];
      Schedule.NonePushed(act);
      if act.Arrives? {
        DepictPrefix(acts, received);
        QueuedAreFileArrivals(acts[..n], received[..|received| - 1]);
        if act.a.port == 13 {
          Schedule.PushedOne(Receive(act.a.bytes, act.a.env));
        }
      } else {
        QueuedAreFileArrivals(acts[..n], received);
      }
    }
  }

  ghost predicate IsCommand(packet: Packet, input: Input)
    reads packet, packet.data
  {
    packet.Valid() && WellFormed(packet.Bytes()) && input.req == Parse(packet.Bytes())
  }

  ghost predicate IsJob(packet: Packet, job: Shell.Job)
    reads packet, packet.data
  {
    packet.Valid() && job.packet == packet.Bytes()
  }

  lemma DepictPrefix(acts: seq<Schedule.Action>, received: seq<Received>)
    requires Depict(Arrivals(acts), received)
    requires acts != [] && acts[|acts| - 1].Arrives?
    ensures received != [] && Depicts(acts[|acts| - 1].a, received[|received| - 1])
    ensures Depict(Arrivals(acts[..|acts| - 1]), received[..|received| - 1])
  {
    assert Depicts(Arrivals(acts)[|received| - 1], received[|received| - 1]);
  }

  /** And its shell jobs are those that the handler queues for the shell worker. */
  lemma {:induction false} QueuedAreShellArrivals(acts: seq<Schedule.Action>, received: seq<Received>)
    requires Depict(Arrivals(acts), received)
    ensures |Schedule.ShellArrivals(acts)| == |OnPort(received, 10)|
    ensures forall i :: 0 <= i < |OnPort(received, 10)| ==>
      IsJob(OnPort(received, 10)[i], Schedule.ShellArrivals(acts)[i])
  {
    if acts != [] {
      var n, act := |acts| - 1, acts[|acts| - 1];
      Schedule.NonePushed(act);
      if act.Arrives? {
        DepictPrefix(acts, received);
        QueuedAreShellArrivals(acts[..n], received[..|received| - 1]);
        if act.a.port == 10 {
          Schedule.PushedOne(Shell.Job(act.a.bytes, act.a.run));
        }
      } else {
        QueuedAreShellArrivals(acts[..n], received);
      }
    }
  }
}
