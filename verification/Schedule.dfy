/** The threads of the daemon: a handler that sorts arriving packets into queues, and one worker
    for each queue. Pushing, popping and working are atomic steps of any interleaving. */
module Schedule {
  import opened Wire
  import opened FileStore
  import opened Upload
  import Shell
  import ShellStream
  import Seqs

  const PORT_SHELL: nat := 10
  const PORT_FILE: nat := 13

  // ---------- one queue and its worker ----------

  /** `hand` is the packet that the worker has popped and not yet finished; `done` is what it has
      finished, in order. */
  datatype Worker<I, S> = Worker(queue: seq<I>, hand: Option<I>, state: S, ghost done: seq<I>)

  datatype Turn<I> = Push(item: I) | Pop | Work

  /** A worker with a packet in hand does not pop, one without does not work, and popping an empty
      queue finds nothing. */
  ghost function Take<I, S>(f: (S, I) -> S, w: Worker<I, S>, t: Turn<I>): Worker<I, S> {
    match t
    case Push(item) => w.(queue := w.queue + [item])
    case Pop => if w.hand.None? && w.queue != [] then w.(hand := Some(w.queue[0]), queue := w.queue[1..]) else w
    case Work => if w.hand.Some? then Worker(w.queue, None, f(w.state, w.hand.value), w.done + [w.hand.value]) else w
  }

  ghost function TakeAll<I, S>(f: (S, I) -> S, w: Worker<I, S>, ts: seq<Turn<I>>): Worker<I, S> {
    if ts == [] then w else Take(f, TakeAll(f, w, ts[..|ts| - 1]), ts[|ts| - 1])
  }

  function Pushed<I>(ts: seq<Turn<I>>): seq<I> {
    if ts == [] then []
    else Pushed(ts[..|ts| - 1]) + if ts[|ts| - 1].Push? then [ts[|ts| - 1].item] else []
  }

  function Fold<I, S>(f: (S, I) -> S, s: S, items: seq<I>): S {
    if items == [] then s else f(Fold(f, s, items[..|items| - 1]), items[|items| - 1])
  }

  function Listed<I>(o: Option<I>): seq<I> {
    if o.Some? then [o.value] else []
  }

  ghost predicate Idle<I, S>(w: Worker<I, S>) {
    w.queue == [] && w.hand == None
  }

  ghost function Start<I, S>(s: S): Worker<I, S> {
    Worker([], None, s, [])
  }

  ghost predicate InOrder<I, S>(f: (S, I) -> S, s: S, w: Worker<I, S>, arrived: seq<I>) {
    w.done + Listed(w.hand) + w.queue == arrived && w.state == Fold(f, s, w.done)
  }

  lemma InOrderStep<I, S>(f: (S, I) -> S, s: S, w: Worker<I, S>, arrived: seq<I>, t: Turn<I>)
    requires InOrder(f, s, w, arrived)
    ensures InOrder(f, s, Take(f, w, t), arrived + if t.Push? then [t.item] else [])
  {
    if t.Work? && w.hand.Some? {
      Seqs.SnocPrefix(w.done, w.hand.value);
    }
  }

  /** Under every schedule, what the worker has finished is a prefix of what has arrived, and its
      state is what the plain loop over that prefix computes. */
  lemma {:induction false} FirstComeFirstServed<I, S>(f: (S, I) -> S, s: S, ts: seq<Turn<I>>)
    ensures InOrder(f, s, TakeAll(f, Start(s), ts), Pushed(ts))
  {
    if ts != [] {
      var n := |ts| - 1;
      FirstComeFirstServed(f, s, ts[..n]);
      InOrderStep(f, s, TakeAll(f, Start(s), ts[..n]), Pushed(ts[..n]), ts[n]);
    }
  }

  /** Once a worker is idle its state depends on the arrivals alone. */
  lemma ScheduleFree<I, S>(f: (S, I) -> S, s: S, ts: seq<Turn<I>>)
    requires Idle(TakeAll(f, Start(s), ts))
    ensures TakeAll(f, Start(s), ts).state == Fold(f, s, Pushed(ts))
    ensures TakeAll(f, Start(s), ts).done == Pushed(ts)
  {
    FirstComeFirstServed(f, s, ts);
  }

  lemma {:induction false} TakeAllAppend<I, S>(f: (S, I) -> S, w: Worker<I, S>, a: seq<Turn<I>>, b: seq<Turn<I>>)
    ensures TakeAll(f, w, a + b) == TakeAll(f, TakeAll(f, w, a), b)
  {
    if b == [] {
      assert a + b == a;
    } else {
      TakeAllAppend(f, w, a, b[..|b| - 1]);
      Seqs.AppendSnoc(a, b);
      Seqs.SnocPrefix(a + b[..|b| - 1], b[|b| - 1]);
    }
  }

  lemma {:induction false} PushedAppend<I>(a: seq<Turn<I>>, b: seq<Turn<I>>)
    ensures Pushed(a + b) == Pushed(a) + Pushed(b)
  {
    if b == [] {
      assert a + b == a;
    } else {
      PushedAppend(a, b[..|b| - 1]);
      Seqs.AppendSnoc(a, b);
      Seqs.SnocPrefix(a + b[..|b| - 1], b[|b| - 1]);
    }
  }

  /** Steps of a worker still to be taken before it is idle. */
  ghost function Backlog<I, S>(w: Worker<I, S>): nat {
    2 * |w.queue| + |Listed(w.hand)|
  }

  lemma IdleIsNoBacklog<I, S>(w: Worker<I, S>)
    ensures Backlog(w) == 0 <==> Idle(w)
  {
  }

  /** Without arrivals a turn is a step forward or changes nothing, and a worker that is not idle
      waits for exactly one kind of turn. */
  lemma Progress<I, S>(f: (S, I) -> S, w: Worker<I, S>, t: Turn<I>)
    requires !t.Push?
    ensures Take(f, w, t) == w || Backlog(Take(f, w, t)) == Backlog(w) - 1
    ensures Take(f, w, t) == w <==> Idle(w) || t == if w.hand.Some? then Pop else Work
  {
  }

  lemma {:induction false} Stuck<I, S>(f: (S, I) -> S, w: Worker<I, S>, ts: seq<Turn<I>>)
    requires Pushed(ts) == []
    ensures Backlog(TakeAll(f, w, ts)) <= Backlog(w)
    ensures Backlog(TakeAll(f, w, ts)) == Backlog(w) ==>
      TakeAll(f, w, ts) == w && (Idle(w) || forall i :: 0 <= i < |ts| ==> ts[i] == if w.hand.Some? then Pop else Work)
  {
    if ts != [] {
      var n := |ts| - 1;
      Stuck(f, w, ts[..n]);
      Progress(f, TakeAll(f, w, ts[..n]), ts[n]);
    }
  }

  /** A stretch of turns without arrivals, in which the worker both may pop and may work, brings it
      at least one step forward. */
  lemma RoundProgress<I, S>(f: (S, I) -> S, w: Worker<I, S>, ts: seq<Turn<I>>)
    requires Pushed(ts) == [] && Pop in ts && Work in ts
    ensures Idle(w) ==> Idle(TakeAll(f, w, ts))
    ensures !Idle(w) ==> Backlog(TakeAll(f, w, ts)) < Backlog(w)
  {
    Stuck(f, w, ts);
    IdleIsNoBacklog(w);
    IdleIsNoBacklog(TakeAll(f, w, ts));
  }

  /** The worker loop: pop, then work. */
  function Loop<I>(rounds: nat): seq<Turn<I>> {
    if rounds == 0 then [] else (Loop<I>(rounds - 1) + [Pop]) + [Work]
  }

  lemma {:induction false} LoopBacklog<I, S>(f: (S, I) -> S, w: Worker<I, S>, rounds: nat)
    requires w.hand == None
    ensures TakeAll(f, w, Loop(rounds)).hand == None
    ensures |TakeAll(f, w, Loop(rounds)).queue| == if rounds <= |w.queue| then |w.queue| - rounds else 0
  {
    if rounds > 0 {
      LoopBacklog(f, w, rounds - 1);
      Seqs.SnocPrefix(Loop<I>(rounds - 1), Pop);
      Seqs.SnocPrefix(Loop<I>(rounds - 1) + [Pop], Work);
    }
  }

  /** With no more arrivals, as many rounds of the loop as there are packets queued leave it idle. */
  lemma LoopDrains<I, S>(f: (S, I) -> S, w: Worker<I, S>)
    requires w.hand == None
    ensures Idle(TakeAll(f, w, Loop(|w.queue|)))
  {
    LoopBacklog(f, w, |w.queue|);
  }

  // ---------- the daemon ----------

  /** A packet read from a connection, with what the environment will answer while it is handled. */
  datatype AnyArrival = Arrival(port: nat, bytes: Bytes, env: Env, run: Shell.Run)

  type Arrival = a: AnyArrival | a.port == PORT_FILE ==> WellFormed(a.bytes)
    witness Arrival(0, [], Env(true, true, true, 0, true, Blank(19)), Shell.NoProcess)

  /** The file worker: the upload service, and the effects on packets so far. */
  function FileServe(s: (State, seq<Effect>), input: Input): (State, seq<Effect>) {
    (Step(s.0, input), s.1 + Effects(s.0, input))
  }

  /** The shell worker: the sequence number, and the effects on packets so far. */
  function ShellServe(s: (u32, seq<Shell.ShellEffect>), job: Shell.Job): (u32, seq<Shell.ShellEffect>) {
    (Shell.Work(s.0, job).0, s.1 + Shell.Work(s.0, job).1)
  }

  datatype Daemon = Daemon(
    ghost file: Worker<Input, (State, seq<Effect>)>,
    ghost shell: Worker<Shell.Job, (u32, seq<Shell.ShellEffect>)>)

  datatype Action = Arrives(a: Arrival) | FilePop | FileWork | ShellPop | ShellWork

  /** The handler's dispatch on the destination port, seen from the file worker's queue. */
  function FileTurn(act: Action): seq<Turn<Input>> {
    match act
    case Arrives(a) => if a.port == PORT_FILE then [Push(Receive(a.bytes, a.env))] else []
    case FilePop => [Pop]
    case FileWork => [Work]
    case _ => []
  }

  function ShellTurn(act: Action): seq<Turn<Shell.Job>> {
    match act
    case Arrives(a) => if a.port == PORT_SHELL then [Push(Shell.Job(a.bytes, a.run))] else []
    case ShellPop => [Pop]
    case ShellWork => [Work]
    case _ => []
  }

  ghost function Act(d: Daemon, act: Action): Daemon {
    Daemon(TakeAll(FileServe, d.file, FileTurn(act)), TakeAll(ShellServe, d.shell, ShellTurn(act)))
  }

  ghost function ActAll(d: Daemon, acts: seq<Action>): Daemon {
    if acts == [] then d else Act(ActAll(d, acts[..|acts| - 1]), acts[|acts| - 1])
  }

  ghost function PowerUp(files: map<Name, Bytes>): Daemon {
    Daemon(Start((Init(files), [])), Start((0, [])))
  }

  /** The commands among the arrivals, in order of arrival. */
  function FileArrivals(acts: seq<Action>): seq<Input> {
    if acts == [] then []
    else FileArrivals(acts[..|acts| - 1]) + Pushed(FileTurn(acts[|acts| - 1]))
  }

  function ShellArrivals(acts: seq<Action>): seq<Shell.Job> {
    if acts == [] then []
    else ShellArrivals(acts[..|acts| - 1]) + Pushed(ShellTurn(acts[|acts| - 1]))
  }

  /** A packet arrives on this port. */
  function ArrivesOn(port: nat): Action -> bool {
    (act: Action) => act.Arrives? && act.a.port == port
  }

  /** The file command that an arriving packet is read as. */
  function ReadAs(): (Action, Input) -> bool {
    (act: Action, input: Input) =>
      act.Arrives? && WellFormed(act.a.bytes) && input == Input(Parse(act.a.bytes), act.a.env)
  }

  /** The shell job that an arriving packet stands for. */
  function TakenAs(): (Action, Shell.Job) -> bool {
    (act: Action, job: Shell.Job) => act.Arrives? && job == Shell.Job(act.a.bytes, act.a.run)
  }

  /** The handler drops nothing and invents nothing: the file commands are all the packets that
      arrived on port 13, read one by one, in order of arrival. */
  lemma {:induction false} FileArrivalsAreAll(acts: seq<Action>)
    ensures Seqs.Picked(acts, ArrivesOn(13), ReadAs(), FileArrivals(acts))
  {
    if acts == [] {
      Seqs.NonePicked(ArrivesOn(13), ReadAs());
    } else {
      var n, act := |acts| - 1, acts[|acts| - 1];
      FileArrivalsAreAll(acts[..n]);
      Seqs.Unsnoc(acts);
      if act.Arrives? && act.a.port == 13 {
        var input := Receive(act.a.bytes, act.a.env);
        PushedOne(input);
        Seqs.PickedTake(acts[..n], ArrivesOn(13), ReadAs(), FileArrivals(acts[..n]), act, input);
      } else {
        NonePushed(act);
        Seqs.PickedSkip(acts[..n], ArrivesOn(13), ReadAs(), FileArrivals(acts[..n]), act);
      }
    }
  }

  lemma PushedOne<I>(item: I)
    ensures Pushed([Push(item)]) == [item]
  {
    assert [Push(item)][..0] == [];
  }

  lemma NonePushed(act: Action)
    ensures !(act.Arrives? && act.a.port == 13) ==> Pushed(FileTurn(act)) == []
    ensures !(act.Arrives? && act.a.port == 10) ==> Pushed(ShellTurn(act)) == []
  {
  }

  /** And the shell jobs are all the packets that arrived on port 10, in order of arrival. */
  lemma {:induction false} ShellArrivalsAreAll(acts: seq<Action>)
    ensures Seqs.Picked(acts, ArrivesOn(10), TakenAs(), ShellArrivals(acts))
  {
    if acts == [] {
      Seqs.NonePicked(ArrivesOn(10), TakenAs());
    } else {
      var n, act := |acts| - 1, acts[|acts| - 1];
      ShellArrivalsAreAll(acts[..n]);
      Seqs.Unsnoc(acts);
      if act.Arrives? && act.a.port == 10 {
        var job := Shell.Job(act.a.bytes, act.a.run);
        PushedOne(job);
        Seqs.PickedTake(acts[..n], ArrivesOn(10), TakenAs(), ShellArrivals(acts[..n]), act, job);
      } else {
        NonePushed(act);
        Seqs.PickedSkip(acts[..n], ArrivesOn(10), TakenAs(), ShellArrivals(acts[..n]), act);
      }
    }
  }

  /** The turns that the file worker's queue sees. */
  function FileTurns(acts: seq<Action>): seq<Turn<Input>> {
    if acts == [] then [] else FileTurns(acts[..|acts| - 1]) + FileTurn(acts[|acts| - 1])
  }

  function ShellTurns(acts: seq<Action>): seq<Turn<Shell.Job>> {
    if acts == [] then [] else ShellTurns(acts[..|acts| - 1]) + ShellTurn(acts[|acts| - 1])
  }

  lemma {:induction false} FileWorkerTakes(d: Daemon, acts: seq<Action>)
    ensures ActAll(d, acts).file == TakeAll(FileServe, d.file, FileTurns(acts))
    ensures Pushed(FileTurns(acts)) == FileArrivals(acts)
  {
    if acts != [] {
      var n := |acts| - 1;
      FileWorkerTakes(d, acts[..n]);
      TakeAllAppend(FileServe, d.file, FileTurns(acts[..n]), FileTurn(acts[n]));
      PushedAppend(FileTurns(acts[..n]), FileTurn(acts[n]));
    }
  }

  lemma {:induction false} ShellWorkerTakes(d: Daemon, acts: seq<Action>)
    ensures ActAll(d, acts).shell == TakeAll(ShellServe, d.shell, ShellTurns(acts))
    ensures Pushed(ShellTurns(acts)) == ShellArrivals(acts)
  {
    if acts != [] {
      var n := |acts| - 1;
      ShellWorkerTakes(d, acts[..n]);
      TakeAllAppend(ShellServe, d.shell, ShellTurns(acts[..n]), ShellTurn(acts[n]));
      PushedAppend(ShellTurns(acts[..n]), ShellTurn(acts[n]));
    }
  }

  /** State and effects of the run of the first `k` commands. */
  function Ran(st: State, ins: seq<Input>, k: nat): (State, seq<Effect>)
    requires k <= |ins|
  {
    (After(st, ins[..k]), AllEffects(st, ins[..k]))
  }

  lemma RanNext(st: State, ins: seq<Input>, k: nat)
    requires k < |ins|
    ensures Ran(st, ins, k + 1) == FileServe(Ran(st, ins, k), ins[k])
  {
    Seqs.PrefixOfPrefix(ins, k, k + 1);
  }

  lemma {:induction false} FoldIsRun(st: State, ins: seq<Input>)
    ensures Fold(FileServe, (st, []), ins) == (After(st, ins), AllEffects(st, ins))
  {
    if ins != [] {
      FoldIsRun(st, ins[..|ins| - 1]);
    }
  }

  /** What an orderly worker has finished is a prefix of the arrivals, all of them once it is idle. */
  lemma DoneIsPrefix<I, S>(f: (S, I) -> S, s: S, w: Worker<I, S>, arrived: seq<I>)
    requires InOrder(f, s, w, arrived)
    ensures w.done <= arrived && w.state == Fold(f, s, w.done)
    ensures Idle(w) ==> w.done == arrived
  {
    Seqs.Assoc(w.done, Listed(w.hand), w.queue);
  }

  /** The file worker under any schedule: what it has finished is a prefix of the commands that
      arrived for it, in order of arrival, and sessions, files and effects are those of the plain
      run of that prefix. */
  lemma FileWorkerRuns(files: map<Name, Bytes>, acts: seq<Action>, w: Worker<Input, (State, seq<Effect>)>)
    requires w == ActAll(PowerUp(files), acts).file
    ensures w.done <= FileArrivals(acts)
    ensures w.state == (After(Init(files), w.done), AllEffects(Init(files), w.done))
    ensures Idle(w) ==> w.done == FileArrivals(acts)
  {
    FileWorkerTakes(PowerUp(files), acts);
    FirstComeFirstServed(FileServe, (Init(files), []), FileTurns(acts));
    DoneIsPrefix(FileServe, (Init(files), []), w, FileArrivals(acts));
    FoldIsRun(Init(files), w.done);
  }

  /** Two schedules that bring the file worker the same commands, however they interleave with it,
      with the shell and with traffic on other ports, end in the same sessions, files and effects. */
  lemma ScheduleIndependence(files: map<Name, Bytes>, a: seq<Action>, b: seq<Action>)
    requires FileArrivals(a) == FileArrivals(b)
    requires Idle(ActAll(PowerUp(files), a).file) && Idle(ActAll(PowerUp(files), b).file)
    ensures ActAll(PowerUp(files), a).file.state == ActAll(PowerUp(files), b).file.state
  {
    FileWorkerTakes(PowerUp(files), a);
    FileWorkerTakes(PowerUp(files), b);
    ScheduleFree(FileServe, (Init(files), []), FileTurns(a));
    ScheduleFree(FileServe, (Init(files), []), FileTurns(b));
  }

  lemma {:induction false} ActAllAppend(d: Daemon, a: seq<Action>, b: seq<Action>)
    ensures ActAll(d, a + b) == ActAll(ActAll(d, a), b)
  {
    if b == [] {
      assert a + b == a;
    } else {
      ActAllAppend(d, a, b[..|b| - 1]);
      Seqs.AppendSnoc(a, b);
      Seqs.SnocPrefix(a + b[..|b| - 1], b[|b| - 1]);
    }
  }

  /** The file worker gets to pop and to work, in either order, amid anything but file arrivals. */
  ghost predicate FairRound(acts: seq<Action>) {
    FileArrivals(acts) == [] && FilePop in acts && FileWork in acts
  }

  lemma {:induction false} TurnsInclude(acts: seq<Action>)
    ensures FilePop in acts ==> Pop in FileTurns(acts)
    ensures FileWork in acts ==> Work in FileTurns(acts)
  {
    if acts != [] {
      Seqs.Unsnoc(acts);
      TurnsInclude(acts[..|acts| - 1]);
      assert FilePop == acts[|acts| - 1] ==> FileTurn(acts[|acts| - 1])[0] == Pop;
      assert FileWork == acts[|acts| - 1] ==> FileTurn(acts[|acts| - 1])[0] == Work;
    }
  }

  lemma FairRoundProgress(d: Daemon, acts: seq<Action>)
    requires FairRound(acts)
    ensures Idle(d.file) ==> Idle(ActAll(d, acts).file)
    ensures !Idle(d.file) ==> Backlog(ActAll(d, acts).file) < Backlog(d.file)
  {
    FileWorkerTakes(d, acts);
    TurnsInclude(acts);
    RoundProgress(FileServe, d.file, FileTurns(acts));
  }

  /** What is left of a backlog after so many steps. */
  function Left(backlog: nat, steps: nat): nat {
    if steps < backlog then backlog - steps else 0
  }

  lemma LastRound(d: Daemon, rounds: seq<seq<Action>>)
    requires rounds != []
    ensures ActAll(d, Seqs.Flatten(rounds))
      == ActAll(ActAll(d, Seqs.Flatten(rounds[..|rounds| - 1])), rounds[|rounds| - 1])
  {
    ActAllAppend(d, Seqs.Flatten(rounds[..|rounds| - 1]), rounds[|rounds| - 1]);
  }

  lemma FileRoundLeaves(d: Daemon, acts: seq<Action>, left: nat)
    requires FairRound(acts) && Backlog(d.file) <= left
    ensures Backlog(ActAll(d, acts).file) <= if left == 0 then 0 else left - 1
  {
    FairRoundProgress(d, acts);
    IdleIsNoBacklog(d.file);
    IdleIsNoBacklog(ActAll(d, acts).file);
  }

  lemma {:induction false} FileBacklogFalls(d: Daemon, rounds: seq<seq<Action>>)
    requires forall i :: 0 <= i < |rounds| ==> FairRound(rounds[i])
    ensures Backlog(ActAll(d, Seqs.Flatten(rounds)).file) <= Left(Backlog(d.file), |rounds|)
  {
    if rounds != [] {
      var n := |rounds| - 1;
      FileBacklogFalls(d, rounds[..n]);
      LastRound(d, rounds);
      FileRoundLeaves(ActAll(d, Seqs.Flatten(rounds[..n])), rounds[n], Left(Backlog(d.file), n));
    }
  }

  /** Once the file arrivals stop, every command is served: the file worker is idle after as many
      fair rounds as it has steps to take, whatever the shell worker and other ports do meanwhile. */
  lemma FileWorkerDrains(d: Daemon, rounds: seq<seq<Action>>)
    requires forall i :: 0 <= i < |rounds| ==> FairRound(rounds[i])
    ensures Backlog(ActAll(d, Seqs.Flatten(rounds)).file) <= Left(Backlog(d.file), |rounds|)
    ensures |rounds| >= Backlog(d.file) ==> Idle(ActAll(d, Seqs.Flatten(rounds)).file)
  {
    FileBacklogFalls(d, rounds);
    IdleIsNoBacklog(ActAll(d, Seqs.Flatten(rounds)).file);
  }

  lemma {:induction false} RepliesAppend(a: seq<Shell.ShellEffect>, b: seq<Shell.ShellEffect>)
    ensures ShellStream.RepliesOf(a + b) == ShellStream.RepliesOf(a) + ShellStream.RepliesOf(b)
  {
    if b == [] {
      assert a + b == a;
    } else {
      Seqs.AppendSnoc(a, b);
      Seqs.SnocPrefix(a + b[..|b| - 1], b[|b| - 1]);
      RepliesAppend(a, b[..|b| - 1]);
    }
  }

  lemma {:induction false} FoldIsStream(jobs: seq<Shell.Job>)
    ensures Fold(ShellServe, (0, []), jobs).0 == ShellStream.NumberAfter(0, jobs)
    ensures ShellStream.RepliesOf(Fold(ShellServe, (0, []), jobs).1) == ShellStream.Stream(0, jobs)
  {
    if jobs != [] {
      var before := jobs[..|jobs| - 1];
      FoldIsStream(before);
      RepliesAppend(Fold(ShellServe, (0, []), before).1,
        Shell.Work(ShellStream.NumberAfter(0, before), jobs[|jobs| - 1]).1);
    }
  }

  /** The shell worker under any schedule: its replies are the numbered stream of a prefix of the
      jobs that arrived for it. */
  lemma ShellWorkerRuns(files: map<Name, Bytes>, acts: seq<Action>, w: Worker<Shell.Job, (u32, seq<Shell.ShellEffect>)>)
    requires w == ActAll(PowerUp(files), acts).shell
    ensures w.done <= ShellArrivals(acts)
    ensures w.state == Fold(ShellServe, (0, []), w.done)
    ensures ShellStream.RepliesOf(w.state.1) == ShellStream.Stream(0, w.done)
    ensures Idle(w) ==> w.done == ShellArrivals(acts)
  {
    ShellWorkerTakes(PowerUp(files), acts);
    FirstComeFirstServed(ShellServe, (0, []), ShellTurns(acts));
    DoneIsPrefix(ShellServe, (0, []), w, ShellArrivals(acts));
    FoldIsStream(w.done);
  }

  /** Two schedules that bring the shell worker the same jobs end in the same replies, byte for byte
      and in the same order, and the same sequence number. */
  lemma ShellScheduleIndependence(files: map<Name, Bytes>, a: seq<Action>, b: seq<Action>)
    requires ShellArrivals(a) == ShellArrivals(b)
    requires Idle(ActAll(PowerUp(files), a).shell) && Idle(ActAll(PowerUp(files), b).shell)
    ensures ActAll(PowerUp(files), a).shell.state == ActAll(PowerUp(files), b).shell.state
  {
    ShellWorkerTakes(PowerUp(files), a);
    ShellWorkerTakes(PowerUp(files), b);
    ScheduleFree(ShellServe, (0, []), ShellTurns(a));
    ScheduleFree(ShellServe, (0, []), ShellTurns(b));
  }

  ghost predicate FairShellRound(acts: seq<Action>) {
    ShellArrivals(acts) == [] && ShellPop in acts && ShellWork in acts
  }

  lemma {:induction false} ShellTurnsInclude(acts: seq<Action>)
    ensures ShellPop in acts ==> Pop in ShellTurns(acts)
    ensures ShellWork in acts ==> Work in ShellTurns(acts)
  {
    if acts != [] {
      Seqs.Unsnoc(acts);
      ShellTurnsInclude(acts[..|acts| - 1]);
      assert ShellPop == acts[|acts| - 1] ==> ShellTurn(acts[|acts| - 1])[0] == Pop;
      assert ShellWork == acts[|acts| - 1] ==> ShellTurn(acts[|acts| - 1])[0] == Work;
    }
  }

  lemma FairShellRoundProgress(d: Daemon, acts: seq<Action>)
    requires FairShellRound(acts)
    ensures Idle(d.shell) ==> Idle(ActAll(d, acts).shell)
    ensures !Idle(d.shell) ==> Backlog(ActAll(d, acts).shell) < Backlog(d.shell)
  {
    ShellWorkerTakes(d, acts);
    ShellTurnsInclude(acts);
    RoundProgress(ShellServe, d.shell, ShellTurns(acts));
  }

  lemma ShellRoundLeaves(d: Daemon, acts: seq<Action>, left: nat)
    requires FairShellRound(acts) && Backlog(d.shell) <= left
    ensures Backlog(ActAll(d, acts).shell) <= if left == 0 then 0 else left - 1
  {
    FairShellRoundProgress(d, acts);
    IdleIsNoBacklog(d.shell);
    IdleIsNoBacklog(ActAll(d, acts).shell);
  }

  lemma {:induction false} ShellBacklogFalls(d: Daemon, rounds: seq<seq<Action>>)
    requires forall i :: 0 <= i < |rounds| ==> FairShellRound(rounds[i])
    ensures Backlog(ActAll(d, Seqs.Flatten(rounds)).shell) <= Left(Backlog(d.shell), |rounds|)
  {
    if rounds != [] {
      var n := |rounds| - 1;
      ShellBacklogFalls(d, rounds[..n]);
      LastRound(d, rounds);
      ShellRoundLeaves(ActAll(d, Seqs.Flatten(rounds[..n])), rounds[n], Left(Backlog(d.shell), n));
    }
  }

  /** The shell worker, too, serves every job once they stop arriving. */
  lemma ShellWorkerDrains(d: Daemon, rounds: seq<seq<Action>>)
    requires forall i :: 0 <= i < |rounds| ==> FairShellRound(rounds[i])
    ensures Backlog(ActAll(d, Seqs.Flatten(rounds)).shell) <= Left(Backlog(d.shell), |rounds|)
    ensures |rounds| >= Backlog(d.shell) ==> Idle(ActAll(d, Seqs.Flatten(rounds)).shell)
  {
    ShellBacklogFalls(d, rounds);
    IdleIsNoBacklog(ActAll(d, Seqs.Flatten(rounds)).shell);
  }
}
