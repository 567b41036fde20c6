// The thread pool as a system of atomic steps, one for each critical section:
// the task queue, the workers with their chained signals, and the commands that
// tasks and readers share.
module ThreadPool {
  import opened Collections
  import opened Store

  const MAX_WAITING_TASKS_NUM := 15

  // n servers for a key, r replies for a read, w for a write. route gives the
  // hosts of a bucket, and threads is the number of workers.
  datatype Config = Config(n: nat, r: nat, w: nat, threads: nat, route: string -> seq<int>)

  ghost predicate Proper(cfg: Config) {
    && 1 <= cfg.r <= cfg.n && 1 <= cfg.w <= cfg.n
    && forall b :: Unique(cfg.route(b)) && |cfg.route(b)| <= cfg.n
  }

  // ----------------------------------------------------------------- states

  // A client is before execute, has left signals to send in it, tries to read
  // the result, has read it, or has returned.
  datatype Phase = Enqueueing | Signals(left: nat) | Reading | Releasing | Succeeded | Failed

  // One answer that was written back, and when the server gave it.
  datatype Written = Written(task: nat, reply: Reply, at: nat)

  // A command shared by its reader and the tasks first, first + 1, ... The
  // reader that succeeds saw the first seen answers and took the chosen one.
  datatype Command = Command(
    op: Op, issued: nat, need: nat, first: nat, phase: Phase,
    successNum: nat, exist: bool, replies: seq<Written>, refNum: int, doingNum: nat, frees: nat,
    began: nat, returned: nat, seen: nat, chosen: nat, told: bool)

  datatype Status = Fresh | Queued | Held(worker: nat) | Freed | Lost

  datatype Task = Task(command: nat, host: int, status: Status)

  // A worker is about to take the lock, waits, was woken, has a task and owes a
  // signal, works on the task, has the answer, or has written it back.
  datatype Worker =
    | Ready
    | Parked
    | Woken
    | Signalling(task: nat)
    | Doing(task: nat)
    | Answered(task: nat, at: nat)
    | Stored(task: nat)

  predicate Busy(w: Worker) {
    w.Signalling? || w.Doing? || w.Answered? || w.Stored?
  }

  // log, enqueued, taken and direct remember the past: all exchanges, all tasks
  // put on and taken off the queue, and the tasks taken without waiting.
  datatype State = State(
    commands: seq<Command>, tasks: seq<Task>, queue: seq<nat>, waitingTasksNum: int, idleThreadsNum: int,
    workers: seq<Worker>, log: seq<Exchange>, enqueued: seq<nat>, taken: seq<nat>, direct: nat)

  ghost predicate Init(cfg: Config, s: State) {
    s == State([], [], [], 0, 0, seq(cfg.threads, _ => Ready), [], [], [], 0)
  }

  // How many tasks a call gives to execute, and how many answers it waits for.
  predicate Issues(cfg: Config, op: Op, issued: nat, need: nat) {
    match op
    case HSet(_, _, _) => issued in {cfg.w, cfg.n} && need == cfg.w
    case HGet(_, _) => issued in {cfg.r, cfg.n} && need == cfg.r
    case HDel(_, _) => issued == need == cfg.n
    case Del(_) => issued == need == cfg.n
    case HExists(_, _) => issued == cfg.n && need == 1
    case Exists(_) => issued == cfg.n && need == 1
  }

  const THREAD_NUM := 15

  // How many tasks a save or a load issues: all n, by a chance that the idle
  // counter sets, or just as many as it needs answers.
  function ExpectedAnswers(cfg: Config, draw: nat, idle: int, refNum: nat): nat {
    if draw % THREAD_NUM < idle then cfg.n else refNum
  }

  // Whatever was drawn and counted, enough tasks are issued, and not too many.
  lemma EnoughIssued(cfg: Config, op: Op, draw: nat, idle: int)
    requires Proper(cfg)
    ensures op.HSet? ==> Issues(cfg, op, ExpectedAnswers(cfg, draw, idle, cfg.w), cfg.w)
    ensures op.HGet? ==> Issues(cfg, op, ExpectedAnswers(cfg, draw, idle, cfg.r), cfg.r)
    ensures forall issued: nat, need: nat | Issues(cfg, op, issued, need) :: 1 <= need <= issued <= cfg.n
  {
  }

  // The draws from 0 to 14 that ask all n.
  ghost function DrawsForAll(cfg: Config, idle: int, refNum: nat): set<int> {
    set d | 0 <= d < 15 && ExpectedAnswers(cfg, d, idle, refNum) == cfg.n
  }

  // They are as many as there are idle threads by the counter,
  lemma ChanceRule(cfg: Config, idle: int, refNum: nat)
    requires refNum != cfg.n
    ensures |DrawsForAll(cfg, idle, refNum)| == if idle < 0 then 0 else if idle > 15 then 15 else idle
  {
    var k := if idle < 0 then 0 else if idle > 15 then 15 else idle;
    SpanSize(0, k);
    assert DrawsForAll(cfg, idle, refNum) == Span(0, k);
  }

  // and every other draw asks just as many as must answer.
  lemma DrawRule(cfg: Config, draw: nat, idle: int, refNum: nat)
    ensures ExpectedAnswers(cfg, draw, idle, refNum) ==
            if draw % 15 in DrawsForAll(cfg, idle, refNum) then cfg.n else refNum
  {
    assert draw % 15 % 15 == draw % 15;
  }

  // ------------------------------------------------------------------ steps

  datatype Step =
    | Begin(op: Op, issued: nat, need: nat)
    | Enqueue(c: nat)
    | Abandon(c: nat)
    | ClientSignal(c: nat, wakes: Option<nat>)
    | ReadOk(c: nat, chosen: nat)
    | ReaderFree(c: nat)
    | ReadFail(c: nat)
    | Lock(w: nat)
    | WorkerSignal(w: nat, wakes: Option<nat>)
    | Wake(w: nat)
    | Serve(w: nat)
    | ServeFail(w: nat, done: bool)
    | WriteBack(w: nat)
    | WriteFail(w: nat)
    | FreeTask(w: nat)

  // A signal wakes one waiting worker, if there is one.
  predicate CanWake(workers: seq<Worker>, wakes: Option<nat>) {
    match wakes
    case Some(u) => u < |workers| && workers[u] == Parked
    case None => Parked !in workers
  }

  function Wakened(workers: seq<Worker>, wakes: Option<nat>): seq<Worker>
    requires CanWake(workers, wakes)
  {
    if wakes.Some? then workers[wakes.value := Woken] else workers
  }

  ghost predicate Enabled(cfg: Config, s: State, step: Step) {
    match step
    case Begin(op, issued, need) => Issues(cfg, op, issued, need) && |cfg.route(op.bucket)| == cfg.n
    case Enqueue(c) =>
      c < |s.commands| && s.commands[c].phase == Enqueueing && s.waitingTasksNum < MAX_WAITING_TASKS_NUM
    case Abandon(c) => c < |s.commands| && s.commands[c].phase == Enqueueing
    case ClientSignal(c, wakes) =>
      c < |s.commands| && s.commands[c].phase.Signals? && s.commands[c].phase.left > 0 && CanWake(s.workers, wakes)
    case ReadOk(c, chosen) =>
      && c < |s.commands| && s.commands[c].phase == Reading
      && s.commands[c].successNum >= s.commands[c].need && chosen < s.commands[c].successNum
    case ReaderFree(c) => c < |s.commands| && s.commands[c].phase == Releasing
    case ReadFail(c) => c < |s.commands| && s.commands[c].phase == Reading
    case Lock(w) =>
      && w < |s.workers| && (s.workers[w] == Ready || s.workers[w] == Woken)
      && (s.queue != [] ==> s.queue[0] < |s.tasks| && s.tasks[s.queue[0]].command < |s.commands|)
    case WorkerSignal(w, wakes) => w < |s.workers| && s.workers[w].Signalling? && CanWake(s.workers, wakes)
    case Wake(w) => w < |s.workers| && s.workers[w] == Parked
    case Serve(w) => Works(s, w) && s.workers[w].Doing?
    case ServeFail(w, _) => Works(s, w) && s.workers[w].Doing?
    case WriteBack(w) => Works(s, w) && s.workers[w].Answered? && s.workers[w].at < |s.log|
    case WriteFail(w) => Works(s, w) && s.workers[w].Answered?
    case FreeTask(w) => Works(s, w) && s.workers[w].Stored?
  }

  predicate Works(s: State, w: nat) {
    && w < |s.workers| && Busy(s.workers[w]) && s.workers[w].task < |s.tasks|
    && s.tasks[s.workers[w].task].command < |s.commands|
  }

  // newRedisCommand and the tasks that execute builds for the first hosts.
  function Begun(cfg: Config, s: State, op: Op, issued: nat, need: nat): State
    requires issued <= |cfg.route(op.bucket)|
  {
    var hosts := cfg.route(op.bucket);
    var c := Command(op, issued, need, |s.tasks|, Enqueueing, 0, false, [], 1 + issued, 0, 0, |s.log|, 0, 0, 0, false);
    s.(commands := s.commands + [c],
       tasks := s.tasks + seq(issued, i requires 0 <= i < issued => Task(|s.commands|, hosts[i], Fresh)))
  }

  // The numbers of the tasks of a command.
  function TasksOf(c: Command): (r: seq<nat>)
    ensures |r| == c.issued
    ensures forall i | 0 <= i < |r| :: r[i] == c.first + i
  {
    seq(c.issued, i requires 0 <= i => c.first + i)
  }

  // All fresh tasks of command c get another status.
  function Marked(tasks: seq<Task>, c: nat, status: Status): (r: seq<Task>)
    ensures |r| == |tasks|
    ensures forall t | 0 <= t < |r| :: r[t] == if tasks[t].command == c then tasks[t].(status := status) else tasks[t]
  {
    seq(|tasks|, t requires 0 <= t < |tasks| => if tasks[t].command == c then tasks[t].(status := status) else tasks[t])
  }

  function Enqueued(s: State, c: nat): State
    requires c < |s.commands|
  {
    var k := s.commands[c];
    s.(commands := s.commands[c := k.(phase := Signals(k.issued))],
       tasks := Marked(s.tasks, c, Queued),
       queue := s.queue + TasksOf(k),
       waitingTasksNum := s.waitingTasksNum + k.issued,
       enqueued := s.enqueued + TasksOf(k))
  }

  function Abandoned(s: State, c: nat): State
    requires c < |s.commands|
  {
    s.(commands := s.commands[c := s.commands[c].(phase := Reading)], tasks := Marked(s.tasks, c, Lost))
  }

  function ClientSignalled(s: State, c: nat, wakes: Option<nat>): State
    requires c < |s.commands| && s.commands[c].phase.Signals? && s.commands[c].phase.left > 0
    requires CanWake(s.workers, wakes)
  {
    var left := s.commands[c].phase.left - 1;
    s.(commands := s.commands[c := s.commands[c].(phase := if left == 0 then Reading else Signals(left))],
       workers := Wakened(s.workers, wakes))
  }

  function ReadDone(s: State, c: nat, chosen: nat): State
    requires c < |s.commands|
  {
    var k := s.commands[c];
    s.(commands := s.commands[c := k.(phase := Releasing, seen := k.successNum, chosen := chosen, told := k.exist,
                                           returned := |s.log|)])
  }

  // One reference less; the last one frees the command.
  function Unreferenced(k: Command): Command {
    k.(refNum := k.refNum - 1, frees := if k.refNum == 1 then k.frees + 1 else k.frees)
  }

  function ReaderFreed(s: State, c: nat): State
    requires c < |s.commands|
  {
    s.(commands := s.commands[c := Unreferenced(s.commands[c]).(phase := Succeeded)])
  }

  // The pass of a worker through the pool's critical section: it waits, or it
  // takes the first task.
  function Locked(s: State, w: nat): State
    requires w < |s.workers|
    requires s.queue != [] ==> s.queue[0] < |s.tasks| && s.tasks[s.queue[0]].command < |s.commands|
  {
    if s.queue == [] then
      s.(workers := s.workers[w := Parked],
         idleThreadsNum := if s.workers[w] == Ready then s.idleThreadsNum + 1 else s.idleThreadsNum)
    else
      var t, rest := s.queue[0], s.queue[1..];
      var c := s.tasks[t].command;
      s.(queue := rest,
         waitingTasksNum := s.waitingTasksNum - 1,
         idleThreadsNum := s.idleThreadsNum - 1,
         commands := s.commands[c := s.commands[c].(doingNum := s.commands[c].doingNum + 1)],
         tasks := s.tasks[t := s.tasks[t].(status := Held(w))],
         workers := s.workers[w := if rest == [] then Doing(t) else Signalling(t)],
         taken := s.taken + [t],
         direct := if s.workers[w] == Ready then s.direct + 1 else s.direct)
  }

  function WorkerSignalled(s: State, w: nat, wakes: Option<nat>): State
    requires w < |s.workers| && s.workers[w].Signalling? && CanWake(s.workers, wakes)
  {
    s.(workers := Wakened(s.workers, wakes)[w := Doing(s.workers[w].task)])
  }

  ghost function Exchanged(s: State, t: nat): Exchange
    requires t < |s.tasks| && s.tasks[t].command < |s.commands|
  {
    var host, op := s.tasks[t].host, s.commands[s.tasks[t].command].op;
    Exchange(t, host, op, Answer(s.log, host, op))
  }

  ghost function Served(s: State, w: nat): State
    requires Works(s, w)
  {
    var t := s.workers[w].task;
    s.(log := s.log + [Exchanged(s, t)], workers := s.workers[w := Answered(t, |s.log|)])
  }

  // The task is given up; its references stay.
  function Dropped(s: State, w: nat): State
    requires Works(s, w)
  {
    var t := s.workers[w].task;
    s.(tasks := s.tasks[t := s.tasks[t].(status := Lost)], workers := s.workers[w := Ready])
  }

  // The exchange fails, and the server may have done its part or not.
  ghost function ServeFailed(s: State, w: nat, done: bool): State
    requires Works(s, w)
  {
    if done then Dropped(s, w).(log := s.log + [Exchanged(s, s.workers[w].task)]) else Dropped(s, w)
  }

  function WithReply(k: Command, r: Written): Command {
    k.(successNum := k.successNum + 1,
       exist := k.exist || r.reply == Flag(true),
       replies := k.replies + [r])
  }

  function WrittenBack(s: State, w: nat): State
    requires Works(s, w) && s.workers[w].Answered? && s.workers[w].at < |s.log|
  {
    var t, at := s.workers[w].task, s.workers[w].at;
    var c := s.tasks[t].command;
    s.(commands := s.commands[c := WithReply(s.commands[c], Written(t, s.log[at].reply, at))],
       workers := s.workers[w := Stored(t)])
  }

  function TaskFreed(s: State, w: nat): State
    requires Works(s, w)
  {
    var t := s.workers[w].task;
    var c := s.tasks[t].command;
    s.(commands := s.commands[c := Unreferenced(s.commands[c])],
       tasks := s.tasks[t := s.tasks[t].(status := Freed)],
       workers := s.workers[w := Ready])
  }

  ghost function Apply(cfg: Config, s: State, step: Step): State
    requires Proper(cfg) && Enabled(cfg, s, step)
  {
    match step
    case Begin(op, issued, need) => Begun(cfg, s, op, issued, need)
    case Enqueue(c) => Enqueued(s, c)
    case Abandon(c) => Abandoned(s, c)
    case ClientSignal(c, wakes) => ClientSignalled(s, c, wakes)
    case ReadOk(c, chosen) => ReadDone(s, c, chosen)
    case ReaderFree(c) => ReaderFreed(s, c)
    case ReadFail(c) => s.(commands := s.commands[c := s.commands[c].(phase := Failed)])
    case Lock(w) => Locked(s, w)
    case WorkerSignal(w, wakes) => WorkerSignalled(s, w, wakes)
    case Wake(w) => s.(workers := s.workers[w := Woken])
    case Serve(w) => Served(s, w)
    case ServeFail(w, done) => ServeFailed(s, w, done)
    case WriteBack(w) => WrittenBack(s, w)
    case WriteFail(w) => Dropped(s, w)
    case FreeTask(w) => TaskFreed(s, w)
  }

  ghost predicate Next(cfg: Config, s: State, s': State)
    requires Proper(cfg)
  {
    exists step :: Enabled(cfg, s, step) && s' == Apply(cfg, s, step)
  }
}
