// What every run of the thread pool keeps: the records of commands and tasks,
// the queue, and the hand-over of tasks to workers.
module PoolInvariants {
  import opened Collections
  import opened Store
  import opened ThreadPool

  // ------------------------------------------------------------ the records

  // Task t is one of the tasks of command k.
  predicate Owns(k: Command, t: int) {
    k.first <= t < k.first + k.issued
  }

  // The host of task t: the tasks of a command go to the first hosts of its bucket.
  function HostOf(cfg: Config, k: Command, t: int): int {
    var hosts := cfg.route(k.op.bucket);
    if 0 <= t - k.first < |hosts| then hosts[t - k.first] else -1
  }

  // Commands and tasks belong together, and tasks stay fresh until their client
  // hands them over.
  ghost predicate Recorded(cfg: Config, s: State) {
    CommandsFit(cfg, s) && TasksFit(cfg, s) && Owning(s)
  }

  ghost predicate CommandsFit(cfg: Config, s: State) {
    forall c | 0 <= c < |s.commands| ::
      var k := s.commands[c];
      && k.first + k.issued <= |s.tasks| && k.issued > 0
      && Issues(cfg, k.op, k.issued, k.need) && |cfg.route(k.op.bucket)| == cfg.n
  }

  ghost predicate TasksFit(cfg: Config, s: State) {
    forall t | 0 <= t < |s.tasks| ::
      && s.tasks[t].command < |s.commands|
      && HostOf(cfg, s.commands[s.tasks[t].command], t) == s.tasks[t].host
      && (s.tasks[t].status == Fresh <==> s.commands[s.tasks[t].command].phase == Enqueueing)
  }

  ghost predicate Owning(s: State) {
    forall c, t | 0 <= c < |s.commands| && 0 <= t < |s.tasks| ::
      Owns(s.commands[c], t) <==> s.tasks[t].command == c
  }

  // Tasks in the queue, and only they, are queued; a busy worker holds its task.
  ghost predicate Taken(s: State) {
    && (forall t | t in s.queue :: t < |s.tasks| && s.tasks[t].status == Queued)
    && (forall w | 0 <= w < |s.workers| && Busy(s.workers[w]) ::
          s.workers[w].task < |s.tasks| && s.tasks[s.workers[w].task].status == Held(w))
    && (forall t | 0 <= t < |s.tasks| :: s.tasks[t].status == Queued ==> t in s.queue)
    && (forall t | 0 <= t < |s.tasks| && s.tasks[t].status.Held? ::
          var w := s.tasks[t].status.worker;
          w < |s.workers| && Busy(s.workers[w]) && s.workers[w].task == t)
  }

  // The queue is what was put on and not yet taken off, in that order, and its
  // length is counted.
  ghost predicate Queueing(cfg: Config, s: State) {
    && s.waitingTasksNum == |s.queue| <= MAX_WAITING_TASKS_NUM - 1 + cfg.n
    && s.enqueued == s.taken + s.queue
    && Unique(s.enqueued)
    && (forall t | t in s.enqueued :: t < |s.tasks| && s.tasks[t].status != Fresh)
  }

  // --------------------------------------------------- what a step can change

  // The parts of a command and of a task that never change.
  predicate SameCommand(k: Command, k': Command) {
    && k'.op == k.op && k'.issued == k.issued && k'.need == k.need && k'.first == k.first && k'.began == k.began
  }

  predicate SameTask(t: Task, t': Task) {
    t'.command == t.command && t'.host == t.host
  }

  // No command and no task is new.
  ghost predicate Same(s: State, s': State) {
    && |s'.commands| == |s.commands| && |s'.tasks| == |s.tasks|
    && (forall c | 0 <= c < |s.commands| :: SameCommand(s.commands[c], s'.commands[c]))
    && (forall t | 0 <= t < |s.tasks| :: SameTask(s.tasks[t], s'.tasks[t]))
  }

  // Nothing was handed over, and no task was taken back.
  ghost predicate NoneHandedOver(s: State, s': State)
    requires Same(s, s')
  {
    && (forall c | 0 <= c < |s.commands| :: s'.commands[c].phase == Enqueueing <==> s.commands[c].phase == Enqueueing)
    && (forall t | 0 <= t < |s.tasks| :: s'.tasks[t].status == Fresh <==> s.tasks[t].status == Fresh)
  }

  lemma NoHandover(cfg: Config, s: State, step: Step)
    requires Proper(cfg) && Enabled(cfg, s, step) && !step.Begin? && !step.Enqueue? && !step.Abandon?
    requires Taken(s)
    ensures Same(s, Apply(cfg, s, step)) && NoneHandedOver(s, Apply(cfg, s, step))
  {
    if step.ClientSignal? || step.ReadOk? || step.ReaderFree? || step.ReadFail? {
      NoHandoverClient(cfg, s, step);
    } else if step.Lock? || step.WorkerSignal? || step.Wake? || step.Serve? {
      NoHandoverLock(cfg, s, step);
    } else {
      NoHandoverWorker(cfg, s, step);
    }
  }

  lemma NoHandoverClient(cfg: Config, s: State, step: Step)
    requires Proper(cfg) && Enabled(cfg, s, step)
    requires step.ClientSignal? || step.ReadOk? || step.ReaderFree? || step.ReadFail?
    ensures Same(s, Apply(cfg, s, step)) && NoneHandedOver(s, Apply(cfg, s, step))
  {
  }

  lemma NoHandoverLock(cfg: Config, s: State, step: Step)
    requires Proper(cfg) && Enabled(cfg, s, step) && Taken(s)
    requires step.Lock? || step.WorkerSignal? || step.Wake? || step.Serve?
    ensures Same(s, Apply(cfg, s, step)) && NoneHandedOver(s, Apply(cfg, s, step))
  {
  }

  lemma NoHandoverWorker(cfg: Config, s: State, step: Step)
    requires Proper(cfg) && Enabled(cfg, s, step) && Taken(s)
    requires step.ServeFail? || step.WriteBack? || step.WriteFail? || step.FreeTask?
    ensures Same(s, Apply(cfg, s, step)) && NoneHandedOver(s, Apply(cfg, s, step))
  {
  }

  lemma RecordedSame(cfg: Config, s: State, s': State)
    requires Recorded(cfg, s) && Same(s, s') && NoneHandedOver(s, s')
    ensures Recorded(cfg, s')
  {
  }

  lemma RecordedBegin(cfg: Config, s: State, op: Op, issued: nat, need: nat)
    requires Proper(cfg) && Recorded(cfg, s) && Issues(cfg, op, issued, need) && |cfg.route(op.bucket)| == cfg.n
    ensures Recorded(cfg, Begun(cfg, s, op, issued, need))
  {
    OwnedBegin(cfg, s, op, issued, need);
    TasksBegin(cfg, s, op, issued, need);
  }

  lemma TasksBegin(cfg: Config, s: State, op: Op, issued: nat, need: nat)
    requires TasksFit(cfg, s) && issued <= |cfg.route(op.bucket)|
    ensures TasksFit(cfg, Begun(cfg, s, op, issued, need))
  {
    var s' := Begun(cfg, s, op, issued, need);
    assert forall c | 0 <= c < |s.commands| :: s'.commands[c] == s.commands[c];
    assert forall t | 0 <= t < |s.tasks| :: s'.tasks[t] == s.tasks[t];
  }

  lemma OwnedBegin(cfg: Config, s: State, op: Op, issued: nat, need: nat)
    requires Recorded(cfg, s) && issued <= |cfg.route(op.bucket)|
    ensures Owning(Begun(cfg, s, op, issued, need))
  {
    var s', n := Begun(cfg, s, op, issued, need), |s.commands|;
    forall c, t | 0 <= c < |s'.commands| && 0 <= t < |s'.tasks|
      ensures Owns(s'.commands[c], t) <==> s'.tasks[t].command == c
    {
      assert c < n ==> s'.commands[c] == s.commands[c];
      assert t < |s.tasks| ==> s'.tasks[t] == s.tasks[t];
    }
  }

  // Exactly the tasks of command c were handed over.
  ghost predicate HandedOver(s: State, s': State, c: nat)
    requires Same(s, s')
  {
    && (forall d | 0 <= d < |s.commands| ::
          s'.commands[d].phase == Enqueueing <==> s.commands[d].phase == Enqueueing && d != c)
    && (forall t | 0 <= t < |s.tasks| ::
          s'.tasks[t].status == Fresh <==> s.tasks[t].status == Fresh && s.tasks[t].command != c)
  }

  lemma Handover(cfg: Config, s: State, step: Step)
    requires Proper(cfg) && Enabled(cfg, s, step) && (step.Enqueue? || step.Abandon?)
    ensures Same(s, Apply(cfg, s, step)) && HandedOver(s, Apply(cfg, s, step), step.c)
  {
  }

  lemma RecordedHandover(cfg: Config, s: State, s': State, c: nat)
    requires Recorded(cfg, s) && c < |s.commands| && Same(s, s') && HandedOver(s, s', c)
    ensures Recorded(cfg, s')
  {
  }

  lemma RecordedKept(cfg: Config, s: State, step: Step)
    requires Proper(cfg) && Recorded(cfg, s) && Taken(s) && Enabled(cfg, s, step)
    ensures Recorded(cfg, Apply(cfg, s, step))
  {
    var s' := Apply(cfg, s, step);
    if step.Begin? {
      RecordedBegin(cfg, s, step.op, step.issued, step.need);
    } else if step.Enqueue? || step.Abandon? {
      Handover(cfg, s, step);
      RecordedHandover(cfg, s, s', step.c);
    } else {
      NoHandover(cfg, s, step);
      RecordedSame(cfg, s, s');
    }
  }

  // ------------------------------------------------- the queue and the hands

  // Every task stays where it is.
  ghost predicate SameHands(s: State, s': State) {
    && s'.queue == s.queue && s'.tasks == s.tasks && |s'.workers| == |s.workers|
    && (forall w | 0 <= w < |s.workers| :: Busy(s'.workers[w]) <==> Busy(s.workers[w]))
    && (forall w | 0 <= w < |s.workers| && Busy(s.workers[w]) :: s'.workers[w].task == s.workers[w].task)
  }

  // Worker w lets go of its task.
  ghost predicate LetsGo(s: State, s': State, w: nat) {
    && w < |s.workers| && Busy(s.workers[w]) && s.workers[w].task < |s.tasks|
    && s'.queue == s.queue && s'.workers == s.workers[w := Ready]
    && exists status ::
        (status == Lost || status == Freed) &&
        s'.tasks == s.tasks[s.workers[w].task := s.tasks[s.workers[w].task].(status := status)]
  }

  predicate Holding(step: Step) {
    step.ClientSignal? || step.ReadOk? || step.ReaderFree? || step.ReadFail? || step.WorkerSignal? || step.Wake?
    || step.Serve? || step.WriteBack?
  }

  lemma KeepsHands(cfg: Config, s: State, step: Step)
    requires Proper(cfg) && Enabled(cfg, s, step) && Holding(step)
    ensures SameHands(s, Apply(cfg, s, step))
  {
  }

  lemma Releases(cfg: Config, s: State, step: Step)
    requires Proper(cfg) && Enabled(cfg, s, step) && (step.ServeFail? || step.WriteFail? || step.FreeTask?)
    ensures LetsGo(s, Apply(cfg, s, step), step.w)
  {
    var s' := Apply(cfg, s, step);
    var t := s.workers[step.w].task;
    if step.FreeTask? {
      assert s'.tasks == s.tasks[t := s.tasks[t].(status := Freed)];
    } else {
      assert s'.tasks == s.tasks[t := s.tasks[t].(status := Lost)];
    }
  }

  lemma TakenSame(s: State, s': State)
    requires Taken(s) && SameHands(s, s')
    ensures Taken(s')
  {
  }

  lemma TakenReleased(s: State, s': State, w: nat)
    requires Taken(s) && LetsGo(s, s', w)
    ensures Taken(s')
  {
  }

  lemma TakenBegin(cfg: Config, s: State, op: Op, issued: nat, need: nat)
    requires Taken(s) && issued <= |cfg.route(op.bucket)|
    ensures Taken(Begun(cfg, s, op, issued, need))
  {
  }

  lemma TakenEnqueue(cfg: Config, s: State, c: nat)
    requires Recorded(cfg, s) && Taken(s) && c < |s.commands| && s.commands[c].phase == Enqueueing
    ensures Taken(Enqueued(s, c))
  {
    var s', r := Enqueued(s, c), TasksOf(s.commands[c]);
    forall t | 0 <= t < |s.tasks| && s'.tasks[t].status == Queued ensures t in s'.queue {
      if s.tasks[t].command == c {
        assert r[t - s.commands[c].first] == t;
      }
    }
  }

  lemma TakenAbandon(cfg: Config, s: State, c: nat)
    requires Recorded(cfg, s) && Taken(s) && c < |s.commands| && s.commands[c].phase == Enqueueing
    ensures Taken(Abandoned(s, c))
  {
  }

  lemma TakenLock(cfg: Config, s: State, w: nat)
    requires Taken(s) && Unique(s.queue) && Enabled(cfg, s, Lock(w))
    ensures Taken(Locked(s, w))
  {
    var s' := Locked(s, w);
    forall t | t in s'.queue ensures t < |s.tasks| && s'.tasks[t].status == Queued {
      var j :| 0 <= j < |s'.queue| && s'.queue[j] == t;
      assert s.queue[j + 1] == t && t in s.queue;
    }
    if s.queue != [] {
      assert s.queue == [s.queue[0]] + s.queue[1..];
    }
  }

  lemma QueueUnique(cfg: Config, s: State)
    requires Queueing(cfg, s)
    ensures Unique(s.queue)
  {
    forall i, j | 0 <= i < j < |s.queue| ensures s.queue[i] != s.queue[j] {
      assert s.enqueued[|s.taken| + i] == s.queue[i] && s.enqueued[|s.taken| + j] == s.queue[j];
    }
  }

  lemma TakenKept(cfg: Config, s: State, step: Step)
    requires Proper(cfg) && Recorded(cfg, s) && Taken(s) && Queueing(cfg, s) && Enabled(cfg, s, step)
    ensures Taken(Apply(cfg, s, step))
  {
    var s' := Apply(cfg, s, step);
    if step.Begin? {
      TakenBegin(cfg, s, step.op, step.issued, step.need);
    } else if step.Enqueue? {
      TakenEnqueue(cfg, s, step.c);
    } else if step.Abandon? {
      TakenAbandon(cfg, s, step.c);
    } else if step.Lock? {
      QueueUnique(cfg, s);
      TakenLock(cfg, s, step.w);
    } else if Holding(step) {
      KeepsHands(cfg, s, step);
      TakenSame(s, s');
    } else {
      Releases(cfg, s, step);
      TakenReleased(s, s', step.w);
    }
  }

  lemma QueueingSame(cfg: Config, s: State, s': State)
    requires Queueing(cfg, s)
    requires s'.queue == s.queue && s'.waitingTasksNum == s.waitingTasksNum
    requires s'.enqueued == s.enqueued && s'.taken == s.taken
    requires |s.tasks| <= |s'.tasks|
    requires forall t | 0 <= t < |s.tasks| && s.tasks[t].status != Fresh :: s'.tasks[t].status != Fresh
    ensures Queueing(cfg, s')
  {
  }

  lemma QueueingEnqueue(cfg: Config, s: State, c: nat)
    requires Proper(cfg) && Recorded(cfg, s) && Queueing(cfg, s) && Enabled(cfg, s, Enqueue(c))
    ensures Queueing(cfg, Enqueued(s, c))
  {
    var k, s' := s.commands[c], Enqueued(s, c);
    var r := TasksOf(k);
    forall i | 0 <= i < |r| ensures r[i] < |s.tasks| && s.tasks[r[i]].command == c && r[i] !in s.enqueued {
      assert Owns(k, r[i]);
    }
    assert s'.enqueued == s'.taken + s'.queue;
  }

  lemma QueueingLock(cfg: Config, s: State, w: nat)
    requires Taken(s) && Queueing(cfg, s) && Enabled(cfg, s, Lock(w))
    ensures Queueing(cfg, Locked(s, w))
  {
    if s.queue != [] {
      var s' := Locked(s, w);
      assert s.queue == [s.queue[0]] + s.queue[1..];
      assert s'.enqueued == s'.taken + s'.queue;
    }
  }

  lemma QueueingKept(cfg: Config, s: State, step: Step)
    requires Proper(cfg) && Recorded(cfg, s) && Taken(s) && Queueing(cfg, s) && Enabled(cfg, s, step)
    ensures Queueing(cfg, Apply(cfg, s, step))
  {
    var s' := Apply(cfg, s, step);
    if step.Enqueue? {
      QueueingEnqueue(cfg, s, step.c);
    } else if step.Lock? {
      QueueingLock(cfg, s, step.w);
    } else {
      if !step.Begin? && !step.Abandon? {
        NoHandover(cfg, s, step);
      }
      QueueingSame(cfg, s, s');
    }
  }
}
