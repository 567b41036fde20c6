// All invariants of the pool together, and what they mean for every run.
module PoolRuns {
  import opened Collections
  import opened Store
  import opened ThreadPool
  import opened PoolInvariants
  import opened PoolSignals
  import opened PoolReferences
  import opened PoolReplies
  import opened PoolWork

  ghost predicate Inv(cfg: Config, s: State) {
    && Recorded(cfg, s) && Taken(s) && Queueing(cfg, s) && Idling(s) && Staffed(cfg, s) && Noticed(s)
    && Counted(s) && Logged(s) && Answering(s)
  }

  // A run of the system: any threads, any interleaving, any failures.
  ghost predicate Run(cfg: Config, run: seq<State>)
    requires Proper(cfg)
  {
    && run != [] && Init(cfg, run[0])
    && forall i | 0 <= i < |run| - 1 :: Next(cfg, run[i], run[i + 1])
  }

  lemma StartsWell(cfg: Config, s: State)
    requires Proper(cfg) && Init(cfg, s)
    ensures Inv(cfg, s)
  {
    assert Waiting(s.workers) == {};
  }

  lemma StaysWell(cfg: Config, s: State, step: Step)
    requires Proper(cfg) && Inv(cfg, s) && Enabled(cfg, s, step)
    ensures Inv(cfg, Apply(cfg, s, step))
  {
    RecordedKept(cfg, s, step);
    TakenKept(cfg, s, step);
    QueueingKept(cfg, s, step);
    IdlingKept(cfg, s, step);
    StaffedKept(cfg, s, step);
    NoticedKept(cfg, s, step);
    CountedKept(cfg, s, step);
    LoggedKept(cfg, s, step);
    AnsweringKept(cfg, s, step);
  }

  lemma {:induction false} EveryState(cfg: Config, run: seq<State>, i: nat)
    requires Proper(cfg) && Run(cfg, run) && i < |run|
    ensures Inv(cfg, run[i])
  {
    if i == 0 {
      StartsWell(cfg, run[0]);
    } else {
      EveryState(cfg, run, i - 1);
      assert Next(cfg, run[i - 1], run[i - 1 + 1]);
      var step :| Enabled(cfg, run[i - 1], step) && run[i] == Apply(cfg, run[i - 1], step);
      StaysWell(cfg, run[i - 1], step);
    }
  }

  // What some run can lead to.
  ghost predicate Reachable(cfg: Config, s: State)
    requires Proper(cfg)
  {
    exists run :: Run(cfg, run) && run[|run| - 1] == s
  }

  lemma ReachableWell(cfg: Config, s: State)
    requires Proper(cfg) && Reachable(cfg, s)
    ensures Inv(cfg, s)
  {
    var run :| Run(cfg, run) && run[|run| - 1] == s;
    EveryState(cfg, run, |run| - 1);
  }

  // ----------------------------------------------------------- consequences

  // A step makes the idle counter wrong exactly when a worker that comes from its
  // last task finds the queue filled, and once it is wrong it stays wrong.
  lemma IdleCounterExact(cfg: Config, s: State, step: Step)
    requires Proper(cfg) && Inv(cfg, s) && Enabled(cfg, s, step)
    ensures s.idleThreadsNum == |Waiting(s.workers)| <==> s.direct == 0
    ensures var s' := Apply(cfg, s, step);
            s'.idleThreadsNum == |Waiting(s'.workers)| <==>
              && s.idleThreadsNum == |Waiting(s.workers)|
              && !(step.Lock? && s.workers[step.w] == Ready && s.queue != [])
  {
    IdlingKept(cfg, s, step);
  }

  lemma TakenAtOnce(cfg: Config, s: State)
    requires Enabled(cfg, s, Lock(0)) && s.queue != [] && s.idleThreadsNum == 0
    requires forall w | 0 <= w < |s.workers| :: s.workers[w] == Ready
    ensures var s' := Locked(s, 0); s'.idleThreadsNum == -1 && Waiting(s'.workers) == {}
  {
  }

  // A run that makes it wrong: the first task comes before any worker waits.
  lemma IdleCounterDrifts(cfg: Config, op: Op, issued: nat, need: nat) returns (run: seq<State>)
    requires Proper(cfg) && cfg.threads > 0
    requires Issues(cfg, op, issued, need) && |cfg.route(op.bucket)| == cfg.n
    ensures Run(cfg, run)
    ensures var s := run[|run| - 1]; s.idleThreadsNum == -1 && Waiting(s.workers) == {}
  {
    var s0 := State([], [], [], 0, 0, seq(cfg.threads, _ => Ready), [], [], [], 0);
    var s1 := Apply(cfg, s0, Begin(op, issued, need));
    var s2 := Apply(cfg, s1, Enqueue(0));
    assert s2.queue == TasksOf(s1.commands[0]) && s2.queue[0] == 0;
    var s3 := Apply(cfg, s2, Lock(0));
    TakenAtOnce(cfg, s2);
    run := [s0, s1, s2, s3];
    assert Next(cfg, s0, s1) && Next(cfg, s1, s2) && Next(cfg, s2, s3);
  }

  // A worker that does not wait can go on.
  lemma NothingStuck(cfg: Config, s: State, w: nat)
    requires Inv(cfg, s) && w < |s.workers|
    ensures s.workers[w] == Ready || s.workers[w] == Woken ==> Enabled(cfg, s, Lock(w))
    ensures s.workers[w].Doing? ==> Enabled(cfg, s, Serve(w))
    ensures s.workers[w].Answered? ==> Enabled(cfg, s, WriteBack(w))
    ensures s.workers[w].Stored? ==> Enabled(cfg, s, FreeTask(w))
    ensures s.workers[w].Signalling? ==> exists wakes :: Enabled(cfg, s, WorkerSignal(w, wakes))
  {
    if s.queue != [] {
      assert s.queue[0] in s.queue;
    }
    if s.workers[w].Signalling? {
      var wakes := SomeWake(s.workers);
      assert Enabled(cfg, s, WorkerSignal(w, wakes));
    }
  }

  // There is room for the tasks of a client while fewer than 15 wait.
  lemma EnqueueRule(cfg: Config, s: State, c: nat)
    requires Queueing(cfg, s) && c < |s.commands|
    ensures Enabled(cfg, s, Enqueue(c)) <==> s.commands[c].phase == Enqueueing && |s.queue| < 15
  {
  }

  // Nothing that may go wrong is left out: an exchange fails before or after the
  // server did its part, an answer is not written back, a worker wakes up for no
  // reason, and a client gives up enqueuing or reading.
  lemma MayGoWrong(cfg: Config, s: State)
    requires Recorded(cfg, s) && Taken(s)
    ensures forall w: nat | w < |s.workers| && s.workers[w].Doing? ::
      Enabled(cfg, s, ServeFail(w, false)) && Enabled(cfg, s, ServeFail(w, true))
    ensures forall w: nat | w < |s.workers| && s.workers[w].Answered? :: Enabled(cfg, s, WriteFail(w))
    ensures forall w: nat | w < |s.workers| && s.workers[w] == Parked :: Enabled(cfg, s, Wake(w))
    ensures forall c: nat | c < |s.commands| && s.commands[c].phase == Enqueueing :: Enabled(cfg, s, Abandon(c))
    ensures forall c: nat | c < |s.commands| && s.commands[c].phase == Reading :: Enabled(cfg, s, ReadFail(c))
  {
  }

  // A signal can always be sent.
  lemma SomeWake(workers: seq<Worker>) returns (wakes: Option<nat>)
    ensures CanWake(workers, wakes)
  {
    if u: nat :| u < |workers| && workers[u] == Parked {
      wakes := Some(u);
    } else {
      wakes := None;
    }
  }

  // A client that has not returned can go on, if need be by giving up.
  lemma ClientGoesOn(cfg: Config, s: State, c: nat) returns (step: Step)
    requires Inv(cfg, s) && c < |s.commands|
    requires s.commands[c].phase != Succeeded && s.commands[c].phase != Failed
    ensures Enabled(cfg, s, step) && !step.Begin? && !step.Wake? && Touches(s, step, c)
    ensures s.commands[c].phase == Reading && s.commands[c].successNum >= s.commands[c].need > 0 ==> step.ReadOk?
  {
    var k := s.commands[c];
    match k.phase
    case Enqueueing => step := Abandon(c);
    case Signals(_) =>
      assert Signaller(k);
      var wakes := SomeWake(s.workers);
      step := ClientSignal(c, wakes);
    case Reading => step := if k.successNum >= k.need > 0 then ReadOk(c, 0) else ReadFail(c);
    case Releasing => step := ReaderFree(c);
  }

  lemma WorkerGoesOn(cfg: Config, s: State, w: nat) returns (step: Step)
    requires Inv(cfg, s) && w < |s.workers| && s.workers[w] != Parked
    ensures Enabled(cfg, s, step)
    ensures step.Lock? || step.WorkerSignal? || step.Serve? || step.WriteBack? || step.FreeTask?
  {
    NothingStuck(cfg, s, w);
    match s.workers[w]
    case Ready => step := Lock(w);
    case Woken => step := Lock(w);
    case Signalling(_) =>
      var wakes := SomeWake(s.workers);
      step := WorkerSignal(w, wakes);
    case Doing(_) => step := Serve(w);
    case Answered(_, _) => step := WriteBack(w);
    case Stored(_) => step := FreeTask(w);
  }

  // No deadlock: while tasks wait, some worker or some client with a signal to
  // send can move, no spurious wake-up is needed for it, and less work is left.
  lemma TasksMove(cfg: Config, s: State) returns (step: Step)
    requires Proper(cfg) && Inv(cfg, s) && s.queue != [] && cfg.threads > 0
    ensures Enabled(cfg, s, step) && Work(Apply(cfg, s, step)) < Work(s)
    ensures step.Lock? || step.WorkerSignal? || step.Serve? || step.WriteBack? || step.FreeTask? || step.ClientSignal?
  {
    if w: nat :| w < |s.workers| && s.workers[w] != Parked {
      step := WorkerGoesOn(cfg, s, w);
    } else {
      assert s.workers[0] in s.workers && Pending(s);
      var c :| 0 <= c < |s.commands| && Signaller(s.commands[c]);
      var wakes := SomeWake(s.workers);
      step := ClientSignal(c, wakes);
    }
    WorkFalls(cfg, s, step);
  }

  // Nothing is left to do: no task waits, every worker does, every client returned.
  ghost predicate Quiet(s: State) {
    && s.queue == []
    && (forall w | 0 <= w < |s.workers| :: s.workers[w] == Parked)
    && (forall c | 0 <= c < |s.commands| :: s.commands[c].phase in {Succeeded, Failed})
  }

  ghost predicate AtRest(cfg: Config, s: State) {
    forall step :: Enabled(cfg, s, step) ==> step.Begin? || step.Wake?
  }

  // The pool stands still exactly when nothing is left to do.
  lemma RestIsQuiet(cfg: Config, s: State)
    requires Proper(cfg) && Inv(cfg, s) && cfg.threads > 0
    ensures AtRest(cfg, s) <==> Quiet(s)
  {
    if AtRest(cfg, s) {
      if s.queue != [] {
        var step := TasksMove(cfg, s);
        assert false;
      }
      forall w | 0 <= w < |s.workers| ensures s.workers[w] == Parked {
        if s.workers[w] != Parked {
          var step := WorkerGoesOn(cfg, s, w);
          assert false;
        }
      }
      forall c | 0 <= c < |s.commands| ensures s.commands[c].phase in {Succeeded, Failed} {
        if s.commands[c].phase !in {Succeeded, Failed} {
          var step := ClientGoesOn(cfg, s, c);
          assert false;
        }
      }
    }
  }

  // Without new calls and spurious wake-ups every run ends, in no more steps than
  // there is work, and it can only end when nothing is left to do.
  lemma EveryRunEnds(cfg: Config, run: seq<State>, steps: seq<Step>)
    requires Proper(cfg) && cfg.threads > 0 && Trail(cfg, run, steps) && Inv(cfg, run[0])
    requires Calls(steps) == Wakeups(steps) == 0
    ensures |steps| <= Work(run[0])
    ensures AtRest(cfg, run[|steps|]) <==> Quiet(run[|steps|])
  {
    RunBound(cfg, run, steps);
    TrailWell(cfg, run, steps);
    RestIsQuiet(cfg, run[|steps|]);
  }

  lemma {:induction false} TrailWell(cfg: Config, run: seq<State>, steps: seq<Step>)
    requires Proper(cfg) && Trail(cfg, run, steps) && Inv(cfg, run[0])
    ensures Inv(cfg, run[|steps|])
    decreases |steps|
  {
    if steps != [] {
      var n := |steps| - 1;
      TrailShort(cfg, run, steps);
      TrailWell(cfg, run[..n + 1], steps[..n]);
      StaysWell(cfg, run[n], steps[n]);
    }
  }

  // A run from the start with k calls and u spurious wake-ups.
  lemma CallsEnd(cfg: Config, run: seq<State>, steps: seq<Step>)
    requires Proper(cfg) && Trail(cfg, run, steps) && Init(cfg, run[0])
    ensures |steps| <= cfg.threads + (8 * cfg.n + 4) * Calls(steps) + 2 * Wakeups(steps)
  {
    RunBound(cfg, run, steps);
    FirstWork(cfg.threads);
  }

  // Tasks leave the queue in the order in which they came, each once, and every
  // task that was taken off is or was with exactly one worker.
  lemma FirstInFirstOut(cfg: Config, s: State)
    requires Inv(cfg, s)
    ensures s.taken <= s.enqueued && s.enqueued[|s.taken|..] == s.queue && Unique(s.taken)
    ensures forall v, w | 0 <= v < w < |s.workers| && Busy(s.workers[v]) && Busy(s.workers[w]) ::
      s.workers[v].task != s.workers[w].task
    ensures forall w, i | 0 <= w < |s.workers| && Busy(s.workers[w]) && 0 <= i < |s.queue| ::
      s.workers[w].task != s.queue[i]
  {
    assert s.enqueued[..|s.taken|] == s.taken;
    assert forall i | 0 <= i < |s.taken| :: s.enqueued[i] == s.taken[i];
    forall w, i | 0 <= w < |s.workers| && Busy(s.workers[w]) && 0 <= i < |s.queue|
      ensures s.workers[w].task != s.queue[i]
    {
      assert s.queue[i] in s.queue;
    }
  }

  // The success counter is the number of different tasks that wrote back, at
  // most as many as were issued, which is at most n.
  lemma SlotsFit(cfg: Config, s: State, c: nat)
    requires Proper(cfg) && Inv(cfg, s) && c < |s.commands|
    ensures var k := s.commands[c];
            && k.successNum == |Writers(s, c)| <= k.issued <= cfg.n
            && (forall i, j | 0 <= i < j < |k.replies| :: k.replies[i].task != k.replies[j].task)
  {
    var k := s.commands[c];
    assert AnsweringAt(s, c);
    SpanSize(k.first, k.issued);
    var w := Writers(s, c);
    forall t | t in w ensures t in Span(k.first, k.issued) {
      assert Owns(k, t);
    }
    SubsetSize(w, Span(k.first, k.issued));
    forall t ensures t in w <==> exists i :: 0 <= i < |k.replies| && k.replies[i].task == t {
      if t in w {
        assert WroteBack(s, t) && InReplies(k, t);
      }
      if i :| 0 <= i < |k.replies| && k.replies[i].task == t {
        assert Proven(s, c, k.replies[i]);
      }
    }
    SizeOf(k.replies, w);
  }

  ghost function Writers(s: State, c: nat): set<int> {
    set t: nat | t < |s.tasks| && s.tasks[t].command == c && WroteBack(s, t) :: t
  }

  lemma {:induction false} SizeOf(r: seq<Written>, w: set<int>)
    requires forall i, j | 0 <= i < j < |r| :: r[i].task != r[j].task
    requires forall t :: t in w <==> exists i :: 0 <= i < |r| && r[i].task == t
    ensures |w| == |r|
    decreases |r|
  {
    if r == [] {
      assert forall t: int :: t !in w;
      assert w == {};
    } else {
      var n := |r| - 1;
      assert r[n].task in w;
      forall t ensures t in w - {r[n].task} <==> exists i :: 0 <= i < n && r[..n][i].task == t {
        if i :| 0 <= i < n && r[..n][i].task == t {
          assert r[i].task == t;
        }
      }
      SizeOf(r[..n], w - {r[n].task});
    }
  }

  // A reader that returns OK saw enough answers and took one of them, all of
  // them given by servers; a true flag was given by one of them.
  lemma ReadsWhatServersSaid(cfg: Config, s: State, c: nat)
    requires Proper(cfg) && Inv(cfg, s) && c < |s.commands| && Returning(s.commands[c])
    ensures var k := s.commands[c];
            && k.need <= k.seen <= |k.replies| && k.chosen < k.seen && k.returned <= |s.log|
            && (forall i | 0 <= i < k.seen :: GivenAt(cfg, s, c, i))
            && (k.told <==> exists i :: 0 <= i < k.seen && k.replies[i].reply == Flag(true))
  {
    var k := s.commands[c];
    assert AnsweringAt(s, c);
    forall i | 0 <= i < k.seen ensures GivenAt(cfg, s, c, i) {
      var r := k.replies[i];
      assert Proven(s, c, r) && LoggedAt(s, r.at) && Owns(k, r.task);
    }
  }

  // Answer i of command c: one of the hosts of the bucket gave it while the
  // client waited.
  ghost predicate GivenAt(cfg: Config, s: State, c: nat, i: nat)
    requires c < |s.commands| && i < |s.commands[c].replies|
  {
    var k := s.commands[c];
    var r := k.replies[i];
    && Owns(k, r.task) && k.began <= r.at < k.returned <= |s.log|
    && s.log[r.at].host == HostOf(cfg, k, r.task) && s.log[r.at].op == k.op
    && s.log[r.at].reply == r.reply == Answer(s.log[..r.at], s.log[r.at].host, k.op)
  }
}
