// How much is left to do in the pool before it comes to rest.
module PoolWork {
  import opened Collections
  import opened Store
  import opened ThreadPool
  import opened PoolInvariants

  // The steps of a worker until it waits. A signal may wake another one.
  function Owed(w: Worker): nat {
    match w
    case Signalling(_) => 6
    case Doing(_) => 4
    case Answered(_, _) => 3
    case Stored(_) => 2
    case Ready => 1
    case Woken => 1
    case Parked => 0
  }

  // The steps of a client until it returns, and those of its tasks before a worker
  // takes them.
  function OwedBy(k: Command): nat {
    match k.phase
    case Enqueueing => 8 * k.issued + 3
    case Signals(left) => 2 * left + 2
    case Reading => 2
    case Releasing => 1
    case Succeeded => 0
    case Failed => 0
  }

  ghost function Sum<T(!new)>(f: T -> nat, s: seq<T>): nat {
    if s == [] then 0 else Sum(f, s[..|s| - 1]) + f(s[|s| - 1])
  }

  lemma {:induction false} SumUpdate<T(!new)>(f: T -> nat, s: seq<T>, i: nat, x: T)
    requires i < |s|
    ensures Sum(f, s[i := x]) + f(s[i]) == Sum(f, s) + f(x)
  {
    var n := |s| - 1;
    if i < n {
      assert s[i := x][..n] == s[..n][i := x];
      SumUpdate(f, s[..n], i, x);
    } else {
      assert s[i := x][..n] == s[..n];
    }
  }

  ghost function Work(s: State): nat {
    6 * |s.queue| + Sum(Owed, s.workers) + Sum(OwedBy, s.commands)
  }

  lemma WakeWork(workers: seq<Worker>, wakes: Option<nat>)
    requires CanWake(workers, wakes)
    ensures Sum(Owed, Wakened(workers, wakes)) <= Sum(Owed, workers) + 1
  {
    if wakes.Some? {
      SumUpdate(Owed, workers, wakes.value, Woken);
    }
  }

  lemma ClientWork(cfg: Config, s: State, step: Step)
    requires Proper(cfg) && Enabled(cfg, s, step)
    requires step.Enqueue? || step.Abandon? || step.ClientSignal? || step.ReadOk? || step.ReaderFree? || step.ReadFail?
    ensures Work(Apply(cfg, s, step)) < Work(s)
  {
    var s' := Apply(cfg, s, step);
    SumUpdate(OwedBy, s.commands, step.c, s'.commands[step.c]);
    if step.ClientSignal? {
      WakeWork(s.workers, step.wakes);
    }
  }

  lemma LockWork(cfg: Config, s: State, w: nat)
    requires Enabled(cfg, s, Lock(w))
    ensures Work(Locked(s, w)) < Work(s)
  {
    var s' := Locked(s, w);
    SumUpdate(Owed, s.workers, w, s'.workers[w]);
    if s.queue != [] {
      var c := s.tasks[s.queue[0]].command;
      SumUpdate(OwedBy, s.commands, c, s'.commands[c]);
    }
  }

  // A task that leaves the commands alone, and one that does not.
  lemma ServeWork(cfg: Config, s: State, step: Step)
    requires Proper(cfg) && Enabled(cfg, s, step) && (step.Serve? || step.ServeFail? || step.WriteFail?)
    ensures Work(Apply(cfg, s, step)) < Work(s)
  {
    var s' := Apply(cfg, s, step);
    SumUpdate(Owed, s.workers, step.w, s'.workers[step.w]);
  }

  lemma AnswerWork(cfg: Config, s: State, step: Step)
    requires Proper(cfg) && Enabled(cfg, s, step) && (step.WriteBack? || step.FreeTask?)
    ensures Work(Apply(cfg, s, step)) < Work(s)
  {
    var s', c := Apply(cfg, s, step), s.tasks[s.workers[step.w].task].command;
    SumUpdate(Owed, s.workers, step.w, s'.workers[step.w]);
    SumUpdate(OwedBy, s.commands, c, s'.commands[c]);
  }

  lemma SignalWork(cfg: Config, s: State, w: nat, wakes: Option<nat>)
    requires Enabled(cfg, s, WorkerSignal(w, wakes))
    ensures Work(WorkerSignalled(s, w, wakes)) < Work(s)
  {
    var s', v := WorkerSignalled(s, w, wakes), Wakened(s.workers, wakes);
    WakeWork(s.workers, wakes);
    SumUpdate(Owed, v, w, s'.workers[w]);
  }

  // Only a new call and a spurious wake-up make more work, and this is how much.
  // Every other step makes less.
  lemma WorkFalls(cfg: Config, s: State, step: Step)
    requires Proper(cfg) && Enabled(cfg, s, step)
    ensures var s' := Apply(cfg, s, step);
            if step.Begin? then Work(s') == Work(s) + 8 * step.issued + 3
            else if step.Wake? then Work(s') == Work(s) + 1
            else Work(s') < Work(s)
  {
    var s' := Apply(cfg, s, step);
    if step.Begin? {
      assert s'.commands[..|s.commands|] == s.commands;
    } else if step.Lock? {
      LockWork(cfg, s, step.w);
    } else if step.WorkerSignal? {
      SignalWork(cfg, s, step.w, step.wakes);
    } else if step.Wake? {
      SumUpdate(Owed, s.workers, step.w, Woken);
    } else if step.Serve? || step.ServeFail? || step.WriteFail? {
      ServeWork(cfg, s, step);
    } else if step.WriteBack? || step.FreeTask? {
      AnswerWork(cfg, s, step);
    } else {
      ClientWork(cfg, s, step);
    }
  }

  // ------------------------------------------------------------ whole runs

  // The run goes through these steps, from any state.
  ghost predicate Trail(cfg: Config, run: seq<State>, steps: seq<Step>)
    requires Proper(cfg)
  {
    && |run| == |steps| + 1
    && forall i | 0 <= i < |steps| :: Goes(cfg, run[i], steps[i], run[i + 1])
  }

  ghost predicate Goes(cfg: Config, s: State, step: Step, s': State)
    requires Proper(cfg)
  {
    Enabled(cfg, s, step) && s' == Apply(cfg, s, step)
  }

  function Calls(steps: seq<Step>): nat {
    if steps == [] then 0 else Calls(steps[..|steps| - 1]) + if steps[|steps| - 1].Begin? then 1 else 0
  }

  function Wakeups(steps: seq<Step>): nat {
    if steps == [] then 0 else Wakeups(steps[..|steps| - 1]) + if steps[|steps| - 1].Wake? then 1 else 0
  }

  lemma TrailShort(cfg: Config, run: seq<State>, steps: seq<Step>)
    requires Proper(cfg) && Trail(cfg, run, steps) && steps != []
    ensures var n := |steps| - 1; Trail(cfg, run[..n + 1], steps[..n]) && Goes(cfg, run[n], steps[n], run[n + 1])
  {
    var n := |steps| - 1;
    forall i | 0 <= i < n ensures Goes(cfg, run[..n + 1][i], steps[..n][i], run[..n + 1][i + 1]) {
      assert Goes(cfg, run[i], steps[i], run[i + 1]);
    }
  }

  // The work that a step makes at most, and the step itself.
  function Charge(cfg: Config, step: Step): nat {
    if step.Begin? then 8 * cfg.n + 4 else if step.Wake? then 2 else 0
  }

  lemma StepCharge(cfg: Config, s: State, step: Step, s': State)
    requires Proper(cfg) && Goes(cfg, s, step, s')
    ensures Work(s') + 1 <= Work(s) + Charge(cfg, step)
  {
    WorkFalls(cfg, s, step);
    if step.Begin? {
      EnoughIssued(cfg, step.op, 0, 0);
    }
  }

  // No run is longer than its calls and spurious wake-ups allow.
  lemma {:induction false} RunBound(cfg: Config, run: seq<State>, steps: seq<Step>)
    requires Proper(cfg) && Trail(cfg, run, steps)
    ensures |steps| + Work(run[|steps|]) <= Work(run[0]) + (8 * cfg.n + 4) * Calls(steps) + 2 * Wakeups(steps)
    decreases |steps|
  {
    if steps != [] {
      var n, k := |steps| - 1, 8 * cfg.n + 4;
      TrailShort(cfg, run, steps);
      RunBound(cfg, run[..n + 1], steps[..n]);
      StepCharge(cfg, run[n], steps[n], run[n + 1]);
      assert k * (Calls(steps[..n]) + 1) == k * Calls(steps[..n]) + k;
    }
  }

  lemma {:induction false} FirstWork(n: nat)
    ensures Sum(Owed, seq(n, _ => Ready)) == n
  {
    if n > 0 {
      FirstWork(n - 1);
      assert seq(n, _ => Ready)[..n - 1] == seq(n - 1, _ => Ready);
    }
  }
}
