// Waiting workers: how they are counted, and that none is forgotten.
module PoolSignals {
  import opened Collections
  import opened Store
  import opened ThreadPool
  import opened PoolInvariants

  // ------------------------------------------------------------ idle workers

  predicate Waits(w: Worker) {
    w == Parked || w == Woken
  }

  // The workers inside the wait loop.
  function Waiting(workers: seq<Worker>): set<int> {
    set w | 0 <= w < |workers| && Waits(workers[w]) :: w
  }

  // The idle counter is the number of waiting workers, less one for every task
  // that was taken without waiting.
  ghost predicate Idling(s: State) {
    s.idleThreadsNum == |Waiting(s.workers)| - s.direct
  }

  lemma WaitingUpdate(workers: seq<Worker>, w: nat, x: Worker)
    requires w < |workers|
    ensures Waiting(workers[w := x]) == if Waits(x) then Waiting(workers) + {w} else Waiting(workers) - {w}
    ensures |Waiting(workers[w := x])| ==
            |Waiting(workers)| + One(Waits(x)) - One(Waits(workers[w]))
  {
    var before, after := Waiting(workers), Waiting(workers[w := x]);
    var want := if Waits(x) then before + {w} else before - {w};
    forall v
      ensures v in after <==> v in want
    {
      if 0 <= v < |workers| {
        assert v in before <==> Waits(workers[v]);
        assert v in after <==> Waits(workers[w := x][v]);
      }
    }
    assert after == want;
    if !Waits(workers[w]) {
      assert before - {w} == before;
    } else {
      assert before + {w} == before;
    }
  }

  lemma WaitingWakened(workers: seq<Worker>, wakes: Option<nat>)
    requires CanWake(workers, wakes)
    ensures Waiting(Wakened(workers, wakes)) == Waiting(workers)
  {
    if wakes.Some? {
      WaitingUpdate(workers, wakes.value, Woken);
    }
  }

  lemma IdlingLock(cfg: Config, s: State, w: nat)
    requires Idling(s) && Enabled(cfg, s, Lock(w))
    ensures Idling(Locked(s, w))
  {
    WaitingUpdate(s.workers, w, Locked(s, w).workers[w]);
  }

  // A step that only moves busy workers, or wakes some, does not count.
  lemma IdlingSame(s: State, s': State, workers: seq<Worker>, w: nat)
    requires Idling(s) && s'.idleThreadsNum == s.idleThreadsNum && s'.direct == s.direct
    requires Waiting(workers) == Waiting(s.workers) && w < |workers|
    requires |s'.workers| == |workers| && s'.workers == workers[w := s'.workers[w]]
    requires Waits(s'.workers[w]) <==> Waits(workers[w])
    ensures Idling(s')
  {
    WaitingUpdate(workers, w, s'.workers[w]);
  }

  lemma IdlingKept(cfg: Config, s: State, step: Step)
    requires Proper(cfg) && Idling(s) && Enabled(cfg, s, step)
    ensures Idling(Apply(cfg, s, step))
  {
    var s' := Apply(cfg, s, step);
    if step.ClientSignal? {
      WaitingWakened(s.workers, step.wakes);
    } else if step.WorkerSignal? {
      WaitingWakened(s.workers, step.wakes);
      IdlingSame(s, s', Wakened(s.workers, step.wakes), step.w);
    } else if step.Lock? {
      IdlingLock(cfg, s, step.w);
    } else if step.Wake? || step.Serve? || step.ServeFail? || step.WriteBack? || step.WriteFail? || step.FreeTask? {
      IdlingSame(s, s', s.workers, step.w);
    }
  }

  // ---------------------------------------------------------------- signals

  predicate Signaller(k: Command) {
    k.phase.Signals? && k.phase.left > 0
  }

  predicate Alert(w: Worker) {
    w == Woken || w.Signalling?
  }

  // A signal is still to be sent, or a woken worker will look at the queue.
  ghost predicate Pending(s: State) {
    || (exists c :: 0 <= c < |s.commands| && Signaller(s.commands[c]))
    || (exists w :: 0 <= w < |s.workers| && Alert(s.workers[w]))
  }

  // No lost wake-up: tasks do not lie in the queue unnoticed while workers wait.
  ghost predicate Noticed(s: State) {
    s.queue != [] && Parked in s.workers ==> Pending(s)
  }

  // Who was pending still is, when nothing but worker w or command c moved.
  lemma StillPending(s: State, s': State)
    requires Noticed(s) && (s'.queue == s.queue || s'.queue == []) && |s'.workers| == |s.workers|
    requires |s.commands| <= |s'.commands|
    requires forall c | 0 <= c < |s.commands| && Signaller(s.commands[c]) :: Signaller(s'.commands[c])
    requires forall w | 0 <= w < |s.workers| && Alert(s.workers[w]) :: Alert(s'.workers[w])
    requires forall w | 0 <= w < |s.workers| && s'.workers[w] == Parked :: s.workers[w] == Parked || s'.queue == []
    ensures Noticed(s')
  {
    if s'.queue != [] && Parked in s'.workers {
      var u :| 0 <= u < |s'.workers| && s'.workers[u] == Parked;
      assert s.workers[u] == Parked;
      if c :| 0 <= c < |s.commands| && Signaller(s.commands[c]) {
        assert Signaller(s'.commands[c]);
      } else {
        var w :| 0 <= w < |s.workers| && Alert(s.workers[w]);
        assert Alert(s'.workers[w]);
      }
    }
  }

  // After a signal a worker is awake, or none was waiting.
  lemma SignalNoticed(workers: seq<Worker>, wakes: Option<nat>, s': State)
    requires CanWake(workers, wakes) && |s'.workers| == |workers|
    requires forall w | 0 <= w < |workers| && Waits(workers[w]) :: s'.workers[w] == Wakened(workers, wakes)[w]
    requires forall w | 0 <= w < |workers| && !Waits(workers[w]) :: s'.workers[w] != Parked
    ensures Noticed(s')
  {
    match wakes
    case Some(u) => assert Alert(s'.workers[u]);
    case None =>
      forall w | 0 <= w < |workers| ensures s'.workers[w] != Parked {
        assert workers[w] in workers;
      }
  }

  lemma LockNoticed(cfg: Config, s: State, w: nat)
    requires Enabled(cfg, s, Lock(w)) && Noticed(s)
    ensures Noticed(Locked(s, w))
  {
    var s' := Locked(s, w);
    if s.queue != [] && s'.queue != [] {
      assert Alert(s'.workers[w]);
    }
  }

  // Steps that neither fill the queue nor signal.
  lemma OthersNoticed(cfg: Config, s: State, step: Step)
    requires Proper(cfg) && Noticed(s) && Enabled(cfg, s, step)
    requires !step.Enqueue? && !step.ClientSignal? && !step.WorkerSignal? && !step.Lock?
    ensures Noticed(Apply(cfg, s, step))
  {
    StillPending(s, Apply(cfg, s, step));
  }

  lemma NoticedKept(cfg: Config, s: State, step: Step)
    requires Proper(cfg) && Recorded(cfg, s) && Noticed(s) && Enabled(cfg, s, step)
    ensures Noticed(Apply(cfg, s, step))
  {
    var s' := Apply(cfg, s, step);
    if step.Enqueue? {
      assert Signaller(s'.commands[step.c]);
    } else if step.ClientSignal? || step.WorkerSignal? {
      SignalNoticed(s.workers, step.wakes, s');
    } else if step.Lock? {
      LockNoticed(cfg, s, step.w);
    } else {
      OthersNoticed(cfg, s, step);
    }
  }

  // The threads are all there, and a client in the signal loop has one to send.
  ghost predicate Staffed(cfg: Config, s: State) {
    && |s.workers| == cfg.threads
    && forall c | 0 <= c < |s.commands| && s.commands[c].phase.Signals? :: Signaller(s.commands[c])
  }

  lemma StaffedKept(cfg: Config, s: State, step: Step)
    requires Proper(cfg) && Recorded(cfg, s) && Staffed(cfg, s) && Enabled(cfg, s, step)
    ensures Staffed(cfg, Apply(cfg, s, step))
  {
  }
}
