// The life of a command: its reader and its tasks share it, and the last of
// them frees it.
module PoolReferences {
  import opened Collections
  import opened Store
  import opened ThreadPool
  import opened PoolInvariants

  // The tasks that still refer to command c.
  function Holders(tasks: seq<Task>, c: nat): set<int> {
    set t | 0 <= t < |tasks| && tasks[t].command == c && tasks[t].status != Freed :: t
  }

  // The reference count is exact, and a command is freed when it gets to 0.
  ghost predicate Counted(s: State) {
    forall c | 0 <= c < |s.commands| :: CountedAt(s, c)
  }

  ghost predicate CountedAt(s: State, c: nat)
    requires c < |s.commands|
  {
    var k := s.commands[c];
    && k.refNum == One(k.phase != Succeeded) + |Holders(s.tasks, c)|
    && k.frees == One(k.refNum == 0)
  }

  lemma HoldersSame(tasks: seq<Task>, tasks': seq<Task>, c: nat)
    requires |tasks'| == |tasks|
    requires forall t | 0 <= t < |tasks| :: tasks'[t].command == tasks[t].command
    requires forall t | 0 <= t < |tasks| :: tasks'[t].status == Freed <==> tasks[t].status == Freed
    ensures Holders(tasks', c) == Holders(tasks, c)
  {
  }

  lemma HoldersFreed(tasks: seq<Task>, t: nat, c: nat)
    requires t < |tasks| && tasks[t].status != Freed
    ensures var after := tasks[t := tasks[t].(status := Freed)];
            |Holders(after, c)| == |Holders(tasks, c)| - One(tasks[t].command == c)
  {
    var tasks' := tasks[t := tasks[t].(status := Freed)];
    var before, after := Holders(tasks, c), Holders(tasks', c);
    forall v | 0 <= v < |tasks|
      ensures v in after <==> v in before && v != t
    {
      assert v in before <==> tasks[v].command == c && tasks[v].status != Freed;
      assert v in after <==> tasks'[v].command == c && tasks'[v].status != Freed;
    }
    assert after == before - {t};
    assert t in before <==> tasks[t].command == c;
    if tasks[t].command != c {
      assert before - {t} == before;
    }
  }

  lemma HoldersBuilt(tasks: seq<Task>, more: seq<Task>, c: nat)
    requires forall t | 0 <= t < |more| :: more[t].status != Freed
    requires forall t, u | 0 <= t < u < |more| :: more[t].command == more[u].command
    ensures |more| > 0 && more[0].command != c ==> Holders(tasks + more, c) == Holders(tasks, c)
    ensures |more| > 0 && more[0].command == c && Holders(tasks, c) == {} ==> |Holders(tasks + more, c)| == |more|
  {
    var before, after := Holders(tasks, c), Holders(tasks + more, c);
    if |more| > 0 {
      SpanSize(|tasks|, |more|);
      forall v | 0 <= v < |tasks| + |more|
        ensures v in after <==> v in before || (v >= |tasks| && more[0].command == c)
      {
        var x := (tasks + more)[v];
        assert v in after <==> x.command == c && x.status != Freed;
        if v < |tasks| {
          assert x == tasks[v];
        } else {
          assert x == more[v - |tasks|];
        }
      }
      if more[0].command == c {
        assert after == before + Span(|tasks|, |more|);
      } else {
        assert after == before;
      }
    }
  }

  lemma CountedBegin(cfg: Config, s: State, op: Op, issued: nat, need: nat)
    requires Recorded(cfg, s) && Counted(s) && 0 < issued <= |cfg.route(op.bucket)|
    ensures Counted(Begun(cfg, s, op, issued, need))
  {
    var s', n := Begun(cfg, s, op, issued, need), |s.tasks|;
    var more := s'.tasks[n..];
    assert s'.tasks == s.tasks + more;
    forall c | 0 <= c < |s'.commands| ensures CountedAt(s', c) {
      HoldersBuilt(s.tasks, more, c);
      if c < |s.commands| {
        assert CountedAt(s, c);
      } else {
        assert Holders(s.tasks, c) == {};
      }
    }
  }

  lemma CountedSame(s: State, s': State)
    requires Counted(s) && KeepsCount(s, s')
    ensures Counted(s')
  {
    forall c | 0 <= c < |s'.commands| ensures CountedAt(s', c) {
      assert CountedAt(s, c) && SameCount(s.commands[c], s'.commands[c]);
      HoldersSame(s.tasks, s'.tasks, c);
    }
  }

  predicate SameCount(k: Command, k': Command) {
    k'.refNum == k.refNum && k'.frees == k.frees && (k'.phase == Succeeded <==> k.phase == Succeeded)
  }

  lemma CountedReader(s: State, c: nat)
    requires Counted(s) && c < |s.commands| && s.commands[c].phase == Releasing
    ensures Counted(ReaderFreed(s, c))
  {
    var s' := ReaderFreed(s, c);
    forall d | 0 <= d < |s'.commands| ensures CountedAt(s', d) {
      assert CountedAt(s, d);
    }
  }

  lemma CountedFree(s: State, w: nat)
    requires Counted(s) && Taken(s) && Works(s, w)
    ensures Counted(TaskFreed(s, w))
  {
    var s', t := TaskFreed(s, w), s.workers[w].task;
    forall d | 0 <= d < |s'.commands| ensures CountedAt(s', d) {
      assert CountedAt(s, d);
      HoldersFreed(s.tasks, t, d);
    }
  }

  ghost predicate KeepsCount(s: State, s': State) {
    && Same(s, s')
    && (forall t | 0 <= t < |s.tasks| :: s'.tasks[t].status == Freed <==> s.tasks[t].status == Freed)
    && forall c | 0 <= c < |s.commands| :: SameCount(s.commands[c], s'.commands[c])
  }

  // A client that does not release the command.
  lemma ClientKeepsCount(cfg: Config, s: State, step: Step)
    requires Proper(cfg) && Enabled(cfg, s, step)
    requires step.ClientSignal? || step.ReadOk? || step.ReadFail?
    ensures KeepsCount(s, Apply(cfg, s, step))
  {
  }

  lemma LockKeepsCount(cfg: Config, s: State, w: nat)
    requires Taken(s) && Enabled(cfg, s, Lock(w))
    ensures KeepsCount(s, Locked(s, w))
  {
  }

  lemma HandoverKeepsCount(cfg: Config, s: State, c: nat, tasks: seq<Task>, phase: Phase, status: Status)
    requires Recorded(cfg, s) && c < |s.commands| && s.commands[c].phase == Enqueueing
    requires phase != Succeeded && status != Freed && tasks == Marked(s.tasks, c, status)
    ensures KeepsCount(s, s.(tasks := tasks, commands := s.commands[c := s.commands[c].(phase := phase)]))
  {
    forall t | 0 <= t < |tasks| ensures tasks[t].status == Freed <==> s.tasks[t].status == Freed {
      if s.tasks[t].command == c {
        assert s.tasks[t].status == Fresh;
      }
    }
  }

  // A worker that does not free its task.
  lemma WorkerKeepsCount(cfg: Config, s: State, step: Step)
    requires Proper(cfg) && Taken(s) && Enabled(cfg, s, step)
    requires step.WorkerSignal? || step.Wake? || step.Serve? || step.WriteBack?
    ensures KeepsCount(s, Apply(cfg, s, step))
  {
  }

  lemma LossKeepsCount(cfg: Config, s: State, step: Step)
    requires Proper(cfg) && Taken(s) && Enabled(cfg, s, step) && (step.ServeFail? || step.WriteFail?)
    ensures KeepsCount(s, Apply(cfg, s, step))
  {
  }

  lemma CountedKept(cfg: Config, s: State, step: Step)
    requires Proper(cfg) && Recorded(cfg, s) && Taken(s) && Counted(s) && Enabled(cfg, s, step)
    ensures Counted(Apply(cfg, s, step))
  {
    if step.Begin? {
      CountedBegin(cfg, s, step.op, step.issued, step.need);
    } else if step.ReaderFree? {
      CountedReader(s, step.c);
    } else if step.FreeTask? {
      CountedFree(s, step.w);
    } else {
      var s' := Apply(cfg, s, step);
      if step.Enqueue? {
        HandoverKeepsCount(cfg, s, step.c, s'.tasks, s'.commands[step.c].phase, Queued);
      } else if step.Abandon? {
        HandoverKeepsCount(cfg, s, step.c, s'.tasks, s'.commands[step.c].phase, Lost);
      } else if step.ClientSignal? || step.ReadOk? || step.ReadFail? {
        ClientKeepsCount(cfg, s, step);
      } else if step.Lock? {
        LockKeepsCount(cfg, s, step.w);
      } else if step.ServeFail? || step.WriteFail? {
        LossKeepsCount(cfg, s, step);
      } else {
        WorkerKeepsCount(cfg, s, step);
      }
      CountedSame(s, s');
    }
  }

  // -------------------------------------------------------- what it is good for

  // The command that a step reads or writes.
  ghost predicate Touches(s: State, step: Step, c: nat) {
    match step
    case Begin(_, _, _) => false
    case Enqueue(d) => c == d
    case Abandon(d) => c == d
    case ClientSignal(d, _) => c == d
    case ReadOk(d, _) => c == d
    case ReaderFree(d) => c == d
    case ReadFail(d) => c == d
    case Lock(w) => s.queue != [] && s.queue[0] < |s.tasks| && s.tasks[s.queue[0]].command == c
    case Wake(_) => false
    case _ =>
      && step.w < |s.workers| && Busy(s.workers[step.w]) && s.workers[step.w].task < |s.tasks|
      && s.tasks[s.workers[step.w].task].command == c
  }

  // No step touches a command after it was freed.
  lemma NoUseAfterFree(cfg: Config, s: State, step: Step, c: nat)
    requires Proper(cfg) && Recorded(cfg, s) && Taken(s) && Counted(s) && Enabled(cfg, s, step)
    requires Touches(s, step, c)
    ensures c < |s.commands| && s.commands[c].frees == 0
  {
    if step.Lock? {
      TaskHolds(cfg, s, s.queue[0]);
    } else if step.WorkerSignal? || step.Serve? || step.ServeFail? || step.WriteBack? || step.WriteFail?
              || step.FreeTask? {
      TaskHolds(cfg, s, s.workers[step.w].task);
    } else {
      assert CountedAt(s, c);
    }
  }

  // A task that was not freed keeps its command.
  lemma TaskHolds(cfg: Config, s: State, t: nat)
    requires Recorded(cfg, s) && Counted(s) && t < |s.tasks| && s.tasks[t].status != Freed
    ensures s.commands[s.tasks[t].command].frees == 0
  {
    var c := s.tasks[t].command;
    assert CountedAt(s, c) && t in Holders(s.tasks, c);
    SubsetSize({t}, Holders(s.tasks, c));
  }

  // A command is freed at most once, and it is freed exactly when its reader
  // succeeded and all its tasks were freed. In a run in which every task
  // writes back and the reader gets its answers, that happens.
  lemma FreedAtTheEnd(cfg: Config, s: State, c: nat)
    requires Recorded(cfg, s) && Counted(s) && c < |s.commands|
    ensures s.commands[c].frees <= 1
    ensures s.commands[c].frees == 1 <==>
      && s.commands[c].phase == Succeeded
      && forall t | 0 <= t < |s.tasks| && s.tasks[t].command == c :: s.tasks[t].status == Freed
  {
    assert CountedAt(s, c);
    var h := Holders(s.tasks, c);
    if t :| 0 <= t < |s.tasks| && s.tasks[t].command == c && s.tasks[t].status != Freed {
      TaskHolds(cfg, s, t);
    } else {
      assert h == {};
    }
  }
}
