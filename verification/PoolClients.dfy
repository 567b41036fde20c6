// What a client does between its call and its answer: it signals once for each of
// its tasks, or gives up and never comes back OK.
module PoolClients {
  import opened Collections
  import opened Store
  import opened ThreadPool
  import opened PoolInvariants
  import opened PoolReplies
  import opened PoolWork
  import opened PoolRuns

  // ---------------------------------------------------------------- signals

  function SignalsOf(steps: seq<Step>, c: nat): nat {
    if steps == [] then 0
    else
      var last := steps[|steps| - 1];
      SignalsOf(steps[..|steps| - 1], c) + if last.ClientSignal? && last.c == c then 1 else 0
  }

  lemma {:induction false} NotBegun(cfg: Config, run: seq<State>, steps: seq<Step>, c: nat)
    requires Proper(cfg) && Trail(cfg, run, steps) && c >= |run[|steps|].commands|
    ensures SignalsOf(steps, c) == 0 && Enqueue(c) !in steps
    decreases |steps|
  {
    if steps != [] {
      var n := |steps| - 1;
      TrailShort(cfg, run, steps);
      assert steps == steps[..n] + [steps[n]];
      NotBegun(cfg, run[..n + 1], steps[..n], c);
    }
  }

  // A client that enqueued its tasks has sent as many signals as it issued tasks,
  // less those that it still has to send; one that did not has sent none.
  ghost predicate SignalsFit(k: Command, signals: nat, enqueued: bool) {
    k.issued > 0 && match k.phase
    case Enqueueing => !enqueued && signals == 0
    case Signals(left) => enqueued && 0 < left && signals + left == k.issued
    case _ => signals == if enqueued then k.issued else 0
  }

  lemma {:induction false} SignalsSent(cfg: Config, run: seq<State>, steps: seq<Step>, c: nat)
    requires Proper(cfg) && Trail(cfg, run, steps) && Init(cfg, run[0]) && c < |run[|steps|].commands|
    ensures SignalsFit(run[|steps|].commands[c], SignalsOf(steps, c), Enqueue(c) in steps)
    decreases |steps|
  {
    if steps != [] {
      var n := |steps| - 1;
      TrailShort(cfg, run, steps);
      if c < |run[n].commands| {
        SignalsSent(cfg, run[..n + 1], steps[..n], c);
      } else {
        NotBegun(cfg, run[..n + 1], steps[..n], c);
      }
      SignalStep(cfg, run[n], steps[n], c, SignalsOf(steps[..n], c), Enqueue(c) in steps[..n]);
      SignalsMore(steps, c);
    }
  }

  lemma SignalsMore(steps: seq<Step>, c: nat)
    requires steps != []
    ensures var n := |steps| - 1;
            && SignalsOf(steps, c) == SignalsOf(steps[..n], c) + One(steps[n].ClientSignal? && steps[n].c == c)
            && (Enqueue(c) in steps <==> Enqueue(c) in steps[..n] || steps[n] == Enqueue(c))
  {
    assert steps == steps[..|steps| - 1] + [steps[|steps| - 1]];
  }

  lemma SignalStep(cfg: Config, s: State, step: Step, c: nat, signals: nat, enqueued: bool)
    requires Proper(cfg) && Enabled(cfg, s, step) && c < |Apply(cfg, s, step).commands|
    requires if c < |s.commands| then SignalsFit(s.commands[c], signals, enqueued) else signals == 0 && !enqueued
    ensures SignalsFit(Apply(cfg, s, step).commands[c], signals + One(step.ClientSignal? && step.c == c),
                       enqueued || step == Enqueue(c))
  {
  }

  // --------------------------------------------------------------- giving up

  // The client could not enqueue its tasks: it will look for answers, and there are
  // none.
  ghost predicate GaveUp(s: State, c: nat) {
    && c < |s.commands| && s.commands[c].phase in {Reading, Failed}
    && s.commands[c].successNum == 0 && s.commands[c].replies == []
    && forall t | 0 <= t < |s.tasks| && s.tasks[t].command == c :: s.tasks[t].status == Lost
  }

  // It goes on to look for them.
  lemma GivesUp(cfg: Config, s: State, c: nat)
    requires Proper(cfg) && Inv(cfg, s) && Enabled(cfg, s, Abandon(c))
    ensures GaveUp(Abandoned(s, c), c) && Enabled(cfg, Abandoned(s, c), ReadFail(c))
  {
    var k := s.commands[c];
    assert AnsweringAt(s, c);
    assert |k.replies| > 0 ==> Proven(s, c, k.replies[0]);
  }

  // And it never comes back OK.
  lemma NoAnswers(cfg: Config, s: State, step: Step, c: nat)
    requires Proper(cfg) && Recorded(cfg, s) && Taken(s) && Enabled(cfg, s, step) && GaveUp(s, c)
    ensures GaveUp(Apply(cfg, s, step), c)
  {
    if step.Lock? {
      if s.queue != [] {
        assert s.queue[0] in s.queue;
      }
    } else if step.Begin? || step.Enqueue? || step.Abandon? || step.ReadOk? || step.ReadFail? {
      NoAnswersClient(cfg, s, step, c);
    }
  }

  lemma NoAnswersClient(cfg: Config, s: State, step: Step, c: nat)
    requires Proper(cfg) && Recorded(cfg, s) && Enabled(cfg, s, step) && GaveUp(s, c)
    requires step.Begin? || step.Enqueue? || step.Abandon? || step.ReadOk? || step.ReadFail?
    ensures GaveUp(Apply(cfg, s, step), c)
  {
  }
}
