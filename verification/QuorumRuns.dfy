// Runs that show how far the quorums reach: one worker does all tasks, and loses
// some of them.
module QuorumRuns {
  import opened Collections
  import opened Store
  import opened ThreadPool
  import opened PoolInvariants
  import opened PoolReplies
  import opened PoolRuns
  import opened Quorum

  // ------------------------------------------------------------ making runs

  lemma FirstState(cfg: Config) returns (s: State)
    requires Proper(cfg)
    ensures Reachable(cfg, s) && Init(cfg, s)
  {
    s := State([], [], [], 0, 0, seq(cfg.threads, _ => Ready), [], [], [], 0);
    var run := [s];
    assert Run(cfg, run) && run[|run| - 1] == s;
  }

  lemma OneStep(cfg: Config, s: State, step: Step) returns (s': State)
    requires Proper(cfg) && Reachable(cfg, s) && Enabled(cfg, s, step)
    ensures s' == Apply(cfg, s, step) && Reachable(cfg, s')
  {
    s' := Apply(cfg, s, step);
    var run :| Run(cfg, run) && run[|run| - 1] == s;
    var more := run + [s'];
    assert Next(cfg, s, s');
    forall i | 0 <= i < |more| - 1 ensures Next(cfg, more[i], more[i + 1]) {
      if i < |run| - 1 {
        assert more[i] == run[i] && more[i + 1] == run[i + 1];
      }
    }
    assert Run(cfg, more) && more[|more| - 1] == s';
  }

  // No worker waits or has a task.
  ghost predicate AllReady(cfg: Config, s: State)
    requires Proper(cfg)
  {
    Reachable(cfg, s) && cfg.threads == |s.workers| > 0 && forall w | 0 <= w < |s.workers| :: s.workers[w] == Ready
  }

  // Command c is read, and apart from that nothing changed but its own record.
  ghost predicate OnlyCommand(s: State, s': State, c: nat) {
    && |s'.commands| == |s.commands| && c < |s.commands|
    && (forall d | 0 <= d < |s.commands| && d != c :: s'.commands[d] == s.commands[d])
    && SameCall(s.commands[c], s'.commands[c])
    && |s'.tasks| == |s.tasks|
    && (forall t | 0 <= t < |s.tasks| :: SameTask(s.tasks[t], s'.tasks[t]))
  }

  // What the tasks leave alone in the record of their command.
  predicate SameCall(k: Command, k': Command) {
    SameCommand(k, k') && k'.phase == k.phase
  }

  // ---------------------------------------------------------------- a client

  lemma {:induction false} SendSignals(cfg: Config, s: State, c: nat) returns (s': State)
    requires Proper(cfg) && AllReady(cfg, s) && c < |s.commands|
    requires s.commands[c].phase.Signals? && s.commands[c].phase.left > 0
    ensures AllReady(cfg, s') && s' == s.(commands := s.commands[c := s.commands[c].(phase := Reading)])
    decreases s.commands[c].phase.left
  {
    var u := OneStep(cfg, s, ClientSignal(c, None));
    if s.commands[c].phase.left == 1 {
      s' := u;
    } else {
      s' := SendSignals(cfg, u, c);
    }
  }

  // A call is issued, and its client waits for answers.
  lemma Issue(cfg: Config, s: State, op: Op, issued: nat, need: nat) returns (s': State)
    requires Proper(cfg) && AllReady(cfg, s) && s.queue == []
    requires Issues(cfg, op, issued, need) && |cfg.route(op.bucket)| == cfg.n
    ensures AllReady(cfg, s') && s'.log == s.log
    ensures |s'.commands| == |s.commands| + 1 && s'.commands[..|s.commands|] == s.commands
    ensures var k := s'.commands[|s.commands|];
            && k.op == op && k.issued == issued && k.need == need && k.first == |s.tasks| && k.began == |s.log|
            && k.phase == Reading && k.replies == [] && k.successNum == 0 && s'.queue == TasksOf(k)
    ensures |s'.tasks| == |s.tasks| + issued
  {
    ReachableWell(cfg, s);
    var c := |s.commands|;
    var u := OneStep(cfg, s, Begin(op, issued, need));
    var v := OneStep(cfg, u, Enqueue(c));
    s' := SendSignals(cfg, v, c);
  }

  // ----------------------------------------------------------------- a worker

  // The worker takes the first task, and signals if it must.
  lemma TakeUp(cfg: Config, s: State, t: nat, c: nat) returns (s': State)
    requires Proper(cfg) && AllReady(cfg, s) && s.queue != [] && s.queue[0] == t
    requires t < |s.tasks| && s.tasks[t].command == c < |s.commands|
    ensures Reachable(cfg, s') && s'.queue == s.queue[1..] && s'.log == s.log
    ensures s'.workers == s.workers[0 := Doing(t)]
    ensures s'.tasks == s.tasks[t := s.tasks[t].(status := Held(0))]
    ensures s'.commands == s.commands[c := s.commands[c].(doingNum := s.commands[c].doingNum + 1)]
  {
    s' := OneStep(cfg, s, Lock(0));
    if s'.workers[0].Signalling? {
      s' := OneStep(cfg, s', WorkerSignal(0, None));
    }
  }

  lemma LoseTask(cfg: Config, s: State, t: nat, c: nat) returns (s': State)
    requires Proper(cfg) && AllReady(cfg, s) && s.queue != [] && s.queue[0] == t
    requires t < |s.tasks| && s.tasks[t].command == c < |s.commands|
    ensures AllReady(cfg, s') && s'.queue == s.queue[1..] && s'.log == s.log && OnlyCommand(s, s', c)
    ensures s'.commands[c].replies == s.commands[c].replies && s'.commands[c].successNum == s.commands[c].successNum
  {
    var u := TakeUp(cfg, s, t, c);
    s' := OneStep(cfg, u, ServeFail(0, false));
  }

  lemma DoTask(cfg: Config, s: State, t: nat, c: nat) returns (s': State)
    requires Proper(cfg) && AllReady(cfg, s) && s.queue != [] && s.queue[0] == t
    requires t < |s.tasks| && s.tasks[t].command == c < |s.commands|
    ensures AllReady(cfg, s') && s'.queue == s.queue[1..] && s'.log == s.log + [Exchanged(s, t)]
    ensures OnlyCommand(s, s', c)
    ensures s'.commands[c].replies == s.commands[c].replies + [Written(t, Exchanged(s, t).reply, |s.log|)]
    ensures s'.commands[c].successNum == s.commands[c].successNum + 1
  {
    var u := TakeUp(cfg, s, t, c);
    var v := OneStep(cfg, u, Serve(0));
    assert v.log == s.log + [Exchanged(s, t)] && v.workers[0] == Answered(t, |s.log|);
    var x := OneStep(cfg, v, WriteBack(0));
    s' := OneStep(cfg, x, FreeTask(0));
  }

  // ----------------------------------------------------------- a whole queue

  ghost predicate Belongs(s: State, c: nat) {
    forall i | 0 <= i < |s.queue| :: s.queue[i] < |s.tasks| && s.tasks[s.queue[i]].command == c
  }

  lemma BelongsRest(s: State, u: State, c: nat)
    requires Belongs(s, c) && s.queue != [] && u.queue == s.queue[1..] && OnlyCommand(s, u, c)
    ensures Belongs(u, c)
  {
    forall i | 0 <= i < |u.queue| ensures u.queue[i] < |u.tasks| && u.tasks[u.queue[i]].command == c {
      assert u.queue[i] == s.queue[i + 1];
    }
  }

  // The i-th task after the lost ones got its answer.
  ghost predicate DoneAt(s: State, s': State, c: nat, skip: nat, i: nat)
    requires c < |s.commands| && c < |s'.commands| && skip + i < |s.queue|
    requires |s.commands[c].replies| + i < |s'.commands[c].replies| && |s.log| + i < |s'.log|
  {
    var t, r, e := s.queue[skip + i], s'.commands[c].replies[|s.commands[c].replies| + i], s'.log[|s.log| + i];
    && r.task == t && r.at == |s.log| + i
    && t < |s.tasks| && e.op == s.commands[c].op && e.host == s.tasks[t].host
  }

  // The tasks of command c were done from place skip of the queue on.
  ghost predicate AllDone(s: State, s': State, c: nat, skip: nat)
    requires skip <= |s.queue| && c < |s.commands| && c < |s'.commands|
  {
    var k, k', n := s.commands[c], s'.commands[c], |s.queue| - skip;
    && OnlyCommand(s, s', c) && k'.successNum == k.successNum + n
    && |k'.replies| == |k.replies| + n && |s'.log| == |s.log| + n
    && k.replies <= k'.replies && s.log <= s'.log
    && forall i: nat | i < n :: DoneAt(s, s', c, skip, i)
  }

  // Worker 0 goes through the queue; the first skip tasks are lost.
  lemma {:induction false} DoAll(cfg: Config, s: State, c: nat, skip: nat) returns (s': State)
    requires Proper(cfg) && AllReady(cfg, s) && c < |s.commands| && skip <= |s.queue| && Belongs(s, c)
    ensures AllReady(cfg, s') && s'.queue == [] && c < |s'.commands| && AllDone(s, s', c, skip)
    decreases |s.queue|
  {
    if s.queue == [] {
      s' := s;
    } else {
      var t := s.queue[0];
      var u;
      if skip > 0 {
        u := LoseTask(cfg, s, t, c);
        BelongsRest(s, u, c);
        s' := DoAll(cfg, u, c, skip - 1);
        AllDoneLost(s, u, s', c, skip);
      } else {
        u := DoTask(cfg, s, t, c);
        BelongsRest(s, u, c);
        s' := DoAll(cfg, u, c, 0);
        AllDoneMore(s, u, s', c);
      }
    }
  }

  lemma AllDoneLost(s: State, u: State, s': State, c: nat, skip: nat)
    requires c < |s.commands| && 0 < skip <= |s.queue| && u.queue == s.queue[1..] && OnlyCommand(s, u, c)
    requires u.log == s.log && u.commands[c].successNum == s.commands[c].successNum
    requires u.commands[c].replies == s.commands[c].replies
    requires c < |s'.commands| && AllDone(u, s', c, skip - 1)
    ensures AllDone(s, s', c, skip)
  {
    forall i: nat | i < |s.queue| - skip ensures DoneAt(s, s', c, skip, i) {
      assert DoneAt(u, s', c, skip - 1, i) && u.queue[skip - 1 + i] == s.queue[skip + i];
    }
  }

  lemma AllDoneMore(s: State, u: State, s': State, c: nat)
    requires c < |s.commands| && s.queue != [] && u.queue == s.queue[1..] && OnlyCommand(s, u, c)
    requires s.queue[0] < |s.tasks| && s.tasks[s.queue[0]].command == c
    requires u.log == s.log + [Exchanged(s, s.queue[0])]
    requires u.commands[c].successNum == s.commands[c].successNum + 1
    requires u.commands[c].replies ==
             s.commands[c].replies + [Written(s.queue[0], Exchanged(s, s.queue[0]).reply, |s.log|)]
    requires c < |s'.commands| && AllDone(u, s', c, 0)
    ensures AllDone(s, s', c, 0)
  {
    var k, k' := s.commands[c], s'.commands[c];
    forall i: nat | i < |s.queue| ensures DoneAt(s, s', c, 0, i) {
      if i == 0 {
        assert k'.replies[|k.replies|] == u.commands[c].replies[|k.replies|];
        assert s'.log[|s.log|] == u.log[|s.log|];
      } else {
        assert DoneAt(u, s', c, 0, i - 1) && s.queue[i] == u.queue[i - 1];
      }
    }
  }

  // ----------------------------------------------------------- whole calls

  // The last command is a call that came back OK with the answers of the hosts
  // of its bucket from place skip on; the log was before when it began.
  ghost predicate CameBack(cfg: Config, s: State, c: nat, op: Op, issued: nat, skip: nat, before: nat) {
    && c < |s.commands| && skip <= issued <= cfg.n == |cfg.route(op.bucket)|
    && before + issued - skip <= |s.log|
    && var k := s.commands[c];
       && k.op == op && Returning(k) && k.began == before && k.returned == before + issued - skip
       && k.seen == |k.replies| == issued - skip && k.chosen < k.seen
       && forall i: nat | i < issued - skip :: AnsweredBy(cfg, s, c, i, before, skip)
  }

  // Answer i of command c is entry before + i of the log, and came from the host
  // at place skip + i.
  ghost predicate AnsweredBy(cfg: Config, s: State, c: nat, i: nat, before: nat, skip: nat)
    requires c < |s.commands| && i < |s.commands[c].replies| && before + i < |s.log|
    requires skip + i < |cfg.route(s.commands[c].op.bucket)|
  {
    var k, e := s.commands[c], s.log[before + i];
    k.replies[i].at == before + i && e.op == k.op && e.host == cfg.route(k.op.bucket)[skip + i]
  }

  lemma NewTasks(cfg: Config, s: State, c: nat)
    requires Proper(cfg) && Inv(cfg, s) && c < |s.commands| && s.queue == TasksOf(s.commands[c])
    ensures Belongs(s, c)
    ensures forall i | 0 <= i < |s.queue| ::
      s.queue[i] < |s.tasks| && s.tasks[s.queue[i]].host == HostOf(cfg, s.commands[c], s.queue[i])
  {
    forall i | 0 <= i < |s.queue| ensures s.queue[i] < |s.tasks| && s.tasks[s.queue[i]].command == c {
      assert Owns(s.commands[c], s.queue[i]);
    }
  }

  // From one quiet state to another: a call whose first skip tasks are lost.
  lemma Call(cfg: Config, s: State, op: Op, issued: nat, need: nat, skip: nat, chosen: nat) returns (s': State)
    requires Proper(cfg) && AllReady(cfg, s) && s.queue == []
    requires Issues(cfg, op, issued, need) && |cfg.route(op.bucket)| == cfg.n
    requires skip + need <= issued && skip + chosen < issued
    ensures AllReady(cfg, s') && s'.queue == [] && s.log <= s'.log && |s'.log| == |s.log| + issued - skip
    ensures |s'.commands| == |s.commands| + 1 && s'.commands[..|s.commands|] == s.commands
    ensures CameBack(cfg, s', |s.commands|, op, issued, skip, |s.log|)
    ensures s'.commands[|s.commands|].chosen == chosen
  {
    var c := |s.commands|;
    var u := Issue(cfg, s, op, issued, need);
    ReachableWell(cfg, u);
    NewTasks(cfg, u, c);
    var v := DoAll(cfg, u, c, skip);
    s' := OneStep(cfg, v, ReadOk(c, chosen));
    forall i: nat | i < issued - skip ensures DoneAt(u, v, c, skip, i) && AnsweredBy(cfg, s', c, i, |s.log|, skip) {
      AnswerPlace(cfg, u, v, c, skip, i);
    }
    OthersSame(s, u, v, s', c);
  }

  lemma OthersSame(s: State, u: State, v: State, s': State, c: nat)
    requires c == |s.commands| < |u.commands| == |v.commands| && u.commands[..c] == s.commands
    requires forall d | 0 <= d < |u.commands| && d != c :: v.commands[d] == u.commands[d]
    requires |s'.commands| == |v.commands| && s'.commands == v.commands[c := s'.commands[c]]
    ensures s'.commands[..c] == s.commands
  {
    forall d | 0 <= d < c ensures s'.commands[d] == s.commands[d] {
      assert u.commands[..c][d] == u.commands[d];
    }
  }

  lemma AnswerPlace(cfg: Config, u: State, v: State, c: nat, skip: nat, i: nat)
    requires c < |u.commands| && c < |v.commands| && skip + i < |u.queue| && u.commands[c].replies == []
    requires u.queue == TasksOf(u.commands[c]) && SameCommand(u.commands[c], v.commands[c])
    requires i < |v.commands[c].replies| && |u.log| + i < |v.log| && DoneAt(u, v, c, skip, i)
    requires skip + i < |cfg.route(u.commands[c].op.bucket)|
    requires u.tasks[u.queue[skip + i]].host == HostOf(cfg, u.commands[c], u.queue[skip + i])
    ensures AnsweredBy(cfg, v, c, i, |u.log|, skip)
  {
  }

  // A save that W servers took, and then a read that all hosts from place skip
  // on answered, with nothing in between.
  lemma SaveAndRead(cfg: Config, save: Op, read: Op, need: nat, skip: nat, chosen: nat) returns (s: State)
    requires Proper(cfg) && cfg.threads > 0 && save.HSet? && Reads(read, save)
    requires |cfg.route(save.bucket)| == cfg.n && Issues(cfg, read, cfg.n, need)
    requires skip + need <= cfg.n && skip + chosen < cfg.n
    ensures Reachable(cfg, s) && |s.log| == cfg.w + cfg.n - skip
    ensures CameBack(cfg, s, 0, save, cfg.w, 0, 0) && CameBack(cfg, s, 1, read, cfg.n, skip, cfg.w)
    ensures s.commands[1].chosen == chosen && ReadsAfter(s, 0, 1, save.field)
  {
    var s0 := FirstState(cfg);
    var s1 := Call(cfg, s0, save, cfg.w, cfg.w, 0, 0);
    s := Call(cfg, s1, read, cfg.n, need, skip, chosen);
    assert s.commands[0] == s.commands[..1][0] == s1.commands[0];
    forall i: nat | i < cfg.w ensures AnsweredBy(cfg, s, 0, i, 0, 0) {
      assert AnsweredBy(cfg, s1, 0, i, 0, 0) && s.log[i] == s1.log[i];
    }
    OpsLogged(cfg, s, save, read, skip);
  }

  // A load or an exist check of what the save wrote, or of its bucket.
  predicate Reads(read: Op, save: Op)
    requires save.HSet?
  {
    read in {HGet(save.bucket, save.field), HExists(save.bucket, save.field), Exists(save.bucket)}
  }

  // Entry after entry of the log.
  lemma OpsLogged(cfg: Config, s: State, save: Op, load: Op, skip: nat)
    requires CameBack(cfg, s, 0, save, cfg.w, 0, 0) && CameBack(cfg, s, 1, load, cfg.n, skip, cfg.w)
    requires |s.log| == cfg.w + cfg.n - skip
    ensures forall p | 0 <= p < cfg.w :: s.log[p].op == save && s.log[p].host == cfg.route(save.bucket)[p]
    ensures forall p | cfg.w <= p < |s.log| ::
      s.log[p].op == load && s.log[p].host == cfg.route(load.bucket)[skip + (p - cfg.w)]
  {
    forall p | 0 <= p < cfg.w ensures s.log[p].op == save && s.log[p].host == cfg.route(save.bucket)[p] {
      assert AnsweredBy(cfg, s, 0, p, 0, 0);
    }
    forall p | cfg.w <= p < |s.log|
      ensures s.log[p].op == load && s.log[p].host == cfg.route(load.bucket)[skip + (p - cfg.w)]
    {
      assert AnsweredBy(cfg, s, 1, p - cfg.w, cfg.w, skip);
    }
  }

  // ----------------------------------------------------------- what they show

  lemma {:induction false} NeverKept(log: seq<Exchange>, host: int, bucket: string, field: string)
    requires forall p | 0 <= p < |log| && log[p].host == host :: !Changes(log[p].op, bucket, field)
    ensures Kept(log, host, bucket, field) == None
  {
    if log != [] {
      NeverKept(log[..|log| - 1], host, bucket, field);
    }
  }

  // With W < N a load may choose the answer of a server that never saw the save.
  lemma MissedSave(cfg: Config, save: Op, load: Op) returns (s: State)
    requires Proper(cfg) && cfg.threads > 0 && save.HSet? && load == HGet(save.bucket, save.field)
    requires |cfg.route(save.bucket)| == cfg.n && cfg.w < cfg.n
    ensures Reachable(cfg, s) && |s.commands| > 1 && ReadsAfter(s, 0, 1, save.field)
    ensures s.commands[0].op == save && s.commands[1].op == load
    ensures var k := s.commands[1]; k.chosen < |k.replies| && k.replies[k.chosen].reply == Missing
  {
    s := SaveAndRead(cfg, save, load, cfg.r, 0, cfg.w);
    ReachableWell(cfg, s);
    MissedReply(cfg, s, save, load);
  }

  lemma MissedReply(cfg: Config, s: State, save: Op, load: Op)
    requires Proper(cfg) && Inv(cfg, s) && save.HSet? && load == HGet(save.bucket, save.field) && cfg.w < cfg.n
    requires CameBack(cfg, s, 0, save, cfg.w, 0, 0) && CameBack(cfg, s, 1, load, cfg.n, 0, cfg.w)
    requires |s.log| == cfg.w + cfg.n
    ensures s.commands[1].replies[cfg.w].reply == Missing
  {
    assert AnsweredBy(cfg, s, 1, cfg.w, cfg.w, 0);
    assert GivenAt(cfg, s, 1, cfg.w) by { ReadsWhatServersSaid(cfg, s, 1); }
    OpsLogged(cfg, s, save, load, 0);
    UntouchedHost(cfg, s, save, load);
  }

  // The host at place W was asked by the load only.
  lemma UntouchedHost(cfg: Config, s: State, save: Op, load: Op)
    requires Proper(cfg) && save.HSet? && load == HGet(save.bucket, save.field)
    requires cfg.w < cfg.n == |cfg.route(save.bucket)| && cfg.w + cfg.w <= |s.log|
    requires forall p | 0 <= p < cfg.w :: s.log[p].op == save && s.log[p].host == cfg.route(save.bucket)[p]
    requires forall p | cfg.w <= p < |s.log| :: s.log[p].op == load
    ensures Kept(s.log[..cfg.w + cfg.w], cfg.route(save.bucket)[cfg.w], save.bucket, save.field) == None
  {
    NeverKept(s.log[..cfg.w + cfg.w], cfg.route(save.bucket)[cfg.w], save.bucket, save.field);
  }

  // With R + W <= N a save and a later load may have no server in common.
  lemma NoCommonHost(cfg: Config, save: Op, load: Op) returns (s: State)
    requires Proper(cfg) && cfg.threads > 0 && save.HSet? && load == HGet(save.bucket, save.field)
    requires |cfg.route(save.bucket)| == cfg.n && cfg.r + cfg.w <= cfg.n
    ensures Reachable(cfg, s) && |s.commands| > 1 && ReadsAfter(s, 0, 1, save.field)
    ensures s.commands[0].op == save && s.commands[1].op == load
    ensures !Meet(s, 0, 1)
  {
    s := SaveAndRead(cfg, save, load, cfg.r, cfg.w, 0);
    var w, hosts := cfg.w, cfg.route(save.bucket);
    forall i: nat, j: nat | i < |s.commands[0].replies| && j < |s.commands[1].replies|
      ensures !SameHost(s, 0, i, 1, j)
    {
      assert AnsweredBy(cfg, s, 0, i, 0, 0) && AnsweredBy(cfg, s, 1, j, w, w);
    }
  }

  // Some server gave a counted answer of both.
  ghost predicate Meet(s: State, a: nat, b: nat)
    requires a < |s.commands| && b < |s.commands|
  {
    exists i: nat, j: nat ::
      && i < |s.commands[a].replies| && j < |s.commands[b].replies|
      && i < s.commands[a].seen && j < s.commands[b].seen && SameHost(s, a, i, b, j)
  }

  // A save and a load of one blob, the one after the other, both OK.
  ghost predicate SavedAndLoaded(cfg: Config, s: State, a: nat, b: nat, save: Op)
    requires Proper(cfg)
  {
    && Reachable(cfg, s) && save.HSet? && ReadsAfter(s, a, b, save.field)
    && s.commands[a].op == save && s.commands[b].op == HGet(save.bucket, save.field)
  }

  // They meet in every run if and only if R + W > N.
  lemma MeetingRule(cfg: Config, save: Op)
    requires Proper(cfg) && cfg.threads > 0 && save.HSet? && |cfg.route(save.bucket)| == cfg.n
    ensures (forall s, a: nat, b: nat :: SavedAndLoaded(cfg, s, a, b, save) ==> Meet(s, a, b))
            <==> cfg.r + cfg.w > cfg.n
  {
    if cfg.r + cfg.w > cfg.n {
      forall s, a: nat, b: nat | SavedAndLoaded(cfg, s, a, b, save) ensures Meet(s, a, b) {
        var i, j := SavedIsLoaded(cfg, s, a, b, save.field, save.value);
      }
    } else {
      var s := NoCommonHost(cfg, save, HGet(save.bucket, save.field));
      assert SavedAndLoaded(cfg, s, 0, 1, save) && !Meet(s, 0, 1);
    }
  }

  ghost predicate Returns(k: Command, value: string) {
    k.chosen < |k.replies| && k.replies[k.chosen].reply == Found(value)
  }

  // The load returns the saved value in every run if and only if W = N.
  lemma LoadRule(cfg: Config, save: Op)
    requires Proper(cfg) && cfg.threads > 0 && save.HSet? && |cfg.route(save.bucket)| == cfg.n
    ensures (forall s, a: nat, b: nat :: SavedAndLoaded(cfg, s, a, b, save) ==> Returns(s.commands[b], save.value))
            <==> cfg.w == cfg.n
  {
    if cfg.w == cfg.n {
      forall s, a: nat, b: nat | SavedAndLoaded(cfg, s, a, b, save)
        ensures Returns(s.commands[b], save.value)
      {
        ReachableWell(cfg, s);
        ReadsWhatServersSaid(cfg, s, a);
        SavedEverywhere(cfg, s, a, b, save.field, save.value);
      }
    } else {
      var s := MissedSave(cfg, save, HGet(save.bucket, save.field));
      assert SavedAndLoaded(cfg, s, 0, 1, save) && !Returns(s.commands[1], save.value);
    }
  }

  // --------------------------------------------------------- the exist check

  // With W < N an exist check may hear only from servers that never saw the save.
  lemma OverlookedSave(cfg: Config, save: Op, check: Op) returns (s: State)
    requires Proper(cfg) && cfg.threads > 0 && save.HSet? && Checks(check, save)
    requires |cfg.route(save.bucket)| == cfg.n && cfg.w < cfg.n
    ensures Reachable(cfg, s) && |s.commands| > 1 && ReadsAfter(s, 0, 1, save.field)
    ensures s.commands[0].op == save && s.commands[1].op == check && !s.commands[1].told
  {
    s := SaveAndRead(cfg, save, check, 1, cfg.w, 0);
    ReachableWell(cfg, s);
    AllOverlook(cfg, s, save, check);
    ReadsWhatServersSaid(cfg, s, 1);
  }

  lemma AllOverlook(cfg: Config, s: State, save: Op, check: Op)
    requires Proper(cfg) && Inv(cfg, s) && save.HSet? && Checks(check, save) && cfg.w < cfg.n
    requires CameBack(cfg, s, 0, save, cfg.w, 0, 0) && CameBack(cfg, s, 1, check, cfg.n, cfg.w, cfg.w)
    requires |s.log| == cfg.n
    ensures forall i | 0 <= i < |s.commands[1].replies| :: s.commands[1].replies[i].reply == Flag(false)
  {
    ReadsWhatServersSaid(cfg, s, 1);
    OpsLogged(cfg, s, save, check, cfg.w);
    forall i: nat | i < cfg.n - cfg.w ensures s.commands[1].replies[i].reply == Flag(false) {
      assert AnsweredBy(cfg, s, 1, i, cfg.w, cfg.w) && GivenAt(cfg, s, 1, i);
      EmptyHost(cfg, s, save, check, i);
    }
  }

  // The hosts behind place W were asked by the check only.
  lemma EmptyHost(cfg: Config, s: State, save: Op, check: Op, i: nat)
    requires Proper(cfg) && save.HSet? && Checks(check, save)
    requires cfg.w + i < cfg.n == |cfg.route(save.bucket)| && cfg.w + i <= |s.log|
    requires forall p | 0 <= p < cfg.w :: s.log[p].op == save && s.log[p].host == cfg.route(save.bucket)[p]
    requires forall p | cfg.w <= p < |s.log| :: s.log[p].op == check
    ensures Answer(s.log[..cfg.w + i], cfg.route(save.bucket)[cfg.w + i], check) == Flag(false)
  {
    var log, host := s.log[..cfg.w + i], cfg.route(save.bucket)[cfg.w + i];
    forall f ensures Kept(log, host, save.bucket, f) == None {
      NeverKept(log, host, save.bucket, f);
    }
  }

  predicate Checks(check: Op, save: Op)
    requires save.HSet?
  {
    check in {HExists(save.bucket, save.field), Exists(save.bucket)}
  }

  // A save, and later an exist check of the blob or of its bucket, both OK.
  ghost predicate SavedAndChecked(cfg: Config, s: State, a: nat, b: nat, save: Op, check: Op)
    requires Proper(cfg) && save.HSet?
  {
    && Reachable(cfg, s) && ReadsAfter(s, a, b, save.field)
    && s.commands[a].op == save && s.commands[b].op == check
  }

  // The check finds what was saved in every run if and only if W = N.
  lemma ExistRule(cfg: Config, save: Op, check: Op)
    requires Proper(cfg) && cfg.threads > 0 && save.HSet? && Checks(check, save)
    requires |cfg.route(save.bucket)| == cfg.n
    ensures (forall s, a: nat, b: nat :: SavedAndChecked(cfg, s, a, b, save, check) ==> s.commands[b].told)
            <==> cfg.w == cfg.n
  {
    if cfg.w == cfg.n {
      forall s, a: nat, b: nat | SavedAndChecked(cfg, s, a, b, save, check) ensures s.commands[b].told {
        ReachableWell(cfg, s);
        ReadsWhatServersSaid(cfg, s, a);
        ReadsWhatServersSaid(cfg, s, b);
        EveryReplyAfterAll(cfg, s, a, b, s.commands[b].chosen, save.field);
      }
    } else {
      var s := OverlookedSave(cfg, save, check);
      assert SavedAndChecked(cfg, s, 0, 1, save, check) && !s.commands[1].told;
    }
  }
}
