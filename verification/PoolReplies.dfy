// The answers of a command: which task wrote them back, and what the servers
// had done by then.
module PoolReplies {
  import opened Collections
  import opened Store
  import opened ThreadPool
  import opened PoolInvariants
  import opened PoolReferences

  // Every exchange was done for a task, at its host, after its command began.
  ghost predicate Logged(s: State) {
    && (forall i | 0 <= i < |s.log| :: LoggedAt(s, i))
    && (forall c | 0 <= c < |s.commands| :: s.commands[c].began <= |s.log|)
  }

  ghost predicate LoggedAt(s: State, i: nat)
    requires i < |s.log|
  {
    var e := s.log[i];
    && e.task < |s.tasks| && s.tasks[e.task].command < |s.commands|
    && e.host == s.tasks[e.task].host && e.op == s.commands[s.tasks[e.task].command].op
    && e.reply == Answer(s.log[..i], e.host, e.op)
    && s.commands[s.tasks[e.task].command].began <= i
  }

  // Task t wrote its answer back.
  predicate WroteBack(s: State, t: nat) {
    && t < |s.tasks|
    && (s.tasks[t].status == Freed ||
        (s.tasks[t].status.Held? && s.tasks[t].status.worker < |s.workers|
         && s.workers[s.tasks[t].status.worker] == Stored(t)))
  }

  predicate Proven(s: State, c: nat, r: Written) {
    && r.task < |s.tasks| && s.tasks[r.task].command == c && WroteBack(s, r.task)
    && r.at < |s.log| && s.log[r.at].task == r.task && s.log[r.at].reply == r.reply
  }

  // The slots of a command hold one answer for each task that wrote back, and
  // a worker with an answer knows where it comes from.
  ghost predicate Answering(s: State) {
    Slots(s) && Recalled(s) && Sourced(s)
  }

  ghost predicate Slots(s: State) {
    forall c | 0 <= c < |s.commands| :: AnsweringAt(s, c)
  }

  ghost predicate Recalled(s: State) {
    forall t | 0 <= t < |s.tasks| && WroteBack(s, t) ::
      s.tasks[t].command < |s.commands| && InReplies(s.commands[s.tasks[t].command], t)
  }

  ghost predicate Sourced(s: State) {
    forall w | 0 <= w < |s.workers| && s.workers[w].Answered? ::
      s.workers[w].at < |s.log| && s.log[s.workers[w].at].task == s.workers[w].task
  }

  predicate InReplies(k: Command, t: nat) {
    exists i :: 0 <= i < |k.replies| && k.replies[i].task == t
  }

  ghost predicate AnsweringAt(s: State, c: nat)
    requires c < |s.commands|
  {
    var k := s.commands[c];
    && k.successNum == |k.replies|
    && (forall i | 0 <= i < |k.replies| :: Proven(s, c, k.replies[i]))
    && (forall i, j | 0 <= i < j < |k.replies| :: k.replies[i].task != k.replies[j].task)
    && (k.exist <==> exists i :: 0 <= i < |k.replies| && k.replies[i].reply == Flag(true))
    && (Returning(k) ==> ReadAt(s, k))
  }

  predicate Returning(k: Command) {
    k.phase == Releasing || k.phase == Succeeded
  }

  // A reader that succeeds saw enough answers, all given before it returned.
  ghost predicate ReadAt(s: State, k: Command) {
    && k.need <= k.seen <= |k.replies| && k.chosen < k.seen
    && k.returned <= |s.log|
    && (forall i | 0 <= i < k.seen :: k.replies[i].at < k.returned)
    && (k.told <==> exists i :: 0 <= i < k.seen && k.replies[i].reply == Flag(true))
  }

  // ------------------------------------------------------------------- log

  // Commands and tasks keep their records, and only new ones come in.
  ghost predicate Extends(s: State, s': State) {
    && |s.commands| <= |s'.commands| && |s.tasks| <= |s'.tasks|
    && (forall c | 0 <= c < |s.commands| :: SameCommand(s.commands[c], s'.commands[c]))
    && (forall t | 0 <= t < |s.tasks| :: SameTask(s.tasks[t], s'.tasks[t]))
  }

  lemma StepExtends(cfg: Config, s: State, step: Step)
    requires Proper(cfg) && Taken(s) && Enabled(cfg, s, step)
    ensures Extends(s, Apply(cfg, s, step))
  {
    if step.Enqueue? || step.Abandon? {
      Handover(cfg, s, step);
    } else if !step.Begin? {
      NoHandover(cfg, s, step);
    }
  }

  // A server did the exchange of task t.
  ghost predicate OneMore(s: State, s': State) {
    exists t ::
      && 0 <= t < |s.tasks| && s.tasks[t].command < |s.commands|
      && s'.log == s.log + [Exchanged(s, t)]
  }

  lemma LoggedSame(s: State, s': State)
    requires Logged(s) && Extends(s, s') && (s'.log == s.log || OneMore(s, s'))
    requires forall c | |s.commands| <= c < |s'.commands| :: s'.commands[c].began <= |s.log|
    ensures Logged(s')
  {
    forall i | 0 <= i < |s'.log| ensures LoggedAt(s', i) {
      if i < |s.log| {
        assert LoggedAt(s, i) && s'.log[i] == s.log[i] && s'.log[..i] == s.log[..i];
      } else {
        assert s'.log[..i] == s.log;
      }
    }
  }

  lemma LoggedKept(cfg: Config, s: State, step: Step)
    requires Proper(cfg) && Taken(s) && Logged(s) && Enabled(cfg, s, step)
    ensures Logged(Apply(cfg, s, step))
  {
    var s' := Apply(cfg, s, step);
    StepExtends(cfg, s, step);
    LogGrows(cfg, s, step);
    LoggedSame(s, s');
  }

  lemma LogGrows(cfg: Config, s: State, step: Step)
    requires Proper(cfg) && Enabled(cfg, s, step)
    ensures var s' := Apply(cfg, s, step);
            && (s'.log == s.log || OneMore(s, s'))
            && forall c | |s.commands| <= c < |s'.commands| :: s'.commands[c].began <= |s.log|
  {
    var s' := Apply(cfg, s, step);
    if step.Serve? {
      assert s'.log == s.log + [Exchanged(s, s.workers[step.w].task)];
    } else if step.ServeFail? && step.done {
      assert s'.log == s.log + [Exchanged(s, s.workers[step.w].task)];
    }
  }

  // ----------------------------------------------------------------- answers

  // The same tasks have written back.
  ghost predicate SameWriters(s: State, s': State) {
    forall t: nat :: WroteBack(s', t) <==> WroteBack(s, t)
  }

  ghost predicate SameReplies(k: Command, k': Command) {
    && k'.successNum == k.successNum && k'.exist == k.exist && k'.replies == k.replies
    && (Returning(k') ==> (
          && Returning(k) && k'.seen == k.seen && k'.chosen == k.chosen
          && k'.told == k.told && k'.returned == k.returned))
  }

  ghost predicate NoReplies(k: Command) {
    k.successNum == 0 && !k.exist && k.replies == [] && !Returning(k)
  }

  ghost predicate SlotsStay(s: State, s': State) {
    && Extends(s, s') && s.log <= s'.log
    && (forall c | 0 <= c < |s.commands| :: SameReplies(s.commands[c], s'.commands[c]))
    && (forall c | |s.commands| <= c < |s'.commands| :: NoReplies(s'.commands[c]))
  }

  lemma SlotsSame(s: State, s': State)
    requires Slots(s) && Recalled(s) && SlotsStay(s, s') && SameWriters(s, s')
    ensures Slots(s') && Recalled(s')
  {
    forall c | 0 <= c < |s'.commands| ensures AnsweringAt(s', c) {
      if c < |s.commands| {
        assert AnsweringAt(s, c) && SameReplies(s.commands[c], s'.commands[c]);
        var k := s'.commands[c];
        forall i | 0 <= i < |k.replies| ensures Proven(s', c, k.replies[i]) {
          assert Proven(s, c, k.replies[i]);
        }
      } else {
        assert NoReplies(s'.commands[c]);
      }
    }
    forall t | 0 <= t < |s'.tasks| && WroteBack(s', t)
      ensures s'.tasks[t].command < |s'.commands| && InReplies(s'.commands[s'.tasks[t].command], t)
    {
      assert WroteBack(s, t);
      var c := s.tasks[t].command;
      assert SameReplies(s.commands[c], s'.commands[c]);
    }
  }

  lemma StaySlots(cfg: Config, s: State, step: Step)
    requires Proper(cfg) && Taken(s) && Enabled(cfg, s, step) && !step.WriteBack? && !step.ReadOk?
    ensures SlotsStay(s, Apply(cfg, s, step))
  {
    StepExtends(cfg, s, step);
  }

  // Workers move, but none comes to or leaves the state after writing back.
  ghost predicate StoredStay(s: State, s': State) {
    && s'.tasks == s.tasks && |s'.workers| == |s.workers|
    && forall w | 0 <= w < |s.workers| && (s.workers[w].Stored? || s'.workers[w].Stored?) ::
        s'.workers[w] == s.workers[w]
  }

  lemma WritersMove(s: State, s': State)
    requires StoredStay(s, s')
    ensures SameWriters(s, s')
  {
  }

  lemma MovesOnly(cfg: Config, s: State, step: Step)
    requires Proper(cfg) && Enabled(cfg, s, step) && Holding(step) && !step.WriteBack?
    ensures StoredStay(s, Apply(cfg, s, step))
  {
  }

  lemma WritersBegin(cfg: Config, s: State, op: Op, issued: nat, need: nat)
    requires issued <= |cfg.route(op.bucket)|
    ensures SameWriters(s, Begun(cfg, s, op, issued, need))
  {
  }

  lemma WritersHandover(cfg: Config, s: State, s': State, c: nat, status: Status)
    requires Recorded(cfg, s) && c < |s.commands| && s.commands[c].phase == Enqueueing
    requires s'.tasks == Marked(s.tasks, c, status) && status in {Queued, Lost} && s'.workers == s.workers
    ensures SameWriters(s, s')
  {
    forall t: nat | t < |s.tasks| ensures WroteBack(s', t) <==> WroteBack(s, t) {
      if s.tasks[t].command == c {
        assert s.tasks[t].status == Fresh;
      }
    }
  }

  lemma WritersLock(cfg: Config, s: State, w: nat)
    requires Taken(s) && Enabled(cfg, s, Lock(w))
    ensures SameWriters(s, Locked(s, w))
  {
    var s' := Locked(s, w);
    forall t: nat | t < |s.tasks| ensures WroteBack(s', t) <==> WroteBack(s, t) {
      if s.queue != [] && t == s.queue[0] {
        assert t in s.queue;
      } else {
        assert s'.tasks[t] == s.tasks[t];
      }
    }
  }

  lemma WritersRelease(cfg: Config, s: State, step: Step)
    requires Proper(cfg) && Taken(s) && Enabled(cfg, s, step) && (step.ServeFail? || step.WriteFail? || step.FreeTask?)
    ensures SameWriters(s, Apply(cfg, s, step))
  {
    var s', u := Apply(cfg, s, step), s.workers[step.w].task;
    forall t: nat | t < |s.tasks| ensures WroteBack(s', t) <==> WroteBack(s, t) {
      if t != u {
        assert s'.tasks[t] == s.tasks[t];
      }
    }
  }

  lemma WritersStay(cfg: Config, s: State, step: Step)
    requires Proper(cfg) && Recorded(cfg, s) && Taken(s) && Enabled(cfg, s, step) && !step.WriteBack?
    ensures SameWriters(s, Apply(cfg, s, step))
  {
    var s' := Apply(cfg, s, step);
    if step.Begin? {
      WritersBegin(cfg, s, step.op, step.issued, step.need);
    } else if step.Enqueue? {
      WritersHandover(cfg, s, s', step.c, Queued);
    } else if step.Abandon? {
      WritersHandover(cfg, s, s', step.c, Lost);
    } else if step.Lock? {
      WritersLock(cfg, s, step.w);
    } else if Holding(step) {
      MovesOnly(cfg, s, step);
      WritersMove(s, s');
    } else {
      WritersRelease(cfg, s, step);
    }
  }

  // The worker writes the answer of its task back.
  lemma WritersMore(cfg: Config, s: State, w: nat, t: nat)
    requires Taken(s) && Enabled(cfg, s, WriteBack(w))
    ensures WroteBack(WrittenBack(s, w), t) <==> WroteBack(s, t) || t == s.workers[w].task
  {
  }

  lemma ProvenStill(cfg: Config, s: State, w: nat, c: nat, r: Written)
    requires Taken(s) && Enabled(cfg, s, WriteBack(w)) && Proven(s, c, r)
    ensures Proven(WrittenBack(s, w), c, r) && r.task != s.workers[w].task
  {
    WritersMore(cfg, s, w, r.task);
  }

  lemma SlotsWriteBack(cfg: Config, s: State, w: nat, d: nat)
    requires Recorded(cfg, s) && Taken(s) && Answering(s) && Enabled(cfg, s, WriteBack(w))
    requires d < |s.commands|
    ensures AnsweringAt(WrittenBack(s, w), d)
  {
    var s', t := WrittenBack(s, w), s.workers[w].task;
    var k, k' := s.commands[d], s'.commands[d];
    assert AnsweringAt(s, d);
    forall i | 0 <= i < |k.replies|
      ensures Proven(s', d, k.replies[i]) && k.replies[i].task != t && k'.replies[i] == k.replies[i]
    {
      ProvenStill(cfg, s, w, d, k.replies[i]);
    }
    if d == s.tasks[t].command {
      WritersMore(cfg, s, w, t);
      SlotMore(s', d, k, k'.replies[|k.replies|]);
    }
  }

  // One proven answer more in the slots of command d.
  lemma SlotMore(s': State, d: nat, k: Command, r: Written)
    requires d < |s'.commands| && s'.commands[d] == WithReply(k, r)
    requires k.successNum == |k.replies| && Proven(s', d, r)
    requires forall i | 0 <= i < |k.replies| :: Proven(s', d, k.replies[i]) && k.replies[i].task != r.task
    requires forall i, j | 0 <= i < j < |k.replies| :: k.replies[i].task != k.replies[j].task
    requires k.exist <==> exists i :: 0 <= i < |k.replies| && k.replies[i].reply == Flag(true)
    requires Returning(k) ==> ReadAt(s', k)
    ensures AnsweringAt(s', d)
  {
    var k' := s'.commands[d];
    FlagMore(k, r);
    if Returning(k) {
      ReadStays(s', k, r);
    }
  }

  lemma ReadStays(s': State, k: Command, r: Written)
    requires ReadAt(s', k)
    ensures ReadAt(s', WithReply(k, r))
  {
    var k' := WithReply(k, r);
    assert forall i | 0 <= i < k.seen :: k'.replies[i] == k.replies[i];
    if k.told {
      var i :| 0 <= i < k.seen && k.replies[i].reply == Flag(true);
      assert k'.replies[i].reply == Flag(true);
    }
  }

  lemma RecalledWriteBack(cfg: Config, s: State, w: nat)
    requires Recorded(cfg, s) && Taken(s) && Answering(s) && Enabled(cfg, s, WriteBack(w))
    ensures Recalled(WrittenBack(s, w))
  {
    var s', t := WrittenBack(s, w), s.workers[w].task;
    var c := s.tasks[t].command;
    forall u | 0 <= u < |s'.tasks| && WroteBack(s', u)
      ensures s'.tasks[u].command < |s'.commands| && InReplies(s'.commands[s'.tasks[u].command], u)
    {
      WritersMore(cfg, s, w, u);
      RepliesGrow(s.commands[c], Written(t, s.log[s.workers[w].at].reply, s.workers[w].at), u);
    }
  }

  lemma FlagMore(k: Command, r: Written)
    requires k.exist <==> exists i :: 0 <= i < |k.replies| && k.replies[i].reply == Flag(true)
    ensures var k' := WithReply(k, r);
            k'.exist <==> exists i :: 0 <= i < |k'.replies| && k'.replies[i].reply == Flag(true)
  {
    var k', n := WithReply(k, r), |k.replies|;
    assert k'.replies[n] == r;
    if k.exist {
      var i :| 0 <= i < n && k.replies[i].reply == Flag(true);
      assert k'.replies[i] == k.replies[i];
    }
    if i :| 0 <= i < |k'.replies| && k'.replies[i].reply == Flag(true) {
      if i < n {
        assert k'.replies[i] == k.replies[i];
      }
    }
  }

  lemma RepliesGrow(k: Command, r: Written, u: nat)
    ensures InReplies(WithReply(k, r), u) <==> InReplies(k, u) || u == r.task
  {
    var k', n := WithReply(k, r), |k.replies|;
    assert k'.replies[n] == r;
    if InReplies(k, u) {
      var i :| 0 <= i < n && k.replies[i].task == u;
      assert k'.replies[i] == k.replies[i];
    }
    if InReplies(k', u) {
      var i :| 0 <= i <= n && k'.replies[i].task == u;
      if i < n {
        assert k'.replies[i] == k.replies[i];
      }
    }
  }

  // A reader returns with what is in the slots.
  lemma SlotsReadOk(cfg: Config, s: State, c: nat, chosen: nat)
    requires Proper(cfg) && Answering(s) && Enabled(cfg, s, ReadOk(c, chosen))
    ensures Slots(ReadDone(s, c, chosen)) && Recalled(ReadDone(s, c, chosen))
  {
    var s' := ReadDone(s, c, chosen);
    forall d | 0 <= d < |s'.commands| ensures AnsweringAt(s', d) {
      assert AnsweringAt(s, d);
      var k := s.commands[d];
      forall i | 0 <= i < |k.replies| ensures Proven(s', d, k.replies[i]) {
        assert Proven(s, d, k.replies[i]);
      }
    }
    forall t | 0 <= t < |s'.tasks| && WroteBack(s', t)
      ensures s'.tasks[t].command < |s'.commands| && InReplies(s'.commands[s'.tasks[t].command], t)
    {
      assert WroteBack(s, t) && s'.commands[s.tasks[t].command].replies == s.commands[s.tasks[t].command].replies;
    }
  }

  lemma SourcedKept(cfg: Config, s: State, step: Step)
    requires Proper(cfg) && Sourced(s) && Enabled(cfg, s, step)
    ensures Sourced(Apply(cfg, s, step))
  {
  }

  lemma AnsweringKept(cfg: Config, s: State, step: Step)
    requires Proper(cfg) && Recorded(cfg, s) && Taken(s) && Answering(s) && Enabled(cfg, s, step)
    ensures Answering(Apply(cfg, s, step))
  {
    var s' := Apply(cfg, s, step);
    SourcedKept(cfg, s, step);
    if step.WriteBack? {
      RecalledWriteBack(cfg, s, step.w);
      forall d | 0 <= d < |s'.commands| ensures AnsweringAt(s', d) {
        SlotsWriteBack(cfg, s, step.w, d);
      }
    } else if step.ReadOk? {
      SlotsReadOk(cfg, s, step.c, step.chosen);
    } else {
      StaySlots(cfg, s, step);
      WritersStay(cfg, s, step);
      SlotsSame(s, s');
    }
  }
}
