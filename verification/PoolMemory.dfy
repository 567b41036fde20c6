// The critical sections of the thread pool on its linked task queue and on the
// shared command record, each as the one step that it is for the other threads.
module PoolMemory {
  import opened Collections
  import opened Store
  import opened ThreadPool

  // The part of a command that its lock protects.
  class Shared {
    var successNum: nat
    var exist: bool
    var refNum: int
    var doingNum: nat
    const blob: array<string>    // the i-th task that succeeds writes to cell i

    constructor (n: nat)
      ensures successNum == 0 && !exist && refNum == 1 && doingNum == 0
      ensures fresh(blob) && blob.Length == n
    {
      successNum, exist, refNum, doingNum := 0, false, 1, 0;
      blob := new string[n](_ => "");
    }

    // The command holds the answers of these tasks.
    ghost predicate Holds(k: Command)
      reads this, blob
    {
      && successNum == k.successNum == |k.replies| && exist == k.exist
      && refNum == k.refNum && doingNum == k.doingNum
      && forall i | 0 <= i < |k.replies| && k.replies[i].reply.Found? && i < blob.Length ::
          blob[i] == k.replies[i].reply.value
    }

    // An answer is written back: found is the blob of a load, if there is one.
    method WriteResult(yes: bool, found: Option<string>, ghost k: Command, ghost r: Written)
      requires Holds(k) && successNum < blob.Length
      requires (yes <==> r.reply == Flag(true)) && (r.reply.Found? ==> found == Some(r.reply.value))
      modifies this, blob
      ensures Holds(WithReply(k, r))
      ensures forall i | 0 <= i < blob.Length && i != old(successNum) :: blob[i] == old(blob[i])
    {
      var n := successNum;
      successNum := n + 1;
      exist := exist || yes;
      if found.Some? {
        blob[n] := found.value;
      }
    }

    // The reader takes a result when there are enough answers: the flag, and the
    // answer that was drawn.
    method TryRead(need: nat, chosen: nat, ghost k: Command) returns (ok: bool, yes: bool, content: string)
      requires Holds(k) && chosen < blob.Length && (k.successNum >= need ==> chosen < k.successNum)
      ensures ok <==> k.successNum >= need
      ensures ok ==> yes == k.exist
      ensures ok && k.replies[chosen].reply.Found? ==> content == k.replies[chosen].reply.value
    {
      if successNum >= need {
        return true, exist, blob[chosen];
      }
      return false, false, "";
    }

    // One reference less; freed tells that it was the last one.
    method Release(ghost k: Command) returns (freed: bool)
      requires Holds(k)
      modifies this`refNum
      ensures Holds(Unreferenced(k)) && Unreferenced(k).frees == k.frees + if freed then 1 else 0
    {
      refNum := refNum - 1;
      freed := refNum == 0;
    }
  }

  // A task in the queue.
  class Job {
    const command: Shared
    const host: int
    var next: Job?
    ghost const task: nat        // its number

    constructor (host: int, command: Shared, ghost task: nat)
      modifies command`refNum
      ensures this.host == host && this.command == command && next == null && this.task == task
      ensures command.refNum == old(command.refNum) + 1
    {
      this.host, this.command, this.next, this.task := host, command, null, task;
      new;
      command.refNum := command.refNum + 1;
    }
  }

  // The jobs hang together in this order.
  ghost predicate Chain(first: Job?, jobs: seq<Job>)
    reads jobs
  {
    && first == (if jobs == [] then null else jobs[0])
    && (forall i {:trigger jobs[i].next} | 0 <= i < |jobs| :: jobs[i].next == Follows(jobs, null, i))
    && forall i, j | 0 <= i < j < |jobs| :: jobs[i] != jobs[j]
  }

  // The tasks of a command, linked in the order of their hosts.
  method BuildTasks(ipNum: nat, ip: seq<int>, command: Shared, ghost number: nat)
    returns (first: Job, ghost jobs: seq<Job>)
    requires 1 <= ipNum <= |ip|
    modifies command`refNum
    ensures Chain(first, jobs) && fresh(jobs) && |jobs| == ipNum
    ensures forall i | 0 <= i < ipNum ::
      jobs[i].host == ip[i] && jobs[i].command == command && jobs[i].task == number + i
    ensures command.refNum == old(command.refNum) + ipNum
  {
    first := new Job(ip[0], command, number);
    jobs := [first];
    var last := first;
    var i := 1;
    while i < ipNum
      invariant 1 <= i <= ipNum == |jobs| + (ipNum - i)
      invariant Chain(first, jobs) && fresh(jobs) && last == jobs[i - 1]
      invariant forall j | 0 <= j < i ::
        jobs[j].host == ip[j] && jobs[j].command == command && jobs[j].task == number + j
      invariant command.refNum == old(command.refNum) + i
    {
      var job := new Job(ip[i], command, number + i);
      Link(last, job, jobs, [job]);
      jobs := jobs + [job];
      last := job;
      i := i + 1;
    }
  }

  // Hangs a chain behind the last job of another one.
  method Link(last: Job, job: Job, ghost a: seq<Job>, ghost b: seq<Job>)
    requires a != [] && last == a[|a| - 1] && Chain(a[0], a) && Chain(job, b)
    requires forall x | x in a :: x !in b
    modifies last`next
    ensures Chain(a[0], a + b)
  {
    last.next := job;
    ghost var all := a + b;
    forall i | 0 <= i < |all| ensures all[i].next == Follows(all, null, i) {
      if i < |a| {
        assert all[i] == a[i] && (i < |a| - 1 ==> a[i] != last);
      } else {
        assert all[i] == b[i - |a|] && b[i - |a|] in b && last in a;
      }
    }
    forall i, j | 0 <= i < j < |all| ensures all[i] != all[j] {
      if i < |a| <= j {
        assert a[i] in a && b[j - |a|] in b;
      }
    }
  }

  class Pool {
    var taskQueue: Job?
    var waitingTasksNum: int
    var idleThreadsNum: int
    ghost var queue: seq<Job>

    ghost predicate Valid()
      reads this, queue
    {
      Chain(taskQueue, queue) && waitingTasksNum == |queue|
    }

    // The queue and the counters are those of the state s.
    ghost predicate Shows(s: State)
      reads this
    {
      && |queue| == |s.queue| && (forall i | 0 <= i < |queue| :: queue[i].task == s.queue[i])
      && waitingTasksNum == s.waitingTasksNum && idleThreadsNum == s.idleThreadsNum
    }

    constructor ()
      ensures Valid() && queue == [] && idleThreadsNum == 0
    {
      taskQueue, waitingTasksNum, idleThreadsNum, queue := null, 0, 0, [];
    }

    // The walk to the last task.
    method LastJob() returns (p: Job)
      requires Valid() && taskQueue != null
      ensures queue != [] && p == queue[|queue| - 1]
    {
      p := taskQueue;
      ghost var i := 0;
      while p.next != null
        invariant 0 <= i < |queue| && p == queue[i]
        decreases |queue| - i
      {
        p := p.next;
        i := i + 1;
      }
      assert p.next == Follows(queue, null, i);
    }

    // One try to put the tasks of a command on the queue, with the lock held.
    method TryEnqueue(first: Job, ipNum: nat, ghost jobs: seq<Job>, ghost s: State, ghost c: nat) returns (done: bool)
      requires Valid() && Chain(first, jobs) && |jobs| == ipNum > 0
      requires forall x | x in queue :: x !in jobs
      requires Shows(s) && c < |s.commands| && ipNum == s.commands[c].issued
      requires forall i | 0 <= i < ipNum :: jobs[i].task == s.commands[c].first + i
      modifies this, queue
      ensures Valid() && Shows(if done then Enqueued(s, c) else s)
      ensures done <==> s.waitingTasksNum < 15
      ensures queue == if done then old(queue) + jobs else old(queue)
    {
      if waitingTasksNum >= MAX_WAITING_TASKS_NUM {
        return false;
      }
      if taskQueue != null {
        var p := LastJob();
        Link(p, first, queue, jobs);
      } else {
        taskQueue := first;
        assert queue + jobs == jobs;
      }
      queue := queue + jobs;
      waitingTasksNum := waitingTasksNum + ipNum;
      done := true;
    }

    // One pass of a worker through its critical section: without a task it has
    // to wait, and counts as idle from its first pass on; else it takes the
    // first task, and must signal when there are more.
    method Pass(runonce: bool, ghost s: State, ghost w: nat) returns (task: Job?, shouldSignal: bool)
      requires Valid() && Shows(s) && w < |s.workers| && (runonce <==> s.workers[w] == Ready)
      requires s.queue != [] ==> s.queue[0] < |s.tasks| && s.tasks[s.queue[0]].command < |s.commands|
      modifies this, set x: Job | x in queue :: x.command
      ensures Valid() && Shows(Locked(s, w))
      ensures task == null <==> Locked(s, w).workers[w] == Parked
      ensures task == null ==> !shouldSignal && queue == old(queue)
      ensures task != null ==>
        && task == old(queue)[0] && queue == old(queue)[1..] && task.task == s.queue[0]
        && (shouldSignal <==> Locked(s, w).workers[w].Signalling?) && (shouldSignal <==> |old(queue)| > 1)
        && task.command.doingNum == old(task.command.doingNum) + 1
    {
      if taskQueue == null {
        if runonce {
          idleThreadsNum := idleThreadsNum + 1;
        }
        return null, false;
      }
      task := taskQueue;
      assert task.next == Follows(queue, null, 0);
      waitingTasksNum := waitingTasksNum - 1;
      taskQueue := task.next;
      shouldSignal := taskQueue != null;
      idleThreadsNum := idleThreadsNum - 1;
      task.command.doingNum := task.command.doingNum + 1;
      ghost var q := queue;
      queue := q[1..];
      forall i | 0 <= i < |queue| ensures queue[i].next == Follows(queue, null, i) {
        assert queue[i] == q[i + 1] && q[i + 1].next == Follows(q, null, i + 1);
      }
    }
  }
}
