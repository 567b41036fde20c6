# MailDB: proofs about the ring, the pool and the codecs

MailDB places every key on N of its Redis servers by consistent hashing, and
replicates each operation on them through a thread pool with R/W quorums. This
project models those two cores and the two codecs beside them, in Dafny 4.11,
and proves what the code is meant to guarantee. `dafny verify dfyconfig.toml`
checks everything.

| file | what it models |
|---|---|
| `RbShape.dfy`, `RbRules.dfy`, `RbRemoval.dfy` | red-black trees as values: a subtree at the end of a path, the links a tree asks of the memory, the rules, and what each round of the two fixups does to them |
| `RbTree.dfy` | `src/util_rbtree.c` on linked nodes with parent pointers and a shared sentinel |
| `RbStray.dfy`, `RbReuse.dfy` | the whole insert fixup as a value, whatever the root's parent field names, and runs of insertions and deletions that break the tree |
| `RbTravel.dfy` | the in-order visit and the tree's own check |
| `Servers.dfy`, `HashRing.dfy`, `RingPoints.dfy` | server records, the ring as an ascending sequence of points, and the tree read as a ring |
| `Conhash.dfy` | `src/conhash.c`, `src/conhash_inter.c` and `conhash_get_vnodes`: a linked list of servers and a tree of virtual nodes |
| `Store.dfy`, `ThreadPool.dfy` | the servers' data as a log of exchanges, and the pool with its clients as a system of atomic steps, one for each critical section of `src/threadpool.c`; the calls of `src/router.c` fix how many tasks are issued and how many answers are awaited |
| `PoolInvariants.dfy`, `PoolSignals.dfy`, `PoolReferences.dfy`, `PoolReplies.dfy`, `PoolWork.dfy`, `PoolRuns.dfy`, `PoolClients.dfy` | what every run of the pool keeps, and how long it can be |
| `PoolMemory.dfy` | the pool's critical sections on the linked queue and the shared command record |
| `Quorum.dfy`, `QuorumRuns.dfy` | why R + W > N makes a load meet a save, and runs that show what happens otherwise |
| `Md5.dfy` | the streaming part of `src/md5.c`, with the block function as a parameter, and its uses in the ring |
| `Text.dfy`, `Resp.dfy` | printf's numbers, and the Redis command stream with a server's reading of it |
| `Collections.dfy` | options, and a few facts about sequences and sets |

How to read the model:

- A tree is a memory (`RbNode` objects) and, as ghost state, the tree value that
  it holds. `Tree.Elements()` is the in-order sequence of node objects, so that
  every contract speaks of node identity and not of keys alone.
- `Tree.anchor` is what the root's parent field holds. After the deletion of a
  root with at most one child that is the removed node, black as every root.
  `Tree.Sound()` says that the memory holds a red-black search tree;
  `Tree.Valid()` says besides that the anchor is black and no node of the tree.
  Searches and deletions never follow that field, and are proved for every sound
  tree. The insert fixup does follow it, once it has carried a red node up to the
  root.
- The code fails when a removed root comes back. `util_rbtree_delete` leaves the
  new root's parent field naming the node it removed (src/util_rbtree.c:185-191).
  When that very node is inserted again, the field names a node of the tree. A
  later insertion breaks the rules if and only if `Tree.Overruns` holds before it:
  the root has become its own parent, and the fixup comes up to it.
  `RbReuse.RootReused` calls five insertions and one deletion that end in a tree
  with unequal black heights. `RbReuse.RootLost` calls insertions and deletions
  up to an insertion that would follow a null pointer; `Tree.Settles` shuts such
  insertions out. In the ring this is what happens when the
  allocator hands the block of a removed virtual node out again; new virtual
  nodes are new objects in the model.
- `util_rbtree_check` passes more than the trees it is meant for. What it skips
  is stated as two conditions, one for colors and heights and one for keys; a
  tree that passes is red-black, or ascending, if and only if it meets them.
- The ring's hash is a function parameter, and so are the block function of MD5,
  the choice of an answer, the outcome of every exchange, every wake-up and
  every interleaving.
- N, R, W and the number of threads are parameters. The main quorum result
  holds for all of them with R + W > N; the constants 3, 2, 2 are one case.
- Search loops return a ghost number of steps, which is bounded by
  2 * log2(n + 1) in the form `Pow2(steps) <= (n + 1) * (n + 1)`.
- The code and its comments disagree in two places. The comment of
  `conhash_lookup` speaks of at most C servers, while the loop collects N; the
  model has the number as a parameter. The comment of `__getExpectedAnswersNum`
  takes the idle counter for the number of idle threads; `IdleCounterExact` says
  when it is that number, and `IdleCounterDrifts` gives a run after which it is
  not.

## Model

| member | source | states |
|---|---|---|
| RbTree.Tree.constructor | src/util_rbtree.c:29-37 | the empty tree is valid, with a black sentinel as its root |
| RbTree.Tree.SubtreeMin | src/util_rbtree.c:39-45 | finds the first node in order of a subtree, and none exactly for the sentinel |
| RbTree.Tree.FindParent | src/util_rbtree.c:55-92 | the descent of insert ends at the leaf that separates the keys up to the new one from the greater keys, in every sound tree |
| RbTree.Tree.InsertFixup | src/util_rbtree.c:93-150 | ends, and keeps the in-order sequence of a tree with a new red leaf; the result is a red-black tree with a black root if and only if the red node does not come up to a root that is its own parent |
| RbTree.Tree.Insert | src/util_rbtree.c:55-150 | for every sound tree and every node not in it whose fixup does not get lost: the in-order sequence has exactly the given node more, behind all keys not greater than its own; links and rules hold again if and only if the fixup does not come to a root that is its own parent; the tree is the one that the fixup on values gives; the root's parent field names a black node outside the tree if and only if it did before and that was not the inserted node, or the tree was empty |
| RbStray.FixedRules | src/util_rbtree.c:93-150 | the fixup on values makes a red-black tree with a black root of a tree with a red leaf, and keeps its order |
| RbStray.StrayTurned | src/util_rbtree.c:96-147 | when the red root takes a node of the tree for its parent and that node's sibling is black, the round turns that node and the one above it, and keeps rules and order |
| RbStray.StrayRaised | src/util_rbtree.c:96-147 | when the sibling is red, the round paints three nodes and goes on from there; only the red node that it leaves may break a rule |
| RbStray.LeafRises | src/util_rbtree.c:93-147 | when the fixup of a new leaf comes up to the root and the root's parent field names that leaf, the leaf's sibling is black, and no harm is done |
| RbStray.OverrunRules | src/util_rbtree.c:96-147 | a red root that is its own parent is rotated below its right child: the order stays, and the black heights differ by one |
| RbReuse.RootReused | src/util_rbtree.c:55-256 | insert 10 and 20, delete 10, insert 10 again, 4 and 7: calls of insert and delete that end in 20 over 10 over 4 over 7, with unequal black heights at 20 and at 10 |
| RbReuse.RootLost | src/util_rbtree.c:55-256 | insert 10 and 20, delete 10, insert and delete 10 again, insert 5 and 30: a sound tree in which the insertion of 7 comes up to the root and meets there the removed node, red and without links, whose parent the code would follow |
| RbRules.RoundRules | src/util_rbtree.c:96-147 | one round of the insert loop keeps the order and moves the red node strictly up or ends the loop |
| RbRules.InsertKeepsOrder | src/util_rbtree.c:63-92 | a node put where the descent ended is where insertion into the sorted sequence puts it, and the order stays ascending |
| RbTree.Tree.DeleteFixup | src/util_rbtree.c:259-336 | ends, and makes a red-black tree of one in which a subtree lacks a black node, in all eight cases; the in-order sequence stays the same |
| RbTree.Tree.DeleteNode | src/util_rbtree.c:165-256 | in every sound tree: unlinks the chosen node, moves its follower into its place and repairs the rules, whether the node has none, one or two children, is the root or the follower's parent |
| RbTree.Tree.Delete | src/util_rbtree.c:153-256 | in every sound tree every rule holds again and the in-order sequence is the old one without exactly that node object; the removed node has no links, and the root's parent field names it when it was a root with at most one child; that field names a black node outside the tree if and only if the tree is empty, it was such a root, or the node that the field named was black and is no longer or was never in the tree |
| RbRemoval.SettledRules | src/util_rbtree.c:283-294 | the last rotation of a delete round restores the black heights with the colors that the code gives, and keeps the order |
| RbRemoval.PassedRules | src/util_rbtree.c:276-280 | painting the sibling red moves the lack of a black node one level up |
| RbRemoval.FacingRules | src/util_rbtree.c:267-275 | rotating away a red sibling keeps the rules and leaves a black sibling |
| RbRemoval.MoveUpRules | src/util_rbtree.c:198-249 | taking the follower out of the right subtree and putting it in the deleted node's place keeps order and rules up to the one black node that is then lacking |
| RbTree.Tree.RotateLeftAt | src/util_rbtree.c:338-368 | the pointer changes of a left rotation turn the memory of a tree into the memory of the rotated tree |
| RbTree.Tree.RotateRightAt | src/util_rbtree.c:370-400 | the same for a right rotation |
| RbTree.Tree.EqKey | src/util_rbtree.c:406-420 | in every sound tree: returns a node with the key, and none exactly when no node has it; the loop is bounded by 2 * log2(n + 1) |
| RbTree.Tree.GtKey | src/util_rbtree.c:427-451 | in every sound tree: returns the cyclic successor of the key among all nodes, in as few steps |
| RbTree.Tree.GeqKey | src/util_rbtree.c:458-482 | the same with the key itself included |
| RbRules.SearchedSuccessor | src/util_rbtree.c:431-448 | the last node at which the descent turned left is the first with a greater key, and without one the first node of all is returned |
| RbRules.Balanced | src/util_rbtree.c:55-150 | n + 1 >= 2^blackheight and depth <= 2 * blackheight in every valid tree |
| RbRules.DepthBound | src/util_rbtree.c:406-482 | hence no search takes more than 2 * log2(n + 1) steps |
| RbTravel.MidTravel | src/util_rbtree.c:580-593 | the visits write the keys in order, until the array is full, and touch no other cell |
| RbTravel.VerdictRules | src/util_rbtree.c:484-553 | in any subtree the check ends without a fault if and only if colors, red children, keys and black heights are right where it comes, which is not below a node without a left child |
| RbTravel.VerdictFault | src/util_rbtree.c:484-553 | the codes 2, 4 and 5 are reported only when a color, a red child or a key is wrong there |
| RbTravel.VerdictLevel | src/util_rbtree.c:541-552 | the code 3 is reported only when the black heights differ |
| RbTravel.CheckTree | src/util_rbtree.c:555-578 | on any tree the check returns 0 if and only if the tree passes in that sense, and then gives the black height of the leftmost branch and the depth of what it saw; it returns 1 exactly for a root that is not black, and 2 to 5 only for a fault of that kind |
| RbTravel.SoundPasses | src/util_rbtree.c:484-578 | every sound tree passes |
| RbTravel.PassesRules | src/util_rbtree.c:501-522 | a tree that passes is a red-black tree if and only if, below each node without a left child, there is nothing, or a red leaf below a black node |
| RbTravel.PassesOrder | src/util_rbtree.c:501-522 | a tree that passes has ascending keys if and only if the comparisons hold that the check does not make: with the last node of a left and the first of a right subtree, where they are not children, and everything below a node without a left child |
| RbTravel.SeenDepth | src/util_rbtree.c:540-553 | the depth that is reported for a red-black tree is short by one level at most |
| RbTravel.AllSeen | src/util_rbtree.c:540-553 | and it is exact when no node has a right child only |
| RbTravel.PassesWrongly | src/util_rbtree.c:516-519 | a tree that passes although its black heights differ and its keys are not ascending |
| RbTravel.PassesUnordered | src/util_rbtree.c:501-533 | a red-black tree that passes, and of which the check sees every node, although its keys are not ascending |
| HashRing.HostsComplete | src/conhash.c:162-214 | the hosts of a key are exactly min(n, number of running servers with a point) different running servers |
| HashRing.OneServerMore | src/conhash.c:91-144 | a server more or less costs a key at most one host; without it, the hosts of the larger ring are a prefix of those of the smaller one |
| HashRing.AddedServer | src/conhash.c:91-117 | so it is when a new server works: it takes over at most one host of a key, whatever points collide |
| HashRing.AddedIdle | src/conhash.c:91-117 | an idle server changes the hosts of no key |
| HashRing.StartedServer | src/conhash.c:74-86 | when a server that was on the ring starts to work, it takes over at most one host of a key |
| HashRing.StartedServers | src/conhash.c:74-86 | when several start, they take over no more hosts of a key than there are of them, and what is left is a prefix of the old hosts |
| HashRing.RemovedServer | src/conhash.c:120-144 | when a server is removed, a key hands over at most one host |
| HashRing.PlaceAllIn | src/conhash_inter.c:29-51 | every point that was on the ring stays there when a server's virtual nodes are added, even when hashes collide, and nothing else comes in |
| HashRing.DropAllDone | src/conhash_inter.c:53-77 | dropping all virtual nodes of a server leaves none of its points and all others |
| HashRing.AddThenRemove | src/conhash_inter.c:29-77 | adding a server with a fresh address and removing it again gives back the very same ring |
| RingPoints.NodeNameInjective | src/conhash_inter.h:43-44 | different virtual nodes have different names to hash, also from 2^31 on, where the number is printed as a negative one |
| RingPoints.NodeNameAddress | src/conhash_inter.h:43-44 | what is hashed begins with the address in lower-case hexadecimal, without leading zeros, up to the first dash |
| RingPoints.NodeNameForm | src/conhash_inter.h:43-44 | behind that dash the index stands in decimal with leading zeros to eight characters; from 2^31 on it is negative, and its sign is one of the eight |
| RingPoints.NodeNameSamples | src/conhash_inter.h:43-44 | virtual node 0 of the server 0xa is hashed as "a-00000000", the last one of 0x1f as "1f--0000001" |
| RingPoints.TurnedClockwise | src/conhash.c:179-181 | the search by >= starts the walk where the clockwise order from the hash starts |
| RingPoints.NextTurned | src/conhash.c:193-196 | from each node the search by > goes to the next one clockwise, through every node once, and then back to the first |
| RingPoints.WalkGoesOn | src/conhash.c:192-205 | the walk is back at its first node exactly when it has met all |
| Conhash.Ring.constructor | src/conhash.c:8-38 | a new ring is valid and empty |
| Conhash.Ring.AddReplicas | src/conhash_inter.c:29-51 | adds one point for each virtual node whose place is free, counted modulo 2^32 |
| Conhash.Ring.DelReplicas | src/conhash_inter.c:53-77 | removes the points of this server at its virtual nodes and no other point |
| Conhash.Ring.AddNode | src/conhash.c:91-117 | a known address changes nothing; a fresh one is appended idle with its points, and no lookup for any key and any number of hosts gives another result |
| Conhash.Ring.DelNode | src/conhash.c:120-144 | the server and all its points are gone, no virtual node refers to it, all others stay, and every key hands over at most one host |
| Conhash.Ring.GetNode | src/conhash.c:147-159 | returns the server with the address, and none exactly when there is none |
| Conhash.Ring.Reset | src/conhash.c:74-86 | the running servers are all servers of the list, and the points stay; every key hands over no more hosts than there were idle servers, and none when none of these is among its new hosts |
| Conhash.Ring.Lookup | src/conhash.c:162-214 | ends, and fills the array with exactly the first n running servers met clockwise from the hash, without repetition |
| Conhash.Ring.WalkOn | src/conhash.c:192-205 | the loop stops when it has n hosts or is back at its start, and has then met the hosts of the whole turn |
| Conhash.LookedUpHosts | src/conhash.c:174 | the result is the hosts of the key if and only if the counter of virtual nodes is not 0 modulo 2^32 or no server on the ring works |
| Conhash.CounterRunsOver | src/conhash.c:174 | a ring of two servers with 2^31 virtual nodes each, both at work, on which the lookup of every key returns nothing although there are hosts |
| Conhash.TwoServersFill | src/conhash_inter.c:29-51 | two servers with n virtual nodes each at different places make 2 * n points |
| Conhash.Ring.GetVnodes | src/conhash_util.c:17-36 | the smallest hashes in ascending order, as many as fit; the other cells stay |
| Conhash.Ring.Fini | src/conhash.c:40-70 | root by root the tree is taken down until it is empty, and then the list |
| ThreadPool.EnoughIssued | src/router.c:31-33 | whatever the random draw and the idle counter say, at least as many tasks are issued as answers are awaited, and at most N |
| ThreadPool.ChanceRule | src/router.c:25-33 | of the 15 draws as many ask all N servers as the idle counter says, from none to all of them |
| ThreadPool.DrawRule | src/router.c:31-33 | every other draw asks as many as must answer |
| PoolRuns.EveryState | src/threadpool.c:61-148 | all invariants below hold in every state of every run |
| PoolInvariants.QueueingKept | src/threadpool.c:77-79 | the waiting counter is the length of the queue, at most MAX_WAITING_TASKS_NUM - 1 + N, and the queue is what was put on and not taken off, in order |
| PoolInvariants.TakenKept | src/threadpool.c:66-90 | a task is queued exactly while it is in the queue, and held exactly by the worker that took it |
| PoolRuns.FirstInFirstOut | src/threadpool.c:77-79 | tasks are taken in the order in which they came, each once, and no two workers have the same one |
| PoolRuns.TasksMove | src/threadpool.c:66-142 | no deadlock: while tasks lie in the queue, some worker, or some client with a signal left to send, can take a step, no spurious wake-up is needed for it, and less work is left after it |
| PoolWork.WorkFalls | src/threadpool.c:61-234 | only a new call and a spurious wake-up make more work, and by how much; every other step makes less |
| PoolWork.RunBound | src/threadpool.c:61-234 | no run from any state has more steps than its first state has work, 8 N + 4 for each new call and 2 for each spurious wake-up |
| PoolRuns.RestIsQuiet | src/threadpool.c:61-234 | in every reachable state nothing but a new call or a spurious wake-up can happen if and only if the queue is empty, every worker waits and every client has returned |
| PoolRuns.EveryRunEnds | src/threadpool.c:61-234 | so every run without those ends after a bounded number of steps, and where it cannot go on all work is done |
| PoolRuns.CallsEnd | src/threadpool.c:61-234 | a run from the start has no more steps than threads, calls and spurious wake-ups allow |
| PoolRuns.WorkerGoesOn | src/threadpool.c:66-90 | a worker that does not wait can always take its next step |
| PoolRuns.EnqueueRule | src/threadpool.c:122-129 | a client can put its tasks on the queue exactly while fewer than 15 tasks wait there |
| PoolRuns.MayGoWrong | src/threadpool.c:61-310 | in every reachable state an exchange may fail before or after the server did its part, an answer may fail to be written back, a waiting worker may wake up for no reason, and a client may give up |
| PoolRuns.ClientGoesOn | src/threadpool.c:99-234 | a client that has not returned can always go on, and it can return OK as soon as there are enough answers |
| PoolSignals.NoticedKept | src/threadpool.c:70-86 | no lost wake-up: while tasks lie in the queue and a worker waits, a signal is still to be sent or a woken worker is about to look |
| PoolSignals.IdlingKept | src/threadpool.c:70-81 | the idle counter is the number of workers in the wait loop less the tasks that were taken without waiting |
| PoolRuns.IdleCounterExact | src/threadpool.c:70-81 | a step leaves the idle counter equal to the number of idle workers if and only if it was equal before and the step is not the lock of a worker that comes from its last task and finds the queue filled |
| PoolRuns.IdleCounterDrifts | src/threadpool.c:81 | a run of every configuration after which the idle counter is -1 |
| PoolReferences.CountedKept | src/threadpool.c:19-55 | the reference count is one for the reader that has not released plus one for each task that was not freed |
| PoolReferences.NoUseAfterFree | src/threadpool.c:19-39 | no step of any thread touches a command that was freed |
| PoolReferences.FreedAtTheEnd | src/threadpool.c:19-39 | a command is freed at most once, and it is freed if and only if its reader succeeded and all its tasks were freed |
| PoolReplies.AnsweringKept | src/threadpool.c:283-310 | the slots of a command hold one answer for each task that wrote back, in the order of writing, and the flag is set exactly when one of them is a yes |
| PoolRuns.SlotsFit | src/threadpool.c:295-302 | the success counter is the number of different tasks that wrote back, at most as many as were issued, at most N |
| PoolRuns.ReadsWhatServersSaid | src/threadpool.c:198-213 | a reader that returns OK saw enough answers and copies a slot that was written; each was given by a host of the bucket while the client waited, and a true flag by one that said yes |
| PoolReplies.LoggedKept | src/threadpool.c:88-89 | every exchange was done for a task of a command that had begun, at that task's host, with the answer that the host's data calls for |
| PoolClients.SignalsSent | src/threadpool.c:139-142 | in every run a client that enqueued its tasks has sent one signal for each of them, less those it still has to send, and one that did not has sent none |
| PoolClients.GivesUp | src/threadpool.c:115-148 | a client that cannot enqueue its tasks goes on to look for answers, of which there are none |
| PoolClients.NoAnswers | src/threadpool.c:115-234 | and it never comes back OK |
| PoolMemory.BuildTasks | src/threadpool.c:106-112 | links one task for each of the first hosts, in their order, and counts as many references |
| PoolMemory.Pool.TryEnqueue | src/threadpool.c:122-138 | refuses exactly when 15 tasks or more wait, else hangs the chain behind the last task; queue and counters are then those after the enqueue step of the pool |
| PoolMemory.Pool.Pass | src/threadpool.c:68-85 | takes the first task and signals exactly when there are more, or counts the worker as idle on its first pass; queue and counters are then those after the lock step of the pool |
| PoolMemory.Shared.TryRead | src/threadpool.c:202-210 | succeeds exactly when there are enough answers, and then returns the flag and the blob in the drawn slot |
| PoolMemory.Shared.WriteResult | src/threadpool.c:290-302 | the record holds one answer more, in the next slot and no other |
| PoolMemory.Shared.Release | src/threadpool.c:19-32 | one reference less, and the last one frees |
| Store.KeptRule | src/redis.c:513-570 | a server keeps a value in a field if and only if it was told to set it and since then neither to set nor to delete the field, nor to delete the bucket |
| Store.AnswerRule | src/redis.c:275-510 | a load, an exist check of a blob and one of a bucket answer by that |
| Quorum.RingRoutes | src/router.c:51-73 | the hosts that the ring returns are different, and there are N of them if and only if N servers with points work |
| Quorum.QuorumRule | src/def.h:20-24 | every W of N places meet every R of them if and only if R + W > N |
| Quorum.CommonHost | src/router.c:256-335 | two calls for one bucket that counted more than N answers together have a host in common |
| Quorum.ReplyAfterWrite | src/router.c:256-335 | a host that applied a change answers a later undisturbed read with what the change left |
| Quorum.SavedIsLoaded | src/router.c:256-335 | for any N, R, W with R + W > N and every run: after a save that returned OK, a later load that returns OK has a counted answer from a server that applied the save, and that answer is the saved value, if nothing else changed the blob meanwhile |
| Quorum.SavedEverywhere | src/router.c:256-335 | when all N servers acknowledged the save, the answer that the load chooses is the saved value |
| Quorum.DeletedIsGone | src/router.c:115-142 | after a delete of a blob or of its bucket returned OK, with no save of the blob sent to a server since the delete began, a later exist check says no and every counted answer of a later load is that nothing is there |
| Quorum.BucketIsGone | src/router.c:145-177 | after a delete of a bucket returned OK, with no save in the bucket since it began, a later exist check of the bucket says no |
| QuorumRuns.MeetingRule | src/router.c:256-335 | a save and a later load, both OK and with nothing in between, have a server in common in every run if and only if R + W > N |
| QuorumRuns.LoadRule | src/router.c:256-335 | such a load returns the saved value in every run if and only if W = N |
| QuorumRuns.ExistRule | src/router.c:183-247 | after a save that returned OK every later exist check of the blob or of its bucket that gets its answer says yes, in every run, if and only if W = N |
| QuorumRuns.OverlookedSave | src/router.c:204 | for every configuration with W < N a run in which the check hears only from servers that never saw the save |
| QuorumRuns.MissedSave | src/router.c:249-252 | for every configuration with W < N a run in which the load returns OK and chooses the answer of a server that never saw the save |
| QuorumRuns.NoCommonHost | src/router.c:256-335 | for every configuration with R + W <= N a run in which save and load return OK and no server gave a counted answer to both |
| Md5.State.Append | src/md5.c:322-358 | however a message is cut: the full blocks are folded into the sum, the rest lies in the buffer, and the two count words are 8 * length modulo 2^64 |
| Md5.State.Finish | src/md5.c:360-381 | the digest is that of RFC 1321, sections 3.1 to 3.5, for all bytes appended so far |
| Md5.State.Blocks | src/md5.c:351-357 | full blocks go through the block function in order, and what is left goes to the front of the buffer |
| Md5.CountMore | src/md5.c:328-337 | the carry from the low to the high count word is right for every length |
| Md5.PadEndsBlock | src/md5.c:376 | there are 1 to 64 padding bytes, and no other number of them ends eight bytes before the end of a block |
| Md5.PaddedInjective | src/md5.c:372-378 | different messages of any length stay different after padding |
| Md5.PaddedBytes | src/md5.c:363-378 | behind the message come the byte 128, zeros, and in the last eight bytes the length in bits, low-order byte first |
| Md5.StartBytes | src/md5.c:312-320 | the start value is the one that RFC 1321, section 3.3, lists byte by byte |
| Md5.Md5Digest | src/conhash_util.c:8-15 | init, append and finish give the digest of the whole string |
| Md5.HashDef | src/conhash_inter.c:11-27 | the default hash is the sum of the four words of the digest, which fits a long |
| Resp.CommandStream | src/redis.c:32-56 | the stream is the array header and then, for each letter, a bulk string or the length line of one |
| Resp.HSet | src/redis.c:534-570 | the stream, the value and the last line end together are the request HSET key field value |
| Resp.Plain | src/redis.c:240-242 | the streams of the other commands are whole requests |
| Resp.RequestBack | src/redis.c:17-30 | a server, for which a line ends with the characters 13 and 10, reads back exactly the arguments and not a byte more, whatever bytes they contain, line ends too |
| Resp.GetSample | src/redis.c:32-56 | one request byte by byte |
| Resp.StreamFits | src/redis.c:518-540 | with keys and fields shorter than MAX_KEY_LENGTH the stream of HSET and its final zero byte fit MAX_COMMAND_LENGTH |
| Resp.RequestFits | src/redis.c:224-241 | and so do the streams of the commands with a key, or a key and a field |
| Text.DigitsBack | src/redis.c:38 | a printed number reads back as that number |

## Left out

- RbTree.Tree.Insert: leaves out the inputs on which the fixup gets lost
  (`Settles` is false). It must come up to the root, and the root's parent field
  must name either a red node outside the tree, which was removed and has no
  links for the code to follow (`RbReuse.RootLost` reaches that), or a red node
  inside with a red sibling from which the red node climbs a second time, to a
  child of the root; then the code rotates at that inner node as if it were above
  the root.
- Conhash.Ring.AddNode: gives every virtual node a new object, so that the ring
  never meets that case. The C program may, when freed memory is handed out again.
- RbTree.Tree.size: the counter of the tree is modelled unbounded, because
  nothing reads it; the ring's own counter has its 32 bits.
- RbTravel.MidTravel: the source takes any visitor; the model has the one that
  `conhash_get_vnodes` uses.
- Quorum.SavedIsLoaded: does not say that the load returns the saved value. The
  code chooses one of the counted answers at random; QuorumRuns.LoadRule says
  when that is the saved one in every run.
- PoolMemory.Shared.WriteResult: stores a blob as a whole, where the code copies
  as many bytes as its length prefix says.
- Store.Answer: that a Redis server does what its commands say is assumed.
- The shift of loaded blobs: the length prefix is stored with the value and
  prefixed again when it is received, so that a loaded content is not the saved
  one byte by byte. Values are whole in the model.
- Conhash.Ring.Lookup: the object and the ring are never null here, and
  allocation never fails in any part.
- Md5.State.Append: one call has less than 2^31 bytes, the range of the C
  parameter. From 2^28 bytes on the C code shifts a signed number over its end;
  the model takes the result modulo 2^32.
- Md5.Folded: the rounds of the block function and its byte order are left out.
- ThreadPool.Issues: allows both numbers of tasks for a save and a load, since
  the code chooses by a random number and an unlocked read of the idle counter.
- ThreadPool.Serve: one exchange with a server is one atomic step, which may
  also fail before or after the server did its part. Connections, retries,
  sleeps, partial reads and `src/connectionpool.c`, which does not keep the
  queue it intends, are left out.
- PoolReferences.FreedAtTheEnd: commands whose reader or tasks failed keep their
  references in the code, and are never freed.
- The pool's trylock loops are one step that happens or is given up; their
  retry limits are not counted. Cancelling threads and the shutdown of the pool
  are left out, and so is that a mutex is destroyed while it is held.
- The memory that tasks and commands own besides what the record holds (the
  copies of key, field and value) is left out.
- The configuration server, RPC, the API wrappers and the benchmark client.
