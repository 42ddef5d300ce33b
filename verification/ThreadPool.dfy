/** The work-stealing thread pool and its drain-on-shutdown protocol, as a step system. */
module ThreadPool {
  // Every mutex-guarded queue operation, every load or store of the stop flag and every
  // single emptiness test of the final scan is one atomic step, so the scan itself is not
  // atomic: other workers and callers may run between any two of its tests.
  //
  // Callers outside the pool may even race with the destructor.  They pass the stop check
  // and push later, possibly after the last worker has left.  The theorems promise nothing
  // about such a late task except that it never runs twice.

  type Task = nat

  /** Program counter and locals of one iteration of the worker loop. */
  datatype Worker =
    | Top                                      // about to load the stop flag
    | PopOwn(stopping: bool)                   // about to pop its own queue
    | Stealing(stopping: bool, attempts: nat)  // about to probe a random victim
    | Running(task: Task, admitted: bool)      // `admitted`: the task is inside enqueue, past the stop check
    | Scanning(next: nat)                      // queues before `next` were seen empty
    | Exited

  /**
   `outside` counts callers that are past the stop check and have not pushed yet.
   `finished` lists the tasks in the order they completed.  `promised` collects the tasks
   pushed before the destructor began or from inside a running task.
   */
  datatype Pool = Pool(
    queues: seq<seq<Task>>,
    workers: seq<Worker>,
    stop: bool,
    outside: nat,
    next: Task,
    finished: seq<Task>,
    promised: set<Task>)

  datatype Action =
    | LoadStop(w: nat)
    | Pop(w: nat)
    | Steal(w: nat, victim: nat)
    | TestEmpty(w: nat)
    | TaskAdmitted(w: nat)
    | TaskPush(w: nat, q: nat)
    | Finish(w: nat)
    | CallerAdmitted
    | CallerPush(q: nat)
    | BeginShutdown

  /** The constructor raises a thread count of zero to one. */
  function Width(threads: nat): (n: nat)
    ensures n > 0
  {
    if threads == 0 then 1 else threads
  }

  function Init(threads: nat): (p: Pool)
    ensures |p.queues| == |p.workers| > 0
  {
    var n := Width(threads);
    Pool(seq(n, _ => []), seq(n, _ => Top), false, 0, 0, [], {})
  }

  ghost predicate Enabled(p: Pool, a: Action)
  {
    match a
    case LoadStop(w) => w < |p.workers| && p.workers[w].Top?
    case Pop(w) => w < |p.workers| && w < |p.queues| && p.workers[w].PopOwn?
    case Steal(w, v) => w < |p.workers| && v < |p.queues| && p.workers[w].Stealing?
    case TestEmpty(w) => w < |p.workers| && p.workers[w].Scanning?
    case TaskAdmitted(w) => w < |p.workers| && p.workers[w].Running? && !p.stop
    case TaskPush(w, q) => w < |p.workers| && q < |p.queues| && p.workers[w].Running? && p.workers[w].admitted
    case Finish(w) => w < |p.workers| && p.workers[w].Running?
    case CallerAdmitted => !p.stop
    case CallerPush(q) => q < |p.queues| && p.outside > 0
    case BeginShutdown => !p.stop
  }

  function SetWorker(p: Pool, w: nat, x: Worker): Pool
    requires w < |p.workers|
  {
    p.(workers := p.workers[w := x])
  }

  function SetQueue(p: Pool, q: nat, tasks: seq<Task>): Pool
    requires q < |p.queues|
  {
    p.(queues := p.queues[q := tasks])
  }

  /** A new task goes to the back of queue `q`. */
  function PushTo(p: Pool, q: nat, keep: bool): Pool
    requires q < |p.queues|
  {
    SetQueue(p, q, p.queues[q] + [p.next])
      .(next := p.next + 1, promised := if keep then p.promised + {p.next} else p.promised)
  }

  /** Where a worker goes once the probing loop ends without a task. */
  function NoTask(stopping: bool): Worker
  {
    if stopping then Scanning(0) else Top
  }

  ghost function Apply(p: Pool, a: Action): Pool
    requires Enabled(p, a)
  {
    match a
    case LoadStop(w) => SetWorker(p, w, PopOwn(p.stop))
    case Pop(w) =>
      var own := p.queues[w];
      if own == [] then SetWorker(p, w, Stealing(p.workers[w].stopping, 0))
      else SetQueue(SetWorker(p, w, Running(own[|own| - 1], false)), w, own[..|own| - 1])
    case Steal(w, v) =>
      var Stealing(stopping, attempts) := p.workers[w];
      if attempts >= 2 * |p.queues| then SetWorker(p, w, NoTask(stopping))
      else if v == w || p.queues[v] == [] then SetWorker(p, w, Stealing(stopping, attempts + 1))
      else SetQueue(SetWorker(p, w, Running(p.queues[v][0], false)), v, p.queues[v][1..])
    case TestEmpty(w) =>
      var i := p.workers[w].next;
      if i >= |p.queues| then SetWorker(p, w, Exited)
      else if p.queues[i] == [] then SetWorker(p, w, Scanning(i + 1))
      else SetWorker(p, w, Top)
    case TaskAdmitted(w) => SetWorker(p, w, p.workers[w].(admitted := true))
    case TaskPush(w, q) => PushTo(SetWorker(p, w, p.workers[w].(admitted := false)), q, true)
    case Finish(w) => SetWorker(p, w, Top).(finished := p.finished + [p.workers[w].task])
    case CallerAdmitted => p.(outside := p.outside + 1)
    case CallerPush(q) => PushTo(p, q, !p.stop).(outside := p.outside - 1)
    case BeginShutdown => p.(stop := true)
  }

  ghost predicate Next(p: Pool, p': Pool)
  {
    exists a :: Enabled(p, a) && p' == Apply(p, a)
  }

  ghost predicate StepAt(run: seq<Pool>, i: nat)
    requires i < |run| - 1
  {
    Next(run[i], run[i + 1])
  }

  /** A finite run of the pool from its constructor, under any interleaving. */
  ghost predicate IsRun(threads: nat, run: seq<Pool>)
  {
    && |run| > 0
    && run[0] == Init(threads)
    && forall i :: 0 <= i < |run| - 1 ==> StepAt(run, i)
  }

  ghost predicate AllExited(p: Pool)
  {
    forall w :: 0 <= w < |p.workers| ==> p.workers[w].Exited?
  }

  // ----- conservation of tasks -----

  /** How often task `t` sits in the queues. */
  ghost function Queued(queues: seq<seq<Task>>, t: Task): nat
  {
    if queues == [] then 0 else multiset(queues[0])[t] + Queued(queues[1..], t)
  }

  ghost function Runs(w: Worker, t: Task): nat
  {
    if w.Running? && w.task == t then 1 else 0
  }

  /** How many workers are running task `t`. */
  ghost function InProgress(workers: seq<Worker>, t: Task): nat
  {
    if workers == [] then 0 else Runs(workers[0], t) + InProgress(workers[1..], t)
  }

  ghost function Finished(p: Pool, t: Task): nat
  {
    multiset(p.finished)[t]
  }

  ghost function Copies(p: Pool, t: Task): nat
  {
    Queued(p.queues, t) + InProgress(p.workers, t) + Finished(p, t)
  }

  /** Every task handed out by enqueue is in exactly one place, exactly once. */
  ghost predicate Conserved(p: Pool)
  {
    forall t: Task :: Copies(p, t) == if t < p.next then 1 else 0
  }

  lemma {:induction false} QueuedUpdate(queues: seq<seq<Task>>, i: nat, tasks: seq<Task>, t: Task)
    requires i < |queues|
    ensures Queued(queues[i := tasks], t) + multiset(queues[i])[t] == Queued(queues, t) + multiset(tasks)[t]
  {
    if i > 0 {
      QueuedUpdate(queues[1..], i - 1, tasks, t);
      assert queues[i := tasks][1..] == queues[1..][i - 1 := tasks];
    } else {
      assert queues[i := tasks][1..] == queues[1..];
    }
  }

  lemma {:induction false} InProgressUpdate(workers: seq<Worker>, i: nat, x: Worker, t: Task)
    requires i < |workers|
    ensures InProgress(workers[i := x], t) + Runs(workers[i], t) == InProgress(workers, t) + Runs(x, t)
  {
    if i > 0 {
      InProgressUpdate(workers[1..], i - 1, x, t);
      assert workers[i := x][1..] == workers[1..][i - 1 := x];
    } else {
      assert workers[i := x][1..] == workers[1..];
    }
  }

  lemma TakeFirst(q: seq<Task>, t: Task)
    requires q != []
    ensures multiset(q)[t] == multiset(q[1..])[t] + if q[0] == t then 1 else 0
  {
    assert q == [q[0]] + q[1..];
  }

  lemma TakeLast(q: seq<Task>, t: Task)
    requires q != []
    ensures multiset(q)[t] == multiset(q[..|q| - 1])[t] + if q[|q| - 1] == t then 1 else 0
  {
    assert q == q[..|q| - 1] + [q[|q| - 1]];
  }

  lemma MoveConserves(p: Pool, w: nat, x: Worker, t: Task)
    requires w < |p.workers| && !p.workers[w].Running? && !x.Running?
    ensures Copies(SetWorker(p, w, x), t) == Copies(p, t)
  {
    InProgressUpdate(p.workers, w, x, t);
  }

  lemma TakeConserves(p: Pool, w: nat, v: nat, task: Task, rest: seq<Task>, t: Task)
    requires w < |p.workers| && !p.workers[w].Running? && v < |p.queues|
    requires multiset(p.queues[v])[t] == multiset(rest)[t] + if task == t then 1 else 0
    ensures Copies(SetQueue(SetWorker(p, w, Running(task, false)), v, rest), t) == Copies(p, t)
  {
    InProgressUpdate(p.workers, w, Running(task, false), t);
    QueuedUpdate(p.queues, v, rest, t);
  }

  lemma PushConserves(p: Pool, q: nat, keep: bool, t: Task)
    requires q < |p.queues|
    ensures Copies(PushTo(p, q, keep), t) == Copies(p, t) + if t == p.next then 1 else 0
  {
    QueuedUpdate(p.queues, q, p.queues[q] + [p.next], t);
  }

  lemma FlagConserves(p: Pool, w: nat, admitted: bool, t: Task)
    requires w < |p.workers| && p.workers[w].Running?
    ensures Copies(SetWorker(p, w, p.workers[w].(admitted := admitted)), t) == Copies(p, t)
  {
    InProgressUpdate(p.workers, w, p.workers[w].(admitted := admitted), t);
  }

  lemma FinishConserves(p: Pool, w: nat, t: Task)
    requires w < |p.workers| && p.workers[w].Running?
    ensures Copies(SetWorker(p, w, Top).(finished := p.finished + [p.workers[w].task]), t) == Copies(p, t)
  {
    InProgressUpdate(p.workers, w, Top, t);
  }

  predicate Creates(a: Action)
  {
    a.TaskPush? || a.CallerPush?
  }

  /** Steps move tasks around; only enqueue creates one, and it creates task number `next`. */
  lemma StepConserves(p: Pool, a: Action, t: Task)
    requires Enabled(p, a)
    ensures Copies(Apply(p, a), t) == Copies(p, t) + if Creates(a) && t == p.next then 1 else 0
  {
    match a
    case LoadStop(w) => MoveConserves(p, w, PopOwn(p.stop), t);
    case Pop(w) => PopConserves(p, w, t);
    case Steal(w, v) => StealConserves(p, w, v, t);
    case TestEmpty(w) => MoveConserves(p, w, Apply(p, a).workers[w], t);
    case TaskAdmitted(w) => FlagConserves(p, w, true, t);
    case TaskPush(w, q) =>
      FlagConserves(p, w, false, t);
      PushConserves(SetWorker(p, w, p.workers[w].(admitted := false)), q, true, t);
    case Finish(w) => FinishConserves(p, w, t);
    case CallerPush(q) => PushConserves(p, q, !p.stop, t);
    case CallerAdmitted =>
    case BeginShutdown =>
  }

  lemma PopConserves(p: Pool, w: nat, t: Task)
    requires Enabled(p, Pop(w))
    ensures Copies(Apply(p, Pop(w)), t) == Copies(p, t)
  {
    var own := p.queues[w];
    if own == [] {
      MoveConserves(p, w, Stealing(p.workers[w].stopping, 0), t);
    } else {
      TakeLast(own, t);
      TakeConserves(p, w, w, own[|own| - 1], own[..|own| - 1], t);
    }
  }

  lemma StealConserves(p: Pool, w: nat, v: nat, t: Task)
    requires Enabled(p, Steal(w, v))
    ensures Copies(Apply(p, Steal(w, v)), t) == Copies(p, t)
  {
    var Stealing(stopping, attempts) := p.workers[w];
    if attempts >= 2 * |p.queues| {
      MoveConserves(p, w, NoTask(stopping), t);
    } else if v == w || p.queues[v] == [] {
      MoveConserves(p, w, Stealing(stopping, attempts + 1), t);
    } else {
      TakeFirst(p.queues[v], t);
      TakeConserves(p, w, v, p.queues[v][0], p.queues[v][1..], t);
    }
  }

  // ----- the shutdown invariant -----

  /** A live worker whose scan has not passed queue `q`. */
  ghost predicate Covers(w: Worker, q: nat)
  {
    !w.Exited? && (w.Scanning? ==> w.next <= q)
  }

  ghost predicate Watched(p: Pool, q: nat)
  {
    exists w :: 0 <= w < |p.workers| && Covers(p.workers[w], q)
  }

  /** Any queue that holds a promised task is still watched by some worker. */
  ghost predicate Guarded(p: Pool)
  {
    forall q, i :: 0 <= q < |p.queues| && 0 <= i < |p.queues[q]| && p.queues[q][i] in p.promised ==> Watched(p, q)
  }

  ghost predicate KnowsStop(w: Worker)
  {
    w.Exited? || w.Scanning? || ((w.PopOwn? || w.Stealing?) && w.stopping)
  }

  ghost predicate Inv(p: Pool)
  {
    && |p.queues| == |p.workers| > 0
    && (forall w :: 0 <= w < |p.workers| && KnowsStop(p.workers[w]) ==> p.stop)
    && (forall t :: t in p.promised ==> t < p.next)
    && Conserved(p)
    && Guarded(p)
  }

  lemma {:induction false} QueuedHas(queues: seq<seq<Task>>, q: nat, i: nat)
    requires q < |queues| && i < |queues[q]|
    ensures Queued(queues, queues[q][i]) > 0
  {
    if q > 0 {
      QueuedHas(queues[1..], q - 1, i);
    }
  }

  /** A worker that keeps covering everything it covered, and queues that only shrink, keep the guard. */
  lemma GuardedByFrame(p: Pool, p': Pool)
    requires Guarded(p)
    requires |p'.workers| == |p.workers| && |p'.queues| == |p.queues|
    requires p'.promised == p.promised
    requires forall q, i :: 0 <= q < |p'.queues| && 0 <= i < |p'.queues[q]| ==> p'.queues[q][i] in p.queues[q]
    requires forall w, q :: 0 <= w < |p.workers| && 0 <= q < |p.queues| ==>
      Covers(p.workers[w], q) && p'.queues[q] != [] ==> Covers(p'.workers[w], q)
    ensures Guarded(p')
  {
    forall q, i | 0 <= q < |p'.queues| && 0 <= i < |p'.queues[q]| && p'.queues[q][i] in p'.promised
      ensures Watched(p', q)
    {
      var j :| 0 <= j < |p.queues[q]| && p.queues[q][j] == p'.queues[q][i];
      assert Watched(p, q);
      var w :| 0 <= w < |p.workers| && Covers(p.workers[w], q);
      assert Covers(p'.workers[w], q);
    }
  }

  /** A promised push is made either by a running worker, which then watches the queue, or before any worker learnt of the stop. */
  lemma GuardedByPush(p: Pool, p': Pool, q: nat, keeper: nat)
    requires Inv(p) && q < |p.queues| && keeper < |p.workers|
    requires p'.queues == p.queues[q := p.queues[q] + [p.next]]
    requires |p'.workers| == |p.workers|
    requires forall w, j :: 0 <= w < |p.workers| && 0 <= j < |p.queues| && Covers(p.workers[w], j) ==> Covers(p'.workers[w], j)
    requires p'.promised == p.promised || (p'.promised == p.promised + {p.next} && Covers(p'.workers[keeper], q))
    ensures Guarded(p')
  {
    forall j, i | 0 <= j < |p'.queues| && 0 <= i < |p'.queues[j]| && p'.queues[j][i] in p'.promised
      ensures Watched(p', j)
    {
      if j == q && i == |p.queues[q]| {
        assert p.next !in p.promised;
        assert Covers(p'.workers[keeper], q);
      } else {
        QueuedHas(p.queues, j, i);
        assert p.queues[j][i] == p'.queues[j][i];
        assert Copies(p, p.queues[j][i]) > 0;
        assert p.queues[j][i] in p.promised;
        var w :| 0 <= w < |p.workers| && Covers(p.workers[w], j);
        assert Covers(p'.workers[w], j);
      }
    }
  }

  lemma StepKeepsGuard(p: Pool, a: Action)
    requires Inv(p) && Enabled(p, a)
    ensures Guarded(Apply(p, a))
  {
    var p' := Apply(p, a);
    match a
    case TaskPush(w, q) => GuardedByPush(p, p', q, w);
    case CallerPush(q) =>
      assert !p.stop ==> !KnowsStop(p.workers[0]);
      GuardedByPush(p, p', q, 0);
    case Pop(w) => TakeKeepsGuard(p, a);
    case Steal(w, v) => TakeKeepsGuard(p, a);
    case _ => GuardedByFrame(p, p');
  }

  /** Looking for a task never ends a worker's watch and only shortens queues. */
  lemma TakeKeepsGuard(p: Pool, a: Action)
    requires Inv(p) && Enabled(p, a) && (a.Pop? || a.Steal?)
    ensures Guarded(Apply(p, a))
  {
    GuardedByFrame(p, Apply(p, a));
  }

  lemma StepKeepsConserved(p: Pool, a: Action)
    requires Conserved(p) && Enabled(p, a)
    ensures Conserved(Apply(p, a))
  {
    forall t: Task
      ensures Copies(Apply(p, a), t) == if t < Apply(p, a).next then 1 else 0
    {
      StepConserves(p, a, t);
      assert Copies(p, t) == if t < p.next then 1 else 0;
    }
  }

  lemma StepKeepsFlags(p: Pool, a: Action)
    requires Inv(p) && Enabled(p, a)
    ensures Apply(p, a).stop || (forall w :: 0 <= w < |p.workers| ==> !KnowsStop(Apply(p, a).workers[w]))
  {
    var p' := Apply(p, a);
    if !p'.stop {
      assert !p.stop;
      forall w | 0 <= w < |p.workers|
        ensures !KnowsStop(p'.workers[w])
      {
        assert !KnowsStop(p.workers[w]);
      }
    }
  }

  lemma StepKeepsInv(p: Pool, p': Pool)
    requires Inv(p) && Next(p, p')
    ensures Inv(p')
  {
    var a :| Enabled(p, a) && p' == Apply(p, a);
    StepKeepsConserved(p, a);
    StepKeepsGuard(p, a);
    StepKeepsFlags(p, a);
  }

  lemma {:induction false} NothingQueued(queues: seq<seq<Task>>, t: Task)
    requires forall i :: 0 <= i < |queues| ==> queues[i] == []
    ensures Queued(queues, t) == 0
  {
    if queues != [] {
      NothingQueued(queues[1..], t);
    }
  }

  lemma {:induction false} NothingInProgress(workers: seq<Worker>, t: Task)
    requires forall i :: 0 <= i < |workers| ==> !workers[i].Running?
    ensures InProgress(workers, t) == 0
  {
    if workers != [] {
      NothingInProgress(workers[1..], t);
    }
  }

  lemma InitInv(threads: nat)
    ensures Inv(Init(threads))
  {
    var p := Init(threads);
    forall t: Task
      ensures Copies(p, t) == 0
    {
      NothingQueued(p.queues, t);
      NothingInProgress(p.workers, t);
    }
  }

  lemma {:induction false} RunKeepsInv(threads: nat, run: seq<Pool>, i: nat)
    requires IsRun(threads, run) && i < |run|
    ensures Inv(run[i])
  {
    if i == 0 {
      InitInv(threads);
    } else {
      RunKeepsInv(threads, run, i - 1);
      assert StepAt(run, i - 1);
      StepKeepsInv(run[i - 1], run[i]);
    }
  }

  lemma {:induction false} QueuedFrom(queues: seq<seq<Task>>, t: Task) returns (q: nat, i: nat)
    requires Queued(queues, t) > 0
    ensures q < |queues| && i < |queues[q]| && queues[q][i] == t
  {
    if t in queues[0] {
      q := 0;
      i :| 0 <= i < |queues[0]| && queues[0][i] == t;
    } else {
      q, i := QueuedFrom(queues[1..], t);
      q := q + 1;
    }
  }

  // ----- main results -----

  /** No task ever runs twice, and none that was not enqueued ever runs, in any state of any run. */
  lemma AtMostOnce(threads: nat, run: seq<Pool>, i: nat, t: Task)
    requires IsRun(threads, run) && i < |run|
    ensures Finished(run[i], t) + InProgress(run[i].workers, t) <= if t < run[i].next then 1 else 0
  {
    RunKeepsInv(threads, run, i);
    assert Copies(run[i], t) <= 1;
  }

  /**
   When every worker has left, which is when the destructor returns, each task that was
   pushed before the destructor began or from inside a running task has run exactly once.
   */
  lemma ShutdownDrains(threads: nat, run: seq<Pool>, i: nat)
    requires IsRun(threads, run) && i < |run| && AllExited(run[i])
    ensures run[i].stop
    ensures forall t :: t in run[i].promised ==> Finished(run[i], t) == 1
  {
    RunKeepsInv(threads, run, i);
    var p := run[i];
    assert KnowsStop(p.workers[0]);
    forall t | t in p.promised
      ensures Finished(p, t) == 1
    {
      NothingInProgress(p.workers, t);
      assert Copies(p, t) == 1;
      if Queued(p.queues, t) > 0 {
        var q, k := QueuedFrom(p.queues, t);
        assert false;
      }
    }
  }

  /** If no outside caller pushed after the destructor began, shutdown leaves nothing behind at all. */
  lemma ShutdownLeavesNothing(threads: nat, run: seq<Pool>, i: nat, t: Task)
    requires IsRun(threads, run) && i < |run| && AllExited(run[i])
    requires forall u :: 0 <= u < run[i].next ==> u in run[i].promised
    ensures Queued(run[i].queues, t) == 0
    ensures Finished(run[i], t) == if t < run[i].next then 1 else 0
  {
    RunKeepsInv(threads, run, i);
    ShutdownDrains(threads, run, i);
    assert Copies(run[i], t) == if t < run[i].next then 1 else 0;
  }

  // ----- who gets which task -----

  /** All queues but `q` are as they were. */
  ghost predicate OnlyQueue(p: Pool, p': Pool, q: nat)
  {
    |p'.queues| == |p.queues| && q < |p.queues| && forall j :: 0 <= j < |p.queues| && j != q ==> p'.queues[j] == p.queues[j]
  }

  /**
   What a step does to the queues.  A worker takes the newest task of its own queue or the
   oldest of another's; it turns to stealing only when its own queue is empty, passes a victim
   over only if there is nothing to take, and gives up only after two probes per queue; a push
   goes to the back of one queue, and is promised to run if it comes from a running task or
   before the destructor begins.
   */
  ghost predicate ServesQueues(p: Pool, a: Action, p': Pool)
    requires Enabled(p, a) && |p'.workers| == |p.workers|
  {
    match a
    case Pop(w) =>
      if p'.workers[w].Running? then OnlyQueue(p, p', w) && p.queues[w] == p'.queues[w] + [p'.workers[w].task]
      else p.queues[w] == [] && p'.workers[w] == Stealing(p.workers[w].stopping, 0) && p'.queues == p.queues
    case Steal(w, v) =>
      if p'.workers[w].Running? then v != w && OnlyQueue(p, p', v) && p.queues[v] == [p'.workers[w].task] + p'.queues[v]
      else
        && p'.queues == p.queues
        && if p.workers[w].attempts < 2 * |p.queues|
           then (v == w || p.queues[v] == []) && p'.workers[w] == Stealing(p.workers[w].stopping, p.workers[w].attempts + 1)
           else p'.workers[w] == if p.workers[w].stopping then Scanning(0) else Top
    case TaskPush(_, q) =>
      && OnlyQueue(p, p', q) && p'.queues[q] == p.queues[q] + [p.next] && p'.next == p.next + 1
      && p'.promised == p.promised + {p.next}
    case CallerPush(q) =>
      && OnlyQueue(p, p', q) && p'.queues[q] == p.queues[q] + [p.next] && p'.next == p.next + 1
      && p'.promised == if p.stop then p.promised else p.promised + {p.next}
    case _ => p'.queues == p.queues && p'.next == p.next && p'.promised == p.promised
  }

  lemma QueuesAreServed(p: Pool, a: Action)
    requires Enabled(p, a)
    ensures |Apply(p, a).workers| == |p.workers| && ServesQueues(p, a, Apply(p, a))
  {
  }

  // ----- the stop flag -----

  ghost function Admitted(workers: seq<Worker>): nat
  {
    if workers == [] then 0 else (if workers[0].Running? && workers[0].admitted then 1 else 0) + Admitted(workers[1..])
  }

  lemma {:induction false} AdmittedUpdate(workers: seq<Worker>, i: nat, x: Worker)
    requires i < |workers|
    ensures Admitted(workers[i := x]) + (if workers[i].Running? && workers[i].admitted then 1 else 0) ==
            Admitted(workers) + if x.Running? && x.admitted then 1 else 0
  {
    if i > 0 {
      AdmittedUpdate(workers[1..], i - 1, x);
      assert workers[i := x][1..] == workers[1..][i - 1 := x];
    } else {
      assert workers[i := x][1..] == workers[1..];
    }
  }

  lemma StepAdmitsNobody(p: Pool, p': Pool)
    requires Inv(p) && p.stop && Next(p, p')
    ensures p'.stop && p'.next + p'.outside + Admitted(p'.workers) <= p.next + p.outside + Admitted(p.workers) && p'.outside <= p.outside
  {
    var a :| Enabled(p, a) && p' == Apply(p, a);
    if !a.CallerPush? && !a.CallerAdmitted? && !a.BeginShutdown? {
      AdmittedUpdate(p.workers, a.w, p'.workers[a.w]);
    }
  }

  /**
   Once the destructor has begun nobody is admitted any more: the tasks still to come are at
   most those whose enqueue was past the stop check by then.
   */
  lemma {:induction false} NobodyAdmittedAfterStop(threads: nat, run: seq<Pool>, i: nat, j: nat)
    requires IsRun(threads, run) && i <= j < |run| && run[i].stop
    ensures run[j].stop && run[j].outside <= run[i].outside
    ensures run[j].next + run[j].outside + Admitted(run[j].workers) <= run[i].next + run[i].outside + Admitted(run[i].workers)
  {
    if i < j {
      NobodyAdmittedAfterStop(threads, run, i, j - 1);
      RunKeepsInv(threads, run, j - 1);
      assert StepAt(run, j - 1);
      StepAdmitsNobody(run[j - 1], run[j]);
    }
  }

  // ----- the pool can always be drained -----

  function Last(run: seq<Pool>): Pool
    requires |run| > 0
  {
    run[|run| - 1]
  }

  ghost predicate Continues(threads: nat, run: seq<Pool>, longer: seq<Pool>)
  {
    IsRun(threads, run) && IsRun(threads, longer) && run <= longer
  }

  lemma Do(threads: nat, run: seq<Pool>, a: Action) returns (longer: seq<Pool>)
    requires IsRun(threads, run) && Enabled(Last(run), a)
    ensures Continues(threads, run, longer) && Last(longer) == Apply(Last(run), a) && |longer| == |run| + 1
  {
    var p := Apply(Last(run), a);
    longer := run + [p];
    assert Next(Last(run), p);
    forall i | 0 <= i < |longer| - 1
      ensures StepAt(longer, i)
    {
      assert i < |run| - 1 ==> StepAt(run, i);
    }
  }

  ghost function Total(queues: seq<seq<Task>>): nat
  {
    if queues == [] then 0 else |queues[0]| + Total(queues[1..])
  }

  lemma {:induction false} TotalUpdate(queues: seq<seq<Task>>, i: nat, tasks: seq<Task>)
    requires i < |queues|
    ensures Total(queues[i := tasks]) + |queues[i]| == Total(queues) + |tasks|
  {
    if i > 0 {
      TotalUpdate(queues[1..], i - 1, tasks);
      assert queues[i := tasks][1..] == queues[1..][i - 1 := tasks];
    } else {
      assert queues[i := tasks][1..] == queues[1..];
    }
  }

  lemma {:induction false} SomeQueue(queues: seq<seq<Task>>) returns (v: nat)
    requires Total(queues) > 0
    ensures v < |queues| && queues[v] != []
  {
    if queues[0] != [] {
      v := 0;
    } else {
      v := SomeQueue(queues[1..]);
      v := v + 1;
    }
  }

  lemma {:induction false} NoQueue(queues: seq<seq<Task>>, v: nat)
    requires Total(queues) == 0 && v < |queues|
    ensures queues[v] == []
  {
    if v > 0 {
      NoQueue(queues[1..], v - 1);
    }
  }

  /** Only worker `w` has moved, and it has pushed nothing. */
  ghost predicate Alone(p: Pool, p': Pool, w: nat)
  {
    && |p'.queues| == |p.queues| && |p'.workers| == |p.workers| && w < |p.workers| == |p.queues|
    && (forall u :: 0 <= u < |p.workers| && u != w ==> p'.workers[u] == p.workers[u])
    && p'.stop == p.stop && p'.outside == p.outside && p'.next == p.next && p'.promised == p.promised
    && Total(p'.queues) <= Total(p.queues)
  }

  /** A worker that comes back from a task, or begins its turn, with tasks about takes one up within three steps. */
  lemma IdleWorkerCanHelp(threads: nat, run: seq<Pool>, w: nat) returns (longer: seq<Pool>)
    requires IsRun(threads, run) && w < |Last(run).workers| == |Last(run).queues|
    requires Last(run).workers[w].Top? && Total(Last(run).queues) > 0
    ensures Continues(threads, run, longer) && |longer| <= |run| + 3 && Alone(Last(run), Last(longer), w)
    ensures Last(longer).workers[w].Running? && Total(Last(longer).queues) == Total(Last(run).queues) - 1
  {
    var p := Last(run);
    longer := Do(threads, run, LoadStop(w));
    if p.queues[w] != [] {
      TotalUpdate(p.queues, w, p.queues[w][..|p.queues[w]| - 1]);
      longer := Do(threads, longer, Pop(w));
    } else {
      var v := SomeQueue(p.queues);
      TotalUpdate(p.queues, v, p.queues[v][1..]);
      longer := Do(threads, longer, Pop(w));
      longer := Do(threads, longer, Steal(w, v));
    }
  }

  lemma {:induction false} ProbesOut(threads: nat, run: seq<Pool>, w: nat) returns (longer: seq<Pool>)
    requires IsRun(threads, run) && w < |Last(run).workers| == |Last(run).queues| && Last(run).workers[w].Stealing?
    ensures Continues(threads, run, longer) && Alone(Last(run), Last(longer), w) && Last(longer).queues == Last(run).queues
    ensures Last(longer).workers[w] == NoTask(Last(run).workers[w].stopping)
    decreases 2 * |Last(run).queues| - Last(run).workers[w].attempts
  {
    longer := Do(threads, run, Steal(w, w));
    if Last(run).workers[w].attempts < 2 * |Last(run).queues| {
      longer := ProbesOut(threads, longer, w);
    }
  }

  lemma {:induction false} ScansOut(threads: nat, run: seq<Pool>, w: nat) returns (longer: seq<Pool>)
    requires IsRun(threads, run) && w < |Last(run).workers| == |Last(run).queues| && Last(run).workers[w].Scanning?
    ensures Continues(threads, run, longer) && Alone(Last(run), Last(longer), w) && Last(longer).queues == Last(run).queues
    ensures Last(longer).workers[w].Top? || Last(longer).workers[w].Exited?
    ensures Total(Last(run).queues) == 0 ==> Last(longer).workers[w].Exited?
    decreases |Last(run).queues| - Last(run).workers[w].next
  {
    var p := Last(run);
    if Total(p.queues) == 0 && p.workers[w].next < |p.queues| {
      NoQueue(p.queues, p.workers[w].next);
    }
    longer := Do(threads, run, TestEmpty(w));
    if Last(longer).workers[w].Scanning? {
      longer := ScansOut(threads, longer, w);
    }
  }

  lemma FinishesTask(threads: nat, run: seq<Pool>, w: nat) returns (longer: seq<Pool>)
    requires IsRun(threads, run) && w < |Last(run).workers| == |Last(run).queues| && Last(run).workers[w].Running?
    ensures Continues(threads, run, longer) && Alone(Last(run), Last(longer), w) && Last(longer).queues == Last(run).queues
    ensures Last(longer).workers[w].Top?
  {
    longer := Do(threads, run, Finish(w));
  }

  /** Wherever a worker is, it can come back to the top of its loop or leave. */
  lemma ComesRound(threads: nat, run: seq<Pool>, w: nat) returns (longer: seq<Pool>)
    requires IsRun(threads, run) && w < |Last(run).workers| == |Last(run).queues|
    ensures Continues(threads, run, longer) && Alone(Last(run), Last(longer), w)
    ensures Last(longer).workers[w].Top? || Last(longer).workers[w].Exited?
  {
    var p := Last(run);
    longer := run;
    if p.workers[w].PopOwn? {
      if p.queues[w] != [] {
        TotalUpdate(p.queues, w, p.queues[w][..|p.queues[w]| - 1]);
      }
      longer := Do(threads, longer, Pop(w));
    }
    if Last(longer).workers[w].Stealing? {
      longer := ProbesOut(threads, longer, w);
    }
    if Last(longer).workers[w].Scanning? {
      longer := ScansOut(threads, longer, w);
    } else if Last(longer).workers[w].Running? {
      longer := FinishesTask(threads, longer, w);
    }
  }

  /** A worker at the top of its loop, once the stop flag is set, can run whatever is queued and leave. */
  lemma {:induction false} DrainsAndLeaves(threads: nat, run: seq<Pool>, w: nat) returns (longer: seq<Pool>)
    requires IsRun(threads, run) && w < |Last(run).workers| == |Last(run).queues| && Last(run).stop
    requires Last(run).workers[w].Top?
    ensures Continues(threads, run, longer) && Alone(Last(run), Last(longer), w)
    ensures Last(longer).workers[w].Exited? && Total(Last(longer).queues) == 0
    decreases Total(Last(run).queues)
  {
    if Total(Last(run).queues) > 0 {
      longer := IdleWorkerCanHelp(threads, run, w);
      longer := FinishesTask(threads, longer, w);
      longer := DrainsAndLeaves(threads, longer, w);
    } else {
      NoQueue(Last(run).queues, w);
      longer := Do(threads, run, LoadStop(w));
      longer := Do(threads, longer, Pop(w));
      longer := ProbesOut(threads, longer, w);
      longer := ScansOut(threads, longer, w);
    }
  }

  lemma {:induction false} WorkersLeave(threads: nat, run: seq<Pool>, k: nat) returns (longer: seq<Pool>)
    requires IsRun(threads, run) && k <= |Last(run).workers| == |Last(run).queues| && Last(run).stop
    requires forall w :: 0 <= w < k ==> Last(run).workers[w].Exited?
    ensures Continues(threads, run, longer) && AllExited(Last(longer))
    ensures Last(longer).outside == Last(run).outside && Last(longer).next == Last(run).next && |Last(longer).queues| == |Last(run).queues|
    decreases |Last(run).workers| - k
  {
    if k == |Last(run).workers| {
      longer := run;
    } else {
      longer := ComesRound(threads, run, k);
      if Last(longer).workers[k].Top? {
        longer := DrainsAndLeaves(threads, longer, k);
      }
      longer := WorkersLeave(threads, longer, k + 1);
    }
  }

  /** From any state of any run in which the destructor has begun, the workers can all leave, so that it returns: the pool is never stuck. */
  lemma ShutdownCanComplete(threads: nat, run: seq<Pool>) returns (longer: seq<Pool>)
    requires IsRun(threads, run) && Last(run).stop
    ensures Continues(threads, run, longer) && AllExited(Last(longer)) && Last(longer).next == Last(run).next
    ensures forall t :: t in Last(run).promised ==> Finished(Last(longer), t) == 1
  {
    RunKeepsInv(threads, run, |run| - 1);
    longer := WorkersLeave(threads, run, 0);
    ShutdownDrains(threads, longer, |longer| - 1);
    PromisesStay(threads, longer, |run| - 1, |longer| - 1);
  }

  lemma {:induction false} PromisesStay(threads: nat, run: seq<Pool>, i: nat, j: nat)
    requires IsRun(threads, run) && i <= j < |run|
    ensures run[i].promised <= run[j].promised
  {
    if i < j {
      PromisesStay(threads, run, i, j - 1);
      assert StepAt(run, j - 1);
    }
  }

  /**
   The promise cannot be extended to late callers, whatever the number of threads: a caller
   that passes the stop check, is overtaken by the destructor and pushes afterwards may leave
   a task behind that never runs.
   */
  lemma LateCallerCanStrandATask(threads: nat) returns (run: seq<Pool>)
    ensures IsRun(threads, run) && AllExited(Last(run))
    ensures Last(run).next == 1 && Finished(Last(run), 0) == 0
  {
    run := [Init(threads)];
    run := Do(threads, run, CallerAdmitted);
    run := Do(threads, run, BeginShutdown);
    run := WorkersLeave(threads, run, 0);
    RunKeepsInv(threads, run, |run| - 1);
    assert Copies(Last(run), 0) == 0;
    run := Do(threads, run, CallerPush(0));
  }
}
