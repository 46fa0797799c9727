/** The waker-based executor: a map of live tasks, a bounded ready queue of
    task ids shared with every waker, and a cache holding one waker per task.
    Polling drains the ready queue; a waker's only effect is to push its task
    id back onto that queue. */
module Executor {
  import opened Wrappers
  import opened Tasks
  import opened Queues

  /** Capacity of the ready queue. */
  const TASK_QUEUE_CAPACITY: nat := 100

  datatype PanicReason = DuplicateTaskId | TaskQueueFull

  /** Either the call returned, or it panicked for the given reason. */
  datatype Outcome = Done | Panic(reason: PanicReason)

  // ---------------------------------------------------------------------------
  // Wakers

  /** A waker: the id it wakes and the ready queue it pushes onto (the `Arc`
      shares that queue with the executor). */
  class TaskWaker {
    const taskId: TaskId
    const taskQueue: ArrayQueue<TaskId>

    /** `TaskWaker::new`. */
    constructor (id: TaskId, queue: ArrayQueue<TaskId>)
      ensures taskId == id && taskQueue == queue
    {
      taskId := id;
      taskQueue := queue;
    }

    /** `wake_task`: push the bound id onto the bound queue; a full queue is
        a panic, never a silently lost wake-up. */
    method WakeTask() returns (outcome: Outcome)
      requires taskQueue.Valid()
      modifies taskQueue
      ensures taskQueue.Valid()
      ensures outcome == Done <==> |old(taskQueue.items)| < taskQueue.capacity
      ensures outcome == Done ==> taskQueue.items == old(taskQueue.items) + [taskId]
      ensures outcome != Done ==>
                outcome == Panic(TaskQueueFull) && taskQueue.items == old(taskQueue.items)
    {
      var ok := taskQueue.Push(taskId);
      outcome := if ok then Done else Panic(TaskQueueFull);
    }

    /** `Wake::wake` (consuming the `Arc`): the same effect as `wake_task`. */
    method Wake() returns (outcome: Outcome)
      requires taskQueue.Valid()
      modifies taskQueue
      ensures taskQueue.Valid()
      ensures outcome == Done <==> |old(taskQueue.items)| < taskQueue.capacity
      ensures outcome == Done ==> taskQueue.items == old(taskQueue.items) + [taskId]
      ensures outcome != Done ==>
                outcome == Panic(TaskQueueFull) && taskQueue.items == old(taskQueue.items)
    {
      outcome := WakeTask();
    }

    /** `Wake::wake_by_ref`: the same effect as `wake_task`. */
    method WakeByRef() returns (outcome: Outcome)
      requires taskQueue.Valid()
      modifies taskQueue
      ensures taskQueue.Valid()
      ensures outcome == Done <==> |old(taskQueue.items)| < taskQueue.capacity
      ensures outcome == Done ==> taskQueue.items == old(taskQueue.items) + [taskId]
      ensures outcome != Done ==>
                outcome == Panic(TaskQueueFull) && taskQueue.items == old(taskQueue.items)
    {
      outcome := WakeTask();
    }
  }

  // ---------------------------------------------------------------------------
  // The scheduler's maps, as values

  /** The live tasks and the ids that have a cached waker. */
  datatype Sched = Sched(tasks: map<TaskId, Task>, cached: set<TaskId>)

  /** Every task is filed under its own id, and only live tasks have a cached waker. */
  predicate Wf(s: Sched)
  {
    && (forall id :: id in s.tasks ==> s.tasks[id].id == id)
    && s.cached <= s.tasks.Keys
  }

  /** What `run_ready_tasks` does with one popped id: nothing for a retired
      task; otherwise make sure a waker is cached and poll the task once,
      retiring it and its waker together when it is ready. */
  function RunOne(s: Sched, id: TaskId): (r: Sched)
    ensures id !in s.tasks ==> r == s
    ensures id in s.tasks && s.tasks[id].pendingPolls == 0 ==>
              r.tasks == s.tasks - {id} && r.cached == s.cached - {id}
    ensures id in s.tasks && s.tasks[id].pendingPolls > 0 ==>
              && r.tasks.Keys == s.tasks.Keys
              && r.tasks[id].pendingPolls + 1 == s.tasks[id].pendingPolls
              && r.cached == s.cached + {id}
    ensures forall other :: other != id && other in s.tasks ==> other in r.tasks && r.tasks[other] == s.tasks[other]
    ensures Wf(s) ==> Wf(r)
  {
    if id !in s.tasks then s
    else
      var (result, t) := Poll(s.tasks[id]);
      match result
      case Ready => Sched(s.tasks - {id}, s.cached - {id})
      case Pending => Sched(s.tasks[id := t], s.cached + {id})
  }

  /** `run_ready_tasks` on a ready queue holding `q`. */
  function Drain(s: Sched, q: seq<TaskId>): Sched
    decreases |q|
  {
    if q == [] then s else Drain(RunOne(s, q[0]), q[1..])
  }

  /** Draining a queue with id at the front handles id first. */
  lemma DrainFront(s: Sched, id: TaskId, rest: seq<TaskId>)
    ensures Drain(s, [id] + rest) == Drain(RunOne(s, id), rest)
  {
    assert ([id] + rest)[1..] == rest;
  }

  /** Draining keeps "cached wakers belong to live tasks". */
  lemma {:induction false} DrainWf(s: Sched, q: seq<TaskId>)
    requires Wf(s)
    ensures Wf(Drain(s, q))
    decreases |q|
  {
    if q != [] {
      DrainWf(RunOne(s, q[0]), q[1..]);
    }
  }

  /** Draining never adds a task. */
  lemma {:induction false} DrainNoNewTasks(s: Sched, q: seq<TaskId>)
    ensures Drain(s, q).tasks.Keys <= s.tasks.Keys
    decreases |q|
  {
    if q != [] {
      DrainNoNewTasks(RunOne(s, q[0]), q[1..]);
    }
  }

  /** A task whose id is not in the ready queue is neither polled nor retired,
      and its cached waker stays as it was. */
  lemma {:induction false} DrainUntouched(s: Sched, q: seq<TaskId>, id: TaskId)
    requires id !in q
    ensures id in Drain(s, q).tasks <==> id in s.tasks
    ensures id in s.tasks ==> Drain(s, q).tasks[id] == s.tasks[id]
    ensures id in Drain(s, q).cached <==> id in s.cached
    decreases |q|
  {
    if q != [] {
      assert q[0] != id;
      DrainUntouched(RunOne(s, q[0]), q[1..], id);
    }
  }

  /** A task that is popped more often than it answers `Pending` completes
      during the drain: it leaves the task map and the waker cache, and later
      entries of its id in the queue are ignored. */
  lemma {:induction false} DrainRetires(s: Sched, q: seq<TaskId>, id: TaskId)
    requires Wf(s) && id in s.tasks
    requires multiset(q)[id] > s.tasks[id].pendingPolls
    ensures id !in Drain(s, q).tasks && id !in Drain(s, q).cached
    decreases |q|
  {
    assert q == [q[0]] + q[1..];
    var s' := RunOne(s, q[0]);
    if q[0] == id && s.tasks[id].pendingPolls == 0 {
      DrainNoNewTasks(s', q[1..]);
      DrainWf(s', q[1..]);
    } else {
      DrainRetires(s', q[1..], id);
    }
  }

  /** A cached waker stays cached as long as its task is alive. */
  lemma {:induction false} DrainKeepsCached(s: Sched, q: seq<TaskId>, id: TaskId)
    requires id in s.cached
    ensures id in Drain(s, q).tasks ==> id in Drain(s, q).cached
    decreases |q|
  {
    if q != [] {
      var s' := RunOne(s, q[0]);
      if id in s'.cached {
        DrainKeepsCached(s', q[1..], id);
      } else {
        DrainNoNewTasks(s', q[1..]);
      }
    }
  }

  /** Every task polled during a drain and still alive after it has a cached
      waker: the waker is created once, on the first poll. */
  lemma {:induction false} DrainCachesPolled(s: Sched, q: seq<TaskId>, id: TaskId)
    requires id in q
    ensures id in Drain(s, q).tasks ==> id in Drain(s, q).cached
    decreases |q|
  {
    var s' := RunOne(s, q[0]);
    if q[0] != id {
      DrainCachesPolled(s', q[1..], id);
    } else if id in s'.cached {
      DrainKeepsCached(s', q[1..], id);
    } else {
      DrainNoNewTasks(s', q[1..]);
    }
  }

  // ---------------------------------------------------------------------------
  // The executor

  class Executor {
    var tasks: map<TaskId, Task>
    const taskQueue: ArrayQueue<TaskId>
    var wakerCache: map<TaskId, TaskWaker>

    ghost predicate Valid()
      reads this, taskQueue
    {
      && taskQueue.Valid()
      && taskQueue.capacity == TASK_QUEUE_CAPACITY
      && Wf(Snapshot())
      && (forall id :: id in wakerCache ==>
            wakerCache[id].taskId == id && wakerCache[id].taskQueue == taskQueue)
    }

    function Snapshot(): Sched
      reads this
    {
      Sched(tasks, wakerCache.Keys)
    }

    /** `Executor::new`: no tasks, no wakers, an empty ready queue of capacity 100. */
    constructor ()
      ensures Valid() && fresh(taskQueue)
      ensures tasks == map[] && wakerCache == map[] && taskQueue.items == []
    {
      tasks := map[];
      taskQueue := new ArrayQueue(TASK_QUEUE_CAPACITY);
      wakerCache := map[];
    }

    /** `spawn`: file the task under its id and push the id onto the ready
        queue. A second task with the same id panics (after the map insert
        replaced the first); a full queue panics too. */
    method Spawn(task: Task) returns (outcome: Outcome)
      requires Valid()
      modifies this, taskQueue
      ensures Valid()
      ensures tasks == old(tasks)[task.id := task] && wakerCache == old(wakerCache)
      ensures task.id in old(tasks) ==>
                outcome == Panic(DuplicateTaskId) && taskQueue.items == old(taskQueue.items)
      ensures task.id !in old(tasks) && |old(taskQueue.items)| < TASK_QUEUE_CAPACITY ==>
                outcome == Done && taskQueue.items == old(taskQueue.items) + [task.id]
      ensures task.id !in old(tasks) && |old(taskQueue.items)| == TASK_QUEUE_CAPACITY ==>
                outcome == Panic(TaskQueueFull) && taskQueue.items == old(taskQueue.items)
    {
      var taskId := task.id;
      var existed := taskId in tasks;
      tasks := tasks[taskId := task];
      if existed {
        return Panic(DuplicateTaskId);
      }
      var ok := taskQueue.Push(taskId);
      outcome := if ok then Done else Panic(TaskQueueFull);
    }

    /** `run_ready_tasks`: pop ids until the queue is empty, skipping retired
        ones, reusing a cached waker or creating one, and polling each task
        once. */
    method RunReadyTasks()
      requires Valid()
      modifies this, taskQueue
      ensures Valid()
      ensures taskQueue.items == []
      ensures Snapshot() == Drain(old(Snapshot()), old(taskQueue.items))
    {
      var popped := taskQueue.Pop();
      while popped.Some?
        invariant Valid()
        invariant popped.None? ==> taskQueue.items == []
        invariant Drain(Snapshot(), (if popped.Some? then [popped.value] else []) + taskQueue.items)
                  == Drain(old(Snapshot()), old(taskQueue.items))
        decreases |taskQueue.items| + (if popped.Some? then 1 else 0)
      {
        var taskId := popped.value;
        DrainFront(Snapshot(), taskId, taskQueue.items);
        PollPopped(taskId);
        popped := taskQueue.Pop();
      }
    }

    /** The body of the drain loop for one popped id: ignore it when its task
        is gone; otherwise fetch or create its waker and poll the task, and on
        `Ready` remove the task and its waker together. */
    method PollPopped(taskId: TaskId)
      requires Valid()
      modifies this
      ensures Valid()
      ensures Snapshot() == RunOne(old(Snapshot()), taskId)
      ensures taskId in old(wakerCache) && taskId in wakerCache ==>
                wakerCache[taskId] == old(wakerCache[taskId])
      ensures taskId !in old(wakerCache) && taskId in wakerCache ==> fresh(wakerCache[taskId])
      ensures forall id :: id != taskId && id in old(wakerCache) ==>
                id in wakerCache && wakerCache[id] == old(wakerCache[id])
    {
      if taskId !in tasks {
        return;
      }
      var waker: TaskWaker;
      if taskId in wakerCache {
        waker := wakerCache[taskId];
      } else {
        waker := new TaskWaker(taskId, taskQueue);
        wakerCache := wakerCache[taskId := waker];
      }
      var (result, task) := Poll(tasks[taskId]);
      match result
      case Ready =>
        tasks := tasks - {taskId};
        wakerCache := wakerCache - {taskId};
      case Pending =>
        tasks := tasks[taskId := task];
    }

    /** The decision of `sleep_if_idle`: with interrupts off, halt exactly when
        the ready queue is empty. */
    method SleepIfIdle() returns (halt: bool)
      requires Valid()
      ensures halt <==> taskQueue.items == []
    {
      halt := taskQueue.IsEmpty();
    }
  }
}
