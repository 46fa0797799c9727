/** The simple executor: a FIFO of tasks polled round-robin with a waker
    that does nothing. A task that answers `Ready` is dropped; one that answers
    `Pending` goes to the back of the queue. */
module SimpleExecutor {
  import opened Tasks

  /** How many polls the tasks in q still take before the queue is empty:
      each answers `Pending` pendingPolls times and then `Ready` once. */
  function Work(q: seq<Task>): (w: nat)
    ensures w >= |q|
  {
    if q == [] then 0 else q[0].pendingPolls + 1 + Work(q[1..])
  }

  lemma {:induction false} WorkAppend(a: seq<Task>, b: seq<Task>)
    ensures Work(a + b) == Work(a) + Work(b)
  {
    if a != [] {
      assert (a + b)[0] == a[0] && (a + b)[1..] == a[1..] + b;
      WorkAppend(a[1..], b);
    } else {
      assert a + b == b;
    }
  }

  /** One turn of `run`: pop the front task and poll it; push it back when it
      answers `Pending`. The queue never grows: it keeps its length exactly
      when the task is pending, and the remaining tasks keep their order. */
  function Step(q: seq<Task>): (r: seq<Task>)
    requires q != []
    ensures |r| == |q| <==> q[0].pendingPolls > 0
    ensures |r| == |q| || |r| == |q| - 1
    ensures r[..|q| - 1] == q[1..]
    ensures q[0].pendingPolls > 0 ==> r[|q| - 1] == Poll(q[0]).1
    ensures Work(r) + 1 == Work(q)
  {
    var (result, t) := Poll(q[0]);
    WorkAppend(q[1..], [t]);
    if result == Ready then q[1..] else q[1..] + [t]
  }

  /** The ids of the tasks, in queue order. */
  function Ids(q: seq<Task>): (ids: seq<TaskId>)
    ensures |ids| == |q|
  {
    if q == [] then [] else [q[0].id] + Ids(q[1..])
  }

  /** The ids in the order `run` polls them until the queue is empty. */
  function Trace(q: seq<Task>): seq<TaskId>
    decreases Work(q)
  {
    if q == [] then [] else [q[0].id] + Trace(Step(q))
  }

  /** `run` polls exactly as often as the tasks need: Work(q) times. */
  lemma {:induction false} TraceLength(q: seq<Task>)
    ensures |Trace(q)| == Work(q)
    decreases Work(q)
  {
    if q != [] {
      TraceLength(Step(q));
    }
  }

  /** The first |q| polls visit the queued tasks once each, front to back. */
  lemma {:induction false} FirstRoundInOrder(q: seq<Task>, k: nat)
    requires k <= |q|
    ensures |Trace(q)| >= k
    ensures Trace(q)[..k] == Ids(q[..k])
    decreases k
  {
    TraceLength(q);
    if k > 0 {
      var r := Step(q);
      FirstRoundInOrder(r, k - 1);
      assert r[..k - 1] == q[1..k];
      assert q[..k][1..] == q[1..k];
      assert Trace(q)[..k] == [q[0].id] + Trace(r)[..k - 1];
    }
  }

  /** The tasks of q that answer `Pending`, in order, each one poll further on. */
  function Survivors(q: seq<Task>): seq<Task>
  {
    if q == [] then []
    else
      var (result, t) := Poll(q[0]);
      (if result == Pending then [t] else []) + Survivors(q[1..])
  }

  /** k turns of `run`, stopping early on an empty queue. */
  function Steps(q: seq<Task>, k: nat): seq<Task>
    decreases k
  {
    if k == 0 || q == [] then q else Steps(Step(q), k - 1)
  }

  /** Round robin: after k <= |q| turns the untouched tasks are still at the
      front in their order, followed by the pending ones of the first k, in
      the order they were polled. */
  lemma {:induction false} RoundRobin(q: seq<Task>, k: nat)
    requires k <= |q|
    ensures Steps(q, k) == q[k..] + Survivors(q[..k])
    decreases k
  {
    if k > 0 {
      var r := Step(q);
      RoundRobin(r, k - 1);
      assert r[..k - 1] == q[1..k];
      assert r[k - 1..] == q[k..] + (r[|q| - 1..]);
      assert q[..k][1..] == q[1..k];
    }
  }

  /** A full round leaves exactly the pending tasks, in their original order. */
  lemma FullRound(q: seq<Task>)
    ensures Steps(q, |q|) == Survivors(q)
  {
    RoundRobin(q, |q|);
    assert q[..|q|] == q;
  }

  class SimpleExecutor {
    var taskQueue: seq<Task>

    /** `SimpleExecutor::new`: an empty queue. */
    constructor ()
      ensures taskQueue == []
    {
      taskQueue := [];
    }

    /** `spawn`: the task joins the back of the queue. */
    method Spawn(task: Task)
      modifies this
      ensures taskQueue == old(taskQueue) + [task]
    {
      taskQueue := taskQueue + [task];
    }

    /** `run`: poll front tasks until the queue is empty. `polled` records the
        ids in the order they were polled. */
    method Run() returns (ghost polled: seq<TaskId>)
      modifies this
      ensures taskQueue == []
      ensures polled == Trace(old(taskQueue))
    {
      polled := [];
      while taskQueue != []
        invariant polled + Trace(taskQueue) == Trace(old(taskQueue))
        decreases Work(taskQueue)
      {
        ghost var before := taskQueue;
        var task := taskQueue[0];
        taskQueue := taskQueue[1..];
        var (result, polledTask) := Poll(task);
        match result {
          case Ready =>
          case Pending =>
            taskQueue := taskQueue + [polledTask];
        }
        polled := polled + [task.id];
        assert taskQueue == Step(before);
      }
    }
  }
}
