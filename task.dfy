/** A task: an identity and a pinned future with no output. The future itself
    is abstracted to the one thing the executors observe about it: how many
    more polls answer `Pending` before one answers `Ready`. */
module Tasks {

  type TaskId = nat

  /** `Poll<()>`. */
  datatype PollResult = Ready | Pending

  datatype Task = Task(id: TaskId, pendingPolls: nat)

  /** `Task::poll`: one step of the future. It answers `Pending` as long as
      some pending polls remain, each consuming one, and `Ready` after that;
      the identity never changes. */
  function Poll(t: Task): (r: (PollResult, Task))
    ensures r.1.id == t.id
    ensures r.0 == Ready <==> t.pendingPolls == 0
    ensures r.0 == Pending ==> r.1.pendingPolls + 1 == t.pendingPolls
  {
    if t.pendingPolls == 0 then (Ready, t)
    else (Pending, t.(pendingPolls := t.pendingPolls - 1))
  }
}
