/**
 * The task queue between the producer and the workers (`asyncio.Queue`): the
 * pending tasks in FIFO order, and the count of tasks put but not yet marked
 * done, which `join` waits on.
 */
module Tasks {
  import opened Wrappers
  import Store
  import Posts

  /** A queued task: the id of the page record the post belongs to, and the raw post entry. */
  datatype Task = Task(page: Store.RecordId, soup: Posts.PostSoup)

  class TaskQueue {
    var tasks: seq<Task>
    var unfinished: nat

    /** Every queued task is unfinished; the excess is the tasks taken out but not yet done. */
    ghost predicate Valid()
      reads this
    {
      |tasks| <= unfinished
    }

    /** Tasks dequeued by a worker and not yet marked done. */
    ghost function InFlight(): nat
      reads this
      requires Valid()
    {
      unfinished - |tasks|
    }

    /** What `join` waits for: every task put has been marked done. */
    predicate Drained()
      reads this
    {
      unfinished == 0
    }

    constructor ()
      ensures Valid() && tasks == [] && unfinished == 0
    {
      tasks := [];
      unfinished := 0;
    }

    /** `put`: the queue is unbounded, so this never waits. */
    method Put(t: Task)
      requires Valid()
      modifies this
      ensures Valid() && InFlight() == old(InFlight())
      ensures tasks == old(tasks) + [t] && unfinished == old(unfinished) + 1
    {
      tasks := tasks + [t];
      unfinished := unfinished + 1;
    }

    /**
     * `get` on a queue that has a task: the oldest one. On an empty queue `get`
     * suspends; here that is `None`, and nothing changes.
     */
    method TryGet() returns (t: Option<Task>)
      requires Valid()
      modifies this
      ensures Valid() && unfinished == old(unfinished)
      ensures old(tasks) == [] ==> t == None && tasks == []
      ensures old(tasks) != [] ==> t == Some(old(tasks)[0]) && tasks == old(tasks)[1..]
    {
      if tasks == [] {
        t := None;
      } else {
        t := Some(tasks[0]);
        tasks := tasks[1..];
      }
    }

    /** `task_done`: one fewer unfinished task; ValueError (`ok` false) when there is none. */
    method TaskDone() returns (ok: bool)
      modifies this
      ensures ok == (old(unfinished) > 0)
      ensures tasks == old(tasks)
      ensures unfinished == if ok then old(unfinished) - 1 else old(unfinished)
    {
      ok := unfinished > 0;
      if ok {
        unfinished := unfinished - 1;
      }
    }
  }
}
