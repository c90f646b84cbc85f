/** The module-level `_tasks` dictionary: which task each thread of control
    is currently working for. The thread is an explicit argument here where
    the source reads `thread.get_ident()`; every operation is one atomic
    step on the map. */
module TaskRegistry {
  import opened Options

  type ThreadId = int
  type TaskId = int
  type Registry = map<ThreadId, TaskId>

  /** The empty registry of a freshly started process. */
  const Empty: Registry := map[]

  /** At process start no thread is bound; after any calls, a thread that
      made none is still unbound. */
  lemma EmptyUnbound(calls: seq<Call>, thread: ThreadId)
    requires Own(calls, thread) == []
    ensures Lookup(Empty, thread) == None
    ensures Lookup(Run(Empty, calls), thread) == None
  {
    Isolation(Empty, calls, [], thread);
  }

  /** `_tasks.get(thread)`. */
  function Lookup(reg: Registry, thread: ThreadId): (r: Option<TaskId>)
    ensures r.Some? <==> thread in reg
    ensures r.Some? ==> r.value == reg[thread]
  {
    if thread in reg then Some(reg[thread]) else None
  }

  /** `task_log_start(task)` run on `thread`: binds the thread to the task,
      replacing any earlier binding of that thread. */
  function Start(reg: Registry, thread: ThreadId, task: TaskId): (r: Registry)
    ensures Lookup(r, thread) == Some(task)
    ensures r.Keys == reg.Keys + {thread}
    ensures forall t :: t != thread ==> Lookup(r, t) == Lookup(reg, t)
  {
    reg[thread := task]
  }

  /** `task_log_stop(task)` run on `thread`: drops the thread's binding,
      whatever task it names and whether or not there is one. */
  function Stop(reg: Registry, thread: ThreadId, task: TaskId): (r: Registry)
    ensures Lookup(r, thread) == None
    ensures r.Keys == reg.Keys - {thread}
    ensures forall t :: t != thread ==> Lookup(r, t) == Lookup(reg, t)
  {
    reg - {thread}
  }

  /** The task argument of `task_log_stop` plays no part. */
  lemma StopIgnoresTask(reg: Registry, thread: ThreadId, a: TaskId, b: TaskId)
    ensures Stop(reg, thread, a) == Stop(reg, thread, b)
  {
  }

  /** Stop undoes Start on a thread that had no binding. */
  lemma StopUndoesStart(reg: Registry, thread: ThreadId, task: TaskId, other: TaskId)
    requires thread !in reg
    ensures Stop(Start(reg, thread, task), thread, other) == reg
  {
    assert Stop(Start(reg, thread, task), thread, other).Keys == reg.Keys;
  }

  /** A second Start on the same thread overwrites the first. */
  lemma StartOverwrites(reg: Registry, thread: ThreadId, a: TaskId, b: TaskId)
    ensures Start(Start(reg, thread, a), thread, b) == Start(reg, thread, b)
  {
  }

  /** Operations on different threads commute. */
  lemma StartCommutes(reg: Registry, t1: ThreadId, a: TaskId, t2: ThreadId, b: TaskId)
    requires t1 != t2
    ensures Start(Start(reg, t1, a), t2, b) == Start(Start(reg, t2, b), t1, a)
  {
  }

  // ---------------------------------------------------------------------
  // Interleavings of start/stop calls made by many threads.

  /** One call of `task_log_start` or `task_log_stop`, with the thread it ran on. */
  datatype Call = StartCall(thread: ThreadId, task: TaskId) | StopCall(thread: ThreadId, task: TaskId)

  function Apply(reg: Registry, c: Call): Registry {
    match c
    case StartCall(t, k) => Start(reg, t, k)
    case StopCall(t, k) => Stop(reg, t, k)
  }

  /** The registry after the calls of `calls`, in order. */
  function Run(reg: Registry, calls: seq<Call>): Registry
    decreases |calls|
  {
    if |calls| == 0 then reg
    else Apply(Run(reg, calls[..|calls| - 1]), calls[|calls| - 1])
  }

  /** What `thread` should see after `calls`: its own last call decides (a
      start binds, a stop unbinds); with no call of its own it sees what it
      saw before. */
  function Settled(reg: Registry, calls: seq<Call>, thread: ThreadId): Option<TaskId>
    decreases |calls|
  {
    if |calls| == 0 then Lookup(reg, thread)
    else
      var last := calls[|calls| - 1];
      if last.thread == thread then
        (if last.StartCall? then Some(last.task) else None)
      else Settled(reg, calls[..|calls| - 1], thread)
  }

  /** The calls of `calls` made by `thread`, in order. */
  function Own(calls: seq<Call>, thread: ThreadId): (r: seq<Call>)
    ensures |r| <= |calls|
    ensures forall i :: 0 <= i < |r| ==> r[i].thread == thread
    decreases |calls|
  {
    if |calls| == 0 then []
    else
      var last := calls[|calls| - 1];
      Own(calls[..|calls| - 1], thread) + (if last.thread == thread then [last] else [])
  }

  /** Each thread's lookup after any interleaving is decided by its own last
      call alone. */
  lemma {:induction false} RunSettles(reg: Registry, calls: seq<Call>, thread: ThreadId)
    ensures Lookup(Run(reg, calls), thread) == Settled(reg, calls, thread)
    decreases |calls|
  {
    if |calls| > 0 {
      RunSettles(reg, calls[..|calls| - 1], thread);
    }
  }

  /** The calls other threads make, and how they interleave with this
      thread's calls, do not change what this thread sees. */
  lemma {:induction false} SettledOwnCalls(reg: Registry, calls: seq<Call>, thread: ThreadId)
    ensures Settled(reg, calls, thread) == Settled(reg, Own(calls, thread), thread)
    decreases |calls|
  {
    if |calls| > 0 {
      var init := calls[..|calls| - 1];
      var last := calls[|calls| - 1];
      SettledOwnCalls(reg, init, thread);
      if last.thread == thread {
        var own := Own(calls, thread);
        assert own[..|own| - 1] == Own(init, thread);
      }
    }
  }

  /** Thread isolation: two runs that agree on one thread's calls leave that
      thread with the same task, however the other threads' calls fall. */
  lemma Isolation(reg: Registry, calls1: seq<Call>, calls2: seq<Call>, thread: ThreadId)
    requires Own(calls1, thread) == Own(calls2, thread)
    ensures Lookup(Run(reg, calls1), thread) == Lookup(Run(reg, calls2), thread)
  {
    RunSettles(reg, calls1, thread);
    RunSettles(reg, calls2, thread);
    SettledOwnCalls(reg, calls1, thread);
    SettledOwnCalls(reg, calls2, thread);
  }
}
