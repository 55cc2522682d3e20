/** The task runner of src/thread.py on its synchronous path: a task wraps
    a call and goes PENDING, RUNNING, FINISHED at most once; a runner drains
    its queue in order into a list of finished tasks.  The wrapped function
    and its arguments are reduced to what calling it gives: a value, or the
    exception it raises. */
module Tasks {
  import opened Wrappers

  /** `Task.STATE`. */
  datatype State = Pending | Running | Finished

  const AlreadyRunning := Exception("Task already running")
  const NotFinished := Exception("Task not finished")

  class Task<V> {
    /** What `func(*args, **kwargs)` gives. */
    const call: Result<V>
    var state: State
    /** `__result`: `None` until the call has returned. */
    var result: Option<V>

    /** A finished task holds what its call returned. */
    ghost predicate Valid()
      reads this
    {
      (state == Pending ==> result == None)
      && (state == Finished ==> call.Ok? && result == Some(call.value))
    }

    /** The task ran to the end: it is FINISHED and holds the value its
        call returned. */
    ghost predicate Completed()
      reads this
    {
      state == Finished && call.Ok? && result == Some(call.value)
    }

    /** `Task(func, *args, **kwargs)`: a new task is pending. */
    constructor (call: Result<V>)
      ensures Valid()
      ensures this.call == call && state == Pending && result == None
    {
      this.call := call;
      state := Pending;
      result := None;
    }

    /** `run`: only a pending task runs.  It is RUNNING while its call
      executes; when the call returns the task is FINISHED with the value
      stored; when the call raises, the exception propagates and the task
      stays RUNNING. */
    method Run() returns (r: Outcome)
      requires Valid()
      modifies this`state, this`result
      ensures Valid()
      ensures state != Pending
      ensures old(state) != Pending ==> r == Fail(AlreadyRunning) && state == old(state) && result == old(result)
      ensures old(state) == Pending && call.Err? ==> r == Fail(call.error) && state == Running && result == old(result)
      ensures old(state) == Pending && call.Ok? ==> r == Pass && state == Finished && result == Some(call.value)
    {
      if state != Pending {
        return Fail(AlreadyRunning);
      }
      state := Running;
      if call.Err? {
        return Fail(call.error);
      }
      result := Some(call.value);
      state := Finished;
      r := Pass;
    }

    /** `getState`. */
    method GetState() returns (s: State)
      ensures s == state
    {
      s := state;
    }

    /** `getResult`: the value the call returned, and an error for a task
      that has not finished. */
    method GetResult() returns (r: Result<V>)
      requires Valid()
      ensures r.Err? <==> state != Finished
      ensures r.Err? ==> r.error == NotFinished
      ensures r.Ok? ==> call == Ok(r.value) && result == Some(r.value)
    {
      if state != Finished {
        return Err(NotFinished);
      }
      r := Ok(result.value);
    }
  }

  /** No task appears twice in `q`, every one of them is pending and its
      call returns: exactly the queues whose draining raises nothing. */
  ghost predicate RunsClean<V>(q: seq<Task<V>>)
    reads q
  {
    forall i :: 0 <= i < |q| ==> q[i] !in q[..i] && q[i].state == Pending && q[i].call.Ok?
  }

  /** The first `n` tasks of `q0` each appear there for the first time,
      were pending when the drain began (`states0`) and have a call that
      returns: each of them runs to the end. */
  ghost predicate CleanUpTo<V>(q0: seq<Task<V>>, states0: seq<State>, n: int) {
    && |states0| == |q0| && 0 <= n <= |q0|
    && forall j :: 0 <= j < n ==> q0[j] !in q0[..j] && states0[j] == Pending && q0[j].call.Ok?
  }

  /** The position where a drain of `q0` stops, where `states0` are the
      states the tasks had when it began: the first task from `i` on that
      appears earlier in the queue, was not pending or has a call that
      raises; `|q0|` when there is none. */
  ghost function StopAt<V>(q0: seq<Task<V>>, states0: seq<State>, i: nat): (k: nat)
    requires |states0| == |q0| && i <= |q0|
    ensures i <= k <= |q0|
    decreases |q0| - i
  {
    if i == |q0| then |q0|
    else if q0[i] in q0[..i] || states0[i] != Pending || q0[i].call.Err? then i
    else StopAt(q0, states0, i + 1)
  }

  /** Past a clean prefix, the stop position is the one found from its end. */
  lemma {:induction false} StopAtPastClean<V>(q0: seq<Task<V>>, states0: seq<State>, i: nat)
    requires CleanUpTo(q0, states0, i)
    ensures StopAt(q0, states0, 0) == StopAt(q0, states0, i)
    decreases i
  {
    if i > 0 {
      StopAtPastClean(q0, states0, i - 1);
    }
  }

  /** The states of the tasks of `q`, in order. */
  ghost function States<V>(q: seq<Task<V>>): (s: seq<State>)
    reads q
    ensures |s| == |q| && forall i :: 0 <= i < |q| ==> s[i] == q[i].state
  {
    seq(|q|, i requires 0 <= i < |q| reads q => q[i].state)
  }

  /** The stored results of the tasks of `q`, in order. */
  ghost function Results<V>(q: seq<Task<V>>): (s: seq<Option<V>>)
    reads q
    ensures |s| == |q| && forall i :: 0 <= i < |q| ==> s[i] == q[i].result
  {
    seq(|q|, i requires 0 <= i < |q| reads q => q[i].result)
  }

  /** The exception a drain of `q0` that stopped at the task at `k` lets
      through, where `states0` are the states the tasks had when the drain
      began: "Task already running" when that task had run earlier in the
      drain or was not pending, otherwise what its own call raised. */
  ghost predicate Raised<V>(q0: seq<Task<V>>, states0: seq<State>, k: int, r: Outcome) {
    && 0 <= k < |q0| == |states0|
    && if q0[k] in q0[..k] || states0[k] != Pending then r == Fail(AlreadyRunning)
       else q0[k].call.Err? && r == Fail(q0[k].call.error)
  }

  /** Every task of `q0` from `i` on that is not one of the first `i`
      still holds the state and result recorded in `states0`, `results0`. */
  ghost predicate Untouched<V>(q0: seq<Task<V>>, i: int, states0: seq<State>, results0: seq<Option<V>>)
    reads q0
  {
    && |states0| == |q0| == |results0| && 0 <= i <= |q0|
    && forall j :: i <= j < |q0| && q0[j] !in q0[..i] ==> q0[j].state == states0[j] && q0[j].result == results0[j]
  }

  /** The task at `k`, which raised, when it had not run earlier in the
      drain: a task pending when the drain began is left RUNNING, any other
      keeps its state, and its result stays as recorded. */
  ghost predicate LeftRaising<V>(q0: seq<Task<V>>, k: int, states0: seq<State>, results0: seq<Option<V>>)
    reads q0
  {
    && |states0| == |q0| == |results0| && 0 <= k < |q0|
    && (q0[k] !in q0[..k] ==>
          q0[k].state == (if states0[k] == Pending then Running else states0[k]) && q0[k].result == results0[k])
  }

  class Runner<V> {
    /** `__tasksToRun`, front first. */
    var queue: seq<Task<V>>
    /** `__taskDone`, in the order the tasks finished. */
    var done: seq<Task<V>>
    var running: bool

    /** `Runner()`: nothing queued, nothing done. */
    constructor ()
      ensures queue == [] && done == [] && !running
    {
      queue := [];
      done := [];
      running := false;
    }

    /** `addTask`: the task joins the back of the queue. */
    method AddTask(task: Task<V>)
      modifies this`queue
      ensures queue == old(queue) + [task]
    {
      queue := queue + [task];
    }

    /** `runSync`: the runner is switched on and drains its queue. */
    method RunSync() returns (r: Outcome)
      requires forall i :: 0 <= i < |queue| ==> queue[i].Valid()
      modifies this`queue, this`done, this`running, queue
      ensures running
      ensures r.Pass? ==> queue == [] && done == old(done) + old(queue)
      ensures r.Fail? ==> |old(done)| <= |done| < |old(done)| + |old(queue)|
      ensures r.Fail? ==> done == old(done) + old(queue)[..|done| - |old(done)|]
                          && queue == old(queue)[|done| - |old(done)| + 1..]
      ensures forall j :: |old(done)| <= j < |done| ==> done[j].Completed()
      ensures old(RunsClean(queue)) <==> r.Pass?
      ensures r.Fail? ==> Raised(old(queue), old(States(queue)), |done| - |old(done)|, r)
      ensures r.Fail? ==> forall j :: 0 <= j < |queue| ==> queue[j].Valid()
      ensures r.Fail? ==> Untouched(old(queue), |done| - |old(done)| + 1, old(States(queue)), old(Results(queue)))
      ensures r.Fail? ==> LeftRaising(old(queue), |done| - |old(done)|, old(States(queue)), old(Results(queue)))
      ensures r.Fail? ==> |done| - |old(done)| == StopAt(old(queue), old(States(queue)), 0)
    {
      ghost var states0, results0 := States(queue), Results(queue);
      running := true;
      assert States(queue) == states0 && Results(queue) == results0;
      r := Drain();
      forall j | |old(done)| <= j < |done| ensures done[j].Completed() {
        assert done[j] == old(queue)[j - |old(done)|];
      }
    }

    /** `__run`: while the runner is on, tasks are taken from the front of
      the queue and run one after the other, each going to the end of the
      done list once it finished.  The first task that raises stops the
      run: it has left the queue without reaching the done list. */
    method Drain() returns (r: Outcome)
      requires running
      requires forall i :: 0 <= i < |queue| ==> queue[i].Valid()
      modifies this`queue, this`done, queue
      ensures Drained(old(queue), old(done), old(RunsClean(queue)), r)
      ensures r.Fail? ==> Raised(old(queue), old(States(queue)), |done| - |old(done)|, r)
      ensures r.Fail? ==> Untouched(old(queue), |done| - |old(done)| + 1, old(States(queue)), old(Results(queue)))
      ensures r.Fail? ==> LeftRaising(old(queue), |done| - |old(done)|, old(States(queue)), old(Results(queue)))
      ensures r.Fail? ==> |done| - |old(done)| == StopAt(old(queue), old(States(queue)), 0)
    {
      ghost var k;
      r, k := DrainFrom(queue, done, RunsClean(queue), States(queue), Results(queue));
    }

    /** The loop of `__run` on the queue `q0` and the done list `d0`, whose
      tasks held the states `states0` and results `results0` when it began;
      on failure `k` is the position of the task that raised. */
    method DrainFrom(ghost q0: seq<Task<V>>, ghost d0: seq<Task<V>>, ghost clean: bool,
                     ghost states0: seq<State>, ghost results0: seq<Option<V>>)
      returns (r: Outcome, ghost k: nat)
      requires running && queue == q0 && done == d0 && (clean <==> CleanUpTo(q0, states0, |q0|))
      requires forall j :: 0 <= j < |q0| ==> q0[j].Valid()
      requires Untouched(q0, 0, states0, results0)
      modifies this`queue, this`done, q0
      ensures Drained(q0, d0, clean, r)
      ensures r.Fail? ==> k == |done| - |d0| && Raised(q0, states0, k, r)
      ensures r.Fail? ==> Untouched(q0, k + 1, states0, results0)
      ensures r.Fail? ==> LeftRaising(q0, k, states0, results0)
      ensures r.Fail? ==> k == StopAt(q0, states0, 0)
    {
      var i := 0;
      k := 0;
      while running && queue != []
        invariant 0 <= i <= |q0|
        invariant queue == q0[i..] && done == d0 + q0[..i]
        invariant forall j :: i <= j < |q0| ==> q0[j].Valid()
        invariant forall j :: 0 <= j < i ==> q0[j].Completed()
        invariant CleanUpTo(q0, states0, i)
        invariant Untouched(q0, i, states0, results0)
        decreases |queue|
      {
        var ran := RunFront(q0, d0, clean, i, states0, results0);
        if ran.Fail? {
          StopAtPastClean(q0, states0, i);
          DrainedAtFailure(q0, d0, clean, i, ran);
          return ran, i;
        }
        i := i + 1;
      }
      DrainedAtEnd(q0, d0, clean, i);
      r := Pass;
    }

    /** One turn of the loop of `__run`: the front task leaves the queue and
      runs; when it returns it joins the end of the done list. */
    method RunFront(ghost q0: seq<Task<V>>, ghost d0: seq<Task<V>>, ghost clean: bool, ghost i: nat,
                    ghost states0: seq<State>, ghost results0: seq<Option<V>>)
      returns (ran: Outcome)
      requires i < |q0| && queue == q0[i..] && done == d0 + q0[..i]
      requires Untouched(q0, i, states0, results0)
      requires forall j :: i <= j < |q0| ==> q0[j].Valid()
      requires forall j :: 0 <= j < i ==> q0[j].Completed()
      requires clean <==> CleanUpTo(q0, states0, |q0|)
      requires CleanUpTo(q0, states0, i)
      modifies this`queue, this`done, q0[i]
      ensures queue == q0[i + 1..]
      ensures ran.Fail? ==> done == old(done) && !clean
      ensures ran.Pass? ==> done == d0 + q0[..i + 1]
      ensures forall j :: i < j < |q0| ==> q0[j].Valid()
      ensures forall j :: 0 <= j < i + (if ran.Pass? then 1 else 0) ==> q0[j].Completed()
      ensures ran.Pass? ==> CleanUpTo(q0, states0, i + 1)
      ensures ran.Fail? ==> Raised(q0, states0, i, ran) && LeftRaising(q0, i, states0, results0)
      ensures ran.Fail? ==> StopAt(q0, states0, i) == i
      ensures Untouched(q0, i + 1, states0, results0)
      ensures old(q0[i].state) != Pending ==> ran == Fail(AlreadyRunning)
      ensures old(q0[i].state) == Pending ==> ran == if q0[i].call.Ok? then Pass else Fail(q0[i].call.error)
      ensures forall j :: i < j < |q0| && q0[j] != q0[i] ==>
                q0[j].state == old(q0[j].state) && q0[j].result == old(q0[j].result)
    {
      var task := queue[0];
      queue := queue[1..];
      ran := task.Run();
      assert q0[..i + 1] == q0[..i] + [task];
      if ran.Pass? {
        done := done + [task];
      }
    }

    /** What draining the queue `q0` onto the done list `d0` leaves when it
      ends with `r`: on success the whole queue is done; on failure a prefix
      of it is done and the task after that prefix is gone from the queue;
      every task that reached the done list finished with its value; and it
      succeeds exactly on a clean queue (`clean`). */
    ghost predicate Drained(q0: seq<Task<V>>, d0: seq<Task<V>>, clean: bool, r: Outcome)
      reads this, q0
    {
      (r.Pass? ==> queue == [] && done == d0 + q0)
      && (r.Fail? ==> |d0| <= |done| < |d0| + |q0|
                      && done == d0 + q0[..|done| - |d0|] && queue == q0[|done| - |d0| + 1..]
                      && forall j :: 0 <= j < |queue| ==> queue[j].Valid())
      && (forall j :: 0 <= j < |done| - |d0| && j < |q0| ==> q0[j].Completed())
      && (clean <==> r.Pass?)
    }

    lemma DrainedAtFailure(q0: seq<Task<V>>, d0: seq<Task<V>>, clean: bool, i: nat, r: Outcome)
      requires i < |q0| && done == d0 + q0[..i] && queue == q0[i + 1..]
      requires forall j :: i < j < |q0| ==> q0[j].Valid()
      requires forall j :: 0 <= j < i ==> q0[j].Completed()
      requires r.Fail? && !clean
      ensures Drained(q0, d0, clean, r)
    {
    }

    lemma DrainedAtEnd(q0: seq<Task<V>>, d0: seq<Task<V>>, clean: bool, i: nat)
      requires i == |q0| && done == d0 + q0[..i] && queue == [] && clean
      requires forall j :: 0 <= j < i ==> q0[j].Completed()
      ensures Drained(q0, d0, clean, Pass)
    {
      assert q0[..i] == q0;
    }

    /** `getTasks`: the finished tasks. */
    method GetTasks() returns (tasks: seq<Task<V>>)
      ensures tasks == done
    {
      tasks := done;
    }
  }

  /** A runner holding a task that raises `e` and then one that returns
      `v`: `runSync` propagates `e` and leaves the second task pending in
      the queue, so a second `runSync` runs it and succeeds. */
  method RaiseThenRerun<V>(e: Error, v: V) returns (first: Outcome, second: Outcome, tasks: seq<Task<V>>)
    ensures first == Fail(e) && second == Pass
    ensures |tasks| == 1 && tasks[0].Completed() && tasks[0].result == Some(v)
  {
    var runner, returning;
    runner, returning, first := RaiseFirst(e, v);
    second := runner.RunSync();
    tasks := runner.GetTasks();
  }

  /** The first `runSync` of `RaiseThenRerun`. */
  method RaiseFirst<V>(e: Error, v: V) returns (runner: Runner<V>, returning: Task<V>, first: Outcome)
    ensures fresh(runner) && fresh(returning)
    ensures first == Fail(e)
    ensures runner.done == [] && runner.queue == [returning]
    ensures returning.Valid() && returning.state == Pending && returning.call == Ok(v)
  {
    var failing := new Task(Err(e));
    returning := new Task(Ok(v));
    runner := QueueOf(failing, returning);
    ghost var q := runner.queue;
    assert q == [failing, returning] && States(q) == [Pending, Pending];
    assert !RunsClean(q) by { assert q[0].call.Err?; }
    // the drain stops at the first task, which raises
    assert StopAt(q, States(q), 0) == 0;
    // the second task is not the first, so the drain leaves it as it was
    assert q[1] !in q[..1];
    first := runner.RunSync();
    assert |runner.done| == 0;
    assert runner.queue == q[1..];
  }

  /** A new runner with `a` and then `b` added to its queue. */
  method QueueOf<V>(a: Task<V>, b: Task<V>) returns (runner: Runner<V>)
    ensures fresh(runner) && runner.queue == [a, b] && runner.done == []
  {
    runner := new Runner<V>();
    runner.AddTask(a);
    runner.AddTask(b);
  }

  /** The same returning task queued twice: it runs and finishes once, and
      reaching it again raises "Task already running". */
  method TwiceQueuedRaises<V>(v: V) returns (r: Outcome, tasks: seq<Task<V>>)
    ensures r == Fail(AlreadyRunning)
    ensures |tasks| == 1 && tasks[0].Completed() && tasks[0].result == Some(v)
  {
    var t := new Task(Ok(v));
    var runner := QueueOf(t, t);
    ghost var q := runner.queue;
    ghost var s := States(q);
    assert q == [t, t] && s == [Pending, Pending];
    // the drain stops when it reaches `t` a second time
    assert q[..1] == [t];
    assert StopAt(q, s, 1) == 1;
    assert StopAt(q, s, 0) == 1;
    r := runner.RunSync();
    tasks := runner.GetTasks();
  }

  /** A task queued again after a `runSync` that finished it: the second
      `runSync` raises "Task already running" and the task keeps its result. */
  method RequeuedRaises<V>(v: V) returns (first: Outcome, second: Outcome, result: Option<V>)
    ensures first == Pass && second == Fail(AlreadyRunning)
    ensures result == Some(v)
  {
    var runner, t;
    runner, t, first := RunOnce(v);
    runner.AddTask(t);
    assert runner.queue == [t];
    assert runner.queue[0].state == Finished;
    second := runner.RunSync();
    result := t.result;
  }

  /** The first `runSync` of `RequeuedRaises`: a returning task runs and
      finishes. */
  method RunOnce<V>(v: V) returns (runner: Runner<V>, t: Task<V>, first: Outcome)
    ensures fresh(runner) && fresh(t)
    ensures first == Pass && runner.queue == [] && t.Completed() && t.call == Ok(v)
  {
    t := new Task(Ok(v));
    runner := new Runner<V>();
    runner.AddTask(t);
    assert runner.queue == [t] && RunsClean(runner.queue);
    first := runner.RunSync();
    assert runner.done == [t];
    assert runner.done[0].Completed();
  }
}
