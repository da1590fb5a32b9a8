/** rxc/src/schedulers/trampoline.c: a worker that queues tasks in a linked list
    and runs them one after the other, however deep they schedule each other. */
module Trampoline {
  class Node<T> {
    const ctx: T
    var prev: Node?<T>

    constructor (ctx: T)
      ensures this.ctx == ctx && prev == null
    {
      this.ctx := ctx;
      prev := null;
    }
  }

  function Ctxs<T>(spine: seq<Node<T>>): (q: seq<T>)
    ensures |q| == |spine|
  {
    seq(|spine|, i requires 0 <= i < |spine| => spine[i].ctx)
  }

  class Worker<T> {
    var head: Node?<T>
    var tail: Node?<T>
    var wip: bool

    /** The nodes from `head` to `tail`. */
    ghost var spine: seq<Node<T>>

    ghost predicate Valid()
      reads this, spine
    {
      && (spine == [] ==> head == null && tail == null)
      && (spine != [] ==> head == spine[0] && tail == spine[|spine| - 1] && tail.prev == null)
      && (forall i, j | 0 <= i < j < |spine| :: spine[i] != spine[j])
      && (forall i, j | 0 <= i && j == i + 1 && j < |spine| :: spine[i].prev == spine[j])
    }

    ghost function Contents(): (q: seq<T>)
      reads `spine
      ensures |q| == |spine|
    {
      Ctxs(spine)
    }

    ghost function Nodes(): set<Node<T>>
      reads `spine
    {
      set n <- spine
    }

    constructor ()
      ensures Valid() && Contents() == [] && spine == [] && !wip
    {
      head, tail, wip, spine := null, null, false, [];
    }

    method Enqueue(ctx: T)
      requires Valid()
      modifies this, Nodes()
      ensures Valid() && Contents() == old(Contents()) + [ctx] && wip == old(wip)
      ensures fresh(Nodes() - old(Nodes()))
    {
      var node := new Node(ctx);
      if head == null {
        head := node;
        tail := node;
      } else {
        tail.prev := node;
        tail := node;
      }
      spine := spine + [node];
    }

    method Dequeue() returns (node: Node?<T>)
      requires Valid()
      modifies this
      ensures Valid() && wip == old(wip)
      ensures node == null <==> old(Contents()) == []
      ensures node == null ==> Contents() == []
      ensures node != null ==> [node.ctx] + Contents() == old(Contents())
      ensures Nodes() <= old(Nodes())
    {
      node := head;
      if node == null {
        return;
      }
      head := node.prev;
      if head == null {
        tail := null;
      }
      spine := spine[1..];
    }
  }

  // ----- What a run of the queue is -------------------------------------------

  /** A task, run in state `s`, leaves a new state and schedules a list of tasks. */
  type Body<!S, !T> = (S, T) -> (S, seq<T>)

  datatype Event<T> = Scheduled(task: T) | Began(task: T) | Ended(task: T)

  function Schedulings<T>(tasks: seq<T>): (log: seq<Event<T>>)
    ensures |log| == |tasks| && forall i :: 0 <= i < |log| ==> log[i] == Scheduled(tasks[i])
  {
    seq(|tasks|, i requires 0 <= i < |tasks| => Scheduled(tasks[i]))
  }

  lemma SchedulingsGrow<T>(q: seq<T>, log: seq<Event<T>>, more: seq<T>, i: nat)
    requires i < |more|
    ensures q + more[..i] + [more[i]] == q + more[..i + 1]
    ensures log + Schedulings(more)[..i] + [Scheduled(more[i])] == log + Schedulings(more)[..i + 1]
  {
  }

  /** The queue runs empty after at most `n` tasks. */
  predicate Halts<S, T>(body: Body<S, T>, s: S, q: seq<T>, n: nat)
    decreases n
  {
    |q| == 0 || (n > 0 && var (s', more) := body(s, q[0]); Halts(body, s', q[1..] + more, n - 1))
  }

  function FinalState<S, T>(body: Body<S, T>, s: S, q: seq<T>, n: nat): S
    requires Halts(body, s, q, n)
    decreases n
  {
    if |q| == 0 then s
    else var (s', more) := body(s, q[0]); FinalState(body, s', q[1..] + more, n - 1)
  }

  function Log<S, T>(body: Body<S, T>, s: S, q: seq<T>, n: nat): seq<Event<T>>
    requires Halts(body, s, q, n)
    decreases n
  {
    if |q| == 0 then []
    else
      var (s', more) := body(s, q[0]);
      TaskLog(q[0], more) + Log(body, s', q[1..] + more, n - 1)
  }

  function TaskLog<T>(task: T, more: seq<T>): seq<Event<T>> {
    [Began(task)] + Schedulings(more) + [Ended(task)]
  }

  /** A run from (s0, q0) that has logged `done` and stands at (s, q). */
  ghost predicate Midway<S, T>(
    body: Body<S, T>, s0: S, q0: seq<T>, n: nat, done: seq<Event<T>>, s: S, q: seq<T>, k: nat)
  {
    && Halts(body, s0, q0, n) && Halts(body, s, q, k)
    && FinalState(body, s, q, k) == FinalState(body, s0, q0, n)
    && done + Log(body, s, q, k) == Log(body, s0, q0, n)
  }

  lemma OneTaskOn<S, T>(body: Body<S, T>, s0: S, q0: seq<T>, n: nat, done: seq<Event<T>>, s: S, q: seq<T>, k: nat)
    requires |q| > 0 && Midway(body, s0, q0, n, done, s, q, k)
    ensures var (s', more) := body(s, q[0]);
            k > 0 && Midway(body, s0, q0, n, done + TaskLog(q[0], more), s', q[1..] + more, k - 1)
  {
    var (s', more) := body(s, q[0]);
    var task, rest := TaskLog(q[0], more), Log(body, s', q[1..] + more, k - 1);
    assert done + (task + rest) == (done + task) + rest;
  }

  /** A worker together with the tasks that it runs. */
  class Program<S, T> {
    const worker: Worker<T>
    const body: Body<S, T>
    var state: S
    ghost var log: seq<Event<T>>

    constructor (body: Body<S, T>, state: S)
      ensures this.body == body && this.state == state && log == []
      ensures fresh(worker) && worker.Valid() && worker.Contents() == [] && worker.spine == [] && !worker.wip
    {
      this.worker := new Worker();
      this.body := body;
      this.state := state;
      log := [];
    }

    /** Scheduling from inside a task only appends to the queue; the outermost
        call returns, if the run is finite, with an empty queue. */
    method Schedule(task: T, ghost n: nat)
      requires worker.Valid()
      requires !worker.wip ==> worker.Contents() == [] && Halts(body, state, [task], n)
      modifies this, worker, worker.Nodes()
      ensures worker.Valid() && worker.wip == old(worker.wip)
      ensures fresh(worker.Nodes() - old(worker.Nodes()))
      ensures old(worker.wip) ==>
                && worker.Contents() == old(worker.Contents()) + [task]
                && state == old(state) && log == old(log) + [Scheduled(task)]
      ensures !old(worker.wip) ==>
                && worker.Contents() == []
                && state == FinalState(body, old(state), [task], n)
                && log == old(log) + [Scheduled(task)] + Log(body, old(state), [task], n)
      decreases if worker.wip then 0 else 4
    {
      log := log + [Scheduled(task)];
      worker.Enqueue(task);
      assert !worker.wip ==> worker.Contents() == [task];
      if !worker.wip {
        worker.wip := true;
        Drain(n);
        worker.wip := false;
      }
    }

    /** The loop of `worker_schedule`. */
    method Drain(ghost n: nat)
      requires worker.Valid() && worker.wip
      requires Halts(body, state, worker.Contents(), n)
      modifies this, worker, worker.Nodes()
      ensures worker.Valid() && worker.wip && worker.Contents() == []
      ensures fresh(worker.Nodes() - old(worker.Nodes()))
      ensures state == FinalState(body, old(state), old(worker.Contents()), n)
      ensures log == old(log) + Log(body, old(state), old(worker.Contents()), n)
      decreases 3
    {
      ghost var s0, q0 := state, worker.Contents();
      ghost var k, done := n, [];
      while true
        invariant worker.Valid() && worker.wip
        invariant fresh(worker.Nodes() - old(worker.Nodes()))
        invariant log == old(log) + done
        invariant Midway(body, s0, q0, n, done, state, worker.Contents(), k)
        decreases k
      {
        ghost var s, q := state, worker.Contents();
        var ran := RunNext();
        if !ran {
          break;
        }
        OneTaskOn(body, s0, q0, n, done, s, q, k);
        done, k := done + TaskLog(q[0], body(s, q[0]).1), k - 1;
      }
    }

    /** Lines 91-94: one turn of that loop. */
    method RunNext() returns (ran: bool)
      requires worker.Valid() && worker.wip
      modifies this, worker, worker.Nodes()
      ensures worker.Valid() && worker.wip
      ensures fresh(worker.Nodes() - old(worker.Nodes()))
      ensures ran <==> old(worker.Contents()) != []
      ensures !ran ==> state == old(state) && log == old(log) && worker.Contents() == []
      ensures ran ==>
                var q := old(worker.Contents()); var (s', more) := body(old(state), q[0]);
                && state == s' && worker.Contents() == q[1..] + more
                && log == old(log) + TaskLog(q[0], more)
      decreases 2
    {
      ghost var q := worker.Contents();
      var node := worker.Dequeue();
      if node == null {
        return false;
      }
      assert q[0] == node.ctx && q[1..] == worker.Contents();
      Execute(node.ctx);
      return true;
    }

    method Execute(task: T)
      requires worker.Valid() && worker.wip
      modifies this, worker, worker.Nodes()
      ensures worker.Valid() && worker.wip
      ensures fresh(worker.Nodes() - old(worker.Nodes()))
      ensures var (s', more) := body(old(state), task);
              && state == s'
              && worker.Contents() == old(worker.Contents()) + more
              && log == old(log) + TaskLog(task, more)
      decreases 1
    {
      log := log + [Began(task)];
      var (s', more) := body(state, task);
      state := s';
      for i := 0 to |more|
        invariant worker.Valid() && worker.wip && state == s'
        invariant fresh(worker.Nodes() - old(worker.Nodes()))
        invariant worker.Contents() == old(worker.Contents()) + more[..i]
        invariant log == old(log) + [Began(task)] + Schedulings(more)[..i]
      {
        SchedulingsGrow(old(worker.Contents()), old(log) + [Began(task)], more, i);
        Schedule(more[i], 0);
      }
      log := log + [Ended(task)];
    }
  }

  // ----- The order of a run ------------------------------------------------------

  function Starts<T>(log: seq<Event<T>>): seq<T> {
    if log == [] then []
    else (if log[0].Began? then [log[0].task] else []) + Starts(log[1..])
  }

  function Requests<T>(log: seq<Event<T>>): seq<T> {
    if log == [] then []
    else (if log[0].Scheduled? then [log[0].task] else []) + Requests(log[1..])
  }

  lemma {:induction false} ProjectionsDistribute<T>(a: seq<Event<T>>, b: seq<Event<T>>)
    ensures Starts(a + b) == Starts(a) + Starts(b)
    ensures Requests(a + b) == Requests(a) + Requests(b)
  {
    if a == [] {
      assert a + b == b;
    } else {
      assert (a + b)[0] == a[0] && (a + b)[1..] == a[1..] + b;
      ProjectionsDistribute(a[1..], b);
      var s := if a[0].Began? then [a[0].task] else [];
      assert s + (Starts(a[1..]) + Starts(b)) == (s + Starts(a[1..])) + Starts(b);
      var r := if a[0].Scheduled? then [a[0].task] else [];
      assert r + (Requests(a[1..]) + Requests(b)) == (r + Requests(a[1..])) + Requests(b);
    }
  }

  lemma {:induction false} ProjectionsOfSchedulings<T>(tasks: seq<T>)
    ensures Starts(Schedulings(tasks)) == [] && Requests(Schedulings(tasks)) == tasks
  {
    if tasks != [] {
      assert Schedulings(tasks)[1..] == Schedulings(tasks[1..]);
      ProjectionsOfSchedulings(tasks[1..]);
    }
  }

  lemma ProjectionsOfTask<T>(task: T, more: seq<T>)
    ensures Starts(TaskLog(task, more)) == [task] && Requests(TaskLog(task, more)) == more
  {
    var b, m, e := [Began(task)], Schedulings(more), [Ended(task)];
    ProjectionsDistribute(b + m, e);
    ProjectionsDistribute(b, m);
    ProjectionsOfSchedulings(more);
  }

  /** Every task, queued at the start or scheduled by another one, begins exactly
      once, and tasks begin in the order in which they were scheduled. */
  lemma {:induction false} RunsInScheduleOrder<S, T>(body: Body<S, T>, s: S, q: seq<T>, n: nat)
    requires Halts(body, s, q, n)
    ensures Starts(Log(body, s, q, n)) == q + Requests(Log(body, s, q, n))
    decreases n
  {
    if |q| > 0 {
      var (s', more) := body(s, q[0]);
      var rest := Log(body, s', q[1..] + more, n - 1);
      RunsInScheduleOrder(body, s', q[1..] + more, n - 1);
      ProjectionsDistribute(TaskLog(q[0], more), rest);
      ProjectionsOfTask(q[0], more);
      assert Starts(rest) == q[1..] + more + Requests(rest);
      Reassociate(q, more, Requests(rest));
    }
  }

  lemma Reassociate<T>(q: seq<T>, more: seq<T>, rest: seq<T>)
    requires |q| > 0
    ensures [q[0]] + (q[1..] + more + rest) == q + (more + rest)
  {
  }

  /** Reads a log from the left; `running` is the task being run, if any. */
  predicate NeverNested<T(==)>(log: seq<Event<T>>, running: seq<T>)
    requires |running| <= 1
  {
    if log == [] then running == []
    else
      match log[0]
      case Scheduled(_) => NeverNested(log[1..], running)
      case Began(t) => running == [] && NeverNested(log[1..], [t])
      case Ended(t) => running == [t] && NeverNested(log[1..], [])
  }

  lemma {:induction false} SchedulingsDoNotNest<T>(tasks: seq<T>, log: seq<Event<T>>, running: seq<T>)
    requires |running| <= 1
    ensures NeverNested(Schedulings(tasks) + log, running) == NeverNested(log, running)
    decreases |tasks|
  {
    if tasks == [] {
      assert Schedulings(tasks) + log == log;
    } else {
      assert (Schedulings(tasks) + log)[1..] == Schedulings(tasks[1..]) + log;
      SchedulingsDoNotNest(tasks[1..], log, running);
    }
  }

  /** A task ends before the next one begins, even when it scheduled that one. */
  lemma {:induction false} RunsUnnested<S, T>(body: Body<S, T>, s: S, q: seq<T>, n: nat)
    requires Halts(body, s, q, n)
    ensures NeverNested(Log(body, s, q, n), [])
    decreases n
  {
    if |q| > 0 {
      var (s', more) := body(s, q[0]);
      var rest := Log(body, s', q[1..] + more, n - 1);
      RunsUnnested(body, s', q[1..] + more, n - 1);
      var tail := [Ended(q[0])] + rest;
      assert tail[1..] == rest;
      SchedulingsDoNotNest(more, tail, [q[0]]);
      var log := Log(body, s, q, n);
      assert log == [Began(q[0])] + (Schedulings(more) + tail);
      assert log[1..] == Schedulings(more) + tail;
    }
  }
}
