/** The worker of a pipeline is a trampoline: draining the queue of a pipeline is a
    run of the queue in Trampoline.dfy, whose tasks are the queued requests. */
module PipelineOrder {
  import opened Connection
  import opened Pipeline
  import opened PipelineLaws
  import T = Trampoline

  /** A request as a task: what it queues is what it schedules. */
  function Task(sink: Sink): T.Body<State, Amount> {
    (st: State, n: Amount) =>
      var r := Execute(sink, st.(queue := []), n);
      (r.(queue := []), r.queue)
  }

  /** The state with these requests queued before its own. */
  function Behind(q: seq<Amount>, st: State): State {
    st.(queue := q + st.queue)
  }

  lemma EmitBehind(sink: Sink, q: seq<Amount>, st: State, e: Element)
    ensures OutletEmit(sink, Behind(q, st), e) == Behind(q, OutletEmit(sink, st, e))
  {
    DeliverEffect(sink, Apply(st, Emit(e)), e);
    DeliverEffect(sink, Apply(Behind(q, st), Emit(e)), e);
    assert q + (st.queue + [1]) == (q + st.queue) + [1];
  }

  lemma EndsBehind(sink: Sink, q: seq<Amount>, st: State)
    ensures OutletComplete(sink, Behind(q, st)) == Behind(q, OutletComplete(sink, st))
    ensures OutletFail(sink, Behind(q, st)) == Behind(q, OutletFail(sink, st))
  {
    DeliverEndFrame(sink, Apply(st, Complete));
    DeliverEndFrame(sink, Apply(Behind(q, st), Complete));
    DeliverEndFrame(sink, Apply(st, Fail));
    DeliverEndFrame(sink, Apply(Behind(q, st), Fail));
  }

  lemma {:induction false} LoopBehind(sink: Sink, q: seq<Amount>, st: State, n: nat)
    ensures Loop(sink, Behind(q, st), n) == Behind(q, Loop(sink, st, n))
    decreases n
  {
    if n > 0 {
      match Fetch(st.supply)
      case Got(e, rest) =>
        EmitBehind(sink, q, st.(supply := rest), e);
        LoopBehind(sink, q, OutletEmit(sink, st.(supply := rest), e), n - 1);
      case Ended(rest) => EndsBehind(sink, q, st.(supply := rest));
      case Broken(_) => EndsBehind(sink, q, st);
    }
  }

  /** A request only adds to the end of the queue, and does not look at it. */
  lemma ExecuteBehind(sink: Sink, q: seq<Amount>, st: State, n: Amount)
    ensures Execute(sink, Behind(q, st), n) == Behind(q, Execute(sink, st, n))
  {
    LoopBehind(sink, q, Apply(st, Pull(n)), n);
    EndsBehind(sink, q, Apply(st, Pull(n)));
  }

  /** Draining is a finite run of the trampoline and ends in its final state. */
  lemma {:induction false} DrainIsARun(sink: Sink, st: State) returns (n: nat)
    ensures T.Halts(Task(sink), st.(queue := []), st.queue, n)
    ensures T.FinalState(Task(sink), st.(queue := []), st.queue, n) == Drain(sink, st)
    decreases Left(st.supply), OpenBit(st), |st.queue|
  {
    if st.queue == [] {
      n := 0;
    } else {
      var rest, m := st.queue[1..], st.queue[0];
      var idle := st.(queue := []);
      var next := Execute(sink, st.(queue := rest), m);
      ExecuteBehind(sink, rest, idle, m);
      assert Behind(rest, idle) == st.(queue := rest);
      ExecuteProgress(sink, st.(queue := rest), m);
      DrainUnfolds(sink, st);
      var k := DrainIsARun(sink, next);
      n := k + 1;
      OneTurn(sink, st, next, k);
    }
  }

  lemma OneTurn(sink: Sink, st: State, next: State, k: nat)
    requires st.queue != [] && next == Behind(st.queue[1..], Execute(sink, st.(queue := []), st.queue[0]))
    requires T.Halts(Task(sink), next.(queue := []), next.queue, k)
    ensures T.Halts(Task(sink), st.(queue := []), st.queue, k + 1)
    ensures T.FinalState(Task(sink), st.(queue := []), st.queue, k + 1) ==
            T.FinalState(Task(sink), next.(queue := []), next.queue, k)
  {
    var r := Execute(sink, st.(queue := []), st.queue[0]);
    assert Task(sink)(st.(queue := []), st.queue[0]) == (next.(queue := []), r.queue);
  }

  /** So the requests of a pipeline begin once each, in the order in which they were
      queued, and none inside another. */
  lemma RequestsRunInOrder(sink: Sink, st: State) returns (n: nat)
    ensures T.Halts(Task(sink), st.(queue := []), st.queue, n)
    ensures T.FinalState(Task(sink), st.(queue := []), st.queue, n) == Drain(sink, st)
    ensures var log := T.Log(Task(sink), st.(queue := []), st.queue, n);
            T.Starts(log) == st.queue + T.Requests(log) && T.NeverNested(log, [])
  {
    n := DrainIsARun(sink, st);
    T.RunsInScheduleOrder(Task(sink), st.(queue := []), st.queue, n);
    T.RunsUnnested(Task(sink), st.(queue := []), st.queue, n);
  }
}
