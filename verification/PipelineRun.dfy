/** A started pipeline in the form of the source: a connection whose counter is
    updated in place, source loops, callbacks through the wrapped sink logics, and
    a scheduler inlet that queues into the trampoline's linked list. Every method
    is proved to do what the function of the same name in Pipeline.dfy says. */
module PipelineRun {
  import opened CInt
  import opened Connection
  import opened Pipeline
  import Trampoline

  class Run {
    /** The sink logics, outermost first; fixed when the pipeline is started. */
    const logic: Sink

    var requested: int
    ghost var ops: seq<Op<Element>>
    var signals: seq<Signal<Element>>

    var supply: Supply
    var linked: bool
    const worker: Trampoline.Worker<Amount>
    var heard: seq<Heard>

    ghost predicate Valid()
      reads this, worker, worker.Nodes()
    {
      worker.Valid() && (worker.wip || worker.Contents() == [])
    }

    ghost function View(): State
      reads this, worker
    {
      State(Conn(requested, ops, signals), supply, linked, worker.Contents(), worker.wip, heard)
    }

    /** Creating the logics of a source and a sink, and `rxc_connection_create`. */
    constructor (supply: Supply, logic: Sink)
      ensures Valid() && View() == Created(supply) && this.logic == logic
      ensures fresh(worker) && worker.Nodes() == {}
    {
      this.logic := logic;
      this.supply := supply;
      requested, ops, signals := 0, [], [];
      linked, heard := true, [];
      worker := new Trampoline.Worker();
    }

    // ----- logic.c ------------------------------------------------------------------

    method ConnectionPull(n: Amount)
      requires Valid() && worker.wip
      modifies this, worker, worker.Nodes()
      ensures Valid() && fresh(worker.Nodes() - old(worker.Nodes()))
      ensures View() == Execute(logic, old(View()), n)
      decreases 0, 11
    {
      ops := ops + [Pull(n)];
      if requested == LONG_MIN {
        return;
      }
      requested := WrapLong(requested + n);
      if requested < 0 {
        requested := LONG_MAX;
      }
      signals := signals + [Signal.OnPull(n)];
      OnPull(n);
    }

    method ConnectionCancel()
      modifies this
      ensures View() == Apply(old(View()), Cancel)
    {
      ops := ops + [Cancel];
      if requested == LONG_MIN {
        return;
      }
      requested := LONG_MIN;
      signals := signals + [OnDownstreamFinish];
    }

    method OutletEmit(element: Element) returns (code: int)
      requires Valid() && worker.wip
      modifies this, worker, worker.Nodes()
      ensures Valid() && fresh(worker.Nodes() - old(worker.Nodes()))
      ensures View() == Pipeline.OutletEmit(logic, old(View()), element)
      ensures code == -1 <==> old(requested) <= 0
      decreases 0, 6
    {
      ops := ops + [Emit(element)];
      if requested <= 0 {
        signals := signals + [Refused(element)];
        return -1;
      }
      if requested != LONG_MAX {
        requested := requested - 1;
      }
      signals := signals + [Signal.OnPush(element)];
      DeliverFrame(logic, View(), element);
      OnPush(logic, element);
      return 0;
    }

    method OutletComplete()
      modifies this
      ensures View() == Pipeline.OutletComplete(logic, old(View()))
    {
      ops := ops + [Complete];
      if requested == LONG_MIN {
        return;
      }
      requested := LONG_MIN;
      signals := signals + [Signal.OnUpstreamFinish];
      OnUpstreamFinish(logic);
    }

    method OutletFail()
      modifies this
      ensures View() == Pipeline.OutletFail(logic, old(View()))
    {
      ops := ops + [Fail];
      if requested == LONG_MIN {
        return;
      }
      requested := LONG_MIN;
      signals := signals + [Signal.OnUpstreamFailure];
      OnUpstreamFailure(logic);
    }

    // ----- The sources' on_pull ---------------------------------------------------------

    method OnPull(n: Amount)
      requires Valid() && worker.wip
      modifies this, worker, worker.Nodes()
      ensures Valid() && fresh(worker.Nodes() - old(worker.Nodes()))
      ensures View() == Pipeline.OnPull(logic, old(View()), n)
      decreases 0, 10
    {
      match supply
      case Counting(_, _) => OnPullCount(n);
      case Reading(_, _, _, _) => OnPullWav(n);
      case Remote =>
    }

    /** rxc/src/ops/count.c */
    method OnPullCount(n: Amount)
      requires Valid() && worker.wip && supply.Counting?
      modifies this, worker, worker.Nodes()
      ensures Valid() && fresh(worker.Nodes() - old(worker.Nodes()))
      ensures View() == Loop(logic, old(View()), n)
      decreases 0, 7
    {
      var k := n;
      while k > 0
        invariant Valid() && worker.wip && supply.Counting?
        invariant fresh(worker.Nodes() - old(worker.Nodes()))
        invariant k >= 0 && Loop(logic, View(), k) == Loop(logic, old(View()), n)
      {
        if supply.count >= supply.to {
          OutletComplete();
          return;
        }
        ghost var before := View();
        var element := Number(supply.count);
        supply := Counting(supply.count + 1, supply.to);
        EmitKeepsSupply(logic, View(), element);
        var _ := OutletEmit(element);
        assert Loop(logic, before, k) == Loop(logic, View(), k - 1);
        k := k - 1;
      }
    }

    /** sas-server/src/formats/wav.c; `read` returns what `reader` wants, within
        the limits of the buffer and of the file. */
    method OnPullWav(n: Amount)
      requires Valid() && worker.wip && supply.Reading?
      modifies this, worker, worker.Nodes()
      ensures Valid() && fresh(worker.Nodes() - old(worker.Nodes()))
      ensures View() == Pipeline.OnPull(logic, old(View()), n)
      decreases 0, 9
    {
      if supply.finished {
        OutletComplete();
      } else {
        PullChunks(n);
      }
    }

    /** Lines 59-91. */
    method PullChunks(n: Amount)
      requires Valid() && worker.wip && supply.Reading?
      modifies this, worker, worker.Nodes()
      ensures Valid() && fresh(worker.Nodes() - old(worker.Nodes()))
      ensures View() == Loop(logic, old(View()), n)
      decreases 0, 8
    {
      var k := n;
      while k > 0
        invariant Valid() && worker.wip && supply.Reading?
        invariant fresh(worker.Nodes() - old(worker.Nodes()))
        invariant k >= 0 && Loop(logic, View(), k) == Loop(logic, old(View()), n)
      {
        LoopTurns(logic, View(), k);
        var more := PullChunk();
        if !more {
          return;
        }
        k := k - 1;
      }
    }

    /** Lines 60-90: one turn of that loop, and whether it goes on. */
    method PullChunk() returns (more: bool)
      requires Valid() && worker.wip && supply.Reading?
      modifies this, worker, worker.Nodes()
      ensures Valid() && worker.wip && supply.Reading? && fresh(worker.Nodes() - old(worker.Nodes()))
      ensures View() == Turn(logic, old(View())) && (more <==> Fetch(old(supply)).Got?)
      decreases 0, 7
    {
      ghost var before := View();
      var nread, buffer := Read();
      if nread == 0 {
        supply := supply.(finished := true);
        DeliverEndFrame(logic, Apply(View(), Complete));
        OutletComplete();
        more := false;
      } else if nread < 0 {
        FailIgnoresSupply(logic, before, supply);
        OutletFail();
        supply := supply.(finished := true);
        more := false;
      } else {
        EmitKeepsSupply(logic, View(), Chunk(buffer));
        var _ := OutletEmit(Chunk(buffer));
        more := true;
      }
    }

    method Read() returns (nread: int, buffer: seq<Byte>)
      requires supply.Reading?
      modifies `supply
      ensures supply.Reading?
      ensures old(supply.reader(supply.calls)) < 0 ==> nread < 0 && supply == old(supply.(calls := supply.calls + 1))
      ensures old(supply.reader(supply.calls)) >= 0 && old(supply.file) == [] ==>
                nread == 0 && supply == old(supply.(calls := supply.calls + 1))
      ensures old(supply.reader(supply.calls)) >= 0 && old(supply.file) != [] ==>
                && nread == |buffer| > 0
                && Fetch(old(supply)) == Got(Chunk(buffer), supply)
    {
      var want := supply.reader(supply.calls);
      buffer := [];
      if want < 0 {
        nread := -1;
      } else if supply.file == [] {
        nread := 0;
      } else {
        nread := ReadSize(want, |supply.file|);
        buffer := supply.file[..nread];
        supply := supply.(file := supply.file[nread..]);
      }
      supply := supply.(calls := supply.calls + 1);
    }

    // ----- The sinks: foreach.c, ignore.c, drivers/ignore.c, map.c, pipeline.c -------------

    method OnPush(part: Sink, element: Element)
      requires Valid()
      modifies this, worker, worker.Nodes()
      ensures Valid() && fresh(worker.Nodes() - old(worker.Nodes()))
      ensures View() == Settle(logic, Deliver(part, old(View()), element)) && worker.wip == old(worker.wip)
      decreases if worker.wip then 0 else 1, 5, part
    {
      match part
      case Mapped(f, inner) => OnPush(inner, f(element));
      case Scheduled(inner) => OnPush(inner, element);
      case Foreach =>
        heard := heard + [Push(element)];
        InletPull(1);
      case Driver =>
        heard := heard + [Push(element)];
        InletPull(1);
      case Ignore => heard := heard + [Push(element)];
      case SessionSink => heard := heard + [Push(element)];
    }

    method OnUpstreamFinish(part: Sink)
      modifies this
      ensures View() == DeliverFinish(part, old(View()))
      decreases part
    {
      match part
      case Mapped(_, inner) => OnUpstreamFinish(inner);
      case Scheduled(inner) => OnUpstreamFinish(inner);
      case _ => heard := heard + [Finish];
    }

    method OnUpstreamFailure(part: Sink)
      modifies this
      ensures View() == DeliverFailure(part, old(View()))
      decreases part
    {
      match part
      case Mapped(_, _) => heard := heard + [Undefined];
      case Scheduled(inner) => OnUpstreamFailure(inner);
      case _ => heard := heard + [Failure];
    }

    method OnConnect(part: Sink)
      requires Valid()
      modifies this, worker, worker.Nodes()
      ensures Valid() && fresh(worker.Nodes() - old(worker.Nodes()))
      ensures View() == Pipeline.OnConnect(part, logic, old(View())) && worker.wip == old(worker.wip)
      decreases if worker.wip then 0 else 1, 5, part
    {
      match part
      case Mapped(_, inner) => OnConnect(inner);
      case Scheduled(inner) => OnConnect(inner);
      case Foreach => InletPull(1);
      case Driver => InletPull(1);
      case Ignore => InletPull(LONG_MAX);
      case SessionSink =>
    }

    // ----- The scheduler inlet of pipeline.c, and worker_schedule of trampoline.c ----------

    method InletPull(n: Amount)
      requires Valid()
      modifies this, worker, worker.Nodes()
      ensures Valid() && fresh(worker.Nodes() - old(worker.Nodes())) && worker.wip == old(worker.wip)
      ensures View() == Pipeline.InletPull(logic, old(View()), n)
      ensures View() == Settle(logic, Request(old(View()), n))
      decreases if worker.wip then 0 else 1, 4
    {
      if !linked {
        return;
      }
      Schedule(n);
    }

    method InletCancel()
      requires linked
      modifies this
      ensures View() == Pipeline.InletCancel(old(View()))
    {
      linked := false;
      ConnectionCancel();
    }

    method Schedule(n: Amount)
      requires Valid()
      modifies this, worker, worker.Nodes()
      ensures Valid() && fresh(worker.Nodes() - old(worker.Nodes())) && worker.wip == old(worker.wip)
      ensures View() == Settle(logic, old(View()).(queue := old(View()).queue + [n]))
      decreases if worker.wip then 0 else 1, 3
    {
      worker.Enqueue(n);
      if !worker.wip {
        worker.wip := true;
        RunQueue();
        worker.wip := false;
      }
    }

    /** The loop of `worker_schedule`. */
    method RunQueue()
      requires Valid() && worker.wip
      modifies this, worker, worker.Nodes()
      ensures Valid() && worker.wip && fresh(worker.Nodes() - old(worker.Nodes()))
      ensures View() == Drain(logic, old(View())) && worker.Contents() == []
      decreases 1, 2
    {
      while true
        invariant Valid() && worker.wip
        invariant fresh(worker.Nodes() - old(worker.Nodes()))
        invariant Drain(logic, View()) == Drain(logic, old(View()))
        decreases Left(supply), OpenBit(View()), |worker.Contents()|
      {
        ghost var before := View();
        var ran := RunNext();
        if !ran {
          break;
        }
        ExecuteProgress(logic, before.(queue := before.queue[1..]), before.queue[0]);
      }
    }

    /** One turn of it. */
    method RunNext() returns (ran: bool)
      requires Valid() && worker.wip
      modifies this, worker, worker.Nodes()
      ensures Valid() && worker.wip && fresh(worker.Nodes() - old(worker.Nodes()))
      ensures ran <==> old(worker.Contents()) != []
      ensures !ran ==> View() == old(View())
      ensures ran ==> var st := old(View()); View() == Execute(logic, st.(queue := st.queue[1..]), st.queue[0])
      decreases 1, 1
    {
      ghost var before := View();
      var node := worker.Dequeue();
      ran := node != null;
      if ran {
        assert View() == before.(queue := before.queue[1..]) && node.ctx == before.queue[0];
        ExecuteProgress(logic, View(), node.ctx);
        ConnectionPull(node.ctx);
      }
    }
  }

  /** One turn of the loop of a source. */
  ghost function Turn(sink: Sink, st: State): State {
    match Fetch(st.supply)
    case Got(e, rest) => Pipeline.OutletEmit(sink, st.(supply := rest), e)
    case Ended(rest) => Pipeline.OutletComplete(sink, st.(supply := rest))
    case Broken(rest) => Pipeline.OutletFail(sink, st).(supply := rest)
  }

  lemma LoopTurns(sink: Sink, st: State, n: nat)
    requires n > 0
    ensures Loop(sink, st, n) ==
            if Fetch(st.supply).Got? then Loop(sink, Turn(sink, st), n - 1) else Turn(sink, st)
  {
  }

  lemma EmitKeepsSupply(sink: Sink, st: State, e: Element)
    ensures var r := Pipeline.OutletEmit(sink, st, e); r.supply == st.supply && r.wip == st.wip
  {
    DeliverFrame(sink, Apply(st, Emit(e)), e);
  }

  lemma FailIgnoresSupply(sink: Sink, st: State, supply: Supply)
    ensures Pipeline.OutletFail(sink, st.(supply := supply)) == Pipeline.OutletFail(sink, st).(supply := supply)
    ensures Pipeline.OutletFail(sink, st).supply == st.supply
  {
    DeliverEndFrame(sink, Apply(st, Fail));
    DeliverEndFrame(sink, Apply(st.(supply := supply), Fail));
  }

  /** `connect` of a source: the wrappers of wrapper.c wrap the sink on the way
      down, the source at the bottom connects the result. */
  method Connect(source: Source, sink: Sink) returns (run: Run)
    ensures fresh(run) && fresh(run.worker) && fresh(run.worker.Nodes()) && run.Valid() && !run.worker.wip
    ensures run.logic == Wrapped(source, sink)
    ensures run.View() == Pipeline.OnConnect(run.logic, run.logic, Created(Bottom(source)))
  {
    match source
    case Via(inner, flow) => run := Connect(inner, FlowTo(flow, sink));
    case Base(supply) =>
      run := new Run(supply, sink);
      run.OnConnect(run.logic);
  }

  /** `rxc_pipeline_start` with the trampoline as scheduler. */
  method PipelineStart(source: Source, sink: Sink) returns (run: Run)
    ensures fresh(run) && fresh(run.worker) && fresh(run.worker.Nodes()) && run.Valid() && !run.worker.wip
    ensures run.logic == Wrapped(source, Scheduled(sink))
    ensures run.View() == Start(source, sink)
  {
    run := Connect(source, Scheduled(sink));
  }
}
