/** rxc/src/pipeline.c and rxc/src/ops: sources, flows and sinks as data, and
    the meaning of a started pipeline as functions on its state. PipelineRun.dfy
    proves the imperative form against these functions. */
module Pipeline {
  import opened CInt
  import opened Connection

  const CHUNK_SIZE := 1024

  type Amount = n: int | 0 <= n <= LONG_MAX

  datatype Element = Number(n: int) | Chunk(bytes: seq<Byte>)

  type Mapping = Element -> Element

  /** What a source still has to give. `Reading` is a WAV file behind its header:
      the unread bytes, the number of `read` calls made, and what the i-th call
      would like to return (negative is a read error). `Remote` is the source of
      the client session, which passes pulls on and never emits. */
  datatype Supply =
    | Counting(count: int, to: int)
    | Reading(file: seq<Byte>, calls: nat, reader: nat -> int, finished: bool)
    | Remote

  datatype Flow = MapFlow(mapping: Mapping)

  datatype Source = Base(supply: Supply) | Via(inner: Source, flow: Flow)

  /** `Driver` is the client's ignore driver, `SessionSink` the sink that sends
      the chunks of a server session, `Scheduled` the wrapper of pipeline_sink. */
  datatype Sink =
    | Foreach
    | Ignore
    | Driver
    | SessionSink
    | Mapped(mapping: Mapping, inner: Sink)
    | Scheduled(inner: Sink)

  /** What the innermost sink hears. A failure that passes through a map reads
      the wrong structure (map.c:51), which is `Undefined`. */
  datatype Heard = Push(element: Element) | Finish | Failure | Undefined

  /** `linked` says that the parent of the scheduler inlet is not NULL. */
  datatype State = State(
    conn: Conn<Element>, supply: Supply, linked: bool, queue: seq<Amount>, wip: bool, heard: seq<Heard>)

  // ----- Building a pipeline ----------------------------------------------------

  function SourceVia(source: Source, flow: Flow): Source {
    Via(source, flow)
  }

  function FlowTo(flow: Flow, sink: Sink): Sink {
    Mapped(flow.mapping, sink)
  }

  /** The supply at the bottom of a source. */
  function Bottom(source: Source): Supply {
    match source
    case Base(supply) => supply
    case Via(inner, _) => Bottom(inner)
  }

  /** The sink that the bottom of a source is connected to: every flow on the way
      down wraps it once more. */
  function Wrapped(source: Source, sink: Sink): Sink {
    match source
    case Base(_) => sink
    case Via(inner, flow) => Wrapped(inner, FlowTo(flow, sink))
  }

  // ----- One connection at work ---------------------------------------------------

  function Apply(st: State, op: Op<Element>): State {
    st.(conn := Step(st.conn, op))
  }

  /** The pull of the scheduler inlet while the worker is running: it queues. */
  function Request(st: State, n: Amount): State {
    if st.linked then st.(queue := st.queue + [n]) else st
  }

  function Hear(st: State, h: Heard): State {
    st.(heard := st.heard + [h])
  }

  function Deliver(sink: Sink, st: State, e: Element): State {
    match sink
    case Mapped(f, inner) => Deliver(inner, st, f(e))
    case Scheduled(inner) => Deliver(inner, st, e)
    case Foreach => Request(Hear(st, Push(e)), 1)
    case Driver => Request(Hear(st, Push(e)), 1)
    case Ignore => Hear(st, Push(e))
    case SessionSink => Hear(st, Push(e))
  }

  function DeliverFinish(sink: Sink, st: State): State {
    match sink
    case Mapped(_, inner) => DeliverFinish(inner, st)
    case Scheduled(inner) => DeliverFinish(inner, st)
    case _ => Hear(st, Finish)
  }

  function DeliverFailure(sink: Sink, st: State): State {
    match sink
    case Mapped(_, _) => Hear(st, Undefined)
    case Scheduled(inner) => DeliverFailure(inner, st)
    case _ => Hear(st, Failure)
  }

  function OutletEmit(sink: Sink, st: State, e: Element): State {
    var st' := Apply(st, Emit(e));
    if st.conn.requested <= 0 then st' else Deliver(sink, st', e)
  }

  function OutletComplete(sink: Sink, st: State): State {
    var st' := Apply(st, Complete);
    if st.conn.Closed() then st' else DeliverFinish(sink, st')
  }

  function OutletFail(sink: Sink, st: State): State {
    var st' := Apply(st, Fail);
    if st.conn.Closed() then st' else DeliverFailure(sink, st')
  }

  // ----- Sources --------------------------------------------------------------------

  datatype Fetched = Got(element: Element, rest: Supply) | Ended(rest: Supply) | Broken(rest: Supply)

  /** How many bytes `read(fd, buffer, 1024)` returns. */
  function ReadSize(want: int, available: nat): (k: nat)
    requires 0 <= want && 0 < available
    ensures 1 <= k <= CHUNK_SIZE && k <= available && (want > 0 ==> k <= want)
  {
    if want == 0 then 1 else Min(want, Min(CHUNK_SIZE, available))
  }

  /** One iteration of a source's `on_pull` loop. `Remote` has no such loop. */
  function Fetch(supply: Supply): Fetched {
    match supply
    case Counting(count, to) =>
      if count >= to then Ended(supply) else Got(Number(count), Counting(count + 1, to))
    case Reading(file, calls, reader, finished) =>
      if reader(calls) < 0 then Broken(Reading(file, calls + 1, reader, true))
      else if file == [] then Ended(Reading(file, calls + 1, reader, true))
      else
        var k := ReadSize(reader(calls), |file|);
        Got(Chunk(file[..k]), Reading(file[k..], calls + 1, reader, finished))
    case Remote => Ended(supply)
  }

  function Loop(sink: Sink, st: State, n: nat): State
    decreases n
  {
    if n == 0 then st
    else
      match Fetch(st.supply)
      case Got(e, rest) => Loop(sink, OutletEmit(sink, st.(supply := rest), e), n - 1)
      case Ended(rest) => OutletComplete(sink, st.(supply := rest))
      case Broken(rest) => OutletFail(sink, st).(supply := rest)
  }

  function OnPull(sink: Sink, st: State, n: Amount): State {
    match st.supply
    case Remote => st
    case Reading(_, _, _, finished) => if finished then OutletComplete(sink, st) else Loop(sink, st, n)
    case Counting(_, _) => Loop(sink, st, n)
  }

  /** `rxc_connection_inlet_pull`, which `pipeline_executor` calls. */
  function Execute(sink: Sink, st: State, n: Amount): State {
    var st' := Apply(st, Pull(n));
    if st.conn.Closed() then st' else OnPull(sink, st', n)
  }

  // ----- Running the queue ------------------------------------------------------------

  function Left(supply: Supply): nat {
    match supply
    case Counting(count, to) => if count < to then to - count else 0
    case Reading(file, _, _, _) => |file|
    case Remote => 0
  }

  function OpenBit(st: State): nat {
    if st.conn.Closed() then 0 else 1
  }

  lemma {:induction false} DeliverFrame(sink: Sink, st: State, e: Element)
    ensures var r := Deliver(sink, st, e);
            r.conn == st.conn && r.supply == st.supply && r.linked == st.linked && r.wip == st.wip
  {
    match sink
    case Mapped(f, inner) => DeliverFrame(inner, st, f(e));
    case Scheduled(inner) => DeliverFrame(inner, st, e);
    case _ =>
  }

  lemma {:induction false} DeliverEndFrame(sink: Sink, st: State)
    ensures DeliverFinish(sink, st) == Hear(st, Finish)
    ensures DeliverFailure(sink, st) == Hear(st, FailureHeard(sink))
  {
    match sink
    case Mapped(_, inner) => DeliverEndFrame(inner, st);
    case Scheduled(inner) => DeliverEndFrame(inner, st);
    case _ =>
  }

  function FailureHeard(sink: Sink): Heard {
    match sink
    case Mapped(_, _) => Undefined
    case Scheduled(inner) => FailureHeard(inner)
    case _ => Failure
  }

  lemma EmitProgress(sink: Sink, st: State, e: Element, rest: Supply)
    requires !st.conn.Closed() && Fetch(st.supply) == Got(e, rest)
    ensures var r := OutletEmit(sink, st.(supply := rest), e);
            && !r.conn.Closed() && r.supply == rest && r.linked == st.linked && r.wip == st.wip
            && Left(rest) < Left(st.supply)
  {
    DeliverFrame(sink, Apply(st.(supply := rest), Emit(e)), e);
  }

  lemma EndProgress(sink: Sink, st: State, rest: Supply)
    requires !st.conn.Closed()
    requires Fetch(st.supply) == Ended(rest) || Fetch(st.supply) == Broken(rest)
    ensures var c, f := OutletComplete(sink, st.(supply := rest)), OutletFail(sink, st).(supply := rest);
            && c.conn.Closed() && c.supply == rest && c.linked == st.linked && c.wip == st.wip
            && f.conn.Closed() && f.linked == st.linked && f.wip == st.wip
            && Left(rest) <= Left(st.supply)
  {
    DeliverEndFrame(sink, Apply(st.(supply := rest), Complete));
    DeliverEndFrame(sink, Apply(st, Fail));
  }

  /** A pull that asks for something uses up supply or closes the connection. */
  lemma {:induction false} LoopProgress(sink: Sink, st: State, n: nat)
    requires !st.conn.Closed()
    ensures var r := Loop(sink, st, n);
            && Left(r.supply) <= Left(st.supply) && r.linked == st.linked && r.wip == st.wip
            && (n > 0 ==> Left(r.supply) < Left(st.supply) || r.conn.Closed())
    decreases n
  {
    if n > 0 {
      match Fetch(st.supply)
      case Got(e, rest) =>
        EmitProgress(sink, st, e, rest);
        LoopProgress(sink, OutletEmit(sink, st.(supply := rest), e), n - 1);
      case Ended(rest) => EndProgress(sink, st, rest);
      case Broken(rest) => EndProgress(sink, st, rest);
    }
  }

  lemma ExecuteProgress(sink: Sink, st: State, n: Amount)
    ensures var r := Execute(sink, st, n);
            && Left(r.supply) <= Left(st.supply) && OpenBit(r) <= OpenBit(st)
            && r.linked == st.linked && r.wip == st.wip
            && (|r.queue| <= |st.queue| || Left(r.supply) < Left(st.supply) || OpenBit(r) < OpenBit(st))
  {
    var st' := Apply(st, Pull(n));
    if !st.conn.Closed() {
      if st.supply.Reading? && st.supply.finished {
        DeliverEndFrame(sink, Apply(st', Complete));
      } else if !st.supply.Remote? {
        LoopProgress(sink, st', n);
      }
    }
  }

  /** The loop of `worker_schedule`, with the flag already set. */
  function Drain(sink: Sink, st: State): State
    decreases Left(st.supply), OpenBit(st), |st.queue|
  {
    if st.queue == [] then st
    else
      var st' := st.(queue := st.queue[1..]);
      ExecuteProgress(sink, st', st.queue[0]);
      Drain(sink, Execute(sink, st', st.queue[0]))
  }

  /** What follows a request that came from outside: the worker drains its queue,
      unless it is already doing so. */
  function Settle(sink: Sink, st: State): State {
    if st.wip then st else Drain(sink, st.(wip := true)).(wip := false)
  }

  function InletPull(sink: Sink, st: State, n: Amount): State {
    if st.linked then Settle(sink, Request(st, n)) else st
  }

  /** Cancelling twice would call through the NULL parent. */
  function InletCancel(st: State): State
    requires st.linked
  {
    Apply(st, Cancel).(linked := false)
  }

  /** A push from outside the connection, as the client session does. */
  function DirectPush(sink: Sink, st: State, e: Element): State {
    Settle(sink, Deliver(sink, st, e))
  }

  function OnConnect(part: Sink, sink: Sink, st: State): State {
    match part
    case Mapped(_, inner) => OnConnect(inner, sink, st)
    case Scheduled(inner) => OnConnect(inner, sink, st)
    case Foreach => InletPull(sink, st, 1)
    case Driver => InletPull(sink, st, 1)
    case Ignore => InletPull(sink, st, LONG_MAX)
    case SessionSink => st
  }

  function Created(supply: Supply): State {
    State(Create(), supply, true, [], false, [])
  }

  /** `rxc_pipeline_start`: the sink is wrapped by the scheduler, then connected. */
  function Start(source: Source, sink: Sink): State {
    var logic := Wrapped(source, Scheduled(sink));
    OnConnect(logic, logic, Created(Bottom(source)))
  }
}
