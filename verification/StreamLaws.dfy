/** What the sources of rxc and of the server put into a stream, and that the
    place where a flow is attached does not change it. */
module StreamLaws {
  import opened CInt
  import opened Connection
  import opened Pipeline
  import opened PipelineLaws

  // ----- rxc_source_count -----------------------------------------------------------

  function Size(from: int, to: int): nat {
    if from < to then to - from else 0
  }

  function Counted(sink: Sink, from: int, to: int): seq<Heard> {
    seq(Size(from, to), i => Push(Through(sink, Number(from + i))))
  }

  lemma {:induction false} CountIsOwed(sink: Sink, from: int, to: int)
    ensures Owed(sink, Counting(from, to)) == Counted(sink, from, to) + [Finish]
    decreases Size(from, to)
  {
    if from < to {
      CountIsOwed(sink, from + 1, to);
      assert Counted(sink, from, to) == [Push(Through(sink, Number(from)))] + Counted(sink, from + 1, to);
    }
  }

  // ----- The mappings on the way ------------------------------------------------------

  function ApplyAll(mappings: seq<Mapping>, e: Element): Element
    decreases |mappings|
  {
    if |mappings| == 0 then e else ApplyAll(mappings[1..], mappings[0](e))
  }

  function SourceMappings(source: Source): seq<Mapping> {
    match source
    case Base(_) => []
    case Via(inner, flow) => SourceMappings(inner) + [flow.mapping]
  }

  function SinkMappings(sink: Sink): seq<Mapping> {
    match sink
    case Mapped(f, inner) => [f] + SinkMappings(inner)
    case Scheduled(inner) => SinkMappings(inner)
    case _ => []
  }

  lemma {:induction false} ThroughAppliesSinkMappings(sink: Sink, e: Element)
    ensures Through(sink, e) == ApplyAll(SinkMappings(sink), e)
  {
    match sink
    case Mapped(f, inner) =>
      ThroughAppliesSinkMappings(inner, f(e));
      assert SinkMappings(sink)[1..] == SinkMappings(inner);
    case Scheduled(inner) => ThroughAppliesSinkMappings(inner, e);
    case _ =>
  }

  lemma {:induction false} WrappingCollectsMappings(source: Source, sink: Sink)
    ensures SinkMappings(Wrapped(source, sink)) == SourceMappings(source) + SinkMappings(sink)
  {
    match source
    case Base(_) =>
    case Via(inner, flow) =>
      WrappingCollectsMappings(inner, FlowTo(flow, sink));
      assert SinkMappings(FlowTo(flow, sink)) == [flow.mapping] + SinkMappings(sink);
  }

  /** The mappings of a pipeline act in the order in which they are written, from
      the source to the sink. */
  lemma PipelineMapsInOrder(source: Source, sink: Sink, e: Element)
    ensures Through(Wrapped(source, Scheduled(sink)), e) == ApplyAll(SourceMappings(source) + SinkMappings(sink), e)
  {
    ThroughAppliesSinkMappings(Wrapped(source, Scheduled(sink)), e);
    WrappingCollectsMappings(source, Scheduled(sink));
  }

  function MappedRange(mappings: seq<Mapping>, from: int, to: int): seq<Heard> {
    seq(Size(from, to), i => Push(ApplyAll(mappings, Number(from + i))))
  }

  /** count(from, to) through any maps into foreach: the callback sees the mapped
      numbers from `from` to `to - 1`, in order, then the sink hears one finish,
      and the run leaves an empty queue, an idle worker and a closed connection. */
  lemma CountIntoForeach(source: Source, sink: Sink, from: int, to: int)
    requires Bottom(source) == Counting(from, to) && Innermost(sink).Foreach?
    ensures var r, mappings := Start(source, sink), SourceMappings(source) + SinkMappings(sink);
            Over(r) && r.heard == MappedRange(mappings, from, to) + [Finish]
  {
    var logic := Wrapped(source, Scheduled(sink));
    ForeachHearsEverything(source, sink);
    CountIsOwed(logic, from, to);
    var mappings := SourceMappings(source) + SinkMappings(sink);
    forall e
      ensures Through(logic, e) == ApplyAll(mappings, e)
    {
      PipelineMapsInOrder(source, sink, e);
    }
    assert Counted(logic, from, to) == MappedRange(mappings, from, to);
  }

  /** count(from, to) into ignore hears its finish exactly if fewer than LONG_MAX
      numbers come before it. */
  lemma CountIntoIgnore(source: Source, sink: Sink, from: int, to: int)
    requires Bottom(source) == Counting(from, to) && Innermost(sink).Ignore?
    ensures var r := Start(source, sink);
            && (Finish in r.heard <==> to - from < LONG_MAX)
            && (to - from < LONG_MAX <==> r.conn.Closed())
            && |r.heard| == Min(Size(from, to) + 1, LONG_MAX)
  {
    var logic := Wrapped(source, Scheduled(sink));
    IgnoreHearsUpToLongMax(source, sink);
    CountIsOwed(logic, from, to);
    var owed, heard := Owed(logic, Counting(from, to)), Start(source, sink).heard;
    if to - from < LONG_MAX {
      assert heard == owed && owed[|owed| - 1] == Finish;
    } else {
      forall i | 0 <= i < |heard|
        ensures heard[i] != Finish
      {
        assert heard[i] == owed[i] == Counted(logic, from, to)[i];
      }
    }
  }

  // ----- The WAV source ------------------------------------------------------------------

  function Chunks(file: seq<Byte>, calls: nat, reader: nat -> int): seq<seq<Byte>>
    decreases |file|
  {
    if reader(calls) < 0 || file == [] then []
    else
      var k := ReadSize(reader(calls), |file|);
      [file[..k]] + Chunks(file[k..], calls + 1, reader)
  }

  /** Whether a read fails before the end of the file is seen. */
  predicate ReadFails(file: seq<Byte>, calls: nat, reader: nat -> int)
    decreases |file|
  {
    if reader(calls) < 0 then true
    else if file == [] then false
    else ReadFails(file[ReadSize(reader(calls), |file|)..], calls + 1, reader)
  }

  function Concat(chunks: seq<seq<Byte>>): seq<Byte> {
    if chunks == [] then [] else chunks[0] + Concat(chunks[1..])
  }

  /** However short the reads are, the chunks are the bytes of the file in order,
      each chunk has 1 to 1024 of them, and none is missing unless a read fails. */
  lemma {:induction false} ChunksAreTheFile(file: seq<Byte>, calls: nat, reader: nat -> int)
    ensures Concat(Chunks(file, calls, reader)) <= file
    ensures !ReadFails(file, calls, reader) ==> Concat(Chunks(file, calls, reader)) == file
    ensures forall c <- Chunks(file, calls, reader) :: 1 <= |c| <= CHUNK_SIZE
    decreases |file|
  {
    if reader(calls) >= 0 && file != [] {
      var k := ReadSize(reader(calls), |file|);
      var chunks, later := Chunks(file, calls, reader), Chunks(file[k..], calls + 1, reader);
      ChunksAreTheFile(file[k..], calls + 1, reader);
      assert chunks[0] == file[..k] && chunks[1..] == later;
      assert file == file[..k] + file[k..];
      forall c | c in chunks
        ensures 1 <= |c| <= CHUNK_SIZE
      {
        assert c == file[..k] || c in later;
      }
    }
  }

  /** If every read is full, only the last chunk can be short: the number of chunks is
      the size of the file in units of 1024, rounded up. */
  lemma {:induction false} FullReadsCount(file: seq<Byte>, calls: nat, reader: nat -> int)
    requires forall i | i >= calls :: reader(i) >= 1024
    ensures |Chunks(file, calls, reader)| == (|file| + 1023) / 1024
    ensures forall j | 0 <= j < |Chunks(file, calls, reader)| - 1 :: |Chunks(file, calls, reader)[j]| == 1024
    decreases |file|
  {
    if file != [] {
      var k := ReadSize(reader(calls), |file|);
      assert k == Min(1024, |file|);
      FullReadsCount(file[k..], calls + 1, reader);
      var chunks, later := Chunks(file, calls, reader), Chunks(file[k..], calls + 1, reader);
      assert chunks == [file[..k]] + later;
      forall j | 0 <= j < |chunks| - 1
        ensures |chunks[j]| == 1024
      {
        if j > 0 {
          assert chunks[j] == later[j - 1];
        }
      }
    }
  }

  /** The first chunk is what the first read wanted, within the limits of the buffer
      and of the file. */
  lemma FirstChunkIsTheRead(file: seq<Byte>, calls: nat, reader: nat -> int)
    requires file != [] && reader(calls) > 0
    ensures var chunks := Chunks(file, calls, reader);
            && chunks != [] && |chunks[0]| == Min(reader(calls), Min(1024, |file|))
            && chunks[1..] == Chunks(file[|chunks[0]|..], calls + 1, reader)
  {
  }

  function Pushes(sink: Sink, chunks: seq<seq<Byte>>): (heard: seq<Heard>)
    ensures |heard| == |chunks|
  {
    seq(|chunks|, i requires 0 <= i < |chunks| => Push(Through(sink, Chunk(chunks[i]))))
  }

  /** A WAV source owes one push for each chunk, then its end. */
  lemma {:induction false} ChunksAreOwed(sink: Sink, file: seq<Byte>, calls: nat, reader: nat -> int)
    ensures Owed(sink, Reading(file, calls, reader, false)) ==
            Pushes(sink, Chunks(file, calls, reader)) +
            [if ReadFails(file, calls, reader) then FailureHeard(sink) else Finish]
    decreases |file|
  {
    if reader(calls) >= 0 && file != [] {
      var k := ReadSize(reader(calls), |file|);
      var chunks, later := Chunks(file, calls, reader), Chunks(file[k..], calls + 1, reader);
      ChunksAreOwed(sink, file[k..], calls + 1, reader);
      assert chunks == [file[..k]] + later;
      assert Pushes(sink, chunks) == [Push(Through(sink, Chunk(file[..k])))] + Pushes(sink, later);
    }
  }

  // ----- Failures ---------------------------------------------------------------------------

  lemma {:induction false} FailureHeardUnmapped(sink: Sink)
    ensures FailureHeard(sink) == if SinkMappings(sink) == [] then Failure else Undefined
  {
    match sink
    case Mapped(f, inner) => assert SinkMappings(sink)[0] == f;
    case Scheduled(inner) => FailureHeardUnmapped(inner);
    case _ =>
  }

  /** A failure of the source reaches the sink if and only if there is no map
      between them, on either side (map.c:51 reads the wrong structure). */
  lemma FailureArrivesIffUnmapped(source: Source, sink: Sink)
    ensures FailureHeard(Wrapped(source, Scheduled(sink))) == Failure <==>
            SourceMappings(source) + SinkMappings(sink) == []
  {
    FailureHeardUnmapped(Wrapped(source, Scheduled(sink)));
    WrappingCollectsMappings(source, Scheduled(sink));
  }

  function MappedChunks(mappings: seq<Mapping>, chunks: seq<seq<Byte>>): (heard: seq<Heard>)
    ensures |heard| == |chunks|
  {
    seq(|chunks|, i requires 0 <= i < |chunks| => Push(ApplyAll(mappings, Chunk(chunks[i]))))
  }

  function End(file: seq<Byte>, reader: nat -> int, mappings: seq<Mapping>): Heard {
    if !ReadFails(file, 0, reader) then Finish else if mappings == [] then Failure else Undefined
  }

  /** A WAV file through any maps into foreach: the callback sees the mapped chunks
      in order, then one end. A read that fails ends the stream with a failure that
      is heard as one exactly if there are no maps. */
  lemma WavIntoForeach(source: Source, sink: Sink, file: seq<Byte>, reader: nat -> int)
    requires Bottom(source) == Reading(file, 0, reader, false) && Innermost(sink).Foreach?
    ensures var r, mappings := Start(source, sink), SourceMappings(source) + SinkMappings(sink);
            && Over(r)
            && r.heard == MappedChunks(mappings, Chunks(file, 0, reader)) + [End(file, reader, mappings)]
  {
    var logic, mappings := Wrapped(source, Scheduled(sink)), SourceMappings(source) + SinkMappings(sink);
    var chunks := Chunks(file, 0, reader);
    ForeachHearsEverything(source, sink);
    ChunksAreOwed(logic, file, 0, reader);
    FailureHeardUnmapped(logic);
    WrappingCollectsMappings(source, Scheduled(sink));
    forall e
      ensures Through(logic, e) == ApplyAll(mappings, e)
    {
      PipelineMapsInOrder(source, sink, e);
    }
    assert Pushes(logic, chunks) == MappedChunks(mappings, chunks);
  }

  /** One map and a first read that fails: all that the sink hears is the undefined
      call, where without the map it hears the failure. */
  lemma FailureIsLostBehindAMap(file: seq<Byte>, reader: nat -> int, f: Mapping)
    requires reader(0) < 0
    ensures var supply := Reading(file, 0, reader, false);
            && Start(SourceVia(Base(supply), MapFlow(f)), Foreach).heard == [Undefined]
            && Start(Base(supply), Foreach).heard == [Failure]
  {
    var supply := Reading(file, 0, reader, false);
    var mapped := SourceVia(Base(supply), MapFlow(f));
    assert SourceMappings(mapped) == SourceMappings(Base(supply)) + [f] == [f];
    WavIntoForeach(mapped, Foreach, file, reader);
    WavIntoForeach(Base(supply), Foreach, file, reader);
  }

  // ----- Where a flow is attached -----------------------------------------------------------

  /** Two stacks of wrappers that no source can tell apart. */
  ghost predicate Alike(a: Sink, b: Sink) {
    && Innermost(a) == Innermost(b)
    && FailureHeard(a) == FailureHeard(b)
    && forall e :: Through(a, e) == Through(b, e)
  }

  lemma AlikeStages(a: Sink, b: Sink, st: State, e: Element)
    requires Alike(a, b)
    ensures OutletEmit(a, st, e) == OutletEmit(b, st, e)
    ensures OutletComplete(a, st) == OutletComplete(b, st)
    ensures OutletFail(a, st) == OutletFail(b, st)
  {
    DeliverEffect(a, Apply(st, Emit(e)), e);
    DeliverEffect(b, Apply(st, Emit(e)), e);
    DeliverEndFrame(a, Apply(st, Complete));
    DeliverEndFrame(b, Apply(st, Complete));
    DeliverEndFrame(a, Apply(st, Fail));
    DeliverEndFrame(b, Apply(st, Fail));
  }

  lemma {:induction false} AlikeLoops(a: Sink, b: Sink, st: State, n: nat)
    requires Alike(a, b)
    ensures Loop(a, st, n) == Loop(b, st, n)
    decreases n
  {
    if n > 0 {
      match Fetch(st.supply)
      case Got(e, rest) =>
        AlikeStages(a, b, st.(supply := rest), e);
        AlikeLoops(a, b, OutletEmit(a, st.(supply := rest), e), n - 1);
      case Ended(rest) => AlikeStages(a, b, st.(supply := rest), Number(0));
      case Broken(_) => AlikeStages(a, b, st, Number(0));
    }
  }

  lemma AlikeExecutions(a: Sink, b: Sink, st: State, n: Amount)
    requires Alike(a, b)
    ensures Execute(a, st, n) == Execute(b, st, n)
  {
    AlikeLoops(a, b, Apply(st, Pull(n)), n);
    AlikeStages(a, b, Apply(st, Pull(n)), Number(0));
  }

  lemma {:induction false} AlikeDrains(a: Sink, b: Sink, st: State)
    requires Alike(a, b)
    ensures Drain(a, st) == Drain(b, st)
    decreases Left(st.supply), OpenBit(st), |st.queue|
  {
    if st.queue != [] {
      var st', n := st.(queue := st.queue[1..]), st.queue[0];
      DrainUnfolds(a, st);
      DrainUnfolds(b, st);
      AlikeExecutions(a, b, st', n);
      ExecuteProgress(a, st', n);
      AlikeDrains(a, b, Execute(a, st', n));
    }
  }

  lemma {:induction false} WrappingKeepsAlike(source: Source, a: Sink, b: Sink)
    requires Alike(a, b)
    ensures Alike(Wrapped(source, a), Wrapped(source, b))
  {
    match source
    case Base(_) =>
    case Via(inner, flow) =>
      assert Alike(FlowTo(flow, a), FlowTo(flow, b));
      WrappingKeepsAlike(inner, FlowTo(flow, a), FlowTo(flow, b));
  }

  /** Pipelines whose sides differ only in where the wrappers sit run alike. */
  lemma AlikeStarts(s: Source, k: Sink, s': Source, k': Sink)
    requires Bottom(s) == Bottom(s')
    requires Alike(Wrapped(s, Scheduled(k)), Wrapped(s', Scheduled(k')))
    ensures Start(s, k) == Start(s', k')
  {
    var a, b, st := Wrapped(s, Scheduled(k)), Wrapped(s', Scheduled(k')), Created(Bottom(s));
    OnConnectAsks(a, a, st);
    OnConnectAsks(b, b, st);
    AlikeDrains(a, b, Request(st, 1).(wip := true));
    AlikeDrains(a, b, Request(st, LONG_MAX).(wip := true));
  }

  /** source_to(via(s, f), k) and source_to(s, flow_to(f, k)) behave the same, in
      every field of the final state, although the scheduler wrapper sits inside
      the map in one and around it in the other. */
  lemma ViaIsTo(source: Source, flow: Flow, sink: Sink)
    ensures Start(SourceVia(source, flow), sink) == Start(source, FlowTo(flow, sink))
  {
    var inside, around := FlowTo(flow, Scheduled(sink)), Scheduled(FlowTo(flow, sink));
    assert around.inner == FlowTo(flow, sink);
    forall e
      ensures Through(inside, e) == Through(around, e)
    {
      assert Through(around, e) == Through(around.inner, e) == Through(sink, flow.mapping(e));
      assert Through(inside, e) == Through(inside.inner, flow.mapping(e));
    }
    assert FailureHeard(inside) == Undefined == FailureHeard(around.inner) == FailureHeard(around);
    assert Innermost(around) == Innermost(around.inner) == Innermost(sink);
    assert Alike(inside, around);
    WrappingKeepsAlike(source, inside, around);
    AlikeStarts(SourceVia(source, flow), sink, source, FlowTo(flow, sink));
  }

  function ViaAll(source: Source, flows: seq<Flow>): Source
    decreases |flows|
  {
    if |flows| == 0 then source else ViaAll(SourceVia(source, flows[0]), flows[1..])
  }

  function ToAll(flows: seq<Flow>, sink: Sink): Sink
    decreases |flows|
  {
    if |flows| == 0 then sink else FlowTo(flows[0], ToAll(flows[1..], sink))
  }

  /** The same for a stack of flows, wherever it is cut in two. */
  lemma {:induction false} StackMayBeCutAnywhere(source: Source, flows: seq<Flow>, cut: nat, sink: Sink)
    requires cut <= |flows|
    ensures Start(ViaAll(source, flows[..cut]), ToAll(flows[cut..], sink)) == Start(source, ToAll(flows, sink))
    decreases cut
  {
    if cut == 0 {
      assert |flows[..0]| == 0 && flows[0..] == flows;
    } else {
      var rest := flows[1..];
      assert flows[..cut][1..] == rest[..cut - 1] && flows[cut..] == rest[cut - 1..];
      StackMayBeCutAnywhere(SourceVia(source, flows[0]), rest, cut - 1, sink);
      ViaIsTo(source, flows[0], ToAll(rest, sink));
    }
  }
}
