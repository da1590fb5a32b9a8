/** What every run of a pipeline does: what its sink hears, that no element is
    lost, that batching and the placement of flows cannot be observed. */
module PipelineLaws {
  import opened CInt
  import opened Connection
  import opened Pipeline

  // ----- What a stack of wrappers does to an element --------------------------------

  function Innermost(sink: Sink): Sink {
    match sink
    case Mapped(_, inner) => Innermost(inner)
    case Scheduled(inner) => Innermost(inner)
    case _ => sink
  }

  function Through(sink: Sink, e: Element): Element {
    match sink
    case Mapped(f, inner) => Through(inner, f(e))
    case Scheduled(inner) => Through(inner, e)
    case _ => e
  }

  /** The sinks that pull one more element after each push. */
  predicate Asks(sink: Sink) {
    Innermost(sink).Foreach? || Innermost(sink).Driver?
  }

  lemma {:induction false} DeliverEffect(sink: Sink, st: State, e: Element)
    ensures var h := Hear(st, Push(Through(sink, e)));
            Deliver(sink, st, e) == if Asks(sink) then Request(h, 1) else h
  {
    match sink
    case Mapped(f, inner) => DeliverEffect(inner, st, f(e));
    case Scheduled(inner) => DeliverEffect(inner, st, e);
    case _ =>
  }

  // ----- What a sink is owed ---------------------------------------------------------

  /** Everything that a sink will hear of a supply, if it pulls often enough. */
  function Owed(sink: Sink, supply: Supply): (owed: seq<Heard>)
    ensures |owed| > 0
    decreases Left(supply)
  {
    match Fetch(supply)
    case Got(e, rest) => [Push(Through(sink, e))] + Owed(sink, rest)
    case Ended(_) => [Finish]
    case Broken(_) => [FailureHeard(sink)]
  }

  predicate Primed(st: State) {
    && 0 <= st.conn.requested <= LONG_MAX && st.linked
    && !st.supply.Remote? && (st.supply.Reading? ==> !st.supply.finished)
  }

  predicate NoneRefused(signals: seq<Signal<Element>>) {
    forall s <- signals :: !s.Refused?
  }

  function Ones(k: nat): (s: seq<Amount>)
    ensures |s| == k && forall i :: 0 <= i < k ==> s[i] == 1
  {
    seq(k, _ => 1)
  }

  function Replies(sink: Sink, k: nat): seq<Amount> {
    if Asks(sink) then Ones(k) else []
  }

  /** `r` is `st` after the sink was handed the next n things that it is owed, or
      all of them if there are fewer. */
  ghost predicate Handed(sink: Sink, st: State, n: nat, r: State) {
    var owed := Owed(sink, st.supply);
    && r.heard == st.heard + owed[..Min(n, |owed|)]
    && r.queue == st.queue + Replies(sink, Min(n, |owed| - 1))
    && r.linked && r.wip == st.wip
    && (n < |owed| ==> Primed(r) && Owed(sink, r.supply) == owed[n..])
    && (n >= |owed| ==> r.conn.Closed())
    && (NoneRefused(st.conn.signals) ==> NoneRefused(r.conn.signals))
  }

  lemma EmitHands(sink: Sink, st: State, e: Element)
    requires 0 < st.conn.requested <= LONG_MAX && st.linked
    ensures var r := OutletEmit(sink, st, e);
            && r.heard == st.heard + [Push(Through(sink, e))] && r.queue == st.queue + Replies(sink, 1)
            && r.linked && r.wip == st.wip && r.supply == st.supply
            && r.conn.requested == (if st.conn.requested == LONG_MAX then LONG_MAX else st.conn.requested - 1)
            && (NoneRefused(st.conn.signals) ==> NoneRefused(r.conn.signals))
  {
    DeliverEffect(sink, Apply(st, Emit(e)), e);
    assert Ones(1) == [1];
  }

  lemma HandedOneMore(sink: Sink, st: State, n: nat, mid: State, r: State)
    requires n > 0 && Primed(st) && Fetch(st.supply).Got?
    requires mid.heard == st.heard + [Push(Through(sink, Fetch(st.supply).element))]
    requires mid.queue == st.queue + Replies(sink, 1)
    requires mid.supply == Fetch(st.supply).rest && mid.wip == st.wip
    requires NoneRefused(st.conn.signals) ==> NoneRefused(mid.conn.signals)
    requires Handed(sink, mid, n - 1, r)
    ensures Handed(sink, st, n, r)
  {
    var x := Push(Through(sink, Fetch(st.supply).element));
    var owed, later := Owed(sink, st.supply), Owed(sink, mid.supply);
    assert owed == [x] + later;
    assert owed[..Min(n, |owed|)] == [x] + later[..Min(n - 1, |later|)];
    assert n < |owed| ==> owed[n..] == later[n - 1..];
    AppendTwice(st.heard, [x], later[..Min(n - 1, |later|)]);
    RepliesTwice(sink, st.queue, 1, Min(n - 1, |later| - 1));
  }

  lemma RepliesAdd(sink: Sink, a: nat, b: nat)
    ensures Replies(sink, a + b) == Replies(sink, a) + Replies(sink, b)
  {
  }

  lemma EndHands(sink: Sink, st: State, n: nat)
    requires 0 < n <= st.conn.requested && Primed(st) && !Fetch(st.supply).Got?
    ensures Handed(sink, st, n, Loop(sink, st, n)) && Loop(sink, st, n).conn.Closed()
  {
    var owed := Owed(sink, st.supply);
    assert |owed| == 1 && owed[..1] == owed && st.queue + Replies(sink, 0) == st.queue;
    match Fetch(st.supply)
    case Ended(rest) => DeliverEndFrame(sink, Apply(st.(supply := rest), Complete));
    case Broken(rest) => DeliverEndFrame(sink, Apply(st, Fail));
  }

  lemma NothingHanded(sink: Sink, st: State)
    requires Primed(st)
    ensures Handed(sink, st, 0, st)
  {
    var owed := Owed(sink, st.supply);
    assert owed[..0] == [] && owed[0..] == owed && st.queue + Replies(sink, 0) == st.queue;
  }

  /** A source asked for n elements, with that much demand, hands over the next n
      things it owes: it stops early only by finishing or failing. */
  lemma {:induction false} LoopTakes(sink: Sink, st: State, n: nat)
    requires Primed(st) && n <= st.conn.requested
    ensures var r := Loop(sink, st, n);
            && Handed(sink, st, n, r)
            && (!r.conn.Closed() ==>
                  r.conn.requested == if st.conn.requested == LONG_MAX then LONG_MAX else st.conn.requested - n)
    decreases n
  {
    if n == 0 {
      NothingHanded(sink, st);
    } else if Fetch(st.supply).Got? {
      var st1 := st.(supply := Fetch(st.supply).rest);
      var st2 := OutletEmit(sink, st1, Fetch(st.supply).element);
      EmitHands(sink, st1, Fetch(st.supply).element);
      LoopTakes(sink, st2, n - 1);
      HandedOneMore(sink, st, n, st2, Loop(sink, st2, n - 1));
    } else {
      EndHands(sink, st, n);
    }
  }

  lemma ExecuteTakes(sink: Sink, st: State, n: Amount)
    requires Primed(st)
    ensures var r := Execute(sink, st, n);
            && Handed(sink, st, n, r)
            && (!r.conn.Closed() ==>
                  r.conn.requested == if st.conn.requested + n < LONG_MAX then st.conn.requested else LONG_MAX)
  {
    AddedIsCappedSum(st.conn.requested, n);
    var pulled := Apply(st, Pull(n));
    LoopTakes(sink, pulled, n);
    HandedDespitePull(sink, st, pulled, n, Loop(sink, pulled, n));
  }

  /** The pull itself is not heard. */
  lemma HandedDespitePull(sink: Sink, st: State, pulled: State, n: nat, r: State)
    requires pulled == st.(conn := pulled.conn) && Handed(sink, pulled, n, r)
    requires NoneRefused(st.conn.signals) ==> NoneRefused(pulled.conn.signals)
    ensures Handed(sink, st, n, r)
  {
  }

  /** Two pulls do what one pull for the sum does: the sink hears the same, asks
      for the same, and is owed the same afterwards. */
  lemma BatchingIsInvisible(sink: Sink, st: State, n1: Amount, n2: Amount)
    requires Primed(st) && st.conn.requested + n1 + n2 < LONG_MAX
    ensures var a, b := Execute(sink, Execute(sink, st, n1), n2), Execute(sink, st, n1 + n2);
            && a.heard == b.heard && a.queue == b.queue
            && a.conn.requested == b.conn.requested
            && (!a.conn.Closed() ==> Owed(sink, a.supply) == Owed(sink, b.supply))
  {
    var first := Execute(sink, st, n1);
    ExecuteTakes(sink, st, n1);
    ExecuteTakes(sink, st, n1 + n2);
    if !first.conn.Closed() {
      ExecuteTakes(sink, first, n2);
      HandedTwice(sink, st, n1, first, n2, Execute(sink, first, n2));
    }
  }

  lemma TakeTwice<T>(h: seq<T>, s: seq<T>, n1: nat, n2: nat)
    requires n1 <= |s|
    ensures h + s[..n1] + s[n1..][..Min(n2, |s| - n1)] == h + s[..Min(n1 + n2, |s|)]
    ensures n1 + n2 <= |s| ==> s[n1..][n2..] == s[n1 + n2..]
  {
  }

  lemma HandedTwice(sink: Sink, st: State, n1: nat, mid: State, n2: nat, r: State)
    requires Handed(sink, st, n1, mid) && n1 < |Owed(sink, st.supply)| && Handed(sink, mid, n2, r)
    ensures Handed(sink, st, n1 + n2, r)
  {
    var owed, later := Owed(sink, st.supply), Owed(sink, mid.supply);
    assert later == owed[n1..] && |later| == |owed| - n1;
    TakeTwice(st.heard, owed, n1, n2);
    QueuedTwice(sink, st.queue, |owed|, n1, mid.queue, n2, r.queue);
  }

  lemma QueuedTwice(sink: Sink, queue: seq<Amount>, size: nat, n1: nat, mid: seq<Amount>, n2: nat, r: seq<Amount>)
    requires n1 < size && mid == queue + Replies(sink, n1)
    requires r == mid + Replies(sink, Min(n2, size - n1 - 1))
    ensures r == queue + Replies(sink, Min(n1 + n2, size - 1))
  {
    RepliesTwice(sink, queue, n1, Min(n2, size - n1 - 1));
  }

  lemma RepliesTwice(sink: Sink, queue: seq<Amount>, a: nat, b: nat)
    ensures queue + Replies(sink, a) + Replies(sink, b) == queue + Replies(sink, a + b)
  {
    RepliesAdd(sink, a, b);
    AppendTwice(queue, Replies(sink, a), Replies(sink, b));
  }

  lemma AppendTwice<T>(a: seq<T>, b: seq<T>, c: seq<T>)
    ensures (a + b) + c == a + (b + c)
  {
  }

  // ----- Whole runs ---------------------------------------------------------------------

  /** The state a run ends in: nothing queued, nothing running, and closed. */
  predicate Over(st: State) {
    st.queue == [] && !st.wip && st.conn.Closed() && NoneRefused(st.conn.signals)
  }

  lemma DrainUnfolds(sink: Sink, st: State)
    requires st.queue != []
    ensures Drain(sink, st) == Drain(sink, Execute(sink, st.(queue := st.queue[1..]), st.queue[0]))
  {
  }

  lemma AskedOnce(sink: Sink, st: State)
    requires Primed(st) && st.conn.requested == 0 && Asks(sink) && st.queue == []
    ensures var r, owed := Execute(sink, st, 1), Owed(sink, st.supply);
            && r.heard == st.heard + [owed[0]]
            && (NoneRefused(st.conn.signals) ==> NoneRefused(r.conn.signals))
            && (|owed| == 1 ==> r.queue == [] && r.conn.Closed())
            && (|owed| > 1 ==>
                  && r.queue == [1] && Primed(r) && r.conn.requested == 0
                  && Owed(sink, r.supply) == owed[1..] && Left(r.supply) < Left(st.supply))
  {
    ExecuteTakes(sink, st, 1);
    LoopProgress(sink, Apply(st, Pull(1)), 1);
  }

  lemma {:induction false} AskingDrainHearsAll(sink: Sink, st: State)
    requires Primed(st) && st.conn.requested == 0 && Asks(sink) && st.queue == [1]
    requires NoneRefused(st.conn.signals)
    ensures var r := Drain(sink, st);
            && r.heard == st.heard + Owed(sink, st.supply)
            && r.queue == [] && r.conn.Closed() && NoneRefused(r.conn.signals)
    decreases Left(st.supply)
  {
    var st' := st.(queue := st.queue[1..]);
    var owed, next := Owed(sink, st.supply), Execute(sink, st', 1);
    AskedOnce(sink, st');
    DrainUnfolds(sink, st);
    if |owed| > 1 {
      AskingDrainHearsAll(sink, next);
      AppendTwice(st.heard, [owed[0]], owed[1..]);
    }
    assert owed == [owed[0]] + owed[1..];
  }

  /** A sink that pulls one element at a time hears the whole supply, in order,
      and then exactly one end; afterwards the queue is empty, the worker idle and
      the connection closed, and no element was refused on the way. */
  lemma ForeachHearsEverything(source: Source, sink: Sink)
    requires Asks(sink) && Primed(Created(Bottom(source)))
    ensures var r, logic := Start(source, sink), Wrapped(source, Scheduled(sink));
            Over(r) && r.heard == Owed(logic, Bottom(source))
  {
    var logic, st := Wrapped(source, Scheduled(sink)), Created(Bottom(source));
    WrappedKeepsSink(source, Scheduled(sink));
    OnConnectAsks(logic, logic, st);
    AskingDrainHearsAll(logic, Request(st, 1).(wip := true));
  }

  lemma {:induction false} WrappedKeepsSink(source: Source, sink: Sink)
    ensures Innermost(Wrapped(source, sink)) == Innermost(sink)
  {
    match source
    case Base(_) =>
    case Via(inner, flow) => WrappedKeepsSink(inner, FlowTo(flow, sink));
  }

  lemma {:induction false} OnConnectAsks(part: Sink, sink: Sink, st: State)
    ensures OnConnect(part, sink, st) ==
            match Innermost(part)
            case Foreach => InletPull(sink, st, 1)
            case Driver => InletPull(sink, st, 1)
            case Ignore => InletPull(sink, st, LONG_MAX)
            case _ => st
  {
    match part
    case Mapped(_, inner) => OnConnectAsks(inner, sink, st);
    case Scheduled(inner) => OnConnectAsks(inner, sink, st);
    case _ =>
  }

  /** A sink that pulls LONG_MAX once hears that much of the supply: whether it
      hears the end depends on whether the end is among the first LONG_MAX. */
  lemma IgnoreHearsUpToLongMax(source: Source, sink: Sink)
    requires Innermost(sink).Ignore? && Primed(Created(Bottom(source)))
    ensures var r, owed := Start(source, sink), Owed(Wrapped(source, Scheduled(sink)), Bottom(source));
            && r.heard == owed[..Min(LONG_MAX, |owed|)]
            && r.queue == [] && !r.wip && NoneRefused(r.conn.signals)
            && (r.conn.Closed() <==> |owed| <= LONG_MAX)
  {
    var logic, st := Wrapped(source, Scheduled(sink)), Created(Bottom(source));
    WrappedKeepsSink(source, Scheduled(sink));
    OnConnectAsks(logic, logic, st);
    var queued := Request(st, LONG_MAX).(wip := true);
    assert queued.queue[1..] == [];
    DrainUnfolds(logic, queued);
    ExecuteTakes(logic, queued.(queue := []), LONG_MAX);
  }

  /** Between two requests from outside. */
  predicate Quiet(st: State) {
    st.queue == [] && !st.wip && st.linked && (st.conn.Closed() || Primed(st))
  }

  /** What the sink has not heard yet. */
  function Pending(sink: Sink, st: State): seq<Heard> {
    if st.conn.Closed() then [] else Owed(sink, st.supply)
  }

  /** A pull for n from outside hands over the next n pending things, all of them
      if there are fewer; after the end it does nothing. */
  lemma PullTakesPending(sink: Sink, st: State, n: Amount)
    requires Quiet(st) && !Asks(sink) && (!st.conn.Closed() ==> st.conn.requested + n < LONG_MAX)
    ensures var r, pending := InletPull(sink, st, n), Pending(sink, st);
            && Quiet(r)
            && r.heard == st.heard + pending[..Min(n, |pending|)]
            && Pending(sink, r) == pending[Min(n, |pending|)..]
            && (!r.conn.Closed() ==> r.conn.requested == st.conn.requested)
            && (NoneRefused(st.conn.signals) ==> NoneRefused(r.conn.signals))
  {
    var queued := Request(st, n).(wip := true);
    var taken := queued.(queue := []);
    assert queued.queue[1..] == [];
    if !st.conn.Closed() {
      ExecuteTakes(sink, taken, n);
    }
    DrainUnfolds(sink, queued);
  }

  // ----- The client session: a source that only passes pulls on ---------------------------

  predicate Relaying(st: State) {
    st.queue == [] && !st.wip && st.linked && st.supply.Remote? && 0 <= st.conn.requested <= LONG_MAX
  }

  lemma OneRequestIsRelayed(sink: Sink, st: State)
    requires st.queue == [1] && st.wip && Relaying(st.(queue := [], wip := false))
    ensures var r := Drain(sink, st);
            && Relaying(r.(wip := false)) && r.wip && r.heard == st.heard
            && r.conn.signals == st.conn.signals + [OnPull(1)]
  {
    AddedIsCappedSum(st.conn.requested, 1);
    var taken := st.(queue := st.queue[1..]);
    assert taken.queue == [];
    DrainUnfolds(sink, st);
  }

  /** Each element pushed into an asking sink makes its source see one pull for
      one element, for ever: the counter saturates but never closes. */
  lemma DirectPushRelaysOnePull(sink: Sink, st: State, e: Element)
    requires Relaying(st) && Asks(sink)
    ensures var r := DirectPush(sink, st, e);
            && Relaying(r) && r.heard == st.heard + [Push(Through(sink, e))]
            && r.conn.signals == st.conn.signals + [OnPull(1)]
  {
    DeliverEffect(sink, st, e);
    OneRequestIsRelayed(sink, Deliver(sink, st, e).(wip := true));
  }

  lemma ConnectRelaysOnePull(sink: Sink)
    requires Asks(sink)
    ensures var r := Start(Base(Remote), sink);
            Relaying(r) && r.heard == [] && r.conn.signals == [OnPull(1)]
  {
    var st := Created(Remote);
    OnConnectAsks(Scheduled(sink), Scheduled(sink), st);
    OneRequestIsRelayed(Scheduled(sink), Request(st, 1).(wip := true));
  }

  // ----- Cancelling --------------------------------------------------------------------------

  lemma {:induction false} ClosedDrainIsSilent(sink: Sink, st: State)
    requires st.conn.Closed()
    ensures var r := Drain(sink, st);
            && r.queue == [] && r.heard == st.heard && r.supply == st.supply
            && r.conn.Closed() && r.conn.signals == st.conn.signals
    decreases |st.queue|
  {
    if st.queue != [] {
      ClosedDrainIsSilent(sink, Execute(sink, st.(queue := st.queue[1..]), st.queue[0]));
    }
  }

  /** Whatever was queued when the sink cancelled runs without effect: the sink
      hears nothing more, the source sees no pull and keeps its elements. */
  lemma CancelSilencesTheQueue(sink: Sink, st: State, n: Amount)
    requires st.linked
    ensures var c := InletCancel(st); var r := Drain(sink, c);
            && r.heard == st.heard && r.supply == st.supply && r.queue == []
            && r.conn.signals == c.conn.signals
            && c.conn.signals == st.conn.signals + (if st.conn.Closed() then [] else [OnDownstreamFinish])
            && InletPull(sink, c, n) == c
  {
    var c := InletCancel(st);
    ClosedDrainIsSilent(sink, c);
  }

  // ----- The sink hears what the connection signals -------------------------------------------

  /** What the innermost sink makes of a call to the outermost sink logic. */
  function HeardOf(sink: Sink, s: Signal<Element>): seq<Heard> {
    match s
    case OnPush(e) => [Push(Through(sink, e))]
    case OnUpstreamFinish => [Finish]
    case OnUpstreamFailure => [FailureHeard(sink)]
    case _ => []
  }

  function Image(sink: Sink, signals: seq<Signal<Element>>): seq<Heard> {
    if signals == [] then []
    else Image(sink, signals[..|signals| - 1]) + HeardOf(sink, signals[|signals| - 1])
  }

  ghost predicate Mirrored(sink: Sink, st: State) {
    st.heard == Image(sink, st.conn.signals)
  }

  lemma ImageSnoc(sink: Sink, signals: seq<Signal<Element>>, s: Signal<Element>)
    ensures Image(sink, signals + [s]) == Image(sink, signals) + HeardOf(sink, s)
  {
    assert (signals + [s])[..|signals|] == signals;
  }

  lemma EmitMirrors(sink: Sink, st: State, e: Element)
    requires Mirrored(sink, st)
    ensures Mirrored(sink, OutletEmit(sink, st, e))
  {
    DeliverEffect(sink, Apply(st, Emit(e)), e);
    ImageSnoc(sink, st.conn.signals, if st.conn.requested <= 0 then Refused(e) else OnPush(e));
  }

  lemma CompleteMirrors(sink: Sink, st: State)
    requires Mirrored(sink, st)
    ensures Mirrored(sink, OutletComplete(sink, st))
  {
    DeliverEndFrame(sink, Apply(st, Complete));
    ImageSnoc(sink, st.conn.signals, OnUpstreamFinish);
  }

  lemma FailMirrors(sink: Sink, st: State, rest: Supply)
    requires Mirrored(sink, st)
    ensures Mirrored(sink, OutletFail(sink, st).(supply := rest))
  {
    DeliverEndFrame(sink, Apply(st, Fail));
    ImageSnoc(sink, st.conn.signals, OnUpstreamFailure);
  }

  lemma {:induction false} LoopMirrors(sink: Sink, st: State, n: nat)
    requires Mirrored(sink, st)
    ensures Mirrored(sink, Loop(sink, st, n))
    decreases n
  {
    if n > 0 {
      match Fetch(st.supply)
      case Got(e, rest) =>
        EmitMirrors(sink, st.(supply := rest), e);
        LoopMirrors(sink, OutletEmit(sink, st.(supply := rest), e), n - 1);
      case Ended(rest) => CompleteMirrors(sink, st.(supply := rest));
      case Broken(rest) => FailMirrors(sink, st, rest);
    }
  }

  lemma ExecuteMirrors(sink: Sink, st: State, n: Amount)
    requires Mirrored(sink, st)
    ensures Mirrored(sink, Execute(sink, st, n))
  {
    var pulled := Apply(st, Pull(n));
    ImageSnoc(sink, st.conn.signals, OnPull(n));
    LoopMirrors(sink, pulled, n);
    CompleteMirrors(sink, pulled);
  }

  lemma {:induction false} DrainMirrors(sink: Sink, st: State)
    requires Mirrored(sink, st)
    ensures Mirrored(sink, Drain(sink, st))
    decreases Left(st.supply), OpenBit(st), |st.queue|
  {
    if st.queue != [] {
      var st', n := st.(queue := st.queue[1..]), st.queue[0];
      ExecuteMirrors(sink, st', n);
      ExecuteProgress(sink, st', n);
      DrainUnfolds(sink, st);
      DrainMirrors(sink, Execute(sink, st', n));
    }
  }

  lemma CancelMirrors(sink: Sink, st: State)
    requires Mirrored(sink, st) && st.linked
    ensures Mirrored(sink, InletCancel(st))
  {
    ImageSnoc(sink, st.conn.signals, OnDownstreamFinish);
  }

  /** From the start of a pipeline, and through every pull and cancel from outside,
      the sink hears exactly what the connection signals to it: mapped pushes, the
      finish of a completion, the failure of a failure, and nothing of a cancel. */
  lemma SinkHearsTheSignals(source: Source, sink: Sink, st: State, n: Amount)
    ensures Mirrored(Wrapped(source, Scheduled(sink)), Start(source, sink))
    ensures Mirrored(sink, st) ==> Mirrored(sink, InletPull(sink, st, n))
    ensures Mirrored(sink, st) && st.linked ==> Mirrored(sink, InletCancel(st))
  {
    var logic, st0 := Wrapped(source, Scheduled(sink)), Created(Bottom(source));
    OnConnectAsks(logic, logic, st0);
    DrainMirrors(logic, Request(st0, 1).(wip := true));
    DrainMirrors(logic, Request(st0, LONG_MAX).(wip := true));
    if Mirrored(sink, st) {
      DrainMirrors(sink, Request(st, n).(wip := true));
      if st.linked {
        CancelMirrors(sink, st);
      }
    }
  }

  /** A WAV source is finished exactly when it has closed its connection. */
  lemma {:induction false} LoopFinishes(sink: Sink, st: State, n: nat)
    requires st.supply.Reading? && !st.supply.finished && !st.conn.Closed()
    ensures var r := Loop(sink, st, n); r.supply.Reading? && (r.supply.finished <==> r.conn.Closed())
    decreases n
  {
    if n > 0 {
      match Fetch(st.supply)
      case Got(e, rest) =>
        EmitProgress(sink, st, e, rest);
        LoopFinishes(sink, OutletEmit(sink, st.(supply := rest), e), n - 1);
      case Ended(rest) => EndProgress(sink, st, rest);
      case Broken(rest) => EndProgress(sink, st, rest);
    }
  }

  /** A WAV source that has finished answers a pull, if its connection is still
      open, by finishing once more, and reads nothing. */
  lemma FinishedAnswersWithFinish(sink: Sink, st: State, n: Amount)
    requires st.supply.Reading? && st.supply.finished && !st.conn.Closed()
    requires 0 <= st.conn.requested <= LONG_MAX
    ensures var r := Execute(sink, st, n);
            r.heard == st.heard + [Finish] && r.conn.Closed() && r.supply == st.supply && r.queue == st.queue
  {
    AddedIsCappedSum(st.conn.requested, n);
    DeliverEndFrame(sink, Apply(Apply(st, Pull(n)), Complete));
  }

  // ----- Every run is a history of its connection -----------------------------------------------

  /** The connection is what its own history of operations makes of it, so every
      law about histories holds for it. */
  ghost predicate Replays(st: State) {
    st.conn == Replay(st.conn.ops) && Legal(st.conn.ops)
  }

  lemma ApplyReplays(st: State, op: Op<Element>)
    requires Replays(st) && (op.Pull? ==> 0 <= op.n <= LONG_MAX)
    ensures Replays(Apply(st, op))
  {
    ReplaySnoc(st.conn.ops, op);
    StepRecords(st.conn, op);
    LegalSnoc(st.conn.ops, op);
  }

  lemma {:induction false} LoopReplays(sink: Sink, st: State, n: nat)
    requires Replays(st)
    ensures Replays(Loop(sink, st, n))
    decreases n
  {
    if n > 0 {
      match Fetch(st.supply)
      case Got(e, rest) =>
        EmitReplays(sink, st.(supply := rest), e);
        LoopReplays(sink, OutletEmit(sink, st.(supply := rest), e), n - 1);
      case Ended(rest) => CompleteReplays(sink, st.(supply := rest));
      case Broken(rest) => FailReplays(sink, st);
    }
  }

  lemma EmitReplays(sink: Sink, st: State, e: Element)
    requires Replays(st)
    ensures Replays(OutletEmit(sink, st, e))
  {
    ApplyReplays(st, Emit(e));
    DeliverFrame(sink, Apply(st, Emit(e)), e);
  }

  lemma FailReplays(sink: Sink, st: State)
    requires Replays(st)
    ensures Replays(OutletFail(sink, st))
  {
    ApplyReplays(st, Fail);
    DeliverEndFrame(sink, Apply(st, Fail));
  }

  lemma CompleteReplays(sink: Sink, st: State)
    requires Replays(st)
    ensures Replays(OutletComplete(sink, st))
  {
    ApplyReplays(st, Complete);
    DeliverEndFrame(sink, Apply(st, Complete));
  }

  lemma ExecuteReplays(sink: Sink, st: State, n: Amount)
    requires Replays(st)
    ensures Replays(Execute(sink, st, n))
  {
    var pulled := Apply(st, Pull(n));
    ApplyReplays(st, Pull(n));
    LoopReplays(sink, pulled, n);
    CompleteReplays(sink, pulled);
  }

  lemma {:induction false} DrainReplays(sink: Sink, st: State)
    requires Replays(st)
    ensures Replays(Drain(sink, st))
    decreases Left(st.supply), OpenBit(st), |st.queue|
  {
    if st.queue != [] {
      var st', n := st.(queue := st.queue[1..]), st.queue[0];
      ExecuteReplays(sink, st', n);
      ExecuteProgress(sink, st', n);
      DrainUnfolds(sink, st);
      DrainReplays(sink, Execute(sink, st', n));
    }
  }

  /** Starting a pipeline, and pulling, pushing or cancelling it from outside,
      keep the connection within a history. */
  lemma RunsAreHistories(source: Source, sink: Sink, st: State, n: Amount, e: Element)
    ensures Replays(Start(source, sink))
    ensures Replays(st) ==> Replays(InletPull(sink, st, n)) && Replays(DirectPush(sink, st, e))
    ensures Replays(st) && st.linked ==> Replays(InletCancel(st))
  {
    var logic, st0 := Wrapped(source, Scheduled(sink)), Created(Bottom(source));
    OnConnectAsks(logic, logic, st0);
    DrainReplays(logic, Request(st0, 1).(wip := true));
    DrainReplays(logic, Request(st0, LONG_MAX).(wip := true));
    if Replays(st) {
      DeliverFrame(sink, st, e);
      DrainReplays(sink, Request(st, n).(wip := true));
      DrainReplays(sink, Deliver(sink, st, e).(wip := true));
      ApplyReplays(st, Cancel);
    }
  }
}
