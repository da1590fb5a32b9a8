/** rxc/src/logic.c: the demand ledger of one connection.

    Every entry point of a connection updates `requested` first and calls the
    other side as its very last action, so a history of nested calls is the list
    of the operations in the order in which they were entered. */
module Connection {
  import opened CInt

  datatype Op<E> =
    | Pull(n: int)
    | Cancel
    | Emit(element: E)
    | Fail
    | Complete

  /** What the other side of the connection gets to see. `Refused` is the -1
      that `rxc_outlet_emit` returns to its caller. */
  datatype Signal<E> =
    | OnPull(n: int)
    | OnPush(element: E)
    | OnUpstreamFinish
    | OnUpstreamFailure
    | OnDownstreamFinish
    | Refused(element: E)

  datatype Conn<E> = Conn(requested: int, ops: seq<Op<E>>, signals: seq<Signal<E>>) {
    predicate Closed() {
      requested == LONG_MIN
    }
  }

  function Create<E>(): Conn<E> {
    Conn(0, [], [])
  }

  /** The counter after `requested += n` and the cap that follows it. */
  function Added(requested: int, n: int): int {
    var sum := WrapLong(requested + n);
    if sum < 0 then LONG_MAX else sum
  }

  function Step<E>(c: Conn<E>, op: Op<E>): Conn<E> {
    var d := c.(ops := c.ops + [op]);
    match op
    case Pull(n) =>
      if c.Closed() then d
      else d.(requested := Added(c.requested, n), signals := c.signals + [OnPull(n)])
    case Cancel =>
      if c.Closed() then d
      else d.(requested := LONG_MIN, signals := c.signals + [OnDownstreamFinish])
    case Emit(e) =>
      if c.requested <= 0 then d.(signals := c.signals + [Refused(e)])
      else d.(requested := if c.requested != LONG_MAX then c.requested - 1 else c.requested,
              signals := c.signals + [OnPush(e)])
    case Fail =>
      if c.Closed() then d
      else d.(requested := LONG_MIN, signals := c.signals + [OnUpstreamFailure])
    case Complete =>
      if c.Closed() then d
      else d.(requested := LONG_MIN, signals := c.signals + [OnUpstreamFinish])
  }

  /** The connection after a whole history, from its creation on. */
  function Replay<E>(ops: seq<Op<E>>): Conn<E> {
    if ops == [] then Create() else Step(Replay(ops[..|ops| - 1]), ops[|ops| - 1])
  }

  /** A demand is never negative and fits in a `long`. */
  predicate Legal<E>(ops: seq<Op<E>>) {
    forall i | 0 <= i < |ops| && ops[i].Pull? :: 0 <= ops[i].n <= LONG_MAX
  }

  lemma {:induction false} ReplayRecordsOps<E>(ops: seq<Op<E>>)
    ensures Replay(ops).ops == ops
  {
    if ops != [] {
      ReplayRecordsOps(ops[..|ops| - 1]);
      assert ops == ops[..|ops| - 1] + [ops[|ops| - 1]];
    }
  }

  lemma ReplaySnoc<E>(ops: seq<Op<E>>, op: Op<E>)
    ensures Replay(ops + [op]) == Step(Replay(ops), op)
  {
    assert (ops + [op])[..|ops|] == ops;
  }

  lemma StepRecords<E>(c: Conn<E>, op: Op<E>)
    ensures Step(c, op).ops == c.ops + [op]
  {
  }

  lemma LegalSnoc<E>(ops: seq<Op<E>>, op: Op<E>)
    requires Legal(ops) && (op.Pull? ==> 0 <= op.n <= LONG_MAX)
    ensures Legal(ops + [op])
  {
  }

  /** The addition that may wrap computes the capped sum. */
  lemma AddedIsCappedSum(requested: int, n: int)
    requires 0 <= requested <= LONG_MAX && 0 <= n <= LONG_MAX
    ensures Added(requested, n) == Min(requested + n, LONG_MAX)
  {
  }

  // ----- What the two sentinels stand for ------------------------------------

  datatype Demand = Shut | Unbounded | Bounded(left: nat)

  function Meaning(requested: int): Demand
    requires requested == LONG_MIN || 0 <= requested <= LONG_MAX
  {
    if requested == LONG_MIN then Shut
    else if requested == LONG_MAX then Unbounded
    else Bounded(requested)
  }

  /** The ledger without machine integers or sentinels. */
  function Account<E>(d: Demand, op: Op<E>): Demand
    requires op.Pull? ==> 0 <= op.n
  {
    match d
    case Shut => Shut
    case Unbounded => if op.Pull? || op.Emit? then Unbounded else Shut
    case Bounded(k) =>
      match op
      case Pull(n) => if k + n < LONG_MAX then Bounded(k + n) else Unbounded
      case Emit(_) => if k > 0 then Bounded(k - 1) else Bounded(0)
      case _ => Shut
  }

  function Ledger<E>(ops: seq<Op<E>>): Demand
    requires Legal(ops)
  {
    if ops == [] then Bounded(0)
    else
      var front, last := ops[..|ops| - 1], ops[|ops| - 1];
      assert last == ops[|ops| - 1];
      Account(Ledger(front), last)
  }

  /** Over every history the machine counter stays in range and means exactly
      what the ledger over unbounded numbers says. */
  lemma {:induction false} CounterRefinesLedger<E>(ops: seq<Op<E>>)
    requires Legal(ops)
    ensures Replay(ops).Closed() || 0 <= Replay(ops).requested <= LONG_MAX
    ensures Meaning(Replay(ops).requested) == Ledger(ops)
  {
    if ops != [] {
      var front, last := ops[..|ops| - 1], ops[|ops| - 1];
      CounterRefinesLedger(front);
      if last.Pull? && !Replay(front).Closed() {
        AddedIsCappedSum(Replay(front).requested, last.n);
      }
    }
  }

  // ----- Pulled minus pushed --------------------------------------------------

  function Pulled<E>(signals: seq<Signal<E>>): int {
    if signals == [] then 0
    else Pulled(signals[..|signals| - 1]) +
         (if signals[|signals| - 1].OnPull? then signals[|signals| - 1].n else 0)
  }

  function Pushed<E>(signals: seq<Signal<E>>): nat {
    if signals == [] then 0
    else Pushed(signals[..|signals| - 1]) + (if signals[|signals| - 1].OnPush? then 1 else 0)
  }

  ghost predicate Saturated<E>(ops: seq<Op<E>>) {
    exists i :: 0 <= i <= |ops| && Replay(ops[..i]).requested == LONG_MAX
  }

  lemma SaturatedFront<E>(ops: seq<Op<E>>)
    requires ops != [] && !Saturated(ops)
    ensures !Saturated(ops[..|ops| - 1]) && Replay(ops).requested != LONG_MAX
  {
    var front := ops[..|ops| - 1];
    assert ops[..|ops|] == ops;
    forall i | 0 <= i <= |front|
      ensures Replay(front[..i]).requested != LONG_MAX
    {
      assert front[..i] == ops[..i];
    }
  }

  lemma SignalSnoc<E>(signals: seq<Signal<E>>, s: Signal<E>)
    ensures Pulled(signals + [s]) == Pulled(signals) + (if s.OnPull? then s.n else 0)
    ensures Pushed(signals + [s]) == Pushed(signals) + (if s.OnPush? then 1 else 0)
  {
    assert (signals + [s])[..|signals|] == signals;
  }

  predicate Balanced<E>(c: Conn<E>) {
    && Pushed(c.signals) <= Pulled(c.signals)
    && (c.Closed() || 0 <= c.requested == Pulled(c.signals) - Pushed(c.signals))
  }

  lemma BalanceStep<E>(c: Conn<E>, op: Op<E>)
    requires Balanced(c) && (c.Closed() || 0 <= c.requested < LONG_MAX)
    requires op.Pull? ==> 0 <= op.n <= LONG_MAX
    requires Step(c, op).requested != LONG_MAX
    ensures Balanced(Step(c, op))
  {
    var d := Step(c, op);
    if op.Pull? && !c.Closed() {
      AddedIsCappedSum(c.requested, op.n);
    }
    if d.signals != c.signals {
      assert d.signals == c.signals + [d.signals[|c.signals|]];
      SignalSnoc(c.signals, d.signals[|c.signals|]);
    }
  }

  /** Until it saturates, the counter is what was pulled minus what was pushed,
      and a source never pushes more than was pulled, closed or not. */
  lemma {:induction false} BalanceUntilSaturation<E>(ops: seq<Op<E>>)
    requires Legal(ops) && !Saturated(ops)
    ensures Balanced(Replay(ops))
  {
    if ops != [] {
      var front := ops[..|ops| - 1];
      SaturatedFront(ops);
      BalanceUntilSaturation(front);
      CounterRefinesLedger(front);
      assert front[..|front|] == front;
      BalanceStep(Replay(front), ops[|ops| - 1]);
    }
  }

  /** Once unbounded, a connection stays unbounded until it is closed. */
  lemma {:induction false} UnboundedStays<E>(ops: seq<Op<E>>, i: nat)
    requires Legal(ops) && i <= |ops|
    requires Replay(ops[..i]).requested == LONG_MAX
    ensures Replay(ops).requested == LONG_MAX || Replay(ops).Closed()
  {
    if i == |ops| {
      assert ops[..i] == ops;
    } else {
      var front := ops[..|ops| - 1];
      assert front[..i] == ops[..i];
      UnboundedStays(front, i);
    }
  }

  // ----- Terminal signals -------------------------------------------------------

  predicate Terminal<E>(s: Signal<E>) {
    s.OnUpstreamFinish? || s.OnUpstreamFailure? || s.OnDownstreamFinish?
  }

  /** After a terminal signal neither side calls the other again. */
  predicate Disciplined<E>(signals: seq<Signal<E>>) {
    forall i, j | 0 <= i < j < |signals| && Terminal(signals[i]) :: signals[j].Refused?
  }

  /** Over every history, whatever is pulled, emitted or closed afterwards: a
      connection is closed exactly when a terminal signal was given, and that
      signal is the last call either side receives. */
  lemma {:induction false} TerminalDiscipline<E>(ops: seq<Op<E>>)
    requires Legal(ops)
    ensures Disciplined(Replay(ops).signals)
    ensures Replay(ops).Closed() <==> exists i :: 0 <= i < |Replay(ops).signals| && Terminal(Replay(ops).signals[i])
  {
    if ops != [] {
      var front := ops[..|ops| - 1];
      TerminalDiscipline(front);
      CounterRefinesLedger(front);
      var before, after := Replay(front), Replay(ops);
      if |after.signals| > |before.signals| {
        assert after.signals[..|before.signals|] == before.signals;
        if after.Closed() {
          if before.Closed() {
            var i :| 0 <= i < |before.signals| && Terminal(before.signals[i]);
            assert after.signals[i] == before.signals[i];
          } else {
            assert Terminal(after.signals[|before.signals|]);
          }
        }
      }
    }
  }

  lemma TerminalAtMostOnce<E>(ops: seq<Op<E>>, i: nat, j: nat)
    requires Legal(ops)
    requires i < |Replay(ops).signals| && Terminal(Replay(ops).signals[i])
    requires j < |Replay(ops).signals| && Terminal(Replay(ops).signals[j])
    ensures i == j
  {
    TerminalDiscipline(ops);
  }

  // ----- Which call answers which operation ----------------------------------------------

  predicate Closes<E>(op: Op<E>) {
    op.Cancel? || op.Fail? || op.Complete?
  }

  /** Whose side the closing operation was called on decides who hears of it: a cancel
      reaches the source, a completion and a failure reach the sink. */
  function ClosingSignal<E>(op: Op<E>): Signal<E>
    requires Closes(op)
  {
    match op
    case Cancel => OnDownstreamFinish
    case Fail => OnUpstreamFailure
    case Complete => OnUpstreamFinish
  }

  /** The first closing operation of a history decides its terminal signal; without
      one there is none. */
  lemma {:induction false} FirstCloseDecides<E>(ops: seq<Op<E>>, i: nat)
    requires Legal(ops) && i <= |ops| && forall j | 0 <= j < i :: !Closes(ops[j])
    requires i < |ops| ==> Closes(ops[i])
    ensures i == |ops| ==> !Replay(ops).Closed() && forall s <- Replay(ops).signals :: !Terminal(s)
    ensures i < |ops| ==>
              && ClosingSignal(ops[i]) in Replay(ops).signals
              && forall s <- Replay(ops).signals | Terminal(s) :: s == ClosingSignal(ops[i])
  {
    if ops != [] {
      var front, last := ops[..|ops| - 1], ops[|ops| - 1];
      FirstCloseDecides(front, if i < |ops| then i else |front|);
      CounterRefinesLedger(front);
      if i < |front| {
        TerminalDiscipline(front);
        assert Replay(front).Closed();
      } else if i == |front| {
        assert Replay(ops).signals == Replay(front).signals + [ClosingSignal(last)];
      }
    }
  }

  function Emitted<E>(ops: seq<Op<E>>): seq<E> {
    if ops == [] then []
    else
      var last := ops[|ops| - 1];
      Emitted(ops[..|ops| - 1]) + if last.Emit? then [last.element] else []
  }

  /** The elements that were pushed on or handed back. */
  function Answered<E>(signals: seq<Signal<E>>): seq<E> {
    if signals == [] then []
    else
      var last := signals[|signals| - 1];
      Answered(signals[..|signals| - 1]) + if last.OnPush? || last.Refused? then [last.element] else []
  }

  /** Over every history each emitted element is pushed on or refused, in order. */
  lemma {:induction false} EmitsAreAnswered<E>(ops: seq<Op<E>>)
    ensures Answered(Replay(ops).signals) == Emitted(ops)
  {
    if ops != [] {
      var front, last := ops[..|ops| - 1], ops[|ops| - 1];
      EmitsAreAnswered(front);
      StepAnswers(Replay(front), last);
    }
  }

  lemma StepAnswers<E>(c: Conn<E>, op: Op<E>)
    ensures Answered(Step(c, op).signals) == Answered(c.signals) + if op.Emit? then [op.element] else []
  {
    var after := Step(c, op).signals;
    if after != c.signals {
      assert after[..|c.signals|] == c.signals;
    }
  }

  /** An emit is refused if and only if the ledger has no demand left. */
  lemma EmitRefusedExactly<E>(ops: seq<Op<E>>, e: E)
    requires Legal(ops)
    ensures Replay(ops + [Emit(e)]).signals ==
            Replay(ops).signals +
            [if Ledger(ops) == Shut || Ledger(ops) == Bounded(0) then Refused(e) else OnPush(e)]
  {
    ReplaySnoc(ops, Emit(e));
    CounterRefinesLedger(ops);
  }
}
