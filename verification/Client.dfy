/** sas-client/src/client.c, source.c and drivers/ignore.c: the client session
    with the ignore driver as its sink. First as functions on its state; the class
    `ClientSession` below updates its fields in place and is proved against them. */
module Client {
  import opened CInt
  import opened Connection
  import opened Pipeline
  import opened PipelineLaws
  import opened PipelineRun
  import opened Transport

  const ECONNRESET := 104
  const ETIMEDOUT := 110

  /** `struct sas_chunk`, as the sink gets it. */
  datatype Frame = Frame(size: nat, bytes: seq<Byte>)

  datatype Option<T> = None | Some(value: T)

  /** `result` is what the last call of the state machine returned; `sent` is all
      that was handed to the socket. */
  datatype Client = Client(
    state: Phase, seqNo: nat, ackNo: nat, sendWindow: nat, receiveWindow: nat,
    pipe: State, format: Option<Format>, pushed: seq<Frame>, result: int, sent: seq<Packet>)

  const LOGIC: Sink := Sink.Scheduled(Driver)

  /** `chunk.size`: the size of the configuration is subtracted whatever the
      packet is, and a `size_t` wraps. */
  function FrameSize(length: nat): nat {
    if CONFIG_ACK_SIZE <= length then length - CONFIG_ACK_SIZE else TWO_64 + length - CONFIG_ACK_SIZE
  }

  /** The audio in a payload; a payload of another kind is not audio. */
  function Content(p: Payload): seq<Byte> {
    if p.Audio? then p.bytes else []
  }

  /** What decoding a payload as a configuration gives: nothing to rely on, unless
      it is one. */
  function FormatOf(p: Payload): Option<Format> {
    if p.ConfigAck? then Some(p.format) else None
  }

  function ErrorOf(p: Payload): int {
    if p.ErrorCode? then p.code else 0
  }

  function Init(): Client {
    Client(Initial, 0, 0, 0, WINDOW_SIZE, Created(Remote), None, [], 0, [])
  }

  function Send(c: Client, body: Body): Client {
    c.(sent := c.sent + [Packet(c.seqNo, c.ackNo, c.receiveWindow, body)],
       seqNo := U32(c.seqNo + Extent(body)))
  }

  function Syn(c: Client, name: seq<Byte>): Client {
    Send(c.(state := SynSent), Body(SYN, Config(0, name)))
  }

  function Ack(c: Client): Client {
    Send(c, Body(ACK, Nothing))
  }

  /** The session's source answers every pull by reopening the window. */
  function AnswerPulls(c: Client, signals: seq<Signal<Element>>): Client
    decreases |signals|
  {
    if |signals| == 0 then c
    else AnswerPulls(if signals[0].OnPull? then Ack(c.(receiveWindow := WINDOW_SIZE)) else c, signals[1..])
  }

  /** The pipeline moves to `pipe`; its source acts on the pulls that reach it. */
  function Relay(c: Client, pipe: State): Client {
    AnswerPulls(c.(pipe := pipe), Since(c.pipe.conn.signals, pipe.conn.signals))
  }

  function PushFrame(c: Client, frame: Frame): Client {
    Relay(c.(pushed := c.pushed + [frame]), DirectPush(LOGIC, c.pipe, Chunk(frame.bytes)))
  }

  function Configure(c: Client, p: Payload): Client {
    var started := Relay(c.(format := FormatOf(p), pipe := Created(Remote)), Start(Base(Remote), Driver));
    PushFrame(Ack(started).(state := Established), Frame(FrameSize(Length(p)), Content(p)))
  }

  function Play(c: Client, p: Payload): Client {
    Ack(PushFrame(c, Frame(FrameSize(Length(p)), Content(p))).(receiveWindow := 0))
  }

  /** The receiver takes note of a packet before it looks at what it is. */
  function Note(c: Client, p: Packet): Client {
    c.(sendWindow := p.window, ackNo := U32(p.seqNo + Extent(p.body)), result := 0)
  }

  function Act(c: Client, body: Body): Client {
    if body.flags.rst then
      if body.flags.err then c.(result := ErrorOf(body.payload))
      else if body.flags.fin then c.(state := Finished)
      else c.(result := ECONNRESET)
    else
      match c.state
      case SynSent => Configure(c, body.payload)
      case Established => Play(c, body.payload)
      case _ => c
  }

  /** `sas_client_session_state_machine` */
  function Receive(c: Client, p: Packet): Client {
    if p.seqNo < c.ackNo then c.(result := 0) else Act(Note(c, p), p.body)
  }

  /** The receive loop has ended. */
  predicate Done(c: Client) {
    c.state == Finished || c.result != 0
  }

  /** The packets that arrive, one after the other, until the loop ends. */
  function Listen(c: Client, arriving: seq<Packet>): Client
    decreases |arriving|
  {
    if |arriving| == 0 || Done(c) then c else Listen(Receive(c, arriving[0]), arriving[1..])
  }

  /** What `sas_client_receive` returns once nothing more arrives. */
  function ReturnCode(c: Client): int {
    if c.result != 0 then c.result else if c.state == Finished then 0 else ETIMEDOUT
  }

  // ----- The receive loop -------------------------------------------------------------------

  /** The loop takes one packet after the other until it is done. */
  lemma {:induction false} ListenSnoc(c: Client, arriving: seq<Packet>, p: Packet)
    ensures var d := Listen(c, arriving); Listen(c, arriving + [p]) == if Done(d) then d else Receive(d, p)
    decreases |arriving|
  {
    if |arriving| == 0 {
      assert arriving + [p] == [p] && |[p][1..]| == 0;
    } else if !Done(c) {
      assert (arriving + [p])[0] == arriving[0] && (arriving + [p])[1..] == arriving[1..] + [p];
      ListenSnoc(Receive(c, arriving[0]), arriving[1..], p);
    }
  }

  lemma {:induction false} PullsKeepState(c: Client, signals: seq<Signal<Element>>)
    ensures AnswerPulls(c, signals).state == c.state && AnswerPulls(c, signals).result == c.result
    decreases |signals|
  {
    if |signals| > 0 {
      PullsKeepState(if signals[0].OnPull? then Ack(c.(receiveWindow := WINDOW_SIZE)) else c, signals[1..]);
    }
  }

  lemma PushKeepsState(c: Client, frame: Frame)
    ensures PushFrame(c, frame).state == c.state && PushFrame(c, frame).result == c.result
  {
    var pipe := DirectPush(LOGIC, c.pipe, Chunk(frame.bytes));
    PullsKeepState(c.(pushed := c.pushed + [frame], pipe := pipe), Since(c.pipe.conn.signals, pipe.conn.signals));
  }

  /** Only a packet that leaves the result at 0 can finish a client. */
  lemma FinishesCleanly(c: Client, p: Packet)
    requires c.state != Finished
    ensures Receive(c, p).state == Finished ==> Receive(c, p).result == 0
  {
    var frame := Frame(FrameSize(Length(p.body.payload)), Content(p.body.payload));
    PushKeepsState(Note(c, p), frame);
    if c.state == SynSent {
      var moved := Note(c, p).(format := FormatOf(p.body.payload), pipe := Created(Remote));
      PushKeepsState(Ack(Relay(moved, Start(Base(Remote), Driver))).(state := Established), frame);
    }
  }

  /** So the loop returns 0 if and only if the client is FINISHED. */
  lemma {:induction false} ReturnsZeroExactly(c: Client, arriving: seq<Packet>)
    requires c.state == Finished ==> c.result == 0
    ensures ReturnCode(Listen(c, arriving)) == 0 <==> Listen(c, arriving).state == Finished
    decreases |arriving|
  {
    if |arriving| > 0 && !Done(c) {
      FinishesCleanly(c, arriving[0]);
      ReturnsZeroExactly(Receive(c, arriving[0]), arriving[1..]);
    }
  }

  // ----- What the two accepting branches do ------------------------------------------------

  function Acks(n: nat): (bodies: seq<Body>)
    ensures |bodies| == n
  {
    seq(n, _ => Body(ACK, Nothing))
  }

  /** `d` is `c` after it sent packets with these bodies. */
  ghost predicate Sends(c: Client, d: Client, bodies: seq<Body>) {
    SentMore(c.sent, d.sent, d.seqNo, bodies)
  }

  lemma AckSends(c: Client)
    requires Sender(c.sent, c.seqNo)
    ensures Sends(c, Ack(c), [Body(ACK, Nothing)])
  {
    SendSends(c.sent, Packet(c.seqNo, c.ackNo, c.receiveWindow, Body(ACK, Nothing)));
  }

  lemma OnePullOneAck(c: Client, pipe: State)
    requires pipe.conn.signals == c.pipe.conn.signals + [Signal.OnPull(1)]
    ensures Relay(c, pipe) == Ack(c.(pipe := pipe, receiveWindow := WINDOW_SIZE))
  {
    assert Since(c.pipe.conn.signals, pipe.conn.signals) == [Signal.OnPull(1)];
    AnswerOnePull(c.(pipe := pipe), 1);
  }

  lemma AnswerOnePull(c: Client, n: int)
    ensures AnswerPulls(c, [Signal.OnPull(n)]) == Ack(c.(receiveWindow := WINDOW_SIZE))
  {
    var signals: seq<Signal<Element>> := [Signal.OnPull(n)];
    assert |signals[1..]| == 0;
  }

  /** The driver answers a frame by one pull, the source a pull by one ACK. */
  lemma FrameIsPulled(c: Client, frame: Frame)
    requires Relaying(c.pipe)
    ensures var pipe := DirectPush(LOGIC, c.pipe, Chunk(frame.bytes));
            && Relaying(pipe)
            && PushFrame(c, frame) ==
                 Ack(c.(pushed := c.pushed + [frame], pipe := pipe, receiveWindow := WINDOW_SIZE))
  {
    DirectPushRelaysOnePull(LOGIC, c.pipe, Chunk(frame.bytes));
    OnePullOneAck(c.(pushed := c.pushed + [frame]), DirectPush(LOGIC, c.pipe, Chunk(frame.bytes)));
  }

  /** Configuring sends three acknowledgements: for the pull on connect, the
      explicit one, and for the pull after the configuration was pushed. */
  lemma ConfigureSendsThreeAcks(c: Client, p: Payload)
    requires Sender(c.sent, c.seqNo)
    ensures var d := Configure(c, p);
            && Sends(c, d, Acks(3)) && Relaying(d.pipe) && d.format == FormatOf(p)
            && d.pushed == c.pushed + [Frame(FrameSize(Length(p)), Content(p))]
            && d.ackNo == c.ackNo && d.state == Established && d.result == c.result
            && d.sendWindow == c.sendWindow && d.receiveWindow == WINDOW_SIZE
  {
    var c0 := c.(format := FormatOf(p), pipe := Created(Remote));
    var pipe, frame := Start(Base(Remote), Driver), Frame(FrameSize(Length(p)), Content(p));
    ConnectRelaysOnePull(Driver);
    assert pipe.conn.signals == c0.pipe.conn.signals + [Signal.OnPull(1)];
    OnePullOneAck(c0, pipe);
    var asked := c0.(pipe := pipe, receiveWindow := WINDOW_SIZE);
    var acked := Ack(Ack(asked)).(state := Established);
    FrameIsPulled(acked, frame);
    AckSends(asked);
    AckSends(Ack(asked));
    AckSends(acked.(pushed := c.pushed + [frame], pipe := DirectPush(LOGIC, pipe, Chunk(frame.bytes))));
    ThreeAcks(Bodies(c.sent));
  }

  /** All three advertise the open window. */
  lemma ConfigureOpens(c: Client, p: Payload)
    ensures var d := Configure(c, p);
            && |d.sent| == |c.sent| + 3 && c.sent <= d.sent && d.state == Established
            && forall k | |c.sent| <= k < |d.sent| :: d.sent[k].window == WINDOW_SIZE
  {
    var c0 := c.(format := FormatOf(p), pipe := Created(Remote));
    var pipe := Start(Base(Remote), Driver);
    ConnectRelaysOnePull(Driver);
    assert pipe.conn.signals == c0.pipe.conn.signals + [Signal.OnPull(1)];
    OnePullOneAck(c0, pipe);
    FrameIsPulled(Ack(Relay(c0, pipe)).(state := Established), Frame(FrameSize(Length(p)), Content(p)));
  }

  lemma ThreeAcks(bodies: seq<Body>)
    ensures bodies + [Body(ACK, Nothing)] + [Body(ACK, Nothing)] + [Body(ACK, Nothing)] == bodies + Acks(3)
  {
  }

  /** A data packet is answered by two acknowledgements. The first, for the pull
      that the driver makes when it is given the chunk, opens the window; the second,
      explicit one closes it. */
  lemma PlayOpensThenCloses(c: Client, p: Payload)
    requires Relaying(c.pipe)
    ensures var d := Play(c, p);
            && d.receiveWindow == 0 && d.state == c.state
            && d.sent == c.sent + [Packet(c.seqNo, c.ackNo, WINDOW_SIZE, Body(ACK, Nothing)),
                                   Packet(U32(c.seqNo + 1), c.ackNo, 0, Body(ACK, Nothing))]
  {
    var frame := Frame(FrameSize(Length(p)), Content(p));
    FrameIsPulled(c, frame);
    OpenThenClosed(c.(pushed := c.pushed + [frame], pipe := DirectPush(LOGIC, c.pipe, Chunk(frame.bytes)),
                      receiveWindow := WINDOW_SIZE));
  }

  lemma OpenThenClosed(c: Client)
    ensures var d := Ack(Ack(c).(receiveWindow := 0));
            && d.receiveWindow == 0 && d.state == c.state
            && d.sent == c.sent + [Packet(c.seqNo, c.ackNo, c.receiveWindow, Body(ACK, Nothing)),
                                   Packet(U32(c.seqNo + 1), c.ackNo, 0, Body(ACK, Nothing))]
  {
    assert Extent(Body(ACK, Nothing)) == 1;
  }

  lemma PlaySendsTwoAcks(c: Client, p: Payload)
    requires Sender(c.sent, c.seqNo) && Relaying(c.pipe)
    ensures var d := Play(c, p);
            && Sends(c, d, Acks(2)) && Relaying(d.pipe) && d.format == c.format
            && d.pushed == c.pushed + [Frame(FrameSize(Length(p)), Content(p))]
            && d.ackNo == c.ackNo && d.state == c.state && d.result == c.result
            && d.sendWindow == c.sendWindow && d.receiveWindow == 0
  {
    var frame := Frame(FrameSize(Length(p)), Content(p));
    FrameIsPulled(c, frame);
    var asked := c.(pushed := c.pushed + [frame], pipe := DirectPush(LOGIC, c.pipe, Chunk(frame.bytes)),
                    receiveWindow := WINDOW_SIZE);
    AckSends(asked);
    AckSends(Ack(asked).(receiveWindow := 0));
    TwoAcks(Bodies(c.sent));
  }

  lemma TwoAcks(bodies: seq<Body>)
    ensures bodies + [Body(ACK, Nothing)] + [Body(ACK, Nothing)] == bodies + Acks(2)
  {
  }

  /** `d` is `c` after it sent some packets, which all carry its `ack`. */
  ghost predicate Acknowledged(c: Client, d: Client) {
    d.ackNo == c.ackNo && d.receiveWindow in Windows(c) && AllCarry(c.sent, d.sent, c.ackNo, Windows(c))
  }

  /** The windows that the client can advertise. */
  function Windows(c: Client): set<nat> {
    {c.receiveWindow, 0, WINDOW_SIZE}
  }

  lemma AckAcknowledges(c: Client, d: Client)
    requires Acknowledged(c, d)
    ensures Acknowledged(c, Ack(d))
  {
  }

  lemma {:induction false} PullsAcknowledge(c: Client, d: Client, signals: seq<Signal<Element>>)
    requires Acknowledged(c, d)
    ensures Acknowledged(c, AnswerPulls(d, signals))
    decreases |signals|
  {
    if |signals| > 0 {
      if signals[0].OnPull? {
        AckAcknowledges(c, d.(receiveWindow := WINDOW_SIZE));
        PullsAcknowledge(c, Ack(d.(receiveWindow := WINDOW_SIZE)), signals[1..]);
      } else {
        PullsAcknowledge(c, d, signals[1..]);
      }
    }
  }

  lemma PushAcknowledges(c: Client, d: Client, frame: Frame)
    requires Acknowledged(c, d)
    ensures Acknowledged(c, PushFrame(d, frame))
  {
    var pipe := DirectPush(LOGIC, d.pipe, Chunk(frame.bytes));
    PullsAcknowledge(c, d.(pushed := d.pushed + [frame], pipe := pipe), Since(d.pipe.conn.signals, pipe.conn.signals));
  }

  /** In every state, whatever arrives: what the client sends in answer to a packet
      acknowledges everything up to the end of that packet. */
  lemma AnswersAcknowledgePacket(c: Client, p: Packet)
    requires !(p.seqNo < c.ackNo)
    ensures Acknowledged(Note(c, p), Receive(c, p))
    ensures Receive(c, p).ackNo == U32(p.seqNo + Extent(p.body))
  {
    var noted, payload := Note(c, p), p.body.payload;
    var frame := Frame(FrameSize(Length(payload)), Content(payload));
    if !p.body.flags.rst && c.state == SynSent {
      var pipe, moved := Start(Base(Remote), Driver), noted.(format := FormatOf(payload), pipe := Created(Remote));
      PullsAcknowledge(noted, moved.(pipe := pipe), Since(moved.pipe.conn.signals, pipe.conn.signals));
      AckAcknowledges(noted, Relay(moved, pipe));
      PushAcknowledges(noted, Ack(Relay(moved, pipe)).(state := Established), frame);
    } else if !p.body.flags.rst && c.state == Established {
      PushAcknowledges(noted, noted, frame);
      AckAcknowledges(noted, PushFrame(noted, frame).(receiveWindow := 0));
    }
  }

  /** `d` is the client `c` after it accepted `p`: every field, but for what a run
      does not depend on inside the pipeline. */
  ghost predicate Takes(c: Client, p: Packet, d: Client) {
    var body, rst := p.body, p.body.flags.rst;
    && d.ackNo == U32(p.seqNo + Extent(body))
    && Sends(c, d, Acks(if rst then 0 else if c.state == SynSent then 3 else 2))
    && d.sendWindow == p.window
    && d.receiveWindow == (if rst then c.receiveWindow else if c.state == SynSent then WINDOW_SIZE else 0)
    && d.pushed == c.pushed + (if rst then [] else [Frame(FrameSize(Length(body.payload)), Content(body.payload))])
    && d.result == (if !rst then 0 else if body.flags.err then ErrorOf(body.payload)
                    else if body.flags.fin then 0 else ECONNRESET)
    && d.state == (if !rst then Established else if body.flags.fin && !body.flags.err then Finished else c.state)
    && (if rst then d.pipe == c.pipe else Relaying(d.pipe))
    && d.format == if !rst && c.state == SynSent then FormatOf(body.payload) else c.format
  }

  /** A reset that is accepted leaves the stream and the sink alone: with an error it
      returns the code of the error, as an end it finishes, otherwise it is
      ECONNRESET. */
  lemma ResetSaysHowItEnds(c: Client, p: Packet)
    requires !(p.seqNo < c.ackNo) && p.body.flags.rst
    ensures var d := Receive(c, p);
            && d.sent == c.sent && d.pushed == c.pushed && d.pipe == c.pipe
            && (p.body.flags.err ==> d.state == c.state && d.result == ErrorOf(p.body.payload))
            && (!p.body.flags.err && p.body.flags.fin ==> d.state == Finished && d.result == 0)
            && (!p.body.flags.err && !p.body.flags.fin ==> d.state == c.state && d.result == ECONNRESET)
  {
  }

  /** A packet below `ack` has no effect, and the state machine returns 0. */
  lemma OldPacketIsDropped(c: Client, p: Packet)
    requires p.seqNo < c.ackNo
    ensures Receive(c, p) == c.(result := 0)
  {
  }

  /** In any other state a packet is noted and has no further effect. */
  lemma UnexpectedIsNoted(c: Client, p: Packet)
    requires !(p.seqNo < c.ackNo) && !p.body.flags.rst && c.state != SynSent && c.state != Established
    ensures Receive(c, p) == c.(sendWindow := p.window, ackNo := U32(p.seqNo + Extent(p.body)), result := 0)
  {
  }

  lemma ResetIsTaken(c: Client, p: Packet)
    requires Sender(c.sent, c.seqNo) && !(p.seqNo < c.ackNo) && p.body.flags.rst
    ensures Takes(c, p, Receive(c, p))
  {
    assert Bodies(c.sent) + Acks(0) == Bodies(c.sent);
  }

  lemma ConfigurationIsTaken(c: Client, p: Packet)
    requires Sender(c.sent, c.seqNo) && !(p.seqNo < c.ackNo) && !p.body.flags.rst && c.state == SynSent
    ensures Takes(c, p, Receive(c, p))
  {
    var noted := Note(c, p);
    ConfigureSendsThreeAcks(noted, p.body.payload);
    var d := Configure(noted, p.body.payload);
    assert Receive(c, p) == d;
    assert Takes(c, p, d);
  }

  lemma DataIsTaken(c: Client, p: Packet)
    requires Sender(c.sent, c.seqNo) && !(p.seqNo < c.ackNo) && !p.body.flags.rst
    requires c.state == Established && Relaying(c.pipe)
    ensures Takes(c, p, Receive(c, p))
  {
    var noted := Note(c, p);
    PlaySendsTwoAcks(noted, p.body.payload);
    var d := Play(noted, p.body.payload);
    assert Receive(c, p) == d;
    assert Takes(c, p, d);
  }

  /** Every packet that is accepted while the client waits for the SYN-ACK or for
      data has this effect. */
  lemma ReceiveTakes(c: Client, p: Packet)
    requires Sender(c.sent, c.seqNo) && !(p.seqNo < c.ackNo)
    requires c.state == SynSent || (c.state == Established && Relaying(c.pipe))
    ensures Takes(c, p, Receive(c, p))
  {
    if p.body.flags.rst {
      ResetIsTaken(c, p);
    } else if c.state == SynSent {
      ConfigurationIsTaken(c, p);
    } else {
      DataIsTaken(c, p);
    }
  }

  /** The size that the sink is told falls short of the length of the packet by the
      size of a configuration, as a `size_t`. */
  lemma FrameSizeFallsShort(n: nat)
    requires n <= MAX_LENGTH
    ensures FrameSize(n) < TWO_64 && (FrameSize(n) + 8) % TWO_64 == n
  {
  }

  /** The size that the sink is told is the number of bytes it gets only for the
      configuration itself; for a short chunk it is near the top of `size_t`. */
  lemma FrameSizeRightOnlyForConfig(p: Payload)
    requires Length(p) <= MAX_LENGTH && (p.ConfigAck? || p.Audio?)
    ensures FrameSize(Length(p)) == |Content(p)| <==> p.ConfigAck?
    ensures p.Audio? && |p.bytes| < CONFIG_ACK_SIZE ==> FrameSize(Length(p)) >= TWO_64 - CONFIG_ACK_SIZE
  {
  }

  // ----- The session in place ------------------------------------------------------------------

  class ClientSession {
    var state: Phase
    var seqNo: nat
    var ackNo: nat
    var sendWindow: nat
    var receiveWindow: nat
    var pipeline: Run?
    var format: Option<Format>
    var result: int

    /** All chunks given to the sink, and all packets given to the socket. */
    var pushed: seq<Frame>
    var sent: seq<Packet>

    ghost predicate Valid()
      reads this, pipeline, if pipeline == null then {} else {pipeline.worker},
            if pipeline == null then {} else pipeline.worker.Nodes()
    {
      pipeline != null ==> pipeline.Valid() && pipeline.logic == LOGIC && !pipeline.worker.wip
    }

    ghost function Footprint(): set<object>
      reads this, pipeline, if pipeline == null then {} else {pipeline.worker}
    {
      {this} + if pipeline == null then {} else {pipeline, pipeline.worker} + pipeline.worker.Nodes()
    }

    ghost function View(): Client
      reads this, pipeline, if pipeline == null then {} else {pipeline.worker}
    {
      Client(state, seqNo, ackNo, sendWindow, receiveWindow,
             if pipeline == null then Created(Remote) else pipeline.View(), format, pushed, result, sent)
    }

    constructor ()
      ensures Valid() && View() == Init() && pipeline == null
    {
      state, seqNo, ackNo, sendWindow, receiveWindow := Initial, 0, 0, 0, WINDOW_SIZE;
      pipeline, format, result, pushed, sent := null, None, 0, [], [];
    }

    method SessionSend(body: Body)
      requires Valid()
      modifies this
      ensures Valid() && View() == Send(old(View()), body) && pipeline == old(pipeline)
    {
      sent := sent + [Packet(seqNo, ackNo, receiveWindow, body)];
      seqNo := U32(seqNo + Extent(body));
    }

    method SessionSyn(name: seq<Byte>)
      requires Valid()
      modifies this
      ensures Valid() && View() == Syn(old(View()), name) && pipeline == old(pipeline)
    {
      state := SynSent;
      SessionSend(Body(SYN, Config(0, name)));
    }

    method SessionAck()
      requires Valid()
      modifies this
      ensures Valid() && View() == Ack(old(View())) && pipeline == old(pipeline)
    {
      SessionSend(Body(ACK, Nothing));
    }

    /** `on_pull` of source.c, once for each pull that reached the source. */
    method OnPulls(signals: seq<Signal<Element>>)
      requires Valid()
      modifies this
      ensures Valid() && View() == AnswerPulls(old(View()), signals) && pipeline == old(pipeline)
    {
      for i := 0 to |signals|
        invariant Valid() && pipeline == old(pipeline)
        invariant AnswerPulls(View(), signals[i..]) == AnswerPulls(old(View()), signals)
      {
        assert signals[i..][0] == signals[i] && signals[i..][1..] == signals[i + 1..];
        if signals[i].OnPull? {
          receiveWindow := WINDOW_SIZE;
          SessionAck();
        }
      }
    }

    method OnPush(frame: Frame)
      requires Valid() && pipeline != null
      modifies Footprint()
      ensures Valid() && View() == PushFrame(old(View()), frame)
      ensures pipeline == old(pipeline) && fresh(Footprint() - old(Footprint()))
    {
      pushed := pushed + [frame];
      var seen := |pipeline.signals|;
      ghost var before := pipeline.View();
      pipeline.OnPush(pipeline.logic, Chunk(frame.bytes));
      OnPulls(if seen <= |pipeline.signals| then pipeline.signals[seen..] else []);
    }

    /** `sas_client_session_state_machine` */
    method StateMachine(p: Packet) returns (code: int)
      requires Valid()
      requires state == Established ==> pipeline != null
      modifies Footprint()
      ensures Valid() && View() == Receive(old(View()), p) && code == result
      ensures fresh(Footprint() - old(Footprint()))
      ensures state == Established ==> pipeline != null
    {
      result := 0;
      if p.seqNo < ackNo {
        return 0;
      }
      sendWindow := p.window;
      ackNo := U32(p.seqNo + Extent(p.body));
      assert View() == Note(old(View()), p);
      SwitchOnState(p.body);
      code := result;
    }

    method SwitchOnState(body: Body)
      requires Valid()
      requires state == Established ==> pipeline != null
      modifies Footprint()
      ensures Valid() && View() == Act(old(View()), body)
      ensures fresh(Footprint() - old(Footprint()))
      ensures state == Established ==> pipeline != null
    {
      if body.flags.rst {
        if body.flags.err {
          result := ErrorOf(body.payload);
        } else if body.flags.fin {
          state := Finished;
        } else {
          result := ECONNRESET;
        }
      } else {
        match state
        case SynSent => OnConfiguration(body.payload);
        case Established => OnChunk(body.payload);
        case _ =>
      }
    }

    method OnConfiguration(p: Payload)
      requires Valid()
      modifies Footprint()
      ensures Valid() && View() == Configure(old(View()), p)
      ensures pipeline != null && fresh(Footprint() - old(Footprint()))
    {
      Establish(FormatOf(p));
      OnPush(Frame(FrameSize(Length(p)), Content(p)));
    }

    /** Lines 221-244. */
    method Establish(decoded: Option<Format>)
      requires Valid()
      modifies this
      ensures Valid() && pipeline != null && fresh(Footprint() - {this})
      ensures var c := old(View()).(format := decoded, pipe := Created(Remote));
              var started := Relay(c, Start(Base(Remote), Driver));
              View() == Ack(started).(state := Established)
    {
      format := decoded;
      Connect();
      SessionAck();
      state := Established;
    }

    method Connect()
      requires Valid()
      modifies this
      ensures Valid() && pipeline != null && fresh(Footprint() - {this})
      ensures View() == Relay(old(View()).(pipe := Created(Remote)), Start(Base(Remote), Driver))
    {
      pipeline := PipelineStart(Base(Remote), Driver);
      OnPulls(pipeline.signals);
    }

    method OnChunk(p: Payload)
      requires Valid() && pipeline != null
      modifies Footprint()
      ensures Valid() && View() == Play(old(View()), p)
      ensures pipeline != null && fresh(Footprint() - old(Footprint()))
    {
      OnPush(Frame(FrameSize(Length(p)), Content(p)));
      receiveWindow := 0;
      SessionAck();
    }

    /** `sas_client_receive`: `arriving` is all that the network will deliver
        before it stays silent for too long. */
    method ReceiveStream(name: seq<Byte>, arriving: seq<Packet>) returns (code: int)
      requires Valid() && pipeline == null && result == 0
      modifies this
      ensures Valid() && View() == Listen(Syn(old(View()), name), arriving)
      ensures code == ReturnCode(View()) && (code == 0 <==> state == Finished)
    {
      SessionSyn(name);
      ReturnsZeroExactly(View(), arriving);
      for i := 0 to |arriving|
        invariant Valid() && result == 0 && (state == Established ==> pipeline != null)
        invariant fresh(Footprint() - {this})
        invariant Listen(View(), arriving[i..]) == Listen(Syn(old(View()), name), arriving)
      {
        if state == Finished {
          return 0;
        }
        assert arriving[i..][0] == arriving[i] && arriving[i..][1..] == arriving[i + 1..];
        var err := StateMachine(arriving[i]);
        if err != 0 {
          return err;
        }
      }
      return if state == Finished then 0 else ETIMEDOUT;
    }
  }
}
