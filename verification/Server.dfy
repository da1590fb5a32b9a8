/** sas-server/src/session.c (the session, not the table) and sink.c: one
    incarnation of a server session, whose chunks come from an rxc pipeline. First
    as functions on its state; the class `ServerSession` below updates its fields in
    place and is proved against them. */
module Server {
  import opened CInt
  import opened Connection
  import opened Pipeline
  import opened PipelineLaws
  import opened PipelineRun
  import opened StreamLaws
  import opened Transport

  const EINVAL := 22

  /** What opening a file and reading its WAV header gives. */
  datatype Opening = Opened(file: seq<Byte>, format: Format) | NotOpened(errno: int)

  /** The file system: files by name, the wishes of the i-th `read`, and the
      `errno` that a failing `read` leaves. */
  datatype Env = Env(open: seq<Byte> -> Opening, reader: nat -> int, readErrno: int)

  /** `alive` ends when the session is deleted. `sent` is all that was handed to
      the socket. */
  datatype Server = Server(
    alive: bool, state: Phase, seqNo: nat, ackNo: nat, sendWindow: nat, receiveWindow: nat,
    pipe: State, sent: seq<Packet>)

  const LOGIC: Sink := Sink.Scheduled(SessionSink)

  function Init(): Server {
    Server(true, Initial, 0, 0, 0, WINDOW_SIZE, Created(Remote), [])
  }

  function Send(s: Server, body: Body): Server {
    s.(sent := s.sent + [Packet(s.seqNo, s.ackNo, s.receiveWindow, body)],
       seqNo := U32(s.seqNo + Extent(body)))
  }

  function Error(s: Server, code: int): Server {
    Send(s, Body(RST_ERR, ErrorCode(code)))
  }

  /** The packet that sink.c sends for what the session's sink hears. */
  function Answer(env: Env, h: Heard): Body {
    match h
    case Push(Chunk(bytes)) => Body(DATA, Audio(bytes))
    case Finish => Body(RST_FIN, Nothing)
    case Failure => Body(RST_ERR, ErrorCode(env.readErrno))
    case _ => Body(DATA, Nothing)
  }

  function AnswerAll(env: Env, s: Server, heard: seq<Heard>): Server
    decreases |heard|
  {
    if |heard| == 0 then s else AnswerAll(env, Send(s, Answer(env, heard[0])), heard[1..])
  }

  /** A SYN: open the file, acknowledge, start the pipeline. */
  function Accept(env: Env, s: Server, p: Payload): Server {
    match p
    case Config(codec, name) =>
      if codec != 0 then Error(s, EINVAL).(alive := false)
      else
        (match env.open(name)
         case NotOpened(errno) => Error(s, errno).(alive := false)
         case Opened(file, format) =>
           Send(s, Body(SYN_ACK, ConfigAck(format))).(
             state := SynAckSent,
             pipe := Start(Base(Reading(file, 0, env.reader, false)), SessionSink)))
    case _ => s
  }

  /** Any later packet: one pull. */
  function Advance(env: Env, s: Server): Server {
    var pipe := Pipeline.InletPull(LOGIC, s.pipe, 1);
    AnswerAll(env, s.(state := Established, pipe := pipe), Since(s.pipe.heard, pipe.heard))
  }

  function Note(s: Server, p: Packet): Server {
    s.(sendWindow := p.window, ackNo := U32(p.seqNo + Extent(p.body)))
  }

  function Act(env: Env, s: Server, body: Body): Server {
    if body.flags.rst then s.(alive := false)
    else
      match s.state
      case Initial => if body.flags.syn then Accept(env, s, body.payload) else Send(s, Body(RST, Nothing))
      case SynAckSent => Advance(env, s)
      case Established => Advance(env, s)
      case _ => s
  }

  /** `sas_server_session_state_machine`; a deleted session is out of the model. */
  function Receive(env: Env, s: Server, p: Packet): Server {
    if !s.alive || p.seqNo < s.ackNo then s else Act(env, Note(s, p), p.body)
  }

  // ----- The script of a session -------------------------------------------------------------

  function Answers(env: Env, heard: seq<Heard>): (bodies: seq<Body>)
    ensures |bodies| == |heard|
  {
    seq(|heard|, i requires 0 <= i < |heard| => Answer(env, heard[i]))
  }

  /** All that a session for this file will ever send, in order. */
  function Script(env: Env, name: seq<Byte>): (script: seq<Body>)
    ensures |script| > 0
  {
    match env.open(name)
    case NotOpened(errno) => [Body(RST_ERR, ErrorCode(errno))]
    case Opened(file, format) =>
      [Body(SYN_ACK, ConfigAck(format))] +
      Answers(env, Owed(LOGIC, Reading(file, 0, env.reader, false)))
  }

  /** Where a session stands: what it sent is the beginning of its script, and its
      pipeline holds the rest. */
  ghost predicate OnScript(env: Env, name: seq<Byte>, s: Server) {
    && Quiet(s.pipe) && NoneRefused(s.pipe.conn.signals)
    && (!s.pipe.conn.Closed() ==> s.pipe.conn.requested == 0)
    && Bodies(s.sent) + Answers(env, Pending(LOGIC, s.pipe)) == Script(env, name)
  }

  lemma SendSendsBody(s: Server, body: Body)
    requires Sender(s.sent, s.seqNo)
    ensures var t := Send(s, body); SentMore(s.sent, t.sent, t.seqNo, [body])
  {
    SendSends(s.sent, Packet(s.seqNo, s.ackNo, s.receiveWindow, body));
  }

  lemma AnswersAtMostOne(env: Env, s: Server, heard: seq<Heard>)
    requires Sender(s.sent, s.seqNo) && |heard| <= 1
    ensures var t := AnswerAll(env, s, heard);
            SentMore(s.sent, t.sent, t.seqNo, Answers(env, heard)) && t == s.(sent := t.sent, seqNo := t.seqNo)
  {
    if |heard| == 1 {
      SendSendsBody(s, Answer(env, heard[0]));
      assert |heard[1..]| == 0;
      assert AnswerAll(env, s, heard) == Send(s, Answer(env, heard[0]));
      assert Answers(env, heard) == [Answer(env, heard[0])];
    } else {
      assert Bodies(s.sent) + Answers(env, heard) == Bodies(s.sent);
    }
  }

  /** A request sends the next packet of the script, or nothing after its end. */
  lemma AdvanceFollowsScript(env: Env, name: seq<Byte>, s: Server)
    requires Sender(s.sent, s.seqNo) && OnScript(env, name, s)
    ensures var t := Advance(env, s);
            && OnScript(env, name, t) && Sender(t.sent, t.seqNo)
            && |t.sent| == Min(|s.sent| + 1, |Script(env, name)|)
            && t.state == Established && t.alive == s.alive && t.ackNo == s.ackNo
            && t.sendWindow == s.sendWindow && t.receiveWindow == s.receiveWindow
  {
    var pending := Pending(LOGIC, s.pipe);
    var pipe := Pipeline.InletPull(LOGIC, s.pipe, 1);
    PullTakesPending(LOGIC, s.pipe, 1);
    var next := pending[..Min(1, |pending|)];
    assert Since(s.pipe.heard, pipe.heard) == next;
    AnswersAtMostOne(env, s.(state := Established, pipe := pipe), next);
    SplitAnswers(env, Bodies(s.sent), pending, Min(1, |pending|));
  }

  lemma SplitAnswers(env: Env, bodies: seq<Body>, heard: seq<Heard>, k: nat)
    requires k <= |heard|
    ensures bodies + Answers(env, heard) == bodies + Answers(env, heard[..k]) + Answers(env, heard[k..])
  {
  }

  /** A SYN for any codec and name sends the first packet of the script; a codec
      other than 0 is refused, whatever the name. */
  lemma AcceptStartsScript(env: Env, codec: int, name: seq<Byte>, s: Server)
    requires Sender(s.sent, s.seqNo) && s.sent == []
    ensures var t := Accept(env, s, Config(codec, name));
            && t.ackNo == s.ackNo && t.sendWindow == s.sendWindow && t.receiveWindow == s.receiveWindow
            && SentMore(s.sent, t.sent, t.seqNo, [First(env, codec, name)])
            && (Refuses(env, codec, name) ==> !t.alive && t.state == s.state)
            && (!Refuses(env, codec, name) ==>
                  OnScript(env, name, t) && t.alive == s.alive && t.state == SynAckSent)
  {
    if codec != 0 {
      SendSendsBody(s, Body(RST_ERR, ErrorCode(EINVAL)));
    } else {
      match env.open(name)
      case NotOpened(errno) => SendSendsBody(s, Body(RST_ERR, ErrorCode(errno)));
      case Opened(file, format) =>
        SendSendsBody(s, Body(SYN_ACK, ConfigAck(format)));
        var supply := Reading(file, 0, env.reader, false);
        OnConnectAsks(LOGIC, LOGIC, Created(supply));
        assert Start(Base(supply), SessionSink) == Created(supply);
    }
  }

  predicate Refuses(env: Env, codec: int, name: seq<Byte>) {
    codec != 0 || env.open(name).NotOpened?
  }

  function First(env: Env, codec: int, name: seq<Byte>): Body {
    if codec != 0 then Body(RST_ERR, ErrorCode(EINVAL)) else Script(env, name)[0]
  }

  /** `t` is the server `s` after it accepted `p` and answered with these bodies. */
  ghost predicate Answered(s: Server, p: Packet, t: Server, bodies: seq<Body>) {
    && t.ackNo == U32(p.seqNo + Extent(p.body)) && t.sendWindow == p.window && t.receiveWindow == s.receiveWindow
    && SentMore(s.sent, t.sent, t.seqNo, bodies)
  }

  /** The answer is one more packet of the script, if there is one. */
  ghost predicate Replies(env: Env, name: seq<Byte>, s: Server, p: Packet, t: Server) {
    var script := Script(env, name);
    |s.sent| <= |script| && Answered(s, p, t, script[|s.sent|..][..Min(1, |script| - |s.sent|)])
  }

  lemma SynIsAnswered(env: Env, s: Server, p: Packet)
    requires Sender(s.sent, s.seqNo) && s.sent == [] && s.state == Initial && s.alive
    requires !(p.seqNo < s.ackNo) && p.body.flags.syn && !p.body.flags.rst && p.body.payload.Config?
    ensures var t := Receive(env, s, p); var Config(codec, name) := p.body.payload;
            && Answered(s, p, t, [First(env, codec, name)])
            && (codec == 0 ==> Replies(env, name, s, p, t))
            && (Refuses(env, codec, name) ==> !t.alive && t.state == Initial)
            && (!Refuses(env, codec, name) ==> OnScript(env, name, t) && t.alive && t.state == SynAckSent)
  {
    var Config(codec, name) := p.body.payload;
    AcceptStartsScript(env, codec, name, Note(s, p));
    assert Script(env, name)[0..][..1] == [Script(env, name)[0]];
    assert Bodies(s.sent) == [];
  }

  lemma RequestIsAnswered(env: Env, name: seq<Byte>, s: Server, p: Packet)
    requires Sender(s.sent, s.seqNo) && OnScript(env, name, s) && s.alive
    requires s.state == SynAckSent || s.state == Established
    requires !(p.seqNo < s.ackNo) && !p.body.flags.rst
    ensures var t := Receive(env, s, p);
            Replies(env, name, s, p, t) && OnScript(env, name, t) && t.alive && t.state == Established
  {
    var t := Advance(env, Note(s, p));
    assert Receive(env, s, p) == t;
    AdvanceFollowsScript(env, name, Note(s, p));
    NextOfScript(Bodies(s.sent), Bodies(t.sent), Answers(env, Pending(LOGIC, s.pipe)),
                 Answers(env, Pending(LOGIC, t.pipe)), Script(env, name));
  }

  lemma NextOfScript(a: seq<Body>, b: seq<Body>, restA: seq<Body>, restB: seq<Body>, script: seq<Body>)
    requires a + restA == script && b + restB == script && |b| == Min(|a| + 1, |script|)
    ensures b == a + script[|a|..][..Min(1, |script| - |a|)]
  {
    assert a == script[..|a|] && b == script[..|b|];
  }

  // ----- Packets that no honest client sends -----------------------------------------------

  /** A packet with neither SYN nor RST, at a session that has just been created, is
      answered by one packet: a bare RST without payload. The session stays. */
  lemma StrayPacketIsReset(env: Env, s: Server, p: Packet)
    requires s.alive && s.state == Initial && !(p.seqNo < s.ackNo) && !p.body.flags.syn && !p.body.flags.rst
    ensures var t := Receive(env, s, p);
            && t.alive && t.state == Initial && t.pipe == s.pipe
            && t.sent == s.sent + [Packet(s.seqNo, U32(p.seqNo + Extent(p.body)), s.receiveWindow,
                                          Body(Flags(false, false, true, false, false), Nothing))]
  {
  }

  /** The session is deleted by a reset, without an answer. */
  lemma ResetEndsSession(env: Env, s: Server, p: Packet)
    requires s.alive && !(p.seqNo < s.ackNo) && p.body.flags.rst
    ensures var t := Receive(env, s, p); !t.alive && t.sent == s.sent && t.pipe == s.pipe
  {
  }

  /** Nothing reaches a deleted session, and a packet below `ack` has no effect. */
  lemma OldPacketIsDropped(env: Env, s: Server, p: Packet)
    requires !s.alive || p.seqNo < s.ackNo
    ensures Receive(env, s, p) == s
  {
  }

  // ----- What every answer carries --------------------------------------------------------------

  /** `t` is `s` after it sent some packets, which all carry its `ack` and window. */
  ghost predicate Acknowledged(s: Server, t: Server) {
    && t.ackNo == s.ackNo && t.receiveWindow == s.receiveWindow
    && AllCarry(s.sent, t.sent, s.ackNo, {s.receiveWindow})
  }

  lemma SendAcknowledges(s: Server, t: Server, body: Body)
    requires Acknowledged(s, t)
    ensures Acknowledged(s, Send(t, body))
  {
  }

  lemma {:induction false} AnswersAcknowledge(env: Env, s: Server, t: Server, heard: seq<Heard>)
    requires Acknowledged(s, t)
    ensures Acknowledged(s, AnswerAll(env, t, heard))
    decreases |heard|
  {
    if |heard| > 0 {
      SendAcknowledges(s, t, Answer(env, heard[0]));
      AnswersAcknowledge(env, s, Send(t, Answer(env, heard[0])), heard[1..]);
    }
  }

  /** In every state, whatever arrives: what the session sends in answer to a packet
      acknowledges everything up to the end of that packet. */
  lemma AnswersAcknowledgePacket(env: Env, s: Server, p: Packet)
    requires s.alive && !(p.seqNo < s.ackNo)
    ensures Acknowledged(Note(s, p), Receive(env, s, p))
    ensures Receive(env, s, p).ackNo == U32(p.seqNo + Extent(p.body))
  {
    var noted := Note(s, p);
    if !p.body.flags.rst && (s.state == SynAckSent || s.state == Established) {
      var pipe := Pipeline.InletPull(LOGIC, s.pipe, 1);
      AnswersAcknowledge(env, noted, noted.(state := Established, pipe := pipe), Since(s.pipe.heard, pipe.heard));
    }
  }

  // ----- The session in place ------------------------------------------------------------------

  class ServerSession {
    const env: Env
    var alive: bool
    var state: Phase
    var seqNo: nat
    var ackNo: nat
    var sendWindow: nat
    var receiveWindow: nat
    var pipeline: Run?
    var format: Format

    /** All packets given to the socket. */
    var sent: seq<Packet>

    ghost predicate Valid()
      reads this, pipeline, if pipeline == null then {} else {pipeline.worker},
            if pipeline == null then {} else pipeline.worker.Nodes()
    {
      && (pipeline != null ==> pipeline.Valid() && pipeline.logic == LOGIC && !pipeline.worker.wip)
      && (state == SynAckSent || state == Established ==> pipeline != null)
      && (state == Initial ==> pipeline == null)
    }

    ghost function Footprint(): set<object>
      reads this, pipeline, if pipeline == null then {} else {pipeline.worker}
    {
      {this} + if pipeline == null then {} else {pipeline, pipeline.worker} + pipeline.worker.Nodes()
    }

    ghost function View(): Server
      reads this, pipeline, if pipeline == null then {} else {pipeline.worker}
    {
      Server(alive, state, seqNo, ackNo, sendWindow, receiveWindow,
             if pipeline == null then Created(Remote) else pipeline.View(), sent)
    }

    constructor (env: Env)
      ensures Valid() && View() == Init() && this.env == env && pipeline == null
    {
      this.env := env;
      alive, state, seqNo, ackNo, sendWindow, receiveWindow := true, Initial, 0, 0, 0, WINDOW_SIZE;
      pipeline, sent := null, [];
      format := Format(0, 0, 0);
    }

    method SessionSend(body: Body)
      requires Valid()
      modifies this`sent, this`seqNo
      ensures Valid() && View() == Send(old(View()), body)
    {
      sent := sent + [Packet(seqNo, ackNo, receiveWindow, body)];
      seqNo := U32(seqNo + Extent(body));
    }

    method SessionSendChunk(chunk: seq<Byte>)
      requires Valid()
      modifies this`sent, this`seqNo
      ensures Valid() && View() == Send(old(View()), Body(DATA, Audio(chunk)))
    {
      SessionSend(Body(DATA, Audio(chunk)));
    }

    method SessionReset(fin: bool)
      requires Valid()
      modifies this`sent, this`seqNo
      ensures Valid() && View() == Send(old(View()), Body(if fin then RST_FIN else RST, Nothing))
    {
      SessionSend(Body(Flags(fin, false, true, false, false), Nothing));
    }

    method SessionError(code: int)
      requires Valid()
      modifies this`sent, this`seqNo
      ensures Valid() && View() == Error(old(View()), code)
    {
      SessionSend(Body(RST_ERR, ErrorCode(code)));
    }

    method SessionSynAck()
      requires Valid()
      modifies this`sent, this`seqNo
      ensures Valid() && View() == Send(old(View()), Body(SYN_ACK, ConfigAck(format)))
    {
      SessionSend(Body(SYN_ACK, ConfigAck(format)));
    }

    /** The handlers of sink.c. They do not touch the pipeline, so they may run
        when the pull that caused them returns. */
    method OnHeard(heard: seq<Heard>)
      requires Valid()
      modifies this`sent, this`seqNo
      ensures Valid() && View() == AnswerAll(env, old(View()), heard)
    {
      for i := 0 to |heard|
        invariant Valid()
        invariant AnswerAll(env, View(), heard[i..]) == AnswerAll(env, old(View()), heard)
      {
        assert heard[i..][0] == heard[i] && heard[i..][1..] == heard[i + 1..];
        match heard[i]
        case Push(Chunk(bytes)) => SessionSendChunk(bytes);
        case Finish => SessionReset(true);
        case Failure => SessionError(env.readErrno);
        case _ => SessionSend(Body(DATA, Nothing));
      }
    }

    method OnSyn(p: Payload)
      requires Valid() && state == Initial
      modifies Footprint()
      ensures Valid() && View() == Accept(env, old(View()), p)
      ensures fresh(Footprint() - old(Footprint()))
    {
      if !p.Config? {
        return;
      }
      if p.codec != 0 {
        SessionError(EINVAL);
        alive := false;
        return;
      }
      var opening := env.open(p.name);
      if opening.NotOpened? {
        SessionError(opening.errno);
        alive := false;
        return;
      }
      format := opening.format;
      SessionSynAck();
      StartStreaming(opening.file);
    }

    /** Lines 346-353. */
    method StartStreaming(file: seq<Byte>)
      requires Valid() && state == Initial
      modifies this
      ensures Valid() && pipeline != null && fresh(Footprint() - {this})
      ensures View() == old(View()).(
                          state := SynAckSent, pipe := Start(Base(Reading(file, 0, env.reader, false)), SessionSink))
    {
      state := SynAckSent;
      pipeline := PipelineStart(Base(Reading(file, 0, env.reader, false)), SessionSink);
    }

    method OnRequest()
      requires Valid() && pipeline != null
      modifies Footprint()
      ensures Valid() && View() == Advance(env, old(View()))
      ensures fresh(Footprint() - old(Footprint()))
    {
      state := Established;
      var known := |pipeline.heard|;
      pipeline.InletPull(1);
      OnHeard(if known <= |pipeline.heard| then pipeline.heard[known..] else []);
    }

    /** `sas_server_session_state_machine` */
    method StateMachine(p: Packet)
      requires Valid() && alive
      modifies Footprint()
      ensures Valid() && View() == Receive(env, old(View()), p)
      ensures fresh(Footprint() - old(Footprint()))
    {
      if p.seqNo < ackNo {
        return;
      }
      sendWindow := p.window;
      ackNo := U32(p.seqNo + Extent(p.body));
      assert View() == Note(old(View()), p);
      SwitchOnState(p.body);
    }

    method SwitchOnState(body: Body)
      requires Valid()
      modifies Footprint()
      ensures Valid() && View() == Act(env, old(View()), body)
      ensures fresh(Footprint() - old(Footprint()))
    {
      if body.flags.rst {
        alive := false;
      } else {
        match state
        case Initial =>
          if body.flags.syn {
            OnSyn(body.payload);
          } else {
            SessionReset(false);
          }
        case SynAckSent => OnRequest();
        case Established => OnRequest();
        case _ =>
      }
    }
  }
}
