/** The advertised window. PROTOCOL.txt promises that it limits what the server sends;
    the server records it and sends what its pipeline gives it. */
module Windows {
  import opened CInt
  import opened PipelineLaws
  import opened StreamLaws
  import opened Transport
  import opened Protocol
  import opened ProtocolLaws
  import opened Fifo
  import AtMostOnce
  import opened C = Client
  import opened S = Server

  function PayloadBytes(sent: seq<Packet>): nat {
    if sent == [] then 0 else Length(sent[0].body.payload) + PayloadBytes(sent[1..])
  }

  /** The payload bytes that the server sent between two states. */
  function AnswerBytes(s: Server, t: Server): nat {
    PayloadBytes(Since(s.sent, t.sent))
  }

  /** A session that is streaming. */
  ghost predicate Streaming(env: Env, name: seq<Byte>, s: Server) {
    && Sender(s.sent, s.seqNo) && OnScript(env, name, s) && s.alive
    && (s.state == SynAckSent || s.state == Established)
  }

  // ----- One answer -----------------------------------------------------------------------

  lemma AnswerBytesAre(env: Env, name: seq<Byte>, s: Server, p: Packet, t: Server)
    requires S.Replies(env, name, s, p, t)
    ensures AnswerBytes(s, t) ==
            if |s.sent| == |Script(env, name)| then 0 else Length(Script(env, name)[|s.sent|].payload)
  {
    var script, n := Script(env, name), |s.sent|;
    var more := script[n..][..Min(1, |script| - n)];
    assert n < |script| ==> more == [script[n]];
    PayloadOfNew(s.sent, t.sent, more);
  }

  lemma PayloadOfNew(a: seq<Packet>, b: seq<Packet>, more: seq<Body>)
    requires Bodies(b) == Bodies(a) + more && |more| <= 1
    ensures PayloadBytes(Since(a, b)) == if more == [] then 0 else Length(more[0].payload)
  {
    BodiesPrefix(a, b, more);
    if more != [] {
      assert b[|a| + 0].body == more[0];
      assert Since(a, b) == [b[|a|]] && PayloadBytes(Since(a, b)[1..]) == 0;
    }
  }

  /** What is sent in answer to a packet fits into the window that the packet
      advertises if and only if the next packet of the script does, or there is none. */
  lemma AnswerFitsWindowExactly(env: Env, name: seq<Byte>, s: Server, p: Packet)
    requires Streaming(env, name, s) && !(p.seqNo < s.ackNo) && !p.body.flags.rst
    ensures AnswerBytes(s, S.Receive(env, s, p)) <= p.window <==>
            |s.sent| == |Script(env, name)| || Length(Script(env, name)[|s.sent|].payload) <= p.window
  {
    RequestIsAnswered(env, name, s, p);
    AnswerBytesAre(env, name, s, p, S.Receive(env, s, p));
  }

  // ----- Every session --------------------------------------------------------------------

  ghost predicate Exceeds(env: Env, name: Name, s: Server, p: Packet) {
    && Streaming(env, name, s) && s.sent != [] && !(p.seqNo < s.ackNo) && !p.body.flags.rst
    && AnswerBytes(s, S.Receive(env, s, p)) > p.window
  }

  /** A window of less than a chunk is exceeded by the first data packet of a session
      that has just answered its SYN. */
  lemma SmallWindowIsExceeded(w: nat) returns (env: Env, name: Name, s: Server, p: Packet)
    requires w < Pipeline.CHUNK_SIZE
    ensures p.window == w && Exceeds(env, name, s, p)
    ensures exists syn :: s == S.Receive(env, S.Init(), syn)
  {
    var file: seq<Byte> := seq(Pipeline.CHUNK_SIZE, _ => 0);
    env, name := Env(_ => Opened(file, Format(0, 0, 0)), _ => Pipeline.CHUNK_SIZE, 0), [];
    var syn := Packet(0, 0, WINDOW_SIZE, Body(SYN, Config(0, name)));
    assert Sender(S.Init().sent, S.Init().seqNo);
    SynIsAnswered(env, S.Init(), syn);
    s := S.Receive(env, S.Init(), syn);
    p := Packet(s.ackNo, 0, w, Body(ACK, Nothing));
    assert |Bodies(s.sent)| == 1;
    FirstChunkIsFull(env, name, file);
    AnswerFitsWindowExactly(env, name, s, p);
  }

  lemma FirstChunkIsFull(env: Env, name: Name, file: seq<Byte>)
    requires Opens(env, name) && FileOf(env, name) == file && |file| == Pipeline.CHUNK_SIZE
    requires env.reader(0) == Pipeline.CHUNK_SIZE
    ensures |Script(env, name)| > 1 && Length(Script(env, name)[1].payload) == Pipeline.CHUNK_SIZE
  {
    assert ChunksOf(env, name)[0] == file[..Pipeline.CHUNK_SIZE];
    ScriptData(env, name, 0);
  }

  /** A window is respected by every session if and only if it has room for a chunk. */
  lemma RespectedExactlyFromChunkSize(w: nat)
    ensures (forall env: Env, name: Name, s: Server, p: Packet | p.window == w :: !Exceeds(env, name, s, p))
              <==> w >= Pipeline.CHUNK_SIZE
  {
    if w < Pipeline.CHUNK_SIZE {
      var env, name, s, p := SmallWindowIsExceeded(w);
    } else {
      forall env: Env, name: Name, s: Server, p: Packet | p.window == w
        ensures !Exceeds(env, name, s, p)
      {
        if Exceeds(env, name, s, p) {
          AnswerFitsWindowExactly(env, name, s, p);
          assert |s.sent| < |Script(env, name)| by {
            RequestIsAnswered(env, name, s, p);
          }
          ScriptSizes(env, name, |s.sent|);
          assert false;
        }
      }
    }
  }

  // ----- What clients advertise -------------------------------------------------------------

  /** The window in the k-th packet of a client. */
  function Advertised(k: nat): nat {
    if k >= 5 && k % 2 == 1 then 0 else WINDOW_SIZE
  }

  ghost predicate Alternates(c: Client) {
    && (forall k | 0 <= k < |c.sent| :: c.sent[k].window == Advertised(k))
    && (c.state == SynSent ==> |c.sent| == 1)
    && (c.state == Established ==> |c.sent| >= 4 && |c.sent| % 2 == 0)
  }

  lemma ReceiveAlternates(c: Client, p: Packet)
    requires Alternates(c) && (c.state == SynSent || (c.state == Established && Relaying(c.pipe)))
    ensures Alternates(C.Receive(c, p))
  {
    if !(p.seqNo < c.ackNo) && !p.body.flags.rst {
      var noted, payload := C.Note(c, p), p.body.payload;
      if c.state == SynSent {
        ConfigureOpens(noted, payload);
        assert C.Receive(c, p) == Configure(noted, payload);
        ThreeOpen(c.sent, C.Receive(c, p).sent);
      } else {
        PlayOpensThenCloses(noted, payload);
        assert C.Receive(c, p) == Play(noted, payload);
        OpenAndClosed(c.sent, C.Receive(c, p).sent);
      }
    }
  }

  lemma ThreeOpen(a: seq<Packet>, b: seq<Packet>)
    requires |a| == 1 && |b| == 4 && a <= b && a[0].window == WINDOW_SIZE
    requires forall k | 1 <= k < 4 :: b[k].window == WINDOW_SIZE
    ensures forall k | 0 <= k < |b| :: b[k].window == Advertised(k)
  {
    assert b[0] == a[0];
  }

  lemma OpenAndClosed(a: seq<Packet>, b: seq<Packet>)
    requires |a| >= 4 && |a| % 2 == 0 && |b| == |a| + 2 && a <= b
    requires b[|a|].window == WINDOW_SIZE && b[|a| + 1].window == 0
    requires forall k | 0 <= k < |a| :: a[k].window == Advertised(k)
    ensures forall k | 0 <= k < |b| :: b[k].window == Advertised(k)
  {
    forall k | 0 <= k < |b|
      ensures b[k].window == Advertised(k)
    {
      if k < |a| {
        assert b[k] == a[k];
      }
    }
  }

  /** In every run: the SYN, the three acknowledgements of the configuration and the
      first one of each data packet advertise the open window, the second one of each
      data packet a closed one. */
  lemma {:induction false} WindowsAlternate(env: Env, name: Name, actions: seq<Action>)
    ensures Alternates(After(env, name, actions).client)
  {
    if actions != [] {
      var sys, a := After(env, name, actions[..|actions| - 1]), actions[|actions| - 1];
      WindowsAlternate(env, name, actions[..|actions| - 1]);
      InvHolds(env, name, actions[..|actions| - 1]);
      StepAlternates(env, name, sys, a);
    }
  }

  lemma StepAlternates(env: Env, name: Name, sys: Sys, a: Action)
    requires Inv(env, name, sys) && Alternates(sys.client)
    ensures Alternates(NetworkStep(env, sys, a).client)
  {
    if a.ToClient? && a.i < |sys.server.sent| && !Done(sys.client) {
      ListeningState(env, name, sys.client, sys.cAcc);
      ReceiveAlternates(sys.client, sys.server.sent[a.i]);
    }
  }

  lemma ListeningState(env: Env, name: Name, c: Client, acc: seq<nat>)
    requires ClientSide(env, name, c, acc) && !Done(c)
    ensures c.state == SynSent || (c.state == Established && Relaying(c.pipe))
  {
  }

  /** All packets of the server advertise the open window, in every run. */
  lemma {:induction false} ServerStaysOpen(env: Env, name: Name, actions: seq<Action>)
    ensures Open(After(env, name, actions).server)
  {
    if actions != [] {
      var sys, a := After(env, name, actions[..|actions| - 1]), actions[|actions| - 1];
      ServerStaysOpen(env, name, actions[..|actions| - 1]);
      if a.ToServer? && a.i < |sys.client.sent| && sys.server.alive {
        ReceiveStaysOpen(env, sys.server, sys.client.sent[a.i]);
      }
    }
  }

  ghost predicate Open(s: Server) {
    s.receiveWindow == 1024 && forall k | 0 <= k < |s.sent| :: s.sent[k].window == 1024
  }

  lemma ReceiveStaysOpen(env: Env, s: Server, p: Packet)
    requires Open(s)
    ensures Open(S.Receive(env, s, p))
  {
    if s.alive && !(p.seqNo < s.ackNo) {
      S.AnswersAcknowledgePacket(env, s, p);
      var t := S.Receive(env, s, p);
      forall k | 0 <= k < |t.sent|
        ensures t.sent[k].window == 1024
      {
        assert k < |s.sent| ==> t.sent[k] == s.sent[k];
      }
    }
  }

  /** An open window is respected, in every run: whatever a client packet that
      advertises one is answered with, on whichever delivery, fits into it. */
  lemma OpenWindowIsRespected(env: Env, name: Name, sys: Sys, i: nat)
    requires Reachable(env, name, sys) && i < |sys.client.sent| && sys.client.sent[i].window == WINDOW_SIZE
    ensures AnswerBytes(sys.server, ServerTakes(env, sys, i).server) <= sys.client.sent[i].window
  {
    ReachableInv(env, name, sys);
    var s, p := sys.server, sys.client.sent[i];
    if s.alive && !(p.seqNo < s.ackNo) {
      OneAnswer(env, name, sys, i);
      AnswerBytesAre(env, name, s, p, S.Receive(env, s, p));
      if |s.sent| < |Script(env, name)| {
        ScriptSizes(env, name, |s.sent|);
      }
    }
  }

  lemma OneAnswer(env: Env, name: Name, sys: Sys, i: nat)
    requires Inv(env, name, sys) && i < |sys.client.sent| && sys.server.alive
    requires !(sys.client.sent[i].seqNo < sys.server.ackNo)
    ensures S.Replies(env, name, sys.server, sys.client.sent[i], S.Receive(env, sys.server, sys.client.sent[i]))
  {
    if sys.sAcc == [] {
      NothingAccepted(env, name, sys);
      SynIsAnswered(env, sys.server, sys.client.sent[i]);
    } else {
      SynAcceptedOnce(env, name, sys, i);
      RequestIsAnswered(env, name, sys.server, sys.client.sent[i]);
    }
  }

  // ----- The closed window -----------------------------------------------------------------

  /** In every run, a packet that advertises a closed window and is accepted is
      answered with payload all the same, unless the file has ended: unless nothing is
      left to send, or only the end of a file that was read without error. */
  lemma ClosedWindowIsIgnoredExactly(env: Env, name: Name, sys: Sys, i: nat)
    requires Reachable(env, name, sys) && Opens(env, name)
    requires i < |sys.client.sent| && i >= 5 && i % 2 == 1 && !(sys.client.sent[i].seqNo < sys.server.ackNo)
    ensures sys.client.sent[i].window == 0
    ensures var n, k := |ChunksOf(env, name)|, |sys.server.sent|;
            AnswerBytes(sys.server, ServerTakes(env, sys, i).server) == 0 <==>
            k == n + 2 || (k == n + 1 && !Fails(env, name))
  {
    var actions :| sys == After(env, name, actions);
    WindowsAlternate(env, name, actions);
    ReachableInv(env, name, sys);
    var s, p := sys.server, sys.client.sent[i];
    assert p.body == Body(ACK, Nothing);
    RequestIsAnswered(env, name, s, p);
    AnswerBytesAre(env, name, s, p, S.Receive(env, s, p));
    LaterLengths(env, name, |s.sent|);
  }

  /** After the configuration, only the end of a readable file has no payload. */
  lemma LaterLengths(env: Env, name: Name, k: nat)
    requires Opens(env, name)
    ensures |Script(env, name)| == |ChunksOf(env, name)| + 2
    ensures 0 < k < |Script(env, name)| ==>
              (Length(Script(env, name)[k].payload) == 0 <==> k == |ChunksOf(env, name)| + 1 && !Fails(env, name))
  {
    ScriptEnd(env, name);
    if 0 < k <= |ChunksOf(env, name)| {
      ChunkLength(env, name, k - 1);
    }
  }

  lemma ChunkLength(env: Env, name: Name, j: nat)
    requires Opens(env, name) && j < |ChunksOf(env, name)|
    ensures |Script(env, name)| == |ChunksOf(env, name)| + 2
    ensures Length(Script(env, name)[1 + j].payload) > 0
  {
    ScriptData(env, name, j);
    ChunksAreTheFile(FileOf(env, name), 0, env.reader);
    assert ChunksOf(env, name)[j] in ChunksOf(env, name);
  }

  lemma {:induction false} JustBefore(env: Env, name: Name, moves: seq<Move>, n: nat) returns (before: seq<Move>)
    requires n < Run(env, name, moves).atServer
    ensures Run(env, name, before).atServer == n && Enabled(Run(env, name, before), ServerReceives)
  {
    var front := moves[..|moves| - 1];
    if Run(env, name, front).atServer == n {
      before := front;
    } else {
      before := JustBefore(env, name, front, n);
    }
  }

  /** With a file of five chunks this happens even on the lossless network: the
      sixth packet of the client closes the window and is answered by a chunk. */
  lemma ClosedWindowIsExceeded(env: Env, name: Name) returns (moves: seq<Move>)
    requires Opens(env, name) && |ChunksOf(env, name)| >= 5
    ensures var l := Run(env, name, moves);
            && Enabled(l, ServerReceives) && l.sys.client.sent[l.atServer].window == 0
            && AnswerBytes(l.sys.server, Take(env, l, ServerReceives).sys.server) > 0
  {
    var all := AtMostOnce.AllArrives(env, name);
    moves := JustBefore(env, name, all, 5);
    RunInOrder(env, name, moves);
    var actions := FifoIsReachable(env, name, moves);
    SixthPacketIsAnswered(env, name, Run(env, name, moves));
  }

  lemma SixthPacketIsAnswered(env: Env, name: Name, l: Link)
    requires InOrder(env, name, l) && Reachable(env, name, l.sys) && l.atServer == 5 && Enabled(l, ServerReceives)
    requires Opens(env, name) && |ChunksOf(env, name)| >= 5
    ensures l.sys.client.sent[5].window == 0
    ensures AnswerBytes(l.sys.server, Take(env, l, ServerReceives).sys.server) > 0
  {
    Lengths(env, name, l);
    ScriptLength(env, name);
    NextInOrder(l.sys.client.sent, l.sys.client.seqNo, 5, l.sys.server.ackNo);
    ClosedWindowIsIgnoredExactly(env, name, l.sys, 5);
  }
}
