/** The two sessions over a network that loses nothing and keeps the order. No
    bound on the amount of data is needed here: `seq` and `ack` wrap together. */
module Fifo {
  import opened CInt
  import opened Pipeline
  import opened PipelineLaws
  import opened StreamLaws
  import opened Transport
  import opened Protocol
  import opened ProtocolLaws
  import opened C = Client
  import opened S = Server

  /** How many packets of each direction have arrived. */
  datatype Link = Link(sys: Sys, atClient: nat, atServer: nat)

  datatype Move = ClientReceives | ServerReceives

  predicate Enabled(l: Link, m: Move) {
    match m
    case ClientReceives => l.atClient < |l.sys.server.sent| && !Done(l.sys.client)
    case ServerReceives => l.atServer < |l.sys.client.sent|
  }

  /** Neither side can receive anything. */
  predicate Stuck(l: Link) {
    !Enabled(l, ClientReceives) && !Enabled(l, ServerReceives)
  }

  function Take(env: Env, l: Link, m: Move): Link {
    if !Enabled(l, m) then l
    else
      match m
      case ClientReceives => Link(ClientTakes(l.sys, l.atClient), l.atClient + 1, l.atServer)
      case ServerReceives => Link(ServerTakes(env, l.sys, l.atServer), l.atClient, l.atServer + 1)
  }

  function Run(env: Env, name: Name, moves: seq<Move>): Link {
    if moves == [] then Link(Begin(name), 0, 0)
    else Take(env, Run(env, name, moves[..|moves| - 1]), moves[|moves| - 1])
  }

  /** Every move is enabled when it is made. */
  ghost predicate Legal(env: Env, name: Name, moves: seq<Move>) {
    forall i | 0 <= i < |moves| :: Enabled(Run(env, name, moves[..i]), moves[i])
  }

  // ----- Every packet is accepted, in order ---------------------------------------------------

  ghost predicate InOrder(env: Env, name: Name, l: Link) {
    && Inv(env, name, l.sys)
    && l.sys.cAcc == Iota(l.atClient) && l.sys.sAcc == Iota(l.atServer)
  }

  lemma NextInOrder(sent: seq<Packet>, seqNo: nat, n: nat, ackNo: nat)
    requires Wire(sent, seqNo, Iota(n), ackNo) && n < |sent|
    ensures sent[n].seqNo == ackNo && Iota(n) + [n] == Iota(n + 1)
  {
    NextOfIota(n);
    StampIsAck(sent, n);
  }

  lemma NextOfIota(n: nat)
    ensures Next(Iota(n)) == n && Iota(n) + [n] == Iota(n + 1)
  {
  }

  lemma StampIsAck(sent: seq<Packet>, n: nat)
    requires Stamped(sent) && n < |sent|
    ensures sent[n].seqNo == AckAt(sent, n)
  {
  }

  lemma AcksOneMore(script: seq<Body>, n: nat)
    requires 0 < n <= |script|
    ensures Within(Iota(n - 1), |script|) && Within(Iota(n), |script|)
    ensures AcksFor(script, Iota(n)) ==
            AcksFor(script, Iota(n - 1)) + if script[n - 1].flags.rst then 0 else if n == 1 then 3 else 2
  {
    assert Iota(n) == Iota(n - 1) + [n - 1];
    AccSnoc(script, Iota(n - 1), n - 1);
  }

  lemma {:induction false} AcksOfIota(script: seq<Body>, n: nat)
    requires n <= |script| && |script| >= 2
    requires forall i | 0 <= i < |script| :: script[i].flags.rst <==> i == |script| - 1
    ensures AcksFor(script, Iota(n)) ==
            if n == 0 then 0 else if n < |script| then 3 + 2 * (n - 1) else 3 + 2 * (n - 2)
  {
    if n > 0 {
      AcksOfIota(script, n - 1);
      AcksOneMore(script, n);
    } else {
      assert Iota(0) == [];
    }
  }

  lemma ClientAcksInOrder(env: Env, name: Name, n: nat)
    requires n <= |Script(env, name)|
    ensures var acks := AcksFor(Script(env, name), Iota(n));
            && (n == 0 || !Opens(env, name) ==> acks == 0)
            && (n > 0 && Opens(env, name) ==>
                  acks == if n < |Script(env, name)| then 3 + 2 * (n - 1) else 3 + 2 * (n - 2))
  {
    if Opens(env, name) {
      ScriptPlays(env, name);
      AcksOfIota(Script(env, name), n);
    } else if n > 0 {
      assert Iota(1) == Iota(0) + [0] && Iota(0) == [];
      AccSnoc(Script(env, name), Iota(0), 0);
    }
  }

  /** How far both histories reach in a run. */
  lemma Lengths(env: Env, name: Name, l: Link)
    requires InOrder(env, name, l)
    ensures var size, acks := |Script(env, name)|, |l.sys.client.sent| - 1;
            && |l.sys.server.sent| == Min(l.atServer, size) && l.atClient <= |l.sys.server.sent|
            && l.atServer <= |l.sys.client.sent|
            && (l.atClient == 0 || !Opens(env, name) ==> acks == 0)
            && (l.atClient > 0 && Opens(env, name) ==>
                  acks == if l.atClient < size then 3 + 2 * (l.atClient - 1) else 3 + 2 * (l.atClient - 2))
  {
    IotaWithin(l.atClient, |l.sys.server.sent|);
    IotaWithin(l.atServer, |l.sys.client.sent|);
    ClientAcksInOrder(env, name, l.atClient);
  }

  lemma IotaWithin(n: nat, m: nat)
    ensures Within(Iota(n), m) <==> n <= m
  {
    if n > m {
      assert Iota(n)[m] == m;
    }
  }

  lemma ClientMoveInOrder(env: Env, name: Name, l: Link)
    requires InOrder(env, name, l) && Enabled(l, ClientReceives)
    ensures InOrder(env, name, Take(env, l, ClientReceives))
  {
    var sys := l.sys;
    NextInOrder(sys.server.sent, sys.server.seqNo, l.atClient, sys.client.ackNo);
    ClientNotes(env, sys, l.atClient);
    ClientTakesKeepsInv(env, name, sys, l.atClient);
  }

  lemma ServerMoveInOrder(env: Env, name: Name, l: Link)
    requires InOrder(env, name, l) && Enabled(l, ServerReceives)
    ensures InOrder(env, name, Take(env, l, ServerReceives))
  {
    var sys := l.sys;
    NextInOrder(sys.client.sent, sys.client.seqNo, l.atServer, sys.server.ackNo);
    AliveWhileEnabled(env, name, l);
    ServerNotes(env, sys, l.atServer);
    ServerTakesKeepsInv(env, name, sys, l.atServer);
  }

  lemma AliveWhileEnabled(env: Env, name: Name, l: Link)
    requires InOrder(env, name, l) && Enabled(l, ServerReceives)
    ensures l.sys.server.alive
  {
    Lengths(env, name, l);
  }

  lemma {:induction false} RunInOrder(env: Env, name: Name, moves: seq<Move>)
    ensures InOrder(env, name, Run(env, name, moves))
  {
    if moves == [] {
      BeginInv(env, name);
      assert Iota(0) == [];
    } else {
      var l, m := Run(env, name, moves[..|moves| - 1]), moves[|moves| - 1];
      RunInOrder(env, name, moves[..|moves| - 1]);
      if Enabled(l, m) {
        match m
        case ClientReceives => ClientMoveInOrder(env, name, l);
        case ServerReceives => ServerMoveInOrder(env, name, l);
      }
    }
  }

  /** A run of this network is a run of the unreliable one, so all its laws hold. */
  lemma {:induction false} FifoIsReachable(env: Env, name: Name, moves: seq<Move>) returns (actions: seq<Action>)
    ensures Run(env, name, moves).sys == After(env, name, actions)
  {
    if moves == [] {
      actions := [];
    } else {
      var l, m := Run(env, name, moves[..|moves| - 1]), moves[|moves| - 1];
      actions := FifoIsReachable(env, name, moves[..|moves| - 1]);
      if Enabled(l, m) {
        var a := if m == ClientReceives then ToClient(l.atClient) else ToServer(l.atServer);
        assert (actions + [a])[..|actions|] == actions;
        assert Take(env, l, m).sys == NetworkStep(env, l.sys, a);
        actions := actions + [a];
      }
    }
  }

  // ----- Termination -----------------------------------------------------------------------------

  /** The most packets that can ever arrive, on both sides together. */
  function MostMoves(env: Env, name: Name): nat {
    if Opens(env, name) then 3 * |ChunksOf(env, name)| + 6 else 2
  }

  lemma MovesCounted(env: Env, name: Name, l: Link)
    requires InOrder(env, name, l)
    ensures l.atClient + l.atServer <= MostMoves(env, name)
  {
    Lengths(env, name, l);
    if Opens(env, name) {
      ScriptLength(env, name);
    }
  }

  lemma {:induction false} LegalMovesArrive(env: Env, name: Name, moves: seq<Move>)
    requires Legal(env, name, moves)
    ensures var l := Run(env, name, moves); l.atClient + l.atServer == |moves|
  {
    if moves != [] {
      var front := moves[..|moves| - 1];
      forall i | 0 <= i < |front|
        ensures Enabled(Run(env, name, front[..i]), front[i])
      {
        assert front[..i] == moves[..i];
      }
      LegalMovesArrive(env, name, front);
      assert Enabled(Run(env, name, moves[..|moves| - 1]), moves[|moves| - 1]);
    }
  }

  /** Every run is finite: with N chunks, at most 3 N + 6 packets arrive. */
  lemma RunsTerminate(env: Env, name: Name, moves: seq<Move>)
    requires Legal(env, name, moves)
    ensures |moves| <= MostMoves(env, name)
  {
    LegalMovesArrive(env, name, moves);
    RunInOrder(env, name, moves);
    MovesCounted(env, name, Run(env, name, moves));
  }

  // ----- Deadlock freedom ---------------------------------------------------------------------------

  /** The session ends with an error packet whose code is 0, which the client
      cannot tell from "go on" (client.c:203-216 and 309). */
  predicate EndsSilently(env: Env, name: Name) {
    match env.open(name)
    case NotOpened(errno) => errno == 0
    case Opened(file, _) => ReadFails(file, 0, env.reader) && env.readErrno == 0
  }

  /** With both channels drained the whole script has arrived: the client always
      has given the server one request more than the server has answered. */
  lemma DrainedMeansAllArrived(env: Env, name: Name, l: Link)
    requires InOrder(env, name, l) && !Enabled(l, ServerReceives) && l.atClient == |l.sys.server.sent|
    ensures l.atClient == |Script(env, name)|
  {
    Lengths(env, name, l);
  }

  /** How the client ends, once it has accepted the whole script. */
  lemma AllArrivedMeansDone(env: Env, name: Name, l: Link)
    requires InOrder(env, name, l) && l.atClient == |Script(env, name)|
    ensures Done(l.sys.client) <==> !EndsSilently(env, name)
  {
    var script, acc := Script(env, name), l.sys.cAcc;
    assert acc[|acc| - 1] == |script| - 1;
    ScriptShape(env, name);
    if Opens(env, name) {
      ScriptEnd(env, name);
    }
  }

  /** A client is done only when the end has arrived. */
  lemma DoneMeansAllArrived(env: Env, name: Name, l: Link)
    requires InOrder(env, name, l) && Done(l.sys.client)
    ensures l.atClient == |Script(env, name)| && !EndsSilently(env, name)
  {
    var script, acc := Script(env, name), l.sys.cAcc;
    Lengths(env, name, l);
    ScriptShape(env, name);
    assert acc != [] ==> acc[|acc| - 1] == |acc| - 1;
    assert EndsWith(script, acc, RST_ERR) || EndsWith(script, acc, RST_FIN);
    AllArrivedMeansDone(env, name, l);
  }

  /** The client is done in every state in which nothing more can arrive, if and
      only if the session does not end in an error packet with code 0. */
  lemma DeadlockFreeIffErrorsAreCoded(env: Env, name: Name, moves: seq<Move>)
    requires Stuck(Run(env, name, moves))
    ensures Done(Run(env, name, moves).sys.client) <==> !EndsSilently(env, name)
  {
    var l := Run(env, name, moves);
    RunInOrder(env, name, moves);
    if Done(l.sys.client) {
      DoneMeansAllArrived(env, name, l);
    } else {
      Lengths(env, name, l);
      DrainedMeansAllArrived(env, name, l);
      AllArrivedMeansDone(env, name, l);
    }
  }

  /** A readable file is delivered: when nothing more can arrive, the client is
      finished and its sink was given the chunks of the file, in order, which are
      the bytes of the file. */
  lemma WholeFileIsDelivered(env: Env, name: Name, moves: seq<Move>)
    requires Stuck(Run(env, name, moves)) && Opens(env, name) && !Fails(env, name)
    ensures var c := Run(env, name, moves).sys.client;
            && c.state == Finished && c.result == 0
            && Played(c) == ChunksOf(env, name) && Concat(Played(c)) == FileOf(env, name)
  {
    var l := Run(env, name, moves);
    RunInOrder(env, name, moves);
    DeadlockFreeIffErrorsAreCoded(env, name, moves);
    DoneMeansAllArrived(env, name, l);
    FinishedByEnd(env, name, l);
    PrefixIsPlayed(env, name, l.sys.client, l.sys.cAcc);
  }

  // ----- What the caller of the client gets ----------------------------------------------------------

  lemma HistoryIsKept(env: Env, s: Server, p: Packet)
    ensures s.sent <= S.Receive(env, s, p).sent
  {
    if s.alive && !(p.seqNo < s.ackNo) {
      S.AnswersAcknowledgePacket(env, s, p);
    }
  }

  /** The client of a run is the receive loop on what has arrived so far. */
  ghost predicate Listens(name: Name, l: Link) {
    && l.atClient <= |l.sys.server.sent|
    && l.sys.client == C.Listen(C.Syn(C.Init(), name), l.sys.server.sent[..l.atClient])
  }

  lemma ClientMoveListens(env: Env, name: Name, l: Link)
    requires Listens(name, l) && Enabled(l, ClientReceives)
    ensures Listens(name, Take(env, l, ClientReceives))
  {
    var sent, k := l.sys.server.sent, l.atClient;
    assert sent[..k + 1] == sent[..k] + [sent[k]];
    C.ListenSnoc(C.Syn(C.Init(), name), sent[..k], sent[k]);
  }

  lemma ServerMoveListens(env: Env, name: Name, l: Link)
    requires Listens(name, l) && Enabled(l, ServerReceives)
    ensures Listens(name, Take(env, l, ServerReceives))
  {
    HistoryIsKept(env, l.sys.server, l.sys.client.sent[l.atServer]);
    var after := Take(env, l, ServerReceives).sys.server.sent;
    assert after[..l.atClient] == l.sys.server.sent[..l.atClient];
  }

  lemma {:induction false} RunIsListening(env: Env, name: Name, moves: seq<Move>)
    ensures Listens(name, Run(env, name, moves))
  {
    if moves != [] {
      var l, m := Run(env, name, moves[..|moves| - 1]), moves[|moves| - 1];
      RunIsListening(env, name, moves[..|moves| - 1]);
      if Enabled(l, m) {
        match m
        case ClientReceives => ClientMoveListens(env, name, l);
        case ServerReceives => ServerMoveListens(env, name, l);
      }
    }
  }

  /** What `sas_client_receive` is to return for a file. */
  function Outcome(env: Env, name: Name): int {
    if EndsSilently(env, name) then C.ETIMEDOUT
    else
      match env.open(name)
      case NotOpened(errno) => errno
      case Opened(file, _) => if ReadFails(file, 0, env.reader) then env.readErrno else 0
  }

  lemma EndDecidesOutcome(env: Env, name: Name, l: Link)
    requires InOrder(env, name, l) && l.atClient == |Script(env, name)|
    ensures C.ReturnCode(l.sys.client) == Outcome(env, name)
  {
    var script := Script(env, name);
    assert l.sys.cAcc[|l.sys.cAcc| - 1] == |script| - 1;
    ScriptShape(env, name);
    if Opens(env, name) {
      ScriptEnd(env, name);
    }
  }

  lemma StuckMeansAllArrived(env: Env, name: Name, l: Link)
    requires InOrder(env, name, l) && Stuck(l)
    ensures l.atClient == |Script(env, name)| == |l.sys.server.sent|
  {
    Lengths(env, name, l);
    if Done(l.sys.client) {
      DoneMeansAllArrived(env, name, l);
    } else {
      DrainedMeansAllArrived(env, name, l);
    }
  }

  /** `sas_client_receive`, given all that the server sends in a run in which nothing
      more can arrive, returns the error of opening or reading the file, or 0, and then
      its sink was given the file; only an error 0 makes it time out. */
  lemma ReceiveReturnsOutcome(env: Env, name: Name, moves: seq<Move>)
    requires Stuck(Run(env, name, moves))
    ensures var c := C.Listen(C.Syn(C.Init(), name), Run(env, name, moves).sys.server.sent);
            && C.ReturnCode(c) == Outcome(env, name)
            && (Opens(env, name) && !Fails(env, name) ==>
                  C.ReturnCode(c) == 0 && Concat(Played(c)) == FileOf(env, name))
  {
    var l := Run(env, name, moves);
    RunInOrder(env, name, moves);
    RunIsListening(env, name, moves);
    StuckMeansAllArrived(env, name, l);
    assert l.sys.server.sent[..l.atClient] == l.sys.server.sent;
    EndDecidesOutcome(env, name, l);
    if Opens(env, name) && !Fails(env, name) {
      WholeFileIsDelivered(env, name, moves);
    }
  }

  lemma FinishedByEnd(env: Env, name: Name, l: Link)
    requires InOrder(env, name, l) && l.atClient == |Script(env, name)|
    requires Opens(env, name) && !Fails(env, name)
    ensures l.sys.client.state == Finished && l.sys.client.result == 0
  {
    ScriptEnd(env, name);
    assert l.sys.cAcc[|l.sys.cAcc| - 1] == |Script(env, name)| - 1;
  }

  /** Every run can be continued until nothing more can arrive. */
  lemma {:induction false} RunsCanBeCompleted(env: Env, name: Name, moves: seq<Move>) returns (all: seq<Move>)
    requires Legal(env, name, moves)
    ensures moves <= all && Legal(env, name, all) && Stuck(Run(env, name, all))
    decreases MostMoves(env, name) - |moves|
  {
    RunsTerminate(env, name, moves);
    if Stuck(Run(env, name, moves)) {
      all := moves;
    } else {
      var m := if Enabled(Run(env, name, moves), ClientReceives) then ClientReceives else ServerReceives;
      var more := moves + [m];
      forall i | 0 <= i < |more|
        ensures Enabled(Run(env, name, more[..i]), more[i])
      {
        assert more[..i] == moves[..i];
        assert moves[..|moves|] == moves;
      }
      RunsTerminate(env, name, more);
      all := RunsCanBeCompleted(env, name, more);
    }
  }

  /** A file that is no WAV file is refused without setting `errno` (wav.c:141-152,
      session.c:332-337); if it was 0, the client waits until its receive times out. */
  lemma SilentRefusalLeavesClientWaiting(env: Env, name: Name)
    requires env.open(name) == NotOpened(0)
    ensures var l := Run(env, name, [ServerReceives, ClientReceives]);
            Legal(env, name, [ServerReceives, ClientReceives]) && Stuck(l) && !Done(l.sys.client)
  {
    var one, two := [ServerReceives], [ServerReceives, ClientReceives];
    assert two[..1] == one && one[..0] == [] == two[..0];
    RunInOrder(env, name, one);
    RunInOrder(env, name, two);
    Lengths(env, name, Run(env, name, one));
    Lengths(env, name, Run(env, name, two));
    var l0, l1, l2 := Run(env, name, []), Run(env, name, one), Run(env, name, two);
    assert l0 == Link(Begin(name), 0, 0);
    assert l1.atServer == 1 && l1.atClient == 0;
    assert !Done(l1.sys.client);
    assert l2.atServer == 1 && l2.atClient == 1;
    AllArrivedMeansDone(env, name, l2);
  }
}
