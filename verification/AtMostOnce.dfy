/** When the comparison of 32-bit numbers keeps its promise: whether some run of the
    two sessions accepts a packet twice is decided by the sizes of what they send. */
module AtMostOnce {
  import opened CInt
  import opened StreamLaws
  import opened Transport
  import opened Protocol
  import opened ProtocolLaws
  import opened Fifo
  import opened C = Client
  import opened S = Server

  predicate NoRepeats(acc: seq<nat>) {
    forall j, k | 0 <= j < k < |acc| :: acc[j] != acc[k]
  }

  // ----- Sizes --------------------------------------------------------------------------

  /** How far packets with these bodies move a sequence number. */
  function Total(bodies: seq<Body>): nat {
    if bodies == [] then 0 else Total(bodies[..|bodies| - 1]) + Extent(bodies[|bodies| - 1])
  }

  lemma TotalOneMore(bodies: seq<Body>, n: nat)
    requires 0 < n <= |bodies|
    ensures Total(bodies[..n]) == Total(bodies[..n - 1]) + Extent(bodies[n - 1])
  {
    assert bodies[..n][..n - 1] == bodies[..n - 1];
  }

  lemma {:induction false} TotalIsOffset(sent: seq<Packet>, bodies: seq<Body>, n: nat)
    requires n <= |sent| && n <= |bodies| && forall i | 0 <= i < n :: sent[i].body == bodies[i]
    ensures Offset(sent, n) == Total(bodies[..n])
  {
    if n > 0 {
      TotalIsOffset(sent, bodies, n - 1);
      TotalOneMore(bodies, n);
    }
  }

  lemma {:induction false} TotalGrows(bodies: seq<Body>, n: nat, m: nat)
    requires n <= m <= |bodies|
    ensures Total(bodies[..n]) <= Total(bodies[..m])
    decreases m
  {
    if n < m {
      TotalGrows(bodies, n, m - 1);
      TotalOneMore(bodies, m);
    }
  }

  lemma {:induction false} FirstTotalOver(bodies: seq<Body>, m: nat) returns (n: nat)
    requires m <= |bodies| && Total(bodies[..m]) >= TWO_32
    ensures 0 < n <= m && Total(bodies[..n]) >= TWO_32 > Total(bodies[..n - 1])
    decreases m
  {
    assert m > 0 by {
      assert bodies[..0] == [];
    }
    if Total(bodies[..m - 1]) >= TWO_32 {
      n := FirstTotalOver(bodies, m - 1);
    } else {
      n := m;
    }
  }

  /** How many packets of the script a client can accept and still go on. */
  function Listened(env: Env, name: Name): nat {
    |Script(env, name)| - if EndsSilently(env, name) then 0 else 1
  }

  /** What comes before the client stops fits into 32 bits. */
  predicate AudioFits(env: Env, name: Name) {
    Total(Script(env, name)[..Listened(env, name)]) < TWO_32
  }

  function AllAcks(env: Env, name: Name): nat {
    if Opens(env, name) then 3 + 2 * |ChunksOf(env, name)| else 0
  }

  /** So does all that a client sends that hears the whole script once. */
  predicate AcksFit(env: Env, name: Name) {
    Extent(Body(SYN, Config(0, name))) + AllAcks(env, name) < TWO_32
  }

  lemma {:induction false} ClientOffset(name: Name, sent: seq<Packet>, n: nat)
    requires ClientPackets(name, sent) && 1 <= n <= |sent|
    ensures Offset(sent, n) == Extent(Body(SYN, Config(0, name))) + (n - 1)
  {
    if n > 1 {
      ClientOffset(name, sent, n - 1);
      assert sent[n - 1].body == Body(ACK, Nothing);
    } else {
      assert Offset(sent, 0) == 0;
    }
  }

  // ----- If the sizes fit -----------------------------------------------------------------

  lemma StillListening(env: Env, name: Name, c: Client, acc: seq<nat>)
    requires ClientSide(env, name, c, acc) && !Done(c)
    ensures Next(acc) <= Listened(env, name)
  {
    var script := Script(env, name);
    if Next(acc) == |script| {
      ScriptShape(env, name);
      assert acc[|acc| - 1] == |script| - 1;
      if Opens(env, name) {
        ScriptEnd(env, name);
      }
    }
  }

  lemma ClientAcceptsLater(env: Env, name: Name, sys: Sys, i: nat)
    requires Inv(env, name, sys) && AudioFits(env, name) && !Done(sys.client)
    requires i < |sys.server.sent| && !(sys.server.sent[i].seqNo < sys.client.ackNo)
    ensures i >= Next(sys.cAcc)
  {
    var sent, script, n := sys.server.sent, Script(env, name), Next(sys.cAcc);
    if i < n {
      StillListening(env, name, sys.client, sys.cAcc);
      TotalGrows(script, n, Listened(env, name));
      TotalIsOffset(sent, script, n);
      OffsetIncreases(sent, i, n);
    }
  }

  lemma {:induction false} ClientInOrder(env: Env, name: Name, actions: seq<Action>)
    requires AudioFits(env, name)
    ensures Increasing(After(env, name, actions).cAcc)
  {
    if actions != [] {
      var sys, a := After(env, name, actions[..|actions| - 1]), actions[|actions| - 1];
      ClientInOrder(env, name, actions[..|actions| - 1]);
      InvHolds(env, name, actions[..|actions| - 1]);
      TakesAreMoves(env, sys, a.i);
      if a.ToClient? && a.i < |sys.server.sent| && After(env, name, actions).cAcc != sys.cAcc {
        ClientAcceptsLater(env, name, sys, a.i);
        AppendKeepsOrder(sys.cAcc, a.i);
      }
    }
  }

  lemma {:induction false} AcksBounded(script: seq<Body>, acc: seq<nat>)
    requires Within(acc, |script|) && Increasing(acc)
    requires forall i | 0 <= i < |script| - 1 :: !script[i].flags.rst
    ensures acc != [] && Next(acc) < |script| ==> AcksFor(script, acc) <= 1 + 2 * Next(acc)
  {
    if |acc| > 1 {
      var front := acc[..|acc| - 1];
      assert front[|front| - 1] < acc[|acc| - 1];
      AcksBounded(script, front);
    }
  }

  lemma ClientSendsAtMost(env: Env, name: Name, c: Client, acc: seq<nat>)
    requires ClientSide(env, name, c, acc) && Increasing(acc)
    ensures |c.sent| <= 1 + AllAcks(env, name)
  {
    var script := Script(env, name);
    ScriptShape(env, name);
    if acc != [] {
      var front := acc[..|acc| - 1];
      if Opens(env, name) {
        ScriptLength(env, name);
        AcksBounded(script, acc);
        if Next(acc) == |script| {
          assert front != [] ==> front[|front| - 1] < acc[|acc| - 1];
          AcksBounded(script, front);
          ScriptEnd(env, name);
          assert AcksFor(script, acc) == AcksFor(script, front);
        }
      } else {
        assert front == [] && AcksFor(script, front) == 0;
      }
    }
  }

  lemma BothInOrder(env: Env, name: Name, actions: seq<Action>)
    requires AudioFits(env, name) && AcksFit(env, name)
    ensures var sys := After(env, name, actions); NoRepeats(sys.cAcc) && NoRepeats(sys.sAcc)
  {
    var sys := After(env, name, actions);
    InvHolds(env, name, actions);
    OrderHolds(env, name, actions);
    ClientInOrder(env, name, actions);
    ClientSendsAtMost(env, name, sys.client, sys.cAcc);
    ClientOffset(name, sys.client.sent, |sys.client.sent|);
  }

  // ----- If they do not -------------------------------------------------------------------

  lemma {:induction false} OnTheWay(env: Env, name: Name, moves: seq<Move>, atClient: nat, atServer: nat)
    returns (toClient: seq<Move>, toServer: seq<Move>)
    requires atClient <= Run(env, name, moves).atClient && atServer <= Run(env, name, moves).atServer
    ensures Run(env, name, toClient).atClient == atClient && Run(env, name, toServer).atServer == atServer
  {
    toClient, toServer := moves, moves;
    if moves != [] {
      var front := moves[..|moves| - 1];
      var l := Run(env, name, front);
      var c, s := OnTheWay(env, name, front, Min(atClient, l.atClient), Min(atServer, l.atServer));
      if atClient <= l.atClient {
        toClient := c;
      }
      if atServer <= l.atServer {
        toServer := s;
      }
    }
  }

  /** On the lossless network each side gets to accept every packet. */
  lemma AllArrives(env: Env, name: Name) returns (moves: seq<Move>)
    ensures Run(env, name, moves).atClient == |Script(env, name)|
    ensures Run(env, name, moves).atServer == 1 + AllAcks(env, name)
  {
    moves := RunsCanBeCompleted(env, name, []);
    var l := Run(env, name, moves);
    RunInOrder(env, name, moves);
    if Done(l.sys.client) {
      DoneMeansAllArrived(env, name, l);
    } else {
      Lengths(env, name, l);
      DrainedMeansAllArrived(env, name, l);
    }
    Lengths(env, name, l);
    if Opens(env, name) {
      ScriptLength(env, name);
    }
  }

  lemma NotedLastIsNotBefore(sent: seq<Packet>, seqNo: nat, n: nat, ackNo: nat)
    requires Wire(sent, seqNo, Iota(n), ackNo) && 0 < n <= |sent|
    requires Length(sent[n - 1].body.payload) <= MAX_LENGTH
    requires Offset(sent, n) >= TWO_32 > Offset(sent, n - 1)
    ensures !(sent[n - 1].seqNo < ackNo)
  {
    NextOfIota(n);
    WrapIsInexact(sent, n);
  }

  lemma AgainIsRepeated(n: nat)
    requires n > 0
    ensures !NoRepeats(Iota(n) + [n - 1])
  {
    var acc := Iota(n) + [n - 1];
    assert acc[n - 1] == Iota(n)[n - 1] == acc[n];
  }

  /** On the lossless network a client that goes on after n packets gets to accept n. */
  lemma ClientReaches(env: Env, name: Name, n: nat) returns (moves: seq<Move>)
    requires n <= Listened(env, name)
    ensures var l := Run(env, name, moves);
            && InOrder(env, name, l) && l.atClient == n <= |l.sys.server.sent| && !Done(l.sys.client)
  {
    var all := AllArrives(env, name);
    var toClient, _ := OnTheWay(env, name, all, n, 0);
    moves := toClient;
    RunInOrder(env, name, moves);
    Lengths(env, name, Run(env, name, moves));
    NotYetDone(env, name, Run(env, name, moves));
  }

  lemma NotYetDone(env: Env, name: Name, l: Link)
    requires InOrder(env, name, l) && l.atClient <= Listened(env, name)
    ensures !Done(l.sys.client)
  {
    if Done(l.sys.client) {
      DoneMeansAllArrived(env, name, l);
    }
  }

  lemma ServerReaches(env: Env, name: Name, n: nat) returns (moves: seq<Move>)
    requires Opens(env, name) && 0 < n <= 1 + AllAcks(env, name)
    ensures var l := Run(env, name, moves);
            && InOrder(env, name, l) && l.atServer == n <= |l.sys.client.sent| && l.sys.server.alive
  {
    var all := AllArrives(env, name);
    var _, toServer := OnTheWay(env, name, all, 0, n);
    moves := toServer;
    RunInOrder(env, name, moves);
    Lengths(env, name, Run(env, name, moves));
    StillAlive(env, name, Run(env, name, moves).sys.server, Run(env, name, moves).sys.sAcc);
  }

  lemma StillAlive(env: Env, name: Name, s: Server, acc: seq<nat>)
    requires Opens(env, name) && ServerSide(env, name, s, acc)
    ensures s.alive
  {
  }

  lemma ServerPackets(env: Env, name: Name, s: Server, acc: seq<nat>, n: nat)
    requires ServerSide(env, name, s, acc) && 0 < n <= |s.sent|
    ensures Offset(s.sent, n) == Total(Script(env, name)[..n])
    ensures Offset(s.sent, n - 1) == Total(Script(env, name)[..n - 1])
    ensures Length(s.sent[n - 1].body.payload) <= MAX_LENGTH
  {
    TotalIsOffset(s.sent, Script(env, name), n);
    TotalIsOffset(s.sent, Script(env, name), n - 1);
    assert s.sent[n - 1].body == Script(env, name)[n - 1];
    ScriptSizes(env, name, n - 1);
  }

  /** After a lossless run the network may deliver any packet once more. */
  lemma AndThen(env: Env, name: Name, moves: seq<Move>, a: Action) returns (actions: seq<Action>)
    ensures After(env, name, actions) == NetworkStep(env, Run(env, name, moves).sys, a)
  {
    var before := FifoIsReachable(env, name, moves);
    actions := before + [a];
    assert actions[..|before|] == before;
  }

  /** A client that has heard the script up to the packet across which the total
      wraps would accept that packet again. */
  lemma WrappedPacketPasses(env: Env, name: Name, l: Link)
    requires InOrder(env, name, l) && 0 < l.atClient <= |l.sys.server.sent| <= |Script(env, name)|
    requires Total(Script(env, name)[..l.atClient]) >= TWO_32 > Total(Script(env, name)[..l.atClient - 1])
    ensures !(l.sys.server.sent[l.atClient - 1].seqNo < l.sys.client.ackNo)
  {
    ServerPackets(env, name, l.sys.server, l.sys.sAcc, l.atClient);
    NotedLastIsNotBefore(l.sys.server.sent, l.sys.server.seqNo, l.atClient, l.sys.client.ackNo);
  }

  lemma WrappedAckPasses(env: Env, name: Name, l: Link)
    requires InOrder(env, name, l) && Opens(env, name)
    requires l.atServer <= |l.sys.client.sent| && PastTheLimit(name, l.atServer) == 0
    ensures !(l.sys.client.sent[l.atServer - 1].seqNo < l.sys.server.ackNo)
  {
    AckOffsets(name, l.sys.client.sent, l.atServer);
    NotedLastIsNotBefore(l.sys.client.sent, l.sys.client.seqNo, l.atServer, l.sys.server.ackNo);
  }

  lemma AckOffsets(name: Name, sent: seq<Packet>, n: nat)
    requires ClientPackets(name, sent) && n <= |sent| && PastTheLimit(name, n) == 0
    ensures n > 1 && Offset(sent, n) >= TWO_32 > Offset(sent, n - 1)
    ensures Length(sent[n - 1].body.payload) <= MAX_LENGTH
  {
    ClientOffset(name, sent, n);
    ClientOffset(name, sent, n - 1);
    assert sent[n - 1].body == Body(ACK, Nothing);
  }

  lemma ClientRepeats(env: Env, name: Name) returns (actions: seq<Action>)
    requires !AudioFits(env, name)
    ensures !NoRepeats(After(env, name, actions).cAcc)
  {
    var moves := ClientReachesWrap(env, name);
    actions := ClientHearsAgain(env, name, moves);
  }

  lemma ClientReachesWrap(env: Env, name: Name) returns (moves: seq<Move>)
    requires !AudioFits(env, name)
    ensures var l := Run(env, name, moves);
            && InOrder(env, name, l) && 0 < l.atClient <= |l.sys.server.sent| && !Done(l.sys.client)
            && !(l.sys.server.sent[l.atClient - 1].seqNo < l.sys.client.ackNo)
  {
    var n := FirstTotalOver(Script(env, name), Listened(env, name));
    moves := ClientReaches(env, name, n);
    WrappedPacketPasses(env, name, Run(env, name, moves));
  }

  lemma ServerRepeats(env: Env, name: Name) returns (actions: seq<Action>)
    requires !AcksFit(env, name)
    ensures !NoRepeats(After(env, name, actions).sAcc)
  {
    var moves := ServerReachesWrap(env, name);
    actions := ServerHearsAgain(env, name, moves);
  }

  lemma ServerReachesWrap(env: Env, name: Name) returns (moves: seq<Move>)
    requires !AcksFit(env, name)
    ensures var l := Run(env, name, moves);
            && InOrder(env, name, l) && 0 < l.atServer <= |l.sys.client.sent| && l.sys.server.alive
            && !(l.sys.client.sent[l.atServer - 1].seqNo < l.sys.server.ackNo)
  {
    var n := AckOverTheLimit(env, name);
    moves := ServerReaches(env, name, n);
    WrappedAckPasses(env, name, Run(env, name, moves));
  }

  /** The first packet of the client whose end is past the limit. */
  lemma AckOverTheLimit(env: Env, name: Name) returns (n: nat)
    requires !AcksFit(env, name)
    ensures Opens(env, name) && 0 < n <= 1 + AllAcks(env, name) && PastTheLimit(name, n) == 0
  {
    n := TWO_32 - Extent(Body(SYN, Config(0, name))) + 1;
  }

  function PastTheLimit(name: Name, n: nat): int {
    Extent(Body(SYN, Config(0, name))) + n - 1 - TWO_32
  }

  /** If the packet accepted last passes the test, the network can make it be accepted
      a second time. */
  lemma ClientHearsAgain(env: Env, name: Name, moves: seq<Move>) returns (actions: seq<Action>)
    requires var l := Run(env, name, moves);
             && InOrder(env, name, l) && 0 < l.atClient <= |l.sys.server.sent| && !Done(l.sys.client)
             && !(l.sys.server.sent[l.atClient - 1].seqNo < l.sys.client.ackNo)
    ensures var n := Run(env, name, moves).atClient; After(env, name, actions).cAcc == Iota(n) + [n - 1]
    ensures !NoRepeats(After(env, name, actions).cAcc)
  {
    var l := Run(env, name, moves);
    ClientNotes(env, l.sys, l.atClient - 1);
    AgainIsRepeated(l.atClient);
    actions := AndThen(env, name, moves, ToClient(l.atClient - 1));
  }

  lemma ServerHearsAgain(env: Env, name: Name, moves: seq<Move>) returns (actions: seq<Action>)
    requires var l := Run(env, name, moves);
             && InOrder(env, name, l) && 0 < l.atServer <= |l.sys.client.sent| && l.sys.server.alive
             && !(l.sys.client.sent[l.atServer - 1].seqNo < l.sys.server.ackNo)
    ensures var n := Run(env, name, moves).atServer; After(env, name, actions).sAcc == Iota(n) + [n - 1]
    ensures !NoRepeats(After(env, name, actions).sAcc)
  {
    var l := Run(env, name, moves);
    ServerNotes(env, l.sys, l.atServer - 1);
    AgainIsRepeated(l.atServer);
    actions := AndThen(env, name, moves, ToServer(l.atServer - 1));
  }

  /** In all runs over the unreliable network no packet is accepted twice, on either
      side, if and only if both sizes fit. */
  lemma AcceptedAtMostOnceExactly(env: Env, name: Name)
    ensures (forall actions ::
               NoRepeats(After(env, name, actions).cAcc) && NoRepeats(After(env, name, actions).sAcc))
              <==> AudioFits(env, name) && AcksFit(env, name)
  {
    if !AudioFits(env, name) {
      var actions := ClientRepeats(env, name);
    } else if !AcksFit(env, name) {
      var actions := ServerRepeats(env, name);
    } else {
      forall actions
        ensures NoRepeats(After(env, name, actions).cAcc) && NoRepeats(After(env, name, actions).sAcc)
      {
        BothInOrder(env, name, actions);
      }
    }
  }

  // ----- In terms of the file ---------------------------------------------------------------

  lemma {:induction false} ChunkTotal(bodies: seq<Body>, chunks: seq<seq<Byte>>, n: nat)
    requires n <= |chunks| && n < |bodies|
    requires forall j | 0 <= j < |chunks| :: |chunks[j]| >= 1
    requires forall j | 0 <= j < n :: bodies[1 + j].payload == Audio(chunks[j])
    ensures Total(bodies[..n + 1]) == Extent(bodies[0]) + |Concat(chunks[..n])|
  {
    if n == 0 {
      TotalOneMore(bodies, 1);
      assert chunks[..0] == [] && bodies[..0] == [];
    } else {
      ChunkTotal(bodies, chunks, n - 1);
      TotalOneMore(bodies, n + 1);
      assert chunks[..n] == chunks[..n - 1] + [chunks[n - 1]];
      ConcatSnoc(chunks[..n - 1], chunks[n - 1]);
    }
  }

  lemma {:induction false} ConcatSnoc(chunks: seq<seq<Byte>>, c: seq<Byte>)
    ensures |Concat(chunks + [c])| == |Concat(chunks)| + |c|
  {
    if chunks == [] {
      assert ([] + [c])[1..] == [];
    } else {
      assert (chunks + [c])[1..] == chunks[1..] + [c] && (chunks + [c])[0] == chunks[0];
      ConcatSnoc(chunks[1..], c);
    }
  }

  /** For a readable file the first size is that of the file and the configuration. */
  lemma ReadableFits(env: Env, name: Name)
    requires Opens(env, name) && !Fails(env, name)
    ensures AudioFits(env, name) <==> CONFIG_ACK_SIZE + |FileOf(env, name)| < TWO_32
  {
    ScriptPlays(env, name);
    ChunksAreTheFile(FileOf(env, name), 0, env.reader);
    PlayedTotal(Script(env, name), ChunksOf(env, name), FileOf(env, name));
  }

  lemma PlayedTotal(script: seq<Body>, chunks: seq<seq<Byte>>, file: seq<Byte>)
    requires Plays(script, chunks) && Concat(chunks) == file && forall c <- chunks :: |c| >= 1
    ensures Total(script[..|script| - 1]) == Extent(script[0]) + |file|
  {
    forall j | 0 <= j < |chunks|
      ensures |chunks[j]| >= 1
    {
      assert chunks[j] in chunks;
    }
    ChunkTotal(script, chunks, |chunks|);
    assert chunks[..|chunks|] == chunks;
  }

  /** The second size in terms of the name and the number of chunks: a byte for the
      codec, the name, and the acknowledgements. */
  lemma AcksFitExactly(env: Env, name: Name)
    ensures AcksFit(env, name) <==>
            1 + |name| + (if Opens(env, name) then 3 + 2 * |ChunksOf(env, name)| else 0) < TWO_32
  {
  }

  /** All that the server sends, byte for byte: 8 for the configuration, the chunks
      that were read, and 1 for an end or 4 for an error. */
  lemma ScriptTotal(env: Env, name: Name)
    ensures Total(Script(env, name)) ==
            if !Opens(env, name) then 4
            else 8 + |Concat(ChunksOf(env, name))| + if Fails(env, name) then 4 else 1
  {
    var script := Script(env, name);
    var n := |script|;
    assert script[..n] == script;
    TotalOneMore(script, n);
    if Opens(env, name) {
      ScriptPlays(env, name);
      ScriptEnd(env, name);
      ChunksAreTheFile(FileOf(env, name), 0, env.reader);
      PlayedTotal(script, ChunksOf(env, name), Concat(ChunksOf(env, name)));
    } else {
      assert script[..0] == [];
    }
  }
}
