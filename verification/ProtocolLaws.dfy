/** What the invariant of Protocol.dfy means: order, gaps, handshake, credit and
    delivery over a network that loses, duplicates and reorders. */
module ProtocolLaws {
  import opened CInt
  import opened Pipeline
  import opened PipelineLaws
  import opened StreamLaws
  import opened Transport
  import opened Protocol
  import opened C = Client
  import opened S = Server

  // ----- Order ---------------------------------------------------------------------------

  predicate Increasing(acc: seq<nat>) {
    forall j, k | 0 <= j < k < |acc| :: acc[j] < acc[k]
  }

  /** As long as a history fits into 32 bits, its receiver accepts packets in the
      order of sending, none twice, and its out-of-order branch tells exactly
      whether one was skipped. */
  ghost predicate Ordered(sent: seq<Packet>, acc: seq<nat>, gap: bool) {
    Offset(sent, |sent|) < TWO_32 ==> Increasing(acc) && (gap <==> acc != Iota(|acc|))
  }

  lemma OrderedAccepts(sent: seq<Packet>, seqNo: nat, acc: seq<nat>, ackNo: nat, gap: bool, i: nat)
    requires Wire(sent, seqNo, acc, ackNo) && Ordered(sent, acc, gap)
    requires i < |sent| && !(sent[i].seqNo < ackNo)
    ensures Ordered(sent, acc + [i], gap || sent[i].seqNo > ackNo)
  {
    if Offset(sent, |sent|) < TWO_32 {
      ExactWithoutWrap(sent, i, Next(acc));
      assert i >= Next(acc);
      AppendKeepsOrder(acc, i);
    }
  }

  lemma AppendKeepsOrder(acc: seq<nat>, i: nat)
    requires Increasing(acc) && i >= Next(acc)
    ensures Increasing(acc + [i])
    ensures acc + [i] == Iota(|acc| + 1) <==> acc == Iota(|acc|) && i == Next(acc)
  {
    var more := acc + [i];
    forall j, k | 0 <= j < k < |more|
      ensures more[j] < more[k]
    {
      assert more[j] == acc[j];
      if k < |acc| {
        assert more[k] == acc[k];
      } else {
        assert more[k] == i && acc[j] <= acc[|acc| - 1];
      }
    }
    AppendToIota(acc, i);
  }

  lemma AppendToIota(acc: seq<nat>, i: nat)
    ensures acc + [i] == Iota(|acc| + 1) <==> acc == Iota(|acc|) && i == Next(acc)
  {
    assert Iota(|acc| + 1) == Iota(|acc|) + [|acc|];
    assert acc + [i] == Iota(|acc| + 1) ==> acc == (acc + [i])[..|acc|] && i == (acc + [i])[|acc|];
    assert acc == Iota(|acc|) ==> Next(acc) == |acc|;
  }

  lemma OrderedGrows(a: seq<Packet>, b: seq<Packet>, acc: seq<nat>, gap: bool)
    requires Ordered(a, acc, gap) && Extends(a, b)
    ensures Ordered(b, acc, gap)
  {
    OffsetByBodies(a, b, |a|);
    if |a| < |b| {
      OffsetIncreases(b, |a|, |b|);
    }
  }

  ghost predicate Extends(a: seq<Packet>, b: seq<Packet>) {
    |a| <= |b| && forall i | 0 <= i < |a| :: a[i].body == b[i].body
  }

  lemma BothAreScripts(env: Env, name: Name, s: Server, acc: seq<nat>, t: Server, acc': seq<nat>)
    requires ServerSide(env, name, s, acc) && ServerSide(env, name, t, acc') && |acc| <= |acc'|
    ensures Extends(s.sent, t.sent)
  {
  }

  lemma BothAreAcks(env: Env, name: Name, c: Client, acc: seq<nat>, d: Client, acc': seq<nat>)
    requires ClientPackets(name, c.sent) && ClientPackets(name, d.sent)
    requires ClientSide(env, name, c, acc) && ClientSide(env, name, d, acc')
    requires acc' == acc || exists i :: acc' == acc + [i]
    ensures Extends(c.sent, d.sent)
  {
    if acc' != acc {
      var i :| acc' == acc + [i];
      AccAppends(acc, i, 0);
      assert acc'[|acc|] == i;
      AccSnoc(Script(env, name), acc, i);
    }
    forall i | 0 <= i < |c.sent|
      ensures c.sent[i].body == d.sent[i].body
    {
      if i > 0 {
        assert c.sent[i].body == Body(ACK, Nothing) == d.sent[i].body;
      }
    }
  }

  lemma {:induction false} OrderHolds(env: Env, name: Name, actions: seq<Action>)
    ensures var sys := After(env, name, actions);
            && Ordered(sys.server.sent, sys.cAcc, sys.cGap)
            && Ordered(sys.client.sent, sys.sAcc, sys.sGap)
  {
    if actions == [] {
      assert Iota(0) == [];
    } else {
      var sys, a := After(env, name, actions[..|actions| - 1]), actions[|actions| - 1];
      OrderHolds(env, name, actions[..|actions| - 1]);
      InvHolds(env, name, actions[..|actions| - 1]);
      ActOrder(env, name, sys, a);
    }
  }

  /** A receive step of the client, as far as order goes. */
  ghost predicate ClientMoved(sys: Sys, i: nat, next: Sys)
    requires i < |sys.server.sent|
  {
    var p, ack := sys.server.sent[i], sys.client.ackNo;
    && next.server == sys.server && next.sAcc == sys.sAcc && next.sGap == sys.sGap
    && (|| (next.cAcc == sys.cAcc && next.cGap == sys.cGap)
        || (next.cAcc == sys.cAcc + [i] && next.cGap == (sys.cGap || p.seqNo > ack) && !(p.seqNo < ack)))
  }

  ghost predicate ServerMoved(sys: Sys, i: nat, next: Sys)
    requires i < |sys.client.sent|
  {
    var p, ack := sys.client.sent[i], sys.server.ackNo;
    && next.client == sys.client && next.cAcc == sys.cAcc && next.cGap == sys.cGap
    && (|| (next.sAcc == sys.sAcc && next.sGap == sys.sGap)
        || (next.sAcc == sys.sAcc + [i] && next.sGap == (sys.sGap || p.seqNo > ack) && !(p.seqNo < ack)))
  }

  lemma ClientMovedOrder(sys: Sys, i: nat, next: Sys)
    requires i < |sys.server.sent| && ClientMoved(sys, i, next)
    requires Wire(sys.server.sent, sys.server.seqNo, sys.cAcc, sys.client.ackNo)
    requires Extends(sys.client.sent, next.client.sent)
    requires Ordered(sys.server.sent, sys.cAcc, sys.cGap) && Ordered(sys.client.sent, sys.sAcc, sys.sGap)
    ensures Ordered(next.server.sent, next.cAcc, next.cGap) && Ordered(next.client.sent, next.sAcc, next.sGap)
  {
    var s, c := sys.server, sys.client;
    OrderedGrows(c.sent, next.client.sent, sys.sAcc, sys.sGap);
    if !(s.sent[i].seqNo < c.ackNo) {
      OrderedAccepts(s.sent, s.seqNo, sys.cAcc, c.ackNo, sys.cGap, i);
    }
  }

  lemma ServerMovedOrder(sys: Sys, i: nat, next: Sys)
    requires i < |sys.client.sent| && ServerMoved(sys, i, next)
    requires Wire(sys.client.sent, sys.client.seqNo, sys.sAcc, sys.server.ackNo)
    requires Extends(sys.server.sent, next.server.sent)
    requires Ordered(sys.server.sent, sys.cAcc, sys.cGap) && Ordered(sys.client.sent, sys.sAcc, sys.sGap)
    ensures Ordered(next.server.sent, next.cAcc, next.cGap) && Ordered(next.client.sent, next.sAcc, next.sGap)
  {
    var s, c := sys.server, sys.client;
    OrderedGrows(s.sent, next.server.sent, sys.cAcc, sys.cGap);
    if !(c.sent[i].seqNo < s.ackNo) {
      OrderedAccepts(c.sent, c.seqNo, sys.sAcc, s.ackNo, sys.sGap, i);
    }
  }

  lemma TakesAreMoves(env: Env, sys: Sys, i: nat)
    ensures i < |sys.server.sent| ==> ClientMoved(sys, i, ClientTakes(sys, i))
    ensures i < |sys.client.sent| ==> ServerMoved(sys, i, ServerTakes(env, sys, i))
  {
  }

  lemma ActOrder(env: Env, name: Name, sys: Sys, a: Action)
    requires Inv(env, name, sys)
    requires Ordered(sys.server.sent, sys.cAcc, sys.cGap) && Ordered(sys.client.sent, sys.sAcc, sys.sGap)
    ensures var next := NetworkStep(env, sys, a);
            Ordered(next.server.sent, next.cAcc, next.cGap) && Ordered(next.client.sent, next.sAcc, next.sGap)
  {
    var next := NetworkStep(env, sys, a);
    ActKeepsInv(env, name, sys, a);
    TakesAreMoves(env, sys, a.i);
    if a.ToClient? && a.i < |sys.server.sent| {
      BothAreAcks(env, name, sys.client, sys.cAcc, next.client, next.cAcc);
      ClientMovedOrder(sys, a.i, next);
    } else if a.ToServer? && a.i < |sys.client.sent| {
      BothAreScripts(env, name, sys.server, sys.sAcc, next.server, next.sAcc);
      ServerMovedOrder(sys, a.i, next);
    }
  }

  lemma ReachableOrder(env: Env, name: Name, sys: Sys)
    requires Reachable(env, name, sys)
    ensures Ordered(sys.server.sent, sys.cAcc, sys.cGap)
    ensures Ordered(sys.client.sent, sys.sAcc, sys.sGap)
  {
    var actions :| sys == After(env, name, actions);
    OrderHolds(env, name, actions);
  }

  /** The bytes sent in one direction fit into 32 bits. */
  ghost predicate Fits(sent: seq<Packet>) {
    Offset(sent, |sent|) < TWO_32
  }

  /** Under loss, duplication and reordering each side accepts an increasing
      subsequence of what the other sent, and its `ack` is the end of the packet
      accepted last: a packet boundary, not beyond the sender's `seq`. */
  lemma AcceptedInOrderAndOnce(env: Env, name: Name, sys: Sys)
    requires Reachable(env, name, sys)
    ensures Within(sys.cAcc, |sys.server.sent|) && Within(sys.sAcc, |sys.client.sent|)
    ensures Fits(sys.server.sent) ==>
              && Increasing(sys.cAcc)
              && sys.client.ackNo == Offset(sys.server.sent, Next(sys.cAcc)) <= sys.server.seqNo
    ensures Fits(sys.client.sent) ==>
              && Increasing(sys.sAcc)
              && sys.server.ackNo == Offset(sys.client.sent, Next(sys.sAcc)) <= sys.client.seqNo
  {
    ReachableInv(env, name, sys);
    ReachableOrder(env, name, sys);
    if Fits(sys.server.sent) {
      AckIsBoundary(sys.server.sent, Next(sys.cAcc));
    }
    if Fits(sys.client.sent) {
      AckIsBoundary(sys.client.sent, Next(sys.sAcc));
    }
  }

  lemma AckIsBoundary(sent: seq<Packet>, n: nat)
    requires n <= |sent| && Offset(sent, |sent|) < TWO_32
    ensures AckAt(sent, n) == Offset(sent, n) <= Offset(sent, |sent|) == U32(Offset(sent, |sent|))
  {
    OffsetsFit(sent, n);
    OffsetsFit(sent, |sent|);
    if n < |sent| {
      OffsetIncreases(sent, n, |sent|);
    }
  }

  /** The comparisons of `seq` with `ack` decide exactly: a packet is dropped if
      and only if it or a later one was accepted, and it is in order if and only if
      no packet between it and the last accepted one was skipped. A session took
      the out-of-order branch if and only if it did not accept a prefix. */
  lemma GapDetectionIsExact(env: Env, name: Name, sys: Sys, i: nat)
    requires Reachable(env, name, sys)
    ensures Fits(sys.server.sent) && i < |sys.server.sent| ==>
              && (sys.server.sent[i].seqNo < sys.client.ackNo <==> i < Next(sys.cAcc))
              && (sys.server.sent[i].seqNo == sys.client.ackNo <==> i == Next(sys.cAcc))
    ensures Fits(sys.client.sent) && i < |sys.client.sent| ==>
              && (sys.client.sent[i].seqNo < sys.server.ackNo <==> i < Next(sys.sAcc))
              && (sys.client.sent[i].seqNo == sys.server.ackNo <==> i == Next(sys.sAcc))
    ensures Fits(sys.server.sent) ==> (sys.cGap <==> sys.cAcc != Iota(|sys.cAcc|))
    ensures Fits(sys.client.sent) ==> (sys.sGap <==> sys.sAcc != Iota(|sys.sAcc|))
  {
    ReachableInv(env, name, sys);
    ReachableOrder(env, name, sys);
    if Fits(sys.server.sent) && i < |sys.server.sent| {
      ExactWithoutWrap(sys.server.sent, i, Next(sys.cAcc));
    }
    if Fits(sys.client.sent) && i < |sys.client.sent| {
      ExactWithoutWrap(sys.client.sent, i, Next(sys.sAcc));
    }
  }

  // ----- Handshake ---------------------------------------------------------------------------

  /** Whatever the network does, and without any bound: while the client waits for
      the SYN-ACK the server has sent at most one packet, so the configuration is
      only ever decoded from the SYN-ACK; a session in its initial state can only
      receive the SYN, so it never answers with a bare reset. */
  lemma HandshakeIsSafe(env: Env, name: Name, sys: Sys)
    requires Reachable(env, name, sys)
    ensures sys.client.state == SynSent ==> |sys.server.sent| <= 1
    ensures sys.client.format != None ==> Opens(env, name) && sys.client.format == Some(env.open(name).format)
    ensures sys.server.alive && sys.server.state == Initial ==>
              forall i | 0 <= i < |sys.client.sent| :: sys.client.sent[i].body.flags == SYN
    ensures forall i | 0 <= i < |sys.server.sent| :: sys.server.sent[i].body.flags != RST
  {
    ReachableInv(env, name, sys);
    HandshakeState(env, name, sys);
    NoBareReset(env, name, sys.server, sys.sAcc);
  }

  lemma HandshakeState(env: Env, name: Name, sys: Sys)
    requires Inv(env, name, sys)
    ensures sys.client.state == SynSent ==> |sys.server.sent| <= 1
    ensures sys.client.format != None ==> Opens(env, name) && sys.client.format == Some(env.open(name).format)
    ensures sys.server.alive && sys.server.state == Initial ==>
              forall i | 0 <= i < |sys.client.sent| :: sys.client.sent[i].body.flags == SYN
  {
    if sys.server.alive && sys.server.state == Initial {
      assert sys.sAcc == [];
      NothingAccepted(env, name, sys);
    }
  }

  lemma NoBareReset(env: Env, name: Name, s: Server, acc: seq<nat>)
    requires ServerSide(env, name, s, acc)
    ensures forall i | 0 <= i < |s.sent| :: s.sent[i].body.flags != RST
  {
    ScriptShape(env, name);
    forall i | 0 <= i < |s.sent|
      ensures s.sent[i].body.flags != RST
    {
      assert s.sent[i].body == Script(env, name)[i];
    }
  }

  /** A late packet at a session that has just been created, without SYN or RST, makes
      a client that accepts the answer stop with ECONNRESET where it stands. */
  lemma StrayPacketEndsTheClient(env: Env, s: Server, p: Packet, c: Client)
    requires s.alive && s.state == Initial && !(p.seqNo < s.ackNo) && !p.body.flags.syn && !p.body.flags.rst
    requires !(s.seqNo < c.ackNo)
    ensures var t := S.Receive(env, s, p);
            && |t.sent| == |s.sent| + 1 && t.alive
            && var d := C.Receive(c, t.sent[|s.sent|]);
               Done(d) && d.result == C.ECONNRESET && d.state == c.state && d.pushed == c.pushed
  {
    S.StrayPacketIsReset(env, s, p);
    C.ResetSaysHowItEnds(c, S.Receive(env, s, p).sent[|s.sent|]);
  }

  // ----- Credit and the end of the stream ---------------------------------------------------------

  function FileOf(env: Env, name: Name): seq<Byte>
    requires Opens(env, name)
  {
    env.open(name).file
  }

  function ChunksOf(env: Env, name: Name): seq<seq<Byte>>
    requires Opens(env, name)
  {
    Chunks(FileOf(env, name), 0, env.reader)
  }

  predicate Fails(env: Env, name: Name)
    requires Opens(env, name)
  {
    ReadFails(FileOf(env, name), 0, env.reader)
  }

  /** The script of a file that opens: the configuration, one packet for each
      chunk, and the end. */
  lemma ScriptLength(env: Env, name: Name)
    requires Opens(env, name)
    ensures |Script(env, name)| == |ChunksOf(env, name)| + 2
  {
    ChunksAreOwed(S.LOGIC, FileOf(env, name), 0, env.reader);
  }

  lemma ScriptData(env: Env, name: Name, j: nat)
    requires Opens(env, name) && j < |ChunksOf(env, name)|
    ensures |Script(env, name)| == |ChunksOf(env, name)| + 2
    ensures Script(env, name)[1 + j] == Body(DATA, Audio(ChunksOf(env, name)[j]))
  {
    var chunks, owed := ChunksOf(env, name), Owed(S.LOGIC, Reading(FileOf(env, name), 0, env.reader, false));
    ScriptLength(env, name);
    ChunksAreOwed(S.LOGIC, FileOf(env, name), 0, env.reader);
    SessionPassesOn(Chunk(chunks[j]));
    assert owed[j] == Push(Through(S.LOGIC, Chunk(chunks[j])));
    assert Script(env, name)[1 + j] == Answers(env, owed)[j] == Answer(env, owed[j]);
  }

  lemma ScriptEnd(env: Env, name: Name)
    requires Opens(env, name)
    ensures |Script(env, name)| == |ChunksOf(env, name)| + 2
    ensures Script(env, name)[|ChunksOf(env, name)| + 1] ==
            if Fails(env, name) then Body(RST_ERR, ErrorCode(env.readErrno)) else Body(RST_FIN, Nothing)
  {
    var n, owed := |ChunksOf(env, name)|, Owed(S.LOGIC, Reading(FileOf(env, name), 0, env.reader, false));
    ScriptLength(env, name);
    ChunksAreOwed(S.LOGIC, FileOf(env, name), 0, env.reader);
    assert owed[n] == (if Fails(env, name) then FailureHeard(S.LOGIC) else Finish);
    assert FailureHeard(S.LOGIC) == FailureHeard(SessionSink) == Failure;
    assert Script(env, name)[1 + n] == Answers(env, owed)[n] == Answer(env, owed[n]);
  }

  lemma ScriptSizes(env: Env, name: Name, i: nat)
    requires i < |Script(env, name)|
    ensures Length(Script(env, name)[i].payload) <= 1024
  {
    if Opens(env, name) {
      ScriptEnd(env, name);
      if 0 < i < |Script(env, name)| - 1 {
        ScriptData(env, name, i - 1);
        ChunksAreTheFile(FileOf(env, name), 0, env.reader);
        assert ChunksOf(env, name)[i - 1] in ChunksOf(env, name);
      }
    }
  }

  lemma SessionPassesOn(e: Element)
    ensures Through(S.LOGIC, e) == e
  {
    assert Through(SessionSink, e) == e;
  }

  /** The server sends one packet for each one it accepts until its script ends:
      after the SYN-ACK, as many data and end packets as it accepted requests, and
      at most one for each chunk and one end. */
  lemma CreditLaw(env: Env, name: Name, sys: Sys)
    requires Reachable(env, name, sys) && Opens(env, name)
    ensures sys.sAcc == [] ==> sys.server.sent == []
    ensures sys.sAcc != [] ==> |sys.server.sent| - 1 == Min(|sys.sAcc| - 1, |ChunksOf(env, name)| + 1)
  {
    ReachableInv(env, name, sys);
    Credit(env, name, sys.server, sys.sAcc);
  }

  lemma Credit(env: Env, name: Name, s: Server, acc: seq<nat>)
    requires Opens(env, name) && ServerSide(env, name, s, acc)
    ensures acc == [] ==> s.sent == []
    ensures acc != [] ==> |s.sent| - 1 == Min(|acc| - 1, |ChunksOf(env, name)| + 1)
  {
    ScriptLength(env, name);
  }

  /** An end is the last packet that the server ever sends, so it is sent at most
      once and has the largest sequence number. */
  lemma EndIsLast(env: Env, name: Name, sys: Sys, i: nat, j: nat)
    requires Reachable(env, name, sys) && i < |sys.server.sent| && j < |sys.server.sent| && i != j
    requires sys.server.sent[i].body.flags.rst
    ensures i == |sys.server.sent| - 1 && !sys.server.sent[j].body.flags.rst
    ensures Fits(sys.server.sent) ==> sys.server.sent[j].seqNo < sys.server.sent[i].seqNo
  {
    var sent := sys.server.sent;
    ReachableInv(env, name, sys);
    ScriptShape(env, name);
    assert sent[i].body == Script(env, name)[i] && sent[j].body == Script(env, name)[j];
    if Offset(sent, |sent|) < TWO_32 {
      OffsetsFit(sent, i);
      OffsetsFit(sent, j);
      OffsetIncreases(sent, j, i);
    }
  }

  /** The sink of the client gets one frame for each accepted packet that is not
      an end, and the client sends three acknowledgements for the first packet and
      two for each later one. */
  lemma AcceptedIsPlayedAndAcked(env: Env, name: Name, sys: Sys)
    requires Reachable(env, name, sys)
    ensures Within(sys.cAcc, |Script(env, name)|)
    ensures sys.client.pushed == FramesFor(Script(env, name), sys.cAcc)
    ensures |sys.client.sent| == 1 + AcksFor(Script(env, name), sys.cAcc)
  {
    ReachableInv(env, name, sys);
  }

  /** The sizes that the sink is told: each frame belongs to an accepted packet, has
      the audio of that packet, and its size falls short of the packet by 8. */
  lemma FramesFallShort(env: Env, name: Name, sys: Sys, f: Frame)
    requires Reachable(env, name, sys) && f in sys.client.pushed
    ensures exists i :: i in sys.cAcc && Falls(Script(env, name), i, f)
  {
    ReachableInv(env, name, sys);
    forall i | 0 <= i < |Script(env, name)|
      ensures Length(Script(env, name)[i].payload) <= 1024
    {
      ScriptSizes(env, name, i);
    }
    FrameFallsShort(Script(env, name), sys.cAcc, f);
  }

  predicate Falls(script: seq<Body>, i: nat, f: Frame) {
    && i < |script| && !script[i].flags.rst && f.bytes == Content(script[i].payload)
    && f.size < TWO_64 && (f.size + 8) % TWO_64 == Length(script[i].payload)
  }

  lemma {:induction false} FrameFallsShort(script: seq<Body>, acc: seq<nat>, f: Frame)
    requires Within(acc, |script|) && f in FramesFor(script, acc)
    requires forall i | 0 <= i < |script| :: Length(script[i].payload) <= 1024
    ensures exists i :: i in acc && Falls(script, i, f)
  {
    if acc != [] {
      var front, last := acc[..|acc| - 1], acc[|acc| - 1];
      if f in FramesFor(script, front) {
        FrameFallsShort(script, front, f);
        var i :| i in front && Falls(script, i, f);
        assert i in acc;
      } else {
        FrameSizeFallsShort(Length(script[last].payload));
        assert f == FrameOf(script[last]);
        assert last in acc && Falls(script, last, f);
      }
    }
  }

  // ----- What is on the wire ------------------------------------------------------------------------

  /** The flag bits of every packet of every run. */
  lemma FlagsOnTheWire(env: Env, name: Name, sys: Sys, i: nat)
    requires Reachable(env, name, sys)
    ensures i < |sys.client.sent| ==>
              sys.client.sent[i].body.flags ==
                if i == 0 then Flags(fin := false, syn := true, rst := false, ack := false, err := false)
                else Flags(fin := false, syn := false, rst := false, ack := true, err := false)
    ensures i < |sys.server.sent| && Opens(env, name) ==>
              sys.server.sent[i].body.flags ==
                if i == 0 then Flags(fin := false, syn := true, rst := false, ack := true, err := false)
                else if i <= |ChunksOf(env, name)|
                then Flags(fin := false, syn := false, rst := false, ack := false, err := false)
                else Flags(fin := !Fails(env, name), syn := false, rst := true, ack := false, err := Fails(env, name))
    ensures i < |sys.server.sent| && !Opens(env, name) ==>
              sys.server.sent[i].body.flags == Flags(fin := false, syn := false, rst := true, ack := false, err := true)
  {
    ReachableInv(env, name, sys);
    ClientFlags(name, sys.client.sent, i);
    ServerFlags(env, name, sys.server, sys.sAcc, i);
  }

  lemma ClientFlags(name: Name, sent: seq<Packet>, i: nat)
    requires ClientPackets(name, sent)
    ensures i < |sent| ==> sent[i].body.flags == if i == 0 then SYN else ACK
  {
    if 0 < i < |sent| {
      assert sent[i].body == Body(ACK, Nothing);
    }
  }

  lemma ServerFlags(env: Env, name: Name, s: Server, acc: seq<nat>, i: nat)
    requires ServerSide(env, name, s, acc)
    ensures i < |s.sent| && Opens(env, name) ==>
              s.sent[i].body.flags ==
                if i == 0 then SYN_ACK else if i <= |ChunksOf(env, name)| then DATA
                else if Fails(env, name) then RST_ERR else RST_FIN
    ensures i < |s.sent| && !Opens(env, name) ==> s.sent[i].body.flags == RST_ERR
  {
    if i < |s.sent| {
      assert s.sent[i].body == Script(env, name)[i];
      if Opens(env, name) {
        ScriptEnd(env, name);
        if 0 < i <= |ChunksOf(env, name)| {
          ScriptData(env, name, i - 1);
        }
      }
    }
  }

  // ----- Delivery --------------------------------------------------------------------------------

  /** The audio that the client's sink was given, after the configuration. */
  function Played(c: Client): seq<seq<Byte>> {
    seq(NonNegative(|c.pushed| - 1), i requires 0 <= i < |c.pushed| - 1 => c.pushed[i + 1].bytes)
  }

  function NonNegative(n: int): nat {
    if n < 0 then 0 else n
  }

  /** A script whose last body alone is an end, with these chunks in between. */
  ghost predicate Plays(script: seq<Body>, chunks: seq<seq<Byte>>) {
    && |script| == |chunks| + 2
    && (forall i | 0 <= i < |script| :: script[i].flags.rst <==> i == |script| - 1)
    && (forall i | 0 <= i < |chunks| :: script[1 + i].payload == Audio(chunks[i]))
  }

  lemma ScriptPlays(env: Env, name: Name)
    requires Opens(env, name)
    ensures Plays(Script(env, name), ChunksOf(env, name))
  {
    ScriptEnd(env, name);
    ScriptShape(env, name);
    forall i | 0 <= i < |ChunksOf(env, name)|
      ensures Script(env, name)[1 + i].payload == Audio(ChunksOf(env, name)[i])
    {
      ScriptData(env, name, i);
    }
  }

  lemma {:induction false} FramesOfIota(script: seq<Body>, chunks: seq<seq<Byte>>, n: nat)
    requires Plays(script, chunks) && n <= |script|
    ensures var frames := FramesFor(script, Iota(n));
            && |frames| == Min(n, |chunks| + 1)
            && forall j | 1 <= j < |frames| :: frames[j].bytes == chunks[j - 1]
  {
    if n > 0 {
      FramesOfIota(script, chunks, n - 1);
      assert Iota(n) == Iota(n - 1) + [n - 1];
      AccSnoc(script, Iota(n - 1), n - 1);
      assert n >= 2 && n - 2 < |chunks| ==> script[1 + (n - 2)].payload == Audio(chunks[n - 2]);
      FramesOneMore(FramesFor(script, Iota(n - 1)), script[n - 1], FramesFor(script, Iota(n)), chunks, n);
    }
  }

  lemma FramesOfPrefix(env: Env, name: Name, n: nat)
    requires Opens(env, name) && n <= |Script(env, name)|
    ensures var frames := FramesFor(Script(env, name), Iota(n));
            && |frames| == Min(n, |ChunksOf(env, name)| + 1)
            && forall j | 1 <= j < |frames| :: frames[j].bytes == ChunksOf(env, name)[j - 1]
  {
    ScriptPlays(env, name);
    FramesOfIota(Script(env, name), ChunksOf(env, name), n);
  }

  lemma FramesOneMore(before: seq<Frame>, body: Body, after: seq<Frame>, chunks: seq<seq<Byte>>, n: nat)
    requires 0 < n <= |chunks| + 2 && |before| == Min(n - 1, |chunks| + 1)
    requires forall j | 1 <= j < |before| :: before[j].bytes == chunks[j - 1]
    requires after == before + (if body.flags.rst then [] else [FrameOf(body)])
    requires body.flags.rst <==> n == |chunks| + 2
    requires 2 <= n < |chunks| + 2 ==> body.payload == Audio(chunks[n - 2])
    ensures |after| == Min(n, |chunks| + 1)
    ensures forall j | 1 <= j < |after| :: after[j].bytes == chunks[j - 1]
  {
    forall j | 1 <= j < |after|
      ensures after[j].bytes == chunks[j - 1]
    {
      if j < |before| {
        assert after[j] == before[j];
      } else {
        assert after[j] == FrameOf(body);
      }
    }
  }

  /** A client that never took the out-of-order branch has been given the first
      chunks of the file, in order and complete; once it is finished, all of them,
      and they are the bytes of the file. */
  lemma NoGapMeansPrefix(env: Env, name: Name, sys: Sys)
    requires Reachable(env, name, sys) && Opens(env, name) && Fits(sys.server.sent) && !sys.cGap
    ensures Played(sys.client) == ChunksOf(env, name)[..Min(NonNegative(|sys.cAcc| - 1), |ChunksOf(env, name)|)]
    ensures sys.client.state == Finished ==>
              Played(sys.client) == ChunksOf(env, name) && Concat(Played(sys.client)) == FileOf(env, name)
  {
    ReachableInv(env, name, sys);
    ReachableOrder(env, name, sys);
    PrefixIsPlayed(env, name, sys.client, sys.cAcc);
  }

  lemma PrefixIsPlayed(env: Env, name: Name, c: Client, acc: seq<nat>)
    requires Opens(env, name) && ClientSide(env, name, c, acc) && acc == Iota(|acc|)
    requires |acc| <= |Script(env, name)|
    ensures var chunks := ChunksOf(env, name);
            && Played(c) == chunks[..Min(NonNegative(|acc| - 1), |chunks|)]
            && (c.state == Finished ==>
                  && |acc| == |Script(env, name)| && !Fails(env, name)
                  && Played(c) == chunks && Concat(Played(c)) == FileOf(env, name))
  {
    var chunks := ChunksOf(env, name);
    FramesOfPrefix(env, name, |acc|);
    ScriptEnd(env, name);
    ScriptShape(env, name);
    assert Played(c) == chunks[..Min(NonNegative(|acc| - 1), |chunks|)];
    if c.state == Finished {
      assert EndsWith(Script(env, name), acc, RST_FIN);
      assert acc[|acc| - 1] == |acc| - 1 == |chunks| + 1;
      assert chunks[..|chunks|] == chunks;
      ChunksAreTheFile(FileOf(env, name), 0, env.reader);
    }
  }
}
