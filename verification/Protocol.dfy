/** One client session and one server session over a network that may lose,
    duplicate and reorder packets: a receive step picks any packet that was ever
    sent. Nothing is assumed about how much is sent, except where said. */
module Protocol {
  import opened CInt
  import opened Pipeline
  import opened PipelineLaws
  import opened Transport
  import opened C = Client
  import opened S = Server

  /** `strlen(name)` is stored in an `int16_t` (client.c:136). */
  type Name = n: seq<Byte> | |n| <= 0x7fff

  /** The two sessions; the positions, in the other side's history, of the packets
      each has accepted; and whether it ever took the out-of-order branch. */
  datatype Sys = Sys(
    client: Client, server: Server, cAcc: seq<nat>, sAcc: seq<nat>, cGap: bool, sGap: bool)

  datatype Action = ToClient(i: nat) | ToServer(i: nat)

  function Begin(name: Name): Sys {
    Sys(C.Syn(C.Init(), name), S.Init(), [], [], false, false)
  }

  function ClientTakes(sys: Sys, i: nat): Sys
    requires i < |sys.server.sent|
  {
    var c, p := sys.client, sys.server.sent[i];
    if Done(c) then sys
    else
      sys.(client := C.Receive(c, p),
           cAcc := if p.seqNo < c.ackNo then sys.cAcc else sys.cAcc + [i],
           cGap := sys.cGap || p.seqNo > c.ackNo)
  }

  function ServerTakes(env: Env, sys: Sys, i: nat): Sys
    requires i < |sys.client.sent|
  {
    var s, p := sys.server, sys.client.sent[i];
    if !s.alive then sys
    else
      sys.(server := S.Receive(env, s, p),
           sAcc := if p.seqNo < s.ackNo then sys.sAcc else sys.sAcc + [i],
           sGap := sys.sGap || p.seqNo > s.ackNo)
  }

  function NetworkStep(env: Env, sys: Sys, a: Action): Sys {
    match a
    case ToClient(i) => if i < |sys.server.sent| then ClientTakes(sys, i) else sys
    case ToServer(i) => if i < |sys.client.sent| then ServerTakes(env, sys, i) else sys
  }

  /** The state after any sequence of receive steps. */
  function After(env: Env, name: Name, actions: seq<Action>): Sys {
    if actions == [] then Begin(name)
    else NetworkStep(env, After(env, name, actions[..|actions| - 1]), actions[|actions| - 1])
  }

  /** A state of some run. */
  ghost predicate Reachable(env: Env, name: Name, sys: Sys) {
    exists actions :: sys == After(env, name, actions)
  }

  lemma ClientNotes(env: Env, sys: Sys, i: nat)
    requires i < |sys.server.sent| && !Done(sys.client) && !(sys.server.sent[i].seqNo < sys.client.ackNo)
    ensures NetworkStep(env, sys, ToClient(i)).cAcc == ClientTakes(sys, i).cAcc == sys.cAcc + [i]
  {
  }

  lemma ServerNotes(env: Env, sys: Sys, i: nat)
    requires i < |sys.client.sent| && sys.server.alive && !(sys.client.sent[i].seqNo < sys.server.ackNo)
    ensures NetworkStep(env, sys, ToServer(i)).sAcc == ServerTakes(env, sys, i).sAcc == sys.sAcc + [i]
  {
  }

  // ----- The invariant --------------------------------------------------------------------

  /** The number of packets that a receiver has taken note of. */
  function Next(acc: seq<nat>): nat {
    if acc == [] then 0 else acc[|acc| - 1] + 1
  }

  predicate Within(acc: seq<nat>, n: nat) {
    forall j | 0 <= j < |acc| :: acc[j] < n
  }

  /** Three acknowledgements for the first packet, two for each later one, none
      for a reset. */
  function AcksFor(script: seq<Body>, acc: seq<nat>): nat
    requires Within(acc, |script|)
  {
    if acc == [] then 0
    else
      AcksFor(script, acc[..|acc| - 1]) +
      if script[acc[|acc| - 1]].flags.rst then 0 else if |acc| == 1 then 3 else 2
  }

  function FrameOf(body: Body): Frame {
    Frame(FrameSize(Length(body.payload)), Content(body.payload))
  }

  /** What the sink of the client gets for the packets the client accepted. */
  function FramesFor(script: seq<Body>, acc: seq<nat>): seq<Frame>
    requires Within(acc, |script|)
  {
    if acc == [] then []
    else
      FramesFor(script, acc[..|acc| - 1]) +
      if script[acc[|acc| - 1]].flags.rst then [] else [FrameOf(script[acc[|acc| - 1]])]
  }

  predicate Opens(env: Env, name: Name) {
    env.open(name).Opened?
  }

  /** One direction: a stamped history and a receiver whose `ack` is the end of
      the packet it accepted last. */
  ghost predicate Wire(sent: seq<Packet>, seqNo: nat, acc: seq<nat>, ackNo: nat) {
    Sender(sent, seqNo) && Within(acc, |sent|) && ackNo == AckAt(sent, Next(acc))
  }

  ghost predicate Wires(sys: Sys) {
    && Wire(sys.server.sent, sys.server.seqNo, sys.cAcc, sys.client.ackNo)
    && Wire(sys.client.sent, sys.client.seqNo, sys.sAcc, sys.server.ackNo)
  }

  /** The server sends one packet of its script for each packet it accepts. */
  ghost predicate ServerSide(env: Env, name: Name, s: Server, acc: seq<nat>) {
    && |s.sent| == Min(|acc|, |Script(env, name)|)
    && (forall i | 0 <= i < |s.sent| :: s.sent[i].body == Script(env, name)[i])
    && (acc == [] ==> s.alive && s.state == Initial)
    && (acc != [] && Opens(env, name) ==>
          s.alive && (s.state == SynAckSent || s.state == Established) && OnScript(env, name, s))
    && (acc != [] && !Opens(env, name) ==> !s.alive && |acc| == 1)
  }

  ghost predicate ClientPackets(name: Name, sent: seq<Packet>) {
    && |sent| >= 1
    && sent[0].body == Body(SYN, Config(0, name))
    && (forall i | 1 <= i < |sent| :: sent[i].body == Body(ACK, Nothing))
  }

  /** Whether the client's last packet was this kind of end. */
  predicate EndsWith(script: seq<Body>, acc: seq<nat>, flags: Flags)
    requires Within(acc, |script|)
  {
    acc != [] && script[acc[|acc| - 1]].flags == flags
  }

  ghost predicate ClientPhase(env: Env, name: Name, c: Client, acc: seq<nat>)
    requires Within(acc, |Script(env, name)|)
  {
    var script := Script(env, name);
    && c.result == (if EndsWith(script, acc, RST_ERR) then ErrorOf(script[acc[|acc| - 1]].payload) else 0)
    && (acc == [] || !Opens(env, name) ==> c.state == SynSent && c.format == None)
    && (!Opens(env, name) ==> |acc| <= 1)
    && (acc != [] && Opens(env, name) ==>
          && acc[0] == 0 && Relaying(c.pipe) && c.format == Some(env.open(name).format)
          && c.state == if EndsWith(script, acc, RST_FIN) then Finished else Established)
  }

  /** Everything about the client follows from what it accepted. */
  ghost predicate ClientSide(env: Env, name: Name, c: Client, acc: seq<nat>) {
    && Within(acc, |Script(env, name)|)
    && |c.sent| == 1 + AcksFor(Script(env, name), acc)
    && c.pushed == FramesFor(Script(env, name), acc)
    && ClientPhase(env, name, c, acc)
  }

  ghost predicate Inv(env: Env, name: Name, sys: Sys) {
    && Wires(sys)
    && ServerSide(env, name, sys.server, sys.sAcc)
    && ClientPackets(name, sys.client.sent)
    && ClientSide(env, name, sys.client, sys.cAcc)
    && (|sys.client.sent| == 1 ==> |sys.sAcc| <= 1)
  }

  // ----- The invariant holds in every state ------------------------------------------------

  /** Offsets depend on the bodies alone, and a longer history agrees. */
  lemma {:induction false} OffsetByBodies(a: seq<Packet>, b: seq<Packet>, n: nat)
    requires n <= |a| <= |b| && forall i | 0 <= i < |a| :: a[i].body == b[i].body
    ensures Offset(a, n) == Offset(b, n)
  {
    if n > 0 {
      OffsetByBodies(a, b, n - 1);
    }
  }

  lemma BodiesPrefix(a: seq<Packet>, b: seq<Packet>, more: seq<Body>)
    requires Bodies(b) == Bodies(a) + more
    ensures |b| == |a| + |more|
    ensures forall i | 0 <= i < |a| :: b[i].body == a[i].body
    ensures forall i | 0 <= i < |more| :: b[|a| + i].body == more[i]
  {
    assert |Bodies(b)| == |a| + |more|;
    forall i | 0 <= i < |a|
      ensures b[i].body == a[i].body
    {
      assert Bodies(b)[i] == Bodies(a)[i];
    }
    forall i | 0 <= i < |more|
      ensures b[|a| + i].body == more[i]
    {
      assert Bodies(b)[|a| + i] == more[i];
    }
  }

  /** An end of the script can only be its last packet. */
  lemma ScriptShape(env: Env, name: Name)
    ensures var script := Script(env, name);
            && (Opens(env, name) ==> |script| >= 2 && script[0].flags == SYN_ACK)
            && (forall i | 0 <= i < |script| - 1 :: !script[i].flags.rst)
            && (script[|script| - 1].flags == RST_FIN || script[|script| - 1].flags == RST_ERR)
  {
    match env.open(name)
    case NotOpened(_) =>
    case Opened(file, _) =>
      StreamLaws.ChunksAreOwed(S.LOGIC, file, 0, env.reader);
  }

  lemma NotedAck(sent: seq<Packet>, i: nat)
    requires Stamped(sent) && i < |sent|
    ensures U32(sent[i].seqNo + Extent(sent[i].body)) == AckAt(sent, i + 1)
  {
    var o, e := Offset(sent, i), Extent(sent[i].body);
    assert Offset(sent, i + 1) == o + e;
    U32Add(o, e);
  }

  /** A history that goes on keeps every `ack` that was read off it. */
  lemma LongerHistory(a: seq<Packet>, b: seq<Packet>, more: seq<Body>, n: nat)
    requires Bodies(b) == Bodies(a) + more && n <= |a|
    ensures |b| == |a| + |more| && AckAt(b, n) == AckAt(a, n)
  {
    BodiesPrefix(a, b, more);
    OffsetByBodies(a, b, n);
  }

  /** Before the client has answered, the server accepts the SYN only once. */
  lemma SynAcceptedOnce(env: Env, name: Name, sys: Sys, i: nat)
    requires Inv(env, name, sys) && i < |sys.client.sent| && sys.sAcc != []
    requires !(sys.client.sent[i].seqNo < sys.server.ackNo)
    ensures |sys.client.sent| > 1
  {
    SoleSentOnce(sys.client.sent);
  }

  /** The first packet is not accepted again by a receiver that noted it last. */
  lemma SoleSentOnce(sent: seq<Packet>)
    requires Stamped(sent) && |sent| >= 1
    ensures Extent(sent[0].body) <= MAX_LENGTH ==> sent[0].seqNo < AckAt(sent, 1)
  {
    assert Offset(sent, 0) == 0 && Offset(sent, 1) == Extent(sent[0].body);
  }

  lemma AccAppends(acc: seq<nat>, i: nat, n: nat)
    ensures |acc + [i]| == |acc| + 1 && (acc + [i])[|acc|] == i && Next(acc + [i]) == i + 1
    ensures Within(acc, n) && i < n ==> Within(acc + [i], n)
    ensures acc != [] ==> (acc + [i])[0] == acc[0]
  {
    if Within(acc, n) && i < n {
      forall j | 0 <= j < |acc + [i]|
        ensures (acc + [i])[j] < n
      {
        if j < |acc| {
          assert (acc + [i])[j] == acc[j];
        }
      }
    }
  }

  lemma WireAccepts(sent: seq<Packet>, seqNo: nat, acc: seq<nat>, ackNo: nat, i: nat)
    requires Wire(sent, seqNo, acc, ackNo) && i < |sent|
    ensures Wire(sent, seqNo, acc + [i], U32(sent[i].seqNo + Extent(sent[i].body)))
  {
    NotedAck(sent, i);
    AccAppends(acc, i, |sent|);
  }

  lemma WireGrows(
    sent: seq<Packet>, seqNo: nat, acc: seq<nat>, ackNo: nat, sent': seq<Packet>, seqNo': nat, more: seq<Body>)
    requires Wire(sent, seqNo, acc, ackNo)
    requires Sender(sent', seqNo') && Bodies(sent') == Bodies(sent) + more
    ensures Wire(sent', seqNo', acc, ackNo) && |sent'| == |sent| + |more|
  {
    LongerHistory(sent, sent', more, Next(acc));
  }

  lemma ScriptGrows(script: seq<Body>, a: seq<Packet>, b: seq<Packet>)
    requires |a| <= |script| && forall i | 0 <= i < |a| :: a[i].body == script[i]
    requires Bodies(b) == Bodies(a) + script[|a|..][..Min(1, |script| - |a|)]
    ensures |b| == Min(|a| + 1, |script|) && forall i | 0 <= i < |b| :: b[i].body == script[i]
  {
    var more := script[|a|..][..Min(1, |script| - |a|)];
    BodiesPrefix(a, b, more);
    forall i | 0 <= i < |b|
      ensures b[i].body == script[i]
    {
      if i < |a| {
        assert b[i].body == a[i].body;
      } else {
        assert b[|a| + 0].body == more[0] == script[|a|];
      }
    }
  }

  lemma ServerAccepts(env: Env, name: Name, sys: Sys, i: nat, t: Server)
    requires Inv(env, name, sys) && i < |sys.client.sent| && sys.server.alive
    requires S.Replies(env, name, sys.server, sys.client.sent[i], t)
    requires sys.sAcc == [] || |sys.client.sent| > 1
    requires if Opens(env, name)
             then t.alive && (t.state == SynAckSent || t.state == Established) && OnScript(env, name, t)
             else !t.alive
    ensures Inv(env, name, sys.(server := t, sAcc := sys.sAcc + [i]))
  {
    ServerSideGoesOn(env, name, sys.server, sys.sAcc, sys.client.sent[i], i, t);
    ServerWires(env, name, sys, i, t);
  }

  lemma ServerWires(env: Env, name: Name, sys: Sys, i: nat, t: Server)
    requires Wires(sys) && i < |sys.client.sent|
    requires S.Replies(env, name, sys.server, sys.client.sent[i], t)
    ensures Wires(sys.(server := t, sAcc := sys.sAcc + [i]))
  {
    var script, s, c := Script(env, name), sys.server, sys.client;
    WireAccepts(c.sent, c.seqNo, sys.sAcc, s.ackNo, i);
    WireGrows(s.sent, s.seqNo, sys.cAcc, c.ackNo, t.sent, t.seqNo, script[|s.sent|..][..Min(1, |script| - |s.sent|)]);
  }

  lemma ServerSideGoesOn(env: Env, name: Name, s: Server, acc: seq<nat>, p: Packet, i: nat, t: Server)
    requires ServerSide(env, name, s, acc) && s.alive
    requires S.Replies(env, name, s, p, t)
    requires if Opens(env, name)
             then t.alive && (t.state == SynAckSent || t.state == Established) && OnScript(env, name, t)
             else !t.alive
    ensures ServerSide(env, name, t, acc + [i])
  {
    ScriptGrows(Script(env, name), s.sent, t.sent);
    AccAppends(acc, i, 0);
  }

  lemma ServerReceives(env: Env, name: Name, sys: Sys, i: nat)
    requires Inv(env, name, sys) && i < |sys.client.sent| && sys.server.alive
    requires !(sys.client.sent[i].seqNo < sys.server.ackNo)
    ensures Inv(env, name, sys.(server := S.Receive(env, sys.server, sys.client.sent[i]), sAcc := sys.sAcc + [i]))
  {
    var p, t := sys.client.sent[i], S.Receive(env, sys.server, sys.client.sent[i]);
    if sys.sAcc == [] {
      NothingAccepted(env, name, sys);
      SynIsAnswered(env, sys.server, p);
    } else {
      SynAcceptedOnce(env, name, sys, i);
      RequestIsAnswered(env, name, sys.server, p);
    }
    ServerAccepts(env, name, sys, i, t);
  }

  /** Nothing moves before the server has accepted the SYN. */
  lemma NothingAccepted(env: Env, name: Name, sys: Sys)
    requires Inv(env, name, sys) && sys.sAcc == []
    ensures sys.server.sent == [] && sys.cAcc == [] && |sys.client.sent| == 1
  {
  }

  lemma AccSnoc(script: seq<Body>, acc: seq<nat>, i: nat)
    requires Within(acc, |script|) && i < |script|
    ensures var rst := script[i].flags.rst;
            && AcksFor(script, acc + [i]) == AcksFor(script, acc) + (if rst then 0 else if acc == [] then 3 else 2)
            && FramesFor(script, acc + [i]) == FramesFor(script, acc) + (if rst then [] else [FrameOf(script[i])])
  {
    assert (acc + [i])[..|acc|] == acc;
  }

  lemma ClientAccepts(env: Env, name: Name, sys: Sys, i: nat, d: Client)
    requires Inv(env, name, sys) && i < |sys.server.sent| && !Done(sys.client)
    requires C.Takes(sys.client, sys.server.sent[i], d)
    requires sys.cAcc == [] ==> i == 0
    requires !Opens(env, name) ==> sys.cAcc == [] && i == 0
    ensures Inv(env, name, sys.(client := d, cAcc := sys.cAcc + [i]))
  {
    var s, c := sys.server, sys.client;
    assert s.sent[i].body == Script(env, name)[i];
    ClientSideGoesOn(env, name, c, sys.cAcc, s.sent[i], i, d);
    ClientWires(name, sys, i, d, |d.sent| - |c.sent|);
    InvWithClient(env, name, sys, d, sys.cAcc + [i]);
  }

  lemma InvWithClient(env: Env, name: Name, sys: Sys, d: Client, acc: seq<nat>)
    requires Inv(env, name, sys) && |d.sent| >= |sys.client.sent|
    requires Wires(sys.(client := d, cAcc := acc)) && ClientPackets(name, d.sent) && ClientSide(env, name, d, acc)
    ensures Inv(env, name, sys.(client := d, cAcc := acc))
  {
  }

  lemma ClientWires(name: Name, sys: Sys, i: nat, d: Client, k: nat)
    requires Wires(sys) && ClientPackets(name, sys.client.sent) && i < |sys.server.sent|
    requires d.ackNo == U32(sys.server.sent[i].seqNo + Extent(sys.server.sent[i].body))
    requires Sender(d.sent, d.seqNo) && Bodies(d.sent) == Bodies(sys.client.sent) + Acks(k)
    ensures Wires(sys.(client := d, cAcc := sys.cAcc + [i])) && ClientPackets(name, d.sent)
    ensures |d.sent| == |sys.client.sent| + k
  {
    var s, c := sys.server, sys.client;
    WireAccepts(s.sent, s.seqNo, sys.cAcc, c.ackNo, i);
    WireGrows(c.sent, c.seqNo, sys.sAcc, s.ackNo, d.sent, d.seqNo, Acks(k));
    MoreAcks(name, c.sent, d.sent, k);
  }

  lemma ClientSideGoesOn(env: Env, name: Name, c: Client, acc: seq<nat>, p: Packet, i: nat, d: Client)
    requires ClientSide(env, name, c, acc) && !Done(c)
    requires i < |Script(env, name)| && p.body == Script(env, name)[i]
    requires C.Takes(c, p, d)
    requires acc == [] ==> i == 0
    requires !Opens(env, name) ==> acc == [] && i == 0
    ensures ClientSide(env, name, d, acc + [i])
    ensures |d.sent| >= |c.sent| && Bodies(d.sent) == Bodies(c.sent) + Acks(|d.sent| - |c.sent|)
  {
    var script := Script(env, name);
    var k := if script[i].flags.rst then 0 else if acc == [] then 3 else 2;
    assert c.state == SynSent <==> acc == [];
    assert |Bodies(d.sent)| == |c.sent| + k;
    AccSnoc(script, acc, i);
    AccAppends(acc, i, |script|);
    ClientLearns(env, name, c, acc, p, i, d);
  }

  lemma ClientLearns(env: Env, name: Name, c: Client, acc: seq<nat>, p: Packet, i: nat, d: Client)
    requires Within(acc, |Script(env, name)|) && ClientPhase(env, name, c, acc) && !Done(c)
    requires i < |Script(env, name)| && p.body == Script(env, name)[i]
    requires C.Takes(c, p, d)
    requires acc == [] ==> i == 0
    requires !Opens(env, name) ==> acc == [] && i == 0
    ensures Within(acc + [i], |Script(env, name)|) && ClientPhase(env, name, d, acc + [i])
  {
    var script, flags := Script(env, name), Script(env, name)[i].flags;
    ScriptShape(env, name);
    AccAppends(acc, i, |script|);
    assert flags.rst ==> i == |script| - 1 && (flags == RST_FIN || flags == RST_ERR);
    assert EndsWith(script, acc + [i], RST_FIN) <==> flags == RST_FIN;
    assert EndsWith(script, acc + [i], RST_ERR) <==> flags == RST_ERR;
    if Opens(env, name) {
      assert i == 0 ==> !flags.rst && script[0].payload == ConfigAck(env.open(name).format);
    }
  }

  lemma ClientReceives(env: Env, name: Name, sys: Sys, i: nat)
    requires Inv(env, name, sys) && i < |sys.server.sent| && !Done(sys.client)
    requires !(sys.server.sent[i].seqNo < sys.client.ackNo)
    ensures Inv(env, name, sys.(client := C.Receive(sys.client, sys.server.sent[i]), cAcc := sys.cAcc + [i]))
  {
    FirstIsSynAck(env, name, sys, i);
    ReceiveTakes(sys.client, sys.server.sent[i]);
    ClientAccepts(env, name, sys, i, C.Receive(sys.client, sys.server.sent[i]));
  }

  /** The first packet that the client accepts is the first one ever sent, and a
      refusal is the only one. */
  lemma FirstIsSynAck(env: Env, name: Name, sys: Sys, i: nat)
    requires Inv(env, name, sys) && i < |sys.server.sent| && !Done(sys.client)
    requires !(sys.server.sent[i].seqNo < sys.client.ackNo)
    ensures sys.cAcc == [] ==> i == 0 && |sys.server.sent| == 1
    ensures !Opens(env, name) ==> sys.cAcc == [] && i == 0
  {
    if sys.server.sent != [] {
      SoleSentOnce(sys.server.sent);
    }
  }

  lemma MoreAcks(name: Name, a: seq<Packet>, b: seq<Packet>, k: nat)
    requires ClientPackets(name, a) && Bodies(b) == Bodies(a) + Acks(k)
    ensures ClientPackets(name, b)
  {
    BodiesPrefix(a, b, Acks(k));
    forall i | 1 <= i < |b|
      ensures b[i].body == Body(ACK, Nothing)
    {
      if i >= |a| {
        assert b[|a| + (i - |a|)].body == Acks(k)[i - |a|];
      }
    }
  }

  lemma BeginInv(env: Env, name: Name)
    ensures Inv(env, name, Begin(name))
  {
    var c := C.Init().(state := SynSent);
    SendSends(c.sent, Packet(c.seqNo, c.ackNo, c.receiveWindow, Body(SYN, Config(0, name))));
    assert Bodies(Begin(name).client.sent)[0] == Body(SYN, Config(0, name));
  }

  /** Every state of every run, whatever the network does. */
  lemma {:induction false} InvHolds(env: Env, name: Name, actions: seq<Action>)
    ensures Inv(env, name, After(env, name, actions))
  {
    if actions == [] {
      BeginInv(env, name);
    } else {
      var sys, a := After(env, name, actions[..|actions| - 1]), actions[|actions| - 1];
      InvHolds(env, name, actions[..|actions| - 1]);
      ActKeepsInv(env, name, sys, a);
    }
  }

  /** The invariant does not speak of the flags that record gaps. */
  lemma GapsDoNotMatter(env: Env, name: Name, sys: Sys, cGap: bool, sGap: bool)
    requires Inv(env, name, sys)
    ensures Inv(env, name, sys.(cGap := cGap, sGap := sGap))
  {
  }

  lemma ReachableInv(env: Env, name: Name, sys: Sys)
    requires Reachable(env, name, sys)
    ensures Inv(env, name, sys)
  {
    var actions :| sys == After(env, name, actions);
    InvHolds(env, name, actions);
  }

  lemma ClientTakesKeepsInv(env: Env, name: Name, sys: Sys, i: nat)
    requires Inv(env, name, sys) && i < |sys.server.sent|
    ensures Inv(env, name, ClientTakes(sys, i))
  {
    var c, p := sys.client, sys.server.sent[i];
    if !Done(c) {
      if p.seqNo < c.ackNo {
        assert C.Receive(c, p) == c;
      } else {
        ClientReceives(env, name, sys, i);
        GapsDoNotMatter(env, name, sys.(client := C.Receive(c, p), cAcc := sys.cAcc + [i]),
                        sys.cGap || p.seqNo > c.ackNo, sys.sGap);
      }
    }
  }

  lemma ServerTakesKeepsInv(env: Env, name: Name, sys: Sys, i: nat)
    requires Inv(env, name, sys) && i < |sys.client.sent|
    ensures Inv(env, name, ServerTakes(env, sys, i))
  {
    var s, p := sys.server, sys.client.sent[i];
    if s.alive {
      if p.seqNo < s.ackNo {
        assert S.Receive(env, s, p) == s;
      } else {
        ServerReceives(env, name, sys, i);
        GapsDoNotMatter(env, name, sys.(server := S.Receive(env, s, p), sAcc := sys.sAcc + [i]),
                        sys.cGap, sys.sGap || p.seqNo > s.ackNo);
      }
    }
  }

  lemma ActKeepsInv(env: Env, name: Name, sys: Sys, a: Action)
    requires Inv(env, name, sys)
    ensures Inv(env, name, NetworkStep(env, sys, a))
  {
    var next := NetworkStep(env, sys, a);
    match a
    case ToClient(i) =>
      if i < |sys.server.sent| {
        ClientTakesKeepsInv(env, name, sys, i);
        assert next == ClientTakes(sys, i);
      } else {
        assert next == sys;
      }
    case ToServer(i) =>
      if i < |sys.client.sent| {
        ServerTakesKeepsInv(env, name, sys, i);
        assert next == ServerTakes(env, sys, i);
      } else {
        assert next == sys;
      }
  }
}
