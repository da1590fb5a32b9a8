/** sas-core/include/sas/transport.h and PROTOCOL.txt: packets, the byte offsets
    that their sequence numbers stand for, and what the acceptance test
    `header->seq < ack` decides. */
module Transport {
  import opened CInt

  /** `sizeof(struct sas_transport_packet_cfg_ack)`, with its padding. */
  const CONFIG_ACK_SIZE := 8
  const WINDOW_SIZE := 1024
  const MAX_LENGTH := 0xffff

  datatype Phase = Initial | SynReceived | SynSent | SynAckSent | Established | Finished

  datatype Flags = Flags(fin: bool, syn: bool, rst: bool, ack: bool, err: bool)

  datatype Format = Format(sampleRate: int, sampleSize: int, channels: int)

  datatype Payload =
    | Nothing
    | Config(codec: int, name: seq<Byte>)
    | ConfigAck(format: Format)
    | ErrorCode(code: int)
    | Audio(bytes: seq<Byte>)

  datatype Body = Body(flags: Flags, payload: Payload)

  datatype Packet = Packet(seqNo: nat, ackNo: nat, window: nat, body: Body)

  const SYN := Flags(false, true, false, false, false)
  const SYN_ACK := Flags(false, true, false, true, false)
  const ACK := Flags(false, false, false, true, false)
  const DATA := Flags(false, false, false, false, false)
  const RST := Flags(false, false, true, false, false)
  const RST_FIN := Flags(true, false, true, false, false)
  const RST_ERR := Flags(false, false, true, false, true)

  /** The `length` field of a packet. */
  function Length(p: Payload): nat {
    match p
    case Nothing => 0
    case Config(_, name) => 1 + |name|
    case ConfigAck(_) => CONFIG_ACK_SIZE
    case ErrorCode(_) => 4
    case Audio(bytes) => |bytes|
  }

  /** How far a packet moves the sequence number of its sender. */
  function Extent(b: Body): (n: nat)
    ensures n >= 1
  {
    if Length(b.payload) > 0 then Length(b.payload) else 1
  }

  /** The bytes sent before the n-th packet of a history. */
  function Offset(sent: seq<Packet>, n: nat): nat
    requires n <= |sent|
  {
    if n == 0 then 0 else Offset(sent, n - 1) + Extent(sent[n - 1].body)
  }

  /** Every packet carries its own offset, in 32 bits. */
  ghost predicate Stamped(sent: seq<Packet>) {
    forall i {:trigger sent[i].seqNo} | 0 <= i < |sent| :: sent[i].seqNo == U32(Offset(sent, i))
  }

  function Bodies(sent: seq<Packet>): (bodies: seq<Body>)
    ensures |bodies| == |sent| && forall i :: 0 <= i < |sent| ==> bodies[i] == sent[i].body
  {
    seq(|sent|, i requires 0 <= i < |sent| => sent[i].body)
  }

  lemma {:induction false} OffsetOfPrefix(sent: seq<Packet>, more: seq<Packet>, n: nat)
    requires n <= |sent|
    ensures Offset(sent + more, n) == Offset(sent, n)
  {
    if n > 0 {
      OffsetOfPrefix(sent, more, n - 1);
    }
  }

  lemma {:induction false} OffsetIncreases(sent: seq<Packet>, i: nat, k: nat)
    requires i < k <= |sent|
    ensures Offset(sent, i) < Offset(sent, k)
  {
    if i < k - 1 {
      OffsetIncreases(sent, i, k - 1);
    }
  }

  /** A sender: its history is stamped and its `seq` is the end of the history. */
  ghost predicate Sender(sent: seq<Packet>, seqNo: int) {
    Stamped(sent) && seqNo == U32(Offset(sent, |sent|))
  }

  lemma SendKeepsSender(sent: seq<Packet>, p: Packet)
    requires Sender(sent, p.seqNo)
    ensures Sender(sent + [p], U32(p.seqNo + Extent(p.body)))
  {
    StampedSnoc(sent, p);
    NextSeq(sent, p);
  }

  /** What a history has gained. */
  function Since<T>(before: seq<T>, after: seq<T>): seq<T> {
    if |before| <= |after| then after[|before|..] else []
  }

  /** A sender whose history was `before` has sent packets with these bodies. */
  ghost predicate SentMore(before: seq<Packet>, after: seq<Packet>, seqNo: int, bodies: seq<Body>) {
    Bodies(after) == Bodies(before) + bodies && Sender(after, seqNo)
  }

  lemma SendSends(sent: seq<Packet>, p: Packet)
    requires Sender(sent, p.seqNo)
    ensures SentMore(sent, sent + [p], U32(p.seqNo + Extent(p.body)), [p.body])
  {
    SendKeepsSender(sent, p);
    BodiesSnoc(sent, p);
  }

  /** All packets sent since carry this `ack` and one of these windows. */
  ghost predicate AllCarry(before: seq<Packet>, after: seq<Packet>, ackNo: nat, windows: set<nat>) {
    && before <= after
    && forall k | |before| <= k < |after| :: after[k].ackNo == ackNo && after[k].window in windows
  }

  lemma NextSeq(sent: seq<Packet>, p: Packet)
    requires p.seqNo == U32(Offset(sent, |sent|))
    ensures U32(p.seqNo + Extent(p.body)) == U32(Offset(sent + [p], |sent + [p]|))
  {
    var o, e := Offset(sent, |sent|), Extent(p.body);
    OffsetSnoc(sent, p);
    U32Add(o, e);
  }

  lemma BodiesSnoc(sent: seq<Packet>, p: Packet)
    ensures Bodies(sent + [p]) == Bodies(sent) + [p.body]
  {
  }

  lemma OffsetSnoc(sent: seq<Packet>, p: Packet)
    ensures Offset(sent + [p], |sent| + 1) == Offset(sent, |sent|) + Extent(p.body)
  {
    OffsetOfPrefix(sent, [p], |sent|);
  }

  lemma StampedSnoc(sent: seq<Packet>, p: Packet)
    requires Sender(sent, p.seqNo)
    ensures Stamped(sent + [p])
  {
    forall i | 0 <= i < |sent + [p]|
      ensures (sent + [p])[i].seqNo == U32(Offset(sent + [p], i))
    {
      OffsetOfPrefix(sent, [p], i);
      StampAt(sent, p, i);
    }
  }

  lemma StampAt(sent: seq<Packet>, p: Packet, i: nat)
    requires i <= |sent| && (if i < |sent| then sent[i] else p).seqNo == U32(Offset(sent, i))
    ensures (sent + [p])[i].seqNo == U32(Offset(sent, i))
  {
    if i < |sent| {
      assert (sent + [p])[i] == sent[i];
    } else {
      assert (sent + [p])[i] == p;
    }
  }

  // ----- The acceptance test ----------------------------------------------------------

  /** The `ack` of a receiver that has taken note of the first n packets. */
  function AckAt(sent: seq<Packet>, n: nat): int
    requires n <= |sent|
  {
    U32(Offset(sent, n))
  }

  /** The test tells, for every packet and every receiver, whether the receiver
      has already taken note of the packet. */
  ghost predicate AcceptanceExact(sent: seq<Packet>) {
    forall i, n | 0 <= i < |sent| && 0 <= n <= |sent| :: sent[i].seqNo < AckAt(sent, n) <==> i < n
  }

  lemma ExactWithoutWrap(sent: seq<Packet>, i: nat, n: nat)
    requires Stamped(sent) && Offset(sent, |sent|) < TWO_32 && i < |sent| && n <= |sent|
    ensures sent[i].seqNo < AckAt(sent, n) <==> i < n
    ensures sent[i].seqNo == AckAt(sent, n) <==> i == n
  {
    OffsetsFit(sent, i);
    OffsetsFit(sent, n);
    if i < n {
      OffsetIncreases(sent, i, n);
    } else if n < i {
      OffsetIncreases(sent, n, i);
    }
  }

  /** A receiver that has seen the packet across which the offset wraps would
      accept that packet again. */
  lemma WrapIsInexact(sent: seq<Packet>, n: nat)
    requires Stamped(sent) && 0 < n <= |sent| && Offset(sent, n) >= TWO_32 > Offset(sent, n - 1)
    requires Length(sent[n - 1].body.payload) <= MAX_LENGTH
    ensures !(sent[n - 1].seqNo < AckAt(sent, n))
  {
    assert Offset(sent, n) == Offset(sent, n - 1) + Extent(sent[n - 1].body);
    U32WrapsOnce(Offset(sent, n));
  }

  /** The test is exact if and only if the history fits into 32 bits. */
  lemma AcceptanceExactIffNoWrap(sent: seq<Packet>)
    requires Stamped(sent) && forall i | 0 <= i < |sent| :: Length(sent[i].body.payload) <= MAX_LENGTH
    ensures AcceptanceExact(sent) <==> Offset(sent, |sent|) < TWO_32
  {
    if Offset(sent, |sent|) < TWO_32 {
      forall i, n | 0 <= i < |sent| && 0 <= n <= |sent|
        ensures sent[i].seqNo < AckAt(sent, n) <==> i < n
      {
        ExactWithoutWrap(sent, i, n);
      }
    } else {
      var n := FirstWrap(sent, |sent|);
      WrapIsInexact(sent, n);
    }
  }

  lemma OffsetsFit(sent: seq<Packet>, n: nat)
    requires n <= |sent| && Offset(sent, |sent|) < TWO_32
    ensures AckAt(sent, n) == Offset(sent, n)
  {
    if n < |sent| {
      OffsetIncreases(sent, n, |sent|);
    }
  }

  lemma {:induction false} FirstWrap(sent: seq<Packet>, m: nat) returns (n: nat)
    requires m <= |sent| && Offset(sent, m) >= TWO_32
    ensures 0 < n <= m && Offset(sent, n) >= TWO_32 > Offset(sent, n - 1)
  {
    if Offset(sent, m - 1) >= TWO_32 {
      n := FirstWrap(sent, m - 1);
    } else {
      n := m;
    }
  }
}
