/** The sending half of a connection (libsponge/tcp_sender.cc) as step functions on values. */
module Senders {
  import opened Wrapping
  import opened ByteStreams
  import opened Segments

  const MAX_PAYLOAD: nat := 1000

  /** Value of `fin_ack_index` until the FIN has been sent. */
  const NO_FIN: nat := 0xFFFF_FFFF_FFFF_FFFF

  /** A segment kept for retransmission, with the absolute number just past it. */
  datatype Outstanding = Outstanding(seg: Segment, ackIndex: nat)

  datatype Sender = Sender(
    isn: U32, initialRto: nat, stream: Stream,
    next: nat, ack: nat, finAck: nat, inflight: seq<Outstanding>, edge: nat,
    retx: nat, rto: nat, elapsed: nat, out: seq<Segment>)
  {
    function BytesInFlight(): int {
      next - ack
    }

    predicate FinSent() {
      finAck != NO_FIN
    }
  }

  function InitSender(isn: U32, rto: nat, capacity: nat): Sender {
    Sender(isn, rto, EmptyStream(capacity), 0, 0, NO_FIN, [], 1, 0, rto, 0, [])
  }

  function InitSeg(s: Sender): Segment {
    Bare(Wrap(s.next, s.isn))
  }

  function SendNew(s: Sender, seg: Segment): Sender {
    s.(out := s.out + [seg],
       next := s.next + SeqLen(seg),
       inflight := s.inflight + [Outstanding(seg, s.next + SeqLen(seg))])
  }

  /** Cuts `data` into full payloads and a last segment, which also carries the FIN if one is due. */
  function SendData(s: Sender, data: seq<Byte>, fin: bool): Sender
    decreases |data|
  {
    if |data| > MAX_PAYLOAD then
      SendData(SendNew(s, InitSeg(s).(payload := data[..MAX_PAYLOAD])), data[MAX_PAYLOAD..], fin)
    else if data != [] || fin then
      var s1 := SendNew(s, InitSeg(s).(payload := data, fin := fin));
      if fin then s1.(finAck := s1.next) else s1
    else s
  }

  /** Room left in the window, as an unsigned 32-bit number. */
  function FillSize(s: Sender): nat {
    if s.edge > s.next then (s.edge - s.next) % 0x1_0000_0000 else 0
  }

  /** The next bytes of the stream that fit the window, and whether the FIN fits behind them. */
  function NextData(s: Sender): seq<Byte>
    requires s.stream.Valid()
  {
    s.stream.Buffer()[..ReadSize(s.stream, FillSize(s))]
  }

  predicate FinFits(s: Sender)
    requires s.stream.Valid()
  {
    StreamRead(s.stream, FillSize(s)).Eof() && |NextData(s)| < FillSize(s)
  }

  function FillWindow(s: Sender): Sender
    requires s.stream.Valid()
  {
    if s.next == s.finAck then s
    else if s.next == 0 then SendNew(s, InitSeg(s).(syn := true))
    else SendData(s.(stream := StreamRead(s.stream, FillSize(s))), NextData(s), FinFits(s))
  }

  /** Drops every outstanding segment that `a` covers entirely. */
  function PopAcked(s: Sender, a: nat): Sender
    decreases |s.inflight|
  {
    if s.inflight != [] && s.inflight[0].ackIndex <= a then
      PopAcked(s.(ack := s.inflight[0].ackIndex, inflight := s.inflight[1..]), a)
    else s
  }

  function AbsAck(s: Sender, ackno: U32): nat {
    Unwrap(ackno, s.isn, To64(s.next))
  }

  /** An ack is acted on unless it is old or names something never sent. */
  predicate Accepts(s: Sender, ackno: U32) {
    s.ack <= AbsAck(s, ackno) <= s.next
  }

  /** Bookkeeping of an accepted ack, before the window is filled again. */
  function TakeAck(s: Sender, a: nat, win: U16): Sender {
    var s1 := PopAcked(s, a);
    var s2 := if |s1.inflight| < |s.inflight| then s1.(rto := s.initialRto, retx := 0, elapsed := 0) else s1;
    s2.(edge := Max(s2.edge, a + win))
  }

  /** A zero window is treated as one number wider while filling: the window probe. */
  function FillOrProbe(s: Sender, win: U16): Sender
    requires s.stream.Valid()
  {
    if win == 0 then FillWindow(s.(edge := s.edge + 1)).(edge := s.edge) else FillWindow(s)
  }

  function AckReceived(s: Sender, ackno: U32, win: U16): Sender
    requires s.stream.Valid()
  {
    if !Accepts(s, ackno) then s
    else
      PopKeepsStream(s, AbsAck(s, ackno));
      FillOrProbe(TakeAck(s, AbsAck(s, ackno), win), win)
  }

  function Tick(s: Sender, ms: nat): Sender {
    if s.inflight == [] then s
    else if s.elapsed + ms < s.rto then s.(elapsed := s.elapsed + ms)
    else
      var s1 := s.(out := s.out + [s.inflight[0].seg], elapsed := 0);
      if s.edge != s.ack then s1.(retx := s.retx + 1, rto := s.rto * 2) else s1
  }

  /** An empty segment; if nothing has been sent yet it is the SYN and is kept for retransmission. */
  function SendEmptyAck(s: Sender): Sender {
    if s.next == 0 then SendNew(s, InitSeg(s).(syn := true))
    else s.(out := s.out + [InitSeg(s)])
  }

  function WriteStream(s: Sender, data: seq<Byte>): Sender
    requires s.stream.Valid()
  {
    s.(stream := StreamWrite(s.stream, data))
  }

  function EndStream(s: Sender): Sender {
    s.(stream := s.stream.(ended := true))
  }

  // ---- What the steps leave alone ----

  /** The fields that popping acknowledged segments cannot change. */
  lemma PopKeepsStream(s: Sender, a: nat)
    ensures var p := PopAcked(s, a);
            p == s.(ack := p.ack, inflight := p.inflight)
    decreases |s.inflight|
  {
    if s.inflight != [] && s.inflight[0].ackIndex <= a {
      PopKeepsStream(s.(ack := s.inflight[0].ackIndex, inflight := s.inflight[1..]), a);
    }
  }

  lemma SendDataKeeps(s: Sender, data: seq<Byte>, fin: bool)
    ensures var r := SendData(s, data, fin);
            r == s.(next := r.next, finAck := r.finAck, inflight := r.inflight, out := r.out)
    decreases |data|
  {
    if |data| > MAX_PAYLOAD {
      SendDataKeeps(SendNew(s, InitSeg(s).(payload := data[..MAX_PAYLOAD])), data[MAX_PAYLOAD..], fin);
    }
  }
}
