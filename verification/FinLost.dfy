/** Runs into a closed window, and what becomes of them: an endpoint that closes cleanly although its FIN was never
    sent, one that is stuck, and one that waits for ever.

    After a zero-window ack with nothing in flight the sender believes its window full, so ending the stream
    emits nothing; and the test for "both streams over" does not ask whether the FIN went out. */
module FinLost {
  import opened Wrapping
  import opened ByteStreams
  import opened Segments
  import opened Reassembly
  import opened Receivers
  import opened Senders
  import opened Connections
  import opened Links
  import opened Networks
  import opened ClosedWindow
  import opened Endpoints
  import opened GiveUp

  /** Two endpoints and what the first one sends: one segment that exactly fills the second one's buffer. Initial
      sequence numbers, timeouts and the other capacities are arbitrary. */
  datatype Case = Case(a: Config, b: Config, d: seq<Byte>) {
    predicate Ok() {
      1 <= |d| <= MAX_PAYLOAD && b.recvCapacity == |d| <= a.sendCapacity && a.recvCapacity > 0
    }

    function Setup(): Pair<Config> {
      Pair(a, b)
    }

    /** The first endpoint's window, as headers give it. */
    function Win(): U16 {
      Min(0xFFFF, a.recvCapacity)
    }

    function Room(): U16 {
      Min(0xFFFF, |d|)
    }
  }

  /** Handshake, the data that fills the peer's window, and the peer's FIN with window 0. */
  function Prelude(k: Case): seq<Event> {
    [Connect(A), Deliver(B, 0), Deliver(A, 0), Write(A, k.d), Deliver(B, 2), EndInput(B), Deliver(A, 2)]
  }

  /** Then our own end. */
  function Script(k: Case): seq<Event> {
    Prelude(k) + [EndInput(A)]
  }

  // ---- The states passed through ----

  function Snd(c: Config, written: seq<Byte>, read: nat, ended: bool, next: nat, ack: nat, finAck: nat,
               inflight: seq<Outstanding>, edge: nat): Sender
  {
    Sender(c.isn, c.rtTimeout, Stream(written, read, c.sendCapacity, ended, false),
           next, ack, finAck, inflight, edge, 0, c.rtTimeout, 0, [])
  }

  function Rcv(c: Config, peer: Config, written: seq<Byte>, ended: bool, endIdx: nat): Receiver {
    Receiver(Reasm(Stream(written, 0, c.recvCapacity, ended, false), map[], endIdx), true, Wrap(1, peer.isn))
  }

  function Cn(c: Config, r: Receiver, s: Sender, linger: bool): Conn {
    Conn(c.rtTimeout, r, s, 0, 0, false, linger)
  }

  function Syn(c: Config): Outstanding {
    Outstanding(Bare(Wrap(0, c.isn)).(syn := true), 1)
  }

  function Data(k: Case): Outstanding {
    Outstanding(Bare(Wrap(1, k.a.isn)).(payload := k.d), 1 + |k.d|)
  }

  function Fin(c: Config): Outstanding {
    Outstanding(Bare(Wrap(1, c.isn)).(fin := true), 2)
  }

  function A1(k: Case): Conn {
    Cn(k.a, InitReceiver(k.a.recvCapacity), Snd(k.a, [], 0, false, 1, 0, NO_FIN, [Syn(k.a)], 1), true)
  }
  function A2(k: Case): Conn {
    Cn(k.a, Rcv(k.a, k.b, [], false, NO_END), Snd(k.a, [], 0, false, 1, 1, NO_FIN, [], 1 + k.Room()), true)
  }
  function A3(k: Case): Conn {
    Cn(k.a, Rcv(k.a, k.b, [], false, NO_END),
       Snd(k.a, k.d, |k.d|, false, 1 + |k.d|, 1, NO_FIN, [Data(k)], 1 + k.Room()), true)
  }
  function A4(k: Case): Conn {
    Cn(k.a, Rcv(k.a, k.b, [], true, 0),
       Snd(k.a, k.d, |k.d|, false, 1 + |k.d|, 1 + |k.d|, NO_FIN, [], 1 + |k.d|), false)
  }
  function A5(k: Case): Conn {
    A4(k).(send := EndStream(A4(k).send), closed := true)
  }
  function B1(k: Case): Conn {
    Cn(k.b, Rcv(k.b, k.a, [], false, NO_END), Snd(k.b, [], 0, false, 1, 0, NO_FIN, [Syn(k.b)], 1), true)
  }
  function B2(k: Case): Conn {
    Cn(k.b, Rcv(k.b, k.a, k.d, false, NO_END), Snd(k.b, [], 0, false, 1, 1, NO_FIN, [], 1 + k.Win()), true)
  }
  function B3(k: Case): Conn {
    Cn(k.b, Rcv(k.b, k.a, k.d, false, NO_END), Snd(k.b, [], 0, true, 2, 1, 2, [Fin(k.b)], 1 + k.Win()), true)
  }

  /** The acknowledgment number after `n` bytes. */
  function Ack(n: nat, peer: Config): U32 {
    Wrap(n, Wrap(1, peer.isn))
  }

  function SegA0(k: Case): Segment { Syn(k.a).seg.(win := k.Win()) }
  function SegA1(k: Case): Segment { Bare(Wrap(1, k.a.isn)).(ack := true, ackno := Ack(0, k.b), win := k.Win()) }
  function SegA2(k: Case): Segment { Data(k).seg.(ack := true, ackno := Ack(0, k.b), win := k.Win()) }
  function SegA3(k: Case): Segment {
    Bare(Wrap(1 + |k.d|, k.a.isn)).(ack := true, ackno := Ack(1, k.b), win := k.Win())
  }
  function SegB0(k: Case): Segment { Syn(k.b).seg.(ack := true, ackno := Ack(0, k.a), win := k.Room()) }
  function SegB1(k: Case): Segment { Bare(Wrap(1, k.b.isn)).(ack := true, ackno := Ack(|k.d|, k.a), win := 0) }
  function SegB2(k: Case): Segment { Fin(k.b).seg.(ack := true, ackno := Ack(|k.d|, k.a), win := 0) }

  // ---- Pieces of the calculation ----

  lemma StampOne(seg: Segment, r: Receiver)
    requires r.Valid()
    ensures StampAll([seg], r) == [Stamp(seg, r)]
  {
  }

  /** With the stream over and the window open, filling sends the FIN. */
  lemma FillFin(s: Sender)
    requires s.stream.Valid() && s.next >= 1 && s.next != s.finAck && s.next < s.edge < s.next + 0x1_0000
    requires s.stream.Eof()
    ensures FillWindow(s) == SendNew(s, InitSeg(s).(fin := true)).(finAck := s.next + 1)
  {
    assert NextData(s) == [] && StreamRead(s.stream, FillSize(s)) == s.stream;
  }

  /** A little data that fits goes out as one segment. */
  lemma FillOne(s: Sender, data: seq<Byte>)
    requires s.stream.Valid() && s.next >= 1 && s.next != s.finAck && !s.stream.ended
    requires data == s.stream.Buffer() && 0 < |data| <= s.edge - s.next < 0x1_0000 && |data| <= MAX_PAYLOAD
    ensures FillWindow(s) ==
            SendNew(s.(stream := s.stream.(read := |s.stream.written|)), InitSeg(s).(payload := data))
  {
    assert NextData(s) == data;
  }

  /** An ack that covers the single outstanding segment. */
  lemma AckOne(s: Sender, o: Outstanding, a: nat, win: U16, ackno: U32)
    requires s.stream.Valid() && s.inflight == [o] && o.ackIndex == a && s.ack <= a <= s.next && s.next >= 1
    requires AbsAck(s, ackno) == a && s.next != s.finAck
    requires s.stream.read == |s.stream.written| && !s.stream.ended
    ensures AckReceived(s, ackno, win) ==
            s.(ack := a, inflight := [], edge := Max(s.edge, a + win), rto := s.initialRto, retx := 0, elapsed := 0)
  {
    hide Unwrap, FillWindow;
    var p := s.(ack := a, inflight := []);
    assert s.inflight[1..] == [];
    assert PopAcked(p, a) == p;
    assert PopAcked(s, a) == p;
    var r := TakeAck(s, a, win);
    assert r == p.(edge := Max(s.edge, a + win), rto := s.initialRto, retx := 0, elapsed := 0);
    FillIdle(if win == 0 then r.(edge := r.edge + 1) else r);
  }

  /** A delivery, given what receiver and sender make of it. */
  lemma Delivered(c: Conn, seg: Segment, r: Receiver, s: Sender, queued: Segment)
    requires c.Valid() && c.Active() && !seg.rst && s.out == []
    requires Receive(c.recv, seg) == r && SenderOnSegment(c.send, seg) == s.(out := [queued])
    ensures r.Valid()
    ensures OnSegment(c, seg) ==
            Outcome(CheckClose(NoteEarlyFin(c.(last := c.now, recv := r)).(send := s)), [Stamp(queued, r)])
  {
    hide SenderOnSegment, Receive, Stamp;
    StampOne(queued, r);
  }

  /** Ending the stream, given what filling the window then does. */
  lemma Ended(c: Conn, s: Sender, queued: seq<Segment>)
    requires c.Valid() && FillWindow(EndStream(c.send)) == s.(out := queued) && s.out == []
    ensures OnEnd(c) == Outcome(CheckClose(c.(send := s)), StampAll(queued, c.recv))
  {
    hide FillWindow, StampAll;
  }

  /** An ack of everything sent, as the sender reads it. */
  lemma ReadAck(s: Sender, ackno: U32)
    requires 1 <= s.next < STREAM_LIMIT && ackno == Wrap(s.next - 1, Wrap(1, s.isn))
    ensures AbsAck(s, ackno) == s.next
  {
    hide Wrap, Unwrap;
    WrapShift(s.next - 1, s.isn);
    RoundTripIff(s.next, s.isn, s.next);
  }

  // ---- The steps ----

  lemma ConnectA(k: Case)
    requires k.Ok()
    ensures OnConnect(StartConn(k.a)) == Outcome(A1(k), [SegA0(k)])
  {
    hide Wrap, FillWindow, StampAll;
    SynFilled(k);
    StampOne(Syn(k.a).seg, StartConn(k.a).recv);
    SynStamped(k);
    hide Stamp;
  }

  lemma SynFilled(k: Case)
    ensures FillWindow(StartConn(k.a).send) == A1(k).send.(out := [Syn(k.a).seg])
  {
    hide Wrap, SendData;
  }

  lemma SynStamped(k: Case)
    requires k.Ok()
    ensures StartConn(k.a).recv.Valid() && Stamp(Syn(k.a).seg, StartConn(k.a).recv) == SegA0(k)
  {
    hide Wrap;
  }

  /** A SYN synchronises a fresh receiver and brings nothing else. */
  lemma SynReceived(c: Config, peer: Config, seg: Segment)
    requires seg.syn && seg.seqno == Wrap(0, peer.isn) && seg.payload == [] && !seg.fin && c.recvCapacity > 0
    ensures Receive(InitReceiver(c.recvCapacity), seg) == Rcv(c, peer, [], false, NO_END)
  {
    WrapZero(peer.isn);
    hide Wrap, Push;
    PushNothing(InitReceiver(c.recvCapacity).reasm, 0);
  }

  lemma SynAtB(k: Case)
    requires k.Ok()
    ensures StartConn(k.b).Valid() && OnSegment(StartConn(k.b), SegA0(k)) == Outcome(B1(k), [SegB0(k)])
  {
    hide Wrap, Push, Receive;
    var c := StartConn(k.b);
    SynReceived(k.b, k.a, SegA0(k));
    assert SenderOnSegment(c.send, SegA0(k)) == B1(k).send.(out := [Syn(k.b).seg]);
    hide SenderOnSegment;
    Delivered(c, SegA0(k), B1(k).recv, B1(k).send, Syn(k.b).seg);
  }

  lemma SynAckAtA(k: Case)
    requires k.Ok()
    ensures A1(k).Valid() && OnSegment(A1(k), SegB0(k)) == Outcome(A2(k), [SegA1(k)])
  {
    hide Wrap, Receive, SenderOnSegment, OnSegment;
    SynReceived(k.a, k.b, SegB0(k));
    SynAcked(k);
    Delivered(A1(k), SegB0(k), A2(k).recv, A2(k).send, Bare(Wrap(1, k.a.isn)));
  }

  lemma SynAcked(k: Case)
    requires k.Ok()
    ensures A1(k).send.stream.Valid()
    ensures SenderOnSegment(A1(k).send, SegB0(k)) == A2(k).send.(out := [Bare(Wrap(1, k.a.isn))])
  {
    hide AbsAck, AckReceived, Wrap;
    ReadAck(A1(k).send, SegB0(k).ackno);
    AckOne(A1(k).send, Syn(k.a), 1, SegB0(k).win, SegB0(k).ackno);
  }

  lemma WriteAtA(k: Case)
    requires k.Ok()
    ensures A2(k).Valid() && OnWrite(A2(k), k.d) == Outcome(A3(k), [SegA2(k)])
  {
    DataFilled(k);
    hide FillWindow, WriteStream, Wrap;
    StampOne(Data(k).seg, A2(k).recv);
  }

  lemma DataFilled(k: Case)
    requires k.Ok()
    ensures A2(k).send.stream.Valid()
    ensures FillWindow(WriteStream(A2(k).send, k.d)) == A3(k).send.(out := [Data(k).seg])
  {
    hide Wrap;
    var s := WriteStream(A2(k).send, k.d);
    assert s.stream.written == k.d;
    FillOne(s, k.d);
    hide FillWindow;
  }

  /** Data that exactly fills an empty reassembler is assembled at once. */
  lemma PushAll(r: Reasm, d: seq<Byte>)
    requires r.out.written == [] && r.pending == map[] && r.Valid() && r.WindowEnd() == |d| <= MAX_PAYLOAD
    requires !r.out.ended && r.endIdx == NO_END
    ensures Push(r, d, 0, false) == r.(out := r.out.(written := d))
  {
    var m, n := Merged(r, d, 0), |d|;
    var kept := map i | i in m && i > n :: m[i];
    forall i: nat
      ensures i in m <==> i < n
      ensures i in m ==> m[i] == d[i]
    {
      InClipped(d, 0, 0, n, i);
    }
    RunEndUnique(m, 0, n, n);
    assert Bytes(m, 0, n) == d;
    assert kept == map[];
    PushByRun(r, d, 0, false, m, n, d, kept);
  }

  lemma DataAtB(k: Case)
    requires k.Ok()
    ensures B1(k).Valid() && OnSegment(B1(k), SegA2(k)) == Outcome(B2(k), [SegB1(k)])
  {
    hide Wrap;
    DataReceived(k);
    DataAcked(k);
    hide Receive, SenderOnSegment, OnSegment;
    Delivered(B1(k), SegA2(k), B2(k).recv, B2(k).send, Bare(Wrap(1, k.b.isn)));
  }

  lemma DataReceived(k: Case)
    requires k.Ok()
    ensures B1(k).recv.Valid() && Receive(B1(k).recv, SegA2(k)) == B2(k).recv
  {
    PushAll(B1(k).recv.reasm, k.d);
    hide Push, Wrap, Unwrap;
    IndexRecovered(1, k.a.isn, 0);
  }

  lemma DataAcked(k: Case)
    requires k.Ok()
    ensures B1(k).send.stream.Valid()
    ensures SenderOnSegment(B1(k).send, SegA2(k)) == B2(k).send.(out := [Bare(Wrap(1, k.b.isn))])
  {
    hide AbsAck, AckReceived, Wrap;
    ReadAck(B1(k).send, SegA2(k).ackno);
    AckOne(B1(k).send, Syn(k.b), 1, k.Win(), SegA2(k).ackno);
  }

  lemma EndAtB(k: Case)
    requires k.Ok()
    ensures B2(k).Valid() && OnEnd(B2(k)) == Outcome(B3(k), [SegB2(k)])
  {
    hide Wrap;
    var c := B2(k);
    FillFin(EndStream(c.send));
    hide FillWindow, OnEnd;
    Ended(c, B3(k).send, [Fin(k.b).seg]);
    StampOne(Fin(k.b).seg, c.recv);
  }

  lemma PushFin(r: Reasm)
    requires r.out.written == [] && r.pending == map[] && r.Valid() && !r.out.ended
    ensures Push(r, [], 0, true) == r.(out := r.out.(ended := true), endIdx := 0)
  {
    var m := Merged(r, [], 0);
    assert m == map[];
    RunEndUnique(m, 0, r.WindowEnd(), 0);
    PushByRun(r, [], 0, true, m, 0, [], map[]);
    assert r.out.written + [] == r.out.written;
  }

  lemma FinReceived(k: Case)
    requires k.Ok()
    ensures A3(k).recv.Valid() && Receive(A3(k).recv, SegB2(k)) == A4(k).recv
  {
    PushFin(A3(k).recv.reasm);
    hide Push, Wrap, Unwrap;
    IndexRecovered(1, k.b.isn, 0);
  }

  lemma FinAcked(k: Case)
    requires k.Ok()
    ensures A3(k).send.stream.Valid() && AcceptsZero(A3(k), SegB2(k))
    ensures SenderOnSegment(A3(k).send, SegB2(k)) == A4(k).send.(out := [Bare(Wrap(1 + |k.d|, k.a.isn))])
  {
    hide AbsAck, AckReceived, Wrap;
    ReadAck(A3(k).send, SegB2(k).ackno);
    AckOne(A3(k).send, Data(k), 1 + |k.d|, 0, SegB2(k).ackno);
  }

  lemma FinAtA(k: Case)
    requires k.Ok()
    ensures A3(k).Valid() && OnSegment(A3(k), SegB2(k)) == Outcome(A4(k), [SegA3(k)])
    ensures AcceptsZero(A3(k), SegB2(k))
  {
    hide Receive, SenderOnSegment, OnSegment, AcceptsZero, Wrap, Stamp;
    FinReceived(k);
    FinAcked(k);
    FinStamped(k);
    Delivered(A3(k), SegB2(k), A4(k).recv, A4(k).send, Bare(Wrap(1 + |k.d|, k.a.isn)));
  }

  lemma FinStamped(k: Case)
    requires k.Ok()
    ensures A4(k).recv.Valid() && Stamp(Bare(Wrap(1 + |k.d|, k.a.isn)), A4(k).recv) == SegA3(k)
  {
    hide Wrap;
  }

  lemma EndAtA(k: Case)
    requires k.Ok()
    ensures A4(k).Valid() && OnEnd(A4(k)) == Outcome(A5(k), [])
  {
    FillFull(EndStream(A4(k).send));
    hide FillWindow, OnEnd;
    Ended(A4(k), EndStream(A4(k).send), []);
  }

  // ---- The run ----

  function LogA(k: Case): seq<Segment> { [SegA0(k), SegA1(k), SegA2(k), SegA3(k)] }
  function LogB(k: Case): seq<Segment> { [SegB0(k), SegB1(k), SegB2(k)] }

  /** The net with the first `i` and `j` segments sent. */
  function At(k: Case, a: Conn, b: Conn, i: nat, j: nat, zero: bool): Net
    requires i <= 4 && j <= 3
  {
    Net(Pair(a, b), Pair(LogA(k)[..i], LogB(k)[..j]), Pair(zero, false))
  }

  /** One enabled event leads from `n` to `n'`. */
  ghost predicate Leads(n: Net, e: Event, n': Net) {
    Enabled(n, e) && Step(n, e) == n'
  }

  /** A step of the system, given the call's outcome at the side that acts. */
  lemma LeadsBySegment(n: Net, side: Side, k: nat, seg: Segment, o: Outcome, n': Net)
    requires var c := n.conn.Get(side); c.Valid() && c.Active()
    requires k < |n.log.Get(side.Other())| && n.log.Get(side.Other())[k] == seg
    requires OnSegment(n.conn.Get(side), seg) == o
    requires n'.conn == n.conn.Put(side, o.conn) && n'.log == n.log.Put(side, n.log.Get(side) + o.sent)
    requires n'.zero == n.zero.Put(side, n.zero.Get(side) || AcceptsZero(n.conn.Get(side), seg))
    ensures Leads(n, Deliver(side, k), n')
  {
    hide OnSegment, AcceptsZero;
  }

  lemma LeadsByEnd(n: Net, side: Side, o: Outcome, n': Net)
    requires n.conn.Get(side).Valid() && OnEnd(n.conn.Get(side)) == o
    requires n' == Act(n, side, o)
    ensures Leads(n, EndInput(side), n')
  {
    hide OnEnd;
  }

  /** What the logs hold, and how they grow. */
  lemma Logs(k: Case)
    ensures var a, b := LogA(k), LogB(k);
            && a[..0] == [] && a[..1] == [SegA0(k)] && a[..2] == a[..1] + [SegA1(k)]
            && a[..3] == a[..2] + [SegA2(k)] && a[..4] == a[..3] + [SegA3(k)]
            && b[..0] == [] && b[..1] == [SegB0(k)] && b[..2] == b[..1] + [SegB1(k)] && b[..3] == b[..2] + [SegB2(k)]
            && a[0] == SegA0(k) && a[2] == SegA2(k) && b[0] == SegB0(k) && b[1] == SegB1(k) && b[2] == SegB2(k)
  {
  }

  lemma Step1(k: Case)
    requires k.Ok()
    ensures Leads(Start(k.Setup()), Connect(A), At(k, A1(k), StartConn(k.b), 1, 0, false))
  {
    ConnectA(k);
    Logs(k);
    hide OnConnect, A1, SegA0, LogA, LogB;
  }

  lemma Step2(k: Case)
    requires k.Ok()
    ensures Leads(At(k, A1(k), StartConn(k.b), 1, 0, false), Deliver(B, 0), At(k, A1(k), B1(k), 1, 1, false))
  {
    SynAtB(k);
    Logs(k);
    assert !AcceptsZero(StartConn(k.b), SegA0(k)) && StartConn(k.b).Active();
    hide OnSegment, AcceptsZero, Leads, A1, B1, SegA0, SegB0, StartConn, LogA, LogB;
    LeadsBySegment(At(k, A1(k), StartConn(k.b), 1, 0, false), B, 0, SegA0(k), Outcome(B1(k), [SegB0(k)]),
                   At(k, A1(k), B1(k), 1, 1, false));
  }

  lemma Step3(k: Case)
    requires k.Ok()
    ensures Leads(At(k, A1(k), B1(k), 1, 1, false), Deliver(A, 0), At(k, A2(k), B1(k), 2, 1, false))
  {
    SynAckAtA(k);
    Logs(k);
    assert !AcceptsZero(A1(k), SegB0(k)) && A1(k).Active();
    hide OnSegment, AcceptsZero, Leads, A1, A2, B1, SegA1, SegB0, LogA, LogB;
    LeadsBySegment(At(k, A1(k), B1(k), 1, 1, false), A, 0, SegB0(k), Outcome(A2(k), [SegA1(k)]),
                   At(k, A2(k), B1(k), 2, 1, false));
  }

  lemma Step4(k: Case)
    requires k.Ok()
    ensures Leads(At(k, A2(k), B1(k), 2, 1, false), Write(A, k.d), At(k, A3(k), B1(k), 3, 1, false))
  {
    WriteAtA(k);
    Logs(k);
    assert !A2(k).send.stream.ended && A2(k).send.stream.written == [];
    hide OnWrite, A2, A3, B1, SegA2, LogA, LogB;
  }

  lemma Step5(k: Case)
    requires k.Ok()
    ensures Leads(At(k, A3(k), B1(k), 3, 1, false), Deliver(B, 2), At(k, A3(k), B2(k), 3, 2, false))
  {
    DataAtB(k);
    Logs(k);
    assert !AcceptsZero(B1(k), SegA2(k)) && B1(k).Active();
    hide OnSegment, AcceptsZero, Leads, A3, B1, B2, SegA2, SegB1, LogA, LogB;
    LeadsBySegment(At(k, A3(k), B1(k), 3, 1, false), B, 2, SegA2(k), Outcome(B2(k), [SegB1(k)]),
                   At(k, A3(k), B2(k), 3, 2, false));
  }

  lemma Step6(k: Case)
    requires k.Ok()
    ensures Leads(At(k, A3(k), B2(k), 3, 2, false), EndInput(B), At(k, A3(k), B3(k), 3, 3, false))
  {
    hide OnEnd, Leads, A3, B2, B3, SegB2, LogA, LogB, Conn.Valid;
    EndAtB(k);
    Logs(k);
    LeadsByEnd(At(k, A3(k), B2(k), 3, 2, false), B, Outcome(B3(k), [SegB2(k)]), At(k, A3(k), B3(k), 3, 3, false));
  }

  lemma Step7(k: Case)
    requires k.Ok()
    ensures Leads(At(k, A3(k), B3(k), 3, 3, false), Deliver(A, 2), At(k, A4(k), B3(k), 4, 3, true))
  {
    FinAtA(k);
    Logs(k);
    assert A3(k).Active();
    hide OnSegment, AcceptsZero, Leads, A3, A4, B3, SegA3, SegB2, LogA, LogB;
    LeadsBySegment(At(k, A3(k), B3(k), 3, 3, false), A, 2, SegB2(k), Outcome(A4(k), [SegA3(k)]),
                   At(k, A4(k), B3(k), 4, 3, true));
  }

  lemma Step8(k: Case)
    requires k.Ok()
    ensures Leads(At(k, A4(k), B3(k), 4, 3, true), EndInput(A), At(k, A5(k), B3(k), 4, 3, true))
  {
    hide OnEnd, Leads, A4, A5, B3;
    EndAtA(k);
    assert LogA(k)[..4] + [] == LogA(k)[..4];
    LeadsByEnd(At(k, A4(k), B3(k), 4, 3, true), A, Outcome(A5(k), []), At(k, A5(k), B3(k), 4, 3, true));
  }

  lemma Chain(n: Net, e: Event, n': Net, es: seq<Event>)
    requires Leads(n, e, n') && ValidRun(n', es)
    ensures ValidRun(n, [e] + es) && Run(n, [e] + es) == Run(n', es)
  {
    hide Step, Enabled;
    assert ([e] + es)[1..] == es;
  }

  /** The state after the prelude. */
  function Emptied(k: Case): Net {
    At(k, A4(k), B3(k), 4, 3, true)
  }

  /** Whatever comes after the prelude starts from that state. */
  lemma RunPrelude(k: Case, es: seq<Event>)
    requires k.Ok() && ValidRun(Emptied(k), es)
    ensures ValidRun(Start(k.Setup()), Prelude(k) + es)
    ensures Run(Start(k.Setup()), Prelude(k) + es) == Run(Emptied(k), es)
  {
    hide Leads, At, A1, A2, A3, B1, Run, ValidRun, Start, Emptied;
    Step1(k); Step2(k); Step3(k); Step4(k);
    RunFromData(k, es);
    var gs := FromData(es);
    Chain(At(k, A2(k), B1(k), 2, 1, false), Write(A, k.d), At(k, A3(k), B1(k), 3, 1, false), gs);
    gs := [Write(A, k.d)] + gs;
    Chain(At(k, A1(k), B1(k), 1, 1, false), Deliver(A, 0), At(k, A2(k), B1(k), 2, 1, false), gs);
    gs := [Deliver(A, 0)] + gs;
    Chain(At(k, A1(k), StartConn(k.b), 1, 0, false), Deliver(B, 0), At(k, A1(k), B1(k), 1, 1, false), gs);
    gs := [Deliver(B, 0)] + gs;
    Chain(Start(k.Setup()), Connect(A), At(k, A1(k), StartConn(k.b), 1, 0, false), gs);
    PreludeParts(k, es);
  }

  lemma PreludeParts(k: Case, es: seq<Event>)
    ensures Prelude(k) + es ==
            [Connect(A)] + ([Deliver(B, 0)] + ([Deliver(A, 0)] + ([Write(A, k.d)] + FromData(es))))
  {
  }

  /** The second half of the prelude, and what follows. */
  function FromData(es: seq<Event>): seq<Event> {
    [Deliver(B, 2)] + ([EndInput(B)] + ([Deliver(A, 2)] + es))
  }

  lemma RunFromData(k: Case, es: seq<Event>)
    requires k.Ok() && ValidRun(Emptied(k), es)
    ensures ValidRun(At(k, A3(k), B1(k), 3, 1, false), FromData(es))
    ensures Run(At(k, A3(k), B1(k), 3, 1, false), FromData(es)) == Run(Emptied(k), es)
  {
    hide Leads, At, A3, A4, B1, B2, B3, Run, ValidRun;
    Step5(k); Step6(k); Step7(k);
    var gs := es;
    Chain(At(k, A3(k), B3(k), 3, 3, false), Deliver(A, 2), Emptied(k), gs);
    gs := [Deliver(A, 2)] + gs;
    Chain(At(k, A3(k), B2(k), 3, 2, false), EndInput(B), At(k, A3(k), B3(k), 3, 3, false), gs);
    gs := [EndInput(B)] + gs;
    Chain(At(k, A3(k), B1(k), 3, 1, false), Deliver(B, 2), At(k, A3(k), B2(k), 3, 2, false), gs);
  }

  lemma RunOne(n: Net, e: Event, n': Net)
    requires Leads(n, e, n')
    ensures ValidRun(n, [e]) && Run(n, [e]) == n'
  {
    hide Leads, Step, Enabled;
    Chain(n, e, n', []);
    assert [e] + [] == [e];
  }

  /** For any two endpoints and any data that fits one segment and exactly fills the second one's buffer: the run
      is possible, the first endpoint ends inactive and without an error, its data has arrived, and yet it never
      sent its FIN and its peer's inbound stream has not ended. */
  lemma ClosedButFinNeverSent(k: Case)
    requires k.Ok()
    ensures ValidRun(Start(k.Setup()), Script(k))
    ensures var n := Run(Start(k.Setup()), Script(k));
            && !n.conn.a.Active() && !n.conn.a.Errored() && n.conn.b.recv.reasm.out.written == k.d
            && !n.conn.a.send.FinSent() && !n.conn.b.recv.reasm.out.ended
  {
    hide Run, ValidRun, Prelude, Start, Leads, At, A4, A5, B3;
    Step8(k);
    RunOne(Emptied(k), EndInput(A), At(k, A5(k), B3(k), 4, 3, true));
    RunPrelude(k, [EndInput(A)]);
    FinalState(k);
  }

  lemma FinalState(k: Case)
    ensures var n := At(k, A5(k), B3(k), 4, 3, true);
            && !n.conn.a.Active() && !n.conn.a.Errored() && n.conn.b.recv.reasm.out.written == k.d
            && !n.conn.a.send.FinSent() && !n.conn.b.recv.reasm.out.ended
  {
  }

  // ---- A stuck sender, and one that waits for ever ----

  /** The prelude alone leaves the first endpoint active and its sender stuck. */
  lemma StuckIsReached(k: Case)
    requires k.Ok()
    ensures ValidRun(Start(k.Setup()), Prelude(k))
    ensures var c := Run(Start(k.Setup()), Prelude(k)).conn.a; c.Active() && Stuck(c.send)
  {
    hide Prelude, Start;
    assert Prelude(k) + [] == Prelude(k);
    RunPrelude(k, []);
  }

  /** One more byte, written into the closed window. */
  function A6(k: Case, x: Byte): Conn {
    A4(k).(send := Snd(k.a, k.d + [x], |k.d|, false, 1 + |k.d|, 1 + |k.d|, NO_FIN, [], 1 + |k.d|))
  }

  function Probe(k: Case, x: Byte): Outstanding {
    Outstanding(Bare(Wrap(1 + |k.d|, k.a.isn)).(payload := [x]), 2 + |k.d|)
  }

  /** The byte has gone out as a probe. */
  function A7(k: Case, x: Byte): Conn {
    A4(k).(send := Snd(k.a, k.d + [x], |k.d| + 1, false, 2 + |k.d|, 1 + |k.d|, NO_FIN, [Probe(k, x)], 1 + |k.d|))
  }

  lemma WriteStaysIn(k: Case, x: Byte)
    requires k.Ok()
    ensures A4(k).Valid() && OnWrite(A4(k), [x]) == Outcome(A6(k, x), [])
  {
    var s := WriteStream(A4(k).send, [x]);
    assert s == A6(k, x).send;
    FillFull(s);
    hide FillWindow, Wrap;
  }

  /** An ack of everything sent with window 0 makes the waiting byte go out. */
  lemma ZeroAckProbes(k: Case, x: Byte)
    requires k.Ok()
    ensures A6(k, x).send.stream.Valid()
    ensures SenderOnSegment(A6(k, x).send, SegB1(k)) == A7(k, x).send.(out := [Probe(k, x).seg])
  {
    var s := A6(k, x).send;
    hide AbsAck, AckReceived, Wrap;
    ReadAck(s, SegB1(k).ackno);
    assert Accepts(s, SegB1(k).ackno);
    AckUnfolds(s, SegB1(k).ackno, 0);
    assert TakeAck(s, s.next, 0) == s;
    var w := s.(edge := s.edge + 1);
    FillOne(w, [x]);
    hide FillWindow;
  }

  lemma NothingNew(k: Case)
    requires k.Ok()
    ensures A4(k).recv.Valid() && Receive(A4(k).recv, SegB1(k)) == A4(k).recv
  {
    hide Push, Wrap, Unwrap;
    IndexRecovered(1, k.b.isn, 0);
  }

  lemma ProbeAtA(k: Case, x: Byte)
    requires k.Ok()
    ensures A6(k, x).Valid() && A6(k, x).Active()
    ensures var o := OnSegment(A6(k, x), SegB1(k)); o.conn == A7(k, x) && |o.sent| == 1
  {
    NothingNew(k);
    ZeroAckProbes(k, x);
    hide Receive, SenderOnSegment, OnSegment, Stamp, Wrap;
    Delivered(A6(k, x), SegB1(k), A4(k).recv, A7(k, x).send, Probe(k, x).seg);
  }

  /** With one more byte written and an old ack delivered again, the probe is in flight and the endpoint will wait
      for ever: it is not impatient. */
  lemma PatienceIsReached(k: Case, x: Byte)
    requires k.Ok()
    ensures var es := Prelude(k) + [Write(A, [x]), Deliver(A, 1)];
            && ValidRun(Start(k.Setup()), es)
            && var c := Run(Start(k.Setup()), es).conn.a;
               c.Active() && c.send.inflight != [] && !Impatient(c.send)
  {
    hide Run, ValidRun, Prelude, Start, Emptied;
    RunWait(k, x);
    RunPrelude(k, [Write(A, [x]), Deliver(A, 1)]);
  }

  /** After the write; nothing has been sent. */
  function Written(k: Case, x: Byte): Net {
    At(k, A6(k, x), B3(k), 4, 3, true)
  }

  lemma WriteStep(k: Case, x: Byte)
    requires k.Ok()
    ensures Leads(Emptied(k), Write(A, [x]), Written(k, x))
  {
    WriteStaysIn(k, x);
    assert !A4(k).send.stream.ended && A4(k).send.stream.written == k.d;
    hide OnWrite, A4, A6, B3, SegA0, SegA1, SegA2, SegA3, LogB;
    assert LogA(k)[..4] + [] == LogA(k)[..4];
  }

  lemma ProbeStep(k: Case, x: Byte)
    requires k.Ok()
    ensures Enabled(Written(k, x), Deliver(A, 1))
    ensures Step(Written(k, x), Deliver(A, 1)).conn.a == A7(k, x)
  {
    ProbeAtA(k, x);
    hide OnSegment, A6, A7, B3, LogA, SegB0, SegB1, SegB2, AcceptsZero;
  }

  lemma RunWait(k: Case, x: Byte)
    requires k.Ok()
    ensures var es := [Write(A, [x]), Deliver(A, 1)];
            ValidRun(Emptied(k), es) && Run(Emptied(k), es).conn.a == A7(k, x)
  {
    hide Step, Enabled, Emptied, Written, A7, Run, ValidRun;
    WriteStep(k, x);
    ProbeStep(k, x);
    RunOne(Written(k, x), Deliver(A, 1), Step(Written(k, x), Deliver(A, 1)));
    Chain(Emptied(k), Write(A, [x]), Written(k, x), [Deliver(A, 1)]);
    assert [Write(A, [x])] + [Deliver(A, 1)] == [Write(A, [x]), Deliver(A, 1)];
  }
}
