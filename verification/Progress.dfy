/** Whether what is in flight has room at the receiver, and what one round of retransmission and reply achieves. */
module Progress {
  import opened Wrapping
  import opened ByteStreams
  import opened Segments
  import opened Reassembly
  import opened Receivers
  import opened Senders
  import opened SenderProofs
  import opened Connections
  import opened Links
  import opened Endpoints
  import opened Duplexes
  import opened Networks
  import opened EndToEnd
  import opened ClosedWindow
  import opened GiveUp

  /** The highest edge a receiver can have announced; before the SYN the sender assumes room for the SYN. */
  function KnownEdge(r: Receiver): nat
    requires r.Valid()
  {
    if r.synced then AdvertisedEdge(r) else 1
  }

  /** A segment that passes the known edge is a probe: a single number. */
  predicate ProbeIsOne(s: Sender) {
    s.next == s.edge + 1 && s.inflight != [] ==> SeqLen(s.inflight[|s.inflight| - 1].seg) == 1
  }

  // ---- The probe ----

  /** With room for one number, at most one number is sent. */
  lemma FillOneNumber(s: Sender)
    requires s.stream.Valid() && s.edge == s.next + 1 && s.next >= 1 && s.next != s.finAck
    ensures var r := FillWindow(s);
            r.next == s.next || (r.inflight != [] && SeqLen(r.inflight[|r.inflight| - 1].seg) == 1)
  {
  }

  lemma FillProbe(s: Sender)
    requires SenderInv(s) && (s.next == 0 ==> s.edge == 1) && ProbeIsOne(s)
    ensures ProbeIsOne(FillWindow(s)) && FillWindow(s).edge == s.edge
  {
    if s.next != s.finAck && s.next >= 1 && s.edge <= s.next {
      FillFull(s);
    } else if s.next != s.finAck {
      hide FillWindow, Queued;
      FillWindowKeeps(s);
    }
  }

  lemma {:induction false} PopKeepsLast(s: Sender, a: nat)
    ensures var p := PopAcked(s, a).inflight;
            p != [] ==> s.inflight != [] && p[|p| - 1] == s.inflight[|s.inflight| - 1]
    decreases |s.inflight|
  {
    if s.inflight != [] && s.inflight[0].ackIndex <= a {
      PopKeepsLast(s.(ack := s.inflight[0].ackIndex, inflight := s.inflight[1..]), a);
    }
  }

  lemma TakeAckProbe(s: Sender, a: nat, win: U16)
    requires SenderInv(s) && s.ack <= a <= s.next && ProbeIsOne(s)
    ensures ProbeIsOne(TakeAck(s, a, win))
  {
    TakeAckKeeps(s, a, win);
    PopKeepsLast(s, a);
    PopKeepsStream(s, a);
    hide PopAcked, SenderInv;
  }

  /** A zero-window ack, taken by a sender that had filled its window. */
  lemma ProbeProbe(s: Sender, a: nat)
    requires SenderInv(s) && Filled(s) && s.ack <= a <= s.next && s.next >= 1 && ProbeIsOne(s)
    ensures TakeAck(s, a, 0).stream == s.stream
    ensures ProbeIsOne(FillOrProbe(TakeAck(s, a, 0), 0))
  {
    TakeAckKeeps(s, a, 0);
    TakeAckProbe(s, a, 0);
    hide TakeAck, FillOrProbe, Queued;
    ProbeFill(TakeAck(s, a, 0));
  }

  lemma ProbeFill(s: Sender)
    requires SenderInv(s) && s.next >= 1 && ProbeIsOne(s)
    requires s.next < s.edge ==> s.next == s.finAck || !HasMore(s)
    ensures ProbeIsOne(FillOrProbe(s, 0))
  {
    hide FillWindow, Tiles, AllGenuine;
    var w := s.(edge := s.edge + 1);
    FillWindowKeeps(w);
    if s.next == s.finAck {
      FinalFill(w);
    } else if w.edge <= w.next {
      FillFull(w);
    } else if s.next < s.edge {
      FillIdle(w);
    } else {
      FillOneNumber(w);
    }
  }

  lemma FinalFill(s: Sender)
    requires s.stream.Valid() && s.next == s.finAck
    ensures FillWindow(s) == s
  {
  }

  lemma AckProbe(s: Sender, ackno: U32, win: U16, zero: bool)
    requires SideInv(s, zero) && ProbeIsOne(s) && AbsAck(s, ackno) >= 1
    ensures var s' := AckReceived(s, ackno, win);
            ProbeIsOne(s') && s'.edge <= Max(s.edge, if Accepts(s, ackno) then AbsAck(s, ackno) + win else 0)
  {
    if Accepts(s, ackno) {
      var a := AbsAck(s, ackno);
      TakeAckKeeps(s, a, win);
      TakeAckProbe(s, a, win);
      AckUnfolds(s, ackno, win);
      hide AckReceived, TakeAck, FillWindow, AbsAck, Queued;
      var r := TakeAck(s, a, win);
      if win == 0 {
        ProbeProbe(s, a);
      } else {
        FillProbe(r);
      }
    }
  }

  lemma SegmentProbe(s: Sender, seg: Segment, zero: bool)
    requires SideInv(s, zero) && ProbeIsOne(s) && (seg.ack ==> AbsAck(s, seg.ackno) >= 1)
    ensures var s' := SenderOnSegment(s, seg);
            ProbeIsOne(s') && s'.edge <= Max(s.edge, if seg.ack then AbsAck(s, seg.ackno) + seg.win else 0)
  {
    hide AckReceived, AbsAck, Accepts, SenderInv;
    if seg.ack {
      AckSide(s, seg.ackno, seg.win, zero);
      AckProbe(s, seg.ackno, seg.win, zero);
    }
  }

  // ---- In every run ----

  /** The sender knows no more room than the receiver has announced, and passes it by at most a probe. */
  ghost predicate Roomy(s: Sender, r: Receiver) {
    r.Valid() && s.edge <= KnownEdge(r) && ProbeIsOne(s)
  }

  lemma CleanRoomy(c: Conn, s: Sender, r: Receiver)
    requires c.Valid() && s.stream.Valid() && Roomy(s, r)
    ensures Roomy(Clean(c.(send := s)).conn.send, r)
  {
    hide StampAll;
  }

  lemma FillRoomy(c: Conn, s: Sender, r: Receiver)
    requires c.Valid() && SenderInv(s) && (s.next == 0 ==> s.edge == 1) && Roomy(s, r)
    ensures FillWindow(s).stream.Valid() && Roomy(Clean(c.(send := FillWindow(s))).conn.send, r)
  {
    hide FillWindow, Queued, Clean, ProbeIsOne;
    FillProbe(s);
    FillKeepsStreamValid(s);
    CleanRoomy(c, FillWindow(s), r);
  }

  lemma TickRoomy(c: Conn, ms: nat, r: Receiver)
    requires c.Valid() && c.Active() && Roomy(c.send, r)
    ensures Roomy(OnTick(c, ms).conn.send, r)
  {
    hide StampAll;
  }

  /** An ack from the peer's log announces no more than its receiver has announced by now. */
  lemma SegmentRoomy(c: Conn, p: Conn, mine: seq<Segment>, theirs: seq<Segment>, zero: bool, k: nat)
    requires c.Valid() && c.Active() && SideInv(c.send, zero) && Link(c.send, p.recv, mine, theirs)
    requires p.recv.Valid() && Orderly(theirs, c.send.isn, p.recv) && k < |theirs| && Roomy(c.send, p.recv)
    ensures Roomy(OnSegment(c, theirs[k]).conn.send, p.recv)
  {
    var seg := theirs[k];
    if seg.rst {
      hide ProbeIsOne, KnownEdge;
      assert ProbeIsOne(BadShutdown(c, false).conn.send) by { ErrorProbe(c.send); }
    } else {
      hide SenderOnSegment, ProbeIsOne, SideInv, Receive, Link, StampAll, AbsAck;
      if seg.ack {
        AckBound(c.send, p.recv, mine, theirs, seg);
      }
      SegmentProbe(c.send, seg, zero);
      DrainProbe(SenderOnSegment(c.send, seg));
    }
  }

  lemma ErrorProbe(s: Sender)
    requires ProbeIsOne(s)
    ensures ProbeIsOne(s.(stream := s.stream.(error := true)))
  {
  }

  lemma DrainProbe(s: Sender)
    requires ProbeIsOne(s)
    ensures ProbeIsOne(s.(out := []))
  {
  }

  /** The sending side acts. */
  lemma SenderActs(n: Net, e: Event)
    requires NetInv(n) && Enabled(n, e)
    requires Roomy(n.conn.Get(e.side).send, n.conn.Get(e.side.Other()).recv)
    ensures Roomy(Step(n, e).conn.Get(e.side).send, n.conn.Get(e.side.Other()).recv)
  {
    var c, p, zero := n.conn.Get(e.side), n.conn.Get(e.side.Other()), n.zero.Get(e.side);
    assert Half(c, zero) && Link(c.send, p.recv, n.log.Get(e.side), n.log.Get(e.side.Other()));
    assert p.recv.Valid() && Orderly(n.log.Get(e.side.Other()), c.send.isn, p.recv);
    hide NetInv, FillWindow, OnSegment, OnTick, Clean, Link, Orderly, ProbeIsOne, SenderInv;
    match e
    case Connect(_) => FillRoomy(c, c.send, p.recv);
    case Write(_, data) =>
      WriteKeeps(c.send, data);
      StreamProbe(c.send, WriteStream(c.send, data).stream);
      FillRoomy(c, WriteStream(c.send, data), p.recv);
    case EndInput(_) =>
      EndKeeps(c.send);
      StreamProbe(c.send, EndStream(c.send).stream);
      FillRoomy(c, EndStream(c.send), p.recv);
    case Time(_, ms) => TickRoomy(c, ms, p.recv);
    case AppRead(_, _) =>
    case Deliver(_, k) => SegmentRoomy(c, p, n.log.Get(e.side), n.log.Get(e.side.Other()), zero, k);
  }

  lemma StreamProbe(s: Sender, stream: Stream)
    requires ProbeIsOne(s)
    ensures ProbeIsOne(s.(stream := stream))
  {
  }

  /** What an endpoint's calls make of its receiver. */
  ghost predicate RecvForward(r: Receiver, r': Receiver) {
    r.Valid() ==> r'.Valid() && KnownEdge(r) <= KnownEdge(r')
  }

  lemma ReceiverActs(n: Net, e: Event)
    requires Enabled(n, e)
    ensures RecvForward(n.conn.Get(e.side).recv, Step(n, e).conn.Get(e.side).recv)
  {
    hide FillWindow, OnSegment, OnTick, Clean, ReadOut;
    var c := n.conn.Get(e.side);
    match e
    case Connect(_) => CallRecv(c, c.send);
    case Write(_, data) => CallRecv(c, WriteStream(c.send, data));
    case EndInput(_) => CallRecv(c, EndStream(c.send));
    case Time(_, ms) => TickRecv(c, ms);
    case AppRead(_, len) => ConsumeMonotone(c.recv, len);
    case Deliver(side, k) => DeliverRecv(c, n.log.Get(side.Other())[k]);
  }

  lemma CallRecv(c: Conn, s: Sender)
    requires c.Valid() && s.stream.Valid()
    ensures FillWindow(s).stream.Valid() && Clean(c.(send := FillWindow(s))).conn.recv == c.recv
  {
    hide FillWindow, StampAll;
    FillKeepsStreamValid(s);
  }

  lemma TickRecv(c: Conn, ms: nat)
    requires c.Valid() && c.Active()
    ensures RecvForward(c.recv, OnTick(c, ms).conn.recv)
  {
    hide StampAll, Tick;
    TickKeepsStream(c.send, ms);
  }

  lemma DeliverRecv(c: Conn, seg: Segment)
    requires c.Valid() && c.Active()
    ensures RecvForward(c.recv, OnSegment(c, seg).conn.recv)
  {
    hide SenderOnSegment, StampAll, Receive;
    ReceiveMonotone(c.recv, seg);
  }

  lemma StepRoomy(n: Net, e: Event, side: Side)
    requires NetInv(n) && Enabled(n, e) && Roomy(n.conn.Get(side).send, n.conn.Get(side.Other()).recv)
    ensures Roomy(Step(n, e).conn.Get(side).send, Step(n, e).conn.Get(side.Other()).recv)
  {
    hide NetInv, Step, ProbeIsOne, KnownEdge;
    ActKeeps(n, e);
    StepPeer(n, e);
    if e.side == side {
      SenderActs(n, e);
    } else {
      ReceiverActs(n, e);
    }
  }

  lemma {:induction false} RunRoomy(n: Net, es: seq<Event>, side: Side)
    requires NetInv(n) && ValidRun(n, es) && Roomy(n.conn.Get(side).send, n.conn.Get(side.Other()).recv)
    ensures Roomy(Run(n, es).conn.Get(side).send, Run(n, es).conn.Get(side.Other()).recv)
    decreases |es|
  {
    hide NetInv, Step, Enabled, Roomy;
    if es == [] {
    } else {
      StepRoomy(n, es[0], side);
      StepKeeps(n, es[0]);
      RunRoomy(Step(n, es[0]), es[1..], side);
    }
  }

  lemma RoomInAnyRun(cfg: Pair<Config>, es: seq<Event>, side: Side)
    requires Reached(cfg, es)
    ensures Roomy(SenderOf(Run(Start(cfg), es), side), ReceiverOf(Run(Start(cfg), es), side))
  {
    StartInv(cfg);
    hide Run, ValidRun, NetInv;
    RunRoomy(Start(cfg), es, side);
  }

  /** In every run: the sender's window never reaches past what its peer's receiver has announced, nothing sent
      passes it by more than one number, and whenever the peer's window is open, the oldest segment in flight has
      room there to its end. */
  lemma SentFits(cfg: Pair<Config>, es: seq<Event>, side: Side)
    requires Reached(cfg, es)
    ensures var n := Run(Start(cfg), es);
            var s, r := SenderOf(n, side), ReceiverOf(n, side);
            && r.Valid() && s.edge <= KnownEdge(r) && s.next <= KnownEdge(r) + 1
            && (s.inflight != [] && WindowSize(r) > 0 ==> s.inflight[0].ackIndex <= AdvertisedEdge(r))
  {
    RoomInAnyRun(cfg, es, side);
    LinkHolds(cfg, es, side);
    hide Run, ValidRun;
    var n := Run(Start(cfg), es);
    FirstFits(SenderOf(n, side), ReceiverOf(n, side), n.log.Get(side), n.log.Get(side.Other()));
  }

  lemma FirstFits(s: Sender, r: Receiver, fwd: seq<Segment>, back: seq<Segment>)
    requires Link(s, r, fwd, back) && Roomy(s, r)
    ensures s.next <= KnownEdge(r) + 1
    ensures s.inflight != [] && WindowSize(r) > 0 ==> s.inflight[0].ackIndex <= AdvertisedEdge(r)
  {
    if s.inflight != [] {
      TilesForward(s.inflight[1..], s.inflight[0].ackIndex, s.next, TextOf(s));
    }
    hide Tiles, AllGenuine, FwdOk, BackOk;
  }

  // ---- One round ----

  /** Once a copy of the piece that ends at `end` has arrived, the receiver has all of it. */
  predicate Completes(r: Receiver, seg: Segment, end: nat)
    requires r.Valid()
  {
    Expected(r) >= end || Welcome(r, seg, end)
  }

  /** A piece that starts no later than the first missing index and fits the window is assembled to its end. */
  lemma PushCovers(r: Reasm, data: seq<Byte>, index: nat, eof: bool)
    requires r.Valid() && index <= r.Cur() && index + |data| <= r.WindowEnd()
    ensures var q := Push(r, data, index, eof);
            q.Cur() >= index + |data| && (eof ==> q.out.ended)
  {
    PushEnd(r, data, index, eof);
    var m := Merged(r, data, index);
    forall i | r.Cur() <= i < index + |data|
      ensures i in m
    {
      InClipped(data, index, r.Cur(), r.WindowEnd(), i);
    }
    assert RunEnd(m, r.Cur(), r.WindowEnd()) >= index + |data|;
  }

  lemma PieceWhole(s: Sender, r: Receiver, seg: Segment, a: nat)
    requires Position(s) && |s.stream.written| < STREAM_LIMIT && RecvOk(r, s) && WindowSize(r) > 0
    requires Piece(seg, a, TextOf(s)) && a <= Expected(r) < a + SeqLen(seg) <= s.next
    requires a + SeqLen(seg) <= AdvertisedEdge(r)
    ensures Expected(Receive(r, seg)) >= a + SeqLen(seg)
  {
    hide Push;
    PieceShape(seg, a, TextOf(s));
    if a == 0 {
      ReceiveMonotone(r, seg);
    } else {
      IndexRecovered(a, s.isn, r.reasm.Cur());
      PushCovers(r.reasm, seg.payload, a - 1, seg.fin);
    }
  }

  lemma PieceCompletesIff(s: Sender, r: Receiver, seg: Segment, a: nat)
    requires Position(s) && |s.stream.written| < STREAM_LIMIT && RecvOk(r, s)
    requires Piece(seg, a, TextOf(s)) && a <= Expected(r) && 0 < SeqLen(seg) && a + SeqLen(seg) <= s.next
    requires WindowSize(r) > 0 ==> a + SeqLen(seg) <= AdvertisedEdge(r)
    ensures Expected(Receive(r, seg)) >= Expected(r)
    ensures Expected(Receive(r, seg)) >= a + SeqLen(seg) <==> Completes(r, seg, a + SeqLen(seg))
  {
    hide Receive, Position, RecvOk;
    PieceShape(seg, a, TextOf(s));
    assert r.Valid() by { RecvValid(r, s); }
    ReceiveMonotone(r, seg);
    if Expected(r) < a + SeqLen(seg) {
      if WindowSize(r) > 0 {
        PieceWhole(s, r, seg, a);
      } else {
        PieceAdvancesIff(s, r, seg, a);
      }
    }
  }

  lemma RecvValid(r: Receiver, s: Sender)
    requires RecvOk(r, s)
    ensures r.Valid()
  {
  }

  /** An expired timer puts the oldest segment on the wire again and changes nothing else of note. */
  lemma Resent(c: Conn, ms: nat)
    requires c.Valid() && c.Active() && c.send.retx < MAX_RETX_ATTEMPTS && c.send.out == []
    requires c.send.ack < c.send.next && c.send.inflight != [] && c.send.elapsed + ms >= c.send.rto
    ensures var o, s := OnTick(c, ms), c.send;
            && o.sent == [Stamp(s.inflight[0].seg, c.recv)]
            && o.conn.Active() && o.conn.recv == c.recv
            && o.conn.send.inflight == s.inflight && o.conn.send.ack == s.ack && o.conn.send.next == s.next
            && o.conn.send.isn == s.isn && o.conn.send.out == []
  {
    TickInFlight(c, ms);
    hide OnTick;
    var out := [c.send.inflight[0].seg];
    assert Tick(c.send, ms).out == out;
    hide Tick;
    assert StampAll(out, c.recv) == [Stamp(out[0], c.recv)];
  }

  lemma AnswerQueued(s: Sender, seg: Segment)
    requires s.stream.Valid() && SeqLen(seg) > 0
    ensures var out := SenderOnSegment(s, seg).out;
            out != [] && !out[|out| - 1].ack && !out[|out| - 1].rst
  {
    hide AckReceived;
  }

  /** Anything that occupies sequence numbers is answered: the last segment out is a bare one, stamped with what
      the receiver has by then. */
  lemma Answered(p: Conn, seg: Segment)
    requires p.Valid() && p.Active() && !seg.rst && SeqLen(seg) > 0
    ensures var o, r := OnSegment(p, seg), Receive(p.recv, seg);
            && o.conn.recv == r && o.sent != []
            && exists x: Segment :: !x.ack && !x.rst && o.sent[|o.sent| - 1] == Stamp(x, r)
  {
    hide SenderOnSegment, Receive, Stamp;
    AbsorbedValid(p, seg);
    AnswerQueued(p.send, seg);
    var out, r := SenderOnSegment(p.send, seg).out, Receive(p.recv, seg);
    assert OnSegment(p, seg).sent == StampAll(out, r);
    assert StampAll(out, r)[|out| - 1] == Stamp(out[|out| - 1], r);
  }

  /** An ack in range raises the last acknowledged number exactly when it covers the oldest segment. */
  lemma AckRaisesIff(c: Conn, seg: Segment)
    requires c.Valid() && c.Active() && SenderInv(c.send) && c.send.inflight != [] && !seg.rst && seg.ack
    requires Accepts(c.send, seg.ackno)
    ensures OnSegment(c, seg).conn.send.ack > c.send.ack <==>
            AbsAck(c.send, seg.ackno) >= c.send.inflight[0].ackIndex
  {
    var s := c.send;
    var a := AbsAck(s, seg.ackno);
    TakeAckKeeps(s, a, seg.win);
    AckUnfolds(s, seg.ackno, seg.win);
    TakeRaisesIff(s, a, seg.win);
    hide AckReceived, TakeAck, FillOrProbe, AbsAck, SenderInv, Receive, StampAll;
    FillOrProbeKeeps(TakeAck(s, a, seg.win), seg.win);
  }

  lemma TakeRaisesIff(s: Sender, a: nat, win: U16)
    requires SenderInv(s) && s.inflight != [] && s.ack <= a
    ensures TakeAck(s, a, win).ack > s.ack <==> a >= s.inflight[0].ackIndex
  {
    if a >= s.inflight[0].ackIndex {
      var s1 := s.(ack := s.inflight[0].ackIndex, inflight := s.inflight[1..]);
      PopAckedKeeps(s1, a);
    }
    hide Piece, AllGenuine;
  }

  /** What the invariant of the pair says about one side. */
  lemma SideFacts(n: Net, side: Side)
    requires NetInv(n)
    ensures var c, r := n.conn.Get(side), n.conn.Get(side.Other()).recv;
            && c.Valid() && SenderInv(c.send) && c.send.out == [] && r.Valid()
            && Link(c.send, r, n.log.Get(side), n.log.Get(side.Other()))
  {
    assert Holds(n, side) && Holds(n, side.Other());
    hide SenderInv, Link, Orderly;
  }

  function Newest(log: seq<Segment>): nat {
    if log == [] then 0 else |log| - 1
  }

  /** The tick. */
  lemma RoundResend(n: Net, side: Side, ms: nat)
    requires NetInv(n)
    requires var c := n.conn.Get(side);
             && c.Active() && c.send.retx < MAX_RETX_ATTEMPTS && c.send.inflight != []
             && c.send.elapsed + ms >= c.send.rto
    ensures Enabled(n, Time(side, ms))
    ensures var n', c := Step(n, Time(side, ms)), n.conn.Get(side);
            var c' := n'.conn.Get(side);
            && NetInv(n') && c'.Active() && c'.send.inflight == c.send.inflight && c'.send.ack == c.send.ack
            && c.recv.Valid()
            && n'.log.Get(side) == n.log.Get(side) + [Stamp(c.send.inflight[0].seg, c.recv)]
            && n'.conn.Get(side.Other()) == n.conn.Get(side.Other())
  {
    hide NetInv, OnTick, Stamp, Queued, Link;
    var c := n.conn.Get(side);
    SideFacts(n, side);
    AckAtMostNext(c.send);
    hide SenderInv;
    Resent(c, ms);
    StepKeeps(n, Time(side, ms));
  }

  /** The log ends with a segment stamped by `r`. */
  ghost predicate LastAnswers(log: seq<Segment>, r: Receiver)
    requires r.Valid()
  {
    log != [] && exists x: Segment :: !x.ack && !x.rst && log[|log| - 1] == Stamp(x, r)
  }

  lemma AnswerLogged(log: seq<Segment>, sent: seq<Segment>, r: Receiver)
    requires r.Valid() && LastAnswers(sent, r)
    ensures LastAnswers(log + sent, r)
  {
    assert (log + sent)[|log + sent| - 1] == sent[|sent| - 1];
  }

  /** The peer gets the repetition. */
  lemma RoundDeliver(n: Net, side: Side, seg: Segment)
    requires NetInv(n) && n.conn.Get(side.Other()).Active() && !seg.rst && SeqLen(seg) > 0
    requires var log := n.log.Get(side); log != [] && log[|log| - 1] == seg
    ensures var e := Deliver(side.Other(), Newest(n.log.Get(side)));
            && Enabled(n, e)
            && var n', p := Step(n, e), n.conn.Get(side.Other());
               && NetInv(n') && n'.conn.Get(side) == n.conn.Get(side)
               && n'.conn.Get(side.Other()).recv == Receive(p.recv, seg)
               && LastAnswers(n'.log.Get(side.Other()), Receive(p.recv, seg))
  {
    hide NetInv, OnSegment, Receive, Link, SenderInv, LastAnswers;
    var p, e := n.conn.Get(side.Other()), Deliver(side.Other(), Newest(n.log.Get(side)));
    SideFacts(n, side.Other());
    Answered(p, seg);
    AnswerLogged(n.log.Get(side.Other()), OnSegment(p, seg).sent, Receive(p.recv, seg));
    StepKeeps(n, e);
  }

  /** What the reply does to the sender. */
  lemma AnswerRaisesIff(c: Conn, r: Receiver, fwd: seq<Segment>, back: seq<Segment>, seg: Segment, x: Segment)
    requires c.Valid() && c.Active() && c.send.inflight != [] && Link(c.send, r, fwd, back) && r.synced
    requires seg in back && r.Valid() && seg == Stamp(x, r) && !x.ack && !x.rst
    ensures OnSegment(c, seg).conn.send.ack > c.send.ack <==> AckIndex(r) >= c.send.inflight[0].ackIndex
  {
    AckBound(c.send, r, fwd, back, seg);
    StampHonest(x, c.send, r);
    hide OnSegment, AbsAck, AbsOf, SenderInv, FwdOk, BackOk, AckNo;
    AckRaisesIff(c, seg);
  }

  /** The sender gets the reply. */
  lemma RoundAnswer(n: Net, side: Side)
    requires NetInv(n)
    requires var c, r := n.conn.Get(side), n.conn.Get(side.Other()).recv;
             && c.Active() && c.send.inflight != [] && r.Valid() && r.synced
             && LastAnswers(n.log.Get(side.Other()), r)
    ensures var e, s := Deliver(side, Newest(n.log.Get(side.Other()))), n.conn.Get(side).send;
            && Enabled(n, e)
            && (Step(n, e).conn.Get(side).send.ack > s.ack <==>
                Expected(n.conn.Get(side.Other()).recv) >= s.inflight[0].ackIndex)
  {
    hide NetInv, OnSegment, Link, SenderInv, Stamp;
    SideFacts(n, side);
    var log, r := n.log.Get(side.Other()), n.conn.Get(side.Other()).recv;
    var x: Segment :| !x.ack && !x.rst && log[|log| - 1] == Stamp(x, r);
    AnswerRaisesIff(n.conn.Get(side), r, n.log.Get(side), log, log[|log| - 1], x);
  }

  /** `n'` is what one round leads to: a tick that lets the timer expire, the delivery of the repetition, and the
      delivery of the peer's last reply. */
  ghost predicate Round(n: Net, side: Side, ms: nat, n': Net) {
    && Enabled(n, Time(side, ms))
    && var n1 := Step(n, Time(side, ms));
       var e1 := Deliver(side.Other(), Newest(n1.log.Get(side)));
       && Enabled(n1, e1)
       && var n2 := Step(n1, e1);
          var e2 := Deliver(side, Newest(n2.log.Get(side.Other())));
          Enabled(n2, e2) && n' == Step(n2, e2)
  }

  /** The repetition at the receiver: it ends up with the whole segment exactly when it completes it. */
  lemma RepetitionCompletesIff(s: Sender, r: Receiver, fwd: seq<Segment>, back: seq<Segment>, seg: Segment)
    requires Link(s, r, fwd, back) && Roomy(s, r) && s.inflight != []
    requires seg.(ack := false, ackno := 0, win := 0) == s.inflight[0].seg.(ack := false, ackno := 0, win := 0)
    ensures !seg.rst && SeqLen(seg) > 0 && Receive(r, seg).synced
    ensures Expected(Receive(r, seg)) >= s.inflight[0].ackIndex <==> Completes(r, seg, s.inflight[0].ackIndex)
  {
    var o := s.inflight[0];
    FirstFits(s, r, fwd, back);
    TilesForward(s.inflight, s.ack, s.next, TextOf(s));
    assert Piece(seg, s.ack, TextOf(s)) && o.ackIndex == s.ack + SeqLen(seg);
    hide Tiles, AllGenuine, FwdOk, BackOk, Roomy;
    PieceCompletesIff(s, r, seg, s.ack);
    if !r.synced {
      PieceShape(seg, 0, TextOf(s));
    }
  }

  lemma RoundFrom(n: Net, side: Side, ms: nat) returns (n': Net)
    requires NetInv(n)
    requires var c, p := n.conn.Get(side), n.conn.Get(side.Other());
             && c.Active() && p.Active() && Roomy(c.send, p.recv)
             && c.send.retx < MAX_RETX_ATTEMPTS && c.send.inflight != [] && c.send.elapsed + ms >= c.send.rto
    ensures Round(n, side, ms, n')
    ensures var s, r := n.conn.Get(side).send, n.conn.Get(side.Other()).recv;
            n'.conn.Get(side).send.ack > s.ack <==> Completes(r, s.inflight[0].seg, s.inflight[0].ackIndex)
  {
    hide NetInv, Step, Enabled, Receive, Link, SenderInv, Roomy, LastAnswers, Completes;
    var c, r := n.conn.Get(side), n.conn.Get(side.Other()).recv;
    SideFacts(n, side);
    RoundResend(n, side, ms);
    var n1 := Step(n, Time(side, ms));
    var seg := Stamp(c.send.inflight[0].seg, c.recv);
    assert n1.log.Get(side)[|n1.log.Get(side)| - 1] == seg;
    RepetitionCompletesIff(c.send, r, n.log.Get(side), n.log.Get(side.Other()), seg);
    RoundDeliver(n1, side, seg);
    var n2 := Step(n1, Deliver(side.Other(), Newest(n1.log.Get(side))));
    RoundAnswer(n2, side);
    n' := Step(n2, Deliver(side, Newest(n2.log.Get(side.Other()))));
    CompletesAnyCopy(r, seg, c.send.inflight[0].seg, c.send.inflight[0].ackIndex);
  }

  lemma CompletesAnyCopy(r: Receiver, seg: Segment, seg': Segment, end: nat)
    requires r.Valid() && seg.(ack := false, ackno := 0, win := 0) == seg'.(ack := false, ackno := 0, win := 0)
    ensures Completes(r, seg, end) <==> Completes(r, seg', end)
  {
    assert seg.syn == seg.(ack := false, ackno := 0, win := 0).syn;
  }

  /** Liveness of one round, from any reached state with both sides active, something in flight and attempts left:
      the round is possible, and it raises the last acknowledged number if and only if the receiver has the
      oldest segment already or can make use of it. With an open window at the peer it always does. */
  lemma RoundRaisesAckIff(cfg: Pair<Config>, es: seq<Event>, side: Side, ms: nat)
    requires Reached(cfg, es)
    requires var n := Run(Start(cfg), es);
             && n.conn.a.Active() && n.conn.b.Active()
             && SenderOf(n, side).inflight != [] && SenderOf(n, side).retx < MAX_RETX_ATTEMPTS
             && SenderOf(n, side).elapsed + ms >= SenderOf(n, side).rto
    ensures var n := Run(Start(cfg), es);
            var s, r := SenderOf(n, side), ReceiverOf(n, side);
            && r.Valid()
            && (exists n' :: Round(n, side, ms, n'))
            && forall n' :: Round(n, side, ms, n') ==>
                 (SenderOf(n', side).ack > s.ack <==> Completes(r, s.inflight[0].seg, s.inflight[0].ackIndex))
  {
    RoomInAnyRun(cfg, es, side);
    Networks.EveryRun(cfg, es);
    hide Run, ValidRun, NetInv, Completes, Round;
    var n := Run(Start(cfg), es);
    var n' := RoundFrom(n, side, ms);
    forall n'' | Round(n, side, ms, n'')
      ensures n'' == n'
    {
      RoundUnique(n, side, ms, n', n'');
    }
  }

  lemma RoundUnique(n: Net, side: Side, ms: nat, x: Net, y: Net)
    requires Round(n, side, ms, x) && Round(n, side, ms, y)
    ensures x == y
  {
    hide Step, Enabled;
  }
}
