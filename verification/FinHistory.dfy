/** When the FIN is sent, read off the history of a run: it goes out if and only if the window had room for it
    when the stream was ended, or an ack was accepted after that. */
module FinHistory {
  import opened Wrapping
  import opened ByteStreams
  import opened Segments
  import opened Receivers
  import opened Senders
  import opened SenderProofs
  import opened Connections
  import opened Links
  import opened Endpoints
  import opened Duplexes
  import opened Networks

  /** The known window holds everything not yet sent and one number more. */
  predicate RoomForFin(s: Sender) {
    s.next >= 1 && s.edge > s.next + |s.stream.written| - s.stream.read
  }

  /** The event ends the stream of `side` while the window has room for the FIN, or makes it accept an ack
      after its stream has ended. */
  ghost predicate CallsForFin(n: Net, e: Event, side: Side)
    requires Enabled(n, e)
  {
    var s := n.conn.Get(side).send;
    match e
    case EndInput(at) => at == side && !s.stream.ended && RoomForFin(s)
    case Deliver(at, k) => at == side && s.stream.ended && AcceptsAck(s, n.log.Get(at.Other())[k])
    case _ => false
  }

  predicate AcceptsAck(s: Sender, seg: Segment) {
    !seg.rst && seg.ack && Accepts(s, seg.ackno)
  }

  /** Some event of the run does. */
  ghost predicate FinCalledFor(n: Net, es: seq<Event>, side: Side)
    requires ValidRun(n, es)
    decreases |es|
  {
    es != [] && (CallsForFin(n, es[0], side) || FinCalledFor(Step(n, es[0]), es[1..], side))
  }

  /** What the history says about the present: `due` tells whether the FIN has been called for. */
  predicate FinHist(s: Sender, due: bool) {
    && (due ==> s.stream.ended)
    && (due && s.ack == s.next ==> s.FinSent())
    && (s.FinSent() ==> due)
  }

  // ---- The sender ----

  /** Ending the stream sends the FIN exactly when the window has room for everything unsent and one more. */
  lemma EndSendsFinIff(s: Sender, zero: bool)
    requires SideInv(s, zero) && !s.FinSent() && s.next >= 1
    ensures FillWindow(EndStream(s)).FinSent() <==> RoomForFin(s)
  {
    EndKeeps(s);
    var e := EndStream(s);
    var n := ReadSize(e.stream, FillSize(e));
    var s0 := e.(stream := StreamRead(e.stream, FillSize(e)));
    assert NextData(e) == e.stream.written[e.next - 1..e.next - 1 + n];
    assert TextOf(s0) == TextOf(e);
    SendDataTiles(s0, NextData(e), FinFits(e));
    hide SendData;
  }

  lemma EndHist(s: Sender, zero: bool, due: bool)
    requires SideInv(s, zero) && FinHist(s, due)
    ensures FinHist(FillWindow(EndStream(s)), due || (!s.stream.ended && RoomForFin(s)))
  {
    if s.stream.ended {
      assert EndStream(s) == s;
      FillNoop(s);
    } else if s.next >= 1 {
      EndSendsFinIff(s, zero);
      EndKeeps(s);
      hide FillWindow, Tiles, AllGenuine;
      FillWindowKeeps(EndStream(s));
    }
  }

  /** Filling without ending: nothing happens after the end, and no FIN before it. */
  lemma FillHist(s: Sender, due: bool)
    requires SenderInv(s) && Started(s) && (s.stream.ended ==> Filled(s)) && FinHist(s, due)
    ensures FinHist(FillWindow(s), due)
  {
    if s.stream.ended {
      FillNoop(s);
    } else {
      hide FillWindow, Tiles, AllGenuine;
      FillWindowKeeps(s);
    }
  }

  /** After the end, an accepted ack that leaves nothing in flight has made the FIN go out: filling was done
      with at least one number of room. */
  lemma AckAfterEnd(s: Sender, ackno: U32, win: U16, zero: bool)
    requires SideInv(s, zero) && s.stream.ended && AbsAck(s, ackno) >= 1 && Accepts(s, ackno)
    ensures var s' := AckReceived(s, ackno, win);
            s'.stream.ended && (s'.ack == s'.next ==> s'.FinSent())
  {
    var a := AbsAck(s, ackno);
    TakeAckKeeps(s, a, win);
    AckUnfolds(s, ackno, win);
    hide AckReceived, TakeAck, FillWindow, AbsAck, Tiles, AllGenuine;
    var r := TakeAck(s, a, win);
    var wide := if win == 0 then r.(edge := r.edge + 1) else r;
    FillWindowKeeps(wide);
    FillFills(wide);
  }

  /** Before the end, no ack brings the FIN out. */
  lemma AckBeforeEnd(s: Sender, ackno: U32, win: U16)
    requires SenderInv(s) && !s.stream.ended
    ensures var s' := AckReceived(s, ackno, win);
            !s'.stream.ended && !s'.FinSent()
  {
    if Accepts(s, ackno) {
      TakeAckKeeps(s, AbsAck(s, ackno), win);
      AckUnfolds(s, ackno, win);
      hide AckReceived, TakeAck, FillOrProbe, AbsAck, Tiles, AllGenuine;
      FillOrProbeKeeps(TakeAck(s, AbsAck(s, ackno), win), win);
    }
  }

  lemma AckHist(s: Sender, ackno: U32, win: U16, zero: bool, due: bool)
    requires SideInv(s, zero) && FinHist(s, due) && AbsAck(s, ackno) >= 1
    ensures FinHist(AckReceived(s, ackno, win), due || (s.stream.ended && Accepts(s, ackno)))
  {
    if !s.stream.ended {
      AckBeforeEnd(s, ackno, win);
    } else if Accepts(s, ackno) {
      AckAfterEnd(s, ackno, win, zero);
    }
    hide FillOrProbe, AbsAck, TakeAck;
  }

  lemma EmptyAckHist(s: Sender, due: bool)
    requires Started(s) && FinHist(s, due)
    ensures FinHist(SendEmptyAck(s), due)
  {
  }

  lemma SegmentHist(s: Sender, seg: Segment, zero: bool, due: bool)
    requires SideInv(s, zero) && FinHist(s, due) && !seg.rst && (seg.ack ==> AbsAck(s, seg.ackno) >= 1)
    ensures FinHist(SenderOnSegment(s, seg), due || (s.stream.ended && AcceptsAck(s, seg)))
  {
    hide AckReceived, AbsAck, Accepts, FinHist, SendEmptyAck;
    if seg.ack {
      AckSide(s, seg.ackno, seg.win, zero);
      AckHist(s, seg.ackno, seg.win, zero, due);
      EmptyAckHist(AckReceived(s, seg.ackno, seg.win), due || (s.stream.ended && Accepts(s, seg.ackno)));
    } else {
      EmptyAckHist(s, due);
    }
  }

  // ---- The endpoint and the run ----

  /** Draining the queue and closing do not touch what the history speaks of. */
  lemma CleanHist(c: Conn, due: bool)
    requires c.Valid() && FinHist(c.send, due)
    ensures FinHist(Clean(c).conn.send, due)
  {
  }

  lemma TickHist(c: Conn, ms: nat, due: bool)
    requires c.Valid() && c.Active() && FinHist(c.send, due)
    ensures FinHist(OnTick(c, ms).conn.send, due)
  {
    hide StampAll;
  }

  /** The acting side. */
  lemma StepHist(n: Net, e: Event, due: bool)
    requires NetInv(n) && Enabled(n, e) && FinHist(n.conn.Get(e.side).send, due)
    ensures FinHist(Step(n, e).conn.Get(e.side).send, due || CallsForFin(n, e, e.side))
  {
    var c, p := n.conn.Get(e.side), n.conn.Get(e.side.Other());
    var s, zero := c.send, n.zero.Get(e.side);
    assert Half(c, zero) && Link(s, p.recv, n.log.Get(e.side), n.log.Get(e.side.Other()));
    hide NetInv, FillWindow, OnSegment, OnTick, Clean, Link, AcceptsAck, FinHist, SenderInv, RoomForFin;
    match e
    case Connect(_) =>
      FillHist(s, due);
      FillKeepsStreamValid(s);
      CleanHist(c.(send := FillWindow(s)), due);
    case Write(_, data) =>
      WriteHist(s, data, zero);
      FillKeepsStreamValid(WriteStream(s, data));
      CleanHist(c.(send := FillWindow(WriteStream(s, data))), false);
    case EndInput(_) =>
      EndHist(s, zero, due);
      FillKeepsStreamValid(EndStream(s));
      CleanHist(c.(send := FillWindow(EndStream(s))), due || CallsForFin(n, e, e.side));
    case Time(_, ms) => TickHist(c, ms, due);
    case AppRead(_, _) =>
    case Deliver(_, k) => DeliverHist(c, p, n.log.Get(e.side), n.log.Get(e.side.Other()), zero, k, due);
  }

  lemma WriteHist(s: Sender, data: seq<Byte>, zero: bool)
    requires SideInv(s, zero) && !s.stream.ended && |s.stream.written| + |data| < STREAM_LIMIT
    ensures FinHist(FillWindow(WriteStream(s, data)), false)
  {
    WriteKeeps(s, data);
    hide FillWindow, Tiles, AllGenuine;
    FillHist(WriteStream(s, data), false);
  }

  lemma DeliverHist(c: Conn, p: Conn, mine: seq<Segment>, theirs: seq<Segment>, zero: bool, k: nat, due: bool)
    requires c.Valid() && c.Active() && SideInv(c.send, zero) && Link(c.send, p.recv, mine, theirs)
    requires k < |theirs| && FinHist(c.send, due)
    ensures FinHist(OnSegment(c, theirs[k]).conn.send, due || (c.send.stream.ended && AcceptsAck(c.send, theirs[k])))
  {
    hide Link, SideInv, Receive, SenderOnSegment, Accepts, AbsAck, StampAll;
    var seg := theirs[k];
    if !seg.rst {
      if seg.ack {
        AckBound(c.send, p.recv, mine, theirs, seg);
      }
      SegmentHist(c.send, seg, zero, due);
    }
  }

  lemma {:induction false} RunHist(n: Net, es: seq<Event>, side: Side, due: bool)
    requires NetInv(n) && ValidRun(n, es) && FinHist(n.conn.Get(side).send, due)
    ensures FinHist(Run(n, es).conn.Get(side).send, due || FinCalledFor(n, es, side))
    decreases |es|
  {
    hide NetInv, Step, Enabled, FinHist;
    if es == [] {
    } else {
      var n' := Step(n, es[0]);
      SideHist(n, es[0], side, due);
      StepKeeps(n, es[0]);
      RunHist(n', es[1..], side, due || CallsForFin(n, es[0], side));
    }
  }

  lemma SideHist(n: Net, e: Event, side: Side, due: bool)
    requires NetInv(n) && Enabled(n, e) && FinHist(n.conn.Get(side).send, due)
    ensures FinHist(Step(n, e).conn.Get(side).send, due || CallsForFin(n, e, side))
  {
    hide NetInv, Step, FinHist;
    if e.side == side {
      StepHist(n, e, due);
    } else {
      ActKeeps(n, e);
      StepPeer(n, e);
    }
  }

  /** In every run, once everything sent by a side has been acknowledged, its FIN is among it if and only if it
      was called for. */
  lemma FinSentIff(cfg: Pair<Config>, es: seq<Event>, side: Side)
    requires cfg.a.recvCapacity > 0 && cfg.b.recvCapacity > 0 && ValidRun(Start(cfg), es)
    requires var s := Run(Start(cfg), es).conn.Get(side).send; s.ack == s.next
    ensures Run(Start(cfg), es).conn.Get(side).send.FinSent() <==> FinCalledFor(Start(cfg), es, side)
  {
    StartHolds(cfg, A);
    StartHolds(cfg, B);
    hide Run, ValidRun, Holds;
    RunHist(Start(cfg), es, side, false);
  }
}
