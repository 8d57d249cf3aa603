/** An endpoint whose window is known to be closed while it has nothing in flight. No timer runs and the next
    byte is never offered again, so nothing the endpoint does by itself gets it going: only an ack that reopens
    the window, or that finds something to probe with, does. */
module ClosedWindow {
  import opened Wrapping
  import opened ByteStreams
  import opened Segments
  import opened Receivers
  import opened Senders
  import opened SenderProofs
  import opened Connections
  import opened Endpoints
  import opened Duplexes
  import opened Networks
  import opened FinHistory

  /** Everything sent is acknowledged, the window is full, and the FIN is still to come. */
  predicate Stuck(s: Sender) {
    && s.stream.Valid() && s.next >= 1 && s.next != s.finAck
    && s.inflight == [] && s.edge <= s.next && s.retx < MAX_RETX_ATTEMPTS
  }

  /** There is something to send: unsent bytes, or the FIN. */
  predicate HasMore(s: Sender) {
    s.stream.read < |s.stream.written| || s.stream.ended
  }

  /** Delivering `seg` sets a stuck sender free: it accepts the ack, and either the window opens or the probe
      that a closed window provokes has something to carry. */
  predicate SetsFree(s: Sender, seg: Segment) {
    AcceptsAck(s, seg) && (seg.win > 0 || HasMore(s))
  }

  ghost predicate Frees(n: Net, e: Event, side: Side)
    requires Enabled(n, e)
  {
    e.Deliver? && e.side == side && SetsFree(n.conn.Get(side).send, n.log.Get(side.Other())[e.k])
  }

  /** Some event of the run does. */
  ghost predicate Freed(n: Net, es: seq<Event>, side: Side)
    requires ValidRun(n, es)
    decreases |es|
  {
    es != [] && (Frees(n, es[0], side) || Freed(Step(n, es[0]), es[1..], side))
  }

  /** The next number and the known edge never decrease; `Moved` says that one of them has grown. */
  predicate Forward(s: Sender, r: Sender) {
    s.next <= r.next && s.edge <= r.edge
  }

  predicate Moved(s: Sender, r: Sender) {
    Forward(s, r) && (s.next < r.next || s.edge < r.edge)
  }

  /** `r` is as stuck as `s`. */
  predicate StuckAlike(s: Sender, r: Sender) {
    Stuck(r) && r.next == s.next && r.edge == s.edge
  }

  /** Segments that carry no part of the stream, only acknowledgments. */
  predicate NothingCarried(sent: seq<Segment>) {
    forall k :: 0 <= k < |sent| ==> SeqLen(sent[k]) == 0
  }

  // ---- A stuck sender ----

  /** With nothing to send, filling does nothing. */
  lemma FillIdle(s: Sender)
    requires s.stream.Valid() && s.next >= 1 && s.next != s.finAck && !HasMore(s)
    ensures FillWindow(s) == s
  {
    assert NextData(s) == [] && StreamRead(s.stream, FillSize(s)) == s.stream;
  }

  /** Nor does it when the window is full. */
  lemma FillFull(s: Sender)
    requires s.stream.Valid() && s.next >= 1 && s.next != s.finAck && s.edge <= s.next
    ensures FillWindow(s) == s
  {
    assert NextData(s) == [] && StreamRead(s.stream, FillSize(s)) == s.stream;
  }

  /** A stuck sender accepts only an ack of exactly what it has sent. */
  lemma StuckAck(s: Sender, ackno: U32, win: U16)
    requires SenderInv(s) && Stuck(s) && Accepts(s, ackno)
    ensures AbsAck(s, ackno) == s.next == s.ack == s.edge
    ensures TakeAck(s, s.next, win) == s.(edge := s.next + win)
  {
  }

  lemma StuckStays(s: Sender, ackno: U32, win: U16)
    requires SenderInv(s) && Stuck(s) && Accepts(s, ackno) && win == 0 && !HasMore(s)
    ensures AckReceived(s, ackno, win) == s
  {
    StuckAck(s, ackno, win);
    AckUnfolds(s, ackno, win);
    hide FillWindow, AbsAck, TakeAck, AckReceived;
    FillIdle(s.(edge := s.edge + 1));
  }

  lemma StuckMoves(s: Sender, ackno: U32, win: U16)
    requires SenderInv(s) && Stuck(s) && Accepts(s, ackno) && (win > 0 || HasMore(s))
    ensures Moved(s, AckReceived(s, ackno, win))
  {
    StuckAck(s, ackno, win);
    AckUnfolds(s, ackno, win);
    TakeAckKeeps(s, s.next, win);
    hide FillWindow, AbsAck, TakeAck, AckReceived, Tiles, AllGenuine;
    var r := TakeAck(s, s.next, win);
    if win > 0 {
      FillWindowKeeps(r);
    } else {
      FillWindowKeeps(r.(edge := r.edge + 1));
      FillFills(r.(edge := r.edge + 1));
    }
  }

  /** A delivery to a stuck sender. */
  lemma StuckOnSegment(s: Sender, seg: Segment)
    requires SenderInv(s) && Stuck(s) && !seg.rst
    ensures var s' := SenderOnSegment(s, seg);
            if SetsFree(s, seg) then Moved(s, s')
            else s' == s || s' == s.(out := s.out + [InitSeg(s)])
  {
    hide AckReceived, SenderInv, Accepts;
    if seg.ack && Accepts(s, seg.ackno) {
      if SetsFree(s, seg) {
        StuckMoves(s, seg.ackno, seg.win);
      } else {
        StuckStays(s, seg.ackno, seg.win);
      }
    } else {
      assert seg.ack ==> AckReceived(s, seg.ackno, seg.win) == s by {
        Ignored(s, seg.ackno, seg.win);
      }
    }
  }

  lemma Ignored(s: Sender, ackno: U32, win: U16)
    requires s.stream.Valid()
    ensures Accepts(s, ackno) || AckReceived(s, ackno, win) == s
  {
  }

  // ---- A stuck endpoint ----

  /** What a call makes of a stuck sender that it does not free. */
  predicate Idles(c: Conn, o: Outcome) {
    StuckAlike(c.send, o.conn.send) && o.conn.send.out == [] && o.sent == []
  }

  lemma CleanIdles(c: Conn, s: Sender)
    requires c.Valid() && Stuck(s) && StuckAlike(c.send, s) && s.out == []
    ensures Idles(c, Clean(c.(send := s)))
  {
  }

  lemma WriteIdles(c: Conn, data: seq<Byte>)
    requires c.Valid() && Stuck(c.send) && c.send.out == []
    ensures Idles(c, OnWrite(c, data))
  {
    hide FillWindow, Clean;
    FillFull(WriteStream(c.send, data));
    CleanIdles(c, WriteStream(c.send, data));
  }

  lemma EndIdles(c: Conn)
    requires c.Valid() && Stuck(c.send) && c.send.out == []
    ensures Idles(c, OnEnd(c))
  {
    hide FillWindow, Clean;
    FillFull(EndStream(c.send));
    CleanIdles(c, EndStream(c.send));
  }

  lemma ConnectIdles(c: Conn)
    requires c.Valid() && Stuck(c.send) && c.send.out == []
    ensures Idles(c, OnConnect(c))
  {
    hide FillWindow, Clean;
    FillFull(c.send);
    CleanIdles(c, c.send);
  }

  lemma TickIdles(c: Conn, ms: nat)
    requires c.Valid() && c.Active() && Stuck(c.send) && c.send.out == []
    ensures Idles(c, OnTick(c, ms))
  {
    hide Clean;
    CleanIdles(c.(now := (c.now + ms) % 0x1_0000_0000), c.send);
  }

  /** A delivery frees the sender, or is answered with at most an empty segment. */
  lemma SegmentFreesIff(c: Conn, seg: Segment)
    requires c.Valid() && c.Active() && SenderInv(c.send) && Stuck(c.send) && c.send.out == []
    ensures var o := OnSegment(c, seg);
            if SetsFree(c.send, seg) then Moved(c.send, o.conn.send)
            else StuckAlike(c.send, o.conn.send) && NothingCarried(o.sent)
  {
    hide SenderOnSegment, SenderInv, Receive, SetsFree, Accepts, Clean, Moved, StuckAlike, NothingCarried;
    if seg.rst {
      ResetFreesNothing(c.send, seg);
      ResetIdles(c, seg);
    } else {
      AbsorbedValid(c, seg);
      StuckOnSegment(c.send, seg);
      if SetsFree(c.send, seg) {
        MovedDrained(c.send, Absorbed(c, seg));
      } else {
        CalmDrained(c.send, Absorbed(c, seg));
      }
    }
  }

  lemma ResetIdles(c: Conn, seg: Segment)
    requires c.Valid() && c.Active() && Stuck(c.send) && seg.rst
    ensures StuckAlike(c.send, OnSegment(c, seg).conn.send) && NothingCarried(OnSegment(c, seg).sent)
  {
  }

  lemma MovedDrained(s: Sender, c1: Conn)
    requires c1.Valid() && Moved(s, c1.send)
    ensures Moved(s, Clean(c1).conn.send)
  {
    hide StampAll;
  }

  lemma CalmDrained(s: Sender, c1: Conn)
    requires c1.Valid() && Stuck(s) && s.out == []
    requires c1.send == s || c1.send == s.(out := s.out + [InitSeg(s)])
    ensures StuckAlike(s, Clean(c1).conn.send) && NothingCarried(Clean(c1).sent)
  {
  }

  lemma ResetFreesNothing(s: Sender, seg: Segment)
    requires seg.rst
    ensures !SetsFree(s, seg)
  {
  }

  // ---- One step of a run ----

  /** What a call adds to the wire, and to what the side's log is then. */
  lemma ActLog(n: Net, side: Side, o: Outcome)
    requires NothingCarried(o.sent)
    ensures var log, log' := n.log.Get(side), Act(n, side, o).log.Get(side);
            log <= log' && NothingCarried(log'[|log|..]) && (o.sent == [] ==> log' == log)
  {
    var log := n.log.Get(side);
    assert (log + o.sent)[|log|..] == o.sent;
  }

  /** From stuck to as stuck, with nothing sent but empty segments; with nothing sent at all if `local`. */
  predicate Lulled(n: Net, n': Net, side: Side, local: bool) {
    var log, log' := n.log.Get(side), n'.log.Get(side);
    && StuckAlike(n.conn.Get(side).send, n'.conn.Get(side).send)
    && log <= log' && NothingCarried(log'[|log|..]) && (local ==> log' == log)
  }

  lemma LulledByCall(n: Net, side: Side, o: Outcome)
    requires Idles(n.conn.Get(side), o)
    ensures Lulled(n, Act(n, side, o), side, true)
  {
    hide Stuck;
    ActLog(n, side, o);
  }

  lemma LulledBySegment(n: Net, side: Side, o: Outcome)
    requires StuckAlike(n.conn.Get(side).send, o.conn.send) && NothingCarried(o.sent)
    ensures Lulled(n, Act(n, side, o), side, false)
  {
    hide Stuck;
    ActLog(n, side, o);
  }

  lemma StuckAct(n: Net, e: Event)
    requires NetInv(n) && Enabled(n, e) && Stuck(n.conn.Get(e.side).send)
    ensures if Frees(n, e, e.side) then Moved(n.conn.Get(e.side).send, Step(n, e).conn.Get(e.side).send)
            else Lulled(n, Step(n, e), e.side, !e.Deliver?)
  {
    var c := n.conn.Get(e.side);
    assert Half(c, n.zero.Get(e.side));
    hide NetInv, OnWrite, OnEnd, OnConnect, OnTick, OnSegment, SenderInv, SetsFree, Idles, NothingCarried, StuckAlike;
    match e
    case Connect(_) => ConnectIdles(c); LulledByCall(n, e.side, OnConnect(c));
    case Write(_, data) => WriteIdles(c, data); LulledByCall(n, e.side, OnWrite(c, data));
    case EndInput(_) => EndIdles(c); LulledByCall(n, e.side, OnEnd(c));
    case Time(_, ms) => TickIdles(c, ms); LulledByCall(n, e.side, OnTick(c, ms));
    case AppRead(_, len) => NothingHappens(n, Step(n, e), e.side);
    case Deliver(_, k) =>
      var seg := n.log.Get(e.side.Other())[k];
      SegmentFreesIff(c, seg);
      if !SetsFree(c.send, seg) {
        LulledBySegment(n, e.side, OnSegment(c, seg));
      }
  }

  lemma NothingHappens(n: Net, n': Net, side: Side)
    requires Stuck(n.conn.Get(side).send) && n'.conn.Get(side).send == n.conn.Get(side).send
    requires n'.log.Get(side) == n.log.Get(side)
    ensures Lulled(n, n', side, true)
  {
  }

  /** One step, seen by a side whose sender is stuck. */
  lemma StuckStep(n: Net, e: Event, side: Side)
    requires NetInv(n) && Enabled(n, e) && Stuck(n.conn.Get(side).send)
    ensures if Frees(n, e, side) then Moved(n.conn.Get(side).send, Step(n, e).conn.Get(side).send)
            else Lulled(n, Step(n, e), side, !(e.Deliver? && e.side == side))
  {
    hide NetInv, Step, Stuck, Moved, Lulled, SetsFree;
    if e.side == side {
      StuckAct(n, e);
    } else {
      ActKeeps(n, e);
      StepPeer(n, e);
      NothingHappens(n, Step(n, e), side);
    }
  }

  // ---- Nothing moves back ----

  lemma FillForward(s: Sender)
    requires SenderInv(s)
    ensures Forward(s, FillWindow(s))
  {
    hide FillWindow, Queued;
    FillWindowKeeps(s);
  }

  lemma SegmentForward(s: Sender, seg: Segment)
    requires SenderInv(s)
    ensures Forward(s, SenderOnSegment(s, seg))
  {
    if seg.ack && Accepts(s, seg.ackno) {
      var a := AbsAck(s, seg.ackno);
      TakeAckKeeps(s, a, seg.win);
      AckUnfolds(s, seg.ackno, seg.win);
      hide AckReceived, TakeAck, FillOrProbe, AbsAck, SenderInv;
      FillOrProbeKeeps(TakeAck(s, a, seg.win), seg.win);
    }
  }

  /** Filling after the stream has changed, then draining the queue. */
  lemma CallForward(c: Conn, s: Sender)
    requires c.Valid() && SenderInv(s) && s.next == c.send.next && s.edge == c.send.edge
    ensures FillWindow(s).stream.Valid() && Forward(c.send, Clean(c.(send := FillWindow(s))).conn.send)
  {
    hide FillWindow, Queued;
    FillKeepsStreamValid(s);
    FillForward(s);
  }

  lemma TickForward(c: Conn, ms: nat)
    requires c.Valid() && c.Active()
    ensures Forward(c.send, OnTick(c, ms).conn.send)
  {
  }

  lemma DeliverForward(c: Conn, seg: Segment)
    requires c.Valid() && c.Active() && SenderInv(c.send)
    ensures Forward(c.send, OnSegment(c, seg).conn.send)
  {
    hide SenderOnSegment, SenderInv, Receive;
    SegmentForward(c.send, seg);
  }

  lemma ActForward(n: Net, e: Event)
    requires NetInv(n) && Enabled(n, e)
    ensures Forward(n.conn.Get(e.side).send, Step(n, e).conn.Get(e.side).send)
  {
    var c := n.conn.Get(e.side);
    assert Half(c, n.zero.Get(e.side));
    hide NetInv, FillWindow, Clean, OnTick, OnSegment, SenderInv, Forward;
    match e
    case Connect(_) => CallForward(c, c.send);
    case Write(_, data) => WriteKeeps(c.send, data); CallForward(c, WriteStream(c.send, data));
    case EndInput(_) => EndKeeps(c.send); CallForward(c, EndStream(c.send));
    case Time(_, ms) => TickForward(c, ms);
    case AppRead(_, _) => assert Forward(c.send, c.send) by { ForwardSelf(c.send); }
    case Deliver(_, k) => DeliverForward(c, n.log.Get(e.side.Other())[k]);
  }

  lemma ForwardSelf(s: Sender)
    ensures Forward(s, s)
  {
  }

  lemma StepForward(n: Net, e: Event, side: Side)
    requires NetInv(n) && Enabled(n, e)
    ensures Forward(n.conn.Get(side).send, Step(n, e).conn.Get(side).send)
  {
    hide NetInv, Step;
    ActForward(n, e);
    if e.side != side {
      ActKeeps(n, e);
      StepPeer(n, e);
    }
  }

  lemma {:induction false} RunForward(n: Net, es: seq<Event>, side: Side)
    requires NetInv(n) && ValidRun(n, es)
    ensures Forward(n.conn.Get(side).send, Run(n, es).conn.Get(side).send)
    decreases |es|
  {
    hide NetInv, Step, Enabled;
    if es == [] {
    } else {
      StepForward(n, es[0], side);
      StepKeeps(n, es[0]);
      RunForward(Step(n, es[0]), es[1..], side);
    }
  }

  // ---- Runs ----

  /** No event of the run delivers anything to the side: only its own calls happen there. */
  predicate NoDelivery(es: seq<Event>, side: Side) {
    forall i :: 0 <= i < |es| && es[i].Deliver? ==> es[i].side != side
  }

  lemma LulledTrans(n: Net, n1: Net, n2: Net, side: Side, first: bool, rest: bool)
    requires Lulled(n, n1, side, first) && Lulled(n1, n2, side, rest)
    ensures Lulled(n, n2, side, first && rest)
  {
    hide Stuck;
    var log, log1, log2 := n.log.Get(side), n1.log.Get(side), n2.log.Get(side);
    forall k | 0 <= k < |log2[|log|..]|
      ensures SeqLen(log2[|log|..][k]) == 0
    {
      if |log| + k < |log1| {
        assert log2[|log|..][k] == log1[|log|..][k];
      } else {
        assert log2[|log|..][k] == log2[|log1|..][|log| + k - |log1|];
      }
    }
  }

  /** A stuck sender moves on if and only if something frees it; until then it emits only empty segments, and
      nothing at all while nothing is delivered to it. */
  lemma {:induction false} StuckRun(n: Net, es: seq<Event>, side: Side)
    requires NetInv(n) && ValidRun(n, es) && Stuck(n.conn.Get(side).send)
    ensures Moved(n.conn.Get(side).send, Run(n, es).conn.Get(side).send) <==> Freed(n, es, side)
    ensures !Freed(n, es, side) ==> Lulled(n, Run(n, es), side, NoDelivery(es, side))
    ensures NoDelivery(es, side) ==> !Freed(n, es, side)
    decreases |es|
  {
    hide NetInv, Step, Enabled, SetsFree;
    if es == [] {
    } else {
      var n' := Step(n, es[0]);
      StuckStep(n, es[0], side);
      StepKeeps(n, es[0]);
      if Frees(n, es[0], side) {
        RunForward(n', es[1..], side);
      } else {
        StuckRun(n', es[1..], side);
        if !Freed(n', es[1..], side) {
          var local := !(es[0].Deliver? && es[0].side == side);
          LulledTrans(n, n', Run(n', es[1..]), side, local, NoDelivery(es[1..], side));
        }
      }
    }
  }

  /** Anywhere in any run: a stuck sender, whatever calls are made at its endpoint and whatever its peer does,
      moves on if and only if it is given an ack that frees it. */
  lemma StuckUntilFreed(cfg: Pair<Config>, es: seq<Event>, fs: seq<Event>, side: Side)
    requires cfg.a.recvCapacity > 0 && cfg.b.recvCapacity > 0 && ValidRun(Start(cfg), es)
    requires ValidRun(Run(Start(cfg), es), fs) && Stuck(Run(Start(cfg), es).conn.Get(side).send)
    ensures var n := Run(Start(cfg), es);
            var n' := Run(n, fs);
            && (Moved(n.conn.Get(side).send, n'.conn.Get(side).send) <==> Freed(n, fs, side))
            && (!Freed(n, fs, side) ==> Lulled(n, n', side, NoDelivery(fs, side)))
            && (NoDelivery(fs, side) ==> !Freed(n, fs, side))
  {
    Networks.EveryRun(cfg, es);
    hide Run, ValidRun, Freed, NetInv, Lulled, NoDelivery;
    StuckRun(Run(Start(cfg), es), fs, side);
  }

  // ---- Closing without the FIN ----

  /** A stuck endpoint that has nothing unsent closes without its FIN when its peer has finished and it need not
      linger any longer: in the call that ends its stream, or later in any tick. */
  lemma ClosesWithoutFin(c: Conn, ms: nat)
    requires c.Valid() && c.Active() && Stuck(c.send) && c.send.out == []
    requires c.send.stream.read == |c.send.stream.written| && c.send.ack == c.send.next
    ensures var e := OnEnd(c);
            && e.sent == [] && e.conn.send.finAck == c.send.finAck
            && (!e.conn.Active() <==> c.recv.reasm.out.ended && (!c.linger || c.QuietLongEnough()))
    ensures c.send.stream.ended ==>
              var t, later := OnTick(c, ms), c.(now := (c.now + ms) % 0x1_0000_0000);
              && t.sent == [] && t.conn.send == c.send
              && (!t.conn.Active() <==> c.recv.reasm.out.ended && (!c.linger || later.QuietLongEnough()))
  {
    FillFull(EndStream(c.send));
    hide FillWindow;
  }
}
