/** Retransmission timing inside a connection: the back-off bound in every run, and giving up on a silent
    peer (section 5 of RFC 6298; libsponge/tcp_connection.cc `tick`). */
module GiveUp {
  import opened Wrapping
  import opened Segments
  import opened Receivers
  import opened Senders
  import opened SenderProofs
  import opened Connections
  import opened Endpoints
  import opened Duplexes
  import opened Networks

  /** Calls `tick` with each duration in turn until the connection is inactive. */
  ghost function TickRun(c: Conn, ts: seq<nat>): Outcome
    requires c.Valid()
    decreases |ts|
  {
    if ts == [] || !c.Active() then Outcome(c, [])
    else
      TickValid(c, ts[0]);
      var o := OnTick(c, ts[0]);
      var r := TickRun(o.conn, ts[1..]);
      Outcome(r.conn, o.sent + r.sent)
  }

  lemma TickValid(c: Conn, ms: nat)
    requires c.Valid() && c.Active()
    ensures OnTick(c, ms).conn.Valid()
  {
  }

  function Resets(sent: seq<Segment>): nat {
    if sent == [] then 0 else (if sent[0].rst then 1 else 0) + Resets(sent[1..])
  }

  /** Something is in flight and nothing is heard: only time passes. */
  ghost predicate Waiting(c: Conn) {
    && c.Valid() && c.Active()
    && SenderInv(c.send) && TimerInv(c.send)
    && c.send.out == [] && c.send.inflight != [] && c.send.retx <= MAX_RETX_ATTEMPTS
  }

  /** Expiries count towards giving up unless the window is known to be closed; or the attempts are used up. */
  predicate Impatient(s: Sender) {
    s.edge != s.ack || s.retx >= MAX_RETX_ATTEMPTS
  }

  /** Ticks of one millisecond that are certainly enough to give up. */
  function Patience(s: Sender): int {
    if s.retx >= MAX_RETX_ATTEMPTS then 1
    else 256 * s.initialRto - s.rto - s.elapsed + 1
  }

  /** Doubling fewer than eight times stays within a factor of 128. */
  lemma {:induction false} RtoBound(init: nat, n: nat)
    requires n < 8
    ensures init <= init * Pow2(n) <= 128 * init
  {
    Pow2Table();
    if
    case n == 0 => assert init * Pow2(n) == init;
    case n == 1 => assert init * Pow2(n) == init * 2;
    case n == 2 => assert init * Pow2(n) == init * 4;
    case n == 3 => assert init * Pow2(n) == init * 8;
    case n == 4 => assert init * Pow2(n) == init * 16;
    case n == 5 => assert init * Pow2(n) == init * 32;
    case n == 6 => assert init * Pow2(n) == init * 64;
    case n == 7 => assert init * Pow2(n) == init * 128;
  }

  lemma Pow2Table()
    ensures Pow2(0) == 1 && Pow2(1) == 2 && Pow2(2) == 4 && Pow2(3) == 8
    ensures Pow2(4) == 16 && Pow2(5) == 32 && Pow2(6) == 64 && Pow2(7) == 128 && Pow2(8) == 256
  {
    assert Pow2(4) == 2 * Pow2(3);
    assert Pow2(8) == 2 * Pow2(7);
  }

  lemma PatienceBound(c: Conn)
    requires Waiting(c)
    ensures 1 <= Patience(c.send) <= 255 * c.send.initialRto + 1
  {
    if c.send.retx < MAX_RETX_ATTEMPTS {
      RtoBound(c.send.initialRto, c.send.retx);
    }
  }

  /** A segment leaves the queue only as itself: no reset among the repetitions. */
  lemma NoResets(out: seq<Segment>, t: Text, limit: nat, r: Receiver)
    requires AllGenuine(out, t, limit) && r.Valid()
    ensures Resets(StampAll(out, r)) == 0
  {
    forall k | 0 <= k < |out|
      ensures !StampAll(out, r)[k].rst
    {
      assert Genuine(out[k], t, limit);
    }
    NoneIsReset(StampAll(out, r));
  }

  lemma {:induction false} NoneIsReset(sent: seq<Segment>)
    requires forall k :: 0 <= k < |sent| ==> !sent[k].rst
    ensures Resets(sent) == 0
  {
    if sent == [] {
    } else {
      NoneIsReset(sent[1..]);
    }
  }

  lemma {:induction false} ResetsConcat(a: seq<Segment>, b: seq<Segment>)
    ensures Resets(a + b) == Resets(a) + Resets(b)
  {
    if a == [] {
      assert a + b == b;
    } else {
      assert (a + b)[1..] == a[1..] + b;
      ResetsConcat(a[1..], b);
    }
  }

  /** A tick before the last attempt, at the sender: closer to giving up. */
  lemma TickDrainsPatience(s: Sender, ms: nat)
    requires TimerInv(s) && s.inflight != [] && s.edge != s.ack && s.retx < MAX_RETX_ATTEMPTS && ms >= 1
    ensures Patience(Tick(s, ms)) < Patience(s)
  {
    RtoBound(s.initialRto, s.retx);
  }

  /** A tick with something in flight does not close the connection, whatever the streams say. */
  lemma TickInFlight(c: Conn, ms: nat)
    requires c.Valid() && c.Active() && c.send.retx < MAX_RETX_ATTEMPTS && c.send.ack < c.send.next
    ensures Tick(c.send, ms).stream.Valid()
    ensures OnTick(c, ms) ==
            Outcome(c.(now := (c.now + ms) % 0x1_0000_0000, send := Tick(c.send, ms).(out := [])),
                    StampAll(Tick(c.send, ms).out, c.recv))
  {
    hide StampAll;
  }

  lemma TickKeepsQueue(s: Sender, ms: nat)
    ensures var s1 := Tick(s, ms);
            && s1.inflight == s.inflight && s1.ack == s.ack && s1.next == s.next && s1.edge == s.edge
            && s1.initialRto == s.initialRto && s.retx <= s1.retx <= s.retx + 1
            && (s.edge == s.ack ==> s1.retx == s.retx)
  {
  }

  lemma DrainKeepsTimer(s: Sender)
    requires TimerInv(s)
    ensures TimerInv(s.(out := [])) && Patience(s.(out := [])) == Patience(s)
  {
  }

  lemma TickSendsNoReset(c: Conn, ms: nat)
    requires c.Valid() && SenderInv(c.send)
    ensures Resets(StampAll(Tick(c.send, ms).out, c.recv)) == 0
  {
    TickKeeps(c.send, ms);
    hide Tick, StampAll;
    var s1 := Tick(c.send, ms);
    NoResets(s1.out, TextOf(s1), s1.next, c.recv);
  }

  /** A tick before the last attempt: still waiting, and no reset. */
  lemma TickWaits(c: Conn, ms: nat)
    requires Waiting(c) && c.send.retx < MAX_RETX_ATTEMPTS
    ensures var o := OnTick(c, ms);
            && Waiting(o.conn) && Resets(o.sent) == 0
            && o.conn.send.edge == c.send.edge && o.conn.send.ack == c.send.ack
            && (c.send.edge == c.send.ack ==> o.conn.send.retx == c.send.retx)
            && Patience(o.conn.send) == Patience(Tick(c.send, ms))
  {
    var s := c.send;
    AckAtMostNext(s);
    TickInFlight(c, ms);
    TickKeeps(s, ms);
    TickKeepsTimer(s, ms);
    TickKeepsQueue(s, ms);
    TickSendsNoReset(c, ms);
    hide Tick, OnTick, TimerInv, SenderInv, StampAll, Resets, Patience;
    DrainKeeps(Tick(s, ms));
    DrainKeepsTimer(Tick(s, ms));
  }

  /** The last tick: both streams are marked and exactly one reset is sent. */
  lemma TickGivesUp(c: Conn, ms: nat)
    requires c.Valid() && c.Active() && c.send.retx >= MAX_RETX_ATTEMPTS
    ensures var o := OnTick(c, ms);
            && !o.conn.Active() && o.conn.recv.reasm.out.error && o.conn.send.stream.error
            && o.conn.Valid() && |o.sent| == 1 && o.sent[0].rst
  {
  }

  /** The connection has given up: both streams in error, exactly one reset sent. */
  ghost predicate GaveUp(r: Outcome) {
    !r.conn.Active() && r.conn.recv.reasm.out.error && r.conn.send.stream.error && Resets(r.sent) == 1
  }

  lemma LastTick(c: Conn, ts: seq<nat>)
    requires c.Valid() && c.Active() && c.send.retx >= MAX_RETX_ATTEMPTS && ts != []
    ensures GaveUp(TickRun(c, ts))
  {
    var o := OnTick(c, ts[0]);
    TickGivesUp(c, ts[0]);
    hide OnTick;
    assert TickRun(o.conn, ts[1..]) == Outcome(o.conn, []);
    assert o.sent + [] == o.sent == [o.sent[0]];
    assert Resets(o.sent[1..]) == 0;
  }

  /** Giving up terminates: against a silent peer, any ticks of at least one millisecond make an impatient
      connection give up once there are enough of them. */
  lemma {:induction false} SilenceEndsInReset(c: Conn, ts: seq<nat>)
    requires Waiting(c) && Impatient(c.send)
    requires (forall i :: 0 <= i < |ts| ==> ts[i] >= 1) && |ts| >= Patience(c.send)
    ensures GaveUp(TickRun(c, ts))
    decreases |ts|
  {
    PatienceBound(c);
    var o := OnTick(c, ts[0]);
    if c.send.retx >= MAX_RETX_ATTEMPTS {
      LastTick(c, ts);
    } else {
      TickDrainsPatience(c.send, ts[0]);
      TickWaits(c, ts[0]);
      hide OnTick, Patience, SenderInv, TimerInv, Tick;
      SilenceEndsInReset(o.conn, ts[1..]);
      ResetsConcat(o.sent, TickRun(o.conn, ts[1..]).sent);
    }
  }

  /** With the window known to be closed and attempts left, expiries are not counted: no ticks at all, however
      many and however long, make the connection give up. */
  lemma {:induction false} ClosedWindowNeverGivesUp(c: Conn, ts: seq<nat>)
    requires Waiting(c) && !Impatient(c.send)
    ensures var r := TickRun(c, ts);
            Waiting(r.conn) && !Impatient(r.conn.send) && Resets(r.sent) == 0
    decreases |ts|
  {
    if ts == [] {
    } else {
      var o := OnTick(c, ts[0]);
      TickWaits(c, ts[0]);
      hide OnTick, Patience, SenderInv, TimerInv, Tick;
      ClosedWindowNeverGivesUp(o.conn, ts[1..]);
      ResetsConcat(o.sent, TickRun(o.conn, ts[1..]).sent);
    }
  }

  /** So after 255 initial timeouts and one more tick it has given up if and only if it was impatient. */
  lemma SilenceIff(c: Conn, ts: seq<nat>)
    requires Waiting(c) && (forall i :: 0 <= i < |ts| ==> ts[i] >= 1) && |ts| >= 255 * c.send.initialRto + 1
    ensures var r := TickRun(c, ts);
            if Impatient(c.send) then GaveUp(r) else r.conn.Active() && Resets(r.sent) == 0
  {
    PatienceBound(c);
    hide TickRun, Impatient;
    if Impatient(c.send) {
      SilenceEndsInReset(c, ts);
    } else {
      ClosedWindowNeverGivesUp(c, ts);
    }
  }

  // ---- The timer in every run of two endpoints ----

  predicate BackedOff(c: Conn) {
    TimerInv(c.send) && c.send.retx <= MAX_RETX_ATTEMPTS
  }

  lemma CleanBackedOff(c: Conn)
    requires c.Valid() && BackedOff(c)
    ensures BackedOff(Clean(c).conn)
  {
  }

  lemma SegmentBackedOff(c: Conn, seg: Segment)
    requires c.Valid() && c.Active() && SenderInv(c.send) && BackedOff(c)
    ensures BackedOff(OnSegment(c, seg).conn)
  {
    hide AckReceived, SenderInv, Receive, Clean;
    if !seg.rst {
      AbsorbedValid(c, seg);
      AckKeepsTimer(c.send, seg.ackno, seg.win);
      AckKeepsRetx(c.send, seg.ackno, seg.win);
      CleanBackedOff(Absorbed(c, seg));
    }
  }

  lemma AckKeepsRetx(s: Sender, ackno: U32, win: U16)
    requires s.stream.Valid()
    ensures AckReceived(s, ackno, win).retx <= s.retx
  {
    if Accepts(s, ackno) {
      AckUnfolds(s, ackno, win);
      PopKeepsStream(s, AbsAck(s, ackno));
      var r := TakeAck(s, AbsAck(s, ackno), win);
      assert r.retx <= s.retx;
      hide AckReceived, TakeAck, FillWindow;
      FillOnlyGrows(if win == 0 then r.(edge := r.edge + 1) else r);
    }
  }

  lemma TickBackedOff(c: Conn, ms: nat)
    requires c.Valid() && c.Active() && SenderInv(c.send) && BackedOff(c)
    ensures BackedOff(OnTick(c, ms).conn)
  {
    hide SenderInv, TimerInv, Clean;
    TickKeepsTimer(c.send, ms);
    if c.send.retx < MAX_RETX_ATTEMPTS {
      CleanBackedOff(c.(now := (c.now + ms) % 0x1_0000_0000, send := Tick(c.send, ms)));
    } else {
      ErrorKeepsTimer(c.send);
    }
  }

  lemma ErrorKeepsTimer(s: Sender)
    requires TimerInv(s)
    ensures TimerInv(s.(stream := s.stream.(error := true)))
  {
  }

  lemma StepBackedOff(n: Net, e: Event)
    requires Enabled(n, e) && NetInv(n) && BackedOff(n.conn.Get(e.side))
    ensures BackedOff(Step(n, e).conn.Get(e.side))
  {
    var c := n.conn.Get(e.side);
    assert Half(c, n.zero.Get(e.side));
    assert SenderInv(c.send);
    hide SenderInv, NetInv, Half, FillWindow, OnSegment, OnTick, Clean;
    match e
    case Connect(_) => FillBackedOff(c, c.send);
    case Write(_, data) => WriteKeeps(c.send, data); FillBackedOff(c, WriteStream(c.send, data));
    case EndInput(_) => EndKeeps(c.send); FillBackedOff(c, EndStream(c.send));
    case Time(_, ms) => TickBackedOff(c, ms);
    case AppRead(_, _) =>
    case Deliver(side, k) => SegmentBackedOff(c, n.log.Get(side.Other())[k]);
  }

  lemma FillBackedOff(c: Conn, s: Sender)
    requires c.Valid() && SenderInv(s) && TimerInv(s) && s.retx <= MAX_RETX_ATTEMPTS
    ensures FillWindow(s).stream.Valid() && BackedOff(Clean(c.(send := FillWindow(s))).conn)
  {
    FillKeepsTimer(s);
    FillOnlyGrows(s);
    FillKeepsStreamValid(s);
    hide FillWindow, SenderInv;
    CleanBackedOff(c.(send := FillWindow(s)));
  }

  lemma {:induction false} RunBackedOff(n: Net, es: seq<Event>, side: Side)
    requires ValidRun(n, es) && NetInv(n) && BackedOff(n.conn.Get(side))
    ensures BackedOff(Run(n, es).conn.Get(side))
    decreases |es|
  {
    if es == [] {
    } else {
      var n' := Step(n, es[0]);
      if es[0].side == side {
        StepBackedOff(n, es[0]);
      } else {
        ActKeeps(n, es[0]);
        StepPeer(n, es[0]);
      }
      StepKeeps(n, es[0]);
      hide NetInv, Step, BackedOff;
      RunBackedOff(n', es[1..], side);
    }
  }

  /** In every run of two endpoints the timeout is the initial one doubled once per consecutive
      retransmission, at most eight times, and the timer never stands expired between calls. */
  lemma BackOffBounded(cfg: Pair<Config>, es: seq<Event>, side: Side)
    requires cfg.a.recvCapacity > 0 && cfg.b.recvCapacity > 0 && cfg.Get(side).rtTimeout > 0
    requires ValidRun(Start(cfg), es)
    ensures var s := Run(Start(cfg), es).conn.Get(side).send;
            && s.rto == s.initialRto * Pow2(s.retx) && s.rto <= 256 * s.initialRto && s.elapsed < s.rto
            && (s.inflight == [] ==> s.elapsed == 0 && s.retx == 0)
  {
    StartHolds(cfg, A);
    StartHolds(cfg, B);
    TimerInit(cfg.Get(side).isn, cfg.Get(side).rtTimeout, cfg.Get(side).sendCapacity);
    hide NetInv, Run, ValidRun;
    assert NetInv(Start(cfg)) by {
      StartInv(cfg);
    }
    RunBackedOff(Start(cfg), es, side);
    RtoCap(Run(Start(cfg), es).conn.Get(side));
  }

  lemma RtoCap(c: Conn)
    requires BackedOff(c)
    ensures c.send.rto <= 256 * c.send.initialRto
  {
    if c.send.retx < 8 {
      RtoBound(c.send.initialRto, c.send.retx);
    } else {
      Pow2Table();
      assert c.send.initialRto * Pow2(8) == c.send.initialRto * 256;
    }
  }

  lemma StartInv(cfg: Pair<Config>)
    requires cfg.a.recvCapacity > 0 && cfg.b.recvCapacity > 0
    ensures NetInv(Start(cfg))
  {
    StartHolds(cfg, A);
    StartHolds(cfg, B);
  }

  /** Anywhere in any run: if the peer goes silent while something is in flight, 255 initial timeouts and one
      more tick of at least a millisecond each end in one reset and two stream errors if the window is open
      or the attempts are used up, and in an endpoint that still waits otherwise. */
  lemma SilenceInAnyRun(cfg: Pair<Config>, es: seq<Event>, side: Side, ts: seq<nat>)
    requires cfg.a.recvCapacity > 0 && cfg.b.recvCapacity > 0 && cfg.Get(side).rtTimeout > 0
    requires ValidRun(Start(cfg), es)
    requires var c := Run(Start(cfg), es).conn.Get(side);
             && c.Active() && c.send.inflight != []
             && (forall i :: 0 <= i < |ts| ==> ts[i] >= 1) && |ts| >= 255 * c.send.initialRto + 1
    ensures var c := Run(Start(cfg), es).conn.Get(side);
            && c.Valid()
            && (!TickRun(c, ts).conn.Active() <==> Impatient(c.send))
            && (Impatient(c.send) ==> GaveUp(TickRun(c, ts)))
            && (!Impatient(c.send) ==> Resets(TickRun(c, ts).sent) == 0)
  {
    Networks.EveryRun(cfg, es);
    StartInv(cfg);
    TimerInit(cfg.Get(side).isn, cfg.Get(side).rtTimeout, cfg.Get(side).sendCapacity);
    RunBackedOff(Start(cfg), es, side);
    hide Run, ValidRun, TickRun, Impatient;
    var n := Run(Start(cfg), es);
    var c := n.conn.Get(side);
    assert Half(c, n.zero.Get(side));
    SilenceIff(c, ts);
  }
}
