/** When an endpoint goes inactive: exactly when all is over, with the silence it has to keep measured in true time
    and the need for it read off the history. */
module Closing {
  import opened Wrapping
  import opened ByteStreams
  import opened Segments
  import opened Receivers
  import opened Senders
  import opened Connections
  import opened Links
  import opened Endpoints
  import opened Duplexes
  import opened Networks
  import opened EndToEnd

  // ---- Silence ----

  function QuietAfter(quiet: nat, e: Event, side: Side): nat {
    if e.side != side then quiet
    else if e.Deliver? then 0
    else if e.Time? then quiet + e.ms
    else quiet
  }

  /** True time at `side` since a segment was last delivered to it. */
  function QuietTime(quiet: nat, es: seq<Event>, side: Side): nat
    decreases |es|
  {
    if es == [] then quiet else QuietTime(QuietAfter(quiet, es[0], side), es[1..], side)
  }

  /** The two 32-bit clocks tell the time modulo 2^32. */
  predicate Aged(c: Conn, quiet: nat) {
    c.SinceLastSegment() == quiet % 0x1_0000_0000
  }

  lemma Later(now: U32, last: U32, quiet: nat, ms: nat, c: Conn, c': Conn)
    requires c.now == now && c.last == last && Aged(c, quiet)
    requires c'.now == (now + ms) % 0x1_0000_0000 && c'.last == last
    ensures Aged(c', quiet + ms)
  {
    var since := c.SinceLastSegment();
    assert (now - last - since) % 0x1_0000_0000 == 0;
    assert (quiet + ms) % 0x1_0000_0000 == (since + ms) % 0x1_0000_0000 by { ModAdd(quiet, ms); }
    SinceLater(now, last, since, ms);
  }

  lemma ModAdd(x: nat, y: nat)
    ensures (x + y) % 0x1_0000_0000 == (x % 0x1_0000_0000 + y) % 0x1_0000_0000
  {
  }

  lemma SinceLater(now: U32, last: U32, since: U32, ms: nat)
    requires since == if now >= last then now - last else now + 0x1_0000_0000 - last
    ensures var now' := (now + ms) % 0x1_0000_0000;
            (if now' >= last then now' - last else now' + 0x1_0000_0000 - last) == (since + ms) % 0x1_0000_0000
  {
    var r := ms % 0x1_0000_0000;
    ModAdd(ms, now);
    ModAdd(ms, since);
  }

  /** A call that only fills and drains leaves the clocks alone. */
  lemma CallClocks(c: Conn, s: Sender)
    requires c.Valid() && s.stream.Valid()
    ensures FillWindow(s).stream.Valid()
    ensures var c' := Clean(c.(send := FillWindow(s))).conn;
            c'.now == c.now && c'.last == c.last
  {
    hide FillWindow, StampAll;
    FillKeepsStreamValid(s);
  }

  lemma TickClocks(c: Conn, ms: nat)
    requires c.Valid() && c.Active()
    ensures var c' := OnTick(c, ms).conn;
            c'.now == (c.now + ms) % 0x1_0000_0000 && c'.last == c.last
  {
    hide Tick, StampAll;
    TickKeepsStream(c.send, ms);
  }

  lemma SegmentClocks(c: Conn, seg: Segment)
    requires c.Valid() && c.Active()
    ensures var c' := OnSegment(c, seg).conn;
            c'.now == c.now == c'.last
  {
    hide SenderOnSegment, Receive, StampAll;
  }

  lemma StepAged(n: Net, e: Event, quiet: nat)
    requires Enabled(n, e) && Aged(n.conn.Get(e.side), quiet)
    ensures Aged(Step(n, e).conn.Get(e.side), QuietAfter(quiet, e, e.side))
  {
    var c := n.conn.Get(e.side);
    hide FillWindow, Clean, OnTick, OnSegment;
    match e
    case Connect(_) => CallClocks(c, c.send);
    case Write(_, data) => CallClocks(c, WriteStream(c.send, data));
    case EndInput(_) => CallClocks(c, EndStream(c.send));
    case Time(_, ms) =>
      TickClocks(c, ms);
      Later(c.now, c.last, quiet, ms, c, OnTick(c, ms).conn);
    case AppRead(_, _) =>
    case Deliver(side, k) => SegmentClocks(c, n.log.Get(side.Other())[k]);
  }

  lemma {:induction false} RunAged(n: Net, es: seq<Event>, side: Side, quiet: nat)
    requires NetInv(n) && ValidRun(n, es) && Aged(n.conn.Get(side), quiet)
    ensures Aged(Run(n, es).conn.Get(side), QuietTime(quiet, es, side))
    decreases |es|
  {
    hide NetInv, Step, Enabled, Aged;
    if es == [] {
    } else {
      if es[0].side == side {
        StepAged(n, es[0], quiet);
      } else {
        ActKeeps(n, es[0]);
        StepPeer(n, es[0]);
      }
      StepKeeps(n, es[0]);
      RunAged(Step(n, es[0]), es[1..], side, QuietAfter(quiet, es[0], side));
    }
  }

  /** In every run an endpoint's clocks show the true time since it last heard anything. */
  lemma SilenceIsTrueTime(cfg: Pair<Config>, es: seq<Event>, side: Side)
    requires Reached(cfg, es)
    ensures Run(Start(cfg), es).conn.Get(side).SinceLastSegment() == QuietTime(0, es, side) % 0x1_0000_0000
  {
    StartHolds(cfg, A);
    StartHolds(cfg, B);
    hide Run, ValidRun, Holds, QuietTime;
    RunAged(Start(cfg), es, side, 0);
  }

  // ---- Who has to linger ----

  /** The event ends the inbound stream of `side` while its own stream still has something to give. */
  ghost predicate PeerEndsFirst(n: Net, e: Event, side: Side)
    requires Enabled(n, e)
  {
    var c, c' := n.conn.Get(side), Step(n, e).conn.Get(side);
    !c.recv.reasm.out.ended && c'.recv.reasm.out.ended && !c.send.stream.Eof()
  }

  /** Some event of the run does. */
  ghost predicate PeerEndedFirst(n: Net, es: seq<Event>, side: Side)
    requires ValidRun(n, es)
    decreases |es|
  {
    es != [] && (PeerEndsFirst(n, es[0], side) || PeerEndedFirst(Step(n, es[0]), es[1..], side))
  }

  /** `first` tells whether the peer ended first. */
  predicate LingerHist(c: Conn, first: bool) {
    && (c.linger <==> !first)
    && (first ==> c.recv.reasm.out.ended)
    && (c.recv.reasm.out.ended && c.linger ==> c.send.stream.Eof())
  }

  /** A stream that is over has nothing left to take. */
  lemma FillKeepsEof(s: Sender)
    requires s.stream.Valid() && s.stream.Eof()
    ensures FillWindow(s).stream == s.stream
  {
    if s.next != s.finAck && s.next > 0 {
      assert StreamRead(s.stream, FillSize(s)) == s.stream;
      SendDataKeeps(s, NextData(s), FinFits(s));
    }
  }

  lemma SegmentKeepsEof(s: Sender, seg: Segment)
    requires s.stream.Valid() && s.stream.Eof()
    ensures SenderOnSegment(s, seg).stream == s.stream
  {
    if seg.ack && Accepts(s, seg.ackno) {
      AckUnfolds(s, seg.ackno, seg.win);
      var r := TakeAck(s, AbsAck(s, seg.ackno), seg.win);
      hide AckReceived, TakeAck, FillWindow;
      FillKeepsEof(if seg.win == 0 then r.(edge := r.edge + 1) else r);
    }
  }

  lemma CallLinger(c: Conn, s: Sender, first: bool)
    requires c.Valid() && LingerHist(c, first) && s.stream.Valid() && (c.send.stream.Eof() ==> s.stream.Eof())
    ensures FillWindow(s).stream.Valid()
    ensures var c' := Clean(c.(send := FillWindow(s))).conn;
            LingerHist(c', first) && c'.recv == c.recv
  {
    hide FillWindow, StampAll;
    FillKeepsStreamValid(s);
    if s.stream.Eof() {
      FillKeepsEof(s);
    }
  }

  lemma TickLinger(c: Conn, ms: nat, first: bool)
    requires c.Valid() && c.Active() && LingerHist(c, first)
    ensures var c' := OnTick(c, ms).conn;
            LingerHist(c', first) && c'.recv.reasm.out.ended == c.recv.reasm.out.ended
  {
    hide Tick, StampAll;
    TickKeepsStream(c.send, ms);
  }

  lemma SegmentLinger(c: Conn, seg: Segment, first: bool)
    requires c.Valid() && c.Active() && LingerHist(c, first)
    ensures var c' := OnSegment(c, seg).conn;
            LingerHist(c', first || (!c.recv.reasm.out.ended && c'.recv.reasm.out.ended && !c.send.stream.Eof()))
  {
    hide SenderOnSegment, Receive, StampAll;
    ReceiveMonotone(c.recv, seg);
    if c.send.stream.Eof() {
      SegmentKeepsEof(c.send, seg);
    }
  }

  lemma StepLinger(n: Net, e: Event, first: bool)
    requires Enabled(n, e) && LingerHist(n.conn.Get(e.side), first)
    ensures LingerHist(Step(n, e).conn.Get(e.side), first || PeerEndsFirst(n, e, e.side))
  {
    var c := n.conn.Get(e.side);
    hide FillWindow, Clean, OnTick, OnSegment;
    match e
    case Connect(_) => CallLinger(c, c.send, first);
    case Write(_, data) => CallLinger(c, WriteStream(c.send, data), first);
    case EndInput(_) => CallLinger(c, EndStream(c.send), first);
    case Time(_, ms) => TickLinger(c, ms, first);
    case AppRead(_, _) =>
    case Deliver(side, k) => SegmentLinger(c, n.log.Get(side.Other())[k], first);
  }

  lemma {:induction false} RunLinger(n: Net, es: seq<Event>, side: Side, first: bool)
    requires NetInv(n) && ValidRun(n, es) && LingerHist(n.conn.Get(side), first)
    ensures LingerHist(Run(n, es).conn.Get(side), first || PeerEndedFirst(n, es, side))
    decreases |es|
  {
    hide NetInv, Step, Enabled, LingerHist;
    if es == [] {
    } else {
      if es[0].side == side {
        StepLinger(n, es[0], first);
      } else {
        ActKeeps(n, es[0]);
        StepPeer(n, es[0]);
      }
      StepKeeps(n, es[0]);
      RunLinger(Step(n, es[0]), es[1..], side, first || PeerEndsFirst(n, es[0], side));
    }
  }

  /** In every run an endpoint is spared lingering if and only if its peer's stream ended while its own still had
      something to give. */
  lemma LingerIff(cfg: Pair<Config>, es: seq<Event>, side: Side)
    requires Reached(cfg, es)
    ensures !Run(Start(cfg), es).conn.Get(side).linger <==> PeerEndedFirst(Start(cfg), es, side)
  {
    StartHolds(cfg, A);
    StartHolds(cfg, B);
    hide Run, ValidRun, Holds, PeerEndedFirst;
    RunLinger(Start(cfg), es, side, false);
  }

  // ---- Going inactive ----

  /** In every run an endpoint without an error is inactive if and only if its peer's stream has ended, all of its
      own has been taken and acknowledged, and, unless its peer ended first, nothing has been heard for ten initial
      timeouts of true time, as far as 32 bits can tell. */
  lemma ClosedIff(cfg: Pair<Config>, es: seq<Event>, side: Side)
    requires Reached(cfg, es) && !Run(Start(cfg), es).conn.Get(side).Errored()
    ensures var c := Run(Start(cfg), es).conn.Get(side);
            !c.Active() <==>
            && c.recv.reasm.out.ended && c.send.stream.Eof() && c.send.ack == c.send.next
            && (PeerEndedFirst(Start(cfg), es, side) || QuietTime(0, es, side) % 0x1_0000_0000 >= 10 * c.rtTimeout)
  {
    hide Run, ValidRun, PeerEndedFirst, QuietTime, Link, Orderly, SideInv;
    LinkHolds(cfg, es, side);
    LingerIff(cfg, es, side);
    SilenceIsTrueTime(cfg, es, side);
  }

  /** So a lingering endpoint does end: with both streams over and attempts left, passing time makes it inactive as
      soon as the silence has lasted ten initial timeouts, and not before. */
  lemma LingeringEndsIff(cfg: Pair<Config>, es: seq<Event>, side: Side, ms: nat)
    requires Reached(cfg, es)
    requires var c := Run(Start(cfg), es).conn.Get(side);
             c.Active() && c.BothEof() && c.send.retx < MAX_RETX_ATTEMPTS
    ensures var n := Run(Start(cfg), es);
            && Enabled(n, Time(side, ms))
            && (!Step(n, Time(side, ms)).conn.Get(side).Active() <==>
                (QuietTime(0, es, side) + ms) % 0x1_0000_0000 >= 10 * n.conn.Get(side).rtTimeout)
  {
    hide Run, ValidRun, PeerEndedFirst, QuietTime, Link, Orderly, SideInv;
    LinkHolds(cfg, es, side);
    SilenceIsTrueTime(cfg, es, side);
    var c := Run(Start(cfg), es).conn.Get(side);
    TickCloses(c, ms, QuietTime(0, es, side));
  }

  lemma TickCloses(c: Conn, ms: nat, quiet: nat)
    requires c.Valid() && c.Active() && c.BothEof() && c.linger && c.send.retx < MAX_RETX_ATTEMPTS && Aged(c, quiet)
    ensures !OnTick(c, ms).conn.Active() <==> (quiet + ms) % 0x1_0000_0000 >= 10 * c.rtTimeout
  {
    var c1 := c.(now := (c.now + ms) % 0x1_0000_0000);
    Later(c.now, c.last, quiet, ms, c, c1);
    hide StampAll;
  }

  // ---- The other calls, in every run ----

  /** A reset ends the connection at once, with both streams in error and nothing sent. */
  lemma ResetEnds(cfg: Pair<Config>, es: seq<Event>, side: Side, k: nat)
    requires Reached(cfg, es) && Enabled(Run(Start(cfg), es), Deliver(side, k))
    requires Run(Start(cfg), es).log.Get(side.Other())[k].rst
    ensures var n := Run(Start(cfg), es);
            var n' := Step(n, Deliver(side, k));
            var c, c' := n.conn.Get(side), n'.conn.Get(side);
            && !c'.Active() && c'.recv.reasm.out.error && c'.send.stream.error && n'.log == n.log
            && c'.recv.reasm.out.written == c.recv.reasm.out.written && c'.send.inflight == c.send.inflight
  {
    hide Run, ValidRun;
    var log := Run(Start(cfg), es).log.Get(side);
    assert log + [] == log;
  }

  /** A write takes exactly the bytes for which the outbound buffer has room, behind those written before. */
  lemma WriteTakes(cfg: Pair<Config>, es: seq<Event>, side: Side, data: seq<Byte>)
    requires Reached(cfg, es) && Enabled(Run(Start(cfg), es), Write(side, data))
    ensures var n := Run(Start(cfg), es);
            var w, w' := n.conn.Get(side).send.stream, Step(n, Write(side, data)).conn.Get(side).send.stream;
            var room := w.capacity - (|w.written| - w.read);
            && w.written <= w'.written <= w.written + data
            && |w'.written| - |w.written| == if |data| <= room then |data| else room
  {
    hide Run, ValidRun, FillWindow, StampAll;
    var s := Run(Start(cfg), es).conn.Get(side).send;
    FillKeepsText(WriteStream(s, data));
  }

  /** Reading takes what is there, up to what is asked for, and opens the window by as much. */
  lemma ReadOpensWindow(cfg: Pair<Config>, es: seq<Event>, side: Side, len: nat)
    requires Reached(cfg, es) && Enabled(Run(Start(cfg), es), AppRead(side, len))
    ensures var n := Run(Start(cfg), es);
            var r, r' := n.conn.Get(side).recv, Step(n, AppRead(side, len)).conn.Get(side).recv;
            var unread := |r.reasm.out.written| - r.reasm.out.read;
            && r.Valid() && r'.Valid() && r'.reasm.out.written == r.reasm.out.written
            && WindowSize(r') - WindowSize(r) == r'.reasm.out.read - r.reasm.out.read
               == if len <= unread then len else unread
  {
    hide Run, ValidRun;
  }
}
