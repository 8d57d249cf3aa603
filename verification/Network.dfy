/** Two endpoints over a network that may lose, duplicate and reorder segments: every run, by induction
    over its events. */
module Networks {
  import opened Wrapping
  import opened ByteStreams
  import opened Segments
  import opened Receivers
  import opened Senders
  import opened Connections
  import opened Links
  import opened Endpoints
  import opened Duplexes

  datatype Side = A | B {
    function Other(): Side {
      if A? then B else A
    }
  }

  datatype Pair<T> = Pair(a: T, b: T) {
    function Get(side: Side): T {
      if side.A? then a else b
    }

    function Put(side: Side, v: T): Pair<T> {
      if side.A? then this.(a := v) else this.(b := v)
    }
  }

  /** `log` holds every segment each side ever put on the wire, in order. `zero` records whether the side
      ever accepted an ack that advertised a closed window. */
  datatype Net = Net(conn: Pair<Conn>, log: Pair<seq<Segment>>, zero: Pair<bool>)

  datatype Config = Config(isn: U32, rtTimeout: nat, recvCapacity: nat, sendCapacity: nat)

  function Start(cfg: Pair<Config>): Net {
    Net(Pair(StartConn(cfg.a), StartConn(cfg.b)), Pair([], []), Pair(false, false))
  }

  function StartConn(c: Config): Conn {
    InitConn(c.isn, c.rtTimeout, c.recvCapacity, c.sendCapacity)
  }

  /** A call at one side. `Deliver(side, k)` hands it the k-th segment the other side ever sent; a segment
      never delivered is lost, one delivered twice is duplicated. */
  datatype Event =
    | Connect(side: Side)
    | Write(side: Side, data: seq<Byte>)
    | EndInput(side: Side)
    | Time(side: Side, ms: nat)
    | AppRead(side: Side, len: nat)
    | Deliver(side: Side, k: nat)

  /** Deliveries and ticks need an active endpoint. The application does not write after ending its stream,
      and its stream stays under 2^31 bytes. */
  ghost predicate Enabled(n: Net, e: Event) {
    var c := n.conn.Get(e.side);
    && c.Valid()
    && match e
       case Write(_, data) => !c.send.stream.ended && |c.send.stream.written| + |data| < STREAM_LIMIT
       case Time(_, _) => c.Active()
       case Deliver(_, k) => c.Active() && k < |n.log.Get(e.side.Other())|
       case _ => true
  }

  function Act(n: Net, side: Side, o: Outcome): Net {
    n.(conn := n.conn.Put(side, o.conn), log := n.log.Put(side, n.log.Get(side) + o.sent))
  }

  /** Whether delivering `seg` makes the endpoint accept a closed window. */
  predicate AcceptsZero(c: Conn, seg: Segment) {
    !seg.rst && seg.ack && Accepts(c.send, seg.ackno) && seg.win == 0
  }

  ghost function Step(n: Net, e: Event): Net
    requires Enabled(n, e)
  {
    var c := n.conn.Get(e.side);
    match e
    case Connect(side) => Act(n, side, OnConnect(c))
    case Write(side, data) => Act(n, side, OnWrite(c, data))
    case EndInput(side) => Act(n, side, OnEnd(c))
    case Time(side, ms) => Act(n, side, OnTick(c, ms))
    case AppRead(side, len) => n.(conn := n.conn.Put(side, OnRead(c, len)))
    case Deliver(side, k) =>
      var seg := n.log.Get(side.Other())[k];
      Act(n, side, OnSegment(c, seg)).(zero := n.zero.Put(side, n.zero.Get(side) || AcceptsZero(c, seg)))
  }

  ghost predicate ValidRun(n: Net, es: seq<Event>)
    decreases |es|
  {
    es == [] || (Enabled(n, es[0]) && ValidRun(Step(n, es[0]), es[1..]))
  }

  ghost function Run(n: Net, es: seq<Event>): Net
    requires ValidRun(n, es)
    decreases |es|
  {
    if es == [] then n else Run(Step(n, es[0]), es[1..])
  }

  /** The invariant, seen from one side. */
  ghost predicate Holds(n: Net, side: Side) {
    var c, p := n.conn.Get(side), n.conn.Get(side.Other());
    && Half(c, n.zero.Get(side))
    && Duplex(c, p, n.log.Get(side), n.log.Get(side.Other()))
  }

  ghost predicate NetInv(n: Net) {
    Holds(n, A) && Holds(n, B)
  }

  /** Each side's own view of the links is the other side's view swapped, so only the acting side has to be
      looked at, provided the peer's own part is untouched. */
  lemma PeerKeeps(n: Net, n': Net, side: Side)
    requires NetInv(n) && Holds(n', side)
    requires n'.conn.Get(side.Other()) == n.conn.Get(side.Other())
    requires n'.log.Get(side.Other()) == n.log.Get(side.Other())
    requires n'.zero.Get(side.Other()) == n.zero.Get(side.Other())
    requires n'.conn.Get(side).send.isn == n.conn.Get(side).send.isn
    ensures NetInv(n')
  {
    hide Link, Half, Orderly;
  }

  lemma StepKeeps(n: Net, e: Event)
    requires NetInv(n) && Enabled(n, e)
    ensures NetInv(Step(n, e))
  {
    ActKeeps(n, e);
    StepPeer(n, e);
    hide Step, Holds;
    PeerKeeps(n, Step(n, e), e.side);
  }

  lemma StepPeer(n: Net, e: Event)
    requires NetInv(n) && Enabled(n, e) && Holds(Step(n, e), e.side)
    ensures var n' := Step(n, e);
            && n'.conn.Get(e.side.Other()) == n.conn.Get(e.side.Other())
            && n'.log.Get(e.side.Other()) == n.log.Get(e.side.Other())
            && n'.zero.Get(e.side.Other()) == n.zero.Get(e.side.Other())
            && n'.conn.Get(e.side).send.isn == n.conn.Get(e.side).send.isn
  {
    hide OnConnect, OnWrite, OnEnd, OnTick, OnSegment, OnRead, Half, Duplex;
    StepIsn(n, e);
  }

  lemma StepIsn(n: Net, e: Event)
    requires Enabled(n, e)
    ensures Step(n, e).conn.Get(e.side).send.isn == n.conn.Get(e.side).send.isn
  {
    hide FillWindow, SenderOnSegment, StampAll, Receive;
    var s := n.conn.Get(e.side).send;
    match e
    case Connect(_) => FillKeepsIsn(s);
    case Write(_, data) => FillKeepsIsn(WriteStream(s, data));
    case EndInput(_) => FillKeepsIsn(EndStream(s));
    case Time(_, _) =>
    case AppRead(_, _) =>
    case Deliver(side, k) => SegmentKeepsIsn(s, n.log.Get(side.Other())[k]);
  }

  lemma FillKeepsIsn(s: Sender)
    requires s.stream.Valid()
    ensures FillWindow(s).isn == s.isn
  {
    if s.next != s.finAck && s.next > 0 {
      SendDataKeeps(s.(stream := StreamRead(s.stream, FillSize(s))), NextData(s), FinFits(s));
    }
  }

  lemma SegmentKeepsIsn(s: Sender, seg: Segment)
    requires s.stream.Valid()
    ensures SenderOnSegment(s, seg).isn == s.isn
  {
    if seg.ack && Accepts(s, seg.ackno) {
      AckUnfolds(s, seg.ackno, seg.win);
      PopKeepsStream(s, AbsAck(s, seg.ackno));
      var r := TakeAck(s, AbsAck(s, seg.ackno), seg.win);
      FillKeepsIsn(if seg.win == 0 then r.(edge := r.edge + 1) else r);
    }
  }

  lemma ActKeeps(n: Net, e: Event)
    requires NetInv(n) && Enabled(n, e)
    ensures Holds(Step(n, e), e.side)
  {
    hide OnConnect, OnWrite, OnEnd, OnTick, OnSegment, OnRead, Half, Duplex;
    var c, p := n.conn.Get(e.side), n.conn.Get(e.side.Other());
    var mine, theirs, zero := n.log.Get(e.side), n.log.Get(e.side.Other()), n.zero.Get(e.side);
    match e
    case Connect(_) => ConnectDuplex(c, p, mine, theirs, zero);
    case Write(_, data) => WriteDuplex(c, p, mine, theirs, zero, data);
    case EndInput(_) => EndDuplex(c, p, mine, theirs, zero);
    case Time(_, ms) => TimeKeeps(c, p, mine, theirs, zero, ms);
    case AppRead(_, len) => ReadDuplex(c, p, mine, theirs, zero, len);
    case Deliver(_, k) => SegmentKeeps(c, p, mine, theirs, zero, theirs[k]);
  }

  lemma TimeKeeps(c: Conn, p: Conn, mine: seq<Segment>, theirs: seq<Segment>, zero: bool, ms: nat)
    requires Half(c, zero) && Duplex(c, p, mine, theirs) && c.Active()
    ensures var o := OnTick(c, ms);
            Half(o.conn, zero) && Duplex(o.conn, p, mine + o.sent, theirs)
  {
    if c.send.retx < MAX_RETX_ATTEMPTS {
      TickDuplex(c, p, mine, theirs, zero, ms);
    } else {
      var c1 := c.(now := (c.now + ms) % 0x1_0000_0000);
      assert Settling(c1) && Duplex(c1, p, mine, theirs);
      ShutdownKeeps(c1, p, mine, theirs, zero, true);
    }
  }

  lemma SegmentKeeps(c: Conn, p: Conn, mine: seq<Segment>, theirs: seq<Segment>, zero: bool, seg: Segment)
    requires Half(c, zero) && Duplex(c, p, mine, theirs) && c.Active() && seg in theirs
    ensures var o := OnSegment(c, seg);
            Half(o.conn, zero || AcceptsZero(c, seg)) && Duplex(o.conn, p, mine + o.sent, theirs)
  {
    if seg.rst {
      var c1 := c.(last := c.now);
      assert Settling(c1) && Duplex(c1, p, mine, theirs);
      ShutdownKeeps(c1, p, mine, theirs, zero, false);
    } else {
      DeliverKeeps(c, p, mine, theirs, zero, seg);
    }
  }

  lemma StartHolds(cfg: Pair<Config>, side: Side)
    requires cfg.a.recvCapacity > 0 && cfg.b.recvCapacity > 0
    ensures Holds(Start(cfg), side)
  {
  }

  lemma {:induction false} RunKeeps(n: Net, es: seq<Event>)
    requires NetInv(n) && ValidRun(n, es)
    ensures NetInv(Run(n, es))
    decreases |es|
  {
    hide NetInv, Step, Enabled;
    if es == [] {
    } else {
      StepKeeps(n, es[0]);
      RunKeeps(Step(n, es[0]), es[1..]);
    }
  }

  /** Every run of two endpoints with positive receive capacities keeps the invariant. */
  lemma EveryRun(cfg: Pair<Config>, es: seq<Event>)
    requires cfg.a.recvCapacity > 0 && cfg.b.recvCapacity > 0 && ValidRun(Start(cfg), es)
    ensures NetInv(Run(Start(cfg), es))
  {
    StartHolds(cfg, A);
    StartHolds(cfg, B);
    RunKeeps(Start(cfg), es);
  }
}
