/** Both directions at once: what each call at one endpoint keeps true of the pair of endpoints and of the
    two logs. `c` is the endpoint that acts, `p` its peer, `mine` and `theirs` what each has ever sent. */
module Duplexes {
  import opened Wrapping
  import opened ByteStreams
  import opened Segments
  import opened Receivers
  import opened Senders
  import opened SenderProofs
  import opened Connections
  import opened Links
  import opened Endpoints

  /** Absolute acknowledgment number and right edge that a header announces. */
  function AckOf(seg: Segment, isn: U32): nat {
    AbsOf(seg.ackno, isn)
  }

  function EdgeOf(seg: Segment, isn: U32): nat {
    AbsOf(seg.ackno, isn) + seg.win
  }

  /** Announced acknowledgment numbers and right edges only grow along the log, up to the current ones. */
  ghost predicate Orderly(log: seq<Segment>, isn: U32, r: Receiver)
    requires r.Valid()
  {
    && (forall k :: 0 <= k < |log| && log[k].ack ==>
          AckOf(log[k], isn) <= AckIndex(r) && EdgeOf(log[k], isn) <= AdvertisedEdge(r))
    && (forall j, k :: 0 <= j < k < |log| && log[j].ack && log[k].ack ==>
          AckOf(log[j], isn) <= AckOf(log[k], isn) && EdgeOf(log[j], isn) <= EdgeOf(log[k], isn))
  }

  /** Both streams are over, nothing is in flight, and, unless the peer finished first, a long silence has passed. */
  predicate Over(c: Conn) {
    c.BothEof() && (c.linger ==> c.QuietLongEnough())
  }

  /** How an endpoint comes to rest: it goes inactive only by an error or when all is over. */
  predicate Settling(c: Conn) {
    && (c.closed && !c.Errored() ==> Over(c))
    && (!c.linger ==> c.recv.reasm.out.ended)
  }

  /** Between calls it has come to rest if all is over. */
  predicate Settled(c: Conn) {
    Settling(c) && (Over(c) ==> c.closed)
  }

  /** One endpoint between calls: its queue is drained and its window filled. */
  ghost predicate Half(c: Conn, zero: bool) {
    c.Valid() && SideInv(c.send, zero) && c.send.out == [] && Settled(c)
  }

  /** The acting endpoint's view of both directions. */
  ghost predicate Duplex(c: Conn, p: Conn, mine: seq<Segment>, theirs: seq<Segment>) {
    && Link(c.send, p.recv, mine, theirs)
    && Link(p.send, c.recv, theirs, mine)
    && c.recv.Valid() && Orderly(mine, p.send.isn, c.recv)
  }

  lemma OrderlyLater(log: seq<Segment>, isn: U32, r: Receiver, r': Receiver)
    requires r.Valid() && r'.Valid() && Orderly(log, isn, r)
    requires AckIndex(r) <= AckIndex(r') && AdvertisedEdge(r) <= AdvertisedEdge(r')
    ensures Orderly(log, isn, r')
  {
  }

  /** Segments stamped now: they announce exactly the receiver's current numbers. */
  ghost predicate Current(more: seq<Segment>, isn: U32, r: Receiver)
    requires r.Valid()
  {
    forall k :: 0 <= k < |more| && more[k].ack ==>
      r.synced && AckOf(more[k], isn) == AckIndex(r) && EdgeOf(more[k], isn) == AdvertisedEdge(r)
  }

  lemma OrderlyAppend(log: seq<Segment>, more: seq<Segment>, isn: U32, r: Receiver)
    requires r.Valid() && Orderly(log, isn, r) && Current(more, isn, r)
    ensures Orderly(log + more, isn, r)
  {
  }

  lemma StampedCurrent(out: seq<Segment>, s: Sender, r: Receiver)
    requires Position(s) && |s.stream.written| < STREAM_LIMIT && RecvOk(r, s)
    requires forall k :: 0 <= k < |out| ==> !out[k].ack
    ensures BackOk(StampAll(out, r), s.isn, r) && Current(StampAll(out, r), s.isn, r)
  {
    forall k | 0 <= k < |out|
      ensures AckHonest(StampAll(out, r)[k], s.isn, r)
      ensures StampAll(out, r)[k].ack ==> r.synced && AckOf(StampAll(out, r)[k], s.isn) == AckIndex(r)
                                          && EdgeOf(StampAll(out, r)[k], s.isn) == AdvertisedEdge(r)
    {
      StampHonest(out[k], s, r);
    }
  }

  lemma LinkParts(s: Sender, r: Receiver, fwd: seq<Segment>, back: seq<Segment>)
    requires Link(s, r, fwd, back)
    ensures Position(s) && |s.stream.written| < STREAM_LIMIT && RecvOk(r, s) && s.next < 0x1_0000_0000
  {
  }

  lemma DrainedSide(s: Sender, zero: bool)
    requires SideInv(s, zero)
    ensures SideInv(s.(out := []), zero)
    ensures AllGenuine(s.out, TextOf(s), s.next) && Position(s)
    ensures forall k :: 0 <= k < |s.out| ==> !s.out[k].ack
  {
    DrainKeeps(s);
    forall k | 0 <= k < |s.out|
      ensures !s.out[k].ack
    {
      assert Genuine(s.out[k], TextOf(s), s.next);
    }
  }

  /** Draining the queue after the endpoint has gone from `c` to `c1`. */
  lemma CleanKeeps(c: Conn, c1: Conn, p: Conn, mine: seq<Segment>, theirs: seq<Segment>, zero: bool)
    requires Link(c.send, p.recv, mine, theirs) && Link(p.send, c1.recv, theirs, mine)
    requires c1.Valid() && Orderly(mine, p.send.isn, c1.recv)
    requires SideInv(c1.send, zero) && Advances(c.send, c1.send) && |c1.send.stream.written| < STREAM_LIMIT
    requires c1.send.ack <= if p.recv.synced then AckIndex(p.recv) else 0
    requires Settling(c1)
    ensures var o := Clean(c1);
            Half(o.conn, zero) && Duplex(o.conn, p, mine + o.sent, theirs)
  {
    hide Link, SideInv, StampAll, Advances, Orderly;
    DrainedSide(c1.send, zero);
    LinkParts(p.send, c1.recv, theirs, mine);
    var sent := StampAll(c1.send.out, c1.recv);
    CleanForward(c, c1, p, mine, theirs, zero);
    StampedCurrent(c1.send.out, p.send, c1.recv);
    BackLink(p.send, c1.recv, theirs, mine, sent);
    OrderlyAppend(mine, sent, p.send.isn, c1.recv);
  }

  lemma CleanForward(c: Conn, c1: Conn, p: Conn, mine: seq<Segment>, theirs: seq<Segment>, zero: bool)
    requires Link(c.send, p.recv, mine, theirs)
    requires c1.Valid() && SideInv(c1.send, zero) && Advances(c.send, c1.send)
    requires |c1.send.stream.written| < STREAM_LIMIT
    requires c1.send.ack <= if p.recv.synced then AckIndex(p.recv) else 0
    ensures Link(c1.send.(out := []), p.recv, mine + StampAll(c1.send.out, c1.recv), theirs)
  {
    var s' := c1.send.(out := []);
    DrainedSide(c1.send, zero);
    StampedOnWire(c1.send.out, TextOf(c1.send), c1.send.next, c1.recv);
    assert SenderInv(s');
    hide Link, SenderInv, StampAll;
    SendLink(c.send, p.recv, mine, theirs, s', StampAll(c1.send.out, c1.recv));
  }

  // ---- Calls ----

  /** A segment of the peer's log is delivered. */
  lemma DeliverKeeps(c: Conn, p: Conn, mine: seq<Segment>, theirs: seq<Segment>, zero: bool, seg: Segment)
    requires Half(c, zero) && Duplex(c, p, mine, theirs) && c.Active() && seg in theirs && !seg.rst
    ensures var o := OnSegment(c, seg);
            var zero' := zero || (seg.ack && Accepts(c.send, seg.ackno) && seg.win == 0);
            Half(o.conn, zero') && Duplex(o.conn, p, mine + o.sent, theirs)
  {
    hide Link, SideInv, Receive, SenderOnSegment, Clean, Accepts, AbsAck, Orderly;
    var c1 := Absorbed(c, seg);
    var zero' := zero || (seg.ack && Accepts(c.send, seg.ackno) && seg.win == 0);
    AbsorbedValid(c, seg);
    DeliverLink(p.send, c.recv, theirs, mine, seg);
    ReceiveMonotone(c.recv, seg);
    OrderlyLater(mine, p.send.isn, c.recv, Receive(c.recv, seg));
    DeliverSender(c, p, mine, theirs, zero, seg);
    CleanKeeps(c, c1, p, mine, theirs, zero');
  }

  lemma DeliverSender(c: Conn, p: Conn, mine: seq<Segment>, theirs: seq<Segment>, zero: bool, seg: Segment)
    requires SideInv(c.send, zero) && Link(c.send, p.recv, mine, theirs) && seg in theirs
    ensures c.send.stream.Valid()
    ensures var s' := SenderOnSegment(c.send, seg);
            var zero' := zero || (seg.ack && Accepts(c.send, seg.ackno) && seg.win == 0);
            && SideInv(s', zero') && Advances(c.send, s') && |s'.stream.written| < STREAM_LIMIT
            && s'.ack <= if p.recv.synced then AckIndex(p.recv) else 0
  {
    hide SenderOnSegment, Accepts, AbsAck, SenderInv, RecvOk, FwdOk, BackOk;
    SideStream(c.send, zero);
    if seg.ack {
      AckBound(c.send, p.recv, mine, theirs, seg);
    }
    SegmentSide(c.send, seg, zero);
    SegmentKeepsText(c.send, seg);
  }

  lemma SegmentKeepsText(s: Sender, seg: Segment)
    requires s.stream.Valid()
    ensures SenderOnSegment(s, seg).stream.written == s.stream.written
  {
    if seg.ack && Accepts(s, seg.ackno) {
      AckUnfolds(s, seg.ackno, seg.win);
      var r := TakeAck(s, AbsAck(s, seg.ackno), seg.win);
      hide AckReceived, TakeAck;
      FillKeepsText(if seg.win == 0 then r.(edge := r.edge + 1) else r);
    }
  }

  lemma FillKeepsText(s: Sender)
    requires s.stream.Valid()
    ensures FillWindow(s).stream.written == s.stream.written
  {
    if s.next != s.finAck && s.next > 0 {
      SendDataKeeps(s.(stream := StreamRead(s.stream, FillSize(s))), NextData(s), FinFits(s));
    }
  }

  /** Time passes at an endpoint that has not given up. */
  lemma TickDuplex(c: Conn, p: Conn, mine: seq<Segment>, theirs: seq<Segment>, zero: bool, ms: nat)
    requires Half(c, zero) && Duplex(c, p, mine, theirs) && c.Active() && c.send.retx < MAX_RETX_ATTEMPTS
    ensures var o := OnTick(c, ms);
            Half(o.conn, zero) && Duplex(o.conn, p, mine + o.sent, theirs)
  {
    hide Link, SideInv, Clean, Orderly, Advances, Tick;
    AckCap(c.send, p.recv, mine, theirs);
    TickSide(c.send, ms, zero);
    TickKeepsStream(c.send, ms);
    var c1 := c.(now := (c.now + ms) % 0x1_0000_0000).(send := Tick(c.send, ms));
    CleanKeeps(c, c1, p, mine, theirs, zero);
  }

  lemma TickKeepsStream(s: Sender, ms: nat)
    ensures Tick(s, ms).stream == s.stream
  {
  }

  lemma AckCap(s: Sender, r: Receiver, fwd: seq<Segment>, back: seq<Segment>)
    requires Link(s, r, fwd, back)
    ensures s.ack <= (if r.synced then AckIndex(r) else 0) && |s.stream.written| < STREAM_LIMIT
  {
  }

  /** The application writes: within the length limit, and not after the end. */
  lemma WriteDuplex(c: Conn, p: Conn, mine: seq<Segment>, theirs: seq<Segment>, zero: bool, data: seq<Byte>)
    requires Half(c, zero) && Duplex(c, p, mine, theirs)
    requires !c.send.stream.ended && |c.send.stream.written| + |data| < STREAM_LIMIT
    ensures var o := OnWrite(c, data);
            Half(o.conn, zero) && Duplex(o.conn, p, mine + o.sent, theirs)
  {
    AckCap(c.send, p.recv, mine, theirs);
    hide Link, SideInv, Clean, Orderly, Advances, FillWindow;
    WriteSide(c.send, data, zero);
    var r := WriteStream(c.send, data);
    FillKeepsStreamValid(r);
    FillKeepsText(r);
    FillKeepsError(r);
    CleanKeeps(c, c.(send := FillWindow(r)), p, mine, theirs, zero);
  }

  /** Ending the stream, or connecting, on an endpoint already closed cleanly changes nothing in the sender. */
  lemma StillBothEof(c: Conn, zero: bool)
    requires Half(c, zero) && c.closed && !c.Errored()
    ensures FillWindow(EndStream(c.send)) == c.send && FillWindow(c.send) == c.send
  {
    assert EndStream(c.send) == c.send;
    FillNoop(c.send);
  }

  lemma EndDuplex(c: Conn, p: Conn, mine: seq<Segment>, theirs: seq<Segment>, zero: bool)
    requires Half(c, zero) && Duplex(c, p, mine, theirs)
    ensures var o := OnEnd(c);
            Half(o.conn, zero) && Duplex(o.conn, p, mine + o.sent, theirs)
  {
    AckCap(c.send, p.recv, mine, theirs);
    if c.closed && !c.Errored() {
      StillBothEof(c, zero);
    }
    hide Link, SideInv, Clean, Orderly, Advances, FillWindow;
    EndSide(c.send, zero);
    var r := EndStream(c.send);
    FillKeepsStreamValid(r);
    FillKeepsText(r);
    FillKeepsError(r);
    CleanKeeps(c, c.(send := FillWindow(r)), p, mine, theirs, zero);
  }

  lemma ConnectDuplex(c: Conn, p: Conn, mine: seq<Segment>, theirs: seq<Segment>, zero: bool)
    requires Half(c, zero) && Duplex(c, p, mine, theirs)
    ensures var o := OnConnect(c);
            Half(o.conn, zero) && Duplex(o.conn, p, mine + o.sent, theirs)
  {
    AckCap(c.send, p.recv, mine, theirs);
    if c.closed && !c.Errored() {
      StillBothEof(c, zero);
    }
    FillSide(c.send, zero);
    hide Link, SideInv, Clean, Orderly, Advances, FillWindow;
    var r := c.send;
    FillKeepsStreamValid(r);
    FillKeepsText(r);
    FillKeepsError(r);
    CleanKeeps(c, c.(send := FillWindow(r)), p, mine, theirs, zero);
  }

  lemma FillKeepsError(s: Sender)
    requires s.stream.Valid()
    ensures FillWindow(s).stream.error == s.stream.error
  {
    if s.next != s.finAck && s.next > 0 {
      SendDataKeeps(s.(stream := StreamRead(s.stream, FillSize(s))), NextData(s), FinFits(s));
    }
  }

  /** The application reads. */
  lemma ReadDuplex(c: Conn, p: Conn, mine: seq<Segment>, theirs: seq<Segment>, zero: bool, len: nat)
    requires Half(c, zero) && Duplex(c, p, mine, theirs)
    ensures Half(OnRead(c, len), zero) && Duplex(OnRead(c, len), p, mine, theirs)
  {
    hide Link, SideInv, Orderly;
    ConsumeLink(p.send, c.recv, theirs, mine, len);
    ConsumeMonotone(c.recv, len);
    OrderlyLater(mine, p.send.isn, c.recv, Consume(c.recv, len));
  }

  /** Setting the error marks of a stream changes nothing the invariants speak of. */
  lemma ErrorLink(c: Conn, p: Conn, mine: seq<Segment>, theirs: seq<Segment>, sendRst: bool)
    requires Link(c.send, p.recv, mine, theirs) && Link(p.send, c.recv, theirs, mine)
    ensures var o := BadShutdown(c, sendRst);
            Link(o.conn.send, p.recv, mine + o.sent, theirs) && Link(p.send, o.conn.recv, theirs, mine + o.sent)
  {
    ErrorForward(c, p.recv, mine, theirs, sendRst);
    ErrorBackward(p.send, c, theirs, mine, sendRst);
  }

  lemma ErrorForward(c: Conn, r: Receiver, mine: seq<Segment>, theirs: seq<Segment>, sendRst: bool)
    requires Link(c.send, r, mine, theirs)
    ensures var o := BadShutdown(c, sendRst);
            Link(o.conn.send, r, mine + o.sent, theirs)
  {
    hide Tiles, AllGenuine, Piece, Genuine;
    assert TextOf(BadShutdown(c, sendRst).conn.send) == TextOf(c.send);
  }

  lemma ErrorBackward(s: Sender, c: Conn, theirs: seq<Segment>, mine: seq<Segment>, sendRst: bool)
    requires Link(s, c.recv, theirs, mine)
    ensures var o := BadShutdown(c, sendRst);
            Link(s, o.conn.recv, theirs, mine + o.sent)
  {
    hide SenderInv, FwdOk;
  }

  lemma ShutdownKeeps(c: Conn, p: Conn, mine: seq<Segment>, theirs: seq<Segment>, zero: bool, sendRst: bool)
    requires c.Valid() && SideInv(c.send, zero) && c.send.out == [] && Settling(c) && Duplex(c, p, mine, theirs)
    ensures var o := BadShutdown(c, sendRst);
            Half(o.conn, zero) && Duplex(o.conn, p, mine + o.sent, theirs)
  {
    ErrorLink(c, p, mine, theirs, sendRst);
    ErrorSide(c, zero, sendRst);
    hide Link, SideInv;
  }

  lemma ErrorSide(c: Conn, zero: bool, sendRst: bool)
    requires SideInv(c.send, zero)
    ensures SideInv(BadShutdown(c, sendRst).conn.send, zero)
  {
    hide Tiles, AllGenuine;
    assert TextOf(BadShutdown(c, sendRst).conn.send) == TextOf(c.send);
  }
}
