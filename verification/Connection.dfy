/** A whole endpoint (libsponge/tcp_connection.cc) as step functions: each call takes the endpoint to its
    next value and yields the segments it puts on the wire. */
module Connections {
  import opened Wrapping
  import opened ByteStreams
  import opened Segments
  import opened Receivers
  import opened Senders

  const MAX_RETX_ATTEMPTS: nat := 8

  /** `last` and `now` are unsigned 32-bit millisecond clocks. */
  datatype Conn = Conn(rtTimeout: nat, recv: Receiver, send: Sender, last: U32, now: U32,
                       closed: bool, linger: bool)
  {
    ghost predicate Valid() {
      recv.Valid() && send.stream.Valid()
    }

    predicate Active() {
      !closed
    }

    /** `bad_shutdown` marks both streams. */
    predicate Errored() {
      recv.reasm.out.error || send.stream.error
    }

    function SinceLastSegment(): U32 {
      if now >= last then now - last else now + 0x1_0000_0000 - last
    }

    /** Nothing has been heard for ten initial timeouts. */
    predicate QuietLongEnough() {
      SinceLastSegment() >= 10 * rtTimeout
    }

    predicate BothEof() {
      recv.reasm.out.ended && send.stream.Eof() && send.BytesInFlight() == 0
    }
  }

  datatype Outcome = Outcome(conn: Conn, sent: seq<Segment>)

  function InitConn(isn: U32, rtTimeout: nat, recvCapacity: nat, sendCapacity: nat): Conn {
    Conn(rtTimeout, InitReceiver(recvCapacity), InitSender(isn, rtTimeout, sendCapacity), 0, 0, false, true)
  }

  /** Puts the receiver's current acknowledgment and window into an outgoing segment. */
  function Stamp(seg: Segment, r: Receiver): Segment
    requires r.Valid()
  {
    var s1 := if r.synced then seg.(ack := true, ackno := AckNo(r)) else seg;
    s1.(win := AdvertisedWindow(r))
  }

  function StampAll(out: seq<Segment>, r: Receiver): (stamped: seq<Segment>)
    requires r.Valid()
    ensures |stamped| == |out|
    ensures forall k :: 0 <= k < |out| ==> stamped[k] == Stamp(out[k], r)
  {
    if out == [] then [] else StampAll(out[..|out| - 1], r) + [Stamp(out[|out| - 1], r)]
  }

  function CheckClose(c: Conn): Conn {
    if c.BothEof() && (!c.linger || c.QuietLongEnough()) then c.(closed := true) else c
  }

  /** Sends everything the sender has queued, then sees whether the connection is over. */
  function Clean(c: Conn): Outcome
    requires c.Valid()
  {
    Outcome(CheckClose(c.(send := c.send.(out := []))), StampAll(c.send.out, c.recv))
  }

  function BadShutdown(c: Conn, sendRst: bool): Outcome {
    Outcome(c.(closed := true,
               recv := c.recv.(reasm := c.recv.reasm.(out := c.recv.reasm.out.(error := true))),
               send := c.send.(stream := c.send.stream.(error := true))),
            if sendRst then [Bare(Wrap(c.send.next, c.send.isn)).(rst := true)] else [])
  }

  /** The peer's stream has ended while ours has not: no need to linger later. */
  function NoteEarlyFin(c: Conn): Conn {
    if c.recv.reasm.out.ended && !c.send.stream.Eof() then c.(linger := false) else c
  }

  /** The sender's part in handling an incoming segment. */
  function SenderOnSegment(s: Sender, seg: Segment): (s': Sender)
    requires s.stream.Valid()
  {
    var s1 := if seg.ack then AckReceived(s, seg.ackno, seg.win) else s;
    if SeqLen(seg) > 0 then SendEmptyAck(s1) else s1
  }

  function Absorbed(c: Conn, seg: Segment): Conn
    requires c.Valid()
  {
    var c1 := NoteEarlyFin(c.(last := c.now, recv := Receive(c.recv, seg)));
    c1.(send := SenderOnSegment(c1.send, seg))
  }

  lemma AbsorbedValid(c: Conn, seg: Segment)
    requires c.Valid()
    ensures Absorbed(c, seg).Valid()
  {
    AckKeepsStreamValid(c.send, seg.ackno, seg.win);
  }

  function OnSegment(c: Conn, seg: Segment): Outcome
    requires c.Valid() && c.Active()
  {
    if seg.rst then BadShutdown(c.(last := c.now), false)
    else
      AbsorbedValid(c, seg);
      Clean(Absorbed(c, seg))
  }

  function OnTick(c: Conn, ms: nat): Outcome
    requires c.Valid() && c.Active()
  {
    var c1 := c.(now := (c.now + ms) % 0x1_0000_0000);
    if c1.send.retx >= MAX_RETX_ATTEMPTS then BadShutdown(c1, true)
    else Clean(c1.(send := Tick(c1.send, ms)))
  }

  function OnWrite(c: Conn, data: seq<Byte>): Outcome
    requires c.Valid()
  {
    FillKeepsStreamValid(WriteStream(c.send, data));
    Clean(c.(send := FillWindow(WriteStream(c.send, data))))
  }

  function OnEnd(c: Conn): Outcome
    requires c.Valid()
  {
    FillKeepsStreamValid(EndStream(c.send));
    Clean(c.(send := FillWindow(EndStream(c.send))))
  }

  function OnConnect(c: Conn): Outcome
    requires c.Valid()
  {
    FillKeepsStreamValid(c.send);
    Clean(c.(send := FillWindow(c.send)))
  }

  /** The application reads from the inbound stream. */
  function OnRead(c: Conn, len: nat): Conn
    requires c.Valid()
  {
    c.(recv := Consume(c.recv, len))
  }

  lemma FillKeepsStreamValid(s: Sender)
    requires s.stream.Valid()
    ensures FillWindow(s).stream.Valid()
  {
    if s.next != s.finAck && s.next > 0 {
      SendDataKeeps(s.(stream := StreamRead(s.stream, FillSize(s))), NextData(s), FinFits(s));
    }
  }

  lemma AckKeepsStreamValid(s: Sender, ackno: U32, win: U16)
    requires s.stream.Valid()
    ensures AckReceived(s, ackno, win).stream.Valid()
  {
    if Accepts(s, ackno) {
      PopKeepsStream(s, AbsAck(s, ackno));
      var r := TakeAck(s, AbsAck(s, ackno), win);
      FillKeepsStreamValid(if win == 0 then r.(edge := r.edge + 1) else r);
    }
  }
}
