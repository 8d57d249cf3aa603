/** One direction of a connection: a sender, the peer's receiver, every segment the sender's side ever
    put on the wire (`fwd`) and every segment the receiver's side ever put on the wire (`back`).

    The network may deliver any logged segment any number of times, in any order, or never, so the logs
    are all that has to be known about it. */
module Links {
  import opened Wrapping
  import opened ByteStreams
  import opened Segments
  import opened Reassembly
  import opened Receivers
  import opened Senders
  import opened SenderProofs
  import opened Connections

  /** Streams shorter than this keep every absolute number recoverable from its 32-bit form. */
  const STREAM_LIMIT: nat := 0x8000_0000

  /** A logged segment of the sender's side: a reset, or exactly the piece of the text its number names. */
  predicate WireOk(seg: Segment, t: Text, limit: nat) {
    seg.rst || (Piece(seg, AbsOf(seg.seqno, t.isn), t) && AbsOf(seg.seqno, t.isn) + SeqLen(seg) <= limit)
  }

  predicate FwdOk(fwd: seq<Segment>, t: Text, limit: nat) {
    forall k :: 0 <= k < |fwd| ==> WireOk(fwd[k], t, limit)
  }

  /** A logged segment of the receiver's side acknowledges only what the receiver has assembled. */
  predicate AckHonest(seg: Segment, isn: U32, r: Receiver) {
    seg.ack ==> r.synced && 1 <= AbsOf(seg.ackno, isn) <= AckIndex(r)
  }

  predicate BackOk(back: seq<Segment>, isn: U32, r: Receiver) {
    forall k :: 0 <= k < |back| ==> AckHonest(back[k], isn, r)
  }

  /** What the receiver holds, in terms of what the sender has sent. */
  ghost predicate RecvOk(r: Receiver, s: Sender) {
    && r.Valid()
    && (r.synced ==> r.isn == Wrap(1, s.isn) && s.next >= 1)
    && AgreesWith(r.reasm, s.stream.written, s.stream.read)
    && (r.reasm.endIdx == NO_END || (r.reasm.endIdx == |s.stream.written| && s.FinSent()))
    && (r.reasm.out.ended ==> r.reasm.Cur() == |s.stream.written| && s.FinSent())
  }

  ghost predicate Link(s: Sender, r: Receiver, fwd: seq<Segment>, back: seq<Segment>) {
    && SenderInv(s) && |s.stream.written| < STREAM_LIMIT
    && RecvOk(r, s)
    && FwdOk(fwd, TextOf(s), s.next)
    && BackOk(back, s.isn, r)
    && s.ack <= if r.synced then AckIndex(r) else 0
  }

  /** Everything assembled has been sent: the receiver's next number is at most the sender's. */
  lemma AckIndexBound(s: Sender, r: Receiver)
    requires Position(s) && RecvOk(r, s) && r.synced
    ensures AckIndex(r) <= s.next
  {
  }

  // ---- The receiver moves ----

  /** The sequence number of a logged segment is read back as the index of its first payload byte. */
  lemma IndexRecovered(a: nat, isn: U32, cur: nat)
    requires 1 <= a <= STREAM_LIMIT + 1 && cur < STREAM_LIMIT
    ensures Unwrap(Wrap(a, isn), Wrap(1, isn), To64(cur)) == a - 1
  {
    hide Wrap, Unwrap;
    WrapShift(a - 1, isn);
    RoundTripIff(a - 1, Wrap(1, isn), cur);
  }

  /** Pushing a genuine piece keeps the receiver in step with the sender. */
  lemma PushPiece(r: Receiver, s: Sender, seg: Segment, a: nat)
    requires Position(s) && |s.stream.written| < STREAM_LIMIT && RecvOk(r, s)
    requires Piece(seg, a, TextOf(s)) && 1 <= a && a + SeqLen(seg) <= s.next
    ensures RecvOk(r.(reasm := Push(r.reasm, seg.payload, a - 1, seg.fin)), s)
  {
    hide Push, AgreesWith;
    PieceIsExcerpt(s, seg, a);
    PushAgrees(r.reasm, seg.payload, a - 1, seg.fin, s.stream.written, s.stream.read);
    PushEnd(r.reasm, seg.payload, a - 1, seg.fin);
    PieceEnds(s, r.reasm, Push(r.reasm, seg.payload, a - 1, seg.fin), seg, a);
  }

  lemma PieceIsExcerpt(s: Sender, seg: Segment, a: nat)
    requires Position(s) && Piece(seg, a, TextOf(s)) && 1 <= a && a + SeqLen(seg) <= s.next
    ensures IsExcerpt(seg.payload, a - 1, s.stream.written, s.stream.read)
  {
  }

  /** What the piece says about the end of the stream is true. */
  lemma PieceEnds(s: Sender, r: Reasm, q: Reasm, seg: Segment, a: nat)
    requires Position(s) && |s.stream.written| < STREAM_LIMIT && Piece(seg, a, TextOf(s))
    requires 1 <= a && a + SeqLen(seg) <= s.next
    requires r.endIdx == NO_END || (r.endIdx == |s.stream.written| && s.FinSent())
    requires r.out.ended ==> r.Cur() == |s.stream.written| && s.FinSent()
    requires r.out.written <= q.out.written && AgreesWith(q, s.stream.written, s.stream.read)
    requires q.endIdx == (if seg.fin then a - 1 + |seg.payload| else r.endIdx)
    requires q.out.ended == (r.out.ended || q.Cur() >= q.endIdx)
    ensures q.endIdx == NO_END || (q.endIdx == |s.stream.written| && s.FinSent())
    ensures q.out.ended ==> q.Cur() == |s.stream.written| && s.FinSent()
  {
  }

  /** How a push decides the end of the stream. */
  lemma PushEnd(r: Reasm, data: seq<Byte>, index: nat, eof: bool)
    requires r.Valid()
    ensures var q := Push(r, data, index, eof);
            && q.endIdx == (if eof then index + |data| else r.endIdx)
            && q.out.ended == (r.out.ended || q.Cur() >= q.endIdx)
  {
  }

  /** Delivering any logged segment keeps the receiver in step with the sender. */
  lemma ReceiveKeeps(r: Receiver, s: Sender, seg: Segment)
    requires SenderInv(s) && |s.stream.written| < STREAM_LIMIT && RecvOk(r, s)
    requires WireOk(seg, TextOf(s), s.next) && !seg.rst
    ensures RecvOk(Receive(r, seg), s)
  {
    hide Push, Queued, Piece;
    var a := AbsOf(seg.seqno, s.isn);
    PieceShape(seg, a, TextOf(s));
    if a == 0 {
      PushNothing(r.reasm, 0);
    } else if r.synced && InWindow(r, seg) {
      IndexRecovered(a, s.isn, r.reasm.Cur());
      PushPiece(r, s, seg, a);
    }
  }

  lemma PieceShape(seg: Segment, a: nat, t: Text)
    requires Piece(seg, a, t)
    ensures seg.syn <==> a == 0
    ensures a == 0 ==> seg.payload == [] && !seg.fin && seg.seqno == t.isn
  {
    WrapZero(t.isn);
  }

  lemma BackLater(back: seq<Segment>, isn: U32, r: Receiver, r': Receiver)
    requires BackOk(back, isn, r) && (r.synced ==> r'.synced) && AckIndex(r) <= AckIndex(r')
    ensures BackOk(back, isn, r')
  {
  }

  lemma DeliverLink(s: Sender, r: Receiver, fwd: seq<Segment>, back: seq<Segment>, seg: Segment)
    requires Link(s, r, fwd, back) && seg in fwd && !seg.rst
    ensures Link(s, Receive(r, seg), fwd, back)
  {
    ReceiveKeeps(r, s, seg);
    ReceiveMonotone(r, seg);
    hide Receive, SenderInv, RecvOk;
    BackLater(back, s.isn, r, Receive(r, seg));
  }

  lemma ConsumeLink(s: Sender, r: Receiver, fwd: seq<Segment>, back: seq<Segment>, len: nat)
    requires Link(s, r, fwd, back)
    ensures Link(s, Consume(r, len), fwd, back)
  {
    BackLater(back, s.isn, r, Consume(r, len));
  }

  /** The receiver's side sends: whatever it stamps now acknowledges what it has assembled now. */
  lemma StampHonest(seg: Segment, s: Sender, r: Receiver)
    requires Position(s) && |s.stream.written| < STREAM_LIMIT && RecvOk(r, s) && !seg.ack
    ensures AckHonest(Stamp(seg, r), s.isn, r)
    ensures r.synced ==> AbsOf(Stamp(seg, r).ackno, s.isn) == AckIndex(r)
  {
    if r.synced {
      var i := AckIndex(r) - 1;
      AckIndexBound(s, r);
      WrapShift(i, s.isn);
      AbsOfWrap(i + 1, s.isn);
    }
  }

  lemma BackLink(s: Sender, r: Receiver, fwd: seq<Segment>, back: seq<Segment>, more: seq<Segment>)
    requires Link(s, r, fwd, back) && BackOk(more, s.isn, r)
    ensures Link(s, r, fwd, back + more)
  {
  }

  // ---- The sender moves ----

  /** A sender step never takes back text, numbers sent, bytes taken from the stream, or the FIN. */
  predicate Advances(s: Sender, s': Sender) {
    && Extends(TextOf(s), TextOf(s'))
    && s.next <= s'.next && s.stream.read <= s'.stream.read
    && (s.FinSent() ==> s'.FinSent() && s.stream.ended)
  }

  lemma WireLater(fwd: seq<Segment>, t: Text, n: nat, t': Text, n': nat)
    requires FwdOk(fwd, t, n) && Extends(t, t') && n <= n'
    ensures FwdOk(fwd, t', n')
  {
    forall k | 0 <= k < |fwd| && !fwd[k].rst
      ensures WireOk(fwd[k], t', n')
    {
      PieceExtends(fwd[k], AbsOf(fwd[k].seqno, t.isn), t, t');
    }
  }

  lemma RecvLater(r: Receiver, s: Sender, s': Sender)
    requires RecvOk(r, s) && Advances(s, s') && s'.stream.Valid()
    ensures RecvOk(r, s')
  {
  }

  /** The sender's side moves and sends `more`. */
  lemma SendLink(s: Sender, r: Receiver, fwd: seq<Segment>, back: seq<Segment>, s': Sender, more: seq<Segment>)
    requires Link(s, r, fwd, back)
    requires SenderInv(s') && Advances(s, s') && |s'.stream.written| < STREAM_LIMIT
    requires s'.ack <= if r.synced then AckIndex(r) else 0
    requires FwdOk(more, TextOf(s'), s'.next)
    ensures Link(s', r, fwd + more, back)
  {
    hide SenderInv;
    assert s'.stream.Valid() by {
      SenderStream(s');
    }
    RecvLater(r, s, s');
    WireLater(fwd, TextOf(s), s.next, TextOf(s'), s'.next);
  }

  lemma SenderStream(s: Sender)
    requires SenderInv(s)
    ensures s.stream.Valid()
  {
  }

  /** A queued segment, once stamped, is fit for the wire log. */
  lemma GenuineOnWire(seg: Segment, t: Text, limit: nat, r: Receiver)
    requires Genuine(seg, t, limit) && limit < 0x1_0000_0000 && r.Valid()
    ensures WireOk(Stamp(seg, r), t, limit)
  {
    var a: nat :| Piece(seg, a, t) && a + SeqLen(seg) <= limit;
    AbsOfWrap(a, t.isn);
  }

  lemma StampedOnWire(out: seq<Segment>, t: Text, limit: nat, r: Receiver)
    requires AllGenuine(out, t, limit) && limit < 0x1_0000_0000 && r.Valid()
    ensures FwdOk(StampAll(out, r), t, limit)
  {
    hide Stamp, WireOk, Genuine;
    forall k | 0 <= k < |out|
      ensures WireOk(StampAll(out, r)[k], t, limit)
    {
      GenuineOnWire(out[k], t, limit, r);
    }
  }

  /** A number at most the checkpoint and at most half the space behind it is recovered from its header form. */
  lemma AckRecovered(ackno: U32, isn: U32, next: nat)
    requires AbsOf(ackno, isn) <= next <= STREAM_LIMIT + 1 && 1 <= AbsOf(ackno, isn)
    ensures Unwrap(ackno, isn, To64(next)) == AbsOf(ackno, isn)
  {
    hide Wrap, Unwrap, AbsOf;
    RoundTripIff(AbsOf(ackno, isn), isn, next);
  }

  /** An ack taken from the log names something the receiver has assembled. */
  lemma AckBound(s: Sender, r: Receiver, fwd: seq<Segment>, back: seq<Segment>, seg: Segment)
    requires Link(s, r, fwd, back) && seg in back && seg.ack
    ensures r.synced && AbsAck(s, seg.ackno) == AbsOf(seg.ackno, s.isn)
    ensures 1 <= AbsAck(s, seg.ackno) <= AckIndex(r) <= s.next
  {
    hide Wrap, Unwrap, AbsOf, Queued, FwdOk;
    AckIndexBound(s, r);
    AckRecovered(seg.ackno, s.isn, s.next);
  }
}
