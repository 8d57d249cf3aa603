/** What a receiver keeps of what reaches it: every byte that fits its window, in order or not, and the end of
    the stream. */
module Buffering {
  import opened Wrapping
  import opened ByteStreams
  import opened Segments
  import opened Reassembly
  import opened Receivers
  import opened Senders
  import opened SenderProofs
  import opened Connections
  import opened Links
  import opened Networks
  import opened EndToEnd

  /** The byte at stream index `i` is assembled or stored. */
  predicate Held(r: Reasm, i: nat) {
    i < r.Cur() || i in r.pending
  }

  /** The end of the stream has been heard of. */
  predicate EndKnown(r: Reasm) {
    r.endIdx != NO_END
  }

  lemma PushHoldsIff(r: Reasm, data: seq<Byte>, index: nat, eof: bool, i: nat)
    requires r.Valid()
    ensures Held(Push(r, data, index, eof), i) <==>
            Held(r, i) || (index <= i < index + |data| && i < r.WindowEnd())
  {
    var m := Merged(r, data, index);
    InClipped(data, index, r.Cur(), r.WindowEnd(), i);
    var end := RunEnd(m, r.Cur(), r.WindowEnd());
    var q := Push(r, data, index, eof);
    assert i in m <==> i in r.pending || i in Clipped(data, index, r.Cur(), r.WindowEnd());
    assert q.Cur() == end && (i in q.pending <==> i in m && i > end);
    assert i == end ==> i !in m;
  }

  /** A segment whose payload starts at stream index `start` leaves exactly its bytes inside the window behind,
      beside what was there; wherever it lies, and whether or not it is a SYN. */
  lemma ReceiveHoldsIff(r: Receiver, seg: Segment, start: nat, i: nat)
    requires r.Valid() && (r.synced || seg.syn) && StartIndex(Sync(r, seg), seg) == start
    ensures Held(Receive(r, seg).reasm, i) <==>
            Held(r.reasm, i) || (start <= i < start + |seg.payload| && i < r.reasm.WindowEnd())
  {
    hide Push, StartIndex;
    PushHoldsIff(r.reasm, seg.payload, start, seg.fin, i);
  }

  /** The first segment of a stream may carry data along with the SYN. */
  lemma SynBringsData(r: Receiver, seg: Segment, i: nat)
    requires r.Valid() && seg.syn
    ensures Receive(r, seg).synced && Receive(r, seg).isn == Wrap(1, seg.seqno)
    ensures Held(Receive(r, seg).reasm, i) <==> Held(r.reasm, i) || (i < |seg.payload| && i < r.reasm.WindowEnd())
  {
    hide Push, Held;
    ReceiveHoldsIff(r, seg, 0, i);
  }

  /** A piece of the peer's text at absolute number `a`. */
  lemma PieceHeldIff(s: Sender, r: Receiver, seg: Segment, a: nat, i: nat)
    requires Position(s) && |s.stream.written| < STREAM_LIMIT && RecvOk(r, s) && r.synced
    requires Piece(seg, a, TextOf(s)) && 1 <= a && a + SeqLen(seg) <= s.next
    ensures Held(Receive(r, seg).reasm, i) <==>
            Held(r.reasm, i) || (a - 1 <= i < a - 1 + |seg.payload| && i < r.reasm.WindowEnd())
  {
    hide Receive, Held, Wrap, Unwrap;
    PieceShape(seg, a, TextOf(s));
    IndexRecovered(a, s.isn, r.reasm.Cur());
    ReceiveHoldsIff(r, seg, a - 1, i);
  }

  lemma PieceEndKnownIff(s: Sender, r: Receiver, seg: Segment, a: nat)
    requires Position(s) && |s.stream.written| < STREAM_LIMIT && RecvOk(r, s) && r.synced
    requires Piece(seg, a, TextOf(s)) && 1 <= a && a + SeqLen(seg) <= s.next
    ensures EndKnown(Receive(r, seg).reasm) <==>
            EndKnown(r.reasm) || (seg.fin && a - 1 < r.reasm.WindowEnd())
  {
    hide Push, Wrap, Unwrap;
    PieceShape(seg, a, TextOf(s));
    IndexRecovered(a, s.isn, r.reasm.Cur());
    if InWindow(r, seg) {
      PushEnd(r.reasm, seg.payload, a - 1, seg.fin);
    }
  }

  /** What delivering `seg` makes of the receiver: who hears the SYN is synchronised; a synchronised receiver then
      holds just what it held and the segment's bytes inside its window; and it knows of the end if it did before
      or the segment brings the FIN and starts inside the window. */
  ghost predicate Keeps(r: Receiver, r': Receiver, seg: Segment, a: nat) {
    && (r'.synced <==> r.synced || seg.syn)
    && (forall i: nat :: Held(r'.reasm, i) <==>
          Held(r.reasm, i)
          || (r.synced && a - 1 <= i < a - 1 + |seg.payload| && i < r.reasm.WindowEnd()))
    && (EndKnown(r'.reasm) <==> EndKnown(r.reasm) || (r.synced && seg.fin && a - 1 < r.reasm.WindowEnd()))
  }

  lemma ReceiveKeepsPiece(s: Sender, r: Receiver, seg: Segment, a: nat)
    requires Position(s) && |s.stream.written| < STREAM_LIMIT && RecvOk(r, s)
    requires Piece(seg, a, TextOf(s)) && a + SeqLen(seg) <= s.next
    ensures Keeps(r, Receive(r, seg), seg, a)
  {
    hide Position, RecvOk, Piece;
    PieceShape(seg, a, TextOf(s));
    assert r.Valid() by { RecvParts(r, s); }
    if a == 0 {
      PushNothing(r.reasm, 0);
      hide Push;
    } else if r.synced {
      hide Receive;
      ReceiveMonotone(r, seg);
      PieceEndKnownIff(s, r, seg, a);
      forall i: nat
        ensures Held(Receive(r, seg).reasm, i) <==>
                Held(r.reasm, i) || (a - 1 <= i < a - 1 + |seg.payload| && i < r.reasm.WindowEnd())
      {
        PieceHeldIff(s, r, seg, a, i);
      }
    }
  }

  lemma RecvParts(r: Receiver, s: Sender)
    requires RecvOk(r, s)
    ensures r.Valid() && AgreesWith(r.reasm, s.stream.written, s.stream.read)
  {
  }

  lemma DeliveredRecv(c: Conn, seg: Segment)
    requires c.Valid() && c.Active() && !seg.rst
    ensures OnSegment(c, seg).conn.recv == Receive(c.recv, seg)
  {
    hide SenderOnSegment, Receive, StampAll;
  }

  /** In every run, at every delivery of a segment the peer ever sent: the receiver keeps exactly the bytes that
      fit its window, ahead of the missing byte or not, and what it stores are the bytes the peer wrote. */
  lemma DeliveryIsKept(cfg: Pair<Config>, es: seq<Event>, side: Side, k: nat)
    requires Reached(cfg, es) && Enabled(Run(Start(cfg), es), Deliver(side.Other(), k))
    requires !Run(Start(cfg), es).log.Get(side)[k].rst
    ensures var n := Run(Start(cfg), es);
            var s, r, seg := SenderOf(n, side), ReceiverOf(n, side), n.log.Get(side)[k];
            var r' := ReceiverOf(Step(n, Deliver(side.Other(), k)), side);
            && Keeps(r, r', seg, AbsOf(seg.seqno, s.isn))
            && forall i :: i in r'.reasm.pending ==>
                 i < |s.stream.written| && r'.reasm.pending[i] == s.stream.written[i]
  {
    hide Run, ValidRun, Keeps, Wrap, Unwrap, AbsOf;
    LinkHolds(cfg, es, side);
    LinkHolds(cfg, es, side.Other());
    var n := Run(Start(cfg), es);
    var s, r, seg := SenderOf(n, side), ReceiverOf(n, side), n.log.Get(side)[k];
    KeptFromLink(s, n.conn.Get(side.Other()), n.log.Get(side), n.log.Get(side.Other()), k);
  }

  lemma KeptFromLink(s: Sender, p: Conn, fwd: seq<Segment>, back: seq<Segment>, k: nat)
    requires Link(s, p.recv, fwd, back) && k < |fwd| && !fwd[k].rst && p.Valid() && p.Active()
    ensures var seg, r' := fwd[k], OnSegment(p, fwd[k]).conn.recv;
            && Keeps(p.recv, r', seg, AbsOf(seg.seqno, s.isn))
            && forall i :: i in r'.reasm.pending ==>
                 i < |s.stream.written| && r'.reasm.pending[i] == s.stream.written[i]
  {
    hide OnSegment, Receive, Keeps, Queued, AbsOf, Piece, BackOk;
    var seg := fwd[k];
    assert WireOk(seg, TextOf(s), s.next);
    DeliveredRecv(p, seg);
    ReceiveKeeps(p.recv, s, seg);
    RecvParts(Receive(p.recv, seg), s);
    ReceiveKeepsPiece(s, p.recv, seg, AbsOf(seg.seqno, s.isn));
  }
}
