/** What the invariant of the two-endpoint system means: the promises of a reliable byte stream, for every
    run over a network that loses, duplicates and reorders. */
module EndToEnd {
  import opened Wrapping
  import opened ByteStreams
  import opened Segments
  import opened Reassembly
  import opened Receivers
  import opened Senders
  import opened SenderProofs
  import opened Links
  import opened Duplexes
  import opened Networks
  import opened FinHistory

  ghost predicate Reached(cfg: Pair<Config>, es: seq<Event>) {
    cfg.a.recvCapacity > 0 && cfg.b.recvCapacity > 0 && ValidRun(Start(cfg), es)
  }

  /** The sender of one side and the receiver of the other. */
  ghost function SenderOf(n: Net, side: Side): Sender {
    n.conn.Get(side).send
  }

  ghost function ReceiverOf(n: Net, side: Side): Receiver {
    n.conn.Get(side.Other()).recv
  }

  /** First number the receiver is missing, 0 while it lacks the SYN. */
  function Expected(r: Receiver): nat {
    if r.synced then AckIndex(r) else 0
  }

  lemma LinkHolds(cfg: Pair<Config>, es: seq<Event>, side: Side)
    requires Reached(cfg, es)
    ensures var n := Run(Start(cfg), es);
            && Link(SenderOf(n, side), ReceiverOf(n, side), n.log.Get(side), n.log.Get(side.Other()))
            && Half(n.conn.Get(side), n.zero.Get(side))
            && n.conn.Get(side).recv.Valid()
            && Orderly(n.log.Get(side), n.conn.Get(side.Other()).send.isn, n.conn.Get(side).recv)
  {
    hide Link, Half, Orderly, Run, ValidRun;
    Networks.EveryRun(cfg, es);
  }

  /** Safety: what has been assembled is a prefix of what was written, and if the receiver says the stream
      has ended, it is all of what was written and the writer has ended. */
  lemma AssembledIsPrefix(cfg: Pair<Config>, es: seq<Event>, side: Side)
    requires Reached(cfg, es)
    ensures var n := Run(Start(cfg), es);
            var w, out := SenderOf(n, side).stream, ReceiverOf(n, side).reasm.out;
            && out.written <= w.written
            && (out.ended ==> w.ended && out.written == w.written)
  {
    hide Run, ValidRun;
    LinkHolds(cfg, es, side);
    PrefixFromLink(Run(Start(cfg), es), side);
  }

  lemma PrefixFromLink(n: Net, side: Side)
    requires Link(SenderOf(n, side), ReceiverOf(n, side), n.log.Get(side), n.log.Get(side.Other()))
    ensures var w, out := SenderOf(n, side).stream, ReceiverOf(n, side).reasm.out;
            && out.written <= w.written
            && (out.ended ==> w.ended && out.written == w.written)
  {
  }

  /** Ack soundness: nothing is dropped from the retransmission queue before the receiver has it, nothing is
      acknowledged before it is sent, and whenever the receiver lacks something sent, the queue still holds
      the segment it is waiting for. */
  lemma NothingIsLost(cfg: Pair<Config>, es: seq<Event>, side: Side)
    requires Reached(cfg, es)
    ensures var n := Run(Start(cfg), es);
            var s, x := SenderOf(n, side), Expected(ReceiverOf(n, side));
            && s.ack <= x <= s.next
            && (x < s.next ==> exists k :: 0 <= k < |s.inflight| && Covers(s.inflight[k], x, TextOf(s)))
  {
    hide Run, ValidRun;
    LinkHolds(cfg, es, side);
    CoverFromLink(Run(Start(cfg), es), side);
  }

  lemma CoverFromLink(n: Net, side: Side)
    requires Link(SenderOf(n, side), ReceiverOf(n, side), n.log.Get(side), n.log.Get(side.Other()))
    ensures var s, x := SenderOf(n, side), Expected(ReceiverOf(n, side));
            && s.ack <= x <= s.next
            && (x < s.next ==> exists k :: 0 <= k < |s.inflight| && Covers(s.inflight[k], x, TextOf(s)))
  {
    var s, r := SenderOf(n, side), ReceiverOf(n, side);
    if r.synced {
      AckIndexBound(s, r);
    }
    if Expected(r) < s.next {
      TilesCover(s.inflight, s.ack, s.next, TextOf(s), Expected(r));
    }
  }

  /** Pushing a piece that contains the first missing index, or the end mark there, moves the receiver on. */
  lemma PushAdvances(r: Reasm, data: seq<Byte>, index: nat, eof: bool)
    requires r.Valid() && !r.out.ended && r.Cur() < r.WindowEnd() && index <= r.Cur()
    requires r.Cur() < index + |data| || (eof && r.Cur() == index + |data|)
    ensures var q := Push(r, data, index, eof);
            q.Cur() > r.Cur() || q.out.ended
  {
    PushEnd(r, data, index, eof);
    if r.Cur() < index + |data| {
      InClipped(data, index, r.Cur(), r.WindowEnd(), r.Cur());
      var m := Merged(r, data, index);
      assert r.Cur() in m;
      assert RunEnd(m, r.Cur(), r.WindowEnd()) > r.Cur();
    }
  }

  /** What lets the receiver make use of a piece that ends at `end` and includes the number it waits for: an open
      window, or that the piece is the SYN, or that it brings the FIN behind bytes of which none is missing. A FIN
      on its own is dropped when the window is closed. */
  predicate Welcome(r: Receiver, seg: Segment, end: nat)
    requires r.Valid()
  {
    WindowSize(r) > 0 || seg.syn || (seg.fin && seg.payload != [] && Expected(r) == end - 1)
  }

  /** Progress: the arrival of any copy of the awaited segment, which the retransmission queue still holds,
      advances the receiver if and only if it is welcome; with an open window it always is. */
  lemma AwaitedSegmentAdvances(cfg: Pair<Config>, es: seq<Event>, side: Side, o: Outstanding, seg: Segment)
    requires Reached(cfg, es)
    requires var n := Run(Start(cfg), es);
             && ReceiverOf(n, side).Valid()
             && o in SenderOf(n, side).inflight && Covers(o, Expected(ReceiverOf(n, side)), TextOf(SenderOf(n, side)))
             && seg.(ack := false, ackno := 0, win := 0) == o.seg.(ack := false, ackno := 0, win := 0)
    ensures var r := ReceiverOf(Run(Start(cfg), es), side);
            Expected(Receive(r, seg)) > Expected(r) <==> Welcome(r, seg, o.ackIndex)
  {
    hide Run, ValidRun;
    LinkHolds(cfg, es, side);
    var n := Run(Start(cfg), es);
    var s, r := SenderOf(n, side), ReceiverOf(n, side);
    LinkParts(s, r, n.log.Get(side), n.log.Get(side.Other()));
    TilesForward(s.inflight, s.ack, s.next, TextOf(s));
    PieceAdvancesIff(s, r, seg, o.ackIndex - SeqLen(o.seg));
  }

  lemma PieceAdvancesIff(s: Sender, r: Receiver, seg: Segment, a: nat)
    requires Position(s) && |s.stream.written| < STREAM_LIMIT && RecvOk(r, s)
    requires Piece(seg, a, TextOf(s)) && a <= Expected(r) < a + SeqLen(seg) <= s.next
    ensures Expected(Receive(r, seg)) > Expected(r) <==> Welcome(r, seg, a + SeqLen(seg))
  {
    hide Push;
    PieceShape(seg, a, TextOf(s));
    if a == 0 {
      ReceiveMonotone(r, seg);
    } else {
      IndexRecovered(a, s.isn, r.reasm.Cur());
      if WindowSize(r) > 0 {
        PushAdvances(r.reasm, seg.payload, a - 1, seg.fin);
      } else if InWindow(r, seg) {
        PushFull(r.reasm, seg.payload, a - 1, seg.fin);
      }
    }
  }

  /** With no room left, a push can only bring the end mark. */
  lemma PushFull(r: Reasm, data: seq<Byte>, index: nat, eof: bool)
    requires r.Valid() && r.Cur() == r.WindowEnd() && !r.out.ended
    ensures var q := Push(r, data, index, eof);
            q.Cur() == r.Cur() && (q.out.ended <==> eof && r.Cur() >= index + |data|)
  {
    PushEnd(r, data, index, eof);
  }

  /** Every segment ever sent, fresh or repeated, is a reset or exactly the piece of SYN, stream and FIN that
      its sequence number names. */
  lemma EverythingSentIsExact(cfg: Pair<Config>, es: seq<Event>, side: Side, k: nat)
    requires Reached(cfg, es) && k < |Run(Start(cfg), es).log.Get(side)|
    ensures var n := Run(Start(cfg), es);
            var seg, t := n.log.Get(side)[k], TextOf(SenderOf(n, side));
            seg.rst || Piece(seg, AbsOf(seg.seqno, t.isn), t)
  {
    hide Run, ValidRun, Piece;
    LinkHolds(cfg, es, side);
  }

  /** Section 3.7 of RFC 793: along everything a side sends, the acknowledgment number and the right edge of
      the window never move back. */
  lemma EdgesNeverRetreat(cfg: Pair<Config>, es: seq<Event>, side: Side, j: nat, k: nat)
    requires Reached(cfg, es) && j <= k < |Run(Start(cfg), es).log.Get(side)|
    requires Run(Start(cfg), es).log.Get(side)[j].ack && Run(Start(cfg), es).log.Get(side)[k].ack
    ensures var n := Run(Start(cfg), es);
            var isn, log := n.conn.Get(side.Other()).send.isn, n.log.Get(side);
            && AckOf(log[j], isn) <= AckOf(log[k], isn)
            && EdgeOf(log[j], isn) <= EdgeOf(log[k], isn)
            && AckOf(log[k], isn) <= AckIndex(n.conn.Get(side).recv)
  {
    hide Run, ValidRun;
    LinkHolds(cfg, es, side);
  }

  /** Clean close means delivery: an endpoint that went inactive without an error has had every byte it wrote
      assembled by its peer. The peer has seen its FIN if and only if the window had room for the FIN when the
      stream was ended, or an ack was accepted after that. Otherwise the FIN was never sent, and only a closed
      window accepted somewhere in the run can bring that about. */
  lemma CleanCloseDelivers(cfg: Pair<Config>, es: seq<Event>, side: Side)
    requires Reached(cfg, es)
    requires var c := Run(Start(cfg), es).conn.Get(side); !c.Active() && !c.Errored()
    ensures var n := Run(Start(cfg), es);
            var s, out := SenderOf(n, side), ReceiverOf(n, side).reasm.out;
            && out.written == s.stream.written
            && (out.ended <==> FinCalledFor(Start(cfg), es, side))
            && (s.FinSent() <==> FinCalledFor(Start(cfg), es, side))
            && (s.FinSent() ==> s.ack == s.next == s.finAck) && (!s.FinSent() ==> s.ack == s.next == s.edge)
            && (!n.zero.Get(side) ==> s.FinSent())
  {
    hide Run, ValidRun, FinCalledFor;
    LinkHolds(cfg, es, side);
    DeliveredAtClose(Run(Start(cfg), es), side);
    FinSentIff(cfg, es, side);
  }

  lemma DeliveredAtClose(n: Net, side: Side)
    requires Link(SenderOf(n, side), ReceiverOf(n, side), n.log.Get(side), n.log.Get(side.Other()))
    requires Half(n.conn.Get(side), n.zero.Get(side)) && n.conn.Get(side).closed && !n.conn.Get(side).Errored()
    ensures var s, out := SenderOf(n, side), ReceiverOf(n, side).reasm.out;
            && out.written == s.stream.written
            && (out.ended <==> s.FinSent()) && s.ack == s.next
            && (s.FinSent() ==> s.next == s.finAck) && (!s.FinSent() ==> s.next == s.edge)
            && (!n.zero.Get(side) ==> s.FinSent())
  {
    var s, r := SenderOf(n, side), ReceiverOf(n, side);
    assert s.ack == s.next >= 1;
    assert r.synced && AckIndex(r) >= s.next;
  }

  /** Section 3.5 of RFC 793: an endpoint that is still lingering, because its peer did not finish first, closes
      only after ten initial timeouts without a segment; one that is not lingering has seen its peer's end. */
  lemma LingersBeforeClosing(cfg: Pair<Config>, es: seq<Event>, side: Side)
    requires Reached(cfg, es)
    ensures var c := Run(Start(cfg), es).conn.Get(side);
            && (!c.Active() && !c.Errored() && c.linger ==> c.QuietLongEnough())
            && (!c.linger ==> c.recv.reasm.out.ended)
  {
    hide Run, ValidRun, Link, Orderly;
    LinkHolds(cfg, es, side);
  }
}
