/** Invariants of the sender over every step, whatever acks arrive.

    - Tiling: the retransmission queue covers [ack, next) without gap or overlap.
    - Every segment ever queued for sending is exactly the piece of the sequence space its number names:
      SYN at 0, then the stream's bytes, then FIN.
    - Window discipline and the retransmission timer (section 5 of RFC 6298). */
module SenderProofs {
  import opened Wrapping
  import opened ByteStreams
  import opened Segments
  import opened Senders

  /** What a sender has to say: where it starts, the bytes written so far, and whether that is all. */
  datatype Text = Text(isn: U32, bytes: seq<Byte>, ended: bool)

  function TextOf(s: Sender): Text {
    Text(s.isn, s.stream.written, s.stream.ended)
  }

  /** Writing extends the text; after its end it stays as it is. */
  predicate Extends(t: Text, t': Text) {
    t.isn == t'.isn && t.bytes <= t'.bytes && (t.ended ==> t == t')
  }

  /** `seg` is the piece of the sequence space at absolute number `a`. */
  predicate Piece(seg: Segment, a: nat, t: Text) {
    && seg.seqno == Wrap(a, t.isn) && !seg.rst && |seg.payload| <= MAX_PAYLOAD
    && (seg.syn <==> a == 0)
    && (a == 0 ==> seg.payload == [] && !seg.fin)
    && (seg.payload != [] ==>
          a - 1 + |seg.payload| <= |t.bytes| && seg.payload == t.bytes[a - 1..a - 1 + |seg.payload|])
    && (seg.fin ==> t.ended && a - 1 + |seg.payload| == |t.bytes|)
  }

  /** The queue covers [a, b) with non-empty pieces, each starting where the previous one ends. */
  ghost predicate Tiles(q: seq<Outstanding>, a: nat, b: nat, t: Text) {
    if q == [] then a == b
    else
      && Piece(q[0].seg, a, t) && SeqLen(q[0].seg) > 0 && !q[0].seg.ack
      && q[0].ackIndex == a + SeqLen(q[0].seg)
      && Tiles(q[1..], q[0].ackIndex, b, t)
  }

  /** `seg`, not yet stamped with an acknowledgment, is some piece of the text, all of it below
      absolute number `limit`. */
  ghost predicate Genuine(seg: Segment, t: Text, limit: nat) {
    !seg.ack && exists a: nat :: Piece(seg, a, t) && a + SeqLen(seg) <= limit
  }

  ghost predicate AllGenuine(out: seq<Segment>, t: Text, limit: nat) {
    forall k :: 0 <= k < |out| ==> Genuine(out[k], t, limit)
  }

  ghost predicate Queued(s: Sender) {
    Tiles(s.inflight, s.ack, s.next, TextOf(s)) && AllGenuine(s.out, TextOf(s), s.next)
  }

  /** How the next number to send follows from what has been taken from the stream. */
  predicate Position(s: Sender) {
    && s.stream.Valid() && |s.stream.written| + 2 < NO_FIN
    && (s.next == 0 ==> s.stream.read == 0 && !s.FinSent())
    && (s.next > 0 ==> s.next == 1 + s.stream.read + if s.FinSent() then 1 else 0)
    && (s.FinSent() ==> s.finAck == s.next && s.stream.Eof())
  }

  /** At most one probe passes the highest advertised edge, and nothing beyond the edge is acknowledged. */
  predicate Disciplined(s: Sender) {
    1 <= s.edge && s.ack <= s.edge && s.next <= s.edge + 1 && s.edge <= s.next + 0xFFFF
  }

  ghost predicate SenderInv(s: Sender) {
    Position(s) && Queued(s) && Disciplined(s)
  }

  // ---- Tiling ----

  lemma {:induction false} TilesAppend(q: seq<Outstanding>, a: nat, b: nat, t: Text, seg: Segment)
    requires Tiles(q, a, b, t) && Piece(seg, b, t) && SeqLen(seg) > 0 && !seg.ack
    ensures Tiles(q + [Outstanding(seg, b + SeqLen(seg))], a, b + SeqLen(seg), t)
  {
    var o := Outstanding(seg, b + SeqLen(seg));
    if q == [] {
      assert (q + [o])[1..] == [];
    } else {
      assert (q + [o])[1..] == q[1..] + [o];
      TilesAppend(q[1..], q[0].ackIndex, b, t, seg);
    }
  }

  lemma PieceExtends(seg: Segment, a: nat, t: Text, t': Text)
    requires Piece(seg, a, t) && Extends(t, t')
    ensures Piece(seg, a, t')
  {
    if seg.payload != [] {
      assert t'.bytes[a - 1..a - 1 + |seg.payload|] == t.bytes[a - 1..a - 1 + |seg.payload|];
    }
  }

  lemma {:induction false} TilesExtends(q: seq<Outstanding>, a: nat, b: nat, t: Text, t': Text)
    requires Tiles(q, a, b, t) && Extends(t, t')
    ensures Tiles(q, a, b, t')
  {
    if q == [] {
    } else {
      PieceExtends(q[0].seg, a, t, t');
      TilesExtends(q[1..], q[0].ackIndex, b, t, t');
    }
  }

  lemma {:induction false} TilesForward(q: seq<Outstanding>, a: nat, b: nat, t: Text)
    requires Tiles(q, a, b, t)
    ensures a <= b && (a == b <==> q == [])
    ensures forall k :: 0 <= k < |q| ==> q[k].ackIndex <= b
  {
    if q == [] {
    } else {
      TilesForward(q[1..], q[0].ackIndex, b, t);
      assert forall k :: 1 <= k < |q| ==> q[k] == q[1..][k - 1];
    }
  }

  function TotalLen(q: seq<Outstanding>): nat {
    if q == [] then 0 else SeqLen(q[0].seg) + TotalLen(q[1..])
  }

  /** Bytes in flight is the total sequence length of the queue. */
  lemma {:induction false} TilesTotal(q: seq<Outstanding>, a: nat, b: nat, t: Text)
    requires Tiles(q, a, b, t)
    ensures b - a == TotalLen(q)
  {
    if q == [] {
    } else {
      TilesTotal(q[1..], q[0].ackIndex, b, t);
    }
  }

  /** The outstanding segment is a piece of the text that includes number `x`. */
  predicate Covers(o: Outstanding, x: nat, t: Text) {
    && SeqLen(o.seg) <= o.ackIndex && o.ackIndex - SeqLen(o.seg) <= x < o.ackIndex
    && Piece(o.seg, o.ackIndex - SeqLen(o.seg), t)
  }

  /** Some outstanding segment covers every number of [a, b). */
  lemma {:induction false} TilesCover(q: seq<Outstanding>, a: nat, b: nat, t: Text, x: nat)
    requires Tiles(q, a, b, t) && a <= x < b
    ensures exists k :: 0 <= k < |q| && Covers(q[k], x, t)
  {
    if x < q[0].ackIndex {
      assert Covers(q[0], x, t);
    } else {
      TilesCover(q[1..], q[0].ackIndex, b, t, x);
      var k :| 0 <= k < |q[1..]| && Covers(q[1..][k], x, t);
      assert q[k + 1] == q[1..][k];
    }
  }

  lemma GenuineExtends(seg: Segment, t: Text, n: nat, t': Text, n': nat)
    requires Genuine(seg, t, n) && Extends(t, t') && n <= n'
    ensures Genuine(seg, t', n')
  {
    var a: nat :| Piece(seg, a, t) && a + SeqLen(seg) <= n;
    PieceExtends(seg, a, t, t');
  }

  lemma OutExtends(out: seq<Segment>, t: Text, n: nat, t': Text, n': nat)
    requires AllGenuine(out, t, n) && Extends(t, t') && n <= n'
    ensures AllGenuine(out, t', n')
  {
    forall k | 0 <= k < |out|
      ensures Genuine(out[k], t', n')
    {
      GenuineExtends(out[k], t, n, t', n');
    }
  }

  lemma OutAppend(out: seq<Segment>, seg: Segment, a: nat, t: Text, n: nat)
    requires AllGenuine(out, t, n) && Piece(seg, a, t) && a + SeqLen(seg) <= n && !seg.ack
    ensures AllGenuine(out + [seg], t, n)
  {
    assert Genuine(seg, t, n);
  }

  lemma SendNewKeeps(s: Sender, seg: Segment)
    requires Queued(s) && Piece(seg, s.next, TextOf(s)) && SeqLen(seg) > 0 && !seg.ack
    ensures Queued(SendNew(s, seg))
  {
    var t := TextOf(s);
    TilesAppend(s.inflight, s.ack, s.next, t, seg);
    OutExtends(s.out, t, s.next, t, s.next + SeqLen(seg));
    OutAppend(s.out, seg, s.next, t, s.next + SeqLen(seg));
  }

  // ---- Filling the window ----

  /** `data` is the stretch of the stream that comes next, and what follows it is `fin` or nothing. */
  predicate UpNext(s: Sender, data: seq<Byte>, fin: bool) {
    && s.next >= 1 && s.next - 1 + |data| <= |s.stream.written|
    && data == s.stream.written[s.next - 1..s.next - 1 + |data|]
    && (fin ==> s.stream.ended && s.next - 1 + |data| == |s.stream.written|)
  }

  /** The first `k` bytes of what comes next form the piece at the next number; with the FIN if it is due. */
  lemma NextPiece(s: Sender, data: seq<Byte>, fin: bool, k: nat, withFin: bool)
    requires UpNext(s, data, fin) && k <= |data| && k <= MAX_PAYLOAD && (withFin ==> fin && k == |data|)
    ensures Piece(InitSeg(s).(payload := data[..k], fin := withFin), s.next, TextOf(s))
  {
    assert data[..k] == s.stream.written[s.next - 1..s.next - 1 + k];
  }

  lemma UpNextAfter(s: Sender, data: seq<Byte>, fin: bool, k: nat)
    requires UpNext(s, data, fin) && k <= |data|
    ensures UpNext(SendNew(s, InitSeg(s).(payload := data[..k])), data[k..], fin)
  {
    assert data[k..] == s.stream.written[s.next - 1 + k..s.next - 1 + |data|];
  }

  lemma {:induction false} SendDataTiles(s: Sender, data: seq<Byte>, fin: bool)
    requires Queued(s) && UpNext(s, data, fin)
    ensures var r := SendData(s, data, fin);
            && Queued(r)
            && r.next == s.next + |data| + (if fin then 1 else 0)
            && r.finAck == if fin then r.next else s.finAck
    decreases |data|
  {
    hide Piece, UpNext, Tiles, AllGenuine;
    if |data| > MAX_PAYLOAD {
      var seg := InitSeg(s).(payload := data[..MAX_PAYLOAD]);
      NextPiece(s, data, fin, MAX_PAYLOAD, false);
      SendNewKeeps(s, seg);
      UpNextAfter(s, data, fin, MAX_PAYLOAD);
      SendDataTiles(SendNew(s, seg), data[MAX_PAYLOAD..], fin);
    } else if data != [] || fin {
      assert data[..|data|] == data;
      NextPiece(s, data, fin, |data|, fin);
      SendNewKeeps(s, InitSeg(s).(payload := data, fin := fin));
    }
  }

  /** `r` differs from `s` only in what filling the window may change. */
  predicate OnlyFilled(s: Sender, r: Sender) {
    r == s.(stream := s.stream.(read := r.stream.read), next := r.next, finAck := r.finAck,
            inflight := r.inflight, out := r.out)
  }

  lemma FillDataKeeps(s: Sender)
    requires Position(s) && Queued(s) && s.next >= 1 && s.next != s.finAck && s.edge <= s.next + 0x1_0000
    ensures var r := SendData(s.(stream := StreamRead(s.stream, FillSize(s))), NextData(s), FinFits(s));
            Position(r) && Queued(r) && s.next <= r.next <= Max(s.next, s.edge) && OnlyFilled(s, r)
  {
    hide SendData, Tiles, AllGenuine;
    var n := ReadSize(s.stream, FillSize(s));
    var s0 := s.(stream := StreamRead(s.stream, FillSize(s)));
    assert NextData(s) == s.stream.written[s.next - 1..s.next - 1 + n];
    assert TextOf(s0) == TextOf(s);
    SendDataKeeps(s0, NextData(s), FinFits(s));
    SendDataTiles(s0, NextData(s), FinFits(s));
  }

  /** Filling never sends beyond the edge. */
  lemma FillWindowKeeps(s: Sender)
    requires Position(s) && Queued(s) && 1 <= s.edge <= s.next + 0x1_0000
    ensures var r := FillWindow(s);
            Position(r) && Queued(r) && s.next <= r.next <= Max(s.next, s.edge) && OnlyFilled(s, r)
  {
    if s.next != s.finAck {
      if s.next == 0 {
        SendNewKeeps(s, InitSeg(s).(syn := true));
      } else {
        hide SendData, NextData, FinFits, Queued, Position;
        FillDataKeeps(s);
      }
    }
  }

  // ---- Acks, ticks and application calls ----

  lemma {:induction false} PopAckedKeeps(s: Sender, a: nat)
    requires Queued(s) && s.ack <= a
    ensures var p := PopAcked(s, a);
            && Queued(p) && s.ack <= p.ack <= a
            && |p.inflight| <= |s.inflight|
            && (|p.inflight| == |s.inflight| ==> p == s)
            && (p.inflight != [] ==> a < p.inflight[0].ackIndex)
    decreases |s.inflight|
  {
    if s.inflight != [] && s.inflight[0].ackIndex <= a {
      PopAckedKeeps(s.(ack := s.inflight[0].ackIndex, inflight := s.inflight[1..]), a);
    }
  }

  lemma TakeAckKeeps(s: Sender, a: nat, win: U16)
    requires SenderInv(s) && s.ack <= a <= s.next
    ensures var r := TakeAck(s, a, win);
            && SenderInv(r) && a + win <= r.edge && s.ack <= r.ack <= a
            && r == s.(ack := r.ack, inflight := r.inflight, edge := Max(s.edge, a + win),
                       rto := r.rto, retx := r.retx, elapsed := r.elapsed)
  {
    PopKeepsStream(s, a);
    PopAckedKeeps(s, a);
  }

  lemma FillOrProbeKeeps(s: Sender, win: U16)
    requires SenderInv(s)
    ensures var r := FillOrProbe(s, win);
            SenderInv(r) && OnlyFilled(s, r) && s.next <= r.next
  {
    hide FillWindow, Tiles, AllGenuine;
    if win == 0 {
      FillWindowKeeps(s.(edge := s.edge + 1));
    } else {
      FillWindowKeeps(s);
    }
  }

  /** Any ack whatsoever, genuine, stale or forged, keeps the sender's invariant. */
  lemma AckReceivedKeeps(s: Sender, ackno: U32, win: U16)
    requires SenderInv(s)
    ensures SenderInv(AckReceived(s, ackno, win))
  {
    hide FillOrProbe, TakeAck, SenderInv;
    if Accepts(s, ackno) {
      TakeAckKeeps(s, AbsAck(s, ackno), win);
      FillOrProbeKeeps(TakeAck(s, AbsAck(s, ackno), win), win);
    }
  }

  lemma FillKeepsInv(s: Sender)
    requires SenderInv(s)
    ensures SenderInv(FillWindow(s))
  {
    FillWindowKeeps(s);
  }

  lemma TickKeeps(s: Sender, ms: nat)
    requires SenderInv(s)
    ensures SenderInv(Tick(s, ms))
  {
    if s.inflight != [] {
      TilesForward(s.inflight, s.ack, s.next, TextOf(s));
      OutAppend(s.out, s.inflight[0].seg, s.ack, TextOf(s), s.next);
    }
  }

  lemma SendEmptyAckKeeps(s: Sender)
    requires SenderInv(s)
    ensures SenderInv(SendEmptyAck(s))
  {
    if s.next == 0 {
      SendNewKeeps(s, InitSeg(s).(syn := true));
    } else {
      OutAppend(s.out, InitSeg(s), s.next, TextOf(s), s.next);
    }
  }

  lemma WriteKeeps(s: Sender, data: seq<Byte>)
    requires SenderInv(s) && !s.stream.ended && |s.stream.written| + |data| + 2 < NO_FIN
    ensures SenderInv(WriteStream(s, data)) && Extends(TextOf(s), TextOf(WriteStream(s, data)))
  {
    var t, t' := TextOf(s), TextOf(WriteStream(s, data));
    TilesExtends(s.inflight, s.ack, s.next, t, t');
    OutExtends(s.out, t, s.next, t', s.next);
  }

  lemma EndKeeps(s: Sender)
    requires SenderInv(s)
    ensures SenderInv(EndStream(s)) && Extends(TextOf(s), TextOf(EndStream(s)))
  {
    var t, t' := TextOf(s), TextOf(EndStream(s));
    TilesExtends(s.inflight, s.ack, s.next, t, t');
    OutExtends(s.out, t, s.next, t', s.next);
  }

  /** The connection takes queued segments away. */
  lemma DrainKeeps(s: Sender)
    requires SenderInv(s)
    ensures SenderInv(s.(out := []))
  {
  }

  // ---- Retransmission timer ----

  function Pow2(n: nat): nat {
    if n == 0 then 1 else 2 * Pow2(n - 1)
  }

  /** The timeout has doubled once per consecutive retransmission, the timer has not expired, and with
      nothing outstanding it is at rest, so it is right for the next segment without being started. */
  predicate TimerInv(s: Sender) {
    && s.initialRto > 0
    && s.rto == s.initialRto * Pow2(s.retx)
    && s.elapsed < s.rto
    && (s.inflight == [] ==> s.elapsed == 0 && s.retx == 0)
  }

  lemma TimerInit(isn: U32, rto: nat, capacity: nat)
    requires rto > 0
    ensures TimerInv(InitSender(isn, rto, capacity))
  {
    assert Pow2(0) == 1;
  }

  lemma FillKeepsTimer(s: Sender)
    requires SenderInv(s) && TimerInv(s)
    ensures TimerInv(FillWindow(s))
  {
    hide FillWindow;
    FillOnlyGrows(s);
  }

  /** Filling adds to the queue and touches no timer field. */
  lemma FillOnlyGrows(s: Sender)
    requires s.stream.Valid()
    ensures var r := FillWindow(s);
            && s.inflight <= r.inflight
            && r.rto == s.rto && r.retx == s.retx && r.elapsed == s.elapsed && r.initialRto == s.initialRto
  {
    if s.next != s.finAck && s.next > 0 {
      SendDataGrows(s.(stream := StreamRead(s.stream, FillSize(s))), NextData(s), FinFits(s));
    }
  }

  lemma {:induction false} SendDataGrows(s: Sender, data: seq<Byte>, fin: bool)
    ensures var r := SendData(s, data, fin);
            && s.inflight <= r.inflight
            && r.rto == s.rto && r.retx == s.retx && r.elapsed == s.elapsed && r.initialRto == s.initialRto
    decreases |data|
  {
    if |data| > MAX_PAYLOAD {
      SendDataGrows(SendNew(s, InitSeg(s).(payload := data[..MAX_PAYLOAD])), data[MAX_PAYLOAD..], fin);
    }
  }

  lemma AckKeepsTimer(s: Sender, ackno: U32, win: U16)
    requires SenderInv(s) && TimerInv(s)
    ensures TimerInv(AckReceived(s, ackno, win))
  {
    hide TakeAck, Queued, TimerInv, FillOrProbe, AbsAck;
    if Accepts(s, ackno) {
      var a := AbsAck(s, ackno);
      TakeAckTimer(s, a, win);
      TakeAckKeeps(s, a, win);
      ProbeKeepsTimer(TakeAck(s, a, win), win);
    }
  }

  lemma ProbeKeepsTimer(s: Sender, win: U16)
    requires s.stream.Valid() && TimerInv(s)
    ensures TimerInv(FillOrProbe(s, win))
  {
    hide FillWindow;
    FillOnlyGrows(if win == 0 then s.(edge := s.edge + 1) else s);
  }

  lemma TakeAckTimer(s: Sender, a: nat, win: U16)
    requires SenderInv(s) && TimerInv(s) && s.ack <= a
    ensures TimerInv(TakeAck(s, a, win))
  {
    PopKeepsStream(s, a);
    PopAckedKeeps(s, a);
    assert Pow2(0) == 1;
  }

  lemma TickKeepsTimer(s: Sender, ms: nat)
    requires SenderInv(s) && TimerInv(s)
    ensures TimerInv(Tick(s, ms))
  {
    assert s.initialRto * Pow2(s.retx + 1) == s.initialRto * Pow2(s.retx) * 2;
  }
}
