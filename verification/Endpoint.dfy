/** What one endpoint's calls do to its sender, beyond the sender's own invariant: progress is never
    taken back, and the window is always filled before a call returns. */
module Endpoints {
  import opened Wrapping
  import opened ByteStreams
  import opened Segments
  import opened Senders
  import opened SenderProofs
  import opened Connections
  import opened Links

  /** Nothing more can be sent now: the FIN is out, or the SYN is still to be sent, or the window is full,
      or the stream has nothing to give. */
  predicate Filled(s: Sender) {
    || s.next == s.finAck
    || s.next == 0
    || s.edge <= s.next
    || (s.stream.read == |s.stream.written| && !s.stream.ended)
  }

  /** Ending the stream sends at least the SYN, and no window is known before the SYN. */
  predicate Started(s: Sender) {
    (s.stream.ended ==> s.next >= 1) && (s.next == 0 ==> s.edge == 1)
  }

  /** With everything acknowledged, the advertised window is open. */
  predicate OpenWhenIdle(s: Sender) {
    s.next >= 1 && s.ack == s.next ==> s.edge > s.next
  }

  /** The sender's side invariant; `zero` says whether an accepted ack ever advertised a closed window. */
  ghost predicate SideInv(s: Sender, zero: bool) {
    SenderInv(s) && Filled(s) && Started(s) && (!zero ==> OpenWhenIdle(s))
  }

  lemma FillFills(s: Sender)
    requires Position(s) && Queued(s) && 1 <= s.edge <= s.next + 0x1_0000 && (s.next == 0 ==> s.edge == 1)
    ensures var r := FillWindow(s);
            Filled(r) && r.next >= 1 && (r.next == s.next ==> r.ack == s.ack && r.edge == s.edge)
  {
    if s.next != s.finAck && s.next > 0 {
      var n := ReadSize(s.stream, FillSize(s));
      var s0 := s.(stream := StreamRead(s.stream, FillSize(s)));
      assert NextData(s) == s.stream.written[s.next - 1..s.next - 1 + n];
      assert TextOf(s0) == TextOf(s);
      SendDataKeeps(s0, NextData(s), FinFits(s));
      SendDataTiles(s0, NextData(s), FinFits(s));
      hide SendData;
    }
  }

  lemma AckAtMostNext(s: Sender)
    requires Queued(s)
    ensures s.ack <= s.next && (s.ack == s.next <==> s.inflight == [])
  {
    TilesForward(s.inflight, s.ack, s.next, TextOf(s));
  }

  /** Filling takes bytes from the stream but does not change the text. */
  lemma SameTextAdvances(s: Sender, r: Sender)
    requires OnlyFilled(s, r) && Position(s) && Position(r) && s.next <= r.next
    ensures Advances(s, r)
  {
  }

  lemma AdvancesTrans(s: Sender, r: Sender, q: Sender)
    requires Advances(s, r) && Advances(r, q)
    ensures Advances(s, q)
  {
  }

  /** Filling from a state that need not be filled yet. */
  lemma FillSide(s: Sender, zero: bool)
    requires SenderInv(s) && (s.next == 0 ==> s.edge == 1) && (!zero ==> OpenWhenIdle(s))
    ensures SideInv(FillWindow(s), zero) && Advances(s, FillWindow(s)) && FillWindow(s).ack == s.ack
  {
    hide FillWindow, Tiles, AllGenuine;
    FillWindowKeeps(s);
    FillFills(s);
    AckAtMostNext(s);
    SameTextAdvances(s, FillWindow(s));
  }

  lemma ProbeSide(s: Sender)
    requires SenderInv(s) && s.next >= 1
    ensures SideInv(FillOrProbe(s, 0), true) && Advances(s, FillOrProbe(s, 0)) && FillOrProbe(s, 0).ack == s.ack
  {
    hide FillWindow, Tiles, AllGenuine;
    FillWindowKeeps(s.(edge := s.edge + 1));
    FillFills(s.(edge := s.edge + 1));
  }

  /** An ack of something sent, taken from the peer's log. */
  lemma AckSide(s: Sender, ackno: U32, win: U16, zero: bool)
    requires SideInv(s, zero) && AbsAck(s, ackno) >= 1
    ensures var s' := AckReceived(s, ackno, win);
            var zero' := zero || (Accepts(s, ackno) && win == 0);
            SideInv(s', zero') && Advances(s, s') && s'.ack <= Max(s.ack, AbsAck(s, ackno))
  {
    if Accepts(s, ackno) {
      var a := AbsAck(s, ackno);
      TakeAckKeeps(s, a, win);
      hide AckReceived, TakeAck, FillWindow, SenderInv, AbsAck;
      var r := TakeAck(s, a, win);
      assert AckReceived(s, ackno, win) == FillOrProbe(r, win) by {
        AckUnfolds(s, ackno, win);
      }
      if win == 0 {
        ProbeSide(r);
      } else {
        FillSide(r, false);
      }
    }
  }

  lemma AckUnfolds(s: Sender, ackno: U32, win: U16)
    requires s.stream.Valid() && Accepts(s, ackno)
    ensures TakeAck(s, AbsAck(s, ackno), win).stream == s.stream
    ensures AckReceived(s, ackno, win) == FillOrProbe(TakeAck(s, AbsAck(s, ackno), win), win)
  {
    PopKeepsStream(s, AbsAck(s, ackno));
  }

  lemma EmptyAckSide(s: Sender, zero: bool)
    requires SideInv(s, zero)
    ensures SideInv(SendEmptyAck(s), zero) && Advances(s, SendEmptyAck(s)) && SendEmptyAck(s).ack == s.ack
  {
    SendEmptyAckKeeps(s);
    AckAtMostNext(s);
    hide Queued;
  }

  /** The sender's whole part in a delivery. */
  lemma SegmentSide(s: Sender, seg: Segment, zero: bool)
    requires SideInv(s, zero) && (seg.ack ==> AbsAck(s, seg.ackno) >= 1)
    ensures var s' := SenderOnSegment(s, seg);
            var zero' := zero || (seg.ack && Accepts(s, seg.ackno) && seg.win == 0);
            && SideInv(s', zero') && Advances(s, s')
            && s'.ack <= if seg.ack then Max(s.ack, AbsAck(s, seg.ackno)) else s.ack
  {
    hide AckReceived, SendEmptyAck, SideInv, AbsAck, Advances;
    SideStream(s, zero);
    AdvancesSelf(s);
    var s1, zero1 := s, zero;
    if seg.ack {
      AckSide(s, seg.ackno, seg.win, zero);
      s1 := AckReceived(s, seg.ackno, seg.win);
      zero1 := zero || (Accepts(s, seg.ackno) && seg.win == 0);
    }
    EmptyAckSide(s1, zero1);
    AdvancesTrans(s, s1, SendEmptyAck(s1));
  }

  lemma SideStream(s: Sender, zero: bool)
    requires SideInv(s, zero)
    ensures s.stream.Valid() && (s.FinSent() ==> s.stream.ended)
  {
  }

  lemma AdvancesSelf(s: Sender)
    requires s.FinSent() ==> s.stream.ended
    ensures Advances(s, s)
  {
  }

  lemma TickSide(s: Sender, ms: nat, zero: bool)
    requires SideInv(s, zero)
    ensures SideInv(Tick(s, ms), zero) && Advances(s, Tick(s, ms)) && Tick(s, ms).ack == s.ack
  {
    TickKeeps(s, ms);
    hide Queued;
  }

  lemma WriteSide(s: Sender, data: seq<Byte>, zero: bool)
    requires SideInv(s, zero) && !s.stream.ended && |s.stream.written| + |data| + 2 < NO_FIN
    ensures var s' := FillWindow(WriteStream(s, data));
            SideInv(s', zero) && Advances(s, s') && s'.ack == s.ack
  {
    SideStream(s, zero);
    hide SenderInv, FillWindow;
    WriteKeeps(s, data);
    var r := WriteStream(s, data);
    FillSide(r, zero);
    assert Advances(s, r);
    hide Advances, SideInv;
    AdvancesTrans(s, r, FillWindow(r));
  }

  lemma EndSide(s: Sender, zero: bool)
    requires SideInv(s, zero)
    ensures var s' := FillWindow(EndStream(s));
            SideInv(s', zero) && Advances(s, s') && s'.ack == s.ack
  {
    SideStream(s, zero);
    hide SenderInv, FillWindow;
    EndKeeps(s);
    var r := EndStream(s);
    FillSide(r, zero);
    assert Advances(s, r);
    hide Advances, SideInv;
    AdvancesTrans(s, r, FillWindow(r));
  }

  /** With the stream over and the window filled, filling again does nothing. */
  lemma FillNoop(s: Sender)
    requires s.stream.Valid() && Filled(s) && s.stream.ended && s.next >= 1
    ensures FillWindow(s) == s
  {
    if s.next != s.finAck {
      assert NextData(s) == [] && StreamRead(s.stream, 0) == s.stream;
    }
  }
}
