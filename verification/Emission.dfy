/** What goes on the wire, call by call: fresh segments are exactly what joins the retransmission queue, cut as
    large as allowed; a segment that occupies sequence numbers is answered once, any other never; and every header
    tells where the receiver stands. */
module Emission {
  import opened Wrapping
  import opened ByteStreams
  import opened Segments
  import opened Receivers
  import opened Senders
  import opened SenderProofs
  import opened Connections
  import opened Links
  import opened Endpoints
  import opened Duplexes
  import opened Networks
  import opened EndToEnd

  function SegsOf(q: seq<Outstanding>): (segs: seq<Segment>)
    ensures |segs| == |q|
    ensures forall k :: 0 <= k < |q| ==> segs[k] == q[k].seg
  {
    if q == [] then [] else [q[0].seg] + SegsOf(q[1..])
  }

  /** No more segments than needed: all but the last carry 1000 bytes, and the last of several is not empty. */
  predicate WellCut(q: seq<Outstanding>) {
    && (forall k :: 0 <= k < |q| - 1 ==> |q[k].seg.payload| == 1000)
    && (|q| > 1 ==> q[|q| - 1].seg.payload != [])
  }

  /** `r` has queued and emitted `more` beyond `s`, and nothing else. */
  ghost predicate Added(s: Sender, r: Sender, more: seq<Outstanding>) {
    r.inflight == s.inflight + more && r.out == s.out + SegsOf(more)
  }

  // ---- Filling ----

  lemma AddedNothing(s: Sender)
    ensures Added(s, s, [])
  {
    assert s.inflight + [] == s.inflight && s.out + [] == s.out;
  }

  lemma AddedOne(s: Sender, seg: Segment)
    ensures Added(s, SendNew(s, seg), [Outstanding(seg, s.next + SeqLen(seg))])
  {
    assert SegsOf([Outstanding(seg, s.next + SeqLen(seg))]) == [seg];
  }

  lemma AddedTrans(s: Sender, r: Sender, t: Sender, x: seq<Outstanding>, y: seq<Outstanding>)
    requires Added(s, r, x) && Added(r, t, y)
    ensures Added(s, t, x + y)
  {
    SegsConcat(x, y);
    hide SegsOf;
    assert s.inflight + x + y == s.inflight + (x + y);
    assert s.out + SegsOf(x) + SegsOf(y) == s.out + (SegsOf(x) + SegsOf(y));
  }

  lemma SegsConcat(x: seq<Outstanding>, y: seq<Outstanding>)
    ensures SegsOf(x + y) == SegsOf(x) + SegsOf(y)
  {
    hide SegsOf;
  }

  lemma {:induction false} SendDataAdds(s: Sender, data: seq<Byte>, fin: bool) returns (more: seq<Outstanding>)
    ensures Added(s, SendData(s, data, fin), more) && WellCut(more)
    ensures data != [] ==> more != [] && more[|more| - 1].seg.payload != []
    decreases |data|
  {
    hide Added;
    if |data| > MAX_PAYLOAD {
      var seg := InitSeg(s).(payload := data[..MAX_PAYLOAD]);
      var rest := SendDataAdds(SendNew(s, seg), data[MAX_PAYLOAD..], fin);
      more := [Outstanding(seg, s.next + SeqLen(seg))] + rest;
      AddedOne(s, seg);
      AddedTrans(s, SendNew(s, seg), SendData(s, data, fin), more[..1], rest);
      assert more[1..] == rest && more[..1] + rest == more;
    } else if data != [] || fin {
      var seg := InitSeg(s).(payload := data, fin := fin);
      more := [Outstanding(seg, s.next + SeqLen(seg))];
      AddedOne(s, seg);
      SameQueues(s, SendNew(s, seg), SendData(s, data, fin), more);
    } else {
      more := [];
      AddedNothing(s);
    }
  }

  lemma SameQueues(s: Sender, r: Sender, t: Sender, more: seq<Outstanding>)
    requires Added(s, r, more) && t.inflight == r.inflight && t.out == r.out
    ensures Added(s, t, more)
  {
  }

  lemma FillAdds(s: Sender) returns (more: seq<Outstanding>)
    requires s.stream.Valid()
    ensures Added(s, FillWindow(s), more) && WellCut(more)
  {
    hide Added;
    if s.next == s.finAck {
      more := [];
      AddedNothing(s);
    } else if s.next == 0 {
      more := [Outstanding(InitSeg(s).(syn := true), 1)];
      AddedOne(s, InitSeg(s).(syn := true));
    } else {
      var s0 := s.(stream := StreamRead(s.stream, FillSize(s)));
      more := SendDataAdds(s0, NextData(s), FinFits(s));
      FromSameQueues(s0, s, FillWindow(s), more);
    }
  }

  lemma FromSameQueues(s: Sender, r: Sender, t: Sender, more: seq<Outstanding>)
    requires Added(s, t, more) && s.inflight == r.inflight && s.out == r.out
    ensures Added(r, t, more)
  {
  }

  /** What is added to a tiled queue tiles the numbers added. */
  lemma {:induction false} TilesRest(q: seq<Outstanding>, more: seq<Outstanding>, a: nat, b: nat, c: nat, t: Text)
    requires Tiles(q, a, b, t) && Tiles(q + more, a, c, t)
    ensures Tiles(more, b, c, t)
  {
    if q == [] {
      assert q + more == more;
    } else {
      assert (q + more)[1..] == q[1..] + more;
      TilesRest(q[1..], more, q[0].ackIndex, b, c, t);
    }
  }

  /** What filling emits: `more` tiles the numbers from the old next one to the new one. */
  ghost predicate Fresh(s: Sender, r: Sender, more: seq<Outstanding>) {
    && Tiles(more, s.next, r.next, TextOf(r)) && WellCut(more)
    && r.out == s.out + SegsOf(more)
    && |more| <= |r.inflight| && r.inflight[|r.inflight| - |more|..] == more
  }

  lemma FillFresh(s: Sender) returns (more: seq<Outstanding>)
    requires SenderInv(s)
    ensures Fresh(s, FillWindow(s), more)
  {
    more := FillAdds(s);
    FillWindowKeeps(s);
    hide FillWindow, Tiles, AllGenuine, WellCut;
    var r := FillWindow(s);
    TilesRest(s.inflight, more, s.ack, s.next, r.next, TextOf(r));
  }

  /** The probe fills with one number more. */
  lemma ProbeFresh(s: Sender) returns (more: seq<Outstanding>)
    requires SenderInv(s)
    ensures Fresh(s, FillOrProbe(s, 0), more)
  {
    var w := s.(edge := s.edge + 1);
    more := FillAdds(w);
    FillWindowKeeps(w);
    hide FillWindow, Tiles, AllGenuine, WellCut;
    var r := FillWindow(w);
    TilesRest(s.inflight, more, s.ack, s.next, r.next, TextOf(r));
  }

  lemma AckFresh(s: Sender, ackno: U32, win: U16) returns (more: seq<Outstanding>)
    requires SenderInv(s)
    ensures Fresh(s, AckReceived(s, ackno, win), more)
  {
    if Accepts(s, ackno) {
      var a := AbsAck(s, ackno);
      TakeAckKeeps(s, a, win);
      AckUnfolds(s, ackno, win);
      hide AckReceived, TakeAck, FillWindow, FillOrProbe, AbsAck, SenderInv, Tiles, WellCut;
      var r := TakeAck(s, a, win);
      if win == 0 {
        more := ProbeFresh(r);
      } else {
        more := FillFresh(r);
        assert FillOrProbe(r, win) == FillWindow(r) by { OpenFill(r, win); }
      }
    } else {
      more := [];
      assert s.out + SegsOf([]) == s.out;
    }
  }

  lemma OpenFill(s: Sender, win: U16)
    requires s.stream.Valid() && win > 0
    ensures FillOrProbe(s, win) == FillWindow(s)
  {
  }

  // ---- Whole calls ----

  /** `r` has queued `more`, which tiles the numbers between the next one of `s` and its own. */
  ghost predicate Grown(s: Sender, r: Sender, more: seq<Outstanding>) {
    && Tiles(more, s.next, r.next, TextOf(r)) && WellCut(more)
    && |more| <= |r.inflight| && r.inflight[|r.inflight| - |more|..] == more
  }

  /** A segment that occupies no sequence numbers, at the next one. */
  function Answer(s: Sender, answered: bool): seq<Segment> {
    if answered then [Bare(Wrap(s.next, s.isn))] else []
  }

  /** What a call puts on the wire: fresh pieces that tile the numbers it adds, then, if `answered`, one segment
      that occupies none; each stamped with what the receiver has by then. */
  ghost predicate Emits(c: Conn, o: Outcome, answered: bool) {
    && o.conn.recv.Valid()
    && exists more: seq<Outstanding> ::
         && Grown(c.send, o.conn.send, more)
         && o.sent == StampAll(SegsOf(more) + Answer(o.conn.send, answered), o.conn.recv)
  }

  /** Draining sends just what the sender has queued. */
  lemma CleanEmits(c: Conn, c1: Conn, answered: bool, more: seq<Outstanding>)
    requires c1.Valid() && Grown(c.send, c1.send, more)
    requires c1.send.out == SegsOf(more) + Answer(c1.send, answered)
    ensures Emits(c, Clean(c1), answered)
  {
    var o := Clean(c1);
    assert o.conn.send == c1.send.(out := []) && o.conn.recv == c1.recv && o.sent == StampAll(c1.send.out, c1.recv);
    assert Answer(o.conn.send, answered) == Answer(c1.send, answered);
    assert Grown(c.send, o.conn.send, more) by { GrownDrained(c.send, c1.send, more); }
    hide Grown, Clean, StampAll, SegsOf, Answer;
  }

  lemma GrownDrained(s: Sender, r: Sender, more: seq<Outstanding>)
    requires Grown(s, r, more)
    ensures Grown(s, r.(out := []), more)
  {
    hide Tiles, WellCut;
  }

  lemma FreshGrows(s: Sender, r: Sender, s0: Sender, more: seq<Outstanding>)
    requires Fresh(s, r, more) && s.out == [] && s0.next == s.next
    ensures Grown(s0, r, more) && r.out == SegsOf(more) + Answer(r, false)
  {
    hide Tiles, WellCut, SegsOf;
    assert [] + SegsOf(more) == SegsOf(more) + [];
  }

  /** Filling after a change of the stream, then draining. */
  lemma FillEmits(c: Conn, s: Sender)
    requires c.Valid() && SenderInv(s) && s.out == [] && s.next == c.send.next
    ensures FillWindow(s).stream.Valid() && Emits(c, Clean(c.(send := FillWindow(s))), false)
  {
    hide FillWindow, Grown, Fresh, StampAll, SegsOf, Clean, Emits, Queued;
    FillKeepsStreamValid(s);
    var more := FillFresh(s);
    FreshGrows(s, FillWindow(s), c.send, more);
    CleanEmits(c, c.(send := FillWindow(s)), false, more);
  }

  /** The sender's part in a delivery: what the ack lets out, then the answer. */
  lemma SegmentFresh(s: Sender, seg: Segment, zero: bool) returns (more: seq<Outstanding>)
    requires SideInv(s, zero) && s.out == [] && (seg.ack ==> AbsAck(s, seg.ackno) >= 1)
    ensures var r := SenderOnSegment(s, seg);
            Grown(s, r, more) && r.out == SegsOf(more) + Answer(r, SeqLen(seg) > 0 && s.next > 0)
  {
    if s.next == 0 {
      more := SynFresh(s, seg, zero);
    } else {
      hide AckReceived, AbsAck, Tiles, WellCut, SegsOf, Queued;
      var s1 := s;
      if seg.ack {
        more := AckFresh(s, seg.ackno, seg.win);
        s1 := AckReceived(s, seg.ackno, seg.win);
        AckSide(s, seg.ackno, seg.win, zero);
      } else {
        more := FreshNothing(s);
      }
      hide SideInv;
      AnswerFresh(s, s1, seg, more);
    }
  }

  lemma AnswerFresh(s: Sender, s1: Sender, seg: Segment, more: seq<Outstanding>)
    requires Fresh(s, s1, more) && s.out == [] && s.next > 0 && s1.next > 0
    ensures var r := if SeqLen(seg) > 0 then SendEmptyAck(s1) else s1;
            Grown(s, r, more) && r.out == SegsOf(more) + Answer(r, SeqLen(seg) > 0)
  {
    hide Tiles, WellCut, SegsOf;
    assert [] + SegsOf(more) == SegsOf(more) && SegsOf(more) + [] == SegsOf(more);
  }

  lemma FreshNothing(s: Sender) returns (more: seq<Outstanding>)
    ensures Fresh(s, s, more)
  {
    more := [];
    assert s.out + SegsOf([]) == s.out;
  }

  /** Before the SYN no ack is accepted, and the answer is the SYN itself. */
  lemma SynFresh(s: Sender, seg: Segment, zero: bool) returns (more: seq<Outstanding>)
    requires SideInv(s, zero) && s.out == [] && s.next == 0 && (seg.ack ==> AbsAck(s, seg.ackno) >= 1)
    ensures var r := SenderOnSegment(s, seg);
            Grown(s, r, more) && r.out == SegsOf(more) + Answer(r, false)
  {
    AckAtMostNext(s);
    hide AbsAck, FillOrProbe, TakeAck, SendEmptyAck, Grown;
    assert SenderOnSegment(s, seg) == if SeqLen(seg) > 0 then SendEmptyAck(s) else s;
    if SeqLen(seg) > 0 {
      more := SynQueued(s);
    } else {
      more := GrownNothing(s);
    }
  }

  lemma GrownNothing(s: Sender) returns (more: seq<Outstanding>)
    requires s.out == []
    ensures Grown(s, s, more) && s.out == SegsOf(more) + Answer(s, false)
  {
    more := [];
  }

  lemma SynQueued(s: Sender) returns (more: seq<Outstanding>)
    requires s.out == [] && s.next == 0
    ensures var r := SendEmptyAck(s);
            Grown(s, r, more) && r.out == SegsOf(more) + Answer(r, false)
  {
    var seg := InitSeg(s).(syn := true);
    more := [Outstanding(seg, 1)];
    AddedOne(s, seg);
    assert Piece(seg, 0, TextOf(s)) && Tiles(more[1..], 1, 1, TextOf(s));
  }

  lemma SegmentEmits(c: Conn, seg: Segment, zero: bool)
    requires c.Valid() && c.Active() && SideInv(c.send, zero) && c.send.out == [] && !seg.rst
    requires seg.ack ==> AbsAck(c.send, seg.ackno) >= 1
    ensures Emits(c, OnSegment(c, seg), SeqLen(seg) > 0 && c.send.next > 0)
  {
    hide SenderOnSegment, Clean, SideInv, AbsAck, Receive, Grown, Emits, Answer, SegsOf;
    var more := SegmentFresh(c.send, seg, zero);
    AbsorbedValid(c, seg);
    CleanEmits(c, Absorbed(c, seg), SeqLen(seg) > 0 && c.send.next > 0, more);
  }

  /** Passing time sends the oldest segment in flight when the timer expires; or one bare reset when all attempts
      are used up; or nothing. */
  ghost predicate TimeSends(c: Conn, ms: nat, sent: seq<Segment>) {
    && c.recv.Valid()
    && var s := c.send;
       if s.retx >= 8 then sent == [Bare(Wrap(s.next, s.isn)).(rst := true)]
       else if s.inflight != [] && s.elapsed + ms >= s.rto then sent == [Stamp(s.inflight[0].seg, c.recv)]
       else sent == []
  }

  lemma TickEmits(c: Conn, ms: nat)
    requires c.Valid() && c.Active() && c.send.out == []
    ensures TimeSends(c, ms, OnTick(c, ms).sent)
  {
    if c.send.retx < MAX_RETX_ATTEMPTS {
      var out := Tick(c.send, ms).out;
      assert OnTick(c, ms).sent == StampAll(out, c.recv);
      if out != [] {
        assert StampAll(out, c.recv) == [Stamp(out[0], c.recv)];
      }
    }
  }

  // ---- In every run ----

  /** What an event at side `e.side` adds to its log. */
  ghost predicate Sends(n: Net, e: Event, c': Conn, sent: seq<Segment>)
    requires Enabled(n, e)
  {
    var c := n.conn.Get(e.side);
    match e
    case Connect(_) => Emits(c, Outcome(c', sent), false)
    case Write(_, _) => Emits(c, Outcome(c', sent), false)
    case EndInput(_) => Emits(c, Outcome(c', sent), false)
    case Time(_, ms) => TimeSends(c, ms, sent)
    case AppRead(_, _) => sent == []
    case Deliver(side, k) =>
      var seg := n.log.Get(side.Other())[k];
      if seg.rst then sent == [] else Emits(c, Outcome(c', sent), SeqLen(seg) > 0 && c.send.next > 0)
  }

  lemma SideParts(n: Net, side: Side)
    requires NetInv(n)
    ensures var c := n.conn.Get(side);
            && c.Valid() && SideInv(c.send, n.zero.Get(side)) && SenderInv(c.send) && c.send.out == []
            && Link(c.send, n.conn.Get(side.Other()).recv, n.log.Get(side), n.log.Get(side.Other()))
  {
    assert Holds(n, side);
    hide Link, Orderly, SenderInv;
  }

  lemma StepSends(n: Net, e: Event) returns (sent: seq<Segment>)
    requires NetInv(n) && Enabled(n, e)
    ensures var n' := Step(n, e);
            && Sends(n, e, n'.conn.Get(e.side), sent) && n'.log.Get(e.side) == n.log.Get(e.side) + sent
            && n'.log.Get(e.side.Other()) == n.log.Get(e.side.Other())
  {
    var c, p, zero := n.conn.Get(e.side), n.conn.Get(e.side.Other()), n.zero.Get(e.side);
    var mine, theirs := n.log.Get(e.side), n.log.Get(e.side.Other());
    SideParts(n, e.side);
    hide NetInv, FillWindow, Clean, OnSegment, OnTick, SenderInv, SideInv, Link, Emits, TimeSends;
    match e
    case Connect(_) =>
      FillEmits(c, c.send);
      sent := OnConnect(c).sent;
    case Write(_, data) =>
      WriteKeeps(c.send, data);
      FillEmits(c, WriteStream(c.send, data));
      sent := OnWrite(c, data).sent;
    case EndInput(_) =>
      EndKeeps(c.send);
      FillEmits(c, EndStream(c.send));
      sent := OnEnd(c).sent;
    case Time(_, ms) =>
      TickEmits(c, ms);
      sent := OnTick(c, ms).sent;
    case AppRead(_, _) =>
      sent := [];
    case Deliver(_, k) =>
      DeliverSends(c, p, mine, theirs, zero, k);
      sent := OnSegment(c, theirs[k]).sent;
  }

  lemma DeliverSends(c: Conn, p: Conn, mine: seq<Segment>, theirs: seq<Segment>, zero: bool, k: nat)
    requires c.Valid() && c.Active() && SideInv(c.send, zero) && c.send.out == []
    requires Link(c.send, p.recv, mine, theirs) && k < |theirs|
    ensures var o, seg := OnSegment(c, theirs[k]), theirs[k];
            if seg.rst then o.sent == [] else Emits(c, o, SeqLen(seg) > 0 && c.send.next > 0)
  {
    hide Link, SideInv, AbsAck, Emits;
    var seg := theirs[k];
    if !seg.rst {
      hide OnSegment;
      if seg.ack {
        AckBound(c.send, p.recv, mine, theirs, seg);
      }
      SegmentEmits(c, seg, zero);
    }
  }

  /** In every run, whatever happens next at a side adds to its log just what `Sends` says, and nothing to its
      peer's. */
  lemma WhatIsSent(cfg: Pair<Config>, es: seq<Event>, e: Event)
    requires Reached(cfg, es) && Enabled(Run(Start(cfg), es), e)
    ensures var n := Run(Start(cfg), es);
            var n' := Step(n, e);
            && n'.log.Get(e.side.Other()) == n.log.Get(e.side.Other())
            && exists sent :: Sends(n, e, n'.conn.Get(e.side), sent) && n'.log.Get(e.side) == n.log.Get(e.side) + sent
  {
    Networks.EveryRun(cfg, es);
    hide Run, ValidRun, NetInv, Step, Sends;
    var sent := StepSends(Run(Start(cfg), es), e);
  }

  /** No answer to an answer: a delivered segment that occupies no sequence numbers and lets nothing new be sent
      leaves the log as it is, so two idle endpoints fall silent. */
  lemma NoAnswerToAnswers(cfg: Pair<Config>, es: seq<Event>, side: Side, k: nat)
    requires Reached(cfg, es) && Enabled(Run(Start(cfg), es), Deliver(side, k))
    requires var n := Run(Start(cfg), es);
             && SeqLen(n.log.Get(side.Other())[k]) == 0
             && Step(n, Deliver(side, k)).conn.Get(side).send.next == n.conn.Get(side).send.next
    ensures var n := Run(Start(cfg), es);
            Step(n, Deliver(side, k)).log == n.log
  {
    Networks.EveryRun(cfg, es);
    hide Run, ValidRun, NetInv, Step;
    var n := Run(Start(cfg), es);
    var sent := StepSends(n, Deliver(side, k));
    var c, c' := n.conn.Get(side), Step(n, Deliver(side, k)).conn.Get(side);
    if !n.log.Get(side.Other())[k].rst {
      SilentWhenNothingNew(c, Outcome(c', sent));
    }
    assert n.log.Get(side) + [] == n.log.Get(side);
  }

  lemma SilentWhenNothingNew(c: Conn, o: Outcome)
    requires Emits(c, o, false) && o.conn.send.next == c.send.next
    ensures o.sent == []
  {
    var more: seq<Outstanding> :| Grown(c.send, o.conn.send, more)
                                 && o.sent == StampAll(SegsOf(more) + Answer(o.conn.send, false), o.conn.recv);
    TilesForward(more, c.send.next, o.conn.send.next, TextOf(o.conn.send));
  }

  /** The header of a segment just sent tells where the receiver stands: what it waits for, and the room left in
      its buffer as far as 16 bits can say. */
  predicate HeaderCurrent(seg: Segment, peerIsn: U32, r: Receiver)
    requires r.Valid()
  {
    var out := r.reasm.out;
    && (seg.ack <==> r.synced)
    && (seg.ack ==> AbsOf(seg.ackno, peerIsn) == AckIndex(r))
    && seg.win == Min(0xFFFF, out.capacity - (|out.written| - out.read))
  }

  lemma StampCurrent(x: Segment, s: Sender, r: Receiver)
    requires Position(s) && |s.stream.written| < STREAM_LIMIT && RecvOk(r, s) && !x.ack
    ensures HeaderCurrent(Stamp(x, r), s.isn, r)
  {
    StampHonest(x, s, r);
  }

  lemma BatchCurrent(out: seq<Segment>, s: Sender, r: Receiver, k: nat)
    requires Position(s) && |s.stream.written| < STREAM_LIMIT && RecvOk(r, s) && k < |out| && !out[k].ack
    ensures HeaderCurrent(StampAll(out, r)[k], s.isn, r)
  {
    hide Stamp, HeaderCurrent;
    StampCurrent(out[k], s, r);
  }

  lemma {:induction false} TilesUnstamped(q: seq<Outstanding>, a: nat, b: nat, t: Text, k: nat)
    requires Tiles(q, a, b, t) && k < |q|
    ensures !q[k].seg.ack
  {
    if k == 0 {
    } else {
      TilesUnstamped(q[1..], q[0].ackIndex, b, t, k - 1);
    }
  }

  lemma EmitsCurrent(c: Conn, o: Outcome, answered: bool, s: Sender, k: nat)
    requires Emits(c, o, answered) && k < |o.sent|
    requires Position(s) && |s.stream.written| < STREAM_LIMIT && RecvOk(o.conn.recv, s)
    ensures HeaderCurrent(o.sent[k], s.isn, o.conn.recv)
  {
    hide Position, RecvOk, HeaderCurrent, Tiles;
    var more: seq<Outstanding> :| Grown(c.send, o.conn.send, more)
                                 && o.sent == StampAll(SegsOf(more) + Answer(o.conn.send, answered), o.conn.recv);
    if k < |more| {
      TilesUnstamped(more, c.send.next, o.conn.send.next, TextOf(o.conn.send), k);
    }
    BatchCurrent(SegsOf(more) + Answer(o.conn.send, answered), s, o.conn.recv, k);
  }

  lemma TimeCurrent(c: Conn, ms: nat, sent: seq<Segment>, s: Sender, k: nat)
    requires TimeSends(c, ms, sent) && k < |sent| && !sent[k].rst && Queued(c.send)
    requires Position(s) && |s.stream.written| < STREAM_LIMIT && RecvOk(c.recv, s)
    ensures HeaderCurrent(sent[k], s.isn, c.recv)
  {
    hide Position, RecvOk, HeaderCurrent;
    StampCurrent(c.send.inflight[0].seg, s, c.recv);
  }

  /** In every run every segment but a reset leaves with an acknowledgment exactly when there is something to
      acknowledge, and with the receiver's acknowledgment number and window of that moment. */
  lemma HeadersAreCurrent(cfg: Pair<Config>, es: seq<Event>, e: Event, k: nat)
    requires Reached(cfg, es) && Enabled(Run(Start(cfg), es), e)
    requires var n := Run(Start(cfg), es);
             |n.log.Get(e.side)| <= k < |Step(n, e).log.Get(e.side)| && !Step(n, e).log.Get(e.side)[k].rst
    ensures var n := Run(Start(cfg), es);
            var n' := Step(n, e);
            && n'.conn.Get(e.side).recv.Valid()
            && HeaderCurrent(n'.log.Get(e.side)[k], n.conn.Get(e.side.Other()).send.isn, n'.conn.Get(e.side).recv)
  {
    Networks.EveryRun(cfg, es);
    hide Run, ValidRun;
    NewHeaderCurrent(Run(Start(cfg), es), e, k);
  }

  lemma NewHeaderCurrent(n: Net, e: Event, k: nat)
    requires NetInv(n) && Enabled(n, e)
    requires |n.log.Get(e.side)| <= k < |Step(n, e).log.Get(e.side)| && !Step(n, e).log.Get(e.side)[k].rst
    ensures var n' := Step(n, e);
            && n'.conn.Get(e.side).recv.Valid()
            && HeaderCurrent(n'.log.Get(e.side)[k], n.conn.Get(e.side.Other()).send.isn, n'.conn.Get(e.side).recv)
  {
    hide NetInv, Step, Enabled, Sends, HeaderCurrent, RecvOk, Position, Queued;
    var n', i := Step(n, e), k - |n.log.Get(e.side)|;
    var sent := StepSends(n, e);
    StepKeeps(n, e);
    PeerLink(n', e.side);
    PeerLink(n, e.side.Other());
    ActKeeps(n, e);
    StepPeer(n, e);
    if e.Time? && n.conn.Get(e.side).send.retx < MAX_RETX_ATTEMPTS {
      TickKeepsRecv(n, e);
    }
    SentCurrent(n, e, n'.conn.Get(e.side), sent, n'.conn.Get(e.side.Other()).send, i);
  }

  lemma SentCurrent(n: Net, e: Event, c': Conn, sent: seq<Segment>, s: Sender, i: nat)
    requires Enabled(n, e) && Sends(n, e, c', sent) && i < |sent| && !sent[i].rst && Queued(n.conn.Get(e.side).send)
    requires Position(s) && |s.stream.written| < STREAM_LIMIT && RecvOk(c'.recv, s) && c'.recv.Valid()
    requires var c := n.conn.Get(e.side); e.Time? && c.send.retx < MAX_RETX_ATTEMPTS ==> c'.recv == c.recv
    ensures HeaderCurrent(sent[i], s.isn, c'.recv)
  {
    hide HeaderCurrent, Emits, RecvOk, Position, Queued;
    var c := n.conn.Get(e.side);
    if e.Time? {
      TimeCurrent(c, e.ms, sent, s, i);
    } else {
      hide TimeSends;
      var answered := Emits(c, Outcome(c', sent), true);
      EmitsCurrent(c, Outcome(c', sent), answered, s, i);
    }
  }

  lemma PeerLink(n: Net, side: Side)
    requires NetInv(n)
    ensures var s, r := n.conn.Get(side.Other()).send, n.conn.Get(side).recv;
            Position(s) && Queued(s) && |s.stream.written| < STREAM_LIMIT && RecvOk(r, s) && r.Valid()
  {
    assert Holds(n, side);
    hide Orderly, Half;
  }

  lemma TickKeepsRecv(n: Net, e: Event)
    requires Enabled(n, e) && e.Time? && n.conn.Get(e.side).send.retx < MAX_RETX_ATTEMPTS
    ensures Step(n, e).conn.Get(e.side).recv == n.conn.Get(e.side).recv
  {
    hide StampAll;
  }
}
