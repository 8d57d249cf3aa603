/** The sender as an object updated in place (libsponge/tcp_sender.cc, libsponge/tcp_sender.hh); every
    method computes the step function of the same name. */
module TCPSenders {
  import opened Wrapping
  import opened ByteStreams
  import opened Segments
  import opened Senders

  /** A stopwatch: it measures from its last restart. */
  class Timer {
    var lastFlash: nat
    var now: nat

    ghost predicate Valid()
      reads this
    {
      lastFlash <= now
    }

    constructor ()
      ensures Valid() && Elapsed() == 0
    {
      lastFlash, now := 0, 0;
    }

    function Elapsed(): nat
      requires Valid()
      reads this
    {
      now - lastFlash
    }

    method Flash()
      requires Valid()
      modifies this
      ensures Valid() && Elapsed() == 0
    {
      lastFlash := now;
    }

    method Advance(ms: nat)
      requires Valid()
      modifies this
      ensures Valid() && Elapsed() == old(Elapsed()) + ms
    {
      now := now + ms;
    }

    predicate TimedOut(rto: nat)
      requires Valid()
      reads this
    {
      now - lastFlash >= rto
    }
  }

  class TCPSender {
    const isn: U32
    const initialRto: nat
    const stream: ByteStream
    const timer: Timer
    var segmentsOut: seq<Segment>
    var nextSeqno: nat
    var curAck: nat
    var finAck: nat
    var segBuffer: seq<Outstanding>
    var edge: nat
    var retransNum: nat
    var rto: nat

    ghost function Repr(): set<object> {
      {this, stream, timer}
    }

    ghost predicate Valid()
      reads Repr()
    {
      stream.Valid() && timer.Valid()
    }

    ghost function Model(): (m: Sender)
      requires Valid()
      reads Repr()
      ensures m.stream.Valid()
    {
      Sender(isn, initialRto, stream.Model(), nextSeqno, curAck, finAck, segBuffer, edge,
             retransNum, rto, timer.Elapsed(), segmentsOut)
    }

    constructor (capacity: nat, rto: nat, isn: U32)
      ensures Valid() && fresh(Repr()) && Model() == InitSender(isn, rto, capacity)
    {
      this.isn, initialRto, this.rto := isn, rto, rto;
      stream := new ByteStream(capacity);
      timer := new Timer();
      segmentsOut, nextSeqno, curAck, finAck, segBuffer, edge, retransNum := [], 0, 0, NO_FIN, [], 1, 0;
    }

    function GetInitSeg(): (seg: Segment)
      requires Valid()
      reads Repr()
      ensures seg == InitSeg(Model())
    {
      Bare(Wrap(nextSeqno, isn))
    }

    method SendNewSeg(seg: Segment)
      requires Valid()
      modifies this
      ensures Valid() && Model() == SendNew(old(Model()), seg)
    {
      segmentsOut := segmentsOut + [seg];
      nextSeqno := nextSeqno + SeqLen(seg);
      segBuffer := segBuffer + [Outstanding(seg, nextSeqno)];
    }

    method Fill()
      requires Valid()
      modifies Repr()
      ensures Valid() && Model() == FillWindow(old(Model()))
    {
      if nextSeqno == finAck {
        return;
      }
      if nextSeqno == 0 {
        var syn := GetInitSeg().(syn := true);
        SendNewSeg(syn);
        return;
      }
      ghost var s := Model();
      var fillSize := if edge > nextSeqno then (edge - nextSeqno) % 0x1_0000_0000 else 0;
      var data := stream.Read(fillSize);
      var fin := stream.Eof() && |data| < fillSize;
      assert data == NextData(s) && fin == FinFits(s);
      Segmentize(data, fin);
    }

    /** The segmentation loop: full payloads first, then the rest with the FIN if one is due. */
    method Segmentize(data: seq<Byte>, fin: bool)
      requires Valid()
      modifies this
      ensures Valid() && Model() == SendData(old(Model()), data, fin)
    {
      var i := 0;
      ghost var s := Model();
      while i + MAX_PAYLOAD < |data|
        invariant i <= |data|
        invariant Valid() && SendData(Model(), data[i..], fin) == SendData(s, data, fin)
      {
        assert data[i..][..MAX_PAYLOAD] == data[i..i + MAX_PAYLOAD];
        assert data[i..][MAX_PAYLOAD..] == data[i + MAX_PAYLOAD..];
        var seg := GetInitSeg().(payload := data[i..i + MAX_PAYLOAD]);
        SendNewSeg(seg);
        i := i + MAX_PAYLOAD;
      }
      if i < |data| || fin {
        var last := GetInitSeg();
        if fin {
          last := last.(fin := true);
        }
        if i < |data| {
          last := last.(payload := data[i..]);
        }
        SendNewSeg(last);
        if fin {
          finAck := nextSeqno;
        }
      }
    }

    /** The pop loop: drops every outstanding segment that `ack` covers and says whether there was one. */
    method PopBuffer(ack: nat) returns (newAck: bool)
      requires Valid()
      modifies this
      ensures Valid() && Model() == PopAcked(old(Model()), ack)
      ensures newAck <==> |segBuffer| < |old(segBuffer)|
    {
      newAck := false;
      ghost var s := Model();
      while segBuffer != [] && segBuffer[0].ackIndex <= ack
        invariant Valid() && PopAcked(Model(), ack) == PopAcked(s, ack)
        invariant |segBuffer| <= |s.inflight|
        invariant newAck <==> |segBuffer| < |s.inflight|
        decreases |segBuffer|
      {
        newAck := true;
        curAck := segBuffer[0].ackIndex;
        segBuffer := segBuffer[1..];
      }
    }

    method OnAck(ackno: U32, windowSize: U16)
      requires Valid()
      modifies Repr()
      ensures Valid() && Model() == AckReceived(old(Model()), ackno, windowSize)
    {
      ghost var s := Model();
      var ack := Unwrap(ackno, isn, To64(nextSeqno));
      if ack > nextSeqno || ack < curAck {
        return;
      }
      var newAck := PopBuffer(ack);
      PopKeepsStream(s, ack);
      if newAck {
        rto := initialRto;
        retransNum := 0;
        timer.Flash();
      }
      edge := if ack + windowSize > edge then ack + windowSize else edge;
      assert Model() == TakeAck(s, ack, windowSize);
      Probe(windowSize);
    }

    /** Fills the window, one number wider if it is closed. */
    method Probe(windowSize: U16)
      requires Valid()
      modifies Repr()
      ensures Valid() && Model() == FillOrProbe(old(Model()), windowSize)
    {
      if windowSize == 0 {
        edge := edge + 1;
        FillKeepsEdge(Model());
      }
      Fill();
      if windowSize == 0 {
        edge := edge - 1;
      }
    }

    method OnTick(ms: nat)
      requires Valid()
      modifies this, timer
      ensures Valid() && Model() == Tick(old(Model()), ms)
    {
      if segBuffer == [] {
        return;
      }
      timer.Advance(ms);
      if !timer.TimedOut(rto) {
        return;
      }
      segmentsOut := segmentsOut + [segBuffer[0].seg];
      if edge - curAck != 0 {
        retransNum := retransNum + 1;
        rto := rto * 2;
      }
      timer.Flash();
    }

    method EmptyAck()
      requires Valid()
      modifies this
      ensures Valid() && Model() == SendEmptyAck(old(Model()))
    {
      var seg := GetInitSeg();
      if nextSeqno == 0 {
        SendNewSeg(seg.(syn := true));
      } else {
        segmentsOut := segmentsOut + [seg];
      }
    }
  }

  lemma FillKeepsEdge(s: Sender)
    requires s.stream.Valid()
    ensures FillWindow(s).edge == s.edge
  {
    if s.next != s.finAck && s.next > 0 {
      SendDataKeeps(s.(stream := StreamRead(s.stream, FillSize(s))), NextData(s), FinFits(s));
    }
  }
}
