/** The endpoint as an object (libsponge/tcp_connection.cc): receiver and sender updated in place, an
    outbound queue, and the drain loop of `clean`. */
module TCPConnections {
  import opened Wrapping
  import opened ByteStreams
  import opened Segments
  import opened Receivers
  import opened Senders
  import opened TCPSenders
  import opened Connections

  class TCPConnection {
    const rtTimeout: nat
    const receiver: TCPReceiver
    const sender: TCPSender
    var lastReceive: U32
    var now: U32
    var close: bool
    var linger: bool
    var segmentsOut: seq<Segment>

    ghost function Repr(): set<object> {
      {this} + receiver.Repr() + sender.Repr()
    }

    ghost predicate Valid()
      reads Repr()
    {
      && receiver.Repr() !! sender.Repr()
      && this !in receiver.Repr() && this !in sender.Repr()
      && receiver.Valid() && sender.Valid()
    }

    ghost function Model(): (m: Conn)
      requires Valid()
      reads Repr()
      ensures m.Valid()
    {
      Conn(rtTimeout, receiver.Model(), sender.Model(), lastReceive, now, close, linger)
    }

    /** The call took the endpoint to `o.conn` and queued exactly `o.sent`. */
    twostate predicate Did(o: Outcome)
      requires Valid()
      reads Repr()
    {
      Model() == o.conn && segmentsOut == old(segmentsOut) + o.sent
    }

    constructor (isn: U32, rtTimeout: nat, recvCapacity: nat, sendCapacity: nat)
      requires recvCapacity > 0
      ensures Valid() && fresh(Repr()) && segmentsOut == []
      ensures Model() == InitConn(isn, rtTimeout, recvCapacity, sendCapacity)
    {
      this.rtTimeout := rtTimeout;
      receiver := new TCPReceiver(recvCapacity);
      sender := new TCPSender(sendCapacity, rtTimeout, isn);
      lastReceive, now, close, linger, segmentsOut := 0, 0, false, true, [];
    }

    method Shutdown(sendRst: bool)
      requires Valid()
      modifies Repr()
      ensures Valid() && Did(BadShutdown(old(Model()), sendRst))
    {
      close := true;
      receiver.reassembler.output.SetError();
      sender.stream.SetError();
      if sendRst {
        segmentsOut := segmentsOut + [Bare(Wrap(sender.nextSeqno, sender.isn)).(rst := true)];
      }
    }

    /** Moves the front segment of the sender's queue to the outbound queue, with the receiver's current
        acknowledgment and window put in. */
    method DrainOne()
      requires Valid() && sender.segmentsOut != []
      modifies this`segmentsOut, sender`segmentsOut
      ensures Valid() && sender.segmentsOut == old(sender.segmentsOut)[1..]
      ensures segmentsOut == old(segmentsOut) + [Stamp(old(sender.segmentsOut)[0], receiver.Model())]
    {
      var seg := sender.segmentsOut[0];
      var present, ackno := receiver.Ackno();
      if present {
        seg := seg.(ack := true, ackno := ackno);
      }
      var w := receiver.GetWindowSize();
      seg := seg.(win := Min(0xFFFF, w));
      segmentsOut := segmentsOut + [seg];
      sender.segmentsOut := sender.segmentsOut[1..];
    }

    /** The drain loop. */
    method Drain()
      requires Valid()
      modifies this`segmentsOut, sender`segmentsOut
      ensures Valid() && sender.segmentsOut == []
      ensures segmentsOut == old(segmentsOut) + StampAll(old(sender.segmentsOut), receiver.Model())
    {
      hide Stamp;
      ghost var r, out, base, stamped := receiver.Model(), sender.segmentsOut, segmentsOut, [];
      while sender.segmentsOut != []
        invariant Valid() && receiver.Model() == r
        invariant |stamped| <= |out| && sender.segmentsOut == out[|stamped|..]
        invariant forall k :: 0 <= k < |stamped| ==> stamped[k] == Stamp(out[k], r)
        invariant segmentsOut == base + stamped
        decreases |sender.segmentsOut|
      {
        stamped := stamped + [Stamp(sender.segmentsOut[0], r)];
        DrainOne();
      }
      assert stamped == StampAll(out, r);
    }

    /** Sends what the sender has queued, then sees whether the connection is over. */
    method DrainAndCheck()
      requires Valid()
      modifies Repr()
      ensures Valid() && Did(Clean(old(Model())))
    {
      Drain();
      CheckClosing();
    }

    method CheckClosing()
      requires Valid()
      modifies this`close
      ensures Valid() && Model() == CheckClose(old(Model()))
    {
      var bothEof := receiver.reassembler.output.InputEnded() && sender.stream.Eof()
                     && sender.nextSeqno - sender.curAck == 0;
      if bothEof {
        var since := if now >= lastReceive then now - lastReceive else now + 0x1_0000_0000 - lastReceive;
        if !linger || since >= 10 * rtTimeout {
          close := true;
        }
      }
    }

    method SegmentReceived(seg: Segment)
      requires Valid() && !close
      modifies Repr()
      ensures Valid() && Did(OnSegment(old(Model()), seg))
    {
      hide Clean, AckReceived, SendEmptyAck, Receive;
      ghost var c := Model();
      lastReceive := now;
      if seg.rst {
        Shutdown(false);
        return;
      }
      receiver.SegmentReceived(seg);
      if receiver.reassembler.output.InputEnded() && !sender.stream.Eof() {
        linger := false;
      }
      SenderPart(seg);
      assert Model() == Absorbed(c, seg);
      DrainAndCheck();
    }

    method SenderPart(seg: Segment)
      requires Valid()
      modifies sender.Repr()
      ensures Valid() && Model() == old(Model()).(send := SenderOnSegment(old(Model()).send, seg))
    {
      hide AckReceived, SendEmptyAck;
      if seg.ack {
        sender.OnAck(seg.ackno, seg.win);
      }
      if SeqLen(seg) > 0 {
        sender.EmptyAck();
      }
    }

    method Elapse(ms: nat)
      requires Valid() && !close
      modifies Repr()
      ensures Valid() && Did(OnTick(old(Model()), ms))
    {
      hide Clean, Tick;
      now := (now + ms) % 0x1_0000_0000;
      if sender.retransNum >= MAX_RETX_ATTEMPTS {
        Shutdown(true);
        return;
      }
      sender.OnTick(ms);
      DrainAndCheck();
    }

    method Write(data: seq<Byte>) returns (accepted: nat)
      requires Valid()
      modifies Repr()
      ensures Valid() && Did(OnWrite(old(Model()), data))
      ensures accepted == Min(|data|, old(Model()).send.stream.Remaining())
    {
      hide Clean, FillWindow;
      accepted := sender.stream.Write(data);
      sender.Fill();
      DrainAndCheck();
    }

    method EndInputStream()
      requires Valid()
      modifies Repr()
      ensures Valid() && Did(OnEnd(old(Model())))
    {
      hide Clean, FillWindow;
      sender.stream.EndInput();
      sender.Fill();
      DrainAndCheck();
    }

    method Connect()
      requires Valid()
      modifies Repr()
      ensures Valid() && Did(OnConnect(old(Model())))
    {
      hide Clean, FillWindow;
      sender.Fill();
      DrainAndCheck();
    }
  }
}
