/** The receiving half of a connection (libsponge/tcp_receiver.cc). */
module Receivers {
  import opened Wrapping
  import opened ByteStreams
  import opened Segments
  import opened Reassembly
  import opened StreamReassemblers

  /** `isn` is the number of the first data byte, one past the peer's SYN. */
  datatype Receiver = Receiver(reasm: Reasm, synced: bool, isn: U32) {
    ghost predicate Valid() {
      reasm.Valid() && reasm.out.capacity > 0
    }
  }

  function InitReceiver(capacity: nat): Receiver {
    Receiver(EmptyReasm(capacity), false, 0)
  }

  /** A SYN fixes where the stream starts. */
  function Sync(r: Receiver, seg: Segment): (r': Receiver)
    ensures r'.reasm == r.reasm
  {
    if seg.syn then r.(synced := true, isn := Wrap(1, seg.seqno)) else r
  }

  /** Stream index of the segment's first payload byte. */
  function StartIndex(r: Receiver, seg: Segment): nat {
    if seg.syn then 0 else Unwrap(seg.seqno, r.isn, To64(r.reasm.Cur()))
  }

  /** Some of the segment may lie inside the receive window. */
  predicate InWindow(r: Receiver, seg: Segment) {
    StartIndex(r, seg) < r.reasm.WindowEnd() && r.reasm.Cur() < StartIndex(r, seg) + SeqLen(seg)
  }

  function Receive(r: Receiver, seg: Segment): (r': Receiver)
    requires r.Valid()
    ensures r'.Valid()
  {
    var r1 := Sync(r, seg);
    if r1.synced && InWindow(r1, seg)
    then r1.(reasm := Push(r1.reasm, seg.payload, StartIndex(r1, seg), seg.fin))
    else r1
  }

  /** The application reads assembled bytes. */
  function Consume(r: Receiver, len: nat): (r': Receiver)
    requires r.Valid()
    ensures r'.Valid()
  {
    r.(reasm := ReadOut(r.reasm, len))
  }

  /** First number not yet assembled, counted from the peer's SYN at 0 and including its FIN. */
  function AckIndex(r: Receiver): nat {
    1 + r.reasm.Cur() + if r.reasm.out.ended then 1 else 0
  }

  /** The acknowledgment number put in headers, once the peer's SYN has been seen. */
  function AckNo(r: Receiver): U32 {
    Wrap(r.reasm.Cur() + (if r.reasm.out.ended then 1 else 0), r.isn)
  }

  function WindowSize(r: Receiver): nat
    requires r.Valid()
  {
    r.reasm.out.Remaining()
  }

  /** The window field of headers: 16 bits. */
  function AdvertisedWindow(r: Receiver): U16
    requires r.Valid()
  {
    Min(0xFFFF, WindowSize(r))
  }

  /** Absolute right edge a header announces. */
  function AdvertisedEdge(r: Receiver): nat
    requires r.Valid()
  {
    AckIndex(r) + AdvertisedWindow(r)
  }

  /** Receiving a segment never moves the acknowledgment number or the right edge back. */
  lemma ReceiveMonotone(r: Receiver, seg: Segment)
    requires r.Valid()
    ensures AckIndex(r) <= AckIndex(Receive(r, seg))
    ensures AdvertisedEdge(r) <= AdvertisedEdge(Receive(r, seg))
    ensures r.synced ==> Receive(r, seg).synced
    ensures r.reasm.out.ended ==> Receive(r, seg).reasm.out.ended
  {
  }

  /** Nor does reading. */
  lemma ConsumeMonotone(r: Receiver, len: nat)
    requires r.Valid()
    ensures AckIndex(r) == AckIndex(Consume(r, len))
    ensures AdvertisedEdge(r) <= AdvertisedEdge(Consume(r, len))
  {
  }

  class TCPReceiver {
    const reassembler: StreamReassembler
    const capacity: nat
    var synced: bool
    var isn: U32

    ghost function Repr(): set<object> {
      {this, reassembler, reassembler.output}
    }

    ghost predicate Valid()
      reads Repr()
    {
      reassembler.Valid() && reassembler.capacity == capacity
    }

    ghost function Model(): (m: Receiver)
      requires Valid()
      reads Repr()
      ensures m.Valid()
    {
      Receiver(reassembler.Model(), synced, isn)
    }

    constructor (capacity: nat)
      requires capacity > 0
      ensures Valid() && fresh(Repr()) && Model() == InitReceiver(capacity)
    {
      reassembler := new StreamReassembler(capacity);
      this.capacity := capacity;
      synced, isn := false, 0;
    }

    method SegmentReceived(seg: Segment)
      requires Valid()
      modifies Repr()
      ensures Valid() && Model() == Receive(old(Model()), seg)
    {
      hide Push, Wrap, InWindow, StartIndex;
      if seg.syn {
        synced := true;
        isn := Wrap(1, seg.seqno);
      }
      if synced {
        Place(seg);
      }
    }

    /** Hands the payload to the reassembler if some of the segment may lie in the window. */
    method Place(seg: Segment)
      requires Valid()
      modifies Repr()
      ensures Valid()
      ensures var r := old(Model());
              Model() ==
              if InWindow(r, seg) then r.(reasm := Push(r.reasm, seg.payload, StartIndex(r, seg), seg.fin)) else r
    {
      hide Push, Unwrap, To64;
      var checkpoint := reassembler.output.BytesWritten();
      var winRight := capacity - reassembler.output.BufferSize() + checkpoint - 1;
      var start := if seg.syn then 0 else Unwrap(seg.seqno, isn, To64(checkpoint));
      if start > winRight || start + SeqLen(seg) <= checkpoint {
        return;
      }
      reassembler.PushSubstring(seg.payload, start, seg.fin);
    }

    /** The number to acknowledge, absent until a SYN has been received. */
    method Ackno() returns (present: bool, ackno: U32)
      requires Valid()
      ensures present == Model().synced
      ensures present ==> ackno == AckNo(Model())
    {
      present, ackno := synced, 0;
      if synced {
        var written := reassembler.output.BytesWritten();
        if reassembler.output.InputEnded() {
          ackno := Wrap(1 + written, isn);
        } else {
          ackno := Wrap(written, isn);
        }
      }
    }

    method GetWindowSize() returns (n: nat)
      requires Valid()
      ensures n == WindowSize(Model())
    {
      n := capacity - reassembler.output.BufferSize();
    }
  }
}
