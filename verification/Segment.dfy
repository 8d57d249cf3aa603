/** TCP segments as the two endpoints exchange them. */
module Segments {
  import opened Wrapping
  import opened ByteStreams

  type U16 = n: nat | n < 0x1_0000

  datatype Segment = Segment(seqno: U32, ackno: U32, syn: bool, ack: bool, rst: bool, fin: bool,
                             win: U16, payload: seq<Byte>)

  /** A default segment with only its sequence number set. */
  function Bare(seqno: U32): Segment {
    Segment(seqno, 0, false, false, false, false, 0, [])
  }

  /** Numbers of the sequence space the segment occupies (`length_in_sequence_space`). */
  function SeqLen(s: Segment): nat {
    |s.payload| + (if s.syn then 1 else 0) + (if s.fin then 1 else 0)
  }

  /** A count held in an unsigned 64-bit variable. */
  function To64(n: nat): U64 {
    n % 0x1_0000_0000_0000_0000
  }
}
