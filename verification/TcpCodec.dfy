/** TCP segments on the wire (libsponge/tcp_helpers/tcp_header.cc, libsponge/tcp_helpers/tcp_segment.cc;
    section 3.1 of RFC 793). */
module TcpCodec {
  import opened Wrapping
  import opened ByteStreams
  import opened Segments
  import opened Checksums
  import opened Parsers

  const LENGTH: nat := 20

  datatype TcpHeader = TcpHeader(sport: nat, dport: nat, seqno: nat, ackno: nat, doff: nat,
                                 urg: bool, ack: bool, psh: bool, rst: bool, syn: bool, fin: bool,
                                 win: nat, cksum: nat, uptr: nat)
  {
    /** The fields fit their C++ types, and the data offset its four bits on the wire. */
    predicate InRange() {
      && sport < 0x1_0000 && dport < 0x1_0000 && seqno < 0x1_0000_0000 && ackno < 0x1_0000_0000 && doff < 16
      && win < 0x1_0000 && cksum < 0x1_0000 && uptr < 0x1_0000
    }
  }

  function Bit(b: bool, weight: nat): nat {
    if b then weight else 0
  }

  function FlagByte(h: TcpHeader): nat {
    Bit(h.urg, 32) + Bit(h.ack, 16) + Bit(h.psh, 8) + Bit(h.rst, 4) + Bit(h.syn, 2) + Bit(h.fin, 1)
  }

  /** Widths of the fields up to the checksum. */
  function FrontWidths(): seq<nat> {
    [2, 2, 4, 4, 1, 1, 2]
  }

  function FrontValues(h: TcpHeader): seq<nat> {
    [h.sport, h.dport, h.seqno, h.ackno, h.doff * 16 % 256, FlagByte(h), h.win]
  }

  function Widths(): seq<nat> {
    FrontWidths() + [2, 2]
  }

  function Values(h: TcpHeader): seq<nat> {
    FrontValues(h) + [h.cksum, h.uptr]
  }

  function Zeros(n: nat): (z: seq<Byte>)
    ensures |z| == n
  {
    if n == 0 then [] else Zeros(n - 1) + [0]
  }

  /** The header's bytes, padded to the size the data offset announces; too small an offset is an error. */
  function SerializeHeader(h: TcpHeader): seq<Byte>
    requires h.doff >= 5
  {
    Encode(Widths(), Values(h)) + Zeros(4 * h.doff - LENGTH)
  }

  /** The fields read back from nine integers. */
  function HeaderFrom(v: seq<nat>): TcpHeader
    requires |v| == 9
  {
    TcpHeader(v[0], v[1], v[2], v[3], v[4] / 16,
              v[5] / 32 % 2 == 1, v[5] / 16 % 2 == 1, v[5] / 8 % 2 == 1,
              v[5] / 4 % 2 == 1, v[5] / 2 % 2 == 1, v[5] % 2 == 1,
              v[6], v[7], v[8])
  }

  datatype HeaderParse = HeaderParse(header: TcpHeader, parser: Parser, result: ParseResult)

  function ParseHeader(p: Parser): HeaderParse {
    var t := TakeAll(p, Widths());
    var h := HeaderFrom(t.values);
    if h.doff < 5 then HeaderParse(h, t.parser, HeaderTooShort)
    else
      var p1 := RemovePrefix(t.parser, h.doff * 4 - LENGTH);
      HeaderParse(h, p1, p1.err)
  }

  // ---- Segments ----

  function SegmentChecksum(h: TcpHeader, payload: seq<Byte>, pseudo: U32): U16
    requires h.doff >= 5
  {
    ValueOf(AddAll(AddAll(Cksum(pseudo, false), SerializeHeader(h.(cksum := 0))), payload))
  }

  function SerializeSegment(h: TcpHeader, payload: seq<Byte>, pseudo: U32): seq<Byte>
    requires h.doff >= 5
  {
    SerializeHeader(h.(cksum := SegmentChecksum(h, payload, pseudo))) + payload
  }

  /** Outcome of parsing; header and payload mean something only without an error. */
  datatype SegmentParse =
    | Rejected(result: ParseResult)
    | Parsed(header: TcpHeader, payload: seq<Byte>, result: ParseResult)

  function ParseSegment(buffer: seq<Byte>, pseudo: U32): SegmentParse {
    if ChecksumOf(pseudo, buffer) != 0 then Rejected(BadChecksum)
    else
      var h := ParseHeader(Parser(buffer, NoError));
      Parsed(h.header, h.parser.buffer, h.parser.err)
  }

  // ---- Round trip ----

  lemma FlagsInvert(h: TcpHeader)
    ensures FlagByte(h) < 64
    ensures var f := FlagByte(h);
            && (f / 32 % 2 == 1) == h.urg && (f / 16 % 2 == 1) == h.ack && (f / 8 % 2 == 1) == h.psh
            && (f / 4 % 2 == 1) == h.rst && (f / 2 % 2 == 1) == h.syn && (f % 2 == 1) == h.fin
  {
  }

  lemma ValuesFit(h: TcpHeader)
    requires h.InRange()
    ensures Fit(Widths(), Values(h))
  {
    Pow256Table();
    FlagsInvert(h);
    hide FlagByte, Pow256;
    var w, v := Widths(), Values(h);
    assert v[0] < Pow256(w[0]) && v[1] < Pow256(w[1]) && v[2] < Pow256(w[2]) && v[3] < Pow256(w[3]);
    assert v[4] < Pow256(w[4]) && v[5] < Pow256(w[5]) && v[6] < Pow256(w[6]) && v[7] < Pow256(w[7]);
    assert v[8] < Pow256(w[8]);
  }

  lemma ValuesInvert(h: TcpHeader)
    requires h.InRange()
    ensures HeaderFrom(Values(h)) == h
  {
    FlagsInvert(h);
    hide FlagByte;
  }

  /** Where each field starts. */
  lemma Spots()
    ensures |Widths()| == 9 && Total(Widths()) == LENGTH
    ensures var w := Widths();
            && Total(w[..0]) == 0 && Total(w[..1]) == 2 && Total(w[..2]) == 4 && Total(w[..3]) == 8
            && Total(w[..4]) == 12 && Total(w[..5]) == 13 && Total(w[..6]) == 14 && Total(w[..7]) == 16
            && Total(w[..8]) == 18
  {
    var w := Widths();
    assert w == [2, 2, 4, 4, 1, 1, 2, 2, 2] && w[..9] == w;
    assert Total(w[..0]) == 0;
    hide Total, Widths;
    TotalNext(w, 0); TotalNext(w, 1); TotalNext(w, 2); TotalNext(w, 3); TotalNext(w, 4);
    TotalNext(w, 5); TotalNext(w, 6); TotalNext(w, 7); TotalNext(w, 8);
  }

  lemma TotalWidths()
    ensures Total(Widths()) == LENGTH && Total(FrontWidths()) == 16
  {
    Spots();
    assert Widths()[..7] == FrontWidths();
    hide Total;
  }

  /** Parsing a serialized header leaves exactly what followed it. */
  lemma HeaderRoundTrip(h: TcpHeader, rest: seq<Byte>)
    requires h.InRange() && h.doff >= 5
    ensures ParseHeader(Parser(SerializeHeader(h) + rest, NoError)) == HeaderParse(h, Parser(rest, NoError), NoError)
  {
    hide Encode, Values, Widths, TakeAll, HeaderFrom;
    ValuesFit(h);
    ValuesInvert(h);
    TotalWidths();
    var pad := Zeros(4 * h.doff - LENGTH);
    TakeEncoded(Widths(), Values(h), pad + rest);
    assert SerializeHeader(h) + rest == Encode(Widths(), Values(h)) + (pad + rest);
    assert (pad + rest)[|pad|..] == rest;
  }

  lemma {:induction false} EncodeConcat(w1: seq<nat>, v1: seq<nat>, w2: seq<nat>, v2: seq<nat>)
    requires |w1| == |v1| && |w2| == |v2|
    ensures Encode(w1 + w2, v1 + v2) == Encode(w1, v1) + Encode(w2, v2)
  {
    if w1 == [] {
      assert w1 + w2 == w2 && v1 + v2 == v2;
    } else {
      assert (w1 + w2)[1..] == w1[1..] + w2 && (v1 + v2)[1..] == v1[1..] + v2;
      EncodeConcat(w1[1..], v1[1..], w2, v2);
    }
  }

  function Front(h: TcpHeader): seq<Byte> {
    Encode(FrontWidths(), FrontValues(h))
  }

  function Back(h: TcpHeader): seq<Byte>
    requires h.doff >= 5
  {
    Encode([2], [h.uptr]) + Zeros(4 * h.doff - LENGTH)
  }

  lemma TwoDigits(c: nat)
    requires c < 0x1_0000
    ensures Digits(2, c) == [c / 256, c % 256]
  {
    assert Digits(1, c / 256) == [c / 256];
  }

  /** The checksum is the 16-bit word at offset 16. */
  lemma HeaderSplits(h: TcpHeader, c: nat)
    requires h.doff >= 5 && c < 0x1_0000
    ensures SerializeHeader(h.(cksum := c)) == Front(h) + [c / 256, c % 256] + Back(h) && |Front(h)| == 16
  {
    var g := h.(cksum := c);
    assert FlagByte(g) == FlagByte(h);
    hide Encode, FlagByte, Digits, Total;
    TotalWidths();
    TwoDigits(c);
    EncodeConcat(FrontWidths(), FrontValues(g), [2, 2], [c, h.uptr]);
    EncodePair(c, h.uptr);
    assert FrontValues(g) == FrontValues(h);
    assert Values(g) == FrontValues(h) + [c, h.uptr];
  }

  lemma EncodePair(c: nat, u: nat)
    ensures Encode([2, 2], [c, u]) == Digits(2, c) + Encode([2], [u])
  {
    assert [2, 2][1..] == [2] && [c, u][1..] == [u];
  }

  lemma BackLength(h: TcpHeader)
    requires h.doff >= 5
    ensures |Back(h)| == 4 * h.doff - 18
  {
    assert Total([2]) == 2;
  }

  /** A serialized segment checks out. */
  lemma SerializedChecksOut(h: TcpHeader, payload: seq<Byte>, pseudo: U32)
    requires h.doff >= 5 && pseudo <= MAX_INITIAL && 4 * h.doff + |payload| <= 0xFFFF
    ensures ChecksumOf(pseudo, SerializeSegment(h, payload, pseudo)) == 0
    ensures |SerializeSegment(h, payload, pseudo)| == 4 * h.doff + |payload|
  {
    hide SerializeHeader, AddAll, Front, Back;
    var c := SegmentChecksum(h, payload, pseudo);
    AddConcat(Cksum(pseudo, false), SerializeHeader(h.(cksum := 0)), payload);
    HeaderSplits(h, 0);
    HeaderSplits(h, c);
    BackLength(h);
    var pre, post := Front(h), Back(h) + payload;
    assert SerializeHeader(h.(cksum := 0)) + payload == pre + [0, 0] + post;
    assert SerializeHeader(h.(cksum := c)) + payload == pre + [c / 256, c % 256] + post;
    PatchedChecksOut(pseudo, pre, post, c);
  }

  /** Parsing a serialized segment, with the same pseudo-header sum, gives back every field and the payload
      without an error; only the checksum field has been filled in. */
  lemma SegmentRoundTrip(h: TcpHeader, payload: seq<Byte>, pseudo: U32)
    requires h.InRange() && 5 <= h.doff && pseudo <= MAX_INITIAL && 4 * h.doff + |payload| <= 0xFFFF
    ensures ParseSegment(SerializeSegment(h, payload, pseudo), pseudo) ==
            Parsed(h.(cksum := SegmentChecksum(h, payload, pseudo)), payload, NoError)
  {
    SerializedChecksOut(h, payload, pseudo);
    hide ChecksumOf, SerializeHeader, ParseHeader, SegmentChecksum;
    HeaderRoundTrip(h.(cksum := SegmentChecksum(h, payload, pseudo)), payload);
  }

  /** Changing any single byte of a segment that parses is caught. */
  lemma SegmentCorruptionRejected(buffer: seq<Byte>, pseudo: U32, i: nat, b: Byte)
    requires pseudo <= MAX_INITIAL && |buffer| <= 0xFFFF && i < |buffer| && b != buffer[i]
    requires ParseSegment(buffer, pseudo).result != BadChecksum
    ensures ParseSegment(buffer[i := b], pseudo) == Rejected(BadChecksum)
  {
    hide ChecksumOf;
    assert ChecksumOf(pseudo, buffer) == 0 by {
      NotRejected(buffer, pseudo);
    }
    OneByteErrorDetected(pseudo, buffer, i, b);
  }

  lemma NotRejected(buffer: seq<Byte>, pseudo: U32)
    requires ParseSegment(buffer, pseudo).result != BadChecksum
    ensures ChecksumOf(pseudo, buffer) == 0
  {
  }

  lemma Sizes()
    ensures |Widths()| == 9
    ensures var w := Widths();
            && w[0] == w[1] == w[6] == w[7] == w[8] == 2 && w[2] == w[3] == 4 && w[4] == w[5] == 1
  {
  }

  /** The layout of section 3.1 of RFC 793: which bytes each field is read from. */
  predicate LaidOut(v: seq<nat>, b: seq<Byte>)
    requires |b| >= LENGTH
  {
    && |v| == 9
    && v[0] == Word(b[0], b[1]) && v[1] == Word(b[2], b[3])
    && v[2] == Quad(b[4], b[5], b[6], b[7]) && v[3] == Quad(b[8], b[9], b[10], b[11])
    && v[4] == b[12] && v[5] == b[13]
    && v[6] == Word(b[14], b[15]) && v[7] == Word(b[16], b[17]) && v[8] == Word(b[18], b[19])
  }

  lemma FieldsLaidOut(b: seq<Byte>)
    requires |b| >= LENGTH
    ensures LaidOut(TakeAll(Parser(b, NoError), Widths()).values, b)
  {
    hide Total, TakeAll, Widths, Word, Quad;
    Spots();
    Sizes();
    var p, w := Parser(b, NoError), Widths();
    WordField(p, w, 0, 0);
    WordField(p, w, 1, 2);
    QuadField(p, w, 2, 4);
    QuadField(p, w, 3, 8);
    ByteField(p, w, 4, 12);
    ByteField(p, w, 5, 13);
    WordField(p, w, 6, 14);
    WordField(p, w, 7, 16);
    WordField(p, w, 8, 18);
  }

  /** Ports, sequence and acknowledgment numbers, offset, flags, window, checksum and urgent pointer, each from its
      own bytes. */
  predicate HeaderOf(h: TcpHeader, b: seq<Byte>)
    requires |b| >= LENGTH
  {
    && h.sport == Word(b[0], b[1]) && h.dport == Word(b[2], b[3])
    && h.seqno == Quad(b[4], b[5], b[6], b[7]) && h.ackno == Quad(b[8], b[9], b[10], b[11])
    && h.doff == b[12] / 16
    && (h.urg <==> b[13] / 32 % 2 == 1) && (h.ack <==> b[13] / 16 % 2 == 1) && (h.psh <==> b[13] / 8 % 2 == 1)
    && (h.rst <==> b[13] / 4 % 2 == 1) && (h.syn <==> b[13] / 2 % 2 == 1) && (h.fin <==> b[13] % 2 == 1)
    && h.win == Word(b[14], b[15]) && h.cksum == Word(b[16], b[17]) && h.uptr == Word(b[18], b[19])
  }

  /** The header parser reads every field from the bytes the standard gives it. */
  lemma HeaderBytes(buffer: seq<Byte>)
    requires |buffer| >= LENGTH
    ensures HeaderOf(ParseHeader(Parser(buffer, NoError)).header, buffer)
  {
    hide TakeAll, Widths, RemovePrefix, Word, Quad;
    FieldsLaidOut(buffer);
  }

  /** The header parser's verdict on a buffer that holds the fixed fields. */
  lemma HeaderVerdictIff(buffer: seq<Byte>)
    requires |buffer| >= LENGTH
    ensures var v, doff := ParseHeader(Parser(buffer, NoError)).result, buffer[12] / 16;
            && (v == NoError <==> doff >= 5 && 4 * doff <= |buffer|)
            && (v == HeaderTooShort <==> doff < 5)
            && (v == PacketTooShort <==> 4 * doff > |buffer|)
  {
    hide Widths, Total;
    HeaderBytes(buffer);
    TotalWidths();
    TakeAllIff(Parser(buffer, NoError), Widths());
    hide TakeAll, HeaderFrom, HeaderOf;
    OffsetByte(buffer);
  }

  /** The data offset is the upper half of byte 12. */
  lemma OffsetByte(buffer: seq<Byte>)
    requires |buffer| >= LENGTH
    ensures ParseHeader(Parser(buffer, NoError)).header.doff == buffer[12] / 16
  {
    hide ParseHeader;
    HeaderBytes(buffer);
  }

  /** Where the parser takes the payload to begin. */
  function PayloadStart(doff: nat): nat {
    if doff < 5 then LENGTH else 4 * doff
  }

  /** Exactly which buffers parse without an error, and what payload they give. The header parser's own verdict is
      discarded, so a data offset below five words is let through, with everything after the fixed header taken
      as payload. */
  lemma SegmentAcceptedIff(buffer: seq<Byte>, pseudo: U32)
    ensures ParseSegment(buffer, pseudo).result == NoError <==>
            ChecksumOf(pseudo, buffer) == 0 && |buffer| >= LENGTH && PayloadStart(buffer[12] / 16) <= |buffer|
    ensures ParseSegment(buffer, pseudo).result == NoError ==>
            && ParseSegment(buffer, pseudo).Parsed?
            && ParseSegment(buffer, pseudo).payload == buffer[PayloadStart(buffer[12] / 16)..]
  {
    hide ChecksumOf, ParseHeader;
    if |buffer| >= LENGTH {
      OffsetByte(buffer);
    }
    HeaderLeaves(buffer);
  }

  /** What the header parser leaves in the buffer, whatever its verdict. */
  lemma HeaderLeaves(buffer: seq<Byte>)
    ensures var r := ParseHeader(Parser(buffer, NoError));
            if |buffer| >= LENGTH && PayloadStart(r.header.doff) <= |buffer|
            then r.parser == Parser(buffer[PayloadStart(r.header.doff)..], NoError)
            else r.parser.err == PacketTooShort
  {
    hide Widths, HeaderFrom, Total;
    TotalWidths();
    TakeAllIff(Parser(buffer, NoError), Widths());
    hide TakeAll;
  }

  /** Malformed and accepted: sixteen bytes that announce a header of fewer than five words and anything behind
      them, once the checksum is filled in. The header parser objects, and nobody asks it. */
  lemma ShortOffsetAccepted(pre: seq<Byte>, post: seq<Byte>, pseudo: U32)
    requires |pre| == 16 && pre[12] / 16 < 5 && 2 <= |post| <= 0xFFFF - 18 && pseudo <= MAX_INITIAL
    ensures var c := ChecksumOf(pseudo, pre + [0, 0] + post);
            var buffer := pre + [c / 256, c % 256] + post;
            && ParseSegment(buffer, pseudo).result == NoError
            && ParseHeader(Parser(buffer, NoError)).result == HeaderTooShort
  {
    var c := ChecksumOf(pseudo, pre + [0, 0] + post);
    var buffer := pre + [c / 256, c % 256] + post;
    hide ChecksumOf, ParseSegment;
    PatchedChecksOut(pseudo, pre, post, c);
    assert buffer[12] == pre[12];
    SegmentAcceptedIff(buffer, pseudo);
    OffsetByte(buffer);
    hide TakeAll, HeaderFrom;
  }

  // ---- Serializing what was parsed ----

  /** The nine integers of a buffer, and the bytes they come from. */
  lemma FieldsOf(buffer: seq<Byte>)
    requires |buffer| >= LENGTH
    ensures |Widths()| == 9
    ensures var v := TakeAll(Parser(buffer, NoError), Widths()).values;
            && Fit(Widths(), v) && Encode(Widths(), v) == buffer[..LENGTH]
            && v[4] == buffer[12] && v[5] == buffer[13]
  {
    hide Total, TakeAll, Widths, Encode, Pow256, Word, Quad;
    var p := Parser(buffer, NoError);
    Spots();
    FieldsLaidOut(buffer);
    TakeAllFit(p, Widths());
    EncodeTaken(p, Widths());
  }

  /** The flags survive but for the two reserved bits. */
  lemma FlagsBack(h: TcpHeader, f: nat)
    requires h.urg == (f / 32 % 2 == 1) && h.ack == (f / 16 % 2 == 1) && h.psh == (f / 8 % 2 == 1)
    requires h.rst == (f / 4 % 2 == 1) && h.syn == (f / 2 % 2 == 1) && h.fin == (f % 2 == 1)
    ensures FlagByte(h) == f - 64 * (f / 64)
  {
    Halves(f);
    BitSum(h, f, f / 2, f / 4, f / 8, f / 16, f / 32, f / 64);
  }

  lemma Halves(f: nat)
    ensures f / 4 == f / 2 / 2 && f / 8 == f / 4 / 2 && f / 16 == f / 8 / 2
    ensures f / 32 == f / 16 / 2 && f / 64 == f / 32 / 2
  {
  }

  lemma BitSum(h: TcpHeader, f: nat, f1: nat, f2: nat, f3: nat, f4: nat, f5: nat, f6: nat)
    requires f1 == f / 2 && f2 == f1 / 2 && f3 == f2 / 2 && f4 == f3 / 2 && f5 == f4 / 2 && f6 == f5 / 2
    requires h.urg == (f5 % 2 == 1) && h.ack == (f4 % 2 == 1) && h.psh == (f3 % 2 == 1)
    requires h.rst == (f2 % 2 == 1) && h.syn == (f1 % 2 == 1) && h.fin == (f % 2 == 1)
    ensures FlagByte(h) == f - 64 * f6
  {
    assert f == 2 * f1 + Bit(h.fin, 1);
    assert 2 * f1 == 4 * f2 + Bit(h.syn, 2);
    assert 4 * f2 == 8 * f3 + Bit(h.rst, 4);
    assert 8 * f3 == 16 * f4 + Bit(h.psh, 8);
    assert 16 * f4 == 32 * f5 + Bit(h.ack, 16);
    assert 32 * f5 == 64 * f6 + Bit(h.urg, 32);
  }

  lemma ValuesBack(v: seq<nat>)
    requires |v| == 9 && Fit(Widths(), v)
    ensures HeaderFrom(v).InRange()
    ensures Values(HeaderFrom(v)) == v <==> v[4] % 16 == 0 && v[5] < 64
  {
    var w := Widths();
    Pow256Table();
    hide Pow256, FlagByte;
    assert v[0] < Pow256(w[0]) && v[1] < Pow256(w[1]) && v[2] < Pow256(w[2]) && v[3] < Pow256(w[3]);
    assert v[4] < Pow256(w[4]) && v[5] < Pow256(w[5]) && v[6] < Pow256(w[6]) && v[7] < Pow256(w[7]);
    assert v[8] < Pow256(w[8]);
    FlagsBack(HeaderFrom(v), v[5]);
  }

  /** A header as this program would write it: reserved bits and option bytes are zero. */
  predicate Plain(buffer: seq<Byte>)
    requires |buffer| >= LENGTH
  {
    && 5 <= buffer[12] / 16 && 4 * (buffer[12] / 16) <= |buffer|
    && buffer[12] % 16 == 0 && buffer[13] < 64
    && forall i :: LENGTH <= i < 4 * (buffer[12] / 16) ==> buffer[i] == 0
  }

  /** Writing the header with checksum field `c` in front of the payload reproduces the buffer. */
  predicate Reproduces(h: TcpHeader, c: U16, buffer: seq<Byte>)
    requires 5 <= h.doff && 4 * h.doff <= |buffer|
  {
    SerializeHeader(h.(cksum := c)) + buffer[4 * h.doff..] == buffer
  }

  lemma ZerosAre(n: nat, z: seq<Byte>)
    requires |z| == n
    ensures z == Zeros(n) <==> forall i :: 0 <= i < n ==> z[i] == 0
  {
    AllZero(n);
  }

  lemma {:induction false} AllZero(n: nat)
    ensures forall i :: 0 <= i < n ==> Zeros(n)[i] == 0
  {
    if n == 0 {
    } else {
      AllZero(n - 1);
    }
  }

  /** It does exactly when the header is plain and `c` is what stood in the checksum field. */
  lemma ReproducesIff(buffer: seq<Byte>, h: TcpHeader, c: U16)
    requires |buffer| >= LENGTH && h == ParseHeader(Parser(buffer, NoError)).header
    requires 5 <= h.doff && 4 * h.doff <= |buffer|
    ensures Reproduces(h, c, buffer) <==> Plain(buffer) && c == h.cksum
  {
    hide TakeAll, Encode, Widths, Zeros, Total, FlagByte, RemovePrefix, Fit;
    FieldsOf(buffer);
    TotalWidths();
    FieldsReproduceIff(TakeAll(Parser(buffer, NoError), Widths()).values, c);
    PaddedIs(Encode(Widths(), Values(h.(cksum := c))), 4 * h.doff, buffer);
  }

  /** A fixed header padded to `size` bytes, against a buffer: fixed fields and options one by one. */
  lemma PaddedIs(head: seq<Byte>, size: nat, buffer: seq<Byte>)
    requires |head| == LENGTH <= size <= |buffer|
    ensures head + Zeros(size - LENGTH) + buffer[size..] == buffer <==>
            head == buffer[..LENGTH] && forall i :: LENGTH <= i < size ==> buffer[i] == 0
  {
    hide Zeros;
    var opts, rest := buffer[LENGTH..size], buffer[size..];
    ZerosAre(size - LENGTH, opts);
    assert buffer == buffer[..LENGTH] + opts + rest;
    SplitEqual(head, buffer[..LENGTH], Zeros(size - LENGTH), opts, rest);
    assert forall i :: LENGTH <= i < size ==> buffer[i] == opts[i - LENGTH];
    assert forall i :: 0 <= i < |opts| ==> opts[i] == buffer[LENGTH + i];
  }

  lemma SplitEqual(a: seq<Byte>, b: seq<Byte>, x: seq<Byte>, y: seq<Byte>, rest: seq<Byte>)
    requires |a| == |b| && |x| == |y|
    ensures a + x + rest == b + y + rest <==> a == b && x == y
  {
    if a + x + rest == b + y + rest {
      assert a == (a + x + rest)[..|a|] && b == (b + y + rest)[..|a|];
      assert x == (a + x + rest)[|a|..|a| + |x|] && y == (b + y + rest)[|a|..|a| + |x|];
    }
  }

  lemma FieldsReproduceIff(v: seq<nat>, c: U16)
    requires |Widths()| == 9 && |v| == 9 && Fit(Widths(), v)
    ensures var h := HeaderFrom(v);
            Encode(Widths(), Values(h.(cksum := c))) == Encode(Widths(), v) <==>
            v[4] % 16 == 0 && v[5] < 64 && c == h.cksum
  {
    hide Encode, Widths, FlagByte;
    var h := HeaderFrom(v);
    ValuesBack(v);
    var g := h.(cksum := c);
    assert FlagByte(g) == FlagByte(h) by { SameFlags(h, c); }
    ValuesFit(g);
    EncodeInjective(Widths(), Values(g), v);
    assert Values(g) == v <==> Values(h) == v && c == h.cksum by {
      assert Values(h)[7] == h.cksum == v[7] && Values(g) == Values(h)[7 := c];
    }
  }

  lemma SameFlags(h: TcpHeader, c: nat)
    ensures FlagByte(h.(cksum := c)) == FlagByte(h)
  {
  }

  /** With the header's other bytes as they are, the checksum that serializing fills in is the one that was there,
      unless that was 0xFFFF. */
  lemma RefillsChecksum(h: TcpHeader, buffer: seq<Byte>, pseudo: U32)
    requires pseudo <= MAX_INITIAL && |buffer| <= 0xFFFF && ChecksumOf(pseudo, buffer) == 0
    requires h.InRange() && 5 <= h.doff && 4 * h.doff <= |buffer| && Reproduces(h, h.cksum, buffer)
    ensures SegmentChecksum(h, buffer[4 * h.doff..], pseudo) == h.cksum <==> h.cksum != 0xFFFF
  {
    hide AddAll, Front, Back, ChecksumOf, RawSum, SerializeHeader;
    var c, payload := h.cksum, buffer[4 * h.doff..];
    var pre, post := Front(h), Back(h) + payload;
    HeaderSplits(h, c);
    HeaderSplits(h, 0);
    BackLength(h);
    assert buffer == pre + [c / 256, c % 256] + post;
    assert SerializeHeader(h.(cksum := 0)) + payload == pre + [0, 0] + post;
    FrontNonzero(h);
    ChecksumInChunks(h, payload, pseudo);
    PatchIsUnique(pseudo, pre, post, c / 256, c % 256);
  }

  lemma ChecksumInChunks(h: TcpHeader, payload: seq<Byte>, pseudo: U32)
    requires h.doff >= 5
    ensures SegmentChecksum(h, payload, pseudo) == ChecksumOf(pseudo, SerializeHeader(h.(cksum := 0)) + payload)
  {
    hide SerializeHeader, AddAll;
    AddConcat(Cksum(pseudo, false), SerializeHeader(h.(cksum := 0)), payload);
  }

  lemma FrontNonzero(h: TcpHeader)
    requires h.InRange() && h.doff >= 5
    ensures RawSum(Front(h), false) > 0
  {
    hide RawSum, FlagByte, Digits;
    var w, v := FrontWidths(), FrontValues(h);
    assert w == [2, 2, 4, 4] + [1, 1, 2] && v == v[..4] + v[4..];
    EncodeConcat([2, 2, 4, 4], v[..4], [1, 1, 2], v[4..]);
    assert Encode([1, 1, 2], v[4..])[0] == h.doff * 16 by { OneDigit(h.doff * 16); }
    TotalWidths();
    NonzeroCounts(Front(h), false, |Encode([2, 2, 4, 4], v[..4])|);
  }

  lemma OneDigit(x: nat)
    requires x < 256
    ensures Digits(1, x) == [x]
  {
  }

  /** Serializing the parsed segment succeeds and gives the buffer. */
  predicate ComesBack(p: SegmentParse, pseudo: U32, buffer: seq<Byte>) {
    p.Parsed? && p.header.doff >= 5 && SerializeSegment(p.header, p.payload, pseudo) == buffer
  }

  /** Which accepted segments come back byte for byte when what was parsed is serialized again: exactly those with
      a plain header whose checksum field does not hold 0xFFFF, the other way of writing zero. */
  lemma ReserializeIff(buffer: seq<Byte>, pseudo: U32)
    requires pseudo <= MAX_INITIAL && LENGTH <= |buffer| <= 0xFFFF
    requires ParseSegment(buffer, pseudo).result == NoError
    ensures ComesBack(ParseSegment(buffer, pseudo), pseudo, buffer) <==>
            Plain(buffer) && Word(buffer[16], buffer[17]) != 0xFFFF
  {
    hide ChecksumOf, ParseHeader, SerializeHeader, SegmentChecksum, Plain;
    SegmentAcceptedIff(buffer, pseudo);
    OffsetByte(buffer);
    var p := ParseSegment(buffer, pseudo);
    var h := p.header;
    if h.doff >= 5 {
      var c := SegmentChecksum(h, p.payload, pseudo);
      HeaderInRange(buffer);
      ReproducesIff(buffer, h, c);
      ReproducesIff(buffer, h, h.cksum);
      if Reproduces(h, h.cksum, buffer) {
        RefillsChecksum(h, buffer, pseudo);
      }
    } else {
      assert !Plain(buffer) by { ShortIsNotPlain(buffer); }
    }
  }

  lemma ShortIsNotPlain(buffer: seq<Byte>)
    requires |buffer| >= LENGTH && buffer[12] / 16 < 5
    ensures !Plain(buffer)
  {
  }

  lemma HeaderInRange(buffer: seq<Byte>)
    requires |buffer| >= LENGTH
    ensures var h := ParseHeader(Parser(buffer, NoError)).header;
            h.InRange() && h.cksum == Word(buffer[16], buffer[17])
  {
    hide TakeAll, Encode, Widths, Total, Fit, RemovePrefix, Word, Quad;
    FieldsOf(buffer);
    FieldsLaidOut(buffer);
    ValuesBack(TakeAll(Parser(buffer, NoError), Widths()).values);
  }

  // ---- As the program does it ----

  /** Extends a string with zero bytes up to `size`. */
  method Resize(s: seq<Byte>, size: nat) returns (r: seq<Byte>)
    requires |s| <= size
    ensures r == s + Zeros(size - |s|)
  {
    r := s;
    for n := 0 to size - |s|
      invariant r == s + Zeros(n)
    {
      r := r + [0];
    }
  }

  /** Writes a header field by field and pads it; fails if the data offset is too small. */
  method WriteHeader(h: TcpHeader) returns (ok: bool, bytes: seq<Byte>)
    ensures ok <==> h.doff >= 5
    ensures ok ==> bytes == SerializeHeader(h)
  {
    if h.doff < 5 {
      return false, [];
    }
    hide Encode, Values;
    TotalWidths();
    bytes := UnparseInts([], Widths(), Values(h));
    bytes := Resize(bytes, 4 * h.doff);
    ok := true;
  }

  /** Reads a header, consuming the parser. */
  method ReadHeader(p: NetParser) returns (h: TcpHeader, result: ParseResult)
    modifies p
    ensures HeaderParse(h, p.Model(), result) == ParseHeader(old(p.Model()))
  {
    hide TakeAll;
    var v := p.ParseInts(Widths());
    h := HeaderFrom(v);
    if h.doff < 5 {
      return h, HeaderTooShort;
    }
    p.Skip(h.doff * 4 - LENGTH);
    result := p.err;
  }

  method WriteSegment(h: TcpHeader, payload: seq<Byte>, pseudo: U32) returns (ok: bool, bytes: seq<Byte>)
    ensures ok <==> h.doff >= 5
    ensures ok ==> bytes == SerializeSegment(h, payload, pseudo)
  {
    hide SerializeHeader, AddAll;
    var zero;
    ok, zero := WriteHeader(h.(cksum := 0));
    if !ok {
      return false, [];
    }
    var check := new InternetChecksum(pseudo);
    check.Add(zero);
    check.Add(payload);
    var c := check.Value();
    ok, bytes := WriteHeader(h.(cksum := c));
    bytes := bytes + payload;
  }

  method ReadSegment(buffer: seq<Byte>, pseudo: U32) returns (r: SegmentParse)
    ensures r == ParseSegment(buffer, pseudo)
  {
    hide AddAll, ParseHeader;
    var check := new InternetChecksum(pseudo);
    check.Add(buffer);
    var v := check.Value();
    if v != 0 {
      return Rejected(BadChecksum);
    }
    var p := new NetParser(buffer);
    var h, _ := ReadHeader(p);
    r := Parsed(h, p.buffer, p.err);
  }
}
