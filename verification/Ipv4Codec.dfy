/** IPv4 datagrams on the wire (libsponge/tcp_helpers/ipv4_header.cc, libsponge/tcp_helpers/ipv4_datagram.cc;
    section 3.1 of RFC 791), and TCP segments carried inside them. */
module Ipv4Codec {
  import opened Wrapping
  import opened ByteStreams
  import opened Segments
  import opened Checksums
  import opened Parsers
  import TcpCodec

  const LENGTH: nat := 20

  datatype Ipv4Header = Ipv4Header(ver: nat, hlen: nat, tos: nat, len: nat, id: nat, df: bool, mf: bool, offset: nat,
                                   ttl: nat, proto: nat, cksum: nat, src: nat, dst: nat)
  {
    predicate InRange() {
      && ver < 16 && hlen < 16 && tos < 256 && len < 0x1_0000 && id < 0x1_0000 && offset < 0x2000
      && ttl < 256 && proto < 256 && cksum < 0x1_0000 && src < 0x1_0000_0000 && dst < 0x1_0000_0000
    }
  }

  /** A freshly constructed header. */
  const DEFAULT_HEADER: Ipv4Header := Ipv4Header(4, 5, 0, 0, 0, true, false, 0, 128, 6, 0, 0, 0)

  /** `len - 4 * hlen` in unsigned 16-bit arithmetic. */
  function PayloadLength(h: Ipv4Header): nat {
    (h.len - 4 * h.hlen) % 0x1_0000
  }

  function PseudoSum(h: Ipv4Header): nat {
    (h.src / 0x1_0000 + h.src % 0x1_0000) + (h.dst / 0x1_0000 + h.dst % 0x1_0000) + h.proto + PayloadLength(h)
  }

  function FirstByte(h: Ipv4Header): nat {
    (h.ver * 16 + h.hlen % 16) % 256
  }

  function FlagsAndOffset(h: Ipv4Header): nat {
    (if h.df then 0x4000 else 0) + (if h.mf then 0x2000 else 0) + h.offset % 0x2000
  }

  function FrontWidths(): seq<nat> {
    [1, 1, 2, 2, 2, 1, 1]
  }

  function FrontValues(h: Ipv4Header): seq<nat> {
    [FirstByte(h), h.tos, h.len, h.id, FlagsAndOffset(h), h.ttl, h.proto]
  }

  function Widths(): seq<nat> {
    FrontWidths() + [2, 4, 4]
  }

  function Values(h: Ipv4Header): seq<nat> {
    FrontValues(h) + [h.cksum, h.src, h.dst]
  }

  predicate CanSerialize(h: Ipv4Header) {
    h.ver == 4 && h.hlen >= 5
  }

  function SerializeHeader(h: Ipv4Header): seq<Byte>
    requires CanSerialize(h)
  {
    Encode(Widths(), Values(h)) + TcpCodec.Zeros(4 * h.hlen - LENGTH)
  }

  function HeaderFrom(v: seq<nat>): Ipv4Header
    requires |v| == 10
  {
    Ipv4Header(v[0] / 16, v[0] % 16, v[1], v[2], v[3], v[4] / 0x4000 % 2 == 1, v[4] / 0x2000 % 2 == 1, v[4] % 0x2000,
               v[5], v[6], v[7], v[8], v[9])
  }

  datatype HeaderParse = HeaderParse(header: Ipv4Header, parser: Parser, result: ParseResult)

  /** The header parser's checks on the fields it has read, in the order it makes them. */
  function CheckHeader(original: seq<Byte>, p: Parser, h: Ipv4Header): HeaderParse {
    if |original| < 4 * h.hlen then HeaderParse(h, p, PacketTooShort)
    else if h.ver != 4 then HeaderParse(h, p, WrongIPVersion)
    else if h.hlen < 5 then HeaderParse(h, p, HeaderTooShort)
    else if |original| != h.len then HeaderParse(h, p, TruncatedPacket)
    else
      var p1 := RemovePrefix(p, h.hlen * 4 - LENGTH);
      if p1.err != NoError then HeaderParse(h, p1, p1.err)
      else if ChecksumOf(0, original[..4 * h.hlen]) != 0 then HeaderParse(h, p1, BadChecksum)
      else HeaderParse(h, p1, NoError)
  }

  function ParseHeader(p: Parser): HeaderParse {
    if |p.buffer| < LENGTH then HeaderParse(DEFAULT_HEADER, p, PacketTooShort)
    else
      var t := TakeAll(p, Widths());
      CheckHeader(p.buffer, t.parser, HeaderFrom(t.values))
  }

  // ---- Datagrams ----

  function HeaderChecksum(h: Ipv4Header): U16
    requires CanSerialize(h)
  {
    ChecksumOf(0, SerializeHeader(h.(cksum := 0)))
  }

  /** Serializing needs a version-4 header whose length fields match the payload. */
  predicate Serializable(h: Ipv4Header, payload: seq<Byte>) {
    CanSerialize(h) && |payload| == PayloadLength(h)
  }

  function SerializeDatagram(h: Ipv4Header, payload: seq<Byte>): seq<Byte>
    requires Serializable(h, payload)
  {
    SerializeHeader(h.(cksum := HeaderChecksum(h))) + payload
  }

  datatype DatagramParse = DatagramParse(header: Ipv4Header, payload: seq<Byte>, result: ParseResult)

  /** The header parser's verdict is discarded; only the parser's own error and the payload size count. */
  function ParseDatagram(buffer: seq<Byte>): DatagramParse {
    var h := ParseHeader(Parser(buffer, NoError));
    DatagramParse(h.header, h.parser.buffer,
                  if |h.parser.buffer| != PayloadLength(h.header) then PacketTooShort else h.parser.err)
  }

  // ---- Round trip ----

  lemma BitsInvert(h: Ipv4Header)
    requires h.InRange()
    ensures FirstByte(h) / 16 == h.ver && FirstByte(h) % 16 == h.hlen && FirstByte(h) < 256
    ensures var f := FlagsAndOffset(h);
            f < 0x1_0000 && (f / 0x4000 % 2 == 1) == h.df && (f / 0x2000 % 2 == 1) == h.mf && f % 0x2000 == h.offset
  {
  }

  lemma ValuesFit(h: Ipv4Header)
    requires h.InRange()
    ensures Fit(Widths(), Values(h))
  {
    Pow256Table();
    BitsInvert(h);
    hide FirstByte, FlagsAndOffset, Pow256;
    var w, v := Widths(), Values(h);
    assert v[0] < Pow256(w[0]) && v[1] < Pow256(w[1]) && v[2] < Pow256(w[2]) && v[3] < Pow256(w[3]);
    assert v[4] < Pow256(w[4]) && v[5] < Pow256(w[5]) && v[6] < Pow256(w[6]) && v[7] < Pow256(w[7]);
    assert v[8] < Pow256(w[8]) && v[9] < Pow256(w[9]);
  }

  lemma ValuesInvert(h: Ipv4Header)
    requires h.InRange()
    ensures HeaderFrom(Values(h)) == h
  {
    BitsInvert(h);
    hide FirstByte, FlagsAndOffset;
  }

  /** Where each field starts. */
  lemma Spots()
    ensures |Widths()| == 10 && Total(Widths()) == LENGTH
    ensures var w := Widths();
            && Total(w[..0]) == 0 && Total(w[..1]) == 1 && Total(w[..2]) == 2 && Total(w[..3]) == 4
            && Total(w[..4]) == 6 && Total(w[..5]) == 8 && Total(w[..6]) == 9 && Total(w[..7]) == 10
            && Total(w[..8]) == 12 && Total(w[..9]) == 16
  {
    var w := Widths();
    assert w == [1, 1, 2, 2, 2, 1, 1, 2, 4, 4] && w[..10] == w;
    assert Total(w[..0]) == 0;
    hide Total, Widths;
    TotalNext(w, 0); TotalNext(w, 1); TotalNext(w, 2); TotalNext(w, 3); TotalNext(w, 4);
    TotalNext(w, 5); TotalNext(w, 6); TotalNext(w, 7); TotalNext(w, 8); TotalNext(w, 9);
  }

  lemma TotalWidths()
    ensures Total(Widths()) == LENGTH && Total(FrontWidths()) == 10
  {
    Spots();
    assert Widths()[..7] == FrontWidths();
    hide Total;
  }

  function Front(h: Ipv4Header): seq<Byte> {
    Encode(FrontWidths(), FrontValues(h))
  }

  function Back(h: Ipv4Header): seq<Byte>
    requires CanSerialize(h)
  {
    Encode([4, 4], [h.src, h.dst]) + TcpCodec.Zeros(4 * h.hlen - LENGTH)
  }

  /** The checksum is the 16-bit word at offset 10. */
  lemma HeaderSplits(h: Ipv4Header, c: nat)
    requires CanSerialize(h) && c < 0x1_0000
    ensures SerializeHeader(h.(cksum := c)) == Front(h) + [c / 256, c % 256] + Back(h)
    ensures |Front(h)| == 10 && |SerializeHeader(h.(cksum := c))| == 4 * h.hlen
  {
    var g := h.(cksum := c);
    TotalWidths();
    TcpCodec.TwoDigits(c);
    TcpCodec.EncodeConcat(FrontWidths(), FrontValues(g), [2, 4, 4], [c, h.src, h.dst]);
    EncodeTriple(c, h.src, h.dst);
    hide Encode;
    assert FrontValues(g) == FrontValues(h);
    assert Values(g) == FrontValues(h) + [c, h.src, h.dst];
  }

  lemma EncodeTriple(c: nat, s: nat, d: nat)
    ensures Encode([2, 4, 4], [c, s, d]) == Digits(2, c) + Encode([4, 4], [s, d])
  {
    assert [2, 4, 4][1..] == [4, 4] && [c, s, d][1..] == [s, d];
  }

  lemma SerializedChecksOut(h: Ipv4Header)
    requires CanSerialize(h) && h.hlen < 16
    ensures ChecksumOf(0, SerializeHeader(h.(cksum := HeaderChecksum(h)))) == 0
  {
    var c := HeaderChecksum(h);
    HeaderSplits(h, 0);
    HeaderSplits(h, c);
    hide SerializeHeader, ChecksumOf, Front, Back;
    PatchedChecksOut(0, Front(h), Back(h), c);
  }

  /** The length fields of a header that fits its payload. */
  predicate Sized(h: Ipv4Header, payload: seq<Byte>) {
    h.InRange() && CanSerialize(h) && h.len == 4 * h.hlen + |payload|
  }

  /** Whatever the checksum field holds, parsing gives back every field and leaves the payload; the header
      parser's verdict tells whether the checksum was right. */
  lemma HeaderRoundTrip(h: Ipv4Header, payload: seq<Byte>)
    requires Sized(h, payload)
    ensures var bytes := SerializeHeader(h);
            ParseHeader(Parser(bytes + payload, NoError)) ==
            HeaderParse(h, Parser(payload, NoError), if ChecksumOf(0, bytes) == 0 then NoError else BadChecksum)
  {
    hide Encode, Values, Widths, TakeAll, ChecksumOf, HeaderFrom, SerializeHeader;
    FieldsRoundTrip(h, payload);
    var bytes, pad := SerializeHeader(h), TcpCodec.Zeros(4 * h.hlen - LENGTH);
    assert (pad + payload)[|pad|..] == payload;
    assert (bytes + payload)[..4 * h.hlen] == bytes;
  }

  lemma FieldsRoundTrip(h: Ipv4Header, payload: seq<Byte>)
    requires h.InRange() && CanSerialize(h)
    ensures |SerializeHeader(h)| == 4 * h.hlen
    ensures var t := TakeAll(Parser(SerializeHeader(h) + payload, NoError), Widths());
            && HeaderFrom(t.values) == h
            && t.parser == Parser(TcpCodec.Zeros(4 * h.hlen - LENGTH) + payload, NoError)
  {
    hide Encode, Values, Widths, TakeAll, HeaderFrom, Total, Fit, TcpCodec.Zeros;
    ValuesFit(h);
    ValuesInvert(h);
    TotalWidths();
    var pad := TcpCodec.Zeros(4 * h.hlen - LENGTH);
    TakeEncoded(Widths(), Values(h), pad + payload);
    assert SerializeHeader(h) + payload == Encode(Widths(), Values(h)) + (pad + payload);
  }

  /** Parsing a serialized datagram gives back every field and the payload without an error; only the checksum
      has been filled in, and the header parser finds it right. */
  lemma DatagramRoundTrip(h: Ipv4Header, payload: seq<Byte>)
    requires Sized(h, payload)
    ensures Serializable(h, payload)
    ensures var bytes, h' := SerializeDatagram(h, payload), h.(cksum := HeaderChecksum(h));
            && ParseDatagram(bytes) == DatagramParse(h', payload, NoError)
            && ParseHeader(Parser(bytes, NoError)).result == NoError
  {
    hide SerializeHeader, ParseHeader, ChecksumOf, HeaderChecksum;
    SerializedChecksOut(h);
    HeaderRoundTrip(h.(cksum := HeaderChecksum(h)), payload);
  }

  /** A wrong header checksum does not make a datagram fail to parse: the header parser notices it, exactly
      when the header does not sum to a multiple of 65535, but nobody asks it. */
  lemma ChecksumIsIgnored(h: Ipv4Header, payload: seq<Byte>)
    requires Sized(h, payload)
    ensures var bytes := SerializeHeader(h);
            && ParseDatagram(bytes + payload) == DatagramParse(h, payload, NoError)
            && (ParseHeader(Parser(bytes + payload, NoError)).result == NoError <==>
                RawSum(bytes, false) > 0 && RawSum(bytes, false) % 0xFFFF == 0)
  {
    hide SerializeHeader, ParseHeader, ChecksumOf, RawSum, HeaderFrom, TakeAll;
    HeaderRoundTrip(h, payload);
    HeaderChecksumIff(h, payload);
  }

  lemma HeaderChecksumIff(h: Ipv4Header, payload: seq<Byte>)
    requires h.InRange() && CanSerialize(h)
    ensures var s := RawSum(SerializeHeader(h), false);
            ChecksumOf(0, SerializeHeader(h)) == 0 <==> s > 0 && s % 0xFFFF == 0
  {
    hide SerializeHeader, ChecksumOf, RawSum, HeaderFrom, TakeAll;
    FieldsRoundTrip(h, payload);
    ChecksumZeroIff(0, SerializeHeader(h));
  }

  /** Length fields that pass every check but possibly the checksum, in a buffer of `size` bytes. */
  predicate WellFormed(ver: nat, hlen: nat, len: nat, size: nat) {
    ver == 4 && 5 <= hlen && 4 * hlen <= size && size == len
  }

  /** Exactly which buffers parse without an error: those with a well-formed header, and the malformed ones
      whose bytes after the fixed header happen to be as many as the length fields announce. Version and header
      length are the halves of byte 0, the total length is in bytes 2 and 3. */
  lemma DatagramAcceptedIff(buffer: seq<Byte>)
    ensures ParseDatagram(buffer).result == NoError <==>
            && |buffer| >= LENGTH
            && var ver, hlen, len := buffer[0] / 16, buffer[0] % 16, Word(buffer[2], buffer[3]);
               WellFormed(ver, hlen, len, |buffer|) || |buffer| - LENGTH == (len - 4 * hlen) % 0x1_0000
  {
    hide ParseHeader, WellFormed, HeaderEaten;
    HeaderLeaves(buffer);
    LeftoverFitsIff(ParseHeader(Parser(buffer, NoError)).header, |buffer|);
  }

  /** When what is left after the header is as long as the length fields announce. */
  lemma LeftoverFitsIff(h: Ipv4Header, size: nat)
    ensures size < LENGTH ==> size != PayloadLength(DEFAULT_HEADER)
    ensures h.len < 0x1_0000 && HeaderEaten(h, size) <= size ==>
              (size - HeaderEaten(h, size) == PayloadLength(h) <==>
               WellFormed(h.ver, h.hlen, h.len, size) || size - LENGTH == PayloadLength(h))
  {
    if WellFormed(h.ver, h.hlen, h.len, size) && h.len < 0x1_0000 {
      assert PayloadLength(h) == h.len - 4 * h.hlen;
    }
  }

  predicate ReadFrom(h: Ipv4Header, buffer: seq<Byte>)
    requires |buffer| >= LENGTH
  {
    h.ver == buffer[0] / 16 && h.hlen == buffer[0] % 16 && h.len == Word(buffer[2], buffer[3])
  }

  /** What the header parser reads of the length fields and leaves in the buffer, whatever its verdict. */
  lemma HeaderLeaves(buffer: seq<Byte>)
    ensures var r := ParseHeader(Parser(buffer, NoError));
            && r.parser.err == NoError
            && if |buffer| < LENGTH then r.parser.buffer == buffer && r.header == DEFAULT_HEADER
               else ReadFrom(r.header, buffer) && HeaderEaten(r.header, |buffer|) <= |buffer|
                    && r.parser.buffer == buffer[HeaderEaten(r.header, |buffer|)..]
  {
    hide TakeAll, CheckHeader, Widths, Word;
    if |buffer| >= LENGTH {
      FieldsLeave(buffer);
      var t := TakeAll(Parser(buffer, NoError), Widths());
      ChecksLeave(buffer, HeaderFrom(t.values));
    }
  }

  /** Options are skipped only in a well-formed header. */
  function HeaderEaten(h: Ipv4Header, size: nat): nat {
    if WellFormed(h.ver, h.hlen, h.len, size) then 4 * h.hlen else LENGTH
  }

  lemma ChecksLeave(buffer: seq<Byte>, h: Ipv4Header)
    requires |buffer| >= LENGTH
    ensures var r := CheckHeader(buffer, Parser(buffer[LENGTH..], NoError), h);
            && r.header == h && r.parser.err == NoError
            && HeaderEaten(h, |buffer|) <= |buffer| && r.parser.buffer == buffer[HeaderEaten(h, |buffer|)..]
  {
    hide ChecksumOf;
  }

  lemma Sizes()
    ensures |Widths()| == 10
    ensures var w := Widths();
            && w[0] == w[1] == w[5] == w[6] == 1 && w[2] == w[3] == w[4] == w[7] == 2 && w[8] == w[9] == 4
  {
  }

  /** The layout of section 3.1 of RFC 791: which bytes each field is read from. */
  predicate LaidOut(v: seq<nat>, b: seq<Byte>)
    requires |b| >= LENGTH
  {
    && |v| == 10
    && v[0] == b[0] && v[1] == b[1] && v[2] == Word(b[2], b[3]) && v[3] == Word(b[4], b[5])
    && v[4] == Word(b[6], b[7]) && v[5] == b[8] && v[6] == b[9] && v[7] == Word(b[10], b[11])
    && v[8] == Quad(b[12], b[13], b[14], b[15]) && v[9] == Quad(b[16], b[17], b[18], b[19])
  }

  lemma FieldsLaidOut(b: seq<Byte>)
    requires |b| >= LENGTH
    ensures LaidOut(TakeAll(Parser(b, NoError), Widths()).values, b)
  {
    hide Total, TakeAll, Widths, Word, Quad;
    Spots();
    Sizes();
    var p, w := Parser(b, NoError), Widths();
    ByteField(p, w, 0, 0);
    ByteField(p, w, 1, 1);
    WordField(p, w, 2, 2);
    WordField(p, w, 3, 4);
    WordField(p, w, 4, 6);
    ByteField(p, w, 5, 8);
    ByteField(p, w, 6, 9);
    WordField(p, w, 7, 10);
    QuadField(p, w, 8, 12);
    QuadField(p, w, 9, 16);
  }

  /** Every field from its own bytes, the two flags being bits of byte 6. */
  predicate HeaderOf(h: Ipv4Header, b: seq<Byte>)
    requires |b| >= LENGTH
  {
    && h.ver == b[0] / 16 && h.hlen == b[0] % 16 && h.tos == b[1]
    && h.len == Word(b[2], b[3]) && h.id == Word(b[4], b[5])
    && (h.df <==> b[6] / 64 % 2 == 1) && (h.mf <==> b[6] / 32 % 2 == 1) && h.offset == Word(b[6] % 32, b[7])
    && h.ttl == b[8] && h.proto == b[9] && h.cksum == Word(b[10], b[11])
    && h.src == Quad(b[12], b[13], b[14], b[15]) && h.dst == Quad(b[16], b[17], b[18], b[19])
  }

  lemma FlagBits(hi: Byte, lo: Byte)
    ensures var f := Word(hi, lo);
            f / 0x4000 == hi / 64 && f / 0x2000 == hi / 32 && f % 0x2000 == Word(hi % 32, lo)
  {
  }

  lemma FromLaidOut(v: seq<nat>, b: seq<Byte>)
    requires |b| >= LENGTH && LaidOut(v, b)
    ensures HeaderOf(HeaderFrom(v), b)
  {
    FlagBits(b[6], b[7]);
    hide Word, Quad;
  }

  /** The header parser reads every field from the bytes the standard gives it. */
  lemma HeaderBytes(buffer: seq<Byte>)
    requires |buffer| >= LENGTH
    ensures HeaderOf(ParseHeader(Parser(buffer, NoError)).header, buffer)
  {
    hide TakeAll, Widths, HeaderFrom, CheckHeader, HeaderOf;
    FieldsLaidOut(buffer);
    var t := TakeAll(Parser(buffer, NoError), Widths());
    FromLaidOut(t.values, buffer);
    assert CheckHeader(buffer, t.parser, HeaderFrom(t.values)).header == HeaderFrom(t.values) by {
      CheckKeepsHeader(buffer, t.parser, HeaderFrom(t.values));
    }
  }

  lemma CheckKeepsHeader(original: seq<Byte>, p: Parser, h: Ipv4Header)
    ensures CheckHeader(original, p, h).header == h
  {
    hide ChecksumOf;
  }

  /** The header parser's verdict, which the datagram parser drops, on a buffer that holds the fixed fields: each
      complaint exactly when it is the first that applies. */
  lemma HeaderVerdictIff(buffer: seq<Byte>)
    requires |buffer| >= LENGTH
    ensures var v, ver, hlen, len := ParseHeader(Parser(buffer, NoError)).result,
                                     buffer[0] / 16, buffer[0] % 16, Word(buffer[2], buffer[3]);
            && (v == PacketTooShort <==> |buffer| < 4 * hlen)
            && (v == WrongIPVersion <==> |buffer| >= 4 * hlen && ver != 4)
            && (v == HeaderTooShort <==> |buffer| >= 4 * hlen && ver == 4 && hlen < 5)
            && (v == TruncatedPacket <==> |buffer| >= 4 * hlen && ver == 4 && hlen >= 5 && |buffer| != len)
            && (v == NoError <==> WellFormed(ver, hlen, len, |buffer|) && ChecksumOf(0, buffer[..4 * hlen]) == 0)
  {
    hide TakeAll, Widths, HeaderFrom, ChecksumOf, Word;
    FieldsLeave(buffer);
  }

  lemma FieldsLeave(buffer: seq<Byte>)
    requires |buffer| >= LENGTH
    ensures |Widths()| == 10
    ensures var t := TakeAll(Parser(buffer, NoError), Widths());
            t.parser == Parser(buffer[LENGTH..], NoError) && ReadFrom(HeaderFrom(t.values), buffer)
  {
    hide TakeAll, Total, Widths, Word, Quad;
    Spots();
    TakeAllIff(Parser(buffer, NoError), Widths());
    FieldsLaidOut(buffer);
  }

  /** Malformed and accepted: any fields whatever with a header length of five words and the right total length
      parse without an error, whatever the version; the header parser objects unless it is 4. */
  lemma WrongVersionAccepted(h: Ipv4Header, payload: seq<Byte>)
    requires h.InRange() && h.hlen == 5 && h.len == LENGTH + |payload|
    ensures var buffer := Encode(Widths(), Values(h)) + payload;
            && ParseDatagram(buffer) == DatagramParse(h, payload, NoError)
            && (h.ver != 4 ==> ParseHeader(Parser(buffer, NoError)).result == WrongIPVersion)
  {
    hide Encode, Values, Widths, TakeAll, ChecksumOf, HeaderFrom;
    ValuesFit(h);
    ValuesInvert(h);
    TotalWidths();
    TakeEncoded(Widths(), Values(h), payload);
    assert payload[0..] == payload;
  }

  // ---- Serializing what was parsed ----

  /** The ten integers of a buffer, and the bytes they come from. */
  lemma FieldsOf(buffer: seq<Byte>)
    requires |buffer| >= LENGTH
    ensures |Widths()| == 10
    ensures var v := TakeAll(Parser(buffer, NoError), Widths()).values;
            Fit(Widths(), v) && Encode(Widths(), v) == buffer[..LENGTH] && LaidOut(v, buffer)
  {
    hide Total, TakeAll, Widths, Encode, Pow256, LaidOut;
    var p := Parser(buffer, NoError);
    Spots();
    FieldsLaidOut(buffer);
    TakeAllFit(p, Widths());
    EncodeTaken(p, Widths());
  }

  /** Flags and offset survive but for the reserved bit. */
  lemma FlagsBack(h: Ipv4Header, f: nat)
    requires f < 0x1_0000
    requires h.df == (f / 0x4000 % 2 == 1) && h.mf == (f / 0x2000 % 2 == 1) && h.offset == f % 0x2000
    ensures FlagsAndOffset(h) == f <==> f < 0x8000
  {
  }

  lemma ValuesBack(v: seq<nat>)
    requires |v| == 10 && Fit(Widths(), v)
    ensures HeaderFrom(v).InRange()
    ensures Values(HeaderFrom(v)) == v <==> v[4] < 0x8000
  {
    var w := Widths();
    Pow256Table();
    hide Pow256, FlagsAndOffset;
    assert v[0] < Pow256(w[0]) && v[1] < Pow256(w[1]) && v[2] < Pow256(w[2]) && v[3] < Pow256(w[3]);
    assert v[4] < Pow256(w[4]) && v[5] < Pow256(w[5]) && v[6] < Pow256(w[6]) && v[7] < Pow256(w[7]);
    assert v[8] < Pow256(w[8]) && v[9] < Pow256(w[9]);
    FlagsBack(HeaderFrom(v), v[4]);
  }

  /** A header as this program would write it: version 4, reserved bit and option bytes zero. */
  predicate Plain(buffer: seq<Byte>)
    requires |buffer| >= LENGTH
  {
    && buffer[0] / 16 == 4 && 5 <= buffer[0] % 16 && 4 * (buffer[0] % 16) <= |buffer|
    && buffer[6] < 128
    && forall i :: LENGTH <= i < 4 * (buffer[0] % 16) ==> buffer[i] == 0
  }

  /** Writing the header with checksum field `c` in front of what follows it reproduces the buffer. */
  predicate Reproduces(h: Ipv4Header, c: U16, buffer: seq<Byte>)
    requires CanSerialize(h) && 4 * h.hlen <= |buffer|
  {
    SerializeHeader(h.(cksum := c)) + buffer[4 * h.hlen..] == buffer
  }

  lemma ReproducesIff(buffer: seq<Byte>, h: Ipv4Header, c: U16)
    requires |buffer| >= LENGTH && h == HeaderFrom(TakeAll(Parser(buffer, NoError), Widths()).values)
    requires CanSerialize(h) && 4 * h.hlen <= |buffer|
    ensures Reproduces(h, c, buffer) <==> Plain(buffer) && c == h.cksum
  {
    hide TakeAll, Encode, Widths, Total, FlagsAndOffset, FirstByte, Fit, TcpCodec.Zeros;
    FieldsOf(buffer);
    TotalWidths();
    FieldsReproduceIff(TakeAll(Parser(buffer, NoError), Widths()).values, c);
    TcpCodec.PaddedIs(Encode(Widths(), Values(h.(cksum := c))), 4 * h.hlen, buffer);
  }

  lemma FieldsReproduceIff(v: seq<nat>, c: U16)
    requires |Widths()| == 10 && |v| == 10 && Fit(Widths(), v)
    ensures var h := HeaderFrom(v);
            Encode(Widths(), Values(h.(cksum := c))) == Encode(Widths(), v) <==> v[4] < 0x8000 && c == h.cksum
  {
    hide Encode, Widths;
    var h := HeaderFrom(v);
    var g := h.(cksum := c);
    ValuesBack(v);
    ValuesFit(g);
    EncodeInjective(Widths(), Values(g), v);
    assert Values(g) == v <==> Values(h) == v && c == h.cksum by {
      SameButChecksum(h, c);
      hide Values;
      assert v[7] == h.cksum;
      assert Values(h)[7 := c] == v <==> Values(h) == v && c == h.cksum;
    }
  }

  lemma SameButChecksum(h: Ipv4Header, c: nat)
    ensures |Values(h)| == 10 && Values(h)[7] == h.cksum && Values(h.(cksum := c)) == Values(h)[7 := c]
  {
    assert FrontValues(h.(cksum := c)) == FrontValues(h);
    hide FrontValues;
    assert |FrontValues(h)| == 7 by { SevenFront(h); }
  }

  lemma SevenFront(h: Ipv4Header)
    ensures |FrontValues(h)| == 7
  {
  }

  /** With the header's other bytes as they are, the checksum that serializing fills in is the one that was there
      exactly when that one was right and not 0xFFFF. */
  lemma RefillsChecksum(h: Ipv4Header, buffer: seq<Byte>)
    requires h.InRange() && CanSerialize(h) && 4 * h.hlen <= |buffer| && Reproduces(h, h.cksum, buffer)
    ensures HeaderChecksum(h) == h.cksum <==> ChecksumOf(0, buffer[..4 * h.hlen]) == 0 && h.cksum != 0xFFFF
  {
    hide Front, Back, ChecksumOf, RawSum, SerializeHeader;
    var c := h.cksum;
    HeaderSplits(h, c);
    HeaderSplits(h, 0);
    assert h.(cksum := c) == h;
    assert buffer[..4 * h.hlen] == SerializeHeader(h);
    SerializedChecksOut(h);
    if ChecksumOf(0, SerializeHeader(h)) == 0 {
      FrontNonzero(h);
      PatchIsUnique(0, Front(h), Back(h), c / 256, c % 256);
    }
  }

  lemma FrontNonzero(h: Ipv4Header)
    requires h.InRange() && CanSerialize(h)
    ensures RawSum(Front(h), false) > 0
  {
    hide RawSum, Digits, FlagsAndOffset;
    TotalWidths();
    TcpCodec.OneDigit(FirstByte(h));
    NonzeroCounts(Front(h), false, 0);
  }

  /** Serializing the parsed datagram succeeds and gives the buffer. */
  predicate ComesBack(p: DatagramParse, buffer: seq<Byte>) {
    Serializable(p.header, p.payload) && SerializeDatagram(p.header, p.payload) == buffer
  }

  /** A buffer as this program would write it: a plain header, options only where the length field is right so
      that the parser skips them, and a correct checksum other than 0xFFFF. */
  predicate Canonical(buffer: seq<Byte>)
    requires |buffer| >= LENGTH
  {
    && Plain(buffer) && (buffer[0] % 16 == 5 || Word(buffer[2], buffer[3]) == |buffer|)
    && ChecksumOf(0, buffer[..4 * (buffer[0] % 16)]) == 0 && Word(buffer[10], buffer[11]) != 0xFFFF
  }

  /** Which accepted datagrams come back byte for byte when what was parsed is serialized again. */
  lemma ReserializeIff(buffer: seq<Byte>)
    requires |buffer| >= LENGTH && ParseDatagram(buffer).result == NoError
    ensures ComesBack(ParseDatagram(buffer), buffer) <==> Canonical(buffer)
  {
    hide ChecksumOf, ParseHeader, Plain, ComesBack, TakeAll, Widths, HeaderFrom;
    HeaderLeaves(buffer);
    ParsedFields(buffer);
    var p := ParseDatagram(buffer);
    var h := p.header;
    if CanSerialize(h) && 4 * h.hlen <= |buffer| && (h.hlen == 5 || h.len == |buffer|) {
      BackIff(buffer, p);
    } else {
      NeitherWay(buffer, p);
    }
  }

  /** With the whole header eaten by the parser, fields and checksum decide. */
  lemma BackIff(buffer: seq<Byte>, p: DatagramParse)
    requires |buffer| >= LENGTH && p.header == HeaderFrom(TakeAll(Parser(buffer, NoError), Widths()).values)
    requires var h := p.header;
             && h.InRange() && CanSerialize(h) && 4 * h.hlen <= |buffer|
             && p.payload == buffer[4 * h.hlen..] && |p.payload| == PayloadLength(h)
    ensures ComesBack(p, buffer) <==>
            && Plain(buffer) && ChecksumOf(0, buffer[..4 * p.header.hlen]) == 0 && p.header.cksum != 0xFFFF
  {
    hide ChecksumOf, SerializeHeader, HeaderChecksum, Plain, TakeAll, Widths, HeaderFrom;
    var h := p.header;
    ReproducesIff(buffer, h, HeaderChecksum(h));
    ReproducesIff(buffer, h, h.cksum);
    if Reproduces(h, h.cksum, buffer) {
      RefillsChecksum(h, buffer);
    }
  }

  lemma ParsedFields(buffer: seq<Byte>)
    requires |buffer| >= LENGTH
    ensures var h := ParseHeader(Parser(buffer, NoError)).header;
            && h == HeaderFrom(TakeAll(Parser(buffer, NoError), Widths()).values)
            && h.InRange() && h.cksum == Word(buffer[10], buffer[11])
  {
    hide TakeAll, Encode, Widths, Fit, RemovePrefix, ChecksumOf;
    FieldsOf(buffer);
    ValuesBack(TakeAll(Parser(buffer, NoError), Widths()).values);
  }

  /** A header that cannot be written, or takes more room than the parser gave it. */
  lemma NeitherWay(buffer: seq<Byte>, p: DatagramParse)
    requires |buffer| >= LENGTH && ReadFrom(p.header, buffer) && HeaderEaten(p.header, |buffer|) <= |buffer|
    requires p.payload == buffer[HeaderEaten(p.header, |buffer|)..]
    requires var h := p.header; !(CanSerialize(h) && 4 * h.hlen <= |buffer| && (h.hlen == 5 || h.len == |buffer|))
    ensures !(Plain(buffer) && (buffer[0] % 16 == 5 || Word(buffer[2], buffer[3]) == |buffer|))
    ensures !ComesBack(p, buffer)
  {
    hide SerializeHeader, HeaderChecksum;
    if Serializable(p.header, p.payload) {
      HeaderSplits(p.header, HeaderChecksum(p.header));
    }
  }

  // ---- TCP inside IPv4 ----

  /** The pseudo-header sum in 32-bit arithmetic; for fields in range it leaves room for any segment. */
  function PseudoChecksum(h: Ipv4Header): U32 {
    PseudoSum(h) % 0x1_0000_0000
  }

  lemma PseudoFits(h: Ipv4Header)
    requires h.InRange()
    ensures PseudoChecksum(h) <= MAX_INITIAL
  {
  }

  /** The datagram's length field counts both headers and the data. */
  predicate NestedSized(ip: Ipv4Header, tcp: TcpCodec.TcpHeader, data: seq<Byte>) {
    && ip.InRange() && CanSerialize(ip) && tcp.InRange() && tcp.doff >= 5
    && ip.len == 4 * ip.hlen + 4 * tcp.doff + |data|
  }

  function SegmentBytes(ip: Ipv4Header, tcp: TcpCodec.TcpHeader, data: seq<Byte>): (bytes: seq<Byte>)
    requires NestedSized(ip, tcp, data)
    ensures Sized(ip, bytes) && Serializable(ip, bytes)
  {
    hide TcpCodec.SerializeSegment;
    PseudoFits(ip);
    TcpCodec.SerializedChecksOut(tcp, data, PseudoChecksum(ip));
    TcpCodec.SerializeSegment(tcp, data, PseudoChecksum(ip))
  }

  function SerializeNested(ip: Ipv4Header, tcp: TcpCodec.TcpHeader, data: seq<Byte>): seq<Byte>
    requires NestedSized(ip, tcp, data)
  {
    SerializeDatagram(ip, SegmentBytes(ip, tcp, data))
  }

  datatype NestedParse = Failed | Nested(ip: Ipv4Header, tcp: TcpCodec.TcpHeader, data: seq<Byte>)

  function ParseNested(buffer: seq<Byte>): NestedParse {
    var d := ParseDatagram(buffer);
    if d.result != NoError then Failed
    else
      var s := TcpCodec.ParseSegment(d.payload, PseudoChecksum(d.header));
      if s.Parsed? && s.result == NoError then Nested(d.header, s.header, s.payload) else Failed
  }

  /** A TCP segment inside a datagram survives the trip through both codecs. */
  lemma NestedRoundTrip(ip: Ipv4Header, tcp: TcpCodec.TcpHeader, data: seq<Byte>)
    requires NestedSized(ip, tcp, data)
    ensures ParseNested(SerializeNested(ip, tcp, data)) ==
            Nested(ip.(cksum := HeaderChecksum(ip)),
                   tcp.(cksum := TcpCodec.SegmentChecksum(tcp, data, PseudoChecksum(ip))), data)
  {
    hide TcpCodec.SerializeSegment, TcpCodec.ParseSegment, TcpCodec.SegmentChecksum;
    hide SerializeDatagram, ParseDatagram, HeaderChecksum, PseudoChecksum, ParseHeader;
    PseudoFits(ip);
    NestedLength(ip, tcp, data);
    DatagramRoundTrip(ip, SegmentBytes(ip, tcp, data));
    TcpCodec.SegmentRoundTrip(tcp, data, PseudoChecksum(ip));
    PseudoIgnoresChecksum(ip, HeaderChecksum(ip));
  }

  lemma NestedLength(ip: Ipv4Header, tcp: TcpCodec.TcpHeader, data: seq<Byte>)
    requires NestedSized(ip, tcp, data)
    ensures 4 * tcp.doff + |data| <= 0xFFFF
  {
  }

  lemma PseudoIgnoresChecksum(h: Ipv4Header, c: nat)
    ensures PseudoChecksum(h.(cksum := c)) == PseudoChecksum(h)
  {
  }

  // ---- The pseudo-header ----

  /** The twelve bytes that section 3.1 of RFC 793 puts before a segment: both addresses, zero, protocol, and the
      length of the segment. */
  function PseudoBytes(h: Ipv4Header): (bytes: seq<Byte>)
    requires h.InRange()
    ensures |bytes| == 12
  {
    Digits(4, h.src) + Digits(4, h.dst) + [0, h.proto] + Digits(2, PayloadLength(h))
  }

  lemma QuadSum(x: nat)
    requires x < 0x1_0000_0000
    ensures RawSum(Digits(4, x), false) == x / 0x1_0000 + x % 0x1_0000
  {
    var hi, lo := x / 0x1_0000, x % 0x1_0000;
    assert Digits(4, x) == Digits(2, hi) + Digits(2, lo) by { FourDigits(x); }
    TcpCodec.TwoDigits(hi);
    TcpCodec.TwoDigits(lo);
    hide RawSum, Digits;
    RawConcat(Digits(2, hi), Digits(2, lo), false);
    PairSum(hi / 256, hi % 256);
    PairSum(lo / 256, lo % 256);
  }

  lemma PairSum(hi: Byte, lo: Byte)
    ensures RawSum([hi, lo], false) == Word(hi, lo)
  {
    WordCounts([], hi, lo, []);
    assert [] + [hi, lo] + [] == [hi, lo];
  }

  lemma FourDigits(x: nat)
    requires x < 0x1_0000_0000
    ensures Digits(4, x) == Digits(2, x / 0x1_0000) + Digits(2, x % 0x1_0000)
  {
    assert Digits(4, x) == Digits(3, x / 256) + [x % 256];
    assert Digits(3, x / 256) == Digits(2, x / 256 / 256) + [x / 256 % 256];
    assert x / 256 / 256 == x / 0x1_0000;
    TcpCodec.TwoDigits(x % 0x1_0000);
    assert x % 0x1_0000 / 256 == x / 256 % 256 && x % 0x1_0000 % 256 == x % 256;
  }

  /** What the connection starts its checksum from is the sum of those bytes. */
  lemma PseudoIsSum(h: Ipv4Header)
    requires h.InRange()
    ensures PseudoChecksum(h) == RawSum(PseudoBytes(h), false)
  {
    hide RawSum, Digits;
    var a, b, c, d := Digits(4, h.src), Digits(4, h.dst), [0, h.proto], Digits(2, PayloadLength(h));
    QuadSum(h.src);
    QuadSum(h.dst);
    PairSum(0, h.proto);
    TcpCodec.TwoDigits(PayloadLength(h));
    PairSum(PayloadLength(h) / 256, PayloadLength(h) % 256);
    RawConcat(a + b + c, d, false);
    RawConcat(a + b, c, false);
    RawConcat(a, b, false);
  }

  /** So the checksum of a segment is the one the standard asks for, over pseudo-header and segment. */
  lemma ChecksumCoversPseudo(h: Ipv4Header, segment: seq<Byte>)
    requires h.InRange()
    ensures ChecksumOf(PseudoChecksum(h), segment) == ChecksumOf(0, PseudoBytes(h) + segment)
  {
    hide RawSum, PseudoBytes;
    var bytes := PseudoBytes(h);
    PseudoIsSum(h);
    SumFits(0, bytes);
    AddExact(Cksum(0, false), bytes);
    AddConcat(Cksum(0, false), bytes, segment);
  }

  /** Bytes of the datagram that the pseudo-header repeats, and where: protocol and the two addresses. */
  function PseudoIndex(i: nat): nat
    requires i == 9 || 12 <= i < 20
  {
    if i == 9 then 9 else i - 12
  }

  /** The pseudo-header of a parsed header, from the bytes of the buffer. */
  lemma PseudoFromBytes(h: Ipv4Header, b: seq<Byte>)
    requires |b| >= LENGTH && h.InRange() && HeaderOf(h, b)
    ensures PseudoBytes(h) == b[12..20] + [0, b[9]] + Digits(2, PayloadLength(h))
  {
    hide Digits, Number;
    LargeNumber(b[12], b[13], b[14], b[15]);
    LargeNumber(b[16], b[17], b[18], b[19]);
    DigitsOfNumber([b[12], b[13], b[14], b[15]]);
    DigitsOfNumber([b[16], b[17], b[18], b[19]]);
    assert b[12..20] == [b[12], b[13], b[14], b[15]] + [b[16], b[17], b[18], b[19]];
  }

  /** Changing such a byte changes the pseudo-header in that place and nothing else that matters. */
  lemma PseudoChanged(h: Ipv4Header, h': Ipv4Header, b: seq<Byte>, i: nat, x: Byte)
    requires |b| >= LENGTH && (i == 9 || 12 <= i < 20) && h.InRange() && h'.InRange()
    requires HeaderOf(h, b) && HeaderOf(h', b[i := x])
    ensures PseudoBytes(h') == PseudoBytes(h)[PseudoIndex(i) := x] && PseudoBytes(h)[PseudoIndex(i)] == b[i]
  {
    hide Digits, PseudoBytes, HeaderOf, PayloadLength;
    PseudoFromBytes(h, b);
    PseudoFromBytes(h', b[i := x]);
    SameLengths(h, h', b, i, x);
    Spliced(b, i, x, Digits(2, PayloadLength(h)));
  }

  lemma SameLengths(h: Ipv4Header, h': Ipv4Header, b: seq<Byte>, i: nat, x: Byte)
    requires |b| >= LENGTH && (i == 9 || 12 <= i < 20) && HeaderOf(h, b) && HeaderOf(h', b[i := x])
    ensures PayloadLength(h') == PayloadLength(h)
  {
    hide Word, Quad;
  }

  lemma Spliced(b: seq<Byte>, i: nat, x: Byte, tail: seq<Byte>)
    requires |b| >= LENGTH && (i == 9 || 12 <= i < 20)
    ensures var b', p := b[i := x], b[12..20] + [0, b[9]] + tail;
            b'[12..20] + [0, b'[9]] + tail == p[PseudoIndex(i) := x] && p[PseudoIndex(i)] == b[i]
  {
    if i == 9 {
      assert b[i := x][12..20] == b[12..20];
    } else {
      assert b[i := x][12..20] == b[12..20][i - 12 := x];
    }
  }

  lemma PseudoIndexBound(i: nat)
    requires i == 9 || 12 <= i < 20
    ensures PseudoIndex(i) < 12
  {
  }

  lemma UpdateFront(p: seq<Byte>, q: seq<Byte>, k: nat, x: Byte)
    requires k < |p|
    ensures p[k := x] + q == (p + q)[k := x] && (p + q)[k] == p[k]
  {
  }

  /** A segment that checks out under one header does not under one whose address or protocol differs in a byte. */
  lemma ForeignSegmentRejected(h: Ipv4Header, h': Ipv4Header, b: seq<Byte>, i: nat, x: Byte, segment: seq<Byte>)
    requires |b| >= LENGTH && (i == 9 || 12 <= i < 20) && x != b[i] && h.InRange() && h'.InRange()
    requires HeaderOf(h, b) && HeaderOf(h', b[i := x]) && |segment| <= 0xFFFF - 12
    requires TcpCodec.ParseSegment(segment, PseudoChecksum(h)).result != BadChecksum
    ensures TcpCodec.ParseSegment(segment, PseudoChecksum(h')) == TcpCodec.Rejected(BadChecksum)
  {
    hide ChecksumOf, PseudoBytes, PseudoChecksum, HeaderOf, PseudoIndex, TcpCodec.ParseHeader;
    TcpCodec.NotRejected(segment, PseudoChecksum(h));
    ChecksumCoversPseudo(h, segment);
    ChecksumCoversPseudo(h', segment);
    PseudoChanged(h, h', b, i, x);
    PseudoIndexBound(i);
    UpdateFront(PseudoBytes(h), segment, PseudoIndex(i), x);
    OneByteErrorDetected(0, PseudoBytes(h) + segment, PseudoIndex(i), x);
  }

  /** A nested segment whose datagram has one byte of an address, or the protocol, changed on the way is not taken. */
  lemma MisdirectedRejected(ip: Ipv4Header, tcp: TcpCodec.TcpHeader, data: seq<Byte>, i: nat, x: Byte)
    requires NestedSized(ip, tcp, data) && (i == 9 || 12 <= i < 20)
    requires i < |SerializeNested(ip, tcp, data)| && x != SerializeNested(ip, tcp, data)[i]
    ensures ParseNested(SerializeNested(ip, tcp, data)[i := x]) == Failed
  {
    hide SerializeNested, ParseDatagram, TcpCodec.ParseSegment, PseudoChecksum, HeaderOf, HeaderChecksum;
    hide TcpCodec.SegmentChecksum, SegmentBytes;
    var b := SerializeNested(ip, tcp, data);
    var b', seg := b[i := x], SegmentBytes(ip, tcp, data);
    NestedParses(ip, tcp, data);
    DatagramChanged(b, i, x);
    var d, d' := ParseDatagram(b), ParseDatagram(b');
    ForeignSegmentRejected(d.header, d'.header, b, i, x, d.payload);
  }

  /** What the two parsers make of the unchanged datagram. */
  lemma NestedParses(ip: Ipv4Header, tcp: TcpCodec.TcpHeader, data: seq<Byte>)
    requires NestedSized(ip, tcp, data)
    ensures var d := ParseDatagram(SerializeNested(ip, tcp, data));
            && d.result == NoError && |SerializeNested(ip, tcp, data)| >= LENGTH && |d.payload| <= 0xFFFF - LENGTH
            && TcpCodec.ParseSegment(d.payload, PseudoChecksum(d.header)).result == NoError
  {
    hide TcpCodec.SerializeSegment, TcpCodec.ParseSegment, TcpCodec.SegmentChecksum;
    hide SerializeDatagram, ParseDatagram, HeaderChecksum, PseudoChecksum, ParseHeader;
    PseudoFits(ip);
    NestedLength(ip, tcp, data);
    DatagramRoundTrip(ip, SegmentBytes(ip, tcp, data));
    TcpCodec.SegmentRoundTrip(tcp, data, PseudoChecksum(ip));
    PseudoIgnoresChecksum(ip, HeaderChecksum(ip));
    DatagramAcceptedIff(SerializeNested(ip, tcp, data));
  }

  /** A change in those bytes leaves the payload alone. */
  lemma DatagramChanged(b: seq<Byte>, i: nat, x: Byte)
    requires |b| >= LENGTH && (i == 9 || 12 <= i < 20)
    ensures var d, d' := ParseDatagram(b), ParseDatagram(b[i := x]);
            && d'.payload == d.payload && d.header.InRange() && d'.header.InRange()
            && HeaderOf(d.header, b) && HeaderOf(d'.header, b[i := x])
  {
    hide ParseHeader, TakeAll, Widths, HeaderFrom, HeaderOf, Word;
    HeaderBytes(b);
    HeaderBytes(b[i := x]);
    ParsedFields(b);
    ParsedFields(b[i := x]);
    HeaderLeaves(b);
    HeaderLeaves(b[i := x]);
    EatenAlike(ParseHeader(Parser(b, NoError)).header, ParseHeader(Parser(b[i := x], NoError)).header, b, i, x);
  }

  lemma EatenAlike(h: Ipv4Header, h': Ipv4Header, b: seq<Byte>, i: nat, x: Byte)
    requires |b| >= LENGTH && (i == 9 || 12 <= i < 20) && ReadFrom(h, b) && ReadFrom(h', b[i := x])
    ensures HeaderEaten(h', |b|) == HeaderEaten(h, |b|) >= LENGTH
    ensures forall k :: LENGTH <= k <= |b| ==> b[i := x][k..] == b[k..]
  {
  }

  // ---- As the program does it ----

  method WriteHeader(h: Ipv4Header) returns (ok: bool, bytes: seq<Byte>)
    ensures ok <==> CanSerialize(h)
    ensures ok ==> bytes == SerializeHeader(h)
  {
    if h.ver != 4 || 4 * h.hlen < LENGTH {
      return false, [];
    }
    hide Encode, Values;
    TotalWidths();
    bytes := UnparseInts([], Widths(), Values(h));
    bytes := TcpCodec.Resize(bytes, 4 * h.hlen);
    ok := true;
  }

  method ReadHeader(p: NetParser) returns (h: Ipv4Header, result: ParseResult)
    modifies p
    ensures HeaderParse(h, p.Model(), result) == ParseHeader(old(p.Model()))
  {
    hide TakeAll, AddAll;
    var original := p.buffer;
    if |original| < LENGTH {
      return DEFAULT_HEADER, PacketTooShort;
    }
    var v := p.ParseInts(Widths());
    h := HeaderFrom(v);
    if |original| < 4 * h.hlen {
      return h, PacketTooShort;
    }
    if h.ver != 4 {
      return h, WrongIPVersion;
    }
    if h.hlen < 5 {
      return h, HeaderTooShort;
    }
    if |original| != h.len {
      return h, TruncatedPacket;
    }
    p.Skip(h.hlen * 4 - LENGTH);
    if p.err != NoError {
      return h, p.err;
    }
    var check := new InternetChecksum(0);
    check.Add(original[..4 * h.hlen]);
    var c := check.Value();
    result := if c != 0 then BadChecksum else NoError;
  }

  method WriteDatagram(h: Ipv4Header, payload: seq<Byte>) returns (ok: bool, bytes: seq<Byte>)
    ensures ok <==> Serializable(h, payload)
    ensures ok ==> bytes == SerializeDatagram(h, payload)
  {
    hide SerializeHeader, AddAll;
    if |payload| != PayloadLength(h) {
      return false, [];
    }
    var zero;
    ok, zero := WriteHeader(h.(cksum := 0));
    if !ok {
      return false, [];
    }
    var check := new InternetChecksum(0);
    check.Add(zero);
    var c := check.Value();
    ok, bytes := WriteHeader(h.(cksum := c));
    bytes := bytes + payload;
  }

  method ReadDatagram(buffer: seq<Byte>) returns (r: DatagramParse)
    ensures r == ParseDatagram(buffer)
  {
    hide ParseHeader;
    var p := new NetParser(buffer);
    var h, _ := ReadHeader(p);
    r := DatagramParse(h, p.buffer, if |p.buffer| != PayloadLength(h) then PacketTooShort else p.err);
  }
}
