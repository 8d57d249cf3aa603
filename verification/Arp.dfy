/** Address resolution at a network interface (libsponge/network_interface.cc; RFC 826) as step functions.
    Frames carry already decoded payloads; times are unsigned 32-bit milliseconds. */
module Arp {
  import opened Wrapping
  import opened ByteStreams

  type EthernetAddress = n: nat | n < 0x1_0000_0000_0000

  const BROADCAST: EthernetAddress := 0xFFFF_FFFF_FFFF
  const TYPE_IPV4: nat := 0x800
  const TYPE_ARP: nat := 0x806
  const MAPPING_TTL: nat := 30000
  const REQUEST_GAP: nat := 5000

  datatype Option<T> = None | Some(value: T)

  datatype Opcode = Request | Reply

  datatype ArpMessage = ArpMessage(opcode: Opcode, senderEth: EthernetAddress, senderIp: U32,
                                   targetEth: EthernetAddress, targetIp: U32)

  /** What a payload decodes to; `Junk` is neither a datagram nor a supported ARP message. */
  datatype Payload = Ip(datagram: seq<Byte>) | ArpOf(msg: ArpMessage) | Junk

  datatype Frame = Frame(dst: EthernetAddress, src: EthernetAddress, etype: nat, payload: Payload)

  /** A frame put out, with the reason: a datagram for a next hop, a request for one, or a reply. */
  datatype Emit = Data(hop: U32, frame: Frame) | Ask(hop: U32, frame: Frame) | Answer(frame: Frame)

  datatype Iface = Iface(eth: EthernetAddress, ip: U32,
                         ipMap: map<U32, EthernetAddress>, mapTime: map<U32, U32>,
                         unsent: map<U32, seq<Frame>>, latestArp: map<U32, U32>, now: U32)

  datatype Outcome = Outcome(iface: Iface, emitted: seq<Emit>, delivered: Option<seq<Byte>>)

  function InitIface(eth: EthernetAddress, ip: U32): Iface {
    Iface(eth, ip, map[], map[], map[], map[], 0)
  }

  /** Unsigned 32-bit difference. */
  function Since(now: U32, earlier: U32): U32 {
    if now >= earlier then now - earlier else now + 0x1_0000_0000 - earlier
  }

  function Pending(i: Iface, hop: U32): seq<Frame> {
    if hop in i.unsent then i.unsent[hop] else []
  }

  function DatagramFrame(i: Iface, datagram: seq<Byte>): Frame {
    Frame(0, i.eth, TYPE_IPV4, Ip(datagram))
  }

  function RequestFrame(i: Iface, hop: U32): Frame {
    Frame(BROADCAST, i.eth, TYPE_ARP, ArpOf(ArpMessage(Request, i.eth, i.ip, 0, hop)))
  }

  function ReplyFrame(i: Iface, msg: ArpMessage): Frame {
    Frame(msg.senderEth, i.eth, TYPE_ARP, ArpOf(ArpMessage(Reply, i.eth, i.ip, msg.senderEth, msg.senderIp)))
  }

  /** A request for this hop went out less than five seconds ago. */
  predicate Suppressed(i: Iface, hop: U32) {
    hop in i.latestArp && Since(i.now, i.latestArp[hop]) < REQUEST_GAP
  }

  function SendDatagram(i: Iface, datagram: seq<Byte>, hop: U32): Outcome {
    var frame := DatagramFrame(i, datagram);
    if hop in i.ipMap then Outcome(i, [Data(hop, frame.(dst := i.ipMap[hop]))], None)
    else
      var i1 := i.(unsent := i.unsent[hop := Pending(i, hop) + [frame]]);
      if Suppressed(i, hop) then Outcome(i1, [], None)
      else Outcome(i1.(latestArp := i.latestArp[hop := i.now]), [Ask(hop, RequestFrame(i, hop))], None)
  }

  /** A queue addressed and emitted in order. */
  function Flush(frames: seq<Frame>, dst: EthernetAddress, hop: U32): (r: seq<Emit>)
    ensures |r| == |frames|
    ensures forall k :: 0 <= k < |r| ==> r[k] == Data(hop, frames[k].(dst := dst))
  {
    if frames == [] then []
    else Flush(frames[..|frames| - 1], dst, hop) + [Data(hop, frames[|frames| - 1].(dst := dst))]
  }

  /** Any understood ARP message teaches its sender's address. */
  function Learn(i: Iface, msg: ArpMessage): Iface {
    i.(ipMap := i.ipMap[msg.senderIp := msg.senderEth], mapTime := i.mapTime[msg.senderIp := i.now])
  }

  predicate AsksForUs(i: Iface, msg: ArpMessage) {
    msg.opcode == Request && msg.targetIp == i.ip
  }

  /** A request for our address is answered; anything else releases what was waiting for its sender. */
  function HandleArp(i: Iface, msg: ArpMessage): Outcome {
    var i1 := Learn(i, msg);
    if AsksForUs(i, msg) then Outcome(i1, [Answer(ReplyFrame(i, msg))], None)
    else if msg.senderIp in i.unsent then
      Outcome(i1.(unsent := i.unsent - {msg.senderIp}, latestArp := i.latestArp - {msg.senderIp}),
              Flush(i.unsent[msg.senderIp], msg.senderEth, msg.senderIp), None)
    else Outcome(i1, [], None)
  }

  predicate ForUs(i: Iface, frame: Frame) {
    frame.dst == i.eth || frame.dst == BROADCAST
  }

  function RecvFrame(i: Iface, frame: Frame): Outcome {
    if !ForUs(i, frame) then Outcome(i, [], None)
    else if frame.etype == TYPE_IPV4 then
      Outcome(i, [], if frame.payload.Ip? then Some(frame.payload.datagram) else None)
    else if frame.payload.ArpOf? then HandleArp(i, frame.payload.msg)
    else Outcome(i, [], None)
  }

  predicate Expired(i: Iface, hop: U32, now: U32)
    requires hop in i.mapTime
  {
    Since(now, i.mapTime[hop]) >= MAPPING_TTL
  }

  /** Time passes; mappings older than thirty seconds are forgotten in both tables. */
  function Elapse(i: Iface, ms: nat): Iface {
    var now := (i.now + ms) % 0x1_0000_0000;
    var gone := set hop | hop in i.mapTime && Expired(i, hop, now);
    i.(now := now, mapTime := i.mapTime - gone, ipMap := i.ipMap - gone)
  }
}
