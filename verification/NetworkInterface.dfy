/** The interface as an object (libsponge/network_interface.cc): tables, queues and clock updated in place. */
module NetworkInterfaces {
  import opened Wrapping
  import opened ByteStreams
  import opened Arp

  function Frames(es: seq<Emit>): (fs: seq<Frame>)
    ensures |fs| == |es|
    ensures forall k :: 0 <= k < |es| ==> fs[k] == es[k].frame
  {
    if es == [] then [] else Frames(es[..|es| - 1]) + [es[|es| - 1].frame]
  }

  class NetworkInterface {
    const eth: EthernetAddress
    const ip: U32
    var framesOut: seq<Frame>
    var ipMap: map<U32, EthernetAddress>
    var mapTime: map<U32, U32>
    var unsent: map<U32, seq<Frame>>
    var latestArp: map<U32, U32>
    var now: U32

    ghost function Model(): Iface
      reads this
    {
      Iface(eth, ip, ipMap, mapTime, unsent, latestArp, now)
    }

    constructor (eth: EthernetAddress, ip: U32)
      ensures Model() == InitIface(eth, ip) && framesOut == []
    {
      this.eth, this.ip := eth, ip;
      framesOut, ipMap, mapTime, unsent, latestArp, now := [], map[], map[], map[], map[], 0;
    }

    method Send(datagram: seq<Byte>, hop: U32)
      modifies this
      ensures var o := SendDatagram(old(Model()), datagram, hop);
              Model() == o.iface && framesOut == old(framesOut) + Frames(o.emitted)
    {
      var frame := Frame(0, eth, TYPE_IPV4, Ip(datagram));
      if hop in ipMap {
        framesOut := framesOut + [frame.(dst := ipMap[hop])];
        assert Frames([Data(hop, frame.(dst := ipMap[hop]))]) == [frame.(dst := ipMap[hop])];
      } else {
        var queue := if hop in unsent then unsent[hop] else [];
        unsent := unsent[hop := queue + [frame]];
        if hop in latestArp && Since(now, latestArp[hop]) < REQUEST_GAP {
          assert Frames([]) == [];
          return;
        }
        var request := Frame(BROADCAST, eth, TYPE_ARP, ArpOf(ArpMessage(Request, eth, ip, 0, hop)));
        framesOut := framesOut + [request];
        latestArp := latestArp[hop := now];
        assert Frames([Ask(hop, request)]) == [request];
      }
    }

    method Receive(frame: Frame) returns (delivered: Option<seq<Byte>>)
      modifies this
      ensures var o := RecvFrame(old(Model()), frame);
              Model() == o.iface && framesOut == old(framesOut) + Frames(o.emitted) && delivered == o.delivered
    {
      delivered := None;
      assert Frames([]) == [];
      if frame.dst != eth && frame.dst != BROADCAST {
        return;
      }
      if frame.etype == TYPE_IPV4 {
        if frame.payload.Ip? {
          delivered := Some(frame.payload.datagram);
        }
        return;
      }
      if frame.payload.ArpOf? {
        ReceiveArp(frame.payload.msg);
      }
    }

    method ReceiveArp(msg: ArpMessage)
      modifies this
      ensures var o := HandleArp(old(Model()), msg);
              Model() == o.iface && framesOut == old(framesOut) + Frames(o.emitted)
    {
      ipMap := ipMap[msg.senderIp := msg.senderEth];
      mapTime := mapTime[msg.senderIp := now];
      assert Frames([]) == [];
      if msg.opcode == Request && msg.targetIp == ip {
        var answer := ArpMessage(Reply, eth, ip, msg.senderEth, msg.senderIp);
        var reply := Frame(msg.senderEth, eth, TYPE_ARP, ArpOf(answer));
        framesOut := framesOut + [reply];
        assert Frames([Answer(reply)]) == [reply];
      } else if msg.senderIp in unsent {
        FlushQueue(unsent[msg.senderIp], msg.senderEth, msg.senderIp);
        unsent := unsent - {msg.senderIp};
        latestArp := latestArp - {msg.senderIp};
      }
    }

    /** The flush loop: every waiting frame gets its destination and goes out, oldest first. */
    method FlushQueue(queue: seq<Frame>, dst: EthernetAddress, ghost hop: U32)
      modifies this`framesOut
      ensures framesOut == old(framesOut) + Frames(Flush(queue, dst, hop))
    {
      ghost var done := [];
      for k := 0 to |queue|
        invariant |done| == k && framesOut == old(framesOut) + done
        invariant forall j :: 0 <= j < k ==> done[j] == queue[j].(dst := dst)
      {
        framesOut := framesOut + [queue[k].(dst := dst)];
        done := done + [queue[k].(dst := dst)];
      }
      assert done == Frames(Flush(queue, dst, hop));
    }

    /** The expiry loop visits the mappings in no particular order; the result is the filtered tables. */
    method Tick(ms: nat)
      modifies this
      ensures Model() == Elapse(old(Model()), ms) && framesOut == old(framesOut)
    {
      ghost var i := Model();
      now := (now + ms) % 0x1_0000_0000;
      var todo := mapTime.Keys;
      ghost var gone: set<U32> := {};
      while todo != {}
        invariant todo <= i.mapTime.Keys && gone !! todo
        invariant forall h :: h in gone <==> h in i.mapTime && h !in todo && Expired(i, h, now)
        invariant mapTime == i.mapTime - gone && ipMap == i.ipMap - gone
        invariant now == (i.now + ms) % 0x1_0000_0000 && unsent == i.unsent && latestArp == i.latestArp
        invariant framesOut == old(framesOut)
        decreases todo
      {
        var h :| h in todo;
        todo := todo - {h};
        if Since(now, mapTime[h]) >= MAPPING_TTL {
          mapTime := mapTime - {h};
          ipMap := ipMap - {h};
          gone := gone + {h};
        }
      }
      assert gone == set hop | hop in i.mapTime && Expired(i, hop, now);
    }
  }
}
