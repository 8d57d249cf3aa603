/** What becomes of the datagrams handed to a network interface: none is lost or doubled, each goes to the
    address its next hop last announced, and exactly when their order can change. */
module ArpDelivery {
  import opened Wrapping
  import opened ByteStreams
  import opened Arp
  import opened ArpRuns

  type Datagram = seq<Byte>

  /** Datagrams handed over for `hop`, in order. */
  function HandedTo(es: seq<Event>, hop: U32): seq<Datagram> {
    if es == [] then []
    else
      var e := es[|es| - 1];
      HandedTo(es[..|es| - 1], hop) + if e.Send? && e.hop == hop then [e.datagram] else []
  }

  function Carried(f: Frame): Datagram {
    if f.payload.Ip? then f.payload.datagram else []
  }

  function CarriedAll(fs: seq<Frame>): (r: seq<Datagram>)
    ensures |r| == |fs|
  {
    if fs == [] then [] else CarriedAll(fs[..|fs| - 1]) + [Carried(fs[|fs| - 1])]
  }

  function One(e: Emit, hop: U32): seq<Datagram> {
    if e.Data? && e.hop == hop then [Carried(e.frame)] else []
  }

  /** Datagrams emitted for `hop`, in order. */
  function EmittedTo(log: seq<Stamped>, hop: U32): seq<Datagram> {
    if log == [] then [] else EmittedTo(log[..|log| - 1], hop) + One(log[|log| - 1].emit, hop)
  }

  function EmittedIn(es: seq<Emit>, hop: U32): seq<Datagram> {
    if es == [] then [] else EmittedIn(es[..|es| - 1], hop) + One(es[|es| - 1], hop)
  }

  function WaitingFor(i: Iface, hop: U32): seq<Datagram> {
    CarriedAll(Pending(i, hop))
  }

  // ---- Bookkeeping lemmas ----

  lemma EmittedSnoc(log: seq<Stamped>, x: Stamped, hop: U32)
    ensures EmittedTo(log + [x], hop) == EmittedTo(log, hop) + One(x.emit, hop)
  {
    assert (log + [x])[..|log|] == log;
  }

  lemma {:induction false} EmittedAppend(log: seq<Stamped>, more: seq<Emit>, time: nat, hop: U32)
    ensures EmittedTo(log + StampAt(more, time), hop) == EmittedTo(log, hop) + EmittedIn(more, hop)
  {
    hide EmittedTo, One;
    if more == [] {
      assert log + [] == log;
    } else {
      var front, last := more[..|more| - 1], more[|more| - 1];
      EmittedAppend(log, front, time, hop);
      EmittedSnoc(log + StampAt(front, time), Stamped(last, time), hop);
      assert log + StampAt(more, time) == log + StampAt(front, time) + [Stamped(last, time)];
    }
  }

  lemma {:induction false} FlushCarries(fs: seq<Frame>, dst: EthernetAddress, to: U32, hop: U32)
    ensures EmittedIn(Flush(fs, dst, to), hop) == if hop == to then CarriedAll(fs) else []
  {
    if fs == [] {
    } else {
      var front := fs[..|fs| - 1];
      FlushCarries(front, dst, to, hop);
      var all := Flush(fs, dst, to);
      assert all[..|all| - 1] == Flush(front, dst, to);
    }
  }

  lemma CarriedSnoc(fs: seq<Frame>, f: Frame)
    ensures CarriedAll(fs + [f]) == CarriedAll(fs) + [Carried(f)]
  {
    assert (fs + [f])[..|fs|] == fs;
  }

  lemma SingleEmit(e: Emit, hop: U32)
    ensures EmittedIn([e], hop) == One(e, hop)
  {
    assert [e][..0] == [];
  }

  /** What sending does to the two queues of a hop: the datagram joins one of them. */
  lemma SendMoves(w: World, datagram: Datagram, to: U32, hop: U32)
    ensures var w' := StepSend(w, datagram, to);
            if hop != to then
              EmittedTo(w'.log, hop) == EmittedTo(w.log, hop) && WaitingFor(w'.iface, hop) == WaitingFor(w.iface, hop)
            else if hop in w.iface.ipMap then
              && EmittedTo(w'.log, hop) == EmittedTo(w.log, hop) + [datagram]
              && WaitingFor(w'.iface, hop) == WaitingFor(w.iface, hop)
            else
              && EmittedTo(w'.log, hop) == EmittedTo(w.log, hop)
              && WaitingFor(w'.iface, hop) == WaitingFor(w.iface, hop) + [datagram]
  {
    var o := SendDatagram(w.iface, datagram, to);
    EmittedAppend(w.log, o.emitted, w.clock, hop);
    CarriedSnoc(Pending(w.iface, to), DatagramFrame(w.iface, datagram));
    if o.emitted != [] {
      SingleEmit(o.emitted[0], hop);
    }
  }

  /** What an ARP message does: the queue of its sender may move, whole and in order, from waiting to emitted. */
  lemma ArpMoves(w: World, msg: ArpMessage, hop: U32)
    ensures var w' := StepArp(w, msg);
            if hop == msg.senderIp && !AsksForUs(w.iface, msg) then
              && EmittedTo(w'.log, hop) == EmittedTo(w.log, hop) + WaitingFor(w.iface, hop)
              && WaitingFor(w'.iface, hop) == []
            else
              EmittedTo(w'.log, hop) == EmittedTo(w.log, hop) && WaitingFor(w'.iface, hop) == WaitingFor(w.iface, hop)
  {
    var o := HandleArp(w.iface, msg);
    EmittedAppend(w.log, o.emitted, w.clock, hop);
    ArpEmits(w.iface, msg, hop);
    hide EmittedTo, EmittedIn, HandleArp, StampAt;
  }

  lemma ArpEmits(i: Iface, msg: ArpMessage, hop: U32)
    ensures var o := HandleArp(i, msg);
            if hop == msg.senderIp && !AsksForUs(i, msg) then
              EmittedIn(o.emitted, hop) == WaitingFor(i, hop) && WaitingFor(o.iface, hop) == []
            else
              EmittedIn(o.emitted, hop) == [] && WaitingFor(o.iface, hop) == WaitingFor(i, hop)
  {
    if AsksForUs(i, msg) {
      SingleEmit(Answer(ReplyFrame(i, msg)), hop);
      hide CarriedAll, EmittedIn;
    } else if msg.senderIp in i.unsent {
      FlushCarries(i.unsent[msg.senderIp], msg.senderEth, msg.senderIp, hop);
      hide CarriedAll, EmittedIn, Flush;
      NoneCarried();
      assert hop != msg.senderIp ==> Pending(HandleArp(i, msg).iface, hop) == Pending(i, hop);
    }
  }

  lemma NoneCarried()
    ensures CarriedAll([]) == []
  {
  }

  // ---- Conservation ----

  ghost predicate Conserved(w: World, es: seq<Event>, hop: U32) {
    multiset(HandedTo(es, hop)) == multiset(EmittedTo(w.log, hop)) + multiset(WaitingFor(w.iface, hop))
  }

  lemma HandedSnoc(es: seq<Event>, e: Event, hop: U32)
    ensures HandedTo(es + [e], hop) == HandedTo(es, hop) + if e.Send? && e.hop == hop then [e.datagram] else []
  {
    assert (es + [e])[..|es|] == es;
  }

  lemma StepConserves(w: World, es: seq<Event>, e: Event, hop: U32)
    requires Conserved(w, es, hop)
    ensures Conserved(Step(w, e), es + [e], hop)
  {
    HandedSnoc(es, e, hop);
    hide HandedTo, EmittedTo, WaitingFor;
    match e
    case Send(datagram, to) =>
      SendMoves(w, datagram, to, hop);
      hide StepSend;
    case Recv(frame) =>
      if Heard(w.iface, frame).Some? {
        ArpMoves(w, Heard(w.iface, frame).value, hop);
        hide StepArp;
      }
    case Time(ms) => TimeMoves(w, ms, hop);
  }

  lemma TimeMoves(w: World, ms: nat, hop: U32)
    ensures WaitingFor(StepTime(w, ms).iface, hop) == WaitingFor(w.iface, hop)
  {
  }

  /** In every run and for every next hop, each datagram handed over is exactly once either emitted or still
      waiting: the two together are the handed ones, counted with multiplicity. */
  lemma {:induction false} NothingLostOrDoubled(eth: EthernetAddress, ip: U32, es: seq<Event>, hop: U32)
    ensures Conserved(Run(eth, ip, es), es, hop)
  {
    hide Conserved, Step, InOrder;
    if es == [] {
      EmptyInOrder(eth, ip, hop);
    } else {
      var front, e := es[..|es| - 1], es[|es| - 1];
      NothingLostOrDoubled(eth, ip, front, hop);
      assert front + [e] == es;
      StepConserves(Run(eth, ip, front), front, e, hop);
    }
  }

  lemma EmptyInOrder(eth: EthernetAddress, ip: U32, hop: U32)
    ensures InOrder(Run(eth, ip, []), [], hop) && Conserved(Run(eth, ip, []), [], hop)
  {
  }

  // ---- Order ----

  /** Datagrams for `hop` have left, and will leave, in the order they were handed over. */
  ghost predicate InOrder(w: World, es: seq<Event>, hop: U32) {
    HandedTo(es, hop) == EmittedTo(w.log, hop) + WaitingFor(w.iface, hop)
  }

  /** A datagram is sent straight out although others still wait for the same hop: the address was learned
      from a request, which does not release the queue. */
  predicate Overtakes(w: World, e: Event, hop: U32) {
    e.Send? && e.hop == hop && hop in w.iface.ipMap && WaitingFor(w.iface, hop) != []
  }

  /** The two queues of `hop`, end to end. */
  function Lined(w: World, hop: U32): seq<Datagram> {
    EmittedTo(w.log, hop) + WaitingFor(w.iface, hop)
  }

  /** Anything but an overtaking send to `hop` leaves the line as it is, but for a datagram joining its end. */
  lemma StepLines(w: World, e: Event, hop: U32)
    requires !Overtakes(w, e, hop)
    ensures Lined(Step(w, e), hop) == Lined(w, hop) + if e.Send? && e.hop == hop then [e.datagram] else []
  {
    hide EmittedTo, WaitingFor;
    match e
    case Send(datagram, to) =>
      SendMoves(w, datagram, to, hop);
      hide StepSend;
    case Recv(frame) =>
      if Heard(w.iface, frame).Some? {
        ArpMoves(w, Heard(w.iface, frame).value, hop);
        hide StepArp;
      }
    case Time(ms) => TimeMoves(w, ms, hop);
  }

  lemma StepOrderIff(w: World, es: seq<Event>, e: Event, hop: U32)
    requires !Overtakes(w, e, hop)
    ensures InOrder(Step(w, e), es + [e], hop) <==> InOrder(w, es, hop)
  {
    HandedSnoc(es, e, hop);
    StepLines(w, e, hop);
    hide HandedTo, Step;
    CancelRight(HandedTo(es, hop), Lined(w, hop), if e.Send? && e.hop == hop then [e.datagram] else []);
  }

  /** No send to `hop` goes past its own queue. */
  ghost predicate NeverOvertakes(eth: EthernetAddress, ip: U32, es: seq<Event>, hop: U32) {
    forall k :: 0 <= k < |es| ==> !Overtakes(Run(eth, ip, es[..k]), es[k], hop)
  }

  lemma NeverOvertakesSnoc(eth: EthernetAddress, ip: U32, es: seq<Event>, e: Event, hop: U32)
    ensures NeverOvertakes(eth, ip, es + [e], hop) <==>
            NeverOvertakes(eth, ip, es, hop) && !Overtakes(Run(eth, ip, es), e, hop)
  {
    hide Overtakes, Run;
    var all := es + [e];
    assert all[..|es|] == es && all[|es|] == e;
    assert forall k :: 0 <= k < |es| ==> all[..k] == es[..k] && all[k] == es[k];
  }

  lemma {:induction false} OrderIsKept(eth: EthernetAddress, ip: U32, es: seq<Event>, hop: U32)
    requires NeverOvertakes(eth, ip, es, hop)
    ensures InOrder(Run(eth, ip, es), es, hop)
  {
    hide InOrder, Conserved, Step, Overtakes, NeverOvertakes;
    if es == [] {
      EmptyInOrder(eth, ip, hop);
    } else {
      var front, e := es[..|es| - 1], es[|es| - 1];
      assert front + [e] == es;
      NeverOvertakesSnoc(eth, ip, front, e, hop);
      OrderIsKept(eth, ip, front, hop);
      StepOrderIff(Run(eth, ip, front), front, e, hop);
    }
  }

  predicate Distinct(ds: seq<Datagram>) {
    forall i, j :: 0 <= i < j < |ds| ==> ds[i] != ds[j]
  }

  /** Sending a new datagram past waiting ones breaks the order: the last in line is an old one, although
      the new one was handed over last. */
  lemma OvertakingBreaks(w: World, es: seq<Event>, e: Event, hop: U32)
    requires Conserved(w, es, hop) && Overtakes(w, e, hop) && Distinct(HandedTo(es + [e], hop))
    ensures !InOrder(Step(w, e), es + [e], hop)
  {
    HandedSnoc(es, e, hop);
    SendMoves(w, e.datagram, hop, hop);
    hide HandedTo, EmittedTo, WaitingFor, StepSend;
    LastInLine(HandedTo(es, hop), EmittedTo(w.log, hop), WaitingFor(w.iface, hop), e.datagram);
  }

  lemma LastInLine(handed: seq<Datagram>, emitted: seq<Datagram>, waiting: seq<Datagram>, d: Datagram)
    requires multiset(handed) == multiset(emitted) + multiset(waiting) && waiting != []
    requires Distinct(handed + [d])
    ensures handed + [d] != emitted + [d] + waiting
  {
    var last := waiting[|waiting| - 1];
    assert last in multiset(waiting) && last in multiset(handed);
    var i :| 0 <= i < |handed| && handed[i] == last;
    var x, y := handed + [d], emitted + [d] + waiting;
    assert x[i] != x[|handed|] == d;
    assert x[|x| - 1] != last == y[|y| - 1];
  }

  /** If the datagrams handed over for a hop all differ, their order is kept if and only if none is sent past
      the queue: once broken, it stays broken. */
  lemma {:induction false} OrderKeptIff(eth: EthernetAddress, ip: U32, es: seq<Event>, hop: U32)
    requires Distinct(HandedTo(es, hop))
    ensures InOrder(Run(eth, ip, es), es, hop) <==> NeverOvertakes(eth, ip, es, hop)
  {
    hide InOrder, Conserved, Step, Overtakes, NeverOvertakes, Distinct;
    if es == [] {
      NoEventOvertakes(eth, ip, hop);
      EmptyInOrder(eth, ip, hop);
    } else {
      var front, e := es[..|es| - 1], es[|es| - 1];
      assert front + [e] == es;
      DistinctFront(front, e, hop);
      OrderKeptIff(eth, ip, front, hop);
      NeverOvertakesSnoc(eth, ip, front, e, hop);
      if Overtakes(Run(eth, ip, front), e, hop) {
        NothingLostOrDoubled(eth, ip, front, hop);
        OvertakingBreaks(Run(eth, ip, front), front, e, hop);
      } else {
        StepOrderIff(Run(eth, ip, front), front, e, hop);
      }
    }
  }

  lemma NoEventOvertakes(eth: EthernetAddress, ip: U32, hop: U32)
    ensures NeverOvertakes(eth, ip, [], hop)
  {
  }

  lemma DistinctFront(es: seq<Event>, e: Event, hop: U32)
    requires Distinct(HandedTo(es + [e], hop))
    ensures Distinct(HandedTo(es, hop))
  {
    HandedSnoc(es, e, hop);
    hide HandedTo;
    var all := HandedTo(es + [e], hop);
    assert forall k :: 0 <= k < |HandedTo(es, hop)| ==> HandedTo(es, hop)[k] == all[k];
  }

  /** Exactly when a send keeps the order of its hop, datagrams of equal content being interchangeable: the
      address is unknown, or nothing but copies of the same datagram waits. */
  lemma SendKeepsOrderIff(w: World, es: seq<Event>, datagram: Datagram, hop: U32)
    requires InOrder(w, es, hop)
    ensures InOrder(Step(w, Send(datagram, hop)), es + [Send(datagram, hop)], hop) <==>
            hop !in w.iface.ipMap || forall x :: x in WaitingFor(w.iface, hop) ==> x == datagram
  {
    HandedSnoc(es, Send(datagram, hop), hop);
    SendMoves(w, datagram, hop, hop);
    hide HandedTo, EmittedTo, WaitingFor, StepSend;
    var a, p := EmittedTo(w.log, hop), WaitingFor(w.iface, hop);
    CancelLeft(a, p + [datagram], [datagram] + p);
    Commutes(p, datagram);
    assert a + p + [datagram] == a + (p + [datagram]);
    assert a + [datagram] + p == a + ([datagram] + p);
  }

  /** Moving a datagram past a queue leaves it unchanged only if it consists of copies. */
  lemma Commutes(p: seq<Datagram>, d: Datagram)
    ensures p + [d] == [d] + p <==> forall x :: x in p ==> x == d
  {
    if p + [d] == [d] + p {
      AllCopies(p, d, |p|);
    } else {
      var k :| 0 <= k < |p| + 1 && (p + [d])[k] != ([d] + p)[k];
      assert k < |p| ==> p[k] in p;
      assert k > 0 ==> p[k - 1] in p;
    }
  }

  lemma {:induction false} AllCopies(p: seq<Datagram>, d: Datagram, n: nat)
    requires p + [d] == [d] + p && n <= |p|
    ensures forall k :: 0 <= k < n ==> p[k] == d
  {
    if n == 0 {
    } else {
      AllCopies(p, d, n - 1);
      assert p[n - 1] == (p + [d])[n - 1] == ([d] + p)[n - 1];
    }
  }

  lemma CancelRight(x: seq<Datagram>, y: seq<Datagram>, a: seq<Datagram>)
    ensures x + a == y + a <==> x == y
  {
    if x + a == y + a {
      assert |x| == |y|;
      assert x == (x + a)[..|x|] && y == (y + a)[..|y|];
    }
  }

  lemma CancelLeft(a: seq<Datagram>, x: seq<Datagram>, y: seq<Datagram>)
    ensures a + x == a + y <==> x == y
  {
    if a + x == a + y {
      assert x == (a + x)[|a|..] && y == (a + y)[|a|..];
    }
  }

  /** One datagram waits, and then its hop asks for our address. */
  function Opening(ip: U32, hop: U32, mac: EthernetAddress, x: Datagram): seq<Event> {
    [Send(x, hop)] + [Recv(Frame(BROADCAST, mac, TYPE_ARP, ArpOf(ArpMessage(Request, mac, hop, 0, ip))))]
  }

  lemma RunSnoc(eth: EthernetAddress, ip: U32, es: seq<Event>, e: Event)
    ensures Run(eth, ip, es + [e]) == Step(Run(eth, ip, es), e)
  {
    assert (es + [e])[..|es|] == es;
  }

  lemma AfterOpening(eth: EthernetAddress, ip: U32, hop: U32, mac: EthernetAddress, x: Datagram)
    ensures var es := Opening(ip, hop, mac, x);
            var w := Run(eth, ip, es);
            hop in w.iface.ipMap && WaitingFor(w.iface, hop) == [x] && InOrder(w, es, hop)
  {
    var w0, e0, e1 := Boot(eth, ip), Send(x, hop), Opening(ip, hop, mac, x)[1];
    var w1 := Step(w0, e0);
    SendMoves(w0, x, hop, hop);
    ArpMoves(w1, e1.frame.payload.msg, hop);
    hide WaitingFor, EmittedTo, InOrder;
    EmptyInOrder(eth, ip, hop);
    StepOrderIff(w0, [], e0, hop);
    assert [] + [e0] == [e0];
    StepOrderIff(w1, [e0], e1, hop);
    hide Step;
    RunSnoc(eth, ip, [], e0);
    RunSnoc(eth, ip, [e0], e1);
  }

  /** The next datagram for that hop overtakes the waiting one. */
  lemma OvertakingChangesOrder(eth: EthernetAddress, ip: U32, hop: U32, mac: EthernetAddress,
                               x: Datagram, y: Datagram)
    requires x != y
    ensures var es := Opening(ip, hop, mac, x) + [Send(y, hop)];
            !InOrder(Run(eth, ip, es), es, hop)
  {
    hide Opening, InOrder, Step, WaitingFor, Run;
    var es := Opening(ip, hop, mac, x);
    AfterOpening(eth, ip, hop, mac, x);
    RunSnoc(eth, ip, es, Send(y, hop));
    SendKeepsOrderIff(Run(eth, ip, es), es, y, hop);
    assert x in WaitingFor(Run(eth, ip, es).iface, hop);
  }

  // ---- Where frames go ----

  /** The Ethernet address `hop` announced last in the history, as heard by this interface. */
  function LastAnnounced(eth: EthernetAddress, ip: U32, es: seq<Event>, hop: U32): Option<EthernetAddress> {
    if es == [] then None
    else
      var e, i := es[|es| - 1], InitIface(eth, ip);
      if e.Recv? && Heard(i, e.frame).Some? && Heard(i, e.frame).value.senderIp == hop
      then Some(Heard(i, e.frame).value.senderEth)
      else LastAnnounced(eth, ip, es[..|es| - 1], hop)
  }

  /** The cache holds what was announced last. */
  ghost predicate Truthful(eth: EthernetAddress, ip: U32, es: seq<Event>) {
    var i := Run(eth, ip, es).iface;
    && i.eth == eth && i.ip == ip
    && (forall h :: h in i.ipMap ==> LastAnnounced(eth, ip, es, h) == Some(i.ipMap[h]))
  }

  /** A step learns from what is heard and otherwise only forgets. */
  lemma StepLearns(w: World, e: Event, h: U32)
    ensures var i, i' := w.iface, Step(w, e).iface;
            && i'.eth == i.eth && i'.ip == i.ip
            && (h in i'.ipMap ==>
                  if e.Recv? && Heard(i, e.frame).Some? && Heard(i, e.frame).value.senderIp == h
                  then i'.ipMap[h] == Heard(i, e.frame).value.senderEth
                  else h in i.ipMap && i'.ipMap[h] == i.ipMap[h])
  {
  }

  lemma {:induction false} CacheIsTruthful(eth: EthernetAddress, ip: U32, es: seq<Event>)
    ensures Truthful(eth, ip, es)
  {
    hide Step;
    if es == [] {
    } else {
      var w, e := Run(eth, ip, es[..|es| - 1]), es[|es| - 1];
      CacheIsTruthful(eth, ip, es[..|es| - 1]);
      StepLearns(w, e, 0);
      forall h | h in Step(w, e).iface.ipMap
        ensures LastAnnounced(eth, ip, es, h) == Some(Step(w, e).iface.ipMap[h])
      {
        StepLearns(w, e, h);
      }
    }
  }

  /** Every datagram frame goes to the Ethernet address its next hop announced last, counting the message that
      releases it. */
  lemma SentWhereAnnounced(eth: EthernetAddress, ip: U32, es: seq<Event>, k: nat)
    requires es != [] && |Run(eth, ip, es[..|es| - 1]).log| <= k < |Run(eth, ip, es).log|
    requires Run(eth, ip, es).log[k].emit.Data?
    ensures var emit := Run(eth, ip, es).log[k].emit;
            LastAnnounced(eth, ip, es, emit.hop) == Some(emit.frame.dst)
  {
    var e, w := es[|es| - 1], Run(eth, ip, es[..|es| - 1]);
    CacheIsTruthful(eth, ip, es);
    StepAddresses(w, e, k);
    hide LastAnnounced, Step;
  }

  lemma StepAddresses(w: World, e: Event, k: nat)
    requires |w.log| <= k < |Step(w, e).log| && Step(w, e).log[k].emit.Data?
    ensures var emit, m := Step(w, e).log[k].emit, Step(w, e).iface.ipMap;
            emit.hop in m && m[emit.hop] == emit.frame.dst
  {
    hide Step, SendDatagram, RecvFrame, StampAt;
    StepIsOperation(w, e);
    if e.Send? {
      SendAddresses(w.iface, e.datagram, e.hop, k - |w.log|);
    } else if e.Recv? {
      RecvAddresses(w.iface, e.frame, k - |w.log|);
    }
  }

  lemma SendAddresses(i: Iface, datagram: Datagram, to: U32, k: nat)
    requires var o := SendDatagram(i, datagram, to); k < |o.emitted| && o.emitted[k].Data?
    ensures var o := SendDatagram(i, datagram, to);
            o.emitted[k].hop in o.iface.ipMap && o.iface.ipMap[o.emitted[k].hop] == o.emitted[k].frame.dst
  {
  }

  lemma RecvAddresses(i: Iface, frame: Frame, k: nat)
    requires var o := RecvFrame(i, frame); k < |o.emitted| && o.emitted[k].Data?
    ensures var o := RecvFrame(i, frame);
            o.emitted[k].hop in o.iface.ipMap && o.iface.ipMap[o.emitted[k].hop] == o.emitted[k].frame.dst
  {
  }
}
