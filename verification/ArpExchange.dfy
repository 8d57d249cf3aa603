/** Two interfaces resolving each other's addresses, and how long they remember: what a request asks, what a reply
    tells, when a request is repeated and when a mapping is forgotten. */
module ArpExchange {
  import opened Wrapping
  import opened ByteStreams
  import opened Arp
  import opened ArpRuns
  import opened ArpDelivery

  // ---- The exchange ----

  /** A frame that carries a datagram from `src`, not yet addressed. */
  predicate CarriesData(f: Frame, src: EthernetAddress) {
    f.dst == 0 && f.src == src && f.etype == 0x0800 && f.payload.Ip?
  }

  /** Everything waiting is a datagram of the interface's own. */
  ghost predicate DataWaits(i: Iface) {
    forall h, k :: h in i.unsent && 0 <= k < |i.unsent[h]| ==> CarriesData(i.unsent[h][k], i.eth)
  }

  lemma SendDataWaits(w: World, datagram: seq<Byte>, hop: U32)
    requires DataWaits(w.iface)
    ensures DataWaits(StepSend(w, datagram, hop).iface)
  {
  }

  lemma StepDataWaits(w: World, e: Event)
    requires DataWaits(w.iface)
    ensures DataWaits(Step(w, e).iface)
  {
    match e
    case Send(datagram, hop) =>
      SendDataWaits(w, datagram, hop);
      hide StepSend;
    case Recv(_) =>
    case Time(_) =>
  }

  lemma {:induction false} RunDataWaits(eth: EthernetAddress, ip: U32, es: seq<Event>)
    ensures DataWaits(Run(eth, ip, es).iface) && Run(eth, ip, es).iface.eth == eth && Run(eth, ip, es).iface.ip == ip
  {
    if es == [] {
    } else {
      RunDataWaits(eth, ip, es[..|es| - 1]);
      StepDataWaits(Run(eth, ip, es[..|es| - 1]), es[|es| - 1]);
      StepLearns(Run(eth, ip, es[..|es| - 1]), es[|es| - 1], 0);
      hide Step, DataWaits;
    }
  }

  /** The request: one broadcast frame, in which the asker gives its own two addresses. */
  lemma AsksOnce(j: Iface, datagram: Datagram, ip: U32)
    requires ip !in j.ipMap && !Suppressed(j, ip)
    ensures var o := SendDatagram(j, datagram, ip);
            && |o.emitted| == 1 && o.emitted[0].Ask?
            && o.emitted[0].frame ==
               Frame(0xFFFF_FFFF_FFFF, j.eth, 0x0806, ArpOf(ArpMessage(Request, j.eth, j.ip, 0, ip)))
  {
  }

  /** The datagrams that waited leave in order, from `j` to `i` and in no other way; `i` takes each of them in, and
      an interface with another address takes none. */
  ghost predicate Delivers(i: Iface, j: Iface, emitted: seq<Emit>, ds: seq<Datagram>) {
    && |emitted| == |ds|
    && forall k :: 0 <= k < |ds| ==>
         && emitted[k] == Data(i.ip, Frame(i.eth, j.eth, 0x0800, Ip(ds[k])))
         && RecvFrame(i, emitted[k].frame) == Outcome(i, [], Some(ds[k]))
  }

  lemma Bystander(other: Iface, f: Frame)
    requires f.dst != other.eth && f.dst != 0xFFFF_FFFF_FFFF
    ensures RecvFrame(other, f) == Outcome(other, [], None)
  {
  }

  lemma FlushedData(frames: seq<Frame>, i: Iface, src: EthernetAddress, k: nat)
    requires k < |frames| && CarriesData(frames[k], src)
    ensures Flush(frames, i.eth, i.ip)[k] == Data(i.ip, Frame(i.eth, src, 0x0800, Ip(CarriedAll(frames)[k])))
  {
    CarriedAt(frames, k);
  }

  lemma {:induction false} CarriedAt(fs: seq<Frame>, k: nat)
    requires k < |fs|
    ensures CarriedAll(fs)[k] == Carried(fs[k])
  {
    if k == |fs| - 1 {
    } else {
      CarriedAt(fs[..|fs| - 1], k);
    }
  }

  /** The reply reaches the asker: it learns the address and everything that waited goes out. */
  lemma ReplyReleases(j: Iface, i: Iface, seen: Iface, reply: Frame)
    requires DataWaits(j) && i.ip in j.unsent && seen.eth == i.eth && seen.ip == i.ip
    requires reply == Frame(j.eth, i.eth, 0x0806, ArpOf(ArpMessage(Reply, i.eth, i.ip, j.eth, j.ip)))
    ensures var o := RecvFrame(j, reply);
            && i.ip in o.iface.ipMap && o.iface.ipMap[i.ip] == i.eth && WaitingFor(o.iface, i.ip) == []
            && Delivers(seen, j, o.emitted, WaitingFor(j, i.ip))
  {
    var o, frames := RecvFrame(j, reply), j.unsent[i.ip];
    assert o.emitted == Flush(frames, i.eth, i.ip);
    forall k | 0 <= k < |frames|
      ensures o.emitted[k] == Data(i.ip, Frame(i.eth, j.eth, 0x0800, Ip(WaitingFor(j, i.ip)[k])))
    {
      FlushedData(frames, i, j.eth, k);
    }
  }

  /** `i` answers the request with one frame that gives its own address, and learns where the asker is. */
  lemma AnswersOnce(i: Iface, f: Frame, eth: EthernetAddress, ip: U32)
    requires f == Frame(0xFFFF_FFFF_FFFF, eth, 0x0806, ArpOf(ArpMessage(Request, eth, ip, 0, i.ip)))
    ensures var o := RecvFrame(i, f);
            && |o.emitted| == 1 && o.emitted[0].Answer? && o.delivered == None
            && o.iface == i.(ipMap := i.ipMap[ip := eth], mapTime := i.mapTime[ip := i.now])
            && o.emitted[0].frame == Frame(eth, i.eth, 0x0806, ArpOf(ArpMessage(Reply, i.eth, i.ip, eth, ip)))
  {
  }

  /** The frame asks for the address of `i`. */
  predicate Inquires(f: Frame, i: Iface) {
    && (f.dst == i.eth || f.dst == 0xFFFF_FFFF_FFFF) && f.etype != 0x0800
    && f.payload.ArpOf? && f.payload.msg.opcode == Request && f.payload.msg.targetIp == i.ip
  }

  /** An interface answers for itself and for nobody else: hearing a frame it emits one answer and nothing more if
      the frame asks for its own address, and no answer at all otherwise. */
  lemma AnswersIff(i: Iface, f: Frame)
    ensures var emitted := RecvFrame(i, f).emitted;
            if Inquires(f, i) then |emitted| == 1 && emitted[0].Answer?
            else forall k :: 0 <= k < |emitted| ==> emitted[k].Data?
  {
  }

  /** From any state that interface `j` can get into: a datagram for an unknown address of `i` makes it ask, unless
      it has just asked; `i` answers that one frame with one frame, and learns where `j` is; and when `j` hears the
      answer it knows where `i` is, and everything that waited for `i`, this datagram last, goes there and is taken
      in. */
  lemma ExchangeDelivers(eth: EthernetAddress, ip: U32, es: seq<Event>, i: Iface, datagram: Datagram)
    requires var j := Run(eth, ip, es).iface; i.ip !in j.ipMap && !Suppressed(j, i.ip)
    ensures var j := Run(eth, ip, es).iface;
            var asked := SendDatagram(j, datagram, i.ip);
            && |asked.emitted| == 1
            && var heard := RecvFrame(i, asked.emitted[0].frame);
               && |heard.emitted| == 1 && ip in heard.iface.ipMap && heard.iface.ipMap[ip] == eth
               && var done := RecvFrame(asked.iface, heard.emitted[0].frame);
                  && i.ip in done.iface.ipMap && done.iface.ipMap[i.ip] == i.eth && WaitingFor(done.iface, i.ip) == []
                  && Delivers(heard.iface, j, done.emitted, WaitingFor(j, i.ip) + [datagram])
  {
    var w := Run(eth, ip, es);
    RunDataWaits(eth, ip, es);
    AsksOnce(w.iface, datagram, i.ip);
    SendDataWaits(w, datagram, i.ip);
    CarriedSnoc(Pending(w.iface, i.ip), DatagramFrame(w.iface, datagram));
    hide Run, CarriedAll, Flush, DataWaits, RecvFrame, Delivers;
    var asked := SendDatagram(w.iface, datagram, i.ip);
    AnswersOnce(i, asked.emitted[0].frame, eth, ip);
    var heard := RecvFrame(i, asked.emitted[0].frame);
    ReplyReleases(asked.iface, i, heard.iface, heard.emitted[0].frame);
    SameSource(heard.iface, asked.iface, w.iface, RecvFrame(asked.iface, heard.emitted[0].frame).emitted,
               WaitingFor(asked.iface, i.ip));
  }

  lemma SameSource(i: Iface, j: Iface, j': Iface, emitted: seq<Emit>, ds: seq<Datagram>)
    requires Delivers(i, j, emitted, ds) && j.eth == j'.eth
    ensures Delivers(i, j', emitted, ds)
  {
  }

  // ---- When a request goes out again ----

  /** The event makes the interface ask for `hop`. */
  predicate Asks(w: World, e: Event, hop: U32) {
    exists k :: |w.log| <= k < |Step(w, e).log| && Step(w, e).log[k].emit.Ask? && Step(w, e).log[k].emit.hop == hop
  }

  /** The request on record for a hop is the last one that went out for it. */
  ghost predicate OnRecord(w: World) {
    forall h :: h in w.askedAt ==> LastAsk(w.log, h) == Some(w.askedAt[h])
  }

  /** When `hop` was last asked for. */
  function LastAsk(log: seq<Stamped>, hop: U32): Option<nat> {
    if log == [] then None
    else if log[|log| - 1].emit.Ask? && log[|log| - 1].emit.hop == hop then Some(log[|log| - 1].time)
    else LastAsk(log[..|log| - 1], hop)
  }

  lemma {:induction false} QuietLastAsk(log: seq<Stamped>, more: seq<Emit>, time: nat, hop: U32)
    requires forall k :: 0 <= k < |more| ==> !more[k].Ask?
    ensures LastAsk(log + StampAt(more, time), hop) == LastAsk(log, hop)
  {
    if more == [] {
      assert log + [] == log;
    } else {
      var all, front := log + StampAt(more, time), more[..|more| - 1];
      QuietLastAsk(log, front, time, hop);
      assert all[..|all| - 1] == log + StampAt(front, time);
    }
  }

  lemma AskLastAsk(log: seq<Stamped>, e: Emit, time: nat, hop: U32)
    requires e.Ask?
    ensures LastAsk(log + StampAt([e], time), hop) == if e.hop == hop then Some(time) else LastAsk(log, hop)
  {
    var all := log + StampAt([e], time);
    assert all[..|all| - 1] == log;
  }

  lemma SendOnRecord(w: World, datagram: seq<Byte>, hop: U32)
    requires OnRecord(w)
    ensures OnRecord(StepSend(w, datagram, hop))
  {
    hide LastAsk, StampAt;
    var o, w' := SendDatagram(w.iface, datagram, hop), StepSend(w, datagram, hop);
    forall h | h in w'.askedAt
      ensures LastAsk(w'.log, h) == Some(w'.askedAt[h])
    {
      if hop in w.iface.ipMap || Suppressed(w.iface, hop) {
        QuietLastAsk(w.log, o.emitted, w.clock, h);
      } else {
        AskLastAsk(w.log, o.emitted[0], w.clock, h);
      }
    }
  }

  lemma ArpOnRecord(w: World, msg: ArpMessage)
    requires OnRecord(w)
    ensures OnRecord(StepArp(w, msg))
  {
    hide LastAsk, StampAt;
    AnsweringIsQuiet(w.iface, msg);
    var w' := StepArp(w, msg);
    forall h | h in w'.askedAt
      ensures LastAsk(w'.log, h) == Some(w'.askedAt[h])
    {
      QuietLastAsk(w.log, HandleArp(w.iface, msg).emitted, w.clock, h);
    }
  }

  lemma {:induction false} RunOnRecord(eth: EthernetAddress, ip: U32, es: seq<Event>)
    ensures OnRecord(Run(eth, ip, es))
  {
    if es == [] {
    } else {
      var w, e := Run(eth, ip, es[..|es| - 1]), es[|es| - 1];
      RunOnRecord(eth, ip, es[..|es| - 1]);
      hide OnRecord, StepSend, StepArp;
      match e
      case Send(datagram, hop) => SendOnRecord(w, datagram, hop);
      case Recv(frame) => if Heard(w.iface, frame).Some? { ArpOnRecord(w, Heard(w.iface, frame).value); }
      case Time(ms) => TimeOnRecord(w, ms);
    }
  }

  lemma TimeOnRecord(w: World, ms: nat)
    requires OnRecord(w)
    ensures OnRecord(StepTime(w, ms))
  {
  }

  /** In every run a send asks for its hop if and only if the hop is unknown and no request for it is on record, or
      the one on record, which is the last that went out, lies 5000 ms or more back, as far as 32 bits can tell. */
  lemma AsksIff(eth: EthernetAddress, ip: U32, es: seq<Event>, datagram: Datagram, hop: U32)
    ensures var w := Run(eth, ip, es);
            && (Asks(w, Send(datagram, hop), hop) <==>
                && hop !in w.iface.ipMap
                && (hop in w.askedAt ==>
                      w.askedAt[hop] <= w.clock && (w.clock - w.askedAt[hop]) % 0x1_0000_0000 >= 5000))
            && (hop in w.askedAt ==> LastAsk(w.log, hop) == Some(w.askedAt[hop]))
  {
    var w := Run(eth, ip, es);
    RunSpaced(eth, ip, es);
    RunOnRecord(eth, ip, es);
    hide Run, LastAsk, Spaced, AllBlocked;
    if hop in w.askedAt {
      SinceIs(w.clock, w.askedAt[hop]);
    }
    SendAsksIff(w, datagram, hop);
  }

  lemma SinceIs(clock: nat, t: nat)
    requires t <= clock
    ensures Since(clock % 0x1_0000_0000, t % 0x1_0000_0000) == (clock - t) % 0x1_0000_0000
  {
  }

  lemma SendAsksIff(w: World, datagram: Datagram, hop: U32)
    ensures Asks(w, Send(datagram, hop), hop) <==> hop !in w.iface.ipMap && !Suppressed(w.iface, hop)
  {
    var o, log := SendDatagram(w.iface, datagram, hop), Step(w, Send(datagram, hop)).log;
    assert log == w.log + StampAt(o.emitted, w.clock);
    if o.emitted != [] {
      assert log[|w.log|] == Stamped(o.emitted[0], w.clock);
    }
  }

  // ---- How long a mapping is kept ----

  function ClockOf(es: seq<Event>): nat {
    if es == [] then 0
    else ClockOf(es[..|es| - 1]) + if es[|es| - 1].Time? then es[|es| - 1].ms else 0
  }

  /** The true time at which the interface last heard of `hop`'s address. */
  function HeardAt(eth: EthernetAddress, ip: U32, es: seq<Event>, hop: U32): Option<nat> {
    if es == [] then None
    else
      var e, i, front := es[|es| - 1], InitIface(eth, ip), es[..|es| - 1];
      if e.Recv? && Heard(i, e.frame).Some? && Heard(i, e.frame).value.senderIp == hop then Some(ClockOf(front))
      else HeardAt(eth, ip, front, hop)
  }

  /** What is known was heard, when the tables say; and what was heard less than 30000 ms ago is known. */
  ghost predicate Remembers(w: World, eth: EthernetAddress, ip: U32, es: seq<Event>) {
    && w.clock == ClockOf(es) && w.iface.eth == eth && w.iface.ip == ip
    && (forall h :: h in w.learnedAt ==> HeardAt(eth, ip, es, h) == Some(w.learnedAt[h]))
    && (forall h: U32 :: HeardAt(eth, ip, es, h).Some? && w.clock < HeardAt(eth, ip, es, h).value + 30000 ==>
          h in w.learnedAt)
  }

  lemma HeardSnoc(eth: EthernetAddress, ip: U32, es: seq<Event>, e: Event, hop: U32)
    ensures ClockOf(es + [e]) == ClockOf(es) + if e.Time? then e.ms else 0
    ensures var i := InitIface(eth, ip);
            HeardAt(eth, ip, es + [e], hop) ==
            if e.Recv? && Heard(i, e.frame).Some? && Heard(i, e.frame).value.senderIp == hop then Some(ClockOf(es))
            else HeardAt(eth, ip, es, hop)
  {
    assert (es + [e])[..|es|] == es;
  }

  /** Which mappings survive a tick. */
  lemma TickForgets(w: World, ms: nat, h: U32)
    requires Clocked(w)
    ensures var w' := StepTime(w, ms);
            && (h in w'.learnedAt <==>
                h in w.learnedAt && (w'.clock - w.learnedAt[h]) % 0x1_0000_0000 < 30000)
            && (h in w'.learnedAt ==> w'.learnedAt[h] == w.learnedAt[h])
  {
    var w' := StepTime(w, ms);
    assert w'.iface.now == w'.clock % 0x1_0000_0000 by { ElapsedClocked(w, ms); }
    if h in w.learnedAt {
      SinceIs(w'.clock, w.learnedAt[h]);
    }
  }

  lemma TimeRemembers(w: World, eth: EthernetAddress, ip: U32, es: seq<Event>, ms: nat)
    requires Clocked(w) && Remembers(w, eth, ip, es)
    ensures Remembers(StepTime(w, ms), eth, ip, es + [Time(ms)])
  {
    var w' := StepTime(w, ms);
    HeardSnoc(eth, ip, es, Time(ms), 0);
    hide HeardAt, ClockOf, StepTime, Clocked;
    assert w'.clock == w.clock + ms && w'.iface.eth == eth && w'.iface.ip == ip by { TimeFields(w, ms); }
    forall h: U32
      ensures HeardAt(eth, ip, es + [Time(ms)], h) == HeardAt(eth, ip, es, h)
      ensures h in w'.learnedAt ==> h in w.learnedAt && w'.learnedAt[h] == w.learnedAt[h]
      ensures h in w.learnedAt && w'.clock < w.learnedAt[h] + 30000 ==> h in w'.learnedAt
    {
      HeardSnoc(eth, ip, es, Time(ms), h);
      YoungIsKept(w, ms, h);
    }
  }

  lemma YoungIsKept(w: World, ms: nat, h: U32)
    requires Clocked(w)
    ensures var w' := StepTime(w, ms);
            && (h in w'.learnedAt ==> h in w.learnedAt && w'.learnedAt[h] == w.learnedAt[h])
            && (h in w.learnedAt && w'.clock < w.learnedAt[h] + 30000 ==> h in w'.learnedAt)
  {
    TickForgets(w, ms, h);
    TimeFields(w, ms);
    hide StepTime;
  }

  lemma TimeFields(w: World, ms: nat)
    ensures var w' := StepTime(w, ms);
            w'.clock == w.clock + ms && w'.iface.eth == w.iface.eth && w'.iface.ip == w.iface.ip
  {
  }

  lemma ArpRemembers(w: World, eth: EthernetAddress, ip: U32, es: seq<Event>, frame: Frame)
    requires Remembers(w, eth, ip, es) && Heard(w.iface, frame).Some?
    ensures Remembers(StepArp(w, Heard(w.iface, frame).value), eth, ip, es + [Recv(frame)])
  {
    hide HeardAt, ClockOf, StepArp;
    LearnedFields(w, Heard(w.iface, frame).value);
    assert Heard(InitIface(eth, ip), frame) == Heard(w.iface, frame);
    hide Heard;
    HeardSnoc(eth, ip, es, Recv(frame), 0);
    forall h: U32
      ensures HeardAt(eth, ip, es + [Recv(frame)], h) ==
              if Heard(w.iface, frame).value.senderIp == h then Some(w.clock) else HeardAt(eth, ip, es, h)
    {
      HeardSnoc(eth, ip, es, Recv(frame), h);
    }
  }

  lemma LearnedFields(w: World, msg: ArpMessage)
    ensures var w' := StepArp(w, msg);
            && w'.clock == w.clock && w'.iface.eth == w.iface.eth && w'.iface.ip == w.iface.ip
            && w'.learnedAt == w.learnedAt[msg.senderIp := w.clock]
  {
  }

  /** Sends, and frames that bring no ARP message, teach nothing. */
  lemma SameRemembers(w: World, w': World, eth: EthernetAddress, ip: U32, es: seq<Event>, e: Event)
    requires Remembers(w, eth, ip, es) && !e.Time? && (e.Recv? ==> Heard(w.iface, e.frame).None?)
    requires w'.clock == w.clock && w'.learnedAt == w.learnedAt && w'.iface.eth == eth && w'.iface.ip == ip
    ensures Remembers(w', eth, ip, es + [e])
  {
    hide HeardAt, ClockOf;
    HeardSnoc(eth, ip, es, e, 0);
    forall h: U32
      ensures HeardAt(eth, ip, es + [e], h) == HeardAt(eth, ip, es, h)
    {
      HeardSnoc(eth, ip, es, e, h);
    }
  }

  lemma StepRemembers(w: World, eth: EthernetAddress, ip: U32, es: seq<Event>, e: Event)
    requires Clocked(w) && Remembers(w, eth, ip, es)
    ensures Remembers(Step(w, e), eth, ip, es + [e])
  {
    hide Remembers, Clocked, StepArp, StepTime;
    match e
    case Send(datagram, hop) => SendRemembers(w, eth, ip, es, datagram, hop);
    case Recv(frame) =>
      if Heard(w.iface, frame).Some? {
        ArpRemembers(w, eth, ip, es, frame);
      } else {
        NoiseRemembers(w, eth, ip, es, frame);
      }
    case Time(ms) => TimeRemembers(w, eth, ip, es, ms);
  }

  lemma SendRemembers(w: World, eth: EthernetAddress, ip: U32, es: seq<Event>, datagram: Datagram, hop: U32)
    requires Remembers(w, eth, ip, es)
    ensures Remembers(StepSend(w, datagram, hop), eth, ip, es + [Send(datagram, hop)])
  {
    SameRemembers(w, StepSend(w, datagram, hop), eth, ip, es, Send(datagram, hop));
  }

  lemma NoiseRemembers(w: World, eth: EthernetAddress, ip: U32, es: seq<Event>, frame: Frame)
    requires Remembers(w, eth, ip, es) && Heard(w.iface, frame).None?
    ensures Remembers(w, eth, ip, es + [Recv(frame)])
  {
    SameRemembers(w, w, eth, ip, es, Recv(frame));
  }

  lemma {:induction false} RunRemembers(eth: EthernetAddress, ip: U32, es: seq<Event>)
    ensures Remembers(Run(eth, ip, es), eth, ip, es)
  {
    if es == [] {
    } else {
      var front, e := es[..|es| - 1], es[|es| - 1];
      RunRemembers(eth, ip, front);
      RunSpaced(eth, ip, front);
      assert front + [e] == es;
      hide Remembers, Clocked, Step;
      StepRemembers(Run(eth, ip, front), eth, ip, front, e);
    }
  }

  /** In every run an address heard less than 30000 ms ago is known. */
  lemma KeptLongEnough(eth: EthernetAddress, ip: U32, es: seq<Event>, hop: U32)
    requires HeardAt(eth, ip, es, hop).Some? && ClockOf(es) < HeardAt(eth, ip, es, hop).value + 30000
    ensures hop in Run(eth, ip, es).iface.ipMap
  {
    hide Run, HeardAt, ClockOf;
    RunRemembers(eth, ip, es);
    RunSpaced(eth, ip, es);
  }

  /** And a tick forgets exactly those heard 30000 ms ago or more, as far as 32 bits can tell. */
  lemma ForgottenIff(eth: EthernetAddress, ip: U32, es: seq<Event>, hop: U32, ms: nat)
    requires hop in Run(eth, ip, es).iface.ipMap
    ensures HeardAt(eth, ip, es, hop).Some? && HeardAt(eth, ip, es, hop).value <= ClockOf(es)
    ensures hop !in Step(Run(eth, ip, es), Time(ms)).iface.ipMap <==>
            (ClockOf(es) + ms - HeardAt(eth, ip, es, hop).value) % 0x1_0000_0000 >= 30000
  {
    var w := Run(eth, ip, es);
    RunRemembers(eth, ip, es);
    RunSpaced(eth, ip, es);
    hide Run, HeardAt, ClockOf;
    TickForgets(w, ms, hop);
    ElapsedClocked(w, ms);
    hide StepTime;
    assert StepTime(w, ms).clock == w.clock + ms by { TimeFields(w, ms); }
  }
}
