/** Every run of a network interface: spacing of requests, conservation and order of datagrams, and the
    address each frame is sent to. */
module ArpRuns {
  import opened Wrapping
  import opened ByteStreams
  import opened Arp

  datatype Event = Send(datagram: seq<Byte>, hop: U32) | Recv(frame: Frame) | Time(ms: nat)

  /** An emission and the true time at which it happened. */
  datatype Stamped = Stamped(emit: Emit, time: nat)

  /** The interface with a clock that never wraps, the log of everything emitted, and the true times behind
      the entries of its two time tables. */
  datatype World = World(iface: Iface, clock: nat, log: seq<Stamped>,
                         askedAt: map<U32, nat>, learnedAt: map<U32, nat>)

  function Boot(eth: EthernetAddress, ip: U32): World {
    World(InitIface(eth, ip), 0, [], map[], map[])
  }

  function StampAt(emitted: seq<Emit>, time: nat): (r: seq<Stamped>)
    ensures |r| == |emitted|
    ensures forall k :: 0 <= k < |r| ==> r[k] == Stamped(emitted[k], time)
  {
    if emitted == [] then [] else StampAt(emitted[..|emitted| - 1], time) + [Stamped(emitted[|emitted| - 1], time)]
  }

  /** The ARP message a frame brings, if the interface understands one. */
  function Heard(i: Iface, frame: Frame): Option<ArpMessage> {
    if ForUs(i, frame) && frame.etype != TYPE_IPV4 && frame.payload.ArpOf? then Some(frame.payload.msg) else None
  }

  function StepSend(w: World, datagram: seq<Byte>, hop: U32): World {
    var o := SendDatagram(w.iface, datagram, hop);
    w.(iface := o.iface, log := w.log + StampAt(o.emitted, w.clock),
       askedAt := if hop in w.iface.ipMap || Suppressed(w.iface, hop) then w.askedAt else w.askedAt[hop := w.clock])
  }

  function StepArp(w: World, msg: ArpMessage): World {
    var o := HandleArp(w.iface, msg);
    w.(iface := o.iface, log := w.log + StampAt(o.emitted, w.clock),
       learnedAt := w.learnedAt[msg.senderIp := w.clock],
       askedAt := if !AsksForUs(w.iface, msg) && msg.senderIp in w.iface.unsent then w.askedAt - {msg.senderIp}
                  else w.askedAt)
  }

  function StepTime(w: World, ms: nat): World {
    var i := Elapse(w.iface, ms);
    w.(iface := i, clock := w.clock + ms, learnedAt := w.learnedAt - (w.iface.mapTime.Keys - i.mapTime.Keys))
  }

  function Step(w: World, e: Event): World {
    match e
    case Send(datagram, hop) => StepSend(w, datagram, hop)
    case Recv(frame) => if Heard(w.iface, frame).Some? then StepArp(w, Heard(w.iface, frame).value) else w
    case Time(ms) => StepTime(w, ms)
  }

  function Run(eth: EthernetAddress, ip: U32, es: seq<Event>): World {
    if es == [] then Boot(eth, ip) else Step(Run(eth, ip, es[..|es| - 1]), es[|es| - 1])
  }

  /** A step does what the interface's own operation does: the interface value and, with the current time,
      exactly the frames it emits. */
  lemma StepIsOperation(w: World, e: Event)
    ensures e.Send? ==> var o := SendDatagram(w.iface, e.datagram, e.hop);
                        Step(w, e).iface == o.iface && Step(w, e).log == w.log + StampAt(o.emitted, w.clock)
    ensures e.Recv? ==> var o := RecvFrame(w.iface, e.frame);
                        Step(w, e).iface == o.iface && Step(w, e).log == w.log + StampAt(o.emitted, w.clock)
    ensures e.Time? ==> Step(w, e).iface == Elapse(w.iface, e.ms) && Step(w, e).log == w.log
  {
    if e.Recv? && Heard(w.iface, e.frame).None? {
      assert w.log + StampAt([], w.clock) == w.log;
    }
  }

  // ---- Clocks and tables ----

  /** A 32-bit time table against the true times behind it. */
  ghost predicate Tracks(table: map<U32, U32>, times: map<U32, nat>, clock: nat) {
    && table.Keys == times.Keys
    && forall h :: h in times ==> times[h] <= clock && table[h] == times[h] % 0x1_0000_0000
  }

  ghost predicate Clocked(w: World) {
    && w.iface.now == w.clock % 0x1_0000_0000
    && Tracks(w.iface.latestArp, w.askedAt, w.clock)
    && Tracks(w.iface.mapTime, w.learnedAt, w.clock)
    && w.iface.ipMap.Keys == w.iface.mapTime.Keys
  }

  /** A 32-bit difference never exceeds the true one. */
  lemma SinceAtMost(clock: nat, t: nat)
    requires t <= clock
    ensures Since(clock % 0x1_0000_0000, t % 0x1_0000_0000) <= clock - t
  {
  }

  lemma StepClocked(w: World, e: Event)
    requires Clocked(w)
    ensures Clocked(Step(w, e))
  {
    hide Clocked, StepSend, StepArp, StepTime;
    match e
    case Send(datagram, hop) => SendClocked(w, datagram, hop);
    case Recv(frame) => if Heard(w.iface, frame).Some? { ArpClocked(w, Heard(w.iface, frame).value); }
    case Time(ms) => ElapsedClocked(w, ms);
  }

  lemma SendClocked(w: World, datagram: seq<Byte>, hop: U32)
    requires Clocked(w)
    ensures Clocked(StepSend(w, datagram, hop))
  {
  }

  lemma ArpClocked(w: World, msg: ArpMessage)
    requires Clocked(w)
    ensures Clocked(StepArp(w, msg))
  {
  }

  lemma ElapsedClocked(w: World, ms: nat)
    requires Clocked(w)
    ensures Clocked(StepTime(w, ms))
  {
    var i := Elapse(w.iface, ms);
    assert i.mapTime.Keys <= w.iface.mapTime.Keys;
    assert (w.clock % 0x1_0000_0000 + ms) % 0x1_0000_0000 == (w.clock + ms) % 0x1_0000_0000;
  }

  // ---- Request spacing ----

  /** Why no new request for `h` can go out within the gap after time `t`. */
  predicate Blocked(w: World, h: U32, t: nat) {
    || (h in w.askedAt && t <= w.askedAt[h])
    || (h in w.learnedAt && t <= w.learnedAt[h])
    || t + REQUEST_GAP <= w.clock
  }

  ghost predicate AllBlocked(w: World) {
    forall k :: 0 <= k < |w.log| ==>
      w.log[k].time <= w.clock && (w.log[k].emit.Ask? ==> Blocked(w, w.log[k].emit.hop, w.log[k].time))
  }

  /** Requests for the same hop are at least five seconds apart. */
  ghost predicate Spaced(log: seq<Stamped>) {
    forall j, k ::
      0 <= j < k < |log| && log[j].emit.Ask? && log[k].emit.Ask? && log[j].emit.hop == log[k].emit.hop ==>
        log[j].time + REQUEST_GAP <= log[k].time
  }

  /** A request really goes out only when every earlier one for that hop is long past. */
  lemma AskIsLate(w: World, hop: U32, t: nat)
    requires Clocked(w) && Blocked(w, hop, t) && hop !in w.iface.ipMap && !Suppressed(w.iface, hop)
    ensures t + REQUEST_GAP <= w.clock
  {
    if hop in w.askedAt {
      SinceAtMost(w.clock, w.askedAt[hop]);
    }
  }

  /** Emissions that contain no request leave the spacing alone. */
  lemma QuietAppend(w: World, w': World, more: seq<Emit>)
    requires Spaced(w.log) && AllBlocked(w) && w'.log == w.log + StampAt(more, w.clock) && w'.clock == w.clock
    requires forall k :: 0 <= k < |more| ==> !more[k].Ask?
    requires forall h: U32, t: nat :: t <= w.clock && Blocked(w, h, t) ==> Blocked(w', h, t)
    ensures Spaced(w'.log) && AllBlocked(w')
  {
    hide Blocked, StampAt;
    var n := |w.log|;
    forall k | 0 <= k < |w'.log|
      ensures w'.log[k].time <= w'.clock
      ensures w'.log[k].emit.Ask? ==>
                k < n && w'.log[k] == w.log[k] && Blocked(w', w'.log[k].emit.hop, w'.log[k].time)
    {
      if k >= n {
        assert w'.log[k] == Stamped(more[k - n], w.clock);
      }
    }
  }

  lemma SendSpaced(w: World, datagram: seq<Byte>, hop: U32)
    requires Clocked(w) && Spaced(w.log) && AllBlocked(w)
    ensures Spaced(StepSend(w, datagram, hop).log) && AllBlocked(StepSend(w, datagram, hop))
  {
    var w' := StepSend(w, datagram, hop);
    var o := SendDatagram(w.iface, datagram, hop);
    if hop in w.iface.ipMap || Suppressed(w.iface, hop) {
      QuietAppend(w, w', o.emitted);
    } else {
      AskSpaced(w, w', hop);
    }
  }

  lemma AskSpaced(w: World, w': World, hop: U32)
    requires Clocked(w) && Spaced(w.log) && AllBlocked(w) && hop !in w.iface.ipMap && !Suppressed(w.iface, hop)
    requires w'.log == w.log + StampAt([Ask(hop, RequestFrame(w.iface, hop))], w.clock)
    requires w'.clock == w.clock && w'.askedAt == w.askedAt[hop := w.clock] && w'.learnedAt == w.learnedAt
    ensures Spaced(w'.log) && AllBlocked(w')
  {
    var n := |w.log|;
    assert w'.log[n] == Stamped(Ask(hop, RequestFrame(w.iface, hop)), w.clock);
    forall j | 0 <= j < n && w.log[j].emit.Ask? && w.log[j].emit.hop == hop
      ensures w.log[j].time + REQUEST_GAP <= w.clock
    {
      AskIsLate(w, hop, w.log[j].time);
    }
  }

  lemma ArpSpaced(w: World, msg: ArpMessage)
    requires Clocked(w) && Spaced(w.log) && AllBlocked(w)
    ensures Spaced(StepArp(w, msg).log) && AllBlocked(StepArp(w, msg))
  {
    var w' := StepArp(w, msg);
    forall h: U32, t: nat | t <= w.clock && Blocked(w, h, t)
      ensures Blocked(w', h, t)
    {
      LearnedBlocks(w, msg, h, t);
    }
    AnsweringIsQuiet(w.iface, msg);
    hide Blocked, HandleArp;
    QuietAppend(w, w', HandleArp(w.iface, msg).emitted);
  }

  /** Learning an address blocks further requests for it, whatever record of them is erased. */
  lemma LearnedBlocks(w: World, msg: ArpMessage, h: U32, t: nat)
    requires t <= w.clock && Blocked(w, h, t)
    ensures Blocked(StepArp(w, msg), h, t)
  {
  }

  lemma AnsweringIsQuiet(i: Iface, msg: ArpMessage)
    ensures forall k :: 0 <= k < |HandleArp(i, msg).emitted| ==> !HandleArp(i, msg).emitted[k].Ask?
  {
  }

  /** A mapping is forgotten only thirty seconds after it was learned, long after any request before it. */
  lemma TimeSpaced(w: World, ms: nat)
    requires Clocked(w) && Spaced(w.log) && AllBlocked(w)
    ensures Spaced(StepTime(w, ms).log) && AllBlocked(StepTime(w, ms))
  {
    var w' := StepTime(w, ms);
    ElapsedClocked(w, ms);
    forall h: U32, t: nat | t <= w.clock && Blocked(w, h, t)
      ensures Blocked(w', h, t)
    {
      if h in w.learnedAt && h !in w'.learnedAt {
        SinceAtMost(w'.clock, w.learnedAt[h]);
      }
    }
  }

  lemma {:induction false} RunSpaced(eth: EthernetAddress, ip: U32, es: seq<Event>)
    ensures var w := Run(eth, ip, es);
            Clocked(w) && Spaced(w.log) && AllBlocked(w)
  {
    if es == [] {
    } else {
      var e := es[|es| - 1];
      var w := Run(eth, ip, es[..|es| - 1]);
      RunSpaced(eth, ip, es[..|es| - 1]);
      StepClocked(w, e);
      hide Clocked, Spaced, AllBlocked, StepSend, StepArp, StepTime;
      match e
      case Send(datagram, hop) => SendSpaced(w, datagram, hop);
      case Recv(frame) => if Heard(w.iface, frame).Some? { ArpSpaced(w, Heard(w.iface, frame).value); }
      case Time(ms) => TimeSpaced(w, ms);
    }
  }

  /** In every run, two requests for the same next hop are at least five seconds of true time apart, although
      a reply erases the record of the last request and the 32-bit clock wraps. */
  lemma RequestsAreSpaced(eth: EthernetAddress, ip: U32, es: seq<Event>, j: nat, k: nat)
    requires j < k < |Run(eth, ip, es).log|
    requires var log := Run(eth, ip, es).log;
             log[j].emit.Ask? && log[k].emit.Ask? && log[j].emit.hop == log[k].emit.hop
    ensures var log := Run(eth, ip, es).log; log[j].time + 5000 <= log[k].time
  {
    hide Run;
    RunSpaced(eth, ip, es);
  }

  /** In every run the two cache tables know the same addresses. */
  lemma TablesAgree(eth: EthernetAddress, ip: U32, es: seq<Event>)
    ensures Run(eth, ip, es).iface.ipMap.Keys == Run(eth, ip, es).iface.mapTime.Keys
  {
    hide Run;
    RunSpaced(eth, ip, es);
  }
}
