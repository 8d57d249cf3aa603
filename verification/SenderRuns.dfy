/** Every run of a sender on its own, against an arbitrary peer. */
module SenderRuns {
  import opened Wrapping
  import opened ByteStreams
  import opened Segments
  import opened Senders
  import opened SenderProofs

  datatype Event =
    | Ack(ackno: U32, win: U16)
    | Fill
    | Write(data: seq<Byte>)
    | End
    | Time(ms: nat)
    | EmptyAck
    | Drain

  /** Writing stops at the end of the input and stays within 64-bit sequence numbers. */
  ghost predicate Enabled(s: Sender, e: Event) {
    && s.stream.Valid()
    && (e.Write? ==> !s.stream.ended && |s.stream.written| + |e.data| + 2 < 0xFFFF_FFFF_FFFF_FFFF)
  }

  ghost function Step(s: Sender, e: Event): Sender
    requires Enabled(s, e)
  {
    match e
    case Ack(ackno, win) => AckReceived(s, ackno, win)
    case Fill => FillWindow(s)
    case Write(data) => WriteStream(s, data)
    case End => EndStream(s)
    case Time(ms) => Tick(s, ms)
    case EmptyAck => SendEmptyAck(s)
    case Drain => s.(out := [])
  }

  ghost predicate ValidRun(s: Sender, es: seq<Event>)
    decreases |es|
  {
    es == [] || (Enabled(s, es[0]) && ValidRun(Step(s, es[0]), es[1..]))
  }

  ghost function Run(s: Sender, es: seq<Event>): Sender
    requires ValidRun(s, es)
    decreases |es|
  {
    if es == [] then s else Run(Step(s, es[0]), es[1..])
  }

  /** The right edge an event advertises, if the sender accepts the ack. */
  ghost function EdgeOf(s: Sender, e: Event): nat {
    if e.Ack? && Accepts(s, e.ackno) then AbsAck(s, e.ackno) + e.win else 0
  }

  /** The highest right edge among `floor` and all acks accepted during the run. */
  ghost function HighestEdge(floor: nat, s: Sender, es: seq<Event>): nat
    requires ValidRun(s, es)
    decreases |es|
  {
    if es == [] then floor else HighestEdge(Max(floor, EdgeOf(s, es[0])), Step(s, es[0]), es[1..])
  }

  lemma StepKeepsInv(s: Sender, e: Event)
    requires Enabled(s, e) && SenderInv(s)
    ensures SenderInv(Step(s, e))
  {
    hide SenderInv, AckReceived, FillWindow, Tick, SendEmptyAck;
    match e
    case Ack(ackno, win) => AckReceivedKeeps(s, ackno, win);
    case Fill => FillKeepsInv(s);
    case Write(data) => WriteKeeps(s, data);
    case End => EndKeeps(s);
    case Time(ms) => TickKeeps(s, ms);
    case EmptyAck => SendEmptyAckKeeps(s);
    case Drain => DrainKeeps(s);
  }

  lemma StepKeepsTimer(s: Sender, e: Event)
    requires Enabled(s, e) && SenderInv(s) && TimerInv(s)
    ensures TimerInv(Step(s, e))
  {
    hide AckReceived, FillWindow, Tick;
    match e
    case Ack(ackno, win) => AckKeepsTimer(s, ackno, win);
    case Fill => FillKeepsTimer(s);
    case Write(data) =>
    case End =>
    case Time(ms) => TickKeepsTimer(s, ms);
    case EmptyAck =>
    case Drain =>
  }

  lemma StepEdge(s: Sender, e: Event)
    requires Enabled(s, e) && SenderInv(s)
    ensures Step(s, e).edge == Max(s.edge, EdgeOf(s, e))
  {
    match e
    case Ack(ackno, win) =>
      if Accepts(s, ackno) {
        hide FillOrProbe, TakeAck;
        TakeAckKeeps(s, AbsAck(s, ackno), win);
        FillOrProbeKeeps(TakeAck(s, AbsAck(s, ackno), win), win);
      }
    case Fill => FillWindowKeeps(s);
    case Write(data) =>
    case End =>
    case Time(ms) =>
    case EmptyAck =>
    case Drain =>
  }

  lemma {:induction false} RunFrom(s: Sender, es: seq<Event>)
    requires ValidRun(s, es) && SenderInv(s) && TimerInv(s)
    ensures SenderInv(Run(s, es)) && TimerInv(Run(s, es))
    ensures Run(s, es).edge == HighestEdge(s.edge, s, es)
    decreases |es|
  {
    hide SenderInv, TimerInv, Step, EdgeOf;
    if es == [] {
    } else {
      StepKeepsInv(s, es[0]);
      StepKeepsTimer(s, es[0]);
      StepEdge(s, es[0]);
      RunFrom(Step(s, es[0]), es[1..]);
    }
  }

  lemma InitialSender(isn: U32, rto: nat, capacity: nat)
    ensures SenderInv(InitSender(isn, rto, capacity))
  {
  }

  /** In every run, whatever acks arrive: the queue tiles the numbers in flight, everything emitted is
      genuine, at most one probe passes the edge, the edge is the highest one ever accepted, and the
      timer law holds. */
  lemma EveryRun(isn: U32, rto: nat, capacity: nat, es: seq<Event>)
    requires rto > 0 && ValidRun(InitSender(isn, rto, capacity), es)
    ensures var s := Run(InitSender(isn, rto, capacity), es);
            && SenderInv(s) && TimerInv(s)
            && s.BytesInFlight() == TotalLen(s.inflight)
            && s.edge == HighestEdge(1, InitSender(isn, rto, capacity), es)
  {
    var s0 := InitSender(isn, rto, capacity);
    InitialSender(isn, rto, capacity);
    TimerInit(isn, rto, capacity);
    RunFrom(s0, es);
    var s := Run(s0, es);
    TilesTotal(s.inflight, s.ack, s.next, TextOf(s));
  }
}
