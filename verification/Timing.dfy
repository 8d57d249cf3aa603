/** The timers against true time: when exactly a silent endpoint repeats itself and gives up, and what the sender's
    elapsed time and attempts mean in terms of the history. */
module Timing {
  import opened Wrapping
  import opened Segments
  import opened Senders
  import opened SenderProofs
  import opened Connections
  import opened Endpoints
  import opened GiveUp
  import R = SenderRuns

  function Sum(ts: seq<nat>): nat {
    if ts == [] then 0 else ts[0] + Sum(ts[1..])
  }

  // ---- Ticks against a silent peer ----

  /** A tick that does not reach the timeout only adds to the elapsed time; any other repeats the oldest segment. */
  lemma TickDecides(c: Conn, ms: nat)
    requires Waiting(c) && c.send.retx < MAX_RETX_ATTEMPTS
    ensures var o, s := OnTick(c, ms), c.send;
            if s.elapsed + ms < s.rto then o.sent == [] && o.conn.send == s.(elapsed := s.elapsed + ms)
            else o.sent != []
  {
    AckAtMostNext(c.send);
    TickInFlight(c, ms);
  }

  lemma TickRunStep(c: Conn, ts: seq<nat>)
    requires Waiting(c) && ts != []
    ensures OnTick(c, ts[0]).conn.Valid()
    ensures var o := OnTick(c, ts[0]);
            && TickRun(c, ts).sent == o.sent + TickRun(o.conn, ts[1..]).sent
            && TickRun(c, ts).conn == TickRun(o.conn, ts[1..]).conn
            && (ts[1..] == [] ==> TickRun(o.conn, ts[1..]).conn == o.conn && Resets(TickRun(o.conn, ts[1..]).sent) == 0)
  {
    TickValid(c, ts[0]);
    hide OnTick, SenderInv, TimerInv;
  }

  /** Nothing is sent until the ticks since the last restart add up to the timeout, and then something is. */
  lemma {:induction false} SilentIff(c: Conn, ts: seq<nat>)
    requires Waiting(c) && c.send.retx < MAX_RETX_ATTEMPTS
    ensures TickRun(c, ts).sent == [] <==> c.send.elapsed + Sum(ts) < c.send.rto
    decreases |ts|
  {
    if ts == [] {
    } else {
      hide OnTick, Waiting, Tick, Patience, Resets;
      TickDecides(c, ts[0]);
      TickWaits(c, ts[0]);
      TickRunStep(c, ts);
      hide TickRun;
      if c.send.elapsed + ts[0] < c.send.rto {
        SilentIff(OnTick(c, ts[0]).conn, ts[1..]);
      }
    }
  }

  /** A tick uses up no more patience than the time it takes. */
  lemma PatienceLasts(s: Sender, ms: nat)
    requires TimerInv(s) && s.inflight != [] && s.retx < MAX_RETX_ATTEMPTS
    ensures Patience(Tick(s, ms)) >= Patience(s) - ms
  {
    RtoBound(s.initialRto, s.retx);
    if s.retx == 7 {
      Pow2Table();
      assert s.initialRto * Pow2(7) == s.initialRto * 128;
    }
  }

  /** The other side of giving up in time: not before the ticks, all but the last, add up to the timeouts that are
      left. */
  lemma {:induction false} NotBeforeTime(c: Conn, ts: seq<nat>)
    requires Waiting(c) && ts != [] && Sum(ts[..|ts| - 1]) < Patience(c.send) - 1
    ensures TickRun(c, ts).conn.Active() && Resets(TickRun(c, ts).sent) == 0
    decreases |ts|
  {
    hide OnTick, Patience, SenderInv, TimerInv, Tick, Resets, Sum, TickRun;
    PatienceLeft(c.send);
    WaitsOn(c, ts[0]);
    TickRunStep(c, ts);
    var o := OnTick(c, ts[0]);
    if |ts| > 1 {
      SumHead(ts);
      NotBeforeTime(o.conn, ts[1..]);
    }
    ResetsConcat(o.sent, TickRun(o.conn, ts[1..]).sent);
  }

  lemma PatienceLeft(s: Sender)
    requires Patience(s) > 1
    ensures s.retx < MAX_RETX_ATTEMPTS
  {
  }

  lemma SumHead(ts: seq<nat>)
    requires |ts| > 1
    ensures Sum(ts[..|ts| - 1]) == ts[0] + Sum(ts[1..][..|ts[1..]| - 1])
  {
    assert ts[..|ts| - 1][1..] == ts[1..][..|ts[1..]| - 1];
  }

  lemma WaitsOn(c: Conn, ms: nat)
    requires Waiting(c) && c.send.retx < MAX_RETX_ATTEMPTS
    ensures var o := OnTick(c, ms);
            Waiting(o.conn) && o.conn.Active() && Resets(o.sent) == 0 && Patience(o.conn.send) >= Patience(c.send) - ms
  {
    PatienceLasts(c.send, ms);
    hide OnTick, Patience, Tick, Resets, SenderInv, TimerInv;
    TickWaits(c, ms);
  }

  lemma {:induction false} SumOfOnes(ts: seq<nat>)
    requires forall i :: 0 <= i < |ts| ==> ts[i] == 1
    ensures Sum(ts) == |ts|
  {
    if ts == [] {
    } else {
      SumOfOnes(ts[1..]);
    }
  }

  /** With ticks of one millisecond the moment is exact: every remaining timeout in full, and one tick more. */
  lemma GivesUpExactlyAt(c: Conn, ts: seq<nat>)
    requires Waiting(c) && Impatient(c.send) && (forall i :: 0 <= i < |ts| ==> ts[i] == 1)
    ensures GaveUp(TickRun(c, ts)) <==> |ts| >= Patience(c.send)
  {
    PatienceBound(c);
    if |ts| >= Patience(c.send) {
      SilenceEndsInReset(c, ts);
    } else if ts == [] {
    } else {
      hide TickRun;
      SumOfOnes(ts[..|ts| - 1]);
      NotBeforeTime(c, ts);
    }
  }

  // ---- Elapsed time and attempts as history ----

  /** Something new was acknowledged. */
  predicate AckRaised(s: Sender, s': Sender) {
    s'.ack > s.ack
  }

  /** A tick repeated a segment. */
  predicate Repeated(s: Sender, e: R.Event, s': Sender) {
    e.Time? && |s'.out| > |s.out|
  }

  /** True time since the last restart, counting ticks while something is in flight. The restarts are what can be
      seen from outside: something new acknowledged, or a segment repeated. */
  ghost function SinceRestart(since: nat, s: Sender, es: seq<R.Event>): nat
    requires R.ValidRun(s, es)
    decreases |es|
  {
    if es == [] then since
    else
      var s' := R.Step(s, es[0]);
      var now := if AckRaised(s, s') || Repeated(s, es[0], s') then 0
                 else if es[0].Time? && s.inflight != [] then since + es[0].ms
                 else since;
      SinceRestart(now, s', es[1..])
  }

  /** Repetitions since something new was last acknowledged, not counting those into a closed window. */
  ghost function Repetitions(count: nat, s: Sender, es: seq<R.Event>): nat
    requires R.ValidRun(s, es)
    decreases |es|
  {
    if es == [] then count
    else
      var s' := R.Step(s, es[0]);
      var now := if AckRaised(s, s') then 0
                 else if Repeated(s, es[0], s') && s.edge != s.ack then count + 1
                 else count;
      Repetitions(now, s', es[1..])
  }

  /** The timer is reset by exactly those acks that acknowledge something new. */
  lemma AckResets(s: Sender, ackno: U32, win: U16)
    requires SenderInv(s)
    ensures var s' := AckReceived(s, ackno, win);
            if AckRaised(s, s') then s'.elapsed == 0 && s'.retx == 0 && s'.rto == s.initialRto
            else s'.ack == s.ack && s'.elapsed == s.elapsed && s'.retx == s.retx && s'.rto == s.rto
    ensures AckReceived(s, ackno, win).initialRto == s.initialRto
  {
    if Accepts(s, ackno) {
      var a := AbsAck(s, ackno);
      AckUnfolds(s, ackno, win);
      TakeAckKeeps(s, a, win);
      TakeResets(s, a, win);
      hide AckReceived, TakeAck, FillOrProbe, AbsAck, SenderInv;
      FillOrProbeKeeps(TakeAck(s, a, win), win);
    }
  }

  lemma TakeResets(s: Sender, a: nat, win: U16)
    requires SenderInv(s) && s.ack <= a <= s.next
    ensures var s' := TakeAck(s, a, win);
            if AckRaised(s, s') then s'.elapsed == 0 && s'.retx == 0 && s'.rto == s.initialRto
            else s'.ack == s.ack && s'.elapsed == s.elapsed && s'.retx == s.retx && s'.rto == s.rto
  {
    PopAckedKeeps(s, a);
    PopKeepsStream(s, a);
    if s.inflight != [] && s.inflight[0].ackIndex <= a {
      PopAckedKeeps(s.(ack := s.inflight[0].ackIndex, inflight := s.inflight[1..]), a);
    }
    hide Piece, AllGenuine;
  }

  /** One step of the two histories. */
  lemma StepHistory(s: Sender, e: R.Event)
    requires R.Enabled(s, e) && SenderInv(s)
    ensures var s' := R.Step(s, e);
            && s'.initialRto == s.initialRto
            && s'.elapsed == (if AckRaised(s, s') || Repeated(s, e, s') then 0
                              else if e.Time? && s.inflight != [] then s.elapsed + e.ms else s.elapsed)
            && s'.retx == (if AckRaised(s, s') then 0
                           else if Repeated(s, e, s') && s.edge != s.ack then s.retx + 1 else s.retx)
  {
    match e
    case Ack(ackno, win) =>
      hide AckReceived, SenderInv;
      AckResets(s, ackno, win);
    case Fill =>
      FillWindowKeeps(s);
      hide FillWindow, Queued;
    case Write(_) =>
    case End =>
    case Time(ms) => hide SenderInv;
    case EmptyAck => hide SenderInv;
    case Drain =>
  }

  lemma {:induction false} HistoryFrom(s: Sender, es: seq<R.Event>)
    requires R.ValidRun(s, es) && SenderInv(s)
    ensures R.Run(s, es).elapsed == SinceRestart(s.elapsed, s, es)
    ensures R.Run(s, es).retx == Repetitions(s.retx, s, es) && R.Run(s, es).initialRto == s.initialRto
    decreases |es|
  {
    hide SenderInv, R.Step, R.Enabled, AckRaised, Repeated;
    if es == [] {
    } else {
      StepHistory(s, es[0]);
      R.StepKeepsInv(s, es[0]);
      HistoryFrom(R.Step(s, es[0]), es[1..]);
    }
  }

  /** In every run against an arbitrary peer the timer's elapsed time is the true time since the last restart, and
      the timeout is the initial one doubled once per repetition since something new was acknowledged. */
  lemma TimerIsTrue(isn: U32, rto: nat, capacity: nat, es: seq<R.Event>)
    requires rto > 0 && R.ValidRun(InitSender(isn, rto, capacity), es)
    ensures var s0 := InitSender(isn, rto, capacity);
            var s := R.Run(s0, es);
            && s.elapsed == SinceRestart(0, s0, es)
            && s.retx == Repetitions(0, s0, es) && s.rto == rto * Pow2(Repetitions(0, s0, es))
  {
    R.InitialSender(isn, rto, capacity);
    R.EveryRun(isn, rto, capacity, es);
    hide R.Run, R.ValidRun, SenderInv;
    HistoryFrom(InitSender(isn, rto, capacity), es);
  }
}
