/** The shell only drives the engines: every run of the shell is, for the two engines, one of the
    runs of ByteNetwork.dfy, whose actions are the shell's trace. */
module ShellTrace {
  import opened Word
  import opened Protocol
  import opened EngineSpec
  import opened Packing
  import opened Network
  import opened ByteNetwork
  import opened ActorSpec
  import opened StreamSpec
  import opened Shell

  lemma {:induction false} RunBytesAppend(sys: ByteSystem, a: seq<Action>, b: seq<Action>)
    ensures RunBytes(sys, a + b) == RunBytes(RunBytes(sys, a), b)
    decreases |b|
  {
    if b == [] {
      assert a + b == a;
    } else {
      var init, last := b[..|b| - 1], b[|b| - 1];
      assert (a + b)[..|a + b| - 1] == a + init && (a + b)[|a + b| - 1] == last;
      hide ApplyBytes;
      RunBytesAppend(sys, a, init);
    }
  }

  lemma RunOne(sys: ByteSystem, a: Action)
    ensures RunBytes(sys, [a]) == ApplyBytes(sys, a)
  {
    var one := [a];
    assert one[..0] == [] && RunBytes(sys, one[..0]) == sys;
    hide ApplyBytes;
  }

  lemma RunThen(sys: ByteSystem, a: Action, rest: seq<Action>)
    ensures RunBytes(sys, [a] + rest) == RunBytes(ApplyBytes(sys, a), rest)
  {
    hide ApplyBytes;
    RunOne(sys, a);
    RunBytesAppend(sys, [a], rest);
  }

  // ---- A flush does not look at datagrams already finished ----

  function Carry(q: seq<seq<Wire>>, s: State): State {
    s.(out := Output(q + s.out.queue, s.out.pending))
  }

  lemma {:induction false} OutputCarries(q: seq<seq<Wire>>, out: Output, mtu: int, ws: seq<Wire>)
    ensures var r := OutputAll(out, mtu, ws);
            OutputAll(Output(q + out.queue, out.pending), mtu, ws) == Output(q + r.queue, r.pending)
    decreases |ws|
  {
    if ws != [] {
      hide DatagramSize;
      OutputCarries(q, out, mtu, ws[..|ws| - 1]);
      var r := OutputAll(out, mtu, ws[..|ws| - 1]);
      assert q + (r.queue + [r.pending]) == (q + r.queue) + [r.pending];
    }
  }

  lemma EmitCarries(q: seq<seq<Wire>>, s: State, ws: seq<Wire>)
    ensures Emit(Carry(q, s), ws) == Carry(q, Emit(s, ws))
  {
    OutputCarries(q, s.out, s.cfg.mtu, ws);
    hide OutputAll;
  }

  lemma {:induction false} MoveCarries(q: seq<seq<Wire>>, s: State, now: u32)
    ensures MoveToSendBuf(Wrapping, Carry(q, s), now) == Carry(q, MoveToSendBuf(Wrapping, s, now))
    decreases |s.sndQueue|
  {
    hide Before, Add;
    if s.sndQueue != [] && Before(Wrapping, s.sndNxt, Add(Wrapping, s.sndUna, EffectiveWindow(s))) {
      MoveCarries(q, NumberOne(Wrapping, s, now), now);
    }
  }

  lemma AcksCarry(q: seq<seq<Wire>>, s: State)
    ensures FlushAcks(Carry(q, s)) == Carry(q, FlushAcks(s))
  {
    hide OutputAll;
    assert AckWires(Carry(q, s)) == AckWires(s);
    EmitCarries(q, s, AckWires(s));
  }

  lemma ProbeCarries(q: seq<seq<Wire>>, s: State, now: u32)
    ensures HandleWindowProbe(Carry(q, s), now) == Carry(q, HandleWindowProbe(s, now))
  {
    hide OutputAll, ProbeTimer;
    var s1 := s.(probe := ProbeTimer(s.probe, s.wnd.rmt, now));
    assert ProbeWires(Carry(q, s1), now) == ProbeWires(s1, now);
    EmitCarries(q, s1, ProbeWires(s1, now));
  }

  lemma LossCarries(q: seq<seq<Wire>>, s: State, lost: bool, change: bool)
    ensures UpdateCongestionOnLoss(Wrapping, Carry(q, s), lost, change)
         == Carry(q, UpdateCongestionOnLoss(Wrapping, s, lost, change))
  {
    hide OnFastLoss, OnTimeoutLoss, ResetCwnd;
  }

  lemma DataCarries(q: seq<seq<Wire>>, s: State, now: u32)
    ensures var (r, ok) := FlushDataSegments(Wrapping, s, now);
            FlushDataSegments(Wrapping, Carry(q, s), now) == (Carry(q, r), ok)
  {
    hide OutputAll, MarkOf, Marked, ToSend, ThroughDead, AnyDead, AnyMark, Emit, UpdateCongestionOnLoss;
    var segs := ThroughDead(ToSend(s.cfg, s.rtt.rto, s.sndBuf, now), s.cfg.deadLink);
    var s1 := s.(sndBuf := MarkAll(s.cfg, s.rtt.rto, s.sndBuf, now));
    assert DataWires(Carry(q, s), segs) == DataWires(s, segs);
    EmitCarries(q, s1, DataWires(s, segs));
    var lost, change := AnyMark(s.cfg, s.sndBuf, now, Timeout), AnyMark(s.cfg, s.sndBuf, now, Fast);
    LossCarries(q, Emit(s1, DataWires(s, segs)), lost, change);
  }

  lemma FlushCarries(q: seq<seq<Wire>>, s: State, now: u32)
    ensures var (r, ok) := Flush(Wrapping, s, now);
            Flush(Wrapping, Carry(q, s), now) == (Carry(q, r), ok)
  {
    hide FlushAcks, HandleWindowProbe, MoveToSendBuf, FlushDataSegments;
    AcksCarry(q, s);
    ProbeCarries(q, FlushAcks(s), now);
    MoveCarries(q, HandleWindowProbe(FlushAcks(s), now), now);
    DataCarries(q, MoveToSendBuf(Wrapping, HandleWindowProbe(FlushAcks(s), now), now), now);
    var r := FlushDataSegments(Wrapping, MoveToSendBuf(Wrapping, HandleWindowProbe(FlushAcks(s), now), now), now).0;
    assert q + (r.out.queue + [r.out.pending]) == (q + r.out.queue) + [r.out.pending];
  }

  lemma EncodeAllAppend(a: seq<seq<Wire>>, b: seq<seq<Wire>>)
    ensures EncodeAll(a + b) == EncodeAll(a) + EncodeAll(b)
  {
  }

  /** A flush and a keep-alive probe handed over together are what they are handed over one by one. */
  lemma HandOverTogether(e: Endpoint, now: u32)
    ensures HandOver(ProbeOnly(FlushOnly(e, now).0, now).0) == EndKeepAlive(EndFlush(e, now), now)
  {
    hide Flush;
    var s1 := Flush(Wrapping, e.eng, now).0;
    var asked := Drain(s1).(probe := s1.probe.(askSend := true));
    assert s1.(probe := s1.probe.(askSend := true)) == Carry(s1.out.queue, asked);
    FlushCarries(s1.out.queue, asked, now);
    var s2 := Flush(Wrapping, asked, now).0;
    EncodeAllAppend(s1.out.queue, s2.out.queue);
    assert e.net + EncodeAll(s1.out.queue) + EncodeAll(s2.out.queue)
        == e.net + (EncodeAll(s1.out.queue) + EncodeAll(s2.out.queue));
  }

  // ---- Each part of a turn runs its actions ----

  lemma {:induction false} DrainRuns(sys: ByteSystem, who: Side, a: Actor)
    requires EndAt(sys, who) == a.end
    ensures RunBytes(sys, DrainActions(who, a)) == EndWith(sys, who, DrainRecv(a).end)
    decreases DATA_CAPACITY - |a.dataTx|
  {
    hide Recv;
    if !a.readerGone && |a.dataTx| < DATA_CAPACITY {
      var got, e1 := Recv(Wrapping, a.end.eng).1, EndRecv(a.end);
      var sys1 := EndWith(sys, who, e1);
      hide EndRecv, RunBytes;
      if got.Some? {
        var a1 := a.(end := e1, dataTx := a.dataTx + [got.value]);
        DrainRuns(sys1, who, a1);
        RunThen(sys, Action.Read(who), DrainActions(who, a1));
      } else {
        RunOne(sys, Action.Read(who));
      }
    }
  }

  lemma {:induction false} AbsorbRuns(sys: ByteSystem, who: Side, a: Actor, all: bool)
    requires EndAt(sys, who) == a.end
    ensures RunBytes(sys, AbsorbActions(who, a, all)) == EndWith(sys, who, Absorb(a, all).end)
    decreases |a.sendRx|
  {
    hide EndSend;
    if a.sendRx != [] && (all || |a.end.eng.sndQueue| < SendHighWater(a.end.eng.cfg)) {
      hide RunBytes;
      AbsorbRuns(EndWith(sys, who, TakeOne(a).end), who, TakeOne(a), all);
      RunThen(sys, Submit(who, a.sendRx[0]), AbsorbActions(who, TakeOne(a), all));
    }
  }

  lemma FlushThenDrain(sys: ByteSystem, who: Side, a: Actor, now: u32)
    requires EndAt(sys, who) == a.end
    ensures var a1 := a.(end := EndFlush(a.end, now));
            RunBytes(sys, [Transmit(who, now)] + DrainActions(who, a1)) == EndWith(sys, who, DrainRecv(a1).end)
  {
    hide EndFlush, DrainRecv, DrainActions, RunBytes;
    var a1 := a.(end := EndFlush(a.end, now));
    RunThen(sys, Transmit(who, now), DrainActions(who, a1));
    DrainRuns(EndWith(sys, who, a1.end), who, a1);
  }

  lemma TimerRuns(sys: ByteSystem, who: Side, a: Actor, now: u32, silence: Silence)
    requires EndAt(sys, who) == a.end && a.exit.Running?
    ensures RunBytes(sys, EventActions(who, a, Timer(now, silence))) == EndWith(sys, who, OnTimer(a, now, silence).end)
  {
    hide Flush, DrainRecv, DrainActions, RunBytes;
    var (e1, ok1) := FlushOnly(a.end, now);
    if !ok1 || silence.Dead? {
      RunNothing(sys);
    } else if silence.Live? {
      FlushThenDrain(sys, who, a, now);
    } else {
      var (e2, ok2) := ProbeOnly(e1, now);
      if !ok2 { RunNothing(sys); } else { ProbeRuns(sys, who, a, now); }
    }
  }

  lemma RunNothing(sys: ByteSystem)
    ensures RunBytes(sys, []) == sys
  {
  }

  lemma ProbeRuns(sys: ByteSystem, who: Side, a: Actor, now: u32)
    requires EndAt(sys, who) == a.end
    ensures var a1 := a.(end := HandOver(ProbeOnly(FlushOnly(a.end, now).0, now).0));
            RunBytes(sys, [Transmit(who, now), KeepAlive(who, now)] + DrainActions(who, a1))
            == EndWith(sys, who, DrainRecv(a1).end)
  {
    hide EndFlush, EndKeepAlive, DrainRecv, DrainActions, RunBytes, FlushOnly, ProbeOnly, HandOver;
    HandOverTogether(a.end, now);
    var a1 := a.(end := EndKeepAlive(EndFlush(a.end, now), now));
    var rest := DrainActions(who, a1);
    assert [Transmit(who, now), KeepAlive(who, now)] + rest == [Transmit(who, now)] + ([KeepAlive(who, now)] + rest);
    RunThen(sys, Transmit(who, now), [KeepAlive(who, now)] + rest);
    var sys1 := EndWith(sys, who, EndFlush(a.end, now));
    RunThen(sys1, KeepAlive(who, now), rest);
    DrainRuns(EndWith(sys1, who, a1.end), who, a1);
  }

  lemma CloseRuns(sys: ByteSystem, who: Side, a: Actor, now: u32)
    requires EndAt(sys, who) == a.end && Enabled(a, CloseCommand(now))
    ensures RunBytes(sys, EventActions(who, a, CloseCommand(now))) == EndWith(sys, who, OnClose(a, now).end)
  {
    hide EndFlush, Absorb, AbsorbActions, RunBytes;
    AbsorbRuns(sys, who, a, true);
    RunBytesAppend(sys, AbsorbActions(who, a, true), [Transmit(who, now)]);
    RunOne(EndWith(sys, who, Absorb(a, true).end), Transmit(who, now));
  }

  lemma OutboundRuns(sys: ByteSystem, who: Side, a: Actor, now: u32)
    requires EndAt(sys, who) == a.end && Enabled(a, Outbound(now))
    ensures RunBytes(sys, EventActions(who, a, Outbound(now))) == EndWith(sys, who, OnOutbound(a, now).end)
  {
    hide EndFlush, EndSend, Absorb, AbsorbActions, RunBytes, FlushOnly;
    var first, a0 := Submit(who, a.sendRx[0]), TakeOne(a);
    var a1, more := Absorb(a0, false), AbsorbActions(who, a0, false);
    var tail := if FlushOnly(a1.end, now).1 then [Transmit(who, now)] else [];
    var sys0 := EndWith(sys, who, a0.end);
    AbsorbRuns(sys0, who, a0, false);
    assert [first] + more + tail == [first] + (more + tail);
    RunThen(sys, first, more + tail);
    RunBytesAppend(sys0, more, tail);
    var sys1 := EndWith(sys, who, a1.end);
    if FlushOnly(a1.end, now).1 { RunOne(sys1, Transmit(who, now)); } else { RunNothing(sys1); }
  }

  lemma EventRuns(sys: ByteSystem, who: Side, a: Actor, ev: Event)
    requires EndAt(sys, who) == a.end && Enabled(a, ev) && !ev.Packet?
    ensures RunBytes(sys, EventActions(who, a, ev)) == EndWith(sys, who, OnEvent(a, ev).end)
  {
    hide EndFlush, OnTimer, OnClose, OnOutbound, RunBytes;
    match ev
    case Timer(now, silence) => TimerRuns(sys, who, a, now, silence);
    case FlushCommand(now) => RunOne(sys, Transmit(who, now));
    case CloseCommand(now) => CloseRuns(sys, who, a, now);
    case InputClosed => RunNothing(sys);
    case Outbound(now) => OutboundRuns(sys, who, a, now);
    case WritersGone => RunNothing(sys);
  }

  lemma PacketRuns(sys: ByteSystem, who: Side, a: Actor, index: nat, now: u32)
    requires EndAt(sys, who) == a.end && a.exit.Running?
    requires index < |EndAt(sys, Other(who)).net|
    ensures var data := EndAt(sys, Other(who)).net[index];
            RunBytes(sys, PacketActions(who, a, data, index, now)) == EndWith(sys, who, OnPacket(a, data, now).end)
  {
    hide EndFlush, EndInput, FlushOnly, RunBytes, DrainRecv, DrainActions;
    var a1 := a.(end := EndInput(a.end, EndAt(sys, Other(who)).net[index], now));
    var sys1 := EndWith(sys, who, a1.end);
    if FlushOnly(a1.end, now).1 {
      var rest := [Transmit(who, now)] + DrainActions(who, a1.(end := EndFlush(a1.end, now)));
      RunThen(sys, Action.Deliver(who, index, now), rest);
      FlushThenDrain(sys1, who, a1, now);
    } else {
      RunThen(sys, Action.Deliver(who, index, now), []);
      RunNothing(sys1);
    }
  }

  lemma CheckRuns(sys: ByteSystem, who: Side, a: Actor, now: u32, late: bool)
    requires EndAt(sys, who) == a.end
    ensures RunBytes(sys, CheckActions(who, a, now, late)) == EndWith(sys, who, CloseCheck(a, now, late).end)
  {
    hide EndFlush, RunBytes;
    RunNothing(sys);
    RunOne(sys, Transmit(who, now));
  }

  /** The engine calls of one step, as actions: the part of the trace it adds. */
  lemma StepRuns(w: World, mv: Move)
    ensures w.trace <= ShellStep(w, mv).trace
    ensures RunBytes(Ends(w), ShellStep(w, mv).trace[|w.trace|..]) == Ends(ShellStep(w, mv))
  {
    hide EventActions, PacketActions, CheckActions, OnEvent, CloseCheck, RunBytes, PollWrite, PollRead, SendMessage,
         ReceiveMessage;
    RunNothing(Ends(w));
    var a, sys, r := PeerAt(w, mv.who).actor, Ends(w), ShellStep(w, mv);
    assert w.trace[|w.trace|..] == [];
    match mv
    case ActorTurn(who, ev, now, late) =>
      if Enabled(a, ev) && !ev.Packet? {
        var es, cs := EventActions(who, a, ev), CheckActions(who, OnEvent(a, ev), now, late);
        assert r.trace[|w.trace|..] == es + cs;
        EventRuns(sys, who, a, ev);
        RunBytesAppend(sys, es, cs);
        CheckRuns(EndWith(sys, who, OnEvent(a, ev).end), who, OnEvent(a, ev), now, late);
      }
    case Arrival(who, index, now, late) =>
      var net := EndAt(sys, Other(who)).net;
      if index < |net| && a.exit.Running? {
        ArrivalRuns(w, who, index, now, late);
      }
    case _ =>
  }

  lemma ArrivalRuns(w: World, who: Side, index: nat, now: u32, late: bool)
    requires index < |EndAt(Ends(w), Other(who)).net| && PeerAt(w, who).actor.exit.Running?
    ensures var r := ShellStep(w, Arrival(who, index, now, late));
            w.trace <= r.trace && RunBytes(Ends(w), r.trace[|w.trace|..]) == Ends(r)
  {
    hide PacketActions, CheckActions, OnPacket, CloseCheck, RunBytes;
    var a, sys, r := PeerAt(w, who).actor, Ends(w), ShellStep(w, Arrival(who, index, now, late));
    var data := EndAt(sys, Other(who)).net[index];
    var ev := Packet(data, now);
    var es, cs := PacketActions(who, a, data, index, now), CheckActions(who, OnEvent(a, ev), now, late);
    assert r.trace[|w.trace|..] == es + cs;
    PacketRuns(sys, who, a, index, now);
    RunBytesAppend(sys, es, cs);
    CheckRuns(EndWith(sys, who, OnEvent(a, ev).end), who, OnEvent(a, ev), now, late);
  }

  /** Every run of the shell drives its two engines through a run of the byte-level system. */
  lemma {:induction false} TraceIsRun(conv: u32, left: Config, right: Config, moves: seq<Move>)
    ensures var w := ShellRun(NewWorld(conv, left, right), moves);
            Ends(w) == RunBytes(InitBytes(conv, left, right), w.trace)
    decreases |moves|
  {
    hide RunBytes, ShellStep;
    var init := InitBytes(conv, left, right);
    if moves == [] {
      RunNothing(init);
    } else {
      var w := ShellRun(NewWorld(conv, left, right), moves[..|moves| - 1]);
      var w1 := ShellStep(w, moves[|moves| - 1]);
      TraceIsRun(conv, left, right, moves[..|moves| - 1]);
      StepRuns(w, moves[|moves| - 1]);
      assert w1.trace == w.trace + w1.trace[|w.trace|..];
      RunBytesAppend(init, w.trace, w1.trace[|w.trace|..]);
    }
  }
}
