/** The rules of the actor's turns, by what reaches the network: acknowledgements, data that is due or
    new, and probes go out in the turn that finds them; and when a turn ends the connection. */
module ActorRules {
  import opened Word
  import opened Protocol
  import opened EngineSpec
  import opened EngineRun
  import opened SendSide
  import opened Packing
  import opened Progress
  import opened Network
  import opened ByteNetwork
  import opened ActorSpec
  import opened Shell
  import opened ShellTrace
  import opened AckTiming
  import opened FlushRules

  // ---- What reaches the network ----

  /** The peer finds `w` in a datagram handed over between `e` and `r`. */
  ghost predicate Reaches(e: Endpoint, r: Endpoint, w: Wire) {
    exists k :: |e.net| <= k < |r.net| && w in ParseDatagram(r.net[k])
  }

  lemma {:induction false} MemberFits(ws: seq<Wire>, w: Wire)
    requires w in ws
    ensures |w.data| < DatagramSize(ws)
  {
    var init, last := ws[..|ws| - 1], ws[|ws| - 1];
    if w != last { MemberFits(init, w); }
  }

  /** What a flush puts out is in the datagrams it hands over. */
  lemma FlushReaches(e: Endpoint, now: u32, w: Wire)
    requires SizesInv(e.eng) && Flush(Wrapping, e.eng, now).1 && w in FlushWires(Wrapping, e.eng, now)
    ensures Reaches(e, EndFlush(e, now), WrapWire(w))
  {
    hide Flush, FlushWires, EncodeDatagram, ParseDatagram, Flatten;
    FlushEmits(Wrapping, e.eng, now);
    FlushKeepsSizes(Wrapping, e.eng, now);
    var out := Flush(Wrapping, e.eng, now).0.out;
    assert w in Emitted(e.eng.out) + FlushWires(Wrapping, e.eng, now);
    assert Emitted(out) == Flatten(out.queue);
    WireIsHanded(out.queue, w);
    var d :| d in out.queue && w in d;
    var k :| 0 <= k < |out.queue| && out.queue[k] == d;
    forall v | v in d ensures |v.data| < M32 { MemberFits(d, v); }
    DatagramRoundTrip(d);
    var j :| 0 <= j < |d| && d[j] == w;
    assert WrapWires(d)[j] == WrapWire(w);
    assert EndFlush(e, now).net[|e.net| + k] == EncodeDatagram(d);
  }

  /** The peer is told of `a`. */
  ghost predicate Acked(e: Endpoint, r: Endpoint, a: Ack) {
    exists v :: Reaches(e, r, v) && v.conv == e.eng.conv && v.cmd == CMD_ACK && v.sn == U(a.sn) && v.ts == a.ts
  }

  /** The peer is sent segment `seg`. */
  ghost predicate Sent(e: Endpoint, r: Endpoint, seg: Segment) {
    exists v :: Reaches(e, r, v) && v.conv == e.eng.conv && v.cmd == CMD_PUSH && v.sn == U(seg.sn)
                && v.frg == seg.frag.frg && v.data == seg.frag.data && v.ts == seg.ts
  }

  /** A flush has done its work: every acknowledgement that was listed and every segment that was due or
      is new has gone out, as much is numbered as there was room for, and nothing is listed any more. */
  ghost predicate Serves(e: Endpoint, r: Endpoint, now: u32) {
    && e.net <= r.net && r.eng.ackList == []
    && (forall i :: 0 <= i < |e.eng.ackList| ==> Acked(e, r, e.eng.ackList[i]))
    && (forall i :: 0 <= i < |r.eng.sndBuf| && GoesOut(e.eng, i, now) ==> Sent(e, r, r.eng.sndBuf[i]))
    && (r.eng.sndQueue == [] || InFlightCount(Wrapping, r.eng) >= SendingWindow(e.eng))
  }

  lemma FlushServesAcks(e: Endpoint, now: u32, i: nat)
    requires SizesInv(e.eng) && Flush(Wrapping, e.eng, now).1 && i < |e.eng.ackList|
    ensures Acked(e, EndFlush(e, now), e.eng.ackList[i])
  {
    hide Flush, FlushWires, Reaches, SizesInv, EndFlush;
    FlushStamps(Wrapping, e.eng, now);
    var w := FlushWires(Wrapping, e.eng, now)[i];
    assert Acknowledges(e.eng, e.eng.ackList[i], w);
    FlushReaches(e, now, w);
    assert Reaches(e, EndFlush(e, now), WrapWire(w));
  }

  lemma FlushServesData(e: Endpoint, now: u32, i: nat)
    requires SizesInv(e.eng) && SendInv(Wrapping, e.eng) && Flush(Wrapping, e.eng, now).1
    requires i < |Flush(Wrapping, e.eng, now).0.sndBuf| && GoesOut(e.eng, i, now)
    ensures Sent(e, EndFlush(e, now), Flush(Wrapping, e.eng, now).0.sndBuf[i])
  {
    hide Flush, FlushWires, Reaches, SizesInv, EndFlush, SendInv, GoesOut;
    var seg := Flush(Wrapping, e.eng, now).0.sndBuf[i];
    FlushSendsDue(Wrapping, e.eng, now, Wire(0, 0, 0, 0, 0, 0, 0, []));
    assert IsSent(Wrapping, e.eng, now, seg);
    var w :| w in FlushWires(Wrapping, e.eng, now) && Carries(w, seg);
    FlushReaches(e, now, w);
    DataIsStamped(Wrapping, e.eng, now, w);
    assert Reaches(e, EndFlush(e, now), WrapWire(w));
  }

  lemma FlushFillsWindow(m: Arith, s: State, now: u32)
    requires SendInv(m, s)
    ensures var r := Flush(m, s, now).0;
            r.sndQueue == [] || InFlightCount(m, r) >= SendingWindow(s)
  {
    hide Flush, SendInv, InFlightCount, SendingWindow, Transmits, FreshlySent;
    FlushTransmits(m, s, now);
  }

  lemma FlushServes(e: Endpoint, now: u32)
    requires SizesInv(e.eng) && SendInv(Wrapping, e.eng) && Flush(Wrapping, e.eng, now).1
    ensures Serves(e, EndFlush(e, now), now)
  {
    hide Flush, SizesInv, SendInv, GoesOut, Acked, Sent, InFlightCount, SendingWindow;
    FlushFillsWindow(Wrapping, e.eng, now);
    var r := EndFlush(e, now);
    forall i | 0 <= i < |e.eng.ackList| ensures Acked(e, r, e.eng.ackList[i]) { FlushServesAcks(e, now, i); }
    forall i | 0 <= i < |r.eng.sndBuf| && GoesOut(e.eng, i, now) ensures Sent(e, r, r.eng.sndBuf[i]) {
      FlushServesData(e, now, i);
    }
    assert InFlightCount(Wrapping, r.eng) == InFlightCount(Wrapping, Flush(Wrapping, e.eng, now).0) by {
      DrainKeepsFlight(Flush(Wrapping, e.eng, now).0);
    }
  }

  lemma DrainKeepsFlight(s: State)
    ensures InFlightCount(Wrapping, Drain(s)) == InFlightCount(Wrapping, s)
  {
  }

  // ---- The turns ----

  /** Handing messages to the stream touches neither the network nor the sending side. */
  lemma {:induction false} DrainRecvKeeps(a: Actor)
    ensures var (e, r) := (a.end, DrainRecv(a).end);
            && r.net == e.net && r.eng.sndBuf == e.eng.sndBuf && r.eng.sndQueue == e.eng.sndQueue
            && r.eng.sndUna == e.eng.sndUna && r.eng.sndNxt == e.eng.sndNxt && r.eng.ackList == e.eng.ackList
    decreases DATA_CAPACITY - |a.dataTx|
  {
    if !a.readerGone && |a.dataTx| < DATA_CAPACITY {
      var got := Recv(Wrapping, a.end.eng).1;
      RecvKeepsSending(a.end);
      hide EndRecv, Recv;
      if got.Some? { DrainRecvKeeps(a.(end := EndRecv(a.end), dataTx := a.dataTx + [got.value])); }
    }
  }

  lemma RecvKeepsSending(e: Endpoint)
    ensures var r := EndRecv(e);
            && r.net == e.net && r.eng.sndBuf == e.eng.sndBuf && r.eng.sndQueue == e.eng.sndQueue
            && r.eng.sndUna == e.eng.sndUna && r.eng.sndNxt == e.eng.sndNxt && r.eng.ackList == e.eng.ackList
  {
    hide MoveToRecvQueue, TakeMessage, PeekSize;
  }

  lemma ServesThenDrains(e: Endpoint, a: Actor, now: u32)
    requires Serves(e, a.end, now)
    ensures Serves(e, DrainRecv(a).end, now)
  {
    DrainRecvKeeps(a);
    var r := DrainRecv(a).end;
    hide DrainRecv, GoesOut, SendingWindow;
    forall i | 0 <= i < |e.eng.ackList| ensures Acked(e, r, e.eng.ackList[i]) {
      assert Acked(e, a.end, e.eng.ackList[i]);
    }
    forall i | 0 <= i < |r.eng.sndBuf| && GoesOut(e.eng, i, now) ensures Sent(e, r, r.eng.sndBuf[i]) {
      assert Sent(e, a.end, a.end.eng.sndBuf[i]);
    }
  }

  /** A packet is processed, and whatever it makes due goes out in the same turn: its acknowledgements,
      and the data for which those it brings make room. */
  lemma PacketServes(a: Actor, data: Bytes, now: u32)
    requires SizesInv(a.end.eng) && SendInv(Wrapping, a.end.eng)
    requires a.exit.Running? && OnPacket(a, data, now).exit.Running?
    ensures Serves(EndInput(a.end, data, now), OnPacket(a, data, now).end, now)
    ensures EndInput(a.end, data, now).net == a.end.net
  {
    hide Flush, Input, ParseDatagram, SizesInv, SendInv, Serves, DrainRecv;
    var e := EndInput(a.end, data, now);
    if |data| >= 24 {
      InputKeepsSendInv(Wrapping, a.end.eng, ParseDatagram(data), now);
      InputKeepsSizes(Wrapping, a.end.eng, ParseDatagram(data), now);
    }
    FlushServes(e, now);
    ServesThenDrains(e, a.(end := EndFlush(e, now)), now);
  }

  /** So every data segment of the conversation that is not beyond the window is acknowledged in the turn
      that it arrives in, with its own number and time stamp. */
  lemma PacketIsAnswered(a: Actor, data: Bytes, now: u32, k: nat)
    requires SizesInv(a.end.eng) && SendInv(Wrapping, a.end.eng) && |data| >= 24
    requires a.exit.Running? && OnPacket(a, data, now).exit.Running?
    requires k < |Answers(Wrapping, a.end.eng, ParseDatagram(data), now)|
    ensures var (e, r) := (a.end, OnPacket(a, data, now).end);
            Acked(e, r, Answers(Wrapping, e.eng, ParseDatagram(data), now)[k])
  {
    hide SizesInv, SendInv, OnPacket, Answers, ParseDatagram, GoesOut;
    PacketServes(a, data, now);
    InputAnswers(Wrapping, a.end.eng, ParseDatagram(data), now);
    hide Input;
    var e1, ack := EndInput(a.end, data, now), Answers(Wrapping, a.end.eng, ParseDatagram(data), now)[k];
    assert e1.eng.ackList[|a.end.eng.ackList| + k] == ack;
    assert Acked(e1, OnPacket(a, data, now).end, ack);
  }

  /** A timer's turn does the work of a flush; one that finds the peer silent for a keep-alive window
      then asks for a sign of life. */
  lemma TimerServes(a: Actor, now: u32, silence: Silence)
    requires SizesInv(a.end.eng) && SendInv(Wrapping, a.end.eng)
    requires a.exit.Running? && OnTimer(a, now, silence).exit.Running?
    ensures var (e, r) := (EndFlush(a.end, now), OnTimer(a, now, silence).end);
            && Serves(a.end, e, now) && !silence.Dead?
            && (silence.Live? ==> Serves(a.end, r, now) && r.net == e.net)
            && (silence.Due? ==> e.net <= r.net && exists v :: Reaches(e, r, v) && v.cmd == CMD_WASK)
  {
    hide Flush, SizesInv, SendInv, Serves, Reaches, DrainRecv;
    FlushServes(a.end, now);
    var e := EndFlush(a.end, now);
    if silence.Live? {
      ServesThenDrains(a.end, a.(end := e), now);
      DrainRecvKeeps(a.(end := e));
    } else {
      FlushKeepsSizes(Wrapping, a.end.eng, now);
      DrainedFits(Flush(Wrapping, a.end.eng, now).0);
      DueIsProbed(a, now);
    }
  }

  lemma DrainedFits(s: State)
    requires SizesInv(s)
    ensures SizesInv(Drain(s))
  {
    hide Mss;
  }

  lemma ProbeGoesOut(e: Endpoint, now: u32)
    requires SizesInv(e.eng) && KeepAliveProbe(Wrapping, e.eng, now).1
    ensures var r := EndKeepAlive(e, now);
            e.net <= r.net && exists v :: Reaches(e, r, v) && v.cmd == CMD_WASK
  {
    hide Flush, FlushWires, Reaches;
    var asked := e.(eng := e.eng.(probe := e.eng.probe.(askSend := true)));
    SizesIgnoreProbe(e.eng, asked.eng.probe);
    AskedIsSent(Wrapping, asked.eng, now);
    var i :| 0 <= i < |FlushWires(Wrapping, asked.eng, now)| && FlushWires(Wrapping, asked.eng, now)[i].cmd == CMD_WASK;
    var w := FlushWires(Wrapping, asked.eng, now)[i];
    FlushReaches(asked, now, w);
    ReachesFrom(asked, e, EndFlush(asked, now), WrapWire(w));
  }

  lemma SizesIgnoreProbe(s: State, p: Probe)
    requires SizesInv(s)
    ensures SizesInv(s.(probe := p))
  {
    hide Mss;
  }

  lemma ReachesFrom(e: Endpoint, f: Endpoint, r: Endpoint, w: Wire)
    requires Reaches(e, r, w) && f.net == e.net
    ensures Reaches(f, r, w)
  {
  }

  /** What succeeds on top of what is waiting succeeds on its own. */
  lemma ProbeSucceedsAlone(e: Endpoint, now: u32)
    ensures ProbeOnly(FlushOnly(e, now).0, now).1 == KeepAliveProbe(Wrapping, EndFlush(e, now).eng, now).1
  {
    hide Flush;
    var s1 := Flush(Wrapping, e.eng, now).0;
    var asked := Drain(s1).(probe := s1.probe.(askSend := true));
    assert s1.(probe := s1.probe.(askSend := true)) == Carry(s1.out.queue, asked);
    FlushCarries(s1.out.queue, asked, now);
  }

  lemma DueIsProbed(a: Actor, now: u32)
    requires SizesInv(EndFlush(a.end, now).eng)
    requires a.exit.Running? && OnTimer(a, now, Due).exit.Running?
    ensures var (e, r) := (EndFlush(a.end, now), OnTimer(a, now, Due).end);
            e.net <= r.net && exists v :: Reaches(e, r, v) && v.cmd == CMD_WASK
  {
    hide Flush, SizesInv, DrainRecv, EndFlush, EndKeepAlive, ParseDatagram;
    HandOverTogether(a.end, now);
    ProbeSucceedsAlone(a.end, now);
    ProbeGoesOut(EndFlush(a.end, now), now);
    var e1 := FlushOnly(a.end, now).0;
    DrainRecvKeeps(a.(end := HandOver(ProbeOnly(e1, now).0)));
  }

  lemma {:induction false} AbsorbKeepsEngine(a: Actor, all: bool)
    ensures var (e, r) := (a.end, Absorb(a, all).end);
            r.net == e.net && r.eng == e.eng.(sndQueue := r.eng.sndQueue)
    decreases |a.sendRx|
  {
    if a.sendRx != [] && (all || |a.end.eng.sndQueue| < SendHighWater(a.end.eng.cfg)) {
      hide Send, SendHighWater, MergeLength;
      AbsorbKeepsEngine(TakeOne(a), all);
    }
  }

  lemma {:induction false} AbsorbKeepsFit(a: Actor, all: bool)
    requires SizesInv(a.end.eng)
    ensures SizesInv(Absorb(a, all).end.eng)
    decreases |a.sendRx|
  {
    if a.sendRx != [] && (all || |a.end.eng.sndQueue| < SendHighWater(a.end.eng.cfg)) {
      SendKeepsSizes(a.end.eng, a.sendRx[0]);
      hide Send, SendHighWater, MergeLength, SizesInv;
      AbsorbKeepsFit(TakeOne(a), all);
    }
  }

  lemma QueueKeepsWindow(s: State, queue: seq<Frag>)
    requires SendInv(Wrapping, s)
    ensures SendInv(Wrapping, s.(sndQueue := queue))
  {
    hide Ascending, Off, Canonical;
  }

  /** The first `n` messages that were waiting have been taken. */
  predicate TakesFirst(a: Actor, b: Actor, n: nat) {
    n <= |a.sendRx| && b.sendRx == a.sendRx[n..] && b.taken == a.taken + a.sendRx[..n]
  }

  lemma TakesOneMore(a: Actor, b: Actor, n: nat)
    requires a.sendRx != [] && TakesFirst(TakeOne(a), b, n)
    ensures TakesFirst(a, b, n + 1)
  {
    hide EndSend;
    assert a.sendRx[..n + 1] == [a.sendRx[0]] + a.sendRx[1..][..n];
    assert a.sendRx[n + 1..] == a.sendRx[1..][n..];
  }

  lemma TakesNone(a: Actor)
    ensures TakesFirst(a, a, 0)
  {
  }

  lemma TakeKeepsConfig(a: Actor)
    requires a.sendRx != []
    ensures TakeOne(a).end.eng.cfg == a.end.eng.cfg
  {
    hide Send;
  }

  /** An actor takes all that is waiting, or stops once its engine has queued 64 segments and four times
      as many as the send window. */
  lemma {:induction false} AbsorbsUpTo(a: Actor) returns (n: nat)
    ensures var b := Absorb(a, false);
            TakesFirst(a, b, n) && (b.sendRx == [] || |b.end.eng.sndQueue| >= Max(64, 4 * a.end.eng.cfg.sndWnd))
    decreases |a.sendRx|
  {
    hide TakesFirst;
    if a.sendRx != [] && |a.end.eng.sndQueue| < SendHighWater(a.end.eng.cfg) {
      TakeKeepsConfig(a);
      hide TakeOne;
      assert |TakeOne(a).sendRx| < |a.sendRx| by { TakeShortens(a); }
      n := AbsorbsUpTo(TakeOne(a));
      TakesOneMore(a, Absorb(TakeOne(a), false), n);
      n := n + 1;
    } else {
      n := 0;
      TakesNone(a);
    }
  }

  lemma TakeShortens(a: Actor)
    requires a.sendRx != []
    ensures |TakeOne(a).sendRx| < |a.sendRx|
  {
  }

  /** A turn that takes data takes the first message and as many more as there is room for, and as much
      as there is room for in the window goes out in the same turn. */
  lemma OutboundServes(a: Actor, now: u32) returns (e: Endpoint, n: nat)
    requires SizesInv(a.end.eng) && SendInv(Wrapping, a.end.eng)
    requires Enabled(a, Outbound(now)) && OnOutbound(a, now).exit.Running?
    ensures var b := OnOutbound(a, now);
            && n > 0 && TakesFirst(a, b, n)
            && Serves(e, b.end, now) && e.net == a.end.net && e.eng == a.end.eng.(sndQueue := e.eng.sndQueue)
            && (b.sendRx == [] || |e.eng.sndQueue| >= Max(64, 4 * e.eng.cfg.sndWnd))
  {
    hide Absorb, EndSend, SizesInv, SendInv, Serves, Flush;
    var a2 := Absorb(TakeOne(a), false);
    e := a2.end;
    TakenFits(a);
    TakeKeepsConfig(a);
    AbsorbKeepsEngine(TakeOne(a), false);
    TakeKeepsEngine(a);
    n := AbsorbsUpTo(TakeOne(a));
    TakesOneMore(a, a2, n);
    n := n + 1;
    QueueKeepsWindow(a.end.eng, e.eng.sndQueue);
    FlushServes(e, now);
    assert OnOutbound(a, now) == a2.(end := EndFlush(e, now));
  }

  lemma TakenFits(a: Actor)
    requires SizesInv(a.end.eng) && a.sendRx != []
    ensures SizesInv(Absorb(TakeOne(a), false).end.eng)
  {
    SendKeepsSizes(a.end.eng, a.sendRx[0]);
    AbsorbKeepsFit(TakeOne(a), false);
    hide Send, MergeLength, Absorb, SizesInv;
  }

  lemma TakeKeepsEngine(a: Actor)
    requires a.sendRx != []
    ensures var (e, r) := (a.end, TakeOne(a).end);
            r.net == e.net && r.eng == e.eng.(sndQueue := r.eng.sndQueue)
  {
    hide Send;
  }

  /** A flush that the application asks for does its work, unless it uses up the transmissions of a segment. */
  lemma CommandServes(a: Actor, now: u32)
    requires Sound(a.end.eng) && !IsDead(a.end.eng) && !UsesUp(Wrapping, a.end.eng, now)
    ensures Serves(a.end, OnFlush(a, now).end, now)
  {
    hide SizesInv, SendInv, Serves, UsesUp, IsDead, Flush;
    FlushFailsIff(Wrapping, a.end.eng, now);
    FlushServes(a.end, now);
  }

  /** So does a close, for all that was still waiting. */
  lemma CloseServes(a: Actor, now: u32) returns (e: Endpoint)
    requires Sound(a.end.eng) && !IsDead(a.end.eng)
    ensures e.net == a.end.net && e.eng == a.end.eng.(sndQueue := e.eng.sndQueue)
    ensures !UsesUp(Wrapping, e.eng, now) ==> Serves(e, OnClose(a, now).end, now)
  {
    hide SizesInv, SendInv, Serves, UsesUp, IsDead, Flush, Absorb;
    e := Absorb(a, true).end;
    AbsorbKeepsEngine(a, true);
    AbsorbKeepsFit(a, true);
    QueueKeepsWindow(a.end.eng, e.eng.sndQueue);
    QueueKeepsDead(a.end.eng, e.eng.sndQueue);
    FlushFailsIff(Wrapping, e.eng, now);
    if !UsesUp(Wrapping, e.eng, now) { FlushServes(e, now); }
  }

  /** And a connection that is closing does so once more when it leaves. */
  lemma LeavingServes(a: Actor, now: u32, late: bool)
    requires Sound(a.end.eng) && !IsDead(a.end.eng) && !UsesUp(Wrapping, a.end.eng, now)
    requires a.exit.Running? && !CloseCheck(a, now, late).exit.Running?
    ensures Serves(a.end, CloseCheck(a, now, late).end, now)
  {
    CommandServes(a, now);
    hide SizesInv, SendInv, Serves, UsesUp, IsDead, Flush;
  }

  // ---- The end of a connection ----

  /** A connection that is closing goes on serving its timer and the network, and nothing else. One that
      is open takes data as well, while its engine has queued fewer than 64 segments or four times the
      send window, whichever is more, and commands. */
  lemma ServedWhileClosing(a: Actor, ev: Event)
    requires a.exit.Running?
    ensures a.closing && a.sendClosed ==> (Enabled(a, ev) <==> ev.Timer? || ev.Packet? || ev.InputClosed?)
    ensures !a.closing && !a.sendClosed && |a.end.eng.sndQueue| < Max(64, 4 * a.end.eng.cfg.sndWnd) ==>
              (Enabled(a, ev) <==> (ev.Outbound? ==> a.sendRx != []) && (ev.WritersGone? ==> a.sendRx == []))
    ensures |a.end.eng.sndQueue| >= Max(64, 4 * a.end.eng.cfg.sndWnd) && Enabled(a, ev) ==>
              !ev.Outbound? && !ev.WritersGone?
  {
  }

  lemma UsesUpIgnores(s: State, p: Probe, out: Output, now: u32)
    ensures UsesUp(Wrapping, s.(probe := p, out := out), now) == UsesUp(Wrapping, s, now)
  {
  }

  lemma DeadIgnores(s: State, p: Probe, out: Output)
    ensures IsDead(s.(probe := p, out := out)) == IsDead(s)
  {
  }

  lemma SendInvIgnores(s: State, p: Probe, out: Output)
    requires SendInv(Wrapping, s)
    ensures SendInv(Wrapping, s.(probe := p, out := out))
  {
    hide Ascending, Off, Canonical;
  }

  /** A packet never counts a transmission. */
  lemma InputKillsNone(s: State, ws: seq<Wire>, now: u32)
    requires !IsDead(s)
    ensures !IsDead(Input(Wrapping, s, ws, now))
  {
    InputSurvivors(Wrapping, s, ws, now);
    var r := Input(Wrapping, s, ws, now);
    hide Input;
    forall i | 0 <= i < |r.sndBuf| ensures r.sndBuf[i].xmit < s.cfg.deadLink {
      assert SurvivorOf(r.sndBuf[i], s.sndBuf);
      var j :| 0 <= j < |s.sndBuf| && SameContent(r.sndBuf[i], s.sndBuf[j]);
    }
  }

  lemma TimerFailsIff(a: Actor, now: u32, silence: Silence)
    requires SendInv(Wrapping, a.end.eng) && !IsDead(a.end.eng) && a.exit.Running?
    ensures OnTimer(a, now, silence).exit.Failed? <==>
            || silence.Dead? || UsesUp(Wrapping, a.end.eng, now)
            || (silence.Due? && UsesUp(Wrapping, Flush(Wrapping, a.end.eng, now).0, now))
  {
    hide Flush, UsesUp, SendInv, IsDead, DrainRecv;
    FlushFailsIff(Wrapping, a.end.eng, now);
    if Flush(Wrapping, a.end.eng, now).1 {
      var s1 := Flush(Wrapping, a.end.eng, now).0;
      FlushKeepsSendInv(Wrapping, a.end.eng, now);
      FlushFailsIffDead(Wrapping, a.end.eng, now);
      var asked := s1.probe.(askSend := true);
      UsesUpIgnores(s1, asked, s1.out, now);
      DeadIgnores(s1, asked, s1.out);
      SendInvIgnores(s1, asked, s1.out);
      FlushFailsIff(Wrapping, s1.(probe := asked), now);
      assert s1.(probe := asked) == s1.(probe := asked, out := s1.out);
    }
  }

  lemma PacketFailsIff(a: Actor, data: Bytes, now: u32)
    requires SendInv(Wrapping, a.end.eng) && !IsDead(a.end.eng) && a.exit.Running?
    ensures OnPacket(a, data, now).exit.Failed? <==> UsesUp(Wrapping, EndInput(a.end, data, now).eng, now)
  {
    hide Flush, Input, ParseDatagram, SendInv, UsesUp, DrainRecv, IsDead;
    if |data| >= 24 {
      InputKeepsSendInv(Wrapping, a.end.eng, ParseDatagram(data), now);
      InputKillsNone(a.end.eng, ParseDatagram(data), now);
    }
    FlushFailsIff(Wrapping, EndInput(a.end, data, now).eng, now);
  }

  lemma OutboundFailsIff(a: Actor, now: u32)
    requires SendInv(Wrapping, a.end.eng) && !IsDead(a.end.eng) && a.exit.Running? && a.sendRx != []
    ensures OnOutbound(a, now).exit.Failed? <==> UsesUp(Wrapping, Absorb(TakeOne(a), false).end.eng, now)
  {
    var a2 := Absorb(TakeOne(a), false);
    AbsorbKeepsEngine(TakeOne(a), false);
    QueueKeepsWindow(a.end.eng, a2.end.eng.sndQueue);
    QueueKeepsDead(a.end.eng, a2.end.eng.sndQueue);
    hide Absorb, Send, Flush, SendInv, UsesUp, IsDead, MergeLength;
    FlushFailsIff(Wrapping, a2.end.eng, now);
  }

  lemma QueueKeepsDead(s: State, queue: seq<Frag>)
    ensures IsDead(s.(sndQueue := queue)) == IsDead(s)
  {
  }

  /** Which events end the connection as failed: the loss of the network, a peer silent for three
      keep-alive windows, and a flush that uses up the transmissions of a segment, be it after the
      packet, the data or the timer. */
  lemma TurnFailsIff(a: Actor, ev: Event)
    requires SendInv(Wrapping, a.end.eng) && !IsDead(a.end.eng) && Enabled(a, ev)
    ensures OnEvent(a, ev).exit.Failed? <==>
            match ev
            case InputClosed => true
            case Timer(now, silence) =>
              || silence.Dead? || UsesUp(Wrapping, a.end.eng, now)
              || (silence.Due? && UsesUp(Wrapping, Flush(Wrapping, a.end.eng, now).0, now))
            case Packet(data, now) => UsesUp(Wrapping, EndInput(a.end, data, now).eng, now)
            case Outbound(now) => UsesUp(Wrapping, Absorb(TakeOne(a), false).end.eng, now)
            case _ => false
  {
    hide OnTimer, OnPacket, OnOutbound, Flush, Absorb, UsesUp, SendInv, IsDead, EndInput;
    match ev
    case Timer(now, silence) => TimerFailsIff(a, now, silence);
    case Packet(data, now) => PacketFailsIff(a, data, now);
    case Outbound(now) => OutboundFailsIff(a, now);
    case _ =>
  }

  /** A connection that is closing ends as acknowledged once nothing it took is queued or in flight, and
      as expired, with data left, once its time is over; it goes on otherwise, as any other does. */
  lemma ClosingEndsIff(a: Actor, ev: Event, now: u32, late: bool)
    requires Enabled(a, ev)
    ensures var (c, b) := (OnEvent(a, ev), Turn(a, ev, now, late));
            var idle := c.end.eng.sndQueue == [] && c.end.eng.sndBuf == [];
            && (b.exit.Acknowledged? <==> c.exit.Running? && c.closing && idle)
            && (b.exit.Expired? <==> c.exit.Running? && c.closing && !idle && late)
            && (b.exit.Failed? <==> c.exit.Failed?)
            && (b.exit.Running? ==> b == c)
  {
    ExitIsDecided(a, ev);
    hide OnEvent, Flush, EncodeAll;
  }

  lemma ExitIsDecided(a: Actor, ev: Event)
    requires Enabled(a, ev)
    ensures OnEvent(a, ev).exit.Running? || OnEvent(a, ev).exit.Failed?
  {
    hide DrainRecv, Absorb, Flush, EndInput, EndSend;
  }

  /** A close takes all that was written and nothing after; once the writers are gone or the connection is
      closing no turn takes anything but a close. */
  lemma CloseTakesAll(a: Actor, ev: Event)
    requires Enabled(a, ev)
    ensures var b := OnEvent(a, ev);
            && (ev.CloseCommand? ==>
                  b.sendRx == [] && b.taken == a.taken + a.sendRx && b.closing && b.sendClosed && b.exit.Running?)
            && (a.sendClosed && !ev.CloseCommand? ==>
                  b.sendRx == a.sendRx && b.taken == a.taken && b.sendClosed && b.closing == a.closing)
            && (ev.WritersGone? ==> b == a.(sendClosed := true) && a.sendRx == [])
  {
    AbsorbsAll(a);
    hide DrainRecv, Absorb, Flush, EndInput, EndSend;
  }

  lemma {:induction false} AbsorbsAll(a: Actor)
    ensures Absorb(a, true).sendRx == [] && Absorb(a, true).taken == a.taken + a.sendRx
    decreases |a.sendRx|
  {
    if a.sendRx != [] {
      AbsorbsAll(TakeOne(a));
      hide EndSend;
      assert a.sendRx == [a.sendRx[0]] + a.sendRx[1..];
    }
  }

  // ---- In every run ----

  /** What the rules above suppose of an engine. */
  ghost predicate Sound(s: State) {
    SizesInv(s) && SendInv(Wrapping, s)
  }

  lemma FlushKeepsSound(e: Endpoint, now: u32)
    requires Sound(e.eng)
    ensures Sound(EndFlush(e, now).eng)
  {
    hide Flush, SizesInv, SendInv;
    FlushKeepsSizes(Wrapping, e.eng, now);
    FlushKeepsSendInv(Wrapping, e.eng, now);
    var s := Flush(Wrapping, e.eng, now).0;
    DrainedFits(s);
    SendInvIgnores(s, s.probe, s.out.(queue := []));
    assert Drain(s) == s.(probe := s.probe, out := s.out.(queue := []));
  }

  lemma AskKeepsSound(s: State)
    requires Sound(s)
    ensures Sound(s.(probe := s.probe.(askSend := true)))
  {
    SizesIgnoreProbe(s, s.probe.(askSend := true));
    SendInvIgnores(s, s.probe.(askSend := true), s.out);
    hide SizesInv, SendInv;
    assert s.(probe := s.probe.(askSend := true)) == s.(probe := s.probe.(askSend := true), out := s.out);
  }

  lemma ApplyKeepsSound(sys: ByteSystem, act: Action)
    requires Sound(sys.left.eng) && Sound(sys.right.eng)
    ensures Sound(ApplyBytes(sys, act).left.eng) && Sound(ApplyBytes(sys, act).right.eng)
  {
    hide Flush, Input, ParseDatagram, Send, Recv, SizesInv, SendInv, MergeLength;
    var e := EndAt(sys, act.who);
    match act
    case Submit(who, msg) =>
      StepKeepsSizes(Wrapping, e.eng, DoSend(msg));
      StepKeepsSendInv(Wrapping, e.eng, DoSend(msg));
    case Read(who) =>
      StepKeepsSizes(Wrapping, e.eng, DoRecv);
      StepKeepsSendInv(Wrapping, e.eng, DoRecv);
    case Transmit(who, now) => FlushKeepsSound(e, now);
    case KeepAlive(who, now) =>
      AskKeepsSound(e.eng);
      FlushKeepsSound(e.(eng := e.eng.(probe := e.eng.probe.(askSend := true))), now);
    case Deliver(who, index, now) =>
      var net := EndAt(sys, Other(who)).net;
      if index < |net| && |net[index]| >= 24 {
        InputKeepsSizes(Wrapping, e.eng, ParseDatagram(net[index]), now);
        InputKeepsSendInv(Wrapping, e.eng, ParseDatagram(net[index]), now);
      }
  }

  lemma {:induction false} ActionsKeepSound(sys: ByteSystem, actions: seq<Action>)
    requires Sound(sys.left.eng) && Sound(sys.right.eng)
    ensures Sound(RunBytes(sys, actions).left.eng) && Sound(RunBytes(sys, actions).right.eng)
    decreases |actions|
  {
    hide ApplyBytes, Sound;
    if actions != [] {
      ActionsKeepSound(sys, actions[..|actions| - 1]);
      ApplyKeepsSound(RunBytes(sys, actions[..|actions| - 1]), actions[|actions| - 1]);
    }
  }

  /** In every run of two connections both engines are sound, so the rules above hold of every turn. */
  lemma EveryRunKeepsSound(conv: u32, left: Config, right: Config, moves: seq<Move>, who: Side)
    ensures Sound(PeerAt(ShellRun(NewWorld(conv, left, right), moves), who).actor.end.eng)
  {
    hide ShellRun, RunBytes, Sound, Init;
    TraceIsRun(conv, left, right, moves);
    NewIsSound(conv, left);
    NewIsSound(conv, right);
    ActionsKeepSound(InitBytes(conv, left, right), ShellRun(NewWorld(conv, left, right), moves).trace);
  }

  lemma NewIsSound(conv: u32, cfg: Config)
    ensures Sound(Init(conv, cfg))
  {
  }
}
