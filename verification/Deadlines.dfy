/** No silent stall: with data outstanding a flush always leaves a deadline, `check` is the soonest
    one, and a flush retransmits or probes at that time and not before. */
module Deadlines {
  import opened Word
  import opened Protocol
  import opened EngineSpec
  import opened SendSide
  import opened Packing
  import opened EngineLoops
  import opened EngineRun
  import opened Congestion
  import opened RoundTripTime

  // ---- check is the soonest deadline ----

  lemma {:induction false} SoonestIsLeast(buf: seq<Segment>, now: u32)
    ensures var d := SoonestResend(buf, now);
            && (forall i :: 0 <= i < |buf| ==> d <= Until(buf[i].resendts, now))
            && (buf == [] ==> d == U32_MAX)
            && (buf != [] ==> exists i :: 0 <= i < |buf| && d == Until(buf[i].resendts, now))
  {
    hide TimeDiff;
    if buf != [] {
      var init, k := buf[..|buf| - 1], |buf| - 1;
      SoonestIsLeast(init, now);
      var d := SoonestResend(buf, now);
      forall i | 0 <= i < |buf| ensures d <= Until(buf[i].resendts, now) {
        if i < k { assert init[i] == buf[i]; }
      }
      if d == Until(buf[k].resendts, now) {
        assert d == Until(buf[k].resendts, now);
      } else {
        assert init != [];
        var i :| 0 <= i < |init| && SoonestResend(init, now) == Until(init[i].resendts, now);
        assert buf[i] == init[i];
      }
    }
  }

  // ---- Deadlines that lie ahead ----

  /** How far ahead a time stamp is: at least 1 ms and less than half the circle. */
  predicate Ahead(deadline: u32, now: u32) {
    TimeDiff(deadline, now) >= 1
  }

  /** A segment has been transmitted and its timer runs. */
  predicate Running(seg: Segment, now: u32) {
    seg.xmit >= 1 && Ahead(seg.resendts, now)
  }

  ghost predicate AllRunning(buf: seq<Segment>, now: u32) {
    forall i :: 0 <= i < |buf| ==> Running(buf[i], now)
  }

  predicate ProbeArmed(s: State) {
    s.wnd.rmt == 0 && s.probe.wait != 0
  }

  /** Nothing is due: no acknowledgement or probe waits, every segment was sent and its timer runs,
      and with the peer's window closed the probe timer runs. */
  ghost predicate AllAhead(s: State, now: u32) {
    && s.ackList == [] && !s.probe.askSend && !s.probe.askTell
    && AllRunning(s.sndBuf, now)
    && (s.wnd.rmt == 0 ==> s.probe.wait != 0 && Ahead(s.probe.ts, now))
  }

  /** The probe timer goes off at `now`. */
  predicate ProbeFires(s: State, now: u32) {
    ProbeArmed(s) && TimeDiff(now, s.probe.ts) >= 0
  }

  /** A flush at `now` has something to do on time. */
  ghost predicate Fires(s: State, now: u32) {
    AnyMark(s.cfg, s.sndBuf, now, Timeout) || ProbeFires(s, now)
  }

  lemma Elapsed(deadline: u32, now: u32, e: int)
    requires Ahead(deadline, now) && 0 <= e < HALF
    ensures TimeDiff(U(now + e), deadline) == e - TimeDiff(deadline, now)
  {
  }

  lemma TimeoutAt(s: State, now: u32, e: int, i: nat)
    requires AllAhead(s, now) && 0 <= e < HALF && i < |s.sndBuf|
    ensures MarkOf(s.cfg, s.sndBuf[i], U(now + e)).Timeout? <==> e >= Until(s.sndBuf[i].resendts, now)
  {
    Elapsed(s.sndBuf[i].resendts, now, e);
    hide TimeDiff, U;
  }

  lemma ProbeAt(s: State, now: u32, e: int)
    requires AllAhead(s, now) && 0 <= e < HALF
    ensures ProbeFires(s, U(now + e)) <==> s.wnd.rmt == 0 && e >= Until(s.probe.ts, now)
  {
    if s.wnd.rmt == 0 { Elapsed(s.probe.ts, now, e); }
    hide TimeDiff, U;
  }

  lemma UntilIsSmall(s: State, now: u32)
    requires AllAhead(s, now)
    ensures s.ackList == [] && !s.probe.askSend && !s.probe.askTell
    ensures forall t: u32 :: Until(t, now) < HALF
    ensures forall i :: 0 <= i < |s.sndBuf| ==> 1 <= Until(s.sndBuf[i].resendts, now)
    ensures s.wnd.rmt == 0 ==> 1 <= Until(s.probe.ts, now)
  {
    forall i | 0 <= i < |s.sndBuf| ensures 1 <= Until(s.sndBuf[i].resendts, now) {
      assert Running(s.sndBuf[i], now);
    }
  }

  /** How long until a timer goes off, `U32_MAX` if none runs. */
  function NextFiring(s: State, now: u32): nat {
    Min(SoonestResend(s.sndBuf, now), if s.wnd.rmt == 0 then Until(s.probe.ts, now) else U32_MAX)
  }

  /** With every deadline ahead, a timer goes off from its earliest deadline on, and not before. */
  lemma FiresFrom(s: State, now: u32, e: int)
    requires AllAhead(s, now) && 0 <= e < HALF
    ensures Fires(s, U(now + e)) <==> e >= NextFiring(s, now)
  {
    var t := U(now + e);
    SoonestIsLeast(s.sndBuf, now);
    ProbeAt(s, now, e);
    forall i | 0 <= i < |s.sndBuf|
      ensures MarkOf(s.cfg, s.sndBuf[i], t).Timeout? <==> e >= Until(s.sndBuf[i].resendts, now)
    {
      TimeoutAt(s, now, e, i);
    }
    UntilIsSmall(s, now);
    hide TimeDiff, U, MarkOf, SoonestResend, Until, ProbeFires, AllAhead;
    var d := SoonestResend(s.sndBuf, now);
    if s.sndBuf != [] {
      var k :| 0 <= k < |s.sndBuf| && d == Until(s.sndBuf[k].resendts, now);
      assert e >= d ==> MarkOf(s.cfg, s.sndBuf[k], t) == Timeout;
    }
    assert AnyMark(s.cfg, s.sndBuf, t, Timeout) <==> s.sndBuf != [] && e >= d;
  }

  /** What `check` takes into account is what matters: some timer runs; and if the probe deadline
      wrapped to 0, which `check` takes for none, a retransmission is due no later (or, with nothing
      in flight, the deadline happens to be the 30 s that `check` answers for none). */
  predicate DeadlineSeen(s: State, now: u32) {
    && (s.sndBuf != [] || s.wnd.rmt == 0)
    && (s.wnd.rmt == 0 && s.probe.ts == 0 ==>
          if s.sndBuf == [] then Until(0, now) == 30000 else SoonestResend(s.sndBuf, now) <= Until(0, now))
  }

  /** At `now`, `check` is right about the time `e` ms later. */
  ghost predicate Announced(s: State, now: u32, e: int) {
    Fires(s, U(now + e)) <==> e >= Check(s, now)
  }

  /** The time `check` announces is exact where the deadline is seen: a flush `e` ms later retransmits
      on timeout or probes if and only if `e` is at least that time. */
  lemma CheckIsExact(s: State, now: u32, e: int)
    requires AllAhead(s, now) && 0 <= e < HALF && DeadlineSeen(s, now)
    ensures Announced(s, now, e)
  {
    FiresFrom(s, now, e);
    UntilIsSmall(s, now);
    SoonestIsLeast(s.sndBuf, now);
    hide TimeDiff, U, MarkOf, SoonestResend, Until, Fires, AllAhead;
  }

  lemma CheckIsInexact(s: State, now: u32) returns (e: int)
    requires AllAhead(s, now) && !DeadlineSeen(s, now)
    ensures 0 <= e < HALF && !Announced(s, now, e)
  {
    UntilIsSmall(s, now);
    SoonestIsLeast(s.sndBuf, now);
    e := if s.sndBuf == [] then (if s.wnd.rmt != 0 then 30000 else Min(Until(s.probe.ts, now), 30000))
         else Until(s.probe.ts, now);
    FiresFrom(s, now, e);
    hide TimeDiff, U, MarkOf, SoonestResend, Until, Fires, AllAhead;
  }

  /** And only there: `check` is exact at all times if and only if the deadline is seen. */
  lemma CheckIsExactIff(s: State, now: u32)
    requires AllAhead(s, now)
    ensures DeadlineSeen(s, now) <==>
            forall e: int :: 0 <= e < HALF ==> Announced(s, now, e)
  {
    hide AllAhead, Fires, Check, DeadlineSeen;
    if DeadlineSeen(s, now) {
      forall e: int | 0 <= e < HALF ensures Announced(s, now, e) {
        CheckIsExact(s, now, e);
      }
    } else {
      var e := CheckIsInexact(s, now);
      assert !Announced(s, now, e);
    }
  }

  // ---- What a flush does when a timer goes off ----

  /** The flush puts out a buffered segment again because it has timed out. */
  ghost predicate ResendsOnTimeout(m: Arith, s: State, now: u32) {
    exists i :: 0 <= i < |s.sndBuf| && ResendsSegment(m, s, s.sndBuf[i], now)
  }

  ghost predicate ResendsSegment(m: Arith, s: State, seg: Segment, now: u32) {
    && MarkOf(s.cfg, seg, now).Timeout?
    && DataWire(BeforeScan(m, s, now), Marked(s.cfg, s.rtt.rto, seg, now)) in FlushWires(m, s, now)
  }

  ghost predicate SendsProbe(m: Arith, s: State, now: u32) {
    exists w :: w in FlushWires(m, s, now) && w.cmd == CMD_WASK
  }

  lemma {:induction false} MoveAppends(m: Arith, s: State, now: u32)
    ensures var r := MoveToSendBuf(m, s, now);
            s.sndBuf <= r.sndBuf && forall i :: |s.sndBuf| <= i < |r.sndBuf| ==> r.sndBuf[i].xmit == 0
    decreases |s.sndQueue|
  {
    hide Before, Add, EffectiveWindow;
    if s.sndQueue != [] { MoveAppends(m, NumberOne(m, s, now), now); }
  }

  lemma ScanStart(m: Arith, s: State, now: u32)
    ensures var b := BeforeScan(m, s, now);
            && s.sndBuf <= b.sndBuf && b.cfg == s.cfg && b.rtt == s.rtt
            && forall i :: |s.sndBuf| <= i < |b.sndBuf| ==> b.sndBuf[i].xmit == 0
  {
    hide MoveToSendBuf, ProbeTimer, OutputAll, AckWires, ProbeWires;
    MoveAppends(m, HandleWindowProbe(FlushAcks(s), now), now);
  }

  /** A flush that succeeds transmits everything that is due. */
  lemma SuccessSendsAll(m: Arith, s: State, now: u32)
    requires Flush(m, s, now).1
    ensures var b := BeforeScan(m, s, now);
            Sending(m, s, now) == ToSend(b.cfg, b.rtt.rto, b.sndBuf, now)
  {
    hide MoveToSendBuf, HandleWindowProbe, FlushAcks, ToSend, ThroughDead, CloseDatagram, OutputAll, AnyMark, MarkAll,
         DataWires, AnyDead;
    var b := BeforeScan(m, s, now);
    var sending := ToSend(b.cfg, b.rtt.rto, b.sndBuf, now);
    AliveOrDead(sending, b.cfg.deadLink);
    hide AllAlive;
    ThroughDeadNone(sending, b.cfg.deadLink);
  }

  lemma SucceedsUnlessDead(m: Arith, s: State, now: u32)
    ensures var b := BeforeScan(m, s, now);
            Flush(m, s, now).1 <==> !AnyDead(ToSend(b.cfg, b.rtt.rto, b.sndBuf, now), b.cfg.deadLink)
  {
    hide MoveToSendBuf, HandleWindowProbe, FlushAcks, ToSend, ThroughDead, CloseDatagram, OutputAll, AnyMark, MarkAll,
         DataWires, AnyDead;
  }

  lemma FirstIsOne(cfg: Config, rto: u32, seg: Segment, now: u32)
    requires seg.xmit == 0
    ensures Marked(cfg, rto, seg, now).xmit == 1 && MarkOf(cfg, seg, now).First?
  {
  }

  /** A flush with nothing in flight succeeds if more than one transmission is allowed; and if only
      one is, it fails whenever it numbers something: such a configuration cannot send at all. */
  lemma FreshFlushSucceedsIff(m: Arith, s: State, now: u32)
    requires s.sndBuf == []
    ensures Flush(m, s, now).1 <==> s.cfg.deadLink >= 2 || BeforeScan(m, s, now).sndBuf == []
  {
    ScanStart(m, s, now);
    SucceedsUnlessDead(m, s, now);
    var b := BeforeScan(m, s, now);
    ToSendIsDue(b.cfg, b.rtt.rto, b.sndBuf, now);
    var sending := ToSend(b.cfg, b.rtt.rto, b.sndBuf, now);
    hide Flush, BeforeScan, ToSend, MarkOf, Marked;
    forall i | 0 <= i < |sending| ensures sending[i].xmit == 1 {
      assert sending[i] in sending;
      var j :| 0 <= j < |b.sndBuf| && sending[i] == Marked(b.cfg, b.rtt.rto, b.sndBuf[j], now);
      FirstIsOne(b.cfg, b.rtt.rto, b.sndBuf[j], now);
    }
    if b.sndBuf != [] {
      FirstIsOne(b.cfg, b.rtt.rto, b.sndBuf[0], now);
      assert Marked(b.cfg, b.rtt.rto, b.sndBuf[0], now) in sending;
      assert sending[0].xmit == 1;
    } else if sending != [] {
      assert sending[0] in sending;
    }
  }

  /** A probe goes out if and only if its timer goes off, unless one was pending already. */
  lemma ProbeIsSentIff(m: Arith, s: State, now: u32)
    requires !s.probe.askSend
    ensures SendsProbe(m, s, now) <==> ProbeFires(s, now)
  {
    hide BeforeScan, Sending, TimeDiff;
    var s1 := s.(probe := ProbeTimer(s.probe, s.wnd.rmt, now));
    assert s1.probe.askSend <==> ProbeFires(s, now);
    if s1.probe.askSend {
      assert ProbeWire(s1, CMD_WASK, now) in ProbeWires(s1, now);
      assert ProbeWire(s1, CMD_WASK, now) in FlushWires(m, s, now);
    } else {
      hide ProbeTimer, ProbeFires, DataWire, AckWire;
      forall w | w in FlushWires(m, s, now) ensures w.cmd != CMD_WASK {
        NoProbeAmong(m, s, w, now);
      }
    }
  }

  lemma NoProbeAmong(m: Arith, s: State, w: Wire, now: u32)
    requires w in FlushWires(m, s, now) && !ProbeTimer(s.probe, s.wnd.rmt, now).askSend
    ensures w.cmd != CMD_WASK
  {
    hide BeforeScan, Sending, ProbeTimer;
  }

  lemma TimedOutIsSent(m: Arith, s: State, i: nat, now: u32)
    requires i < |s.sndBuf| && MarkOf(s.cfg, s.sndBuf[i], now).Timeout? && Flush(m, s, now).1
    ensures ResendsSegment(m, s, s.sndBuf[i], now)
  {
    ScanStart(m, s, now);
    SuccessSendsAll(m, s, now);
    hide Flush, BeforeScan, MarkOf, Marked, AckWires, ProbeWires, ToSend, Sending;
    var b := BeforeScan(m, s, now);
    ToSendIsDue(b.cfg, b.rtt.rto, b.sndBuf, now);
    var seg := Marked(s.cfg, s.rtt.rto, s.sndBuf[i], now);
    assert b.sndBuf[i] == s.sndBuf[i];
    assert seg in Sending(m, s, now);
    var j :| 0 <= j < |Sending(m, s, now)| && Sending(m, s, now)[j] == seg;
    assert DataWires(b, Sending(m, s, now))[j] == DataWire(b, seg);
  }

  /** The timers are not idle talk: a flush retransmits on timeout or probes only when one goes off,
      and if it succeeds it does. */
  lemma FlushDoesWhatFires(m: Arith, s: State, now: u32)
    requires !s.probe.askSend
    ensures ResendsOnTimeout(m, s, now) || SendsProbe(m, s, now) ==> Fires(s, now)
    ensures Fires(s, now) && Flush(m, s, now).1 ==> ResendsOnTimeout(m, s, now) || SendsProbe(m, s, now)
  {
    ProbeIsSentIff(m, s, now);
    hide Flush, FlushWires, BeforeScan, MarkOf, Marked, ProbeFires, SendsProbe;
    if AnyMark(s.cfg, s.sndBuf, now, Timeout) && Flush(m, s, now).1 {
      var i :| 0 <= i < |s.sndBuf| && MarkOf(s.cfg, s.sndBuf[i], now) == Timeout;
      TimedOutIsSent(m, s, i, now);
    }
    if ResendsOnTimeout(m, s, now) {
      var i :| 0 <= i < |s.sndBuf| && ResendsSegment(m, s, s.sndBuf[i], now);
      assert MarkOf(s.cfg, s.sndBuf[i], now) == Timeout;
    }
  }

  /** So `check` tells when a flush will put something out: a flush that succeeds `e` ms later
      retransmits on timeout or probes if and only if `e` is at least what `check` announced. */
  lemma CheckMeetsFlush(m: Arith, s: State, now: u32, e: int)
    requires AllAhead(s, now) && 0 <= e < HALF && DeadlineSeen(s, now) && Flush(m, s, U(now + e)).1
    ensures ResendsOnTimeout(m, s, U(now + e)) || SendsProbe(m, s, U(now + e)) <==> e >= Check(s, now)
  {
    CheckIsExact(s, now, e);
    UntilIsSmall(s, now);
    FlushDoesWhatFires(m, s, U(now + e));
    hide Flush, Fires, ResendsOnTimeout, SendsProbe, Check, AllAhead, DeadlineSeen;
  }

  // ---- A flush leaves deadlines ----

  /** What a scan at `now` needs of segment `seg` to leave its timer running: a timeout about to be
      backed off stays below half the circle, as does one that is kept; a running one was not set
      exactly half the circle ago. */
  predicate TimerFits(cfg: Config, rto: u32, seg: Segment, now: u32) {
    match MarkOf(cfg, seg, now)
    case First => true
    case Timeout => seg.xmit != U32_MAX && 1 <= Backoff(cfg, rto, seg.rto) < HALF
    case Fast => 1 <= seg.rto < HALF
    case Idle => TimeDiff(now, seg.resendts) != -HALF
  }

  ghost predicate TimersFit(cfg: Config, rto: u32, buf: seq<Segment>, now: u32) {
    forall i :: 0 <= i < |buf| ==> TimerFits(cfg, rto, buf[i], now)
  }

  /** A running probe timer was not set exactly half the circle ago. */
  predicate ProbeFits(p: Probe, rmt: u16, now: u32) {
    rmt == 0 && p.wait != 0 ==> TimeDiff(now, p.ts) != -HALF
  }

  /** The condition is exact: a scan leaves the timer of a segment running if and only if it fits. */
  lemma MarkedRunsIff(cfg: Config, rto: u32, seg: Segment, now: u32)
    requires 1 <= rto <= RTO_MAX
    ensures Running(Marked(cfg, rto, seg, now), now) <==> TimerFits(cfg, rto, seg, now)
  {
    hide TimeDiff, Backoff, U, Ahead;
    match MarkOf(cfg, seg, now)
    case First =>
      AheadIff(now, rto + if cfg.nodelay then 0 else rto / 8);
      WrapShift(now + rto, if cfg.nodelay then 0 else rto / 8);
    case Timeout =>
      AheadIff(now, Backoff(cfg, rto, seg.rto));
      OneMore(seg.xmit);
    case Fast =>
      AheadIff(now, seg.rto);
      OneMore(seg.xmit);
    case Idle =>
      NotYetIff(seg.resendts, now);
  }

  lemma OneMore(n: u32)
    ensures U(n + 1) >= 1 <==> n != U32_MAX
  {
  }

  lemma AheadIff(now: u32, n: int)
    requires 0 <= n < M32
    ensures Ahead(U(now + n), now) <==> 1 <= n < HALF
  {
    NoTurn(now, n);
  }

  lemma NoTurn(now: u32, n: int)
    requires 0 <= n < M32
    ensures U(U(now + n) - now) == n
  {
    if now + n >= M32 { WholeTurns(now + n, -1); WholeTurns(n, -1); }
  }

  lemma NotYetIff(deadline: u32, now: u32)
    requires TimeDiff(now, deadline) < 0
    ensures Ahead(deadline, now) <==> TimeDiff(now, deadline) != -HALF
  {
  }

  predicate ProbeInv(p: Probe) {
    p.wait == 0 || PROBE_INIT <= p.wait <= PROBE_LIMIT
  }

  /** The probe timer after a flush at `now`: stopped while the peer's window is open, and otherwise
      with an interval from 7 to 120 seconds, and running if and only if it was not set exactly half
      the circle ago. */
  lemma ProbeTimerRuns(p: Probe, rmt: u16, now: u32)
    requires ProbeInv(p)
    ensures var r := ProbeTimer(p, rmt, now);
            && (rmt != 0 ==> r.wait == 0)
            && (rmt == 0 ==> PROBE_INIT <= r.wait <= PROBE_LIMIT && (Ahead(r.ts, now) <==> ProbeFits(p, rmt, now)))
            && (rmt == 0 && (p.wait == 0 || TimeDiff(now, p.ts) >= 0) ==> TimeDiff(r.ts, now) == r.wait)
  {
    hide Ahead, U;
    AheadIff(now, PROBE_INIT);
    AheadIff(now, Min(Max(p.wait, PROBE_INIT) + Max(p.wait, PROBE_INIT) / 2, PROBE_LIMIT));
    ProbeInterval(now, PROBE_INIT);
    ProbeInterval(now, Min(Max(p.wait, PROBE_INIT) + Max(p.wait, PROBE_INIT) / 2, PROBE_LIMIT));
    if rmt == 0 && p.wait != 0 && TimeDiff(now, p.ts) < 0 { NotYetIff(p.ts, now); }
    hide TimeDiff;
  }

  lemma ProbeInterval(now: u32, n: int)
    requires 0 <= n < HALF
    ensures TimeDiff(U(now + n), now) == n
  {
  }

  lemma {:induction false} MoveStops(m: Arith, s: State, now: u32)
    requires SendInv(m, s)
    ensures var r := MoveToSendBuf(m, s, now);
            && SendInv(m, r)
            && (r.sndQueue != [] ==> !Before(m, r.sndNxt, Add(m, r.sndUna, EffectiveWindow(r))))
    decreases |s.sndQueue|
  {
    hide SendInv, Before, Add, EffectiveWindow;
    if s.sndQueue != [] && Before(m, s.sndNxt, Add(m, s.sndUna, EffectiveWindow(s))) {
      NumberOneKeepsSendInv(m, s, now);
      MoveStops(m, NumberOne(m, s, now), now);
    }
  }

  /** An empty window with nothing in flight can only be the peer's closed one. */
  lemma NothingInFlight(m: Arith, s: State)
    requires SendInv(m, s) && s.sndBuf == [] && s.wnd.cwnd >= 1
    requires !Before(m, s.sndNxt, Add(m, s.sndUna, EffectiveWindow(s)))
    ensures s.wnd.rmt == 0
  {
    var w := EffectiveWindow(s);
    OffAdd(m, s.sndUna, w, s.sndUna);
    DiffIsOffsets(m, s.sndNxt, Add(m, s.sndUna, w), s.sndUna);
    hide Diff, Add;
  }

  /** The state in which the scan of a flush starts. */
  lemma BeforeScanFacts(m: Arith, s: State, now: u32)
    requires SendInv(m, s) && s.wnd.cwnd >= 1
    ensures var b := BeforeScan(m, s, now);
            && SendInv(m, b) && b.ackList == [] && !b.probe.askSend && !b.probe.askTell
            && b.probe == ProbeTimer(s.probe, s.wnd.rmt, now).(askSend := false, askTell := false)
            && b.cfg == s.cfg && b.wnd == s.wnd && b.rtt == s.rtt
            && (b.sndQueue != [] && b.sndBuf == [] ==> s.wnd.rmt == 0)
  {
    var s1 := HandleWindowProbe(FlushAcks(s), now);
    SendInvOfProbe(m, s, now);
    MoveStops(m, s1, now);
    var b := MoveToSendBuf(m, s1, now);
    hide SendInv, MoveToSendBuf, ProbeTimer, OutputAll, Before, Add, EffectiveWindow, AckWires, ProbeWires;
    if b.sndQueue != [] && b.sndBuf == [] { NothingInFlight(m, b); }
  }

  lemma SendInvOfProbe(m: Arith, s: State, now: u32)
    requires SendInv(m, s)
    ensures SendInv(m, HandleWindowProbe(FlushAcks(s), now))
  {
    hide ProbeTimer, OutputAll, Ascending;
  }

  /** After a flush: what it left of the state before its scan. */
  lemma FlushFacts(m: Arith, s: State, now: u32)
    ensures var (r, b) := (Flush(m, s, now).0, BeforeScan(m, s, now));
            && r.sndBuf == MarkAll(b.cfg, b.rtt.rto, b.sndBuf, now) && r.sndQueue == b.sndQueue
            && r.probe == b.probe && r.wnd.rmt == b.wnd.rmt && r.ackList == b.ackList && r.cfg == b.cfg
  {
    hide MoveToSendBuf, HandleWindowProbe, FlushAcks, ToSend, ThroughDead, CloseDatagram, OutputAll, AnyDead, AnyMark,
         MarkAll, U;
  }

  /** No silent stall, exactly. A flush leaves every timer running, and nothing else waiting, if and
      only if the timers it finds fit; and with data still outstanding after it, either something is
      in flight or the peer's window is closed and a probe scheduled. */
  lemma FlushLeavesDeadlines(m: Arith, s: State, now: u32)
    requires SendInv(m, s) && s.wnd.cwnd >= 1 && 1 <= s.rtt.rto <= RTO_MAX && ProbeInv(s.probe)
    ensures var r := Flush(m, s, now).0;
            && (AllAhead(r, now) <==>
                TimersFit(s.cfg, s.rtt.rto, s.sndBuf, now) && ProbeFits(s.probe, s.wnd.rmt, now))
            && (HasUnsentData(r) ==> r.sndBuf != [] || r.wnd.rmt == 0)
            && (r.wnd.rmt == 0 ==> PROBE_INIT <= r.probe.wait <= PROBE_LIMIT)
  {
    BeforeScanFacts(m, s, now);
    FlushFacts(m, s, now);
    ScanLeavesTimers(m, s, now);
    ProbeTimerRuns(s.probe, s.wnd.rmt, now);
    hide Flush, BeforeScan, SendInv, ProbeTimer, TimersFit, Marked, ProbeFits, AllRunning, Ahead;
  }

  /** After the scan every timer runs if and only if those it found fit. */
  lemma ScanLeavesTimers(m: Arith, s: State, now: u32)
    requires 1 <= s.rtt.rto <= RTO_MAX
    ensures AllRunning(Flush(m, s, now).0.sndBuf, now) <==> TimersFit(s.cfg, s.rtt.rto, s.sndBuf, now)
  {
    FlushFacts(m, s, now);
    BufferedTimersFit(m, s, now);
    var r, b := Flush(m, s, now).0, BeforeScan(m, s, now);
    hide Flush, BeforeScan, TimerFits, Marked, Running;
    forall i | 0 <= i < |r.sndBuf|
      ensures Running(r.sndBuf[i], now) <==> TimerFits(b.cfg, b.rtt.rto, b.sndBuf[i], now)
    {
      MarkedRunsIff(b.cfg, b.rtt.rto, b.sndBuf[i], now);
    }
    if AllRunning(r.sndBuf, now) {
      forall i | 0 <= i < |b.sndBuf| ensures TimerFits(b.cfg, b.rtt.rto, b.sndBuf[i], now) {
        assert Running(r.sndBuf[i], now);
      }
    }
  }

  /** Freshly numbered segments have no timer yet. */
  lemma FreshTimerFits(m: Arith, s: State, now: u32)
    requires s.sndQueue != []
    ensures TimersFit(s.cfg, s.rtt.rto, NumberOne(m, s, now).sndBuf, now) <==>
            TimersFit(s.cfg, s.rtt.rto, s.sndBuf, now)
  {
    hide TimeDiff, Backoff, Add;
    var buf, buf1 := s.sndBuf, NumberOne(m, s, now).sndBuf;
    assert forall i :: 0 <= i < |buf| ==> buf1[i] == buf[i];
    assert TimerFits(s.cfg, s.rtt.rto, buf1[|buf|], now);
    hide TimerFits;
    if TimersFit(s.cfg, s.rtt.rto, buf1, now) {
      forall i | 0 <= i < |buf| ensures TimerFits(s.cfg, s.rtt.rto, buf[i], now) {
        assert TimerFits(s.cfg, s.rtt.rto, buf1[i], now);
      }
    }
  }

  lemma {:induction false} MoveKeepsTimers(m: Arith, s: State, now: u32)
    ensures TimersFit(s.cfg, s.rtt.rto, MoveToSendBuf(m, s, now).sndBuf, now) <==>
            TimersFit(s.cfg, s.rtt.rto, s.sndBuf, now)
    decreases |s.sndQueue|
  {
    hide Before, Add, TimersFit, EffectiveWindow;
    if s.sndQueue != [] && Before(m, s.sndNxt, Add(m, s.sndUna, EffectiveWindow(s))) {
      FreshTimerFits(m, s, now);
      MoveKeepsTimers(m, NumberOne(m, s, now), now);
    }
  }

  lemma BufferedTimersFit(m: Arith, s: State, now: u32)
    ensures var b := BeforeScan(m, s, now);
            && b.cfg == s.cfg && b.rtt == s.rtt
            && (TimersFit(b.cfg, b.rtt.rto, b.sndBuf, now) <==> TimersFit(s.cfg, s.rtt.rto, s.sndBuf, now))
  {
    hide TimersFit, MoveToSendBuf, ProbeTimer, OutputAll, AckWires, ProbeWires;
    MoveKeepsTimers(m, HandleWindowProbe(FlushAcks(s), now), now);
  }

  /** A timeout backed off once more, over the integers. */
  function BackedOff(cfg: Config, rto: u32, segRto: u32): nat {
    if cfg.nodelay then segRto + (if cfg.noCongestionControl then rto else segRto) / 2
    else segRto + Max(segRto, cfg.interval)
  }

  /** Nothing caps the back-off. A segment that has timed out, with a timeout below half the circle,
      waits again if and only if the timeout backed off over the integers is below half the circle
      too; beyond that it is due again at once. In normal mode, with no longer an update interval, that
      is so exactly below 2^30 ms; without congestion control exactly below 2^31 less half of `rto`;
      with it, and no delay, as long as half as much again is below 2^31. */
  lemma BackoffLastsIff(cfg: Config, rto: u32, seg: Segment, now: u32)
    requires MarkOf(cfg, seg, now).Timeout? && seg.xmit != U32_MAX
    requires 1 <= seg.rto < HALF && cfg.interval <= HALF && rto <= RTO_MAX
    ensures Running(Marked(cfg, rto, seg, now), now) <==> BackedOff(cfg, rto, seg.rto) < HALF
    ensures BackedOff(cfg, rto, seg.rto) > HALF ==> MarkOf(cfg, Marked(cfg, rto, seg, now), now).Timeout?
    ensures !cfg.nodelay && cfg.interval <= seg.rto ==> (BackedOff(cfg, rto, seg.rto) < HALF <==> seg.rto < HALF / 2)
    ensures cfg.nodelay && cfg.noCongestionControl ==>
            (BackedOff(cfg, rto, seg.rto) < HALF <==> seg.rto < HALF - rto / 2)
    ensures cfg.nodelay && !cfg.noCongestionControl ==>
            (BackedOff(cfg, rto, seg.rto) < HALF <==> seg.rto + seg.rto / 2 < HALF)
  {
    var b := BackedOff(cfg, rto, seg.rto);
    assert Backoff(cfg, rto, seg.rto) == b;
    AheadIff(now, b);
    OneMore(seg.xmit);
    if b > HALF { DueAgain(now, b); }
    hide TimeDiff, Backoff, U, Ahead;
  }

  lemma DueAgain(now: u32, n: int)
    requires HALF < n < M32
    ensures TimeDiff(now, U(now + n)) >= 0
  {
    WrapShift(now + n, now);
    WholeTurns(-n, 1);
  }

  // ---- The window that grows at the end of a flush ----

  lemma OpenIff(m: Arith, s: State)
    requires SendInv(m, s)
    ensures Before(m, s.sndNxt, Add(m, s.sndUna, EffectiveWindow(s))) <==>
            Off(m, s.sndNxt, s.sndUna) < EffectiveWindow(s)
  {
    var w := EffectiveWindow(s);
    OffAdd(m, s.sndUna, w, s.sndUna);
    DiffIsOffsets(m, s.sndNxt, Add(m, s.sndUna, w), s.sndUna);
    hide Diff, Add;
  }

  lemma FlushNumbersIff(m: Arith, s: State, now: u32)
    requires SendInv(m, s)
    ensures |Flush(m, s, now).0.sndQueue| < |s.sndQueue| <==>
            s.sndQueue != [] && Off(m, s.sndNxt, s.sndUna) < EffectiveWindow(s)
  {
    var s1 := HandleWindowProbe(FlushAcks(s), now);
    SendInvOfProbe(m, s, now);
    FlushFacts(m, s, now);
    MoveNeverAdds(m, s1, now);
    OpenIff(m, s1);
    hide SendInv, Flush, MoveToSendBuf, OutputAll, ProbeTimer, AckWires, ProbeWires, Before, Add, Off;
  }

  lemma {:induction false} MoveNeverAdds(m: Arith, s: State, now: u32)
    ensures var r := MoveToSendBuf(m, s, now);
            && |r.sndQueue| <= |s.sndQueue|
            && (|r.sndQueue| < |s.sndQueue| <==>
                s.sndQueue != [] && Before(m, s.sndNxt, Add(m, s.sndUna, EffectiveWindow(s))))
    decreases |s.sndQueue|
  {
    hide Before, Add, EffectiveWindow;
    if s.sndQueue != [] { MoveNeverAdds(m, NumberOne(m, s, now), now); }
  }

  /** The window a fast loss leaves, in a flush in which nothing timed out. */
  function WindowAfterFastLoss(cfg: Config, inflight: int): u32 {
    U(Max(inflight / 2, THRESH_MIN) + ResendThreshold(cfg))
  }

  /** A flush that left `r`, having scanned `buf` at `now`, ended with a window that has room: it
      fast-retransmitted, saw no timeout, and left less in flight than the window then allows. */
  ghost predicate FastLossOpens(m: Arith, r: State, buf: seq<Segment>, now: u32) {
    var inflight := Off(m, r.sndNxt, r.sndUna);
    && !r.cfg.noCongestionControl && AnyMark(r.cfg, buf, now, Fast) && !AnyMark(r.cfg, buf, now, Timeout)
    && inflight < Min(WindowAfterFastLoss(r.cfg, inflight), Min(r.cfg.sndWnd, r.wnd.rmt))
  }

  /** `check` does not see that a flush can end with a wider window than it numbered segments for. A
      second flush at once numbers something if and only if something is still queued, congestion
      control is on, the first one fast-retransmitted and saw no timeout, and less is in flight than
      the window the fast loss leaves allows; and `check` gives no sign of it. */
  lemma SecondFlushNumbersIff(m: Arith, s: State, now: u32)
    requires SendInv(m, s) && s.wnd.cwnd >= 1 && Flush(m, s, now).1
    ensures var r := Flush(m, s, now).0;
            && (|Flush(m, r, now).0.sndQueue| < |r.sndQueue| <==>
                r.sndQueue != [] && FastLossOpens(m, r, BeforeScan(m, s, now).sndBuf, now))
            && (AllAhead(r, now) ==> Check(r, now) >= 1)
  {
    hide Flush, BeforeScan, SendInv, AnyMark, AllAhead, Check, U, Off, EffectiveWindow, FastLossOpens;
    var (r, b) := (Flush(m, s, now).0, BeforeScan(m, s, now));
    FlushKeepsSendInv(m, s, now);
    FlushNumbersIff(m, r, now);
    WindowWasFull(m, s, now);
    WindowAfterFlush(m, s, now);
    if AllAhead(r, now) { CheckIsAhead(r, now); }
    if r.sndQueue != [] { RoomOpened(m, r, b, now); }
  }

  /** By what the scan of `b` marked, how the window after it compares with what is in flight. */
  ghost predicate LossWindow(m: Arith, r: State, b: State, now: u32) {
    var (lost, change) := (AnyMark(b.cfg, b.sndBuf, now, Timeout), AnyMark(b.cfg, b.sndBuf, now, Fast));
    && r.cfg == b.cfg && r.wnd.rmt == b.wnd.rmt
    && (lost || change ==> b.sndBuf != [])
    && r.wnd.cwnd == if lost then 1
                     else if change then Max(WindowAfterFastLoss(b.cfg, Off(m, r.sndNxt, r.sndUna)), 1)
                     else b.wnd.cwnd
  }

  lemma RoomOpened(m: Arith, r: State, b: State, now: u32)
    requires LossWindow(m, r, b, now) && b.wnd.cwnd >= 1
    requires Off(m, r.sndNxt, r.sndUna) >= EffectiveWindow(b)
    requires b.sndBuf != [] ==> Off(m, r.sndNxt, r.sndUna) >= 1
    ensures Off(m, r.sndNxt, r.sndUna) < EffectiveWindow(r) <==> FastLossOpens(m, r, b.sndBuf, now)
  {
    hide AnyMark, Off, WindowAfterFastLoss;
  }

  lemma CheckIsAhead(s: State, now: u32)
    requires AllAhead(s, now)
    ensures Check(s, now) >= 1
  {
    UntilIsSmall(s, now);
    SoonestIsLeast(s.sndBuf, now);
    hide TimeDiff, SoonestResend, Until, AllAhead;
  }

  /** When the scan of a flush starts with something still queued, the window is full; and if
      anything is buffered something is in flight. */
  lemma WindowWasFull(m: Arith, s: State, now: u32)
    requires SendInv(m, s) && s.wnd.cwnd >= 1
    ensures var (r, b) := (Flush(m, s, now).0, BeforeScan(m, s, now));
            && r.sndQueue == b.sndQueue && r.sndNxt == b.sndNxt && r.sndUna == b.sndUna
            && b.cfg == s.cfg && b.wnd == s.wnd
            && (b.sndQueue != [] ==> Off(m, r.sndNxt, r.sndUna) >= EffectiveWindow(b))
            && (b.sndBuf != [] ==> Off(m, r.sndNxt, r.sndUna) >= 1)
            && 0 <= Off(m, r.sndNxt, r.sndUna) <= 65535
  {
    var s1 := HandleWindowProbe(FlushAcks(s), now);
    SendInvOfProbe(m, s, now);
    MoveStops(m, s1, now);
    var b := MoveToSendBuf(m, s1, now);
    OpenIff(m, b);
    SomethingInFlight(m, b);
    FlushNumbering(m, s, now);
    hide SendInv, Flush, MoveToSendBuf, OutputAll, ProbeTimer, AckWires, ProbeWires, Before, Add, Off;
  }

  lemma FlushNumbering(m: Arith, s: State, now: u32)
    ensures var (r, b) := (Flush(m, s, now).0, BeforeScan(m, s, now));
            r.sndQueue == b.sndQueue && r.sndNxt == b.sndNxt && r.sndUna == b.sndUna
  {
    hide MoveToSendBuf, HandleWindowProbe, FlushAcks, ToSend, ThroughDead, CloseDatagram, OutputAll, AnyDead, AnyMark,
         MarkAll, U;
  }

  lemma SomethingInFlight(m: Arith, s: State)
    requires SendInv(m, s)
    ensures 0 <= Off(m, s.sndNxt, s.sndUna) <= 65535
    ensures s.sndBuf != [] ==> Off(m, s.sndNxt, s.sndUna) >= 1
  {
    if s.sndBuf != [] { assert Off(m, s.sndBuf[0].sn, s.sndUna) < Off(m, s.sndNxt, s.sndUna); }
    hide Off;
  }

  lemma WindowAfterFlush(m: Arith, s: State, now: u32)
    requires SendInv(m, s) && s.wnd.cwnd >= 1 && Flush(m, s, now).1
    ensures LossWindow(m, Flush(m, s, now).0, BeforeScan(m, s, now), now)
  {
    hide Flush, BeforeScan, SendInv, AnyMark, UpdateCongestionOnLoss, LossWindow, Off;
    WindowWasFull(m, s, now);
    FlushWindow(m, s, now);
    InflightIsOffset(m, BeforeScan(m, s, now));
    FlushFacts(m, s, now);
    LossGivesWindow(m, Flush(m, s, now).0, BeforeScan(m, s, now), now);
  }

  lemma FlushWindow(m: Arith, s: State, now: u32)
    requires Flush(m, s, now).1
    ensures var b := BeforeScan(m, s, now);
            var (lost, change) := (AnyMark(b.cfg, b.sndBuf, now, Timeout), AnyMark(b.cfg, b.sndBuf, now, Fast));
            Flush(m, s, now).0.wnd == UpdateCongestionOnLoss(m, b, lost, change).wnd
  {
    hide MoveToSendBuf, HandleWindowProbe, FlushAcks, ToSend, ThroughDead, CloseDatagram, OutputAll, AnyDead, AnyMark,
         MarkAll, U, OnFastLoss, OnTimeoutLoss, ResetCwnd;
  }

  lemma LossGivesWindow(m: Arith, r: State, b: State, now: u32)
    requires b.wnd.cwnd >= 1 && U(b.sndNxt - b.sndUna) == Off(m, r.sndNxt, r.sndUna) && r.cfg == b.cfg
    requires var (lost, change) := (AnyMark(b.cfg, b.sndBuf, now, Timeout), AnyMark(b.cfg, b.sndBuf, now, Fast));
             r.wnd == UpdateCongestionOnLoss(m, b, lost, change).wnd
    ensures LossWindow(m, r, b, now)
  {
    hide U, Off, Mss;
  }

  lemma InflightIsOffset(m: Arith, s: State)
    requires 0 <= Off(m, s.sndNxt, s.sndUna) <= 65535
    ensures U(s.sndNxt - s.sndUna) == Off(m, s.sndNxt, s.sndUna)
  {
  }

  // ---- Every flush of every run ----

  /** No silent stall: whatever an engine was asked to do and whatever packets it got, a flush leaves
      every timer running and nothing else waiting if and only if the timers it finds fit, and leaves
      nothing outstanding without one. */
  lemma EveryFlushLeavesDeadlines(m: Arith, conv: u32, cfg: Config, ops: seq<Op>, now: u32)
    ensures var s := Run(m, Init(conv, cfg), ops);
            var r := Flush(m, s, now).0;
            && (AllAhead(r, now) <==>
                TimersFit(s.cfg, s.rtt.rto, s.sndBuf, now) && ProbeFits(s.probe, s.wnd.rmt, now))
            && (HasUnsentData(r) ==> r.sndBuf != [] || r.wnd.rmt == 0)
            && (r.wnd.rmt == 0 ==> PROBE_INIT <= r.probe.wait <= PROBE_LIMIT)
  {
    hide Run, Flush, SendInv, TimersFit, ProbeFits, AllAhead;
    EveryRunKeepsSendInv(m, conv, cfg, ops);
    EveryRunKeepsWindowOpen(m, conv, cfg, ops);
    EveryRunKeepsRttInv(m, conv, cfg, ops);
    EveryRunKeepsProbeInv(m, conv, cfg, ops);
    FlushLeavesDeadlines(m, Run(m, Init(conv, cfg), ops), now);
  }

  // ---- The probe timer in every run ----

  lemma {:induction false} SegmentsKeepProbeTimer(m: Arith, s: State, newest: Newest, ws: seq<Wire>, now: u32)
    ensures var r := InputSegments(m, s, newest, ws, now).0;
            r.probe == s.probe.(askTell := r.probe.askTell)
    decreases |ws|
  {
    if ws != [] {
      var (s1, newest1) := InputSegment(m, s, newest, ws[0], now);
      assert s1.probe == s.probe.(askTell := s1.probe.askTell)
        by { hide UpdateAck, InputPush, DropUna, RemoveSn, InFlight, TrackNewest; }
      hide InputSegment;
      SegmentsKeepProbeTimer(m, s1, newest1, ws[1..], now);
    }
  }

  /** In every run the probe interval is none, or between 7 and 120 seconds. */
  lemma {:induction false} EveryRunKeepsProbeInv(m: Arith, conv: u32, cfg: Config, ops: seq<Op>)
    ensures ProbeInv(Run(m, Init(conv, cfg), ops).probe)
    decreases |ops|
  {
    if ops != [] {
      var init := ops[..|ops| - 1];
      EveryRunKeepsProbeInv(m, conv, cfg, init);
      StepKeepsProbeInv(m, Run(m, Init(conv, cfg), init), ops[|ops| - 1]);
    }
  }

  lemma FlushProbe(m: Arith, s: State, now: u32)
    ensures Flush(m, s, now).0.probe == ProbeTimer(s.probe, s.wnd.rmt, now).(askSend := false, askTell := false)
  {
    FlushFacts(m, s, now);
    hide Flush, MoveToSendBuf, ProbeTimer, OutputAll, AckWires, ProbeWires;
  }

  lemma TimerKeepsProbeInv(p: Probe, rmt: u16, now: u32)
    requires ProbeInv(p)
    ensures ProbeInv(ProbeTimer(p, rmt, now))
  {
  }

  lemma StepKeepsProbeInv(m: Arith, s: State, op: Op)
    requires ProbeInv(s.probe)
    ensures ProbeInv(Step(m, s, op).probe)
  {
    hide Flush, Send, ProbeTimer;
    match op
    case DoSend(data) =>
    case DoRecv => hide PeekSize, TakeMessage;
    case DoInput(ws, now) =>
      hide InputSegments, BumpFastack, InFlight, UpdateCwnd;
      SegmentsKeepProbeTimer(m, s, NoAck, ws, now);
    case DoFlush(now) =>
      FlushProbe(m, s, now);
      TimerKeepsProbeInv(s.probe, s.wnd.rmt, now);
    case DoProbe(now) =>
      FlushProbe(m, s.(probe := s.probe.(askSend := true)), now);
      TimerKeepsProbeInv(s.probe.(askSend := true), s.wnd.rmt, now);
    case DoDrain =>
  }

  /** What makes a pending window announcement reach the peer: the next flush transmits it, with the
      window as it then is. */
  lemma AnnouncementIsSent(m: Arith, s: State, now: u32)
    requires s.probe.askTell
    ensures exists w :: w in FlushWires(m, s, now) && w.cmd == CMD_WINS && w.wnd == WndUnused(s) && w.una == s.rcvNxt
  {
    hide BeforeScan, Sending, AckWires, DataWires;
    var s1 := s.(probe := ProbeTimer(s.probe, s.wnd.rmt, now));
    var w := ProbeWire(s1, CMD_WINS, now);
    assert s1.probe.askTell by { hide TimeDiff; }
    assert w in ProbeWires(s1, now);
    assert w in FlushWires(m, s, now);
  }
}
