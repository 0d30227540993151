/** Exactly which configurations keep the congestion window within 16 bits in every run. */
module WindowRange {
  import opened Word
  import opened Protocol
  import opened EngineSpec
  import opened EngineRun
  import opened SendSide
  import opened Packing
  import opened Congestion
  import opened Deadlines
  import opened HalfRounds
  import opened Scripts

  /** The threshold fits; or nothing can be overtaken, or resent at all. */
  predicate WindowSafe(cfg: Config) {
    ThresholdFits(cfg) || cfg.sndWnd == 1 || cfg.deadLink <= 2
  }

  // ---- With a send window of one nothing is overtaken ----

  ghost predicate NoneOvertaken(buf: seq<Segment>) {
    forall i :: 0 <= i < |buf| ==> buf[i].fastack == 0
  }

  lemma DropKeepsNone(m: Arith, buf: seq<Segment>, una: int)
    requires NoneOvertaken(buf)
    ensures NoneOvertaken(DropUna(m, buf, una))
  {
    var k := DropUnaPops(m, buf, una);
    hide DropUna, Before;
  }

  lemma RemoveKeepsNone(buf: seq<Segment>, sn: int)
    requires NoneOvertaken(buf)
    ensures NoneOvertaken(RemoveSn(buf, sn))
  {
    var j := RemoveSnAt(buf, sn);
    hide RemoveSn;
  }

  lemma SegmentKeepsNone(m: Arith, s: State, newest: Newest, w: Wire, now: u32)
    requires NoneOvertaken(s.sndBuf)
    ensures NoneOvertaken(InputSegment(m, s, newest, w, now).0.sndBuf)
  {
    DropKeepsNone(m, s.sndBuf, w.una);
    RemoveKeepsNone(DropUna(m, s.sndBuf, w.una), w.sn);
    hide UpdateAck, InputPush, DropUna, RemoveSn, InFlight, TrackNewest, NoneOvertaken;
  }

  lemma {:induction false} SegmentsKeepNone(m: Arith, s: State, newest: Newest, ws: seq<Wire>, now: u32)
    requires NoneOvertaken(s.sndBuf)
    ensures NoneOvertaken(InputSegments(m, s, newest, ws, now).0.sndBuf)
    decreases |ws|
  {
    if ws != [] {
      SegmentKeepsNone(m, s, newest, ws[0], now);
      var (s1, newest1) := InputSegment(m, s, newest, ws[0], now);
      hide InputSegment, NoneOvertaken;
      SegmentsKeepNone(m, s1, newest1, ws[1..], now);
    }
  }

  /** The one number that can be in flight is not after itself. */
  lemma OneIsNotOvertaken(m: Arith, s: State, sn: int, ts: u32)
    requires SendInv(m, s) && s.cfg.sndWnd == 1 && InFlight(m, s, sn)
    ensures BumpFastack(m, s.sndBuf, sn, ts) == s.sndBuf
  {
    if s.sndBuf != [] {
      var n := Off(m, s.sndNxt, s.sndUna);
      assert 0 <= n <= 1;
      OffBack(m, s.sndNxt, s.sndUna);
      InWindow(m, sn, s.sndUna, n);
      NotBeforeItself(m, s.sndUna, sn);
    }
    hide Before, Add, Off;
  }

  lemma OffBack(m: Arith, x: int, base: int)
    requires Canonical(m, x)
    ensures Add(m, base, Off(m, x, base)) == x
  {
    if m.Wrapping? {
      WrapShift(x - base, base);
    }
  }

  lemma NotBeforeItself(m: Arith, x: int, y: int)
    requires Off(m, y, x) == 0
    ensures !Before(m, x, y)
  {
    if m.Wrapping? {
      WrapShift(y - x, 0);
      assert x - y == -(y - x) && (y - x) % M32 == 0;
      assert (x - y) % M32 == 0;
    }
  }

  lemma InputKeepsNone(m: Arith, s: State, ws: seq<Wire>, now: u32)
    requires SendInv(m, s) && s.cfg.sndWnd == 1 && NoneOvertaken(s.sndBuf)
    ensures NoneOvertaken(Input(m, s, ws, now).sndBuf)
  {
    SegmentsKeepNone(m, s, NoAck, ws, now);
    SegmentsKeepSendCore(m, s, NoAck, ws, now);
    var (s1, newest) := InputSegments(m, s, NoAck, ws, now);
    ShrinkMakesSendInv(m, s1);
    var s2 := ShrinkBuf(s1);
    hide InputSegments, BumpFastack, InFlight, UpdateCwnd, NoneOvertaken, SendInv;
    if newest.Newest? && InFlight(m, s2, newest.sn) { OneIsNotOvertaken(m, s2, newest.sn, newest.ts); }
  }

  lemma {:induction false} MoveKeepsNone(m: Arith, s: State, now: u32)
    requires NoneOvertaken(s.sndBuf)
    ensures NoneOvertaken(MoveToSendBuf(m, s, now).sndBuf)
    decreases |s.sndQueue|
  {
    hide Before, Add, EffectiveWindow;
    if s.sndQueue != [] { MoveKeepsNone(m, NumberOne(m, s, now), now); }
  }

  lemma ScanFindsNone(m: Arith, s: State, now: u32)
    requires NoneOvertaken(s.sndBuf)
    ensures NoneOvertaken(BeforeScan(m, s, now).sndBuf)
  {
    hide MoveToSendBuf, ProbeTimer, OutputAll, AckWires, ProbeWires;
    MoveKeepsNone(m, HandleWindowProbe(FlushAcks(s), now), now);
  }

  lemma FlushKeepsNone(m: Arith, s: State, now: u32)
    requires NoneOvertaken(s.sndBuf)
    ensures NoneOvertaken(Flush(m, s, now).0.sndBuf)
  {
    ScanFindsNone(m, s, now);
    FlushFacts(m, s, now);
    var (r, b) := (Flush(m, s, now).0, BeforeScan(m, s, now));
    hide Flush, BeforeScan, MarkOf, Backoff;
    forall i | 0 <= i < |r.sndBuf| ensures r.sndBuf[i].fastack == 0 {
      assert b.sndBuf[i].fastack == 0;
    }
  }

  lemma StepKeepsNone(m: Arith, s: State, op: Op)
    requires SendInv(m, s) && s.cfg.sndWnd == 1 && NoneOvertaken(s.sndBuf)
    ensures NoneOvertaken(Step(m, s, op).sndBuf)
  {
    hide SendInv, NoneOvertaken, Input, Flush, Send;
    match op
    case DoSend(data) =>
    case DoRecv => hide PeekSize, TakeMessage, MoveToRecvQueue;
    case DoInput(ws, now) => InputKeepsNone(m, s, ws, now);
    case DoFlush(now) => FlushKeepsNone(m, s, now);
    case DoProbe(now) => FlushKeepsNone(m, s.(probe := s.probe.(askSend := true)), now);
    case DoDrain =>
  }

  lemma {:induction false} EveryRunKeepsNone(m: Arith, conv: u32, cfg: Config, ops: seq<Op>)
    requires cfg.sndWnd == 1
    ensures NoneOvertaken(Run(m, Init(conv, cfg), ops).sndBuf)
    decreases |ops|
  {
    if ops != [] {
      hide SendInv, NoneOvertaken, Step;
      var init := ops[..|ops| - 1];
      EveryRunKeepsNone(m, conv, cfg, init);
      EveryRunKeepsSendInv(m, conv, cfg, init);
      RunKeepsConfig(m, conv, cfg, init);
      StepKeepsNone(m, Run(m, Init(conv, cfg), init), ops[|ops| - 1]);
    } else {
      assert Init(conv, cfg).sndBuf == [];
    }
  }

  lemma {:induction false} RunKeepsConfig(m: Arith, conv: u32, cfg: Config, ops: seq<Op>)
    ensures Run(m, Init(conv, cfg), ops).cfg == cfg
    decreases |ops|
  {
    if ops != [] {
      RunKeepsConfig(m, conv, cfg, ops[..|ops| - 1]);
      StepKeepsConfig(m, Run(m, Init(conv, cfg), ops[..|ops| - 1]), ops[|ops| - 1]);
      hide Step;
    }
  }

  lemma StepKeepsConfig(m: Arith, s: State, op: Op)
    ensures Step(m, s, op).cfg == s.cfg
  {
    hide Send, Flush, Input, PeekSize, TakeMessage, MoveToRecvQueue;
  }

  // ---- A flush that resends nothing fast ----

  /** With two transmissions at most a fast one is the last. */
  lemma FastIsDead(cfg: Config, rto: u32, buf: seq<Segment>, now: u32)
    requires cfg.deadLink <= 2 && AnyMark(cfg, buf, now, Fast)
    ensures AnyDead(ToSend(cfg, rto, buf, now), cfg.deadLink)
  {
    ToSendIsDue(cfg, rto, buf, now);
    hide ToSend, MarkOf, Marked;
    var sending := ToSend(cfg, rto, buf, now);
    var i :| 0 <= i < |buf| && MarkOf(cfg, buf[i], now) == Fast;
    FastIsSecond(cfg, rto, buf[i], now);
    var seg := Marked(cfg, rto, buf[i], now);
    assert seg in sending;
    var j :| 0 <= j < |sending| && sending[j] == seg;
    assert sending[j].xmit >= cfg.deadLink;
  }

  lemma FastIsTheLast(m: Arith, s: State, now: u32)
    requires s.cfg.deadLink <= 2 && Flush(m, s, now).1
    ensures var b := BeforeScan(m, s, now);
            !AnyMark(b.cfg, b.sndBuf, now, Fast)
  {
    hide Flush, BeforeScan, AnyMark, AnyDead, ToSend;
    ScanStart(m, s, now);
    SucceedsUnlessDead(m, s, now);
    var b := BeforeScan(m, s, now);
    if AnyMark(b.cfg, b.sndBuf, now, Fast) { FastIsDead(b.cfg, b.rtt.rto, b.sndBuf, now); }
  }

  lemma FastIsSecond(cfg: Config, rto: u32, seg: Segment, now: u32)
    requires MarkOf(cfg, seg, now) == Fast
    ensures Marked(cfg, rto, seg, now).xmit >= 2
  {
    hide TimeDiff;
  }

  lemma NoneIsFast(m: Arith, s: State, now: u32)
    requires NoneOvertaken(s.sndBuf)
    ensures var b := BeforeScan(m, s, now);
            !AnyMark(b.cfg, b.sndBuf, now, Fast)
  {
    ScanFindsNone(m, s, now);
    hide BeforeScan, TimeDiff;
  }

  lemma FailedFlushKeepsWindow(m: Arith, s: State, now: u32)
    requires !Flush(m, s, now).1
    ensures Flush(m, s, now).0.wnd == s.wnd
  {
    hide MoveToSendBuf, ProbeTimer, OutputAll, AckWires, ProbeWires, ToSend, ThroughDead, CloseDatagram, AnyDead,
         AnyMark, MarkAll, DataWires, UpdateCongestionOnLoss;
  }

  lemma SlowLossKeeps(m: Arith, s: State, lost: bool)
    requires CwndInv(s.wnd, Mss(s.cfg))
    ensures CwndInv(UpdateCongestionOnLoss(m, s, lost, false).wnd, Mss(s.cfg))
  {
    TimeoutLossKeeps(s.wnd, Mss(s.cfg));
    hide OnTimeoutLoss, Mss;
  }

  lemma FlushKeepsRange(m: Arith, s: State, now: u32)
    requires SendInv(m, s) && CwndInv(s.wnd, Mss(s.cfg)) && WindowSafe(s.cfg)
    requires s.cfg.sndWnd == 1 ==> NoneOvertaken(s.sndBuf)
    ensures CwndInv(Flush(m, s, now).0.wnd, Mss(s.cfg))
  {
    hide Flush, BeforeScan, SendInv, CwndInv, Mss, AnyMark, UpdateCongestionOnLoss;
    if ThresholdFits(s.cfg) {
      FlushKeepsCwndInv(m, s, now);
    } else if !Flush(m, s, now).1 {
      FailedFlushKeepsWindow(m, s, now);
    } else {
      if s.cfg.sndWnd == 1 { NoneIsFast(m, s, now); } else { FastIsTheLast(m, s, now); }
      FlushWindow(m, s, now);
      ScanKeepsWindow(m, s, now);
      var b := BeforeScan(m, s, now);
      SlowLossKeeps(m, b, AnyMark(b.cfg, b.sndBuf, now, Timeout));
    }
  }

  lemma ScanKeepsWindow(m: Arith, s: State, now: u32)
    ensures BeforeScan(m, s, now).wnd == s.wnd && BeforeScan(m, s, now).cfg == s.cfg
  {
    hide MoveToSendBuf, ProbeTimer, OutputAll, AckWires, ProbeWires;
  }

  lemma StepKeepsRange(m: Arith, s: State, op: Op)
    requires SendInv(m, s) && CwndInv(s.wnd, Mss(s.cfg)) && WindowSafe(s.cfg)
    requires s.cfg.sndWnd == 1 ==> NoneOvertaken(s.sndBuf)
    ensures CwndInv(Step(m, s, op).wnd, Mss(s.cfg))
  {
    hide SendInv, CwndInv, Mss, Input, Flush, Send, NoneOvertaken, WindowSafe;
    match op
    case DoSend(data) =>
    case DoRecv => hide PeekSize, TakeMessage, MoveToRecvQueue;
    case DoInput(ws, now) => InputKeepsCwndInv(m, s, ws, now);
    case DoFlush(now) => FlushKeepsRange(m, s, now);
    case DoProbe(now) =>
      AskKeepsSendInv(m, s);
      FlushKeepsRange(m, s.(probe := s.probe.(askSend := true)), now);
    case DoDrain =>
  }

  lemma {:induction false} SafeRunsKeepRange(m: Arith, conv: u32, cfg: Config, ops: seq<Op>)
    requires WindowSafe(cfg)
    ensures CwndInv(Run(m, Init(conv, cfg), ops).wnd, Mss(cfg))
    decreases |ops|
  {
    hide CwndInv, Step, SendInv, NoneOvertaken, WindowSafe, Mss;
    if ops == [] {
      InitialWindow(conv, cfg);
    } else {
      hide Init;
      var init := ops[..|ops| - 1];
      SafeRunsKeepRange(m, conv, cfg, init);
      EveryRunKeepsSendInv(m, conv, cfg, init);
      if cfg.sndWnd == 1 { EveryRunKeepsNone(m, conv, cfg, init); }
      RunKeepsConfig(m, conv, cfg, init);
      StepKeepsRange(m, Run(m, Init(conv, cfg), init), ops[|ops| - 1]);
    }
  }

  lemma InitialWindow(conv: u32, cfg: Config)
    ensures CwndInv(Init(conv, cfg).wnd, Mss(cfg))
  {
    WindowBytes(cfg.sndWnd, Mss(cfg));
  }

  // ---- In every other configuration some run takes the window out of its range ----

  /** How many segments in flight take the new window out of its range. */
  function Worst(cfg: Config): nat {
    if Max(cfg.sndWnd / 2, THRESH_MIN) + ResendThreshold(cfg) < M32 then cfg.sndWnd else 2
  }

  function Overshoot(conv: u32, cfg: Config, full: Bytes): seq<Op> {
    Opening(conv, full, Worst(cfg)) + Acks(conv, 0, 0, ResendThreshold(cfg)) + [DoFlush(0)]
  }

  lemma NotDueYet(cfg: Config, full: Bytes, seg: Segment)
    requires SameContent(seg, FirstSent(cfg, full, seg.sn))
    ensures seg.xmit == 1 && !MarkOf(cfg, seg, 0).Timeout?
    ensures seg.fastack >= ResendThreshold(cfg) ==> MarkOf(cfg, seg, 0).Fast?
  {
    var a, b := seg.(fastack := 0), FirstSent(cfg, full, seg.sn).(fastack := 0);
    assert a.xmit == b.xmit && a.resendts == b.resendts;
  }

  /** After the acknowledgements: all in flight as first sent, the oldest overtaken `threshold` times. */
  ghost predicate Overdone(s: State, cfg: Config, full: Bytes) {
    && s.cfg == cfg && s.sndUna == 0 && s.sndNxt == Worst(cfg) && s.sndQueue == [] && s.wnd.cwnd == cfg.sndWnd
    && s.sndBuf != [] && s.sndBuf[0].fastack == ResendThreshold(cfg)
    && forall i :: 0 <= i < |s.sndBuf| ==> SameContent(s.sndBuf[i], FirstSent(cfg, full, s.sndBuf[i].sn))
  }

  lemma OverdoneRun(m: Arith, s: State, conv: u32, cfg: Config, full: Bytes)
    requires Opened(s, conv, cfg, full, Worst(cfg)) && Worst(cfg) >= 2
    ensures Overdone(Run(m, s, Acks(conv, 0, 0, ResendThreshold(cfg))), cfg, full)
  {
    var k := ResendThreshold(cfg);
    assert k >= 1;
    assert FrontFlying(s, 0) by { assert s.sndBuf[0] == FirstSent(cfg, full, 0); }
    AcksRun(m, s, 0, 0, k);
    var r := Run(m, s, Acks(conv, 0, 0, k));
    hide Run, Acks, FirstSent, ResendThreshold;
    assert s.sndBuf[0].fastack == 0 by { NewIsNotOvertaken(cfg, full); }
    forall i | 0 <= i < |r.sndBuf| ensures SameContent(r.sndBuf[i], FirstSent(cfg, full, r.sndBuf[i].sn)) {
      assert SurvivorOf(r.sndBuf[i], s.sndBuf);
      var j :| 0 <= j < |s.sndBuf| && SameContent(r.sndBuf[i], s.sndBuf[j]);
      SameCount(r.sndBuf[i], s.sndBuf[j]);
      NumberOfFirst(cfg, full, j);
    }
  }

  lemma NewIsNotOvertaken(cfg: Config, full: Bytes)
    ensures FirstSent(cfg, full, 0).fastack == 0
  {
  }

  lemma NumberOfFirst(cfg: Config, full: Bytes, sn: int)
    ensures FirstSent(cfg, full, sn).sn == sn
  {
  }

  lemma OverdoneFlush(m: Arith, s: State, cfg: Config, full: Bytes)
    requires Overdone(s, cfg, full) && !WindowSafe(cfg)
    ensures Flush(m, s, 0).1 && Flush(m, s, 0).0.wnd.cwnd > 65535
  {
    hide Flush, BeforeScan, MarkOf, EffectiveWindow, SameContent, UpdateCongestionOnLoss, FirstSent;
    ScanOf(m, s, 0);
    forall i | 0 <= i < |s.sndBuf|
      ensures s.sndBuf[i].xmit == 1 && !MarkOf(cfg, s.sndBuf[i], 0).Timeout?
      ensures s.sndBuf[i].fastack >= ResendThreshold(cfg) ==> MarkOf(cfg, s.sndBuf[i], 0).Fast?
    {
      NotDueYet(cfg, full, s.sndBuf[i]);
    }
    SpareFlush(m, s, 0, 1);
    var b := BeforeScan(m, s, 0);
    assert MarkOf(b.cfg, b.sndBuf[0], 0) == Fast;
    WindowOf(m, s, 0);
    TooWide(m, b, cfg);
  }

  lemma TooWide(m: Arith, s: State, cfg: Config)
    requires s.cfg == cfg && !WindowSafe(cfg) && s.sndUna == 0 && s.sndNxt == Worst(cfg)
    ensures UpdateCongestionOnLoss(m, s, false, true).wnd.cwnd > 65535
  {
    hide Mss;
  }

  lemma BeforeOvershoot(m: Arith, conv: u32, cfg: Config, full: Bytes)
    requires |full| == Mss(cfg) && !WindowSafe(cfg)
    ensures var ops := Opening(conv, full, Worst(cfg)) + Acks(conv, 0, 0, ResendThreshold(cfg));
            NeverFails(m, Init(conv, cfg), ops) && Overdone(Run(m, Init(conv, cfg), ops), cfg, full)
  {
    WorstIsInFlight(cfg);
    hide Run, NeverFails, Opening, Opened, Acks, Overdone, Worst, ResendThreshold, WindowSafe, Init;
    var s0, a := Init(conv, cfg), Opening(conv, full, Worst(cfg));
    var b := Acks(conv, 0, 0, ResendThreshold(cfg));
    OpeningRun(m, conv, cfg, full, Worst(cfg));
    OverdoneRun(m, Run(m, s0, a), conv, cfg, full);
    RunAppend(m, s0, a, b);
    AcksNeverFail(m, Run(m, s0, a), conv, 0, 0, ResendThreshold(cfg));
    NeverFailsOn(m, s0, a, b);
  }

  lemma OvershootRun(m: Arith, conv: u32, cfg: Config, full: Bytes)
    requires |full| == Mss(cfg) && !WindowSafe(cfg)
    ensures var ops := Overshoot(conv, cfg, full);
            NeverFails(m, Init(conv, cfg), ops) && Run(m, Init(conv, cfg), ops).wnd.cwnd > 65535
  {
    hide Run, NeverFails, Opening, Acks, Flush, Overdone, WindowSafe, Init;
    var ops := Opening(conv, full, Worst(cfg)) + Acks(conv, 0, 0, ResendThreshold(cfg));
    BeforeOvershoot(m, conv, cfg, full);
    OverdoneFlush(m, Run(m, Init(conv, cfg), ops), cfg, full);
    RunThen(m, Init(conv, cfg), ops, DoFlush(0));
    NeverFailsThen(m, Init(conv, cfg), ops, DoFlush(0));
  }

  lemma WorstIsInFlight(cfg: Config)
    requires !WindowSafe(cfg)
    ensures 2 <= Worst(cfg) <= cfg.sndWnd && cfg.deadLink >= 3
  {
  }

  // ---- Exactly ----

  /** Whatever is sent, received and lost, and whatever the peer claims, the congestion window stays
      between 1 and 65535, `ssthresh` at least 2 and the bytes below one segment over the window; if
      and only if the fast-resend threshold fits, or the send window is one, or no more than two
      transmissions are allowed. */
  lemma WindowStaysIff(m: Arith, conv: u32, cfg: Config)
    ensures WindowSafe(cfg) <==> forall ops: seq<Op> :: CwndInv(Run(m, Init(conv, cfg), ops).wnd, Mss(cfg))
  {
    if WindowSafe(cfg) {
      forall ops: seq<Op> ensures CwndInv(Run(m, Init(conv, cfg), ops).wnd, Mss(cfg)) {
        SafeRunsKeepRange(m, conv, cfg, ops);
      }
    } else {
      var full: Bytes := seq(Mss(cfg), i => 0);
      OvershootRun(m, conv, cfg, full);
      hide Run;
      assert !CwndInv(Run(m, Init(conv, cfg), Overshoot(conv, cfg, full)).wnd, Mss(cfg));
    }
  }
}
