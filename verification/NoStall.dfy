/** No silent stall, in runs with real time: while flushes are not 2^31 ms apart and back-off cannot
    reach 2^31 ms, every flush leaves a running timer for all that is outstanding. */
module NoStall {
  import opened Word
  import opened Protocol
  import opened EngineSpec
  import opened EngineRun
  import opened SendSide
  import opened Fragments
  import opened Packing
  import opened Deadlines
  import opened NetworkSafety
  import opened SegmentLife

  // ---- A live run is a run of the engine ----

  function EngineOps(op: LiveOp): seq<Op> {
    match op
    case LiveSend(data) => [DoSend(data)]
    case LiveRecv => [DoRecv]
    case LiveInput(ws, t) => [DoInput(ws, U(t))]
    case LiveFlush(t) => [DoFlush(U(t)), DoDrain]
    case LiveKeepAlive(t) => [DoProbe(U(t)), DoDrain]
  }

  function AllEngineOps(ops: seq<LiveOp>): seq<Op> {
    if ops == [] then [] else AllEngineOps(ops[..|ops| - 1]) + EngineOps(ops[|ops| - 1])
  }

  lemma RunOnce(m: Arith, s: State, a: seq<Op>, op: Op)
    ensures Run(m, s, a + [op]) == Step(m, Run(m, s, a), op)
  {
    assert (a + [op])[..|a + [op]| - 1] == a;
    hide Step;
  }

  lemma RunTwice(m: Arith, s: State, a: seq<Op>, op: Op, op1: Op)
    ensures Run(m, s, a + [op, op1]) == Step(m, Step(m, Run(m, s, a), op), op1)
  {
    hide Step, Run;
    RunOnce(m, s, a, op);
    RunOnce(m, s, a + [op], op1);
    assert a + [op, op1] == a + [op] + [op1];
  }

  lemma StepIsOps(m: Arith, s: State, a: seq<Op>, x: Tracked, op: LiveOp)
    requires x.eng == Run(Exact, s, a)
    ensures TrackStep(x, op).eng == Run(Exact, s, a + EngineOps(op))
  {
    hide Run, Flush, Send, Recv, Input, TrackFlush, TrackInput;
    match op
    case LiveSend(data) => RunOnce(Exact, s, a, DoSend(data));
    case LiveRecv => RunOnce(Exact, s, a, DoRecv);
    case LiveInput(ws, t) =>
      RunOnce(Exact, s, a, DoInput(ws, U(t)));
      InputFrameOf(x, ws, t);
    case LiveFlush(t) =>
      RunTwice(Exact, s, a, DoFlush(U(t)), DoDrain);
      TrackFrame(x, t);
    case LiveKeepAlive(t) =>
      RunTwice(Exact, s, a, DoProbe(U(t)), DoDrain);
      TrackFrame(x.(eng := x.eng.(probe := x.eng.probe.(askSend := true))), t);
  }

  /** The engine of a live run is the engine after its operations. */
  lemma {:induction false} TrackIsRun(conv: u32, cfg: Config, ops: seq<LiveOp>)
    ensures TrackRun(conv, cfg, ops).eng == Run(Exact, Init(conv, cfg), AllEngineOps(ops))
    decreases |ops|
  {
    if ops != [] {
      hide TrackStep, Run, Init, EngineOps;
      var init := ops[..|ops| - 1];
      TrackIsRun(conv, cfg, init);
      StepIsOps(Exact, Init(conv, cfg), AllEngineOps(init), TrackRun(conv, cfg, init), ops[|ops| - 1]);
    } else {
      assert AllEngineOps(ops) == [];
    }
  }

  // ---- Flushes come in time ----

  predicate IsFlush(op: LiveOp) {
    op.LiveFlush? || op.LiveKeepAlive?
  }

  /** When the run flushed last, 0 if it never did. */
  function LastFlush(ops: seq<LiveOp>): nat {
    if ops == [] then 0
    else
      var last := ops[|ops| - 1];
      if IsFlush(last) then last.t else LastFlush(ops[..|ops| - 1])
  }

  /** Each flush came less than 2^31 ms (24.8 days) after the one before. */
  ghost predicate Prompt(ops: seq<LiveOp>) {
    ops == [] ||
    (var init, last := ops[..|ops| - 1], ops[|ops| - 1];
     Prompt(init) && (IsFlush(last) ==> last.t < LastFlush(init) + HALF))
  }

  /** Every timer lies ahead of the last flush, at `flushed`: the probe timer, and that of every
      segment whose back-off fits. */
  ghost predicate OnTime(x: Tracked, flushed: nat) {
    && flushed <= x.clock
    && (forall i :: 0 <= i < |x.eng.sndBuf| ==> SegmentOnTime(x, x.eng.sndBuf[i], flushed))
    && (x.eng.probe.wait != 0 ==> Ahead(x.eng.probe.ts, U(flushed)))
  }

  ghost predicate SegmentOnTime(x: Tracked, seg: Segment, flushed: nat) {
    0 <= seg.sn < |x.lives| && (BackoffFits(x.eng.cfg, x.lives[seg.sn].rto) ==> Ahead(seg.resendts, U(flushed)))
  }

  /** A timer that lay ahead less than half the circle ago is not half the circle behind. */
  lemma NotHalfBehind(deadline: u32, flushed: nat, t: nat)
    requires Ahead(deadline, U(flushed)) && flushed <= t < flushed + HALF
    ensures TimeDiff(U(t), deadline) != -HALF
  {
    Elapsed(deadline, U(flushed), t - flushed);
    WrapShift(flushed, t - flushed);
    hide TimeDiff, U;
  }

  /** A scan leaves the timer of a segment running if its back-off fits. */
  lemma ScannedRuns(x: Tracked, seg: Segment, life: Life, flushed: nat, t: nat, rto: u32)
    requires flushed <= t < flushed + HALF && 1 <= rto <= RTO_MAX
    requires seg.xmit == 0 || LifeInv(x.eng.cfg, seg, life, x.clock, x.steps)
    requires seg.xmit != 0 ==> BackoffFits(x.eng.cfg, life.rto) && Ahead(seg.resendts, U(flushed))
    ensures Running(Marked(x.eng.cfg, rto, seg, U(t)), U(t))
  {
    hide LifeInv, BackoffFits, Marked, Ahead, Running, TimeDiff, U;
    MarkedRunsIff(x.eng.cfg, rto, seg, U(t));
    if seg.xmit != 0 {
      NotHalfBehind(seg.resendts, flushed, t);
      LivingTimerFits(x.eng.cfg, rto, seg, life, x.clock, x.steps, t);
    }
  }

  /** A scan changes the recorded first timeout of a segment only when it transmits it first. */
  lemma SameFirstTimeout(life: Life, mark: Mark, rto: u32, t: nat)
    ensures !mark.First? ==> LifeAfterMark(life, mark, rto, t).rto == life.rto
  {
  }

  /** The `i`-th segment scanned is one buffered before, or one never sent. */
  lemma ScannedIsOld(x: Tracked, t: nat, i: nat)
    requires TrackedInv(x) && i < |BeforeScan(Exact, x.eng, U(t)).sndBuf|
    ensures var seg := BeforeScan(Exact, x.eng, U(t)).sndBuf[i];
            seg.xmit == 0 || (i < |x.eng.sndBuf| && seg == x.eng.sndBuf[i] && Lives(x, seg))
  {
    var k := FlushNumbers(x.eng, U(t));
    hide Flush, BeforeScan, LifeInv, SendInv;
    if i < |x.eng.sndBuf| { assert Lives(x, x.eng.sndBuf[i]); }
  }

  lemma FlushedOnTime(x: Tracked, flushed: nat, t: nat, i: nat)
    requires TrackedInv(x) && OnTime(x, flushed) && x.clock <= t < flushed + HALF
    requires i < |BeforeScan(Exact, x.eng, U(t)).sndBuf|
    ensures var b := BeforeScan(Exact, x.eng, U(t));
            SegmentOnTime(TrackFlush(x, t), Marked(b.cfg, b.rtt.rto, b.sndBuf[i], U(t)), t)
  {
    hide Flush, BeforeScan, LifeInv, FlushWires, Marked, TrackedInv, TrackFlush, CountPush, Distinct, BackoffFits,
         LifeAfterMark, Ahead, U;
    var k := ScannedLife(x, t);
    ScannedIsOld(x, t, i);
    LifeRecorded(x, t, i);
    TrackFrame(x, t);
    var b := BeforeScan(Exact, x.eng, U(t));
    var seg := b.sndBuf[i];
    MarkedKeeps(b.cfg, b.rtt.rto, seg, U(t));
    if seg.xmit == 0 {
      ScannedRuns(x, seg, Born(), flushed, t, b.rtt.rto);
    } else {
      var life := x.lives[seg.sn];
      assert SegmentOnTime(x, seg, flushed);
      var life1 := life.(sent := life.sent + CountPush(FlushWires(Exact, x.eng, U(t)), seg.sn));
      SameFirstTimeout(life1, MarkOf(b.cfg, seg, U(t)), b.rtt.rto, t);
      if BackoffFits(x.eng.cfg, life.rto) { ScannedRuns(x, seg, life, flushed, t, b.rtt.rto); }
    }
  }

  lemma ProbeOnTime(p: Probe, rmt: u16, flushed: nat, t: nat)
    requires ProbeInv(p) && flushed <= t < flushed + HALF && (p.wait != 0 ==> Ahead(p.ts, U(flushed)))
    ensures ProbeFits(p, rmt, U(t))
    ensures var r := ProbeTimer(p, rmt, U(t));
            r.wait != 0 ==> Ahead(r.ts, U(t))
  {
    hide Ahead, TimeDiff, ProbeTimer, U;
    if p.wait != 0 { NotHalfBehind(p.ts, flushed, t); }
    ProbeTimerRuns(p, rmt, U(t));
  }

  lemma FlushKeepsOnTime(x: Tracked, flushed: nat, t: nat)
    requires TrackedInv(x) && ProbeInv(x.eng.probe) && OnTime(x, flushed) && x.clock <= t < flushed + HALF
    ensures OnTime(TrackFlush(x, t), t)
  {
    var y, b := TrackFlush(x, t), BeforeScan(Exact, x.eng, U(t));
    FlushFacts(Exact, x.eng, U(t));
    FlushProbe(Exact, x.eng, U(t));
    ProbeOnTime(x.eng.probe, x.eng.wnd.rmt, flushed, t);
    TrackFrame(x, t);
    hide Flush, BeforeScan, TrackedInv, TrackFlush, Ahead, ProbeTimer, Marked, SegmentOnTime, OnTime, U;
    forall i | 0 <= i < |y.eng.sndBuf| ensures SegmentOnTime(y, y.eng.sndBuf[i], t) {
      FlushedOnTime(x, flushed, t, i);
    }
    OnTimeOf(y, t);
  }

  lemma OnTimeOf(x: Tracked, flushed: nat)
    requires flushed <= x.clock && (x.eng.probe.wait != 0 ==> Ahead(x.eng.probe.ts, U(flushed)))
    requires forall i :: 0 <= i < |x.eng.sndBuf| ==> SegmentOnTime(x, x.eng.sndBuf[i], flushed)
    ensures OnTime(x, flushed)
  {
    hide SegmentOnTime, Ahead;
  }

  // ---- Between flushes ----

  lemma BumpKeepsTimer(seg: Segment, ts: u32)
    ensures BumpOne(seg, ts).resendts == seg.resendts && BumpOne(seg, ts).sn == seg.sn
  {
  }

  lemma CreditedOnTime(x: Tracked, ws: seq<Wire>, t: nat, flushed: nat, i: nat)
    requires TrackedInv(x) && OnTime(x, flushed) && i < |Input(Exact, x.eng, ws, U(t)).sndBuf|
    ensures SegmentOnTime(TrackInput(x, ws, t), Input(Exact, x.eng, ws, U(t)).sndBuf[i], flushed)
  {
    InputBuffer(x.eng, ws, U(t));
    var (s2, newest) := Shrunk(x, ws, t);
    DistinctNumbers(s2);
    var seg := s2.sndBuf[i];
    assert seg in x.eng.sndBuf;
    var j :| 0 <= j < |x.eng.sndBuf| && x.eng.sndBuf[j] == seg;
    assert SegmentOnTime(x, x.eng.sndBuf[j], flushed);
    hide TrackedInv, SendInv, InputSegments, Input, BumpOne, ShrinkBuf, Distinct, TrackInput, BackoffFits, Ahead, U;
    InputFrameOf(x, ws, t);
    LifeCredited(x, ws, t, i);
    if newest.Newest? { BumpKeepsTimer(seg, newest.ts); }
  }

  lemma InputKeepsOnTime(x: Tracked, ws: seq<Wire>, t: nat, flushed: nat)
    requires TrackedInv(x) && OnTime(x, flushed) && x.clock <= t
    ensures OnTime(TrackInput(x, ws, t), flushed)
  {
    var y := TrackInput(x, ws, t);
    InputKeepsProbeTimer(x.eng, ws, U(t));
    InputFrameOf(x, ws, t);
    forall i | 0 <= i < |y.eng.sndBuf| ensures SegmentOnTime(y, y.eng.sndBuf[i], flushed) {
      CreditedOnTime(x, ws, t, flushed, i);
    }
    hide SegmentOnTime, TrackInput, TrackedInv, Input, Ahead, U;
  }

  lemma InputKeepsProbeTimer(s: State, ws: seq<Wire>, now: u32)
    ensures var r := Input(Exact, s, ws, now);
            r.probe == s.probe.(askTell := r.probe.askTell)
  {
    SegmentsKeepProbeTimer(Exact, s, NoAck, ws, now);
    hide InputSegments, BumpFastack, InFlight, UpdateCwnd;
  }

  /** What `send` and `recv` leave of the timers. */
  lemma SameTimers(x: Tracked, y: Tracked, flushed: nat)
    requires OnTime(x, flushed) && y.clock == x.clock && y.lives == x.lives && y.eng.cfg == x.eng.cfg
    requires y.eng.sndBuf == x.eng.sndBuf && y.eng.probe.wait == x.eng.probe.wait && y.eng.probe.ts == x.eng.probe.ts
    ensures OnTime(y, flushed)
  {
    hide BackoffFits, Ahead;
    forall i | 0 <= i < |y.eng.sndBuf| ensures SegmentOnTime(y, y.eng.sndBuf[i], flushed) {
      assert SegmentOnTime(x, x.eng.sndBuf[i], flushed);
    }
  }

  lemma RecvKeepsTimers(s: State)
    ensures var r := Recv(Exact, s).0;
            && r.cfg == s.cfg && r.sndBuf == s.sndBuf
            && r.probe.wait == s.probe.wait && r.probe.ts == s.probe.ts
  {
    hide PeekSize, TakeMessage, MoveToRecvQueue;
  }

  lemma AskKeepsTracked(x: Tracked)
    requires TrackedInv(x) && ProbeInv(x.eng.probe)
    ensures var y := x.(eng := x.eng.(probe := x.eng.probe.(askSend := true)));
            TrackedInv(y) && ProbeInv(y.eng.probe)
  {
    hide TrackedInv;
    SameBufferTracked(x, x.(eng := x.eng.(probe := x.eng.probe.(askSend := true))));
  }

  lemma StepKeepsOnTime(x: Tracked, op: LiveOp, flushed: nat)
    requires TrackedInv(x) && ProbeInv(x.eng.probe) && OnTime(x, flushed) && GoesOn(x, op)
    requires IsFlush(op) ==> op.t < flushed + HALF
    ensures OnTime(TrackStep(x, op), if IsFlush(op) then op.t else flushed)
  {
    hide TrackedInv, OnTime, Send, Flush, Recv, TrackFlush, TrackInput, ProbeInv;
    match op
    case LiveSend(data) => SameTimers(x, TrackStep(x, op), flushed);
    case LiveRecv =>
      RecvKeepsTimers(x.eng);
      SameTimers(x, TrackStep(x, op), flushed);
    case LiveInput(ws, t) => InputKeepsOnTime(x, ws, t, flushed);
    case LiveFlush(t) => FlushKeepsOnTime(x, flushed, t);
    case LiveKeepAlive(t) =>
      var y := x.(eng := x.eng.(probe := x.eng.probe.(askSend := true)));
      AskKeepsTracked(x);
      SameTimers(x, y, flushed);
      FlushKeepsOnTime(y, flushed, t);
  }

  lemma {:induction false} RunsAreOnTime(conv: u32, cfg: Config, ops: seq<LiveOp>)
    requires RunGoesOn(conv, cfg, ops) && Prompt(ops)
    ensures OnTime(TrackRun(conv, cfg, ops), LastFlush(ops))
    decreases |ops|
  {
    hide TrackStep, TrackedInv, OnTime, GoesOn, ProbeInv, Run;
    if ops == [] {
      OnTimeOf(TrackRun(conv, cfg, ops), 0);
    } else {
      var init := ops[..|ops| - 1];
      RunsAreOnTime(conv, cfg, init);
      BooksAreKept(conv, cfg, init);
      TrackIsRun(conv, cfg, init);
      EveryRunKeepsProbeInv(Exact, conv, cfg, AllEngineOps(init));
      StepKeepsOnTime(TrackRun(conv, cfg, init), ops[|ops| - 1], LastFlush(init));
    }
  }

  // ---- The theorem ----

  ghost predicate AllBackoffFits(x: Tracked) {
    forall i :: 0 <= i < |x.eng.sndBuf| ==>
      0 <= x.eng.sndBuf[i].sn < |x.lives| && BackoffFits(x.eng.cfg, x.lives[x.eng.sndBuf[i].sn].rto)
  }

  lemma TimersOfRunFit(x: Tracked, flushed: nat, t: nat)
    requires TrackedInv(x) && OnTime(x, flushed) && x.clock <= t < flushed + HALF && AllBackoffFits(x)
    ensures TimersFit(x.eng.cfg, x.eng.rtt.rto, x.eng.sndBuf, U(t))
  {
    hide LifeInv, BackoffFits, SendInv, TimerFits, Ahead, TimeDiff, U;
    forall i | 0 <= i < |x.eng.sndBuf| ensures TimerFits(x.eng.cfg, x.eng.rtt.rto, x.eng.sndBuf[i], U(t)) {
      var seg := x.eng.sndBuf[i];
      assert Lives(x, seg) && SegmentOnTime(x, seg, flushed);
      NotHalfBehind(seg.resendts, flushed, t);
      LivingTimerFits(x.eng.cfg, x.eng.rtt.rto, seg, x.lives[seg.sn], x.clock, x.steps, t);
    }
  }

  /** No silent stall. In every run in which no flush has reported a lost connection and flushes are
      less than 2^31 ms apart, in every mode: a flush leaves every timer running and nothing else
      waiting, and with data outstanding something is in flight or a probe is scheduled, as long as
      the back-off of what is in flight cannot reach 2^31 ms. */
  lemma NoSilentStall(conv: u32, cfg: Config, ops: seq<LiveOp>, t: nat)
    requires RunGoesOn(conv, cfg, ops) && Prompt(ops)
    requires TrackRun(conv, cfg, ops).clock <= t < LastFlush(ops) + HALF
    requires AllBackoffFits(TrackRun(conv, cfg, ops))
    ensures var r := Flush(Exact, TrackRun(conv, cfg, ops).eng, U(t)).0;
            && AllAhead(r, U(t))
            && (HasUnsentData(r) ==> r.sndBuf != [] || r.wnd.rmt == 0)
            && (r.wnd.rmt == 0 ==> PROBE_INIT <= r.probe.wait <= PROBE_LIMIT)
  {
    hide TrackRun, Run, TrackedInv, OnTime, RunGoesOn, Flush, AllAhead, TimersFit, ProbeFits, AllBackoffFits, U,
      ProbeInv;
    var x := TrackRun(conv, cfg, ops);
    RunsAreOnTime(conv, cfg, ops);
    BooksAreKept(conv, cfg, ops);
    TrackIsRun(conv, cfg, ops);
    EveryRunKeepsProbeInv(Exact, conv, cfg, AllEngineOps(ops));
    ProbeOfRunFits(x, LastFlush(ops), t);
    TimersOfRunFit(x, LastFlush(ops), t);
    EveryFlushLeavesDeadlines(Exact, conv, cfg, AllEngineOps(ops), U(t));
  }

  lemma ProbeOfRunFits(x: Tracked, flushed: nat, t: nat)
    requires OnTime(x, flushed) && ProbeInv(x.eng.probe) && x.clock <= t < flushed + HALF
    ensures ProbeFits(x.eng.probe, x.eng.wnd.rmt, U(t))
  {
    hide Ahead, SegmentOnTime, ProbeFits;
    ProbeOnTime(x.eng.probe, x.eng.wnd.rmt, flushed, t);
  }

  // ---- Configurations for which back-off always fits ----

  lemma {:induction false} WaitsDouble(cfg: Config, rto: u32, n: nat, top: nat)
    requires rto <= top && cfg.interval <= top && !(cfg.nodelay && cfg.noCongestionControl)
    ensures Waits(cfg, rto, n) <= Pow2(n) * top
  {
    if n > 0 {
      WaitsDouble(cfg, rto, n - 1, top);
      assert Pow2(n) == 2 * Pow2(n - 1) && Pow2(n - 1) >= 1;
      assert Pow2(n) * top == 2 * (Pow2(n - 1) * top);
    }
  }

  lemma {:induction false} WaitsAdd(cfg: Config, rto: u32, n: nat)
    requires rto <= RTO_MAX && cfg.nodelay && cfg.noCongestionControl
    ensures Waits(cfg, rto, n) <= RTO_MAX + n * 30000
  {
    if n > 0 { WaitsAdd(cfg, rto, n - 1); }
  }

  /** Configurations, and first timeouts `rto`, for which back-off cannot reach 2^31 ms: without delay
      and congestion control up to 71581 transmissions; otherwise as long as doubling for each of them
      the larger of the first timeout and the update interval stays below. */
  predicate Affordable(cfg: Config, rto: u32) {
    if cfg.nodelay && cfg.noCongestionControl then cfg.deadLink <= 71581
    else Pow2(cfg.deadLink - 1) * Max(rto, cfg.interval) < HALF
  }

  lemma BackoffFitsFor(cfg: Config, rto: u32)
    requires rto <= RTO_MAX && Affordable(cfg, rto)
    ensures BackoffFits(cfg, rto)
  {
    var n := cfg.deadLink - 1;
    if cfg.nodelay && cfg.noCongestionControl {
      WaitsAdd(cfg, rto, n);
    } else {
      WaitsDouble(cfg, rto, n, Max(rto, cfg.interval));
    }
    hide Waits, Pow2;
  }

  /** With up to 16 transmissions, and intervals of up to a minute, all timeouts are affordable; with
      the 20 that are the default, those that start at 4095 ms or below. */
  lemma AffordableFor(cfg: Config, rto: u32)
    requires (cfg.deadLink <= 16 && cfg.interval <= RTO_MAX && rto <= RTO_MAX)
             || (cfg.deadLink <= 20 && cfg.interval <= 4095 && rto <= 4095)
    ensures Affordable(cfg, rto)
  {
    var n, top := cfg.deadLink - 1, Max(rto, cfg.interval);
    Powers();
    if cfg.deadLink <= 16 && cfg.interval <= RTO_MAX && rto <= RTO_MAX {
      Pow2Grows(n, 15);
      TimesMonotone(Pow2(n), 32768, top);
    } else {
      Pow2Grows(n, 19);
      TimesMonotone(Pow2(n), 524288, top);
    }
    hide Pow2;
  }

  lemma Powers()
    ensures Pow2(15) == 32768 && Pow2(19) == 524288
  {
    assert Pow2(5) == 32;
    assert Pow2(10) == 1024;
    assert Pow2(15) == 32768;
  }

  /** Every segment in flight was first sent with a timeout of at most `top`. */
  ghost predicate FirstTimeouts(x: Tracked, top: u32) {
    forall i :: 0 <= i < |x.eng.sndBuf| ==>
      0 <= x.eng.sndBuf[i].sn < |x.lives| && x.lives[x.eng.sndBuf[i].sn].rto <= top
  }

  /** The classes for which nothing about the back-off need be assumed: few transmissions; or no delay
      and no congestion control; or the default 20, and first timeouts of up to 4095 ms. */
  ghost predicate Patient(x: Tracked) {
    var cfg := x.eng.cfg;
    || (cfg.deadLink <= 16 && cfg.interval <= RTO_MAX)
    || (cfg.deadLink <= 71581 && cfg.nodelay && cfg.noCongestionControl)
    || (cfg.deadLink <= 20 && cfg.interval <= 4095 && FirstTimeouts(x, 4095))
  }

  /** For such connections nothing else is needed: every flush of every prompt run that lives leaves a
      running timer for all that is outstanding. */
  lemma NoSilentStallFor(conv: u32, cfg: Config, ops: seq<LiveOp>, t: nat)
    requires RunGoesOn(conv, cfg, ops) && Prompt(ops) && Patient(TrackRun(conv, cfg, ops))
    requires TrackRun(conv, cfg, ops).clock <= t < LastFlush(ops) + HALF
    ensures var r := Flush(Exact, TrackRun(conv, cfg, ops).eng, U(t)).0;
            AllAhead(r, U(t)) && (HasUnsentData(r) ==> r.sndBuf != [] || r.wnd.rmt == 0)
  {
    hide TrackRun, RunGoesOn, Flush, AllAhead, U, Prompt, Patient;
    BooksAreKept(conv, cfg, ops);
    LivesFit(TrackRun(conv, cfg, ops));
    NoSilentStall(conv, cfg, ops, t);
  }

  lemma LivesFit(x: Tracked)
    requires TrackedInv(x) && Patient(x)
    ensures AllBackoffFits(x)
  {
    hide SendInv, Timing, CreditsGood, BackoffFits, Affordable;
    forall i | 0 <= i < |x.eng.sndBuf|
      ensures 0 <= x.eng.sndBuf[i].sn < |x.lives| && BackoffFits(x.eng.cfg, x.lives[x.eng.sndBuf[i].sn].rto)
    {
      assert Lives(x, x.eng.sndBuf[i]);
      var rto := x.lives[x.eng.sndBuf[i].sn].rto;
      if x.eng.cfg.nodelay && x.eng.cfg.noCongestionControl {
        AlwaysAffordable(x.eng.cfg, rto);
      } else {
        AffordableFor(x.eng.cfg, rto);
      }
      BackoffFitsFor(x.eng.cfg, rto);
    }
  }

  lemma AlwaysAffordable(cfg: Config, rto: u32)
    requires cfg.nodelay && cfg.noCongestionControl && cfg.deadLink <= 71581
    ensures Affordable(cfg, rto)
  {
  }
}
