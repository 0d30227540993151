/** The congestion window: bounded in every run, and computed without 32-bit overflow. */
module Congestion {
  import opened Word
  import opened Protocol
  import opened EngineSpec
  import opened EngineRun
  import opened SendSide
  import opened Fragments

  /** At least one segment may be in flight; `incr`, the window in bytes, stays coupled to `cwnd`. */
  ghost predicate CwndInv(w: Window, mss: int) {
    1 <= w.cwnd <= 65535 && THRESH_MIN <= w.ssthresh && w.incr < (w.cwnd + 1) * mss
  }

  // ---- Arithmetic of congestion avoidance ----

  lemma Product(a: int, b: int, c: int, d: int)
    requires 0 <= a <= c && 0 <= b <= d
    ensures 0 <= a * b <= c * d
  {
    TimesMonotone(a, c, b);
    TimesMonotone(b, d, c);
    assert c * b == b * c && c * d == d * c;
  }

  lemma LargeWindow(mss: int, incr: int, q: int)
    requires 0 < mss && 2 * mss <= incr && 0 <= q && q * incr <= mss * mss
    ensures 2 * q <= mss
  {
    TimesMonotone(2 * mss, incr, q);
    assert (2 * mss) * q == (2 * q) * mss && incr * q == q * incr;
    CancelFactor(2 * q, mss, mss);
  }

  lemma Expand(mss: int, incr: int)
    ensures (incr - mss) * (2 * mss - incr) == 3 * (mss * incr) - incr * incr - 2 * (mss * mss)
    ensures (3 * mss - incr) * incr == 3 * (mss * incr) - incr * incr
  {
  }

  lemma SmallWindow(mss: int, incr: int, q: int)
    requires 0 < mss <= incr <= 2 * mss && q * incr <= mss * mss
    ensures 2 * q <= 3 * mss - incr
  {
    Expand(mss, incr);
    Product(0, 0, incr - mss, 2 * mss - incr);
    assert (2 * q) * incr == 2 * (q * incr);
    CancelFactor(2 * q, 3 * mss - incr, incr);
  }

  /** The increment `mss * mss / incr` is at most one segment, and so small that with it the window
      in bytes stays below two and a half segments, or less than half a segment over its limit. */
  lemma IncrementIsSmall(mss: int, incr: int, limit: int)
    requires 0 < mss <= incr < limit
    ensures var q := mss * mss / incr;
            && 0 <= q <= mss
            && (2 * (incr + q) < 5 * mss || 2 * (incr + q) < 2 * limit + mss)
  {
    var q := mss * mss / incr;
    DivMod(mss * mss, incr);
    hide *;
    QuotientAtMost(q, incr, mss);
    if incr >= 2 * mss { LargeWindow(mss, incr, q); } else { SmallWindow(mss, incr, q); }
  }

  lemma CancelFactor(a: int, b: int, d: int)
    requires d > 0 && a * d <= b * d
    ensures a <= b
  {
    if b < a { TimesMonotone(b + 1, a, d); }
  }

  lemma QuotientAtMost(q: int, incr: int, mss: int)
    requires 0 < mss <= incr && q * incr <= mss * mss && 0 <= q
    ensures q <= mss
  {
    if q > mss {
      TimesMonotone(mss + 1, q, incr);
      Product(mss + 1, mss, mss + 1, incr);
    }
  }

  lemma CeilBounds(x: nat, d: int)
    requires d > 0
    ensures DivCeil(x, d) * d >= x && (DivCeil(x, d) - 1) * d < x
  {
    DivMod(x, d);
    var q := x / d;
    assert (q + 1) * d == q * d + d && (q - 1) * d == q * d - d;
  }

  // ---- Growth ----

  /** One growth step over the integers: the new window and its size in bytes. */
  function ExactGrowth(w: Window, mss: int): (int, int)
    requires mss > 0
  {
    var (cwnd1, incr1) :=
      if w.cwnd < w.ssthresh then (w.cwnd + 1, w.incr + mss)
      else
        var incr0 := Max(w.incr, mss);
        var incr1 := incr0 + mss * mss / incr0 + mss / 16;
        (if (w.cwnd + 1) * mss <= incr1 then DivCeil(incr1, mss) else w.cwnd, incr1);
    if cwnd1 > w.rmt then (w.rmt, w.rmt * mss) else (cwnd1, incr1)
  }

  /** Products of a window and a segment size are 32-bit numbers. */
  lemma WindowBytes(n: int, mss: int)
    requires 0 <= n <= 65536 && 40 <= mss <= 65511
    ensures 0 <= n * mss <= 65536 * 65511
    ensures (n + 1) * mss == n * mss + mss && mss * mss <= 65511 * 65511
  {
    Product(n, mss, 65536, 65511);
    Product(mss, mss, 65511, 65511);
  }

  /** What congestion avoidance adds: at most two segments, and no overflow on the way. */
  lemma AvoidanceStep(cwnd: int, incr: int, mss: int) returns (incr1: int)
    requires 1 <= cwnd <= 65534 && 40 <= mss <= 65511 && 0 <= incr < (cwnd + 1) * mss
    ensures var incr0 := Max(incr, mss);
            && incr1 == incr0 + mss * mss / incr0 + mss / 16 && 0 <= incr1 < M32
            && 0 <= mss * mss / incr0 && incr0 < M32
    ensures incr1 < (cwnd + 2) * mss
    ensures (cwnd + 1) * mss <= incr1 ==>
            cwnd + 1 <= DivCeil(incr1, mss) <= cwnd + 2 && incr1 < (DivCeil(incr1, mss) + 1) * mss
  {
    var incr0 := Max(incr, mss);
    WindowBytes(cwnd, mss);
    WindowBytes(cwnd + 1, mss);
    TimesMonotone(1, cwnd, mss);
    TimesMonotone(2, cwnd + 1, mss);
    IncrementIsSmall(mss, incr0, (cwnd + 1) * mss);
    incr1 := incr0 + mss * mss / incr0 + mss / 16;
    CeilRange(incr1, mss, cwnd);
  }

  lemma CeilRange(x: int, d: int, n: int)
    requires d > 0 && 0 <= x < (n + 2) * d
    ensures (n + 1) * d <= x ==> n + 1 <= DivCeil(x, d) <= n + 2 && x < (DivCeil(x, d) + 1) * d
  {
    CeilBounds(x, d);
    var c := DivCeil(x, d);
    hide *;
    assert (c + 1) * d == c * d + d;
    if (n + 1) * d <= x {
      CancelFactor(n + 1, c, d);
      if c > n + 2 { TimesMonotone(n + 2, c - 1, d); }
    }
  }

  /** Every intermediate result of a growth step is a 32-bit number before any wrapping. */
  ghost predicate GrowthFits(w: Window, mss: int)
    requires mss > 0
  {
    var incr0 := Max(w.incr, mss);
    && w.cwnd + 1 < M32 && w.incr + mss < M32 && mss * mss < M32
    && incr0 + mss * mss / incr0 + mss / 16 < M32
    && (w.cwnd + 1) * mss < M32 && w.rmt * mss < M32
    && DivCeil(incr0 + mss * mss / incr0 + mss / 16, mss) < M32
  }

  /** In congestion control no 32-bit operation overflows, the coupling of window and bytes is
      kept, and one packet grows the window by at most two segments and never shrinks it. */
  lemma GrowthIsExact(w: Window, mss: int)
    requires 40 <= mss <= 65511 && CwndInv(w, mss) && w.cwnd < w.rmt
    ensures var r := GrowCwnd(w, mss);
            && GrowthFits(w, mss)
            && (r.cwnd as int, r.incr as int) == ExactGrowth(w, mss)
            && CwndInv(r, mss) && w.cwnd <= r.cwnd <= w.cwnd + 2 && r.cwnd <= w.rmt
  {
    WindowBytes(w.cwnd, mss);
    WindowBytes(w.cwnd + 1, mss);
    WindowBytes(w.rmt, mss);
    var incr1 := AvoidanceStep(w.cwnd, w.incr, mss);
    hide DivCeil;
  }

  // ---- Loss ----

  /** The configurations in which a fast loss cannot take the window out of its range: what at most is
      in flight, halved, plus the threshold is a window; or the threshold is so large that adding it
      always wraps, which is so where fast retransmission is off. */
  predicate ThresholdFits(cfg: Config) {
    Max(cfg.sndWnd / 2, THRESH_MIN) + ResendThreshold(cfg) <= 65535 || ResendThreshold(cfg) >= U32_MAX - 1
  }

  /** A window of no segments is reset to one. */
  function AtLeastOne(w: Window, mss: int): Window
    requires 40 <= mss <= 65511
  {
    if w.cwnd < 1 then ResetCwnd(w, mss) else w
  }

  /** A fast retransmission restarts from half of what was in flight, plus the threshold. */
  lemma FastLossKeeps(w: Window, inflight: u32, cfg: Config)
    requires inflight <= cfg.sndWnd && ThresholdFits(cfg)
    ensures var (r, mss) := (OnFastLoss(w, inflight, ResendThreshold(cfg), Mss(cfg)), Mss(cfg));
            && CwndInv(AtLeastOne(r, mss), mss) && r.ssthresh == Max(inflight / 2, THRESH_MIN)
            && r.cwnd <= 65535 && r.incr == r.cwnd * mss
            && (ResendThreshold(cfg) <= 65535 ==> r.cwnd == r.ssthresh + ResendThreshold(cfg))
  {
    var ssthresh, threshold, mss := Max(inflight / 2, THRESH_MIN), ResendThreshold(cfg), Mss(cfg);
    var cwnd := U(ssthresh + threshold);
    assert cwnd == if threshold <= 65535 then ssthresh + threshold else ssthresh + threshold - M32;
    WindowBytes(cwnd, mss);
    assert (cwnd + 1) * mss == cwnd * mss + mss;
  }

  /** The condition is exact: the new window fits the 16 bits that windows have on the wire, whatever
      the send window lets be in flight, if and only if the threshold fits the configuration. */
  lemma ThresholdBoundIsSharp(w: Window, cfg: Config)
    ensures ThresholdFits(cfg) <==>
            forall inflight: u32 :: inflight <= cfg.sndWnd ==>
              OnFastLoss(w, inflight, ResendThreshold(cfg), Mss(cfg)).cwnd <= 65535
  {
    if !ThresholdFits(cfg) {
      var worst: u32 := if Max(cfg.sndWnd / 2, THRESH_MIN) + ResendThreshold(cfg) < M32 then cfg.sndWnd else 0;
      assert OnFastLoss(w, worst, ResendThreshold(cfg), Mss(cfg)).cwnd > 65535;
    }
  }

  lemma TimeoutLossKeeps(w: Window, mss: int)
    requires 40 <= mss <= 65511
    ensures var r := OnTimeoutLoss(w, mss);
            && CwndInv(r, mss) && r.cwnd == 1 && r.incr == mss && r.rmt == w.rmt
            && r.ssthresh == (if w.cwnd >= 4 then w.cwnd / 2 else 2)
  {
  }

  lemma LossKeepsCwndInv(m: Arith, s: State, lost: bool, change: bool)
    requires SendInv(m, s) && CwndInv(s.wnd, Mss(s.cfg)) && ThresholdFits(s.cfg)
    ensures CwndInv(UpdateCongestionOnLoss(m, s, lost, change).wnd, Mss(s.cfg))
  {
    var mss, inflight := Mss(s.cfg), U(s.sndNxt - s.sndUna);
    assert inflight <= s.cfg.sndWnd;
    hide SendInv, Mss;
    FastLossKeeps(s.wnd, inflight, s.cfg);
    var w1 := if change then OnFastLoss(s.wnd, inflight, ResendThreshold(s.cfg), mss) else s.wnd;
    TimeoutLossKeeps(w1, mss);
    hide OnFastLoss, OnTimeoutLoss;
  }

  // ---- Never an empty window, whatever the threshold ----

  lemma GrowthIsPositive(w: Window, mss: int)
    requires 40 <= mss <= 65511 && 1 <= w.cwnd < w.rmt
    ensures GrowCwnd(w, mss).cwnd >= 1
  {
    WindowBytes(w.cwnd + 1, mss);
    var incr0 := Max(w.incr, mss);
    var incr1 := U(incr0 + U(mss * mss) / incr0 + mss / 16);
    CeilBounds(incr1, mss);
    TimesMonotone(1, w.cwnd + 1, mss);
    CeilPositive(incr1, mss);
    hide DivCeil;
  }

  lemma CeilPositive(x: u32, d: int)
    requires d > 0
    ensures DivCeil(x, d) < M32 && (x >= d ==> DivCeil(x, d) >= 1)
  {
    var c := DivCeil(x, d);
    CeilBounds(x, d);
    if c >= M32 { TimesMonotone(1, d, c - 1); }
  }

  lemma StepKeepsWindowOpen(m: Arith, s: State, op: Op)
    requires s.wnd.cwnd >= 1
    ensures Step(m, s, op).wnd.cwnd >= 1
  {
    match op
    case DoSend(data) => hide Send;
    case DoRecv => hide PeekSize, TakeMessage, MoveToRecvQueue;
    case DoInput(ws, now) =>
      SegmentsKeepWindow(m, s, NoAck, ws, now);
      hide InputSegments, BumpFastack, InFlight, GrowCwnd, After, Mss;
      var w := InputSegments(m, s, NoAck, ws, now).0.wnd;
      if w.cwnd < w.rmt { GrowthIsPositive(w, Mss(s.cfg)); }
    case DoFlush(now) => FlushKeepsWindowOpen(m, s, now);
    case DoProbe(now) =>
      hide Flush;
      FlushKeepsWindowOpen(m, s.(probe := s.probe.(askSend := true)), now);
    case DoDrain =>
  }

  lemma FlushKeepsWindowOpen(m: Arith, s: State, now: u32)
    requires s.wnd.cwnd >= 1
    ensures Flush(m, s, now).0.wnd.cwnd >= 1
  {
    hide MoveToSendBuf, ToSend, ThroughDead, MarkAll, AnyMark, AnyDead, OutputAll, CloseDatagram, ProbeTimer, Mss,
         OnFastLoss;
  }

  /** In every run, for every configuration, at least one segment may be in flight. */
  lemma {:induction false} EveryRunKeepsWindowOpen(m: Arith, conv: u32, cfg: Config, ops: seq<Op>)
    ensures Run(m, Init(conv, cfg), ops).wnd.cwnd >= 1
    decreases |ops|
  {
    if ops != [] {
      hide Step;
      EveryRunKeepsWindowOpen(m, conv, cfg, ops[..|ops| - 1]);
      StepKeepsWindowOpen(m, Run(m, Init(conv, cfg), ops[..|ops| - 1]), ops[|ops| - 1]);
    }
  }

  // ---- Every run ----

  lemma {:induction false} SegmentsKeepWindow(m: Arith, s: State, newest: Newest, ws: seq<Wire>, now: u32)
    ensures var r := InputSegments(m, s, newest, ws, now).0;
            r.wnd == s.wnd.(rmt := r.wnd.rmt)
    decreases |ws|
  {
    if ws != [] {
      SegmentKeepsWindow(m, s, newest, ws[0], now);
      var (s1, newest1) := InputSegment(m, s, newest, ws[0], now);
      hide InputSegment;
      SegmentsKeepWindow(m, s1, newest1, ws[1..], now);
    }
  }

  lemma SegmentKeepsWindow(m: Arith, s: State, newest: Newest, w: Wire, now: u32)
    ensures var r := InputSegment(m, s, newest, w, now).0;
            r.wnd == s.wnd.(rmt := r.wnd.rmt)
  {
    hide UpdateAck, InputPush, DropUna, RemoveSn, InFlight, TrackNewest;
  }

  /** One packet grows the window by at most two segments, and nothing overflows. */
  lemma InputKeepsCwndInv(m: Arith, s: State, ws: seq<Wire>, now: u32)
    requires CwndInv(s.wnd, Mss(s.cfg))
    ensures var r := Input(m, s, ws, now);
            CwndInv(r.wnd, Mss(s.cfg)) && s.wnd.cwnd <= r.wnd.cwnd <= s.wnd.cwnd + 2
  {
    SegmentsKeepWindow(m, s, NoAck, ws, now);
    hide InputSegments, BumpFastack, InFlight, GrowCwnd, After, Mss;
    var w := InputSegments(m, s, NoAck, ws, now).0.wnd;
    if w.cwnd < w.rmt { GrowthIsExact(w, Mss(s.cfg)); }
  }

  lemma FlushKeepsCwndInv(m: Arith, s: State, now: u32)
    requires SendInv(m, s) && CwndInv(s.wnd, Mss(s.cfg)) && ThresholdFits(s.cfg)
    ensures CwndInv(Flush(m, s, now).0.wnd, Mss(s.cfg))
  {
    var s1 := HandleWindowProbe(FlushAcks(s), now);
    assert SendInv(m, s1) by { hide ProbeTimer, OutputAll, Ascending; }
    MoveToSendBufKeepsSendInv(m, s1, now);
    var s2 := MoveToSendBuf(m, s1, now);
    ScanKeepsSendInv(m, s2, now);
    var sending := ToSend(s2.cfg, s2.rtt.rto, s2.sndBuf, now);
    var s3 := Emit(s2.(sndBuf := MarkAll(s2.cfg, s2.rtt.rto, s2.sndBuf, now)),
      DataWires(s2, ThroughDead(sending, s2.cfg.deadLink)));
    LossKeepsCwndInv(m, s3, AnyMark(s2.cfg, s2.sndBuf, now, Timeout), AnyMark(s2.cfg, s2.sndBuf, now, Fast));
    hide SendInv, MoveToSendBuf, ToSend, ThroughDead, MarkAll, AnyMark, AnyDead, UpdateCongestionOnLoss, OutputAll,
         CloseDatagram, ProbeTimer, Mss, CwndInv;
  }

  lemma ScanKeepsSendInv(m: Arith, s: State, now: u32)
    requires SendInv(m, s)
    ensures forall ws :: SendInv(m, Emit(s.(sndBuf := MarkAll(s.cfg, s.rtt.rto, s.sndBuf, now)), ws))
  {
    MarkKeepsNumbers(s.cfg, s.rtt.rto, s.sndBuf, now);
    AscendingSameNumbers(m, s.sndBuf, MarkAll(s.cfg, s.rtt.rto, s.sndBuf, now), s.sndUna, s.sndNxt);
    hide Ascending, Marked, OutputAll;
  }

  lemma StepKeepsCwndInv(m: Arith, s: State, op: Op)
    requires SendInv(m, s) && CwndInv(s.wnd, Mss(s.cfg)) && ThresholdFits(s.cfg)
    ensures CwndInv(Step(m, s, op).wnd, Mss(s.cfg)) && Step(m, s, op).cfg == s.cfg
  {
    hide SendInv, CwndInv, Mss, Input, Flush, Send;
    match op
    case DoSend(data) =>
    case DoRecv => hide PeekSize, TakeMessage;
    case DoInput(ws, now) => InputKeepsCwndInv(m, s, ws, now);
    case DoFlush(now) => FlushKeepsCwndInv(m, s, now);
    case DoProbe(now) =>
      var s1 := s.(probe := s.probe.(askSend := true));
      assert SendInv(m, s1) by { AskKeepsSendInv(m, s); }
      FlushKeepsCwndInv(m, s1, now);
    case DoDrain =>
  }

  lemma AskKeepsSendInv(m: Arith, s: State)
    requires SendInv(m, s)
    ensures SendInv(m, s.(probe := s.probe.(askSend := true)))
  {
  }

  /** For every configuration whose fast-resend threshold fits, whatever the peer sends: the window
      stays between 1 and 65535, `ssthresh` at least 2, and the bytes below one segment over the
      window. */
  lemma {:induction false} EveryRunKeepsCwndInv(m: Arith, conv: u32, cfg: Config, ops: seq<Op>)
    requires ThresholdFits(cfg)
    ensures var s := Run(m, Init(conv, cfg), ops);
            s.cfg == cfg && CwndInv(s.wnd, Mss(cfg))
    decreases |ops|
  {
    if ops == [] {
      assert CwndInv(Init(conv, cfg).wnd, Mss(cfg)) by { WindowBytes(cfg.sndWnd, Mss(cfg)); }
    } else {
      hide CwndInv, Step, Init, SendInv;
      var init := ops[..|ops| - 1];
      EveryRunKeepsCwndInv(m, conv, cfg, init);
      EveryRunKeepsSendInv(m, conv, cfg, init);
      StepKeepsCwndInv(m, Run(m, Init(conv, cfg), init), ops[|ops| - 1]);
    }
  }
}
