/** Runs of one engine that end where a guarantee one might expect fails. Each is a sequence of calls
    the code can be given, from a new engine on. */
module FailingRuns {
  import opened Word
  import opened Protocol
  import opened EngineSpec
  import opened EngineRun
  import opened SendSide
  import opened RecvSide
  import opened Packing
  import opened Deadlines
  import opened HalfRounds
  import opened SegmentLife
  import opened Scripts

  // ---- A probe deadline that `check` does not see ----

  function ClosedAtTheWrap(conv: u32, full: Bytes): seq<Op> {
    [DoInput([Announce(conv, 0)], 0), DoSend(full), DoFlush(M32 - 7000)]
  }

  lemma RunThree(m: Arith, s: State, a: Op, b: Op, c: Op)
    ensures Run(m, s, [a, b, c]) == Step(m, Step(m, Step(m, s, a), b), c)
  {
    hide Step, Run;
    RunOne(m, s, a);
    RunThen(m, s, [a], b);
    RunThen(m, s, [a, b], c);
    assert [a] + [b] == [a, b] && [a, b] + [c] == [a, b, c];
  }

  /** The peer closes its window, and the probe timer is started 7 s before the clock wraps: its
      deadline is 0, which `check` takes for none. A message waits, a flush 7 s later sends a probe, and
      `check` says 30 s. */
  lemma ProbeIsOverlooked(m: Arith, conv: u32, cfg: Config, full: Bytes)
    requires |full| == Mss(cfg)
    ensures var s := Run(m, Init(conv, cfg), ClosedAtTheWrap(conv, full));
            var now := M32 - 7000;
            && AllAhead(s, now) && HasUnsentData(s) && !DeadlineSeen(s, now)
            && Check(s, now) == 30000 && Fires(s, U(now + 7000)) && SendsProbe(m, s, U(now + 7000))
  {
    hide Run, Send, Input, Flush, BeforeScan, SendsProbe, Fires, Check, AllAhead, DeadlineSeen;
    var s0 := Init(conv, cfg);
    var s1, s2 := s0.(wnd := s0.wnd.(rmt := 0)), s0.(wnd := s0.wnd.(rmt := 0), sndQueue := Copies(full, 1));
    AnnounceSets(m, s0, 0, 0);
    assert s0.sndQueue == Copies(full, 0);
    SendFull(s1, full, 0);
    RunThree(m, s0, DoInput([Announce(conv, 0)], 0), DoSend(full), DoFlush(M32 - 7000));
    ScanOf(m, s2, M32 - 7000);
    FlushFacts(m, s2, M32 - 7000);
    FlushProbe(m, s2, M32 - 7000);
    Overlooked(m, Flush(m, s2, M32 - 7000).0);
  }

  lemma Overlooked(m: Arith, s: State)
    requires s.probe == Probe(false, false, PROBE_INIT, 0) && s.wnd.rmt == 0
    requires s.sndBuf == [] && |s.sndQueue| == 1 && s.ackList == []
    ensures var now := M32 - 7000;
            && AllAhead(s, now) && HasUnsentData(s) && !DeadlineSeen(s, now)
            && Check(s, now) == 30000 && Fires(s, U(now + 7000)) && SendsProbe(m, s, U(now + 7000))
  {
    assert TimeDiff(0, M32 - 7000) == 7000;
    ProbeIsSentIff(m, s, 0);
    hide SendsProbe;
  }

  // ---- Back-off that overflows ----

  /** When the `n`-th retransmission is due, at each deadline exactly. */
  function RetryTime(n: nat): int {
    if n == 0 then 0 else RTO_DEF * Pow2(n) - 175
  }

  function Retries(n: nat): seq<Op> {
    if n == 0 then [] else Retries(n - 1) + [DoFlush(U(RetryTime(n)))]
  }

  lemma PowersUpTo24(n: nat)
    requires n <= 24
    ensures 1 <= Pow2(n) <= 16777216 && Pow2(23) == 8388608 && Pow2(24) == 16777216
  {
    assert Pow2(6) == 64;
    assert Pow2(12) == 4096;
    assert Pow2(18) == 262144;
    Pow2Grows(n, 24);
  }

  /** A segment transmitted `n + 1` times, each time at its deadline. */
  function Retried(full: Bytes, n: nat): Segment {
    Segment(0, Frag(0, full), U(RetryTime(n)), U(RetryTime(n + 1)), U(RTO_DEF * Pow2(n)), 0, U(n + 1))
  }

  /** It is all there is. */
  ghost predicate Backed(s: State, cfg: Config, full: Bytes, n: nat) {
    s.cfg == cfg && s.sndUna == 0 && s.sndNxt == 1 && s.sndQueue == [] && s.sndBuf == [Retried(full, n)]
  }

  lemma RetryDoubles(cfg: Config, rto: u32, full: Bytes, n: nat)
    requires !cfg.nodelay && cfg.interval <= RTO_DEF && n < 24
    ensures Marked(cfg, rto, Retried(full, n), U(RetryTime(n + 1))) == Retried(full, n + 1)
    ensures Retried(full, n).xmit == n + 1
  {
    PowersUpTo24(n);
    PowersUpTo24(n + 1);
    assert Pow2(n + 1) == 2 * Pow2(n) && Pow2(n + 2) == 2 * Pow2(n + 1);
    hide Pow2;
  }

  lemma RetryStep(m: Arith, s: State, cfg: Config, full: Bytes, n: nat)
    requires !cfg.nodelay && cfg.interval <= RTO_DEF && cfg.deadLink >= 26 && n < 24 && Backed(s, cfg, full, n)
    ensures var (r, ok) := Flush(m, s, U(RetryTime(n + 1)));
            ok && Backed(r, cfg, full, n + 1)
  {
    hide Flush, BeforeScan, Retried, RetryTime, Marked, EffectiveWindow;
    RetryDoubles(cfg, s.rtt.rto, full, n);
    ScanOf(m, s, U(RetryTime(n + 1)));
    SpareFlush(m, s, U(RetryTime(n + 1)), 1);
  }

  lemma {:induction false} RetriesRun(m: Arith, s: State, cfg: Config, full: Bytes, n: nat)
    requires !cfg.nodelay && cfg.interval <= RTO_DEF && cfg.deadLink >= 26 && n <= 24 && Backed(s, cfg, full, 0)
    ensures Backed(Run(m, s, Retries(n)), cfg, full, n) && NeverFails(m, s, Retries(n))
  {
    hide Flush, RetryTime, Backed, Run;
    if n == 0 {
      RunNothing(m, s);
    } else {
      RetriesRun(m, s, cfg, full, n - 1);
      RetryStep(m, Run(m, s, Retries(n - 1)), cfg, full, n - 1);
      RunThen(m, s, Retries(n - 1), DoFlush(U(RetryTime(n))));
      NeverFailsThen(m, s, Retries(n - 1), DoFlush(U(RetryTime(n))));
    }
  }

  lemma RunNothing(m: Arith, s: State)
    ensures Run(m, s, []) == s
  {
  }

  /** In normal mode, with 26 or more transmissions allowed: a segment that is never acknowledged and
      flushed at each of its deadlines is, after 24 retransmissions, due again the moment it was sent,
      and `check` asks for the next flush at once. */
  lemma BackoffRunsOut(m: Arith, conv: u32, cfg: Config, full: Bytes)
    requires |full| == Mss(cfg) && !cfg.nodelay && cfg.interval <= RTO_DEF && cfg.deadLink >= 26
    ensures var ops := Opening(conv, full, 1) + Retries(24);
            var s := Run(m, Init(conv, cfg), ops);
            && NeverFails(m, Init(conv, cfg), ops) && ops[|ops| - 1] == DoFlush(U(RetryTime(24)))
            && |s.sndBuf| == 1 && s.sndBuf[0].xmit == 25 && s.sndBuf[0].ts == U(RetryTime(24))
            && MarkOf(cfg, s.sndBuf[0], U(RetryTime(24))).Timeout? && Check(s, U(RetryTime(24))) == 0
  {
    hide Run, NeverFails, Opening, Retried, Backed, Check, Opened, MarkOf, RetryTime, Init;
    LastRetry();
    var s1 := Run(m, Init(conv, cfg), Opening(conv, full, 1));
    OpeningRun(m, conv, cfg, full, 1);
    FirstTry(s1, conv, cfg, full);
    RetriesRun(m, s1, cfg, full, 24);
    RunAppend(m, Init(conv, cfg), Opening(conv, full, 1), Retries(24));
    NeverFailsOn(m, Init(conv, cfg), Opening(conv, full, 1), Retries(24));
    DueAtOnce(Run(m, s1, Retries(24)), cfg, full);
  }

  lemma LastRetry()
    ensures Retries(24) == Retries(23) + [DoFlush(U(RetryTime(24)))]
  {
    hide RetryTime, U;
  }

  lemma FirstTry(s: State, conv: u32, cfg: Config, full: Bytes)
    requires Opened(s, conv, cfg, full, 1) && !cfg.nodelay
    ensures Backed(s, cfg, full, 0)
  {
    assert Pow2(0) == 1 && Pow2(1) == 2;
  }

  lemma DueAtOnce(s: State, cfg: Config, full: Bytes)
    requires Backed(s, cfg, full, 24)
    ensures |s.sndBuf| == 1 && s.sndBuf[0].xmit == 25 && s.sndBuf[0].ts == U(RetryTime(24))
    ensures MarkOf(cfg, s.sndBuf[0], U(RetryTime(24))).Timeout?
    ensures Check(s, U(RetryTime(24))) == 0
  {
    PowersUpTo24(24);
    assert Pow2(25) == 2 * Pow2(24);
    hide Pow2;
    assert s.sndBuf[..0] == [];
  }

  // ---- One transmission is none ----

  /** With one transmission allowed the first flush of the first message reports a lost connection. */
  lemma OneTryFails(m: Arith, conv: u32, cfg: Config, full: Bytes, now: u32)
    requires |full| == Mss(cfg) && cfg.deadLink == 1
    ensures !Flush(m, Run(m, Init(conv, cfg), [DoSend(full)]), now).1
  {
    var s0 := Init(conv, cfg);
    assert s0.sndQueue == Copies(full, 0);
    SendFull(s0, full, 0);
    RunOne(m, s0, DoSend(full));
    var s := s0.(sndQueue := Copies(full, 1));
    assert 1 <= EffectiveWindow(s) <= 65535;
    hide Run, Send, Flush, BeforeScan, EffectiveWindow;
    ScanOf(m, s, now);
    FreshFlushSucceedsIff(m, s, now);
  }

  // ---- A window that grows at the end of a flush ----

  /** Every buffered segment was last transmitted at `ts`, for the `xmit`-th time, and is due at `due`. */
  ghost predicate AllSent(buf: seq<Segment>, ts: int, due: int, rto: int, xmit: int) {
    forall i :: 0 <= i < |buf| ==>
      buf[i].ts == ts && buf[i].resendts == due && buf[i].rto == rto && buf[i].xmit == xmit
  }

  lemma SurvivorsWereSent(r: seq<Segment>, buf: seq<Segment>, ts: int, due: int, rto: int, xmit: int)
    requires Survivors(r, buf) && AllSent(buf, ts, due, rto, xmit)
    ensures AllSent(r, ts, due, rto, xmit)
  {
    forall i | 0 <= i < |r|
      ensures r[i].ts == ts && r[i].resendts == due && r[i].rto == rto && r[i].xmit == xmit
    {
      assert SurvivorOf(r[i], buf);
      var j :| 0 <= j < |buf| && SameContent(r[i], buf[j]);
      var a, b := r[i].(fastack := 0), buf[j].(fastack := 0);
      assert a.ts == b.ts && a.resendts == b.resendts && a.rto == b.rto && a.xmit == b.xmit;
    }
  }

  const RETRY: u32 := 225

  /** The first timeout backed off. */
  function SecondTimeout(cfg: Config): u32 {
    Backoff(cfg, RTO_DEF, RTO_DEF)
  }

  lemma SecondTimeoutRuns(cfg: Config)
    requires cfg.interval <= RTO_MAX
    ensures RTO_DEF <= SecondTimeout(cfg) < HALF - RETRY
  {
  }

  lemma TimesOut(cfg: Config, full: Bytes, sn: int)
    requires cfg.interval <= RTO_MAX
    ensures MarkOf(cfg, FirstSent(cfg, full, sn), RETRY).Timeout?
    ensures var seg := Marked(cfg, RTO_DEF, FirstSent(cfg, full, sn), RETRY);
            seg == Segment(sn, Frag(0, full), RETRY, RETRY + SecondTimeout(cfg), SecondTimeout(cfg), 0, 2)
  {
    SecondTimeoutRuns(cfg);
    hide Backoff;
  }

  /** Both segments time out: the congestion window falls to one segment. */
  lemma TimeoutFlush(m: Arith, s: State, conv: u32, cfg: Config, full: Bytes)
    requires Opened(s, conv, cfg, full, 2) && cfg.interval <= RTO_MAX && cfg.deadLink >= 3
    ensures var (r, ok) := Flush(m, s, RETRY);
            && ok && r.cfg == cfg && r.conv == conv && r.sndUna == 0 && r.sndNxt == 2 && r.sndQueue == []
            && r.ackList == [] && |r.sndBuf| == 2 && r.sndBuf[0].sn == 0 && r.sndBuf[0].fastack == 0
            && AllSent(r.sndBuf, RETRY, RETRY + SecondTimeout(cfg), SecondTimeout(cfg), 2) && r.wnd.cwnd == 1
  {
    hide Flush, BeforeScan, Marked, MarkOf, FirstSent, EffectiveWindow, SecondTimeout, UpdateCongestionOnLoss;
    SecondTimeoutRuns(cfg);
    TimesOut(cfg, full, 0);
    TimesOut(cfg, full, 1);
    ScanOf(m, s, RETRY);
    FirstXmit(cfg, full);
    SpareFlush(m, s, RETRY, 1);
    FlushWindow(m, s, RETRY);
    var b := BeforeScan(m, s, RETRY);
    assert b.sndBuf[0] == FirstSent(cfg, full, 0) && b.sndBuf[1] == FirstSent(cfg, full, 1);
    assert AnyMark(b.cfg, b.sndBuf, RETRY, Timeout);
    LossShrinks(m, b, AnyMark(b.cfg, b.sndBuf, RETRY, Fast));
  }

  lemma FirstXmit(cfg: Config, full: Bytes)
    ensures forall sn :: FirstSent(cfg, full, sn).xmit == 1
  {
  }

  lemma LossShrinks(m: Arith, s: State, change: bool)
    ensures UpdateCongestionOnLoss(m, s, true, change).wnd.cwnd == 1
  {
    hide OnFastLoss, Mss;
  }

  /** What the last flush of the run finds: the window is one segment, two are in flight, and the
      first of them has been overtaken as often as it takes. */
  ghost predicate Stuck(s: State, cfg: Config) {
    && s.cfg == cfg && FrontFlying(s, RETRY) && s.sndNxt == 2 && s.ackList == []
    && AllSent(s.sndBuf, RETRY, RETRY + SecondTimeout(cfg), SecondTimeout(cfg), 2)
    && s.sndBuf[0].fastack == cfg.resend && s.wnd.rmt == 65535 && s.wnd.cwnd == 1
  }

  predicate Eager(cfg: Config) {
    !cfg.noCongestionControl && 1 <= cfg.resend < U32_MAX - 1 && cfg.sndWnd >= 3
    && cfg.deadLink >= 4 && cfg.interval <= RTO_MAX
  }

  /** A segment sent twice, the last time just now, is not due, but may be resent fast; its timer runs
      either way. */
  lemma SentTwice(cfg: Config, rto: u32, seg: Segment)
    requires cfg.interval <= RTO_MAX && AllSent([seg], RETRY, RETRY + SecondTimeout(cfg), SecondTimeout(cfg), 2)
    ensures !MarkOf(cfg, seg, RETRY).Timeout? && Running(Marked(cfg, rto, seg, RETRY), RETRY)
    ensures seg.fastack >= ResendThreshold(cfg) ==> MarkOf(cfg, seg, RETRY).Fast?
  {
    SecondTimeoutRuns(cfg);
    assert [seg][0] == seg;
    hide SecondTimeout, Backoff;
  }

  lemma StuckScan(m: Arith, s: State, cfg: Config)
    requires Stuck(s, cfg) && Eager(cfg) && |s.sndQueue| == 1
    ensures var (b, r) := (BeforeScan(m, s, RETRY), Flush(m, s, RETRY).0);
            && b.sndBuf == s.sndBuf && b.cfg == cfg && b.wnd == s.wnd && b.sndNxt == 2 && b.sndUna == 0
            && r.sndQueue == s.sndQueue && r.sndNxt == 2 && Flush(m, s, RETRY).1
            && AllRunning(r.sndBuf, RETRY)
            && AnyMark(b.cfg, b.sndBuf, RETRY, Fast) && !AnyMark(b.cfg, b.sndBuf, RETRY, Timeout)
  {
    assert EffectiveWindow(s) == 1;
    hide Flush, BeforeScan, Marked, MarkOf, EffectiveWindow, SecondTimeout, TimeDiff, Running;
    ScanOf(m, s, RETRY);
    SpareFlush(m, s, RETRY, 1);
    forall i | 0 <= i < |s.sndBuf|
      ensures !MarkOf(cfg, s.sndBuf[i], RETRY).Timeout? && Running(Marked(cfg, s.rtt.rto, s.sndBuf[i], RETRY), RETRY)
      ensures s.sndBuf[i].fastack >= ResendThreshold(cfg) ==> MarkOf(cfg, s.sndBuf[i], RETRY).Fast?
    {
      SentTwice(cfg, s.rtt.rto, s.sndBuf[i]);
    }
    assert MarkOf(cfg, s.sndBuf[0], RETRY) == Fast;
  }

  lemma StuckWindow(m: Arith, s: State, cfg: Config)
    requires s.cfg == cfg && Eager(cfg) && s.sndNxt == 2 && s.sndUna == 0
    ensures UpdateCongestionOnLoss(m, s, false, true).wnd.cwnd == 2 + cfg.resend
    ensures UpdateCongestionOnLoss(m, s, false, true).wnd.rmt == s.wnd.rmt
  {
    hide Mss;
  }

  /** A fast retransmission leaves a window with room in it, of which `check` says nothing: a second
      flush at once numbers what the first left queued. */
  lemma StuckFlush(m: Arith, s: State, cfg: Config)
    requires Stuck(s, cfg) && Eager(cfg) && |s.sndQueue| == 1
    ensures Flush(m, s, RETRY).1
    ensures var r := Flush(m, s, RETRY).0;
            && AllAhead(r, RETRY) && Check(r, RETRY) >= 1
            && r.sndQueue == s.sndQueue && Flush(m, r, RETRY).0.sndQueue == []
  {
    hide Flush, BeforeScan, AnyMark, UpdateCongestionOnLoss, ProbeTimer, AllRunning, AllSent, FrontFlying, Check;
    StuckScan(m, s, cfg);
    WindowOf(m, s, RETRY);
    StuckWindow(m, BeforeScan(m, s, RETRY), cfg);
    FlushProbe(m, s, RETRY);
    var r := Flush(m, s, RETRY).0;
    assert EffectiveWindow(r) >= 3;
    hide EffectiveWindow;
    assert r.sndUna == 0 by { assert FrontFlying(s, RETRY); FrontIsZero(s, RETRY); }
    ScanOf(m, r, RETRY);
    CheckIsAhead(r, RETRY);
  }

  lemma FrontIsZero(s: State, ts: u32)
    requires FrontFlying(s, ts)
    ensures s.sndUna == 0
  {
  }

  function LateFastLoss(cfg: Config, conv: u32, full: Bytes): seq<Op> {
    Opening(conv, full, 2) + [DoFlush(RETRY)] + Acks(conv, RETRY, RETRY, cfg.resend) + [DoSend(full)]
  }

  /** Two segments are sent and time out; the second is acknowledged, often enough for the first to be
      resent fast, and a third is queued: the window found is full, and the one left has room. */
  lemma SecondFlushHasWork(m: Arith, conv: u32, cfg: Config, full: Bytes)
    requires |full| == Mss(cfg) && Eager(cfg)
    ensures var ops := LateFastLoss(cfg, conv, full) + [DoFlush(RETRY)];
            var r := Run(m, Init(conv, cfg), ops);
            && NeverFails(m, Init(conv, cfg), ops) && AllAhead(r, RETRY) && Check(r, RETRY) >= 1
            && |r.sndQueue| == 1 && Flush(m, r, RETRY).0.sndQueue == []
  {
    hide Run, NeverFails, Opening, Opened, Stuck, Flush, AllAhead, Check, Send, Acks, Copies;
    var s0, a := Init(conv, cfg), Opening(conv, full, 2);
    OpeningRun(m, conv, cfg, full, 2);
    var b := a + [DoFlush(RETRY)];
    TimeoutFlush(m, Run(m, s0, a), conv, cfg, full);
    RunThen(m, s0, a, DoFlush(RETRY));
    NeverFailsThen(m, s0, a, DoFlush(RETRY));
    var s2 := Run(m, s0, b);
    var c := b + Acks(conv, RETRY, RETRY, cfg.resend);
    OvertakenIsStuck(m, s2, conv, cfg);
    RunAppend(m, s0, b, Acks(conv, RETRY, RETRY, cfg.resend));
    AcksNeverFail(m, s2, conv, RETRY, RETRY, cfg.resend);
    NeverFailsOn(m, s0, b, Acks(conv, RETRY, RETRY, cfg.resend));
    var s3 := Run(m, s0, c);
    StuckSend(s3, cfg, full);
    RunThen(m, s0, c, DoSend(full));
    NeverFailsThen(m, s0, c, DoSend(full));
    StuckFlush(m, Run(m, s0, c + [DoSend(full)]), cfg);
    RunThen(m, s0, c + [DoSend(full)], DoFlush(RETRY));
    NeverFailsThen(m, s0, c + [DoSend(full)], DoFlush(RETRY));
  }

  lemma StuckSend(s: State, cfg: Config, full: Bytes)
    requires Stuck(s, cfg) && s.sndQueue == [] && |full| == Mss(cfg)
    ensures Stuck(Send(s, full).0, cfg) && |Send(s, full).0.sndQueue| == 1
  {
    assert s.sndQueue == Copies(full, 0);
    SendFull(s, full, 0);
    hide Send;
  }

  lemma OvertakenIsStuck(m: Arith, s: State, conv: u32, cfg: Config)
    requires Eager(cfg) && s.cfg == cfg && s.conv == conv && s.sndUna == 0 && s.sndNxt == 2 && s.sndQueue == []
    requires s.ackList == [] && |s.sndBuf| == 2 && s.sndBuf[0].sn == 0 && s.sndBuf[0].fastack == 0
    requires AllSent(s.sndBuf, RETRY, RETRY + SecondTimeout(cfg), SecondTimeout(cfg), 2) && s.wnd.cwnd == 1
    ensures var r := Run(m, s, Acks(conv, RETRY, RETRY, cfg.resend));
            Stuck(r, cfg) && r.sndQueue == []
  {
    hide SecondTimeout, Run;
    assert FrontFlying(s, RETRY);
    AcksRun(m, s, RETRY, RETRY, cfg.resend);
    var r := Run(m, s, Acks(conv, RETRY, RETRY, cfg.resend));
    SurvivorsWereSent(r.sndBuf, s.sndBuf, RETRY, RETRY + SecondTimeout(cfg), SecondTimeout(cfg), 2);
    hide Survivors, AllSent;
  }

  // ---- A `recv` that swallows segments ----

  function PushOf(conv: u32, sn: int, frg: byte, data: Bytes): Wire {
    Wire(conv, CMD_PUSH, frg, 128, 0, sn, 0, data)
  }

  /** A message of 2^32 bytes and more after an empty fragment, and the start of the next one. */
  function HugeMessage(conv: u32, big: Bytes, last: Bytes, next: Bytes): seq<Op> {
    [DoInput([PushOf(conv, 0, 2, [])], 0), DoInput([PushOf(conv, 1, 1, big)], 0),
     DoInput([PushOf(conv, 2, 0, last)], 0), DoInput([PushOf(conv, 3, 0, next)], 0)]
  }

  /** The state of a receiver with a window of 3 when `queue` has arrived and `kept` waits. */
  ghost predicate Received(s: State, conv: u32, cfg: Config, queue: seq<Frag>, kept: map<int, Frag>) {
    && s.conv == conv && s.cfg == cfg && s.sndBuf == [] && s.sndUna == s.sndNxt && !s.probe.askTell
    && s.rcvNxt == |queue| && s.rcvQueue == queue && s.rcvBuf == kept
  }

  lemma ReceiveOne(m: Arith, s: State, conv: u32, cfg: Config, queue: seq<Frag>, frg: byte, data: Bytes)
    requires Received(s, conv, cfg, queue, map[]) && |queue| < cfg.rcvWnd == 3
    ensures Received(Input(m, s, [PushOf(conv, |queue|, frg, data)], 0), conv, cfg, queue + [Frag(frg, data)], map[])
  {
    hide Input, Store, MoveToRecvQueue;
    PushArrives(m, s, PushOf(conv, |queue|, frg, data));
    QueuesOne(m, s, Frag(frg, data));
    SmallNumbers(m, |queue|, 0);
  }

  lemma ReceiveLast(m: Arith, s: State, conv: u32, cfg: Config, queue: seq<Frag>, frg: byte, data: Bytes)
    requires Received(s, conv, cfg, queue, map[]) && |queue| == cfg.rcvWnd == 3
    ensures Received(Input(m, s, [PushOf(conv, 3, frg, data)], 0), conv, cfg, queue, map[3 := Frag(frg, data)])
  {
    PushArrives(m, s, PushOf(conv, 3, frg, data));
    assert MoveToRecvQueue(m, Store(s, 3, Frag(frg, data))) == Store(s, 3, Frag(frg, data));
    hide Input, MoveToRecvQueue;
  }

  lemma RunFour(m: Arith, s: State, a: Op, b: Op, c: Op, d: Op)
    ensures Run(m, s, [a, b, c, d]) == Step(m, Step(m, Step(m, Step(m, s, a), b), c), d)
  {
    hide Step, Run;
    RunThree(m, s, a, b, c);
    RunThen(m, s, [a, b, c], d);
    assert [a, b, c] + [d] == [a, b, c, d];
  }

  lemma HugeMessageRun(m: Arith, conv: u32, cfg: Config, big: Bytes, last: Bytes, next: Bytes)
    requires cfg.rcvWnd == 3
    ensures Received(Run(m, Init(conv, cfg), HugeMessage(conv, big, last, next)), conv, cfg,
                     [Frag(2, []), Frag(1, big), Frag(0, last)], map[3 := Frag(0, next)])
  {
    hide Run, Input, Received;
    var s0 := Init(conv, cfg);
    var ops := HugeMessage(conv, big, last, next);
    RunFour(m, s0, ops[0], ops[1], ops[2], ops[3]);
    NewReceiver(conv, cfg);
    ReceiveOne(m, s0, conv, cfg, [], 2, []);
    assert [] + [Frag(2, [])] == [Frag(2, [])];
    var s1 := Input(m, s0, [PushOf(conv, 0, 2, [])], 0);
    ReceiveOne(m, s1, conv, cfg, [Frag(2, [])], 1, big);
    assert [Frag(2, [])] + [Frag(1, big)] == [Frag(2, []), Frag(1, big)];
    var s2 := Input(m, s1, [PushOf(conv, 1, 1, big)], 0);
    ReceiveOne(m, s2, conv, cfg, [Frag(2, []), Frag(1, big)], 0, last);
    assert [Frag(2, []), Frag(1, big)] + [Frag(0, last)] == [Frag(2, []), Frag(1, big), Frag(0, last)];
    var s3 := Input(m, s2, [PushOf(conv, 2, 0, last)], 0);
    ReceiveLast(m, s3, conv, cfg, [Frag(2, []), Frag(1, big), Frag(0, last)], 0, next);
  }

  lemma NewReceiver(conv: u32, cfg: Config)
    ensures Received(Init(conv, cfg), conv, cfg, [], map[])
  {
  }

  /** A peer that is not this engine sends a message of 2^32 bytes and more, with an empty fragment in
      front, to a receive window of 3. `recv` takes the empty fragment off the full queue and returns
      nothing: the window reopens, no announcement is made of it, and the segment that waits for room
      goes on waiting. */
  lemma RecvSwallows(m: Arith, conv: u32, cfg: Config, big: Bytes, last: Bytes, next: Bytes)
    requires cfg.rcvWnd == 3 && |big| < M32 && |last| < M32
    requires M32 < |big| + |last| < M32 + |big| && |big| + |last| < M32 + HALF
    ensures var s := Run(m, Init(conv, cfg), HugeMessage(conv, big, last, next));
            var (r, got) := Recv(m, s);
            && Swallows(s) && got.None? && WndUnused(s) == 0 < WndUnused(r)
            && !r.probe.askTell && r.rcvNxt in r.rcvBuf && |r.rcvQueue| < r.cfg.rcvWnd
  {
    HugeMessageRun(m, conv, cfg, big, last, next);
    hide Run;
    var s := Run(m, Init(conv, cfg), HugeMessage(conv, big, last, next));
    HugeQueueIsSwallowed(s, big, last);
    hide PeekSize, TakeMessage, MoveToRecvQueue;
  }
}
