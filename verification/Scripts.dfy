/** Runs of one engine written out: what the steps of a script do to the parts of the state they are
    about, in either arithmetic. */
module Scripts {
  import opened Word
  import opened Protocol
  import opened EngineSpec
  import opened EngineRun
  import opened SendSide
  import opened Packing
  import opened Deadlines
  import opened NetworkSafety

  lemma {:induction false} RunAppend(m: Arith, s: State, a: seq<Op>, b: seq<Op>)
    ensures Run(m, s, a + b) == Run(m, Run(m, s, a), b)
    decreases |b|
  {
    if b == [] {
      assert a + b == a;
    } else {
      assert (a + b)[..|a + b| - 1] == a + b[..|b| - 1];
      hide Step;
      RunAppend(m, s, a, b[..|b| - 1]);
    }
  }

  lemma RunOne(m: Arith, s: State, op: Op)
    ensures Run(m, s, [op]) == Step(m, s, op)
  {
    var one := [op];
    assert one[..0] == [] && Run(m, s, one[..0]) == s;
    hide Step;
  }

  lemma RunThen(m: Arith, s: State, a: seq<Op>, op: Op)
    ensures Run(m, s, a + [op]) == Step(m, Run(m, s, a), op)
  {
    hide Step, Run;
    RunAppend(m, s, a, [op]);
    RunOne(m, Run(m, s, a), op);
  }

  /** No flush of the run reports a lost connection. */
  ghost predicate NeverFails(m: Arith, s: State, ops: seq<Op>)
    decreases |ops|
  {
    ops == [] ||
    (var init, last := ops[..|ops| - 1], ops[|ops| - 1];
     NeverFails(m, s, init) && (last.DoFlush? ==> Flush(m, Run(m, s, init), last.now).1))
  }

  lemma NeverFailsThen(m: Arith, s: State, a: seq<Op>, op: Op)
    requires NeverFails(m, s, a) && (op.DoFlush? ==> Flush(m, Run(m, s, a), op.now).1)
    ensures NeverFails(m, s, a + [op])
  {
    assert (a + [op])[..|a + [op]| - 1] == a;
    hide Run, Flush;
  }

  lemma {:induction false} NeverFailsOn(m: Arith, s: State, a: seq<Op>, b: seq<Op>)
    requires NeverFails(m, s, a) && NeverFails(m, Run(m, s, a), b)
    ensures NeverFails(m, s, a + b)
    decreases |b|
  {
    hide Run, Flush;
    if b == [] {
      assert a + b == a;
    } else {
      var init, all := b[..|b| - 1], a + b;
      assert all[..|all| - 1] == a + init && all[|all| - 1] == b[|b| - 1];
      RunAppend(m, s, a, init);
      NeverFailsOn(m, s, a, init);
    }
  }

  // ---- Full segments ----

  function Copies(full: Bytes, n: nat): (r: seq<Frag>)
    ensures |r| == n && forall i :: 0 <= i < n ==> r[i] == Frag(0, full)
  {
    seq(n, i => Frag(0, full))
  }

  function Sends(full: Bytes, n: nat): (r: seq<Op>)
    ensures |r| == n && forall i :: 0 <= i < n ==> r[i] == DoSend(full)
  {
    seq(n, i => DoSend(full))
  }

  /** A message of one full segment is queued as it is, in either mode. */
  lemma SendFull(s: State, full: Bytes, n: nat)
    requires |full| == Mss(s.cfg) && s.sndQueue == Copies(full, n)
    ensures Send(s, full) == (s.(sndQueue := Copies(full, n + 1)), true)
  {
    assert full[0..] == full && full[..0] == [];
    assert Copies(full, n + 1) == Copies(full, n) + [Frag(0, full)];
  }

  lemma {:induction false} SendsRun(m: Arith, s: State, full: Bytes, n: nat)
    requires |full| == Mss(s.cfg) && s.sndQueue == []
    ensures Run(m, s, Sends(full, n)) == s.(sndQueue := Copies(full, n)) && NeverFails(m, s, Sends(full, n))
  {
    if n == 0 {
      assert Sends(full, 0) == [] && Copies(full, 0) == [];
    } else {
      hide Send;
      SendsRun(m, s, full, n - 1);
      assert Sends(full, n)[..n - 1] == Sends(full, n - 1);
      SendFull(Run(m, s, Sends(full, n - 1)), full, n - 1);
    }
  }

  // ---- The peer's window ----

  function Announce(conv: u32, wnd: u16): Wire {
    Wire(conv, CMD_WINS, 0, wnd, 0, 0, 0, [])
  }

  lemma AnnounceSets(m: Arith, s: State, wnd: u16, now: u32)
    requires s.sndBuf == [] && s.sndUna == s.sndNxt
    ensures Input(m, s, [Announce(s.conv, wnd)], now) == s.(wnd := s.wnd.(rmt := wnd))
  {
    var w := Announce(s.conv, wnd);
    assert [w][1..] == [];
    assert InputSegments(m, s, NoAck, [w], now) == InputSegment(m, s, NoAck, w, now);
  }

  // ---- A flush ----

  /** Small numbers compare and add as integers do. */
  lemma SmallNumbers(m: Arith, x: int, y: int)
    requires 0 <= x <= 65535 && 0 <= y <= 65535
    ensures Before(m, x, Add(m, 0, y)) <==> x < y
    ensures Before(m, x, y) <==> x < y
    ensures After(m, x, y) <==> x > y
    ensures Add(m, x, 1) == x + 1
  {
  }

  lemma WindowIsSmall(s: State)
    ensures EffectiveWindow(s) <= 65535
  {
  }

  lemma MovesFirst(m: Arith, s: State, now: u32)
    requires s.sndUna == 0 && s.sndQueue != [] && 0 <= s.sndNxt < EffectiveWindow(s)
    ensures var s1 := NumberOne(m, s, now);
            && MoveToSendBuf(m, s, now) == MoveToSendBuf(m, s1, now) && EffectiveWindow(s1) == EffectiveWindow(s)
            && s1.sndUna == 0 && s1.sndNxt == s.sndNxt + 1 && s1.sndQueue == s.sndQueue[1..] && s1.rtt == s.rtt
            && s1.sndBuf == s.sndBuf + [Segment(s.sndNxt, s.sndQueue[0], now, now, s.rtt.rto, 0, 0)]
  {
    WindowIsSmall(s);
    SmallNumbers(m, s.sndNxt, EffectiveWindow(s));
    hide Before, Add;
  }

  /** Everything queued gets a number where the window has room for all of it. */
  lemma {:induction false} MoveFills(m: Arith, s: State, now: u32)
    requires s.sndUna == 0 && 0 <= s.sndNxt && s.sndNxt + |s.sndQueue| <= EffectiveWindow(s)
    ensures var r := MoveToSendBuf(m, s, now);
            && r.sndQueue == [] && r.sndNxt == s.sndNxt + |s.sndQueue|
            && r.sndBuf == s.sndBuf + Numbered(s.sndNxt, s.sndQueue, now, s.rtt.rto)
    decreases |s.sndQueue|
  {
    hide EffectiveWindow, Before, Add, MoveToSendBuf, NumberOne;
    if s.sndQueue == [] {
      WindowIsSmall(s);
      NothingMoves(m, s, now);
      assert s.sndBuf + Numbered(s.sndNxt, s.sndQueue, now, s.rtt.rto) == s.sndBuf;
    } else {
      var s1 := NumberOne(m, s, now);
      MovesFirst(m, s, now);
      MoveFills(m, s1, now);
      NumberedOn(s.sndBuf, s.sndNxt, s.sndQueue, now, s.rtt.rto);
    }
  }

  lemma NumberedOn(buf: seq<Segment>, first: int, frags: seq<Frag>, now: u32, rto: u32)
    requires frags != []
    ensures buf + Numbered(first, frags, now, rto)
         == buf + [Segment(first, frags[0], now, now, rto, 0, 0)] + Numbered(first + 1, frags[1..], now, rto)
  {
  }

  /** What a flush numbers, and marks: nothing if nothing is queued or the window is full, and all if
      the window has room for all. */
  lemma ScanOf(m: Arith, s: State, now: u32)
    requires s.sndUna == 0 && 0 <= s.sndNxt <= 65535
    requires s.sndQueue == [] || 0 <= EffectiveWindow(s) <= s.sndNxt || s.sndNxt + |s.sndQueue| <= EffectiveWindow(s)
    ensures var (b, r) := (BeforeScan(m, s, now), Flush(m, s, now).0);
            var all := s.sndQueue != [] && s.sndNxt < EffectiveWindow(s);
            && b.cfg == s.cfg && b.rtt == s.rtt && b.wnd == s.wnd && b.sndUna == 0
            && b.sndQueue == r.sndQueue == (if all then [] else s.sndQueue)
            && b.sndNxt == r.sndNxt == (if all then s.sndNxt + |s.sndQueue| else s.sndNxt)
            && b.sndBuf == (if all then s.sndBuf + Numbered(s.sndNxt, s.sndQueue, now, s.rtt.rto) else s.sndBuf)
            && r.sndBuf == MarkAll(s.cfg, s.rtt.rto, b.sndBuf, now) && r.probe == b.probe
  {
    var s1 := HandleWindowProbe(FlushAcks(s), now);
    assert SameSending(s, s1) by { hide ProbeTimer, OutputAll, AckWires, ProbeWires; }
    FlushFacts(m, s, now);
    FlushNumbering(m, s, now);
    if s.sndNxt + |s.sndQueue| <= EffectiveWindow(s) {
      MoveFills(m, s1, now);
      if s.sndQueue == [] { assert s.sndBuf + Numbered(s.sndNxt, [], now, s.rtt.rto) == s.sndBuf; }
    } else {
      NothingMoves(m, s1, now);
    }
    hide Flush, MoveToSendBuf, HandleWindowProbe, FlushAcks, EffectiveWindow, Before, Add;
  }

  lemma NothingMoves(m: Arith, s: State, now: u32)
    requires s.sndQueue == [] || (s.sndUna == 0 && EffectiveWindow(s) <= s.sndNxt <= 65535 && EffectiveWindow(s) >= 0)
    ensures MoveToSendBuf(m, s, now) == s
  {
    if s.sndQueue != [] { SmallNumbers(m, s.sndNxt, EffectiveWindow(s)); }
    hide EffectiveWindow, Before, Add;
  }

  ghost predicate SameSending(s: State, r: State) {
    && r.cfg == s.cfg && r.rtt == s.rtt && r.wnd == s.wnd && r.sndUna == s.sndUna && r.sndNxt == s.sndNxt
    && r.sndQueue == s.sndQueue && r.sndBuf == s.sndBuf
  }

  /** The window after a flush in which nothing timed out. */
  lemma WindowOf(m: Arith, s: State, now: u32)
    requires Flush(m, s, now).1 && s.wnd.cwnd >= 1 && BeforeScan(m, s, now).wnd == s.wnd
    requires var b := BeforeScan(m, s, now);
             !AnyMark(b.cfg, b.sndBuf, now, Timeout)
    ensures var b := BeforeScan(m, s, now);
            Flush(m, s, now).0.wnd ==
            if AnyMark(b.cfg, b.sndBuf, now, Fast) then UpdateCongestionOnLoss(m, b, false, true).wnd else s.wnd
  {
    FlushWindow(m, s, now);
    hide Flush, BeforeScan, AnyMark, OnFastLoss, OnTimeoutLoss, Mss;
  }

  // ---- Opening a run: a wide window, and `n` segments in flight ----

  function Opening(conv: u32, full: Bytes, n: nat): seq<Op> {
    [DoInput([Announce(conv, 65535)], 0)] + Sends(full, n) + [DoFlush(0)]
  }

  /** A segment transmitted at time 0 for the first time. */
  function FirstSent(cfg: Config, full: Bytes, sn: int): Segment {
    Segment(sn, Frag(0, full), 0, RTO_DEF + (if cfg.nodelay then 0 else RTO_DEF / 8), RTO_DEF, 0, 1)
  }

  ghost predicate Opened(s: State, conv: u32, cfg: Config, full: Bytes, n: nat) {
    && s.cfg == cfg && s.conv == conv && s.sndUna == 0 && s.sndNxt == n && s.sndQueue == [] && s.ackList == []
    && |s.sndBuf| == n && (forall i :: 0 <= i < n ==> s.sndBuf[i] == FirstSent(cfg, full, i))
    && s.wnd == Window(65535, cfg.sndWnd, THRESH_INIT, 0) && s.rtt.rto == RTO_DEF
  }

  lemma FirstTransmission(cfg: Config, full: Bytes, sn: int)
    ensures Marked(cfg, RTO_DEF, Segment(sn, Frag(0, full), 0, 0, RTO_DEF, 0, 0), 0) == FirstSent(cfg, full, sn)
    ensures MarkOf(cfg, Segment(sn, Frag(0, full), 0, 0, RTO_DEF, 0, 0), 0).First?
  {
  }

  /** What the first flush scans, and leaves. */
  lemma FirstScan(m: Arith, s: State, full: Bytes, n: nat)
    requires s.sndUna == 0 && s.sndNxt == 0 && s.sndBuf == [] && s.rtt.rto == RTO_DEF
    requires s.sndQueue == Copies(full, n) && n <= EffectiveWindow(s)
    ensures var (b, r) := (BeforeScan(m, s, 0), Flush(m, s, 0).0);
            && b.cfg == s.cfg && b.wnd == s.wnd && |b.sndBuf| == |r.sndBuf| == n
            && r.sndNxt == n && r.sndQueue == []
            && forall i :: 0 <= i < n ==>
                 r.sndBuf[i] == FirstSent(s.cfg, full, i) && MarkOf(b.cfg, b.sndBuf[i], 0).First?
  {
    hide Flush, BeforeScan, MarkOf, Marked, EffectiveWindow;
    ScanOf(m, s, 0);
    var (b, r) := (BeforeScan(m, s, 0), Flush(m, s, 0).0);
    if n > 0 {
      forall i | 0 <= i < n
        ensures r.sndBuf[i] == FirstSent(s.cfg, full, i) && MarkOf(b.cfg, b.sndBuf[i], 0).First?
      {
        assert b.sndBuf[i] == Segment(i, Frag(0, full), 0, 0, RTO_DEF, 0, 0);
        FirstTransmission(s.cfg, full, i);
      }
    }
  }

  lemma FirstFlush(m: Arith, s: State, full: Bytes, n: nat)
    requires s.sndUna == 0 && s.sndNxt == 0 && s.sndBuf == [] && s.ackList == [] && s.rtt.rto == RTO_DEF
    requires s.sndQueue == Copies(full, n) && n <= EffectiveWindow(s) && s.cfg.deadLink >= 2
    requires s.wnd == Window(65535, s.cfg.sndWnd, THRESH_INIT, 0)
    ensures Flush(m, s, 0).1 && Opened(Flush(m, s, 0).0, s.conv, s.cfg, full, n)
  {
    hide Flush, BeforeScan, MarkOf, EffectiveWindow, FirstSent, Copies, UpdateCongestionOnLoss;
    FreshFlushSucceedsIff(m, s, 0);
    FirstScan(m, s, full, n);
    var b := BeforeScan(m, s, 0);
    assert !AnyMark(b.cfg, b.sndBuf, 0, Timeout) && !AnyMark(b.cfg, b.sndBuf, 0, Fast);
    hide AnyMark;
    WindowOf(m, s, 0);
  }

  lemma OpeningRun(m: Arith, conv: u32, cfg: Config, full: Bytes, n: nat)
    requires |full| == Mss(cfg) && n <= cfg.sndWnd && cfg.deadLink >= 2
    ensures Opened(Run(m, Init(conv, cfg), Opening(conv, full, n)), conv, cfg, full, n)
    ensures NeverFails(m, Init(conv, cfg), Opening(conv, full, n))
  {
    hide Run, Flush, Input, Opened, Sends, NeverFails;
    var s0 := Init(conv, cfg);
    var first := DoInput([Announce(conv, 65535)], 0);
    AnnounceSets(m, s0, 65535, 0);
    RunOne(m, s0, first);
    var s1 := s0.(wnd := s0.wnd.(rmt := 65535));
    SendsRun(m, s1, full, n);
    RunAppend(m, s0, [first], Sends(full, n));
    var s2 := s1.(sndQueue := Copies(full, n));
    FirstFlush(m, s2, full, n);
    RunThen(m, s0, [first] + Sends(full, n), DoFlush(0));
    OpeningNeverFails(m, s0, first, full, n);
    NeverFailsThen(m, s0, [first] + Sends(full, n), DoFlush(0));
  }

  lemma {:induction false} OpeningNeverFails(m: Arith, s: State, first: Op, full: Bytes, n: nat)
    requires first.DoInput?
    ensures NeverFails(m, s, [first] + Sends(full, n))
  {
    hide Run, Flush;
    if n == 0 {
      assert [first] + Sends(full, 0) == [first];
      assert [first][..0] == [] && NeverFails(m, s, []);
    } else {
      OpeningNeverFails(m, s, first, full, n - 1);
      NeverFailsThen(m, s, [first] + Sends(full, n - 1), DoSend(full));
      assert [first] + Sends(full, n) == [first] + Sends(full, n - 1) + [DoSend(full)];
    }
  }

  // ---- Acknowledgements of a later segment ----

  function AckOf(conv: u32, sn: int, ts: u32): Wire {
    Wire(conv, CMD_ACK, 0, 65535, ts, sn, 0, [])
  }

  /** What an acknowledgement of number 1 changes while number 0 is in flight. */
  ghost predicate Overtaken(s: State, r: State, count: nat) {
    && r.cfg == s.cfg && r.conv == s.conv && r.sndUna == 0 && r.sndNxt == s.sndNxt && r.sndQueue == s.sndQueue
    && r.ackList == s.ackList && r.probe == s.probe && r.wnd == s.wnd.(rmt := 65535)
    && s.sndBuf != [] && r.sndBuf != [] && r.sndBuf[0] == s.sndBuf[0].(fastack := U(s.sndBuf[0].fastack + count))
    && Survivors(r.sndBuf, s.sndBuf)
  }

  /** Number 0, last sent by `ts`, is in flight with others after it. */
  ghost predicate FrontFlying(s: State, ts: u32) {
    && s.sndUna == 0 && 2 <= s.sndNxt <= 65535
    && s.sndBuf != [] && s.sndBuf[0].sn == 0 && TimeDiff(ts, s.sndBuf[0].ts) >= 0
  }

  lemma AckRemoves(m: Arith, s: State, ts: u32, now: u32)
    requires FrontFlying(s, ts)
    ensures var w := AckOf(s.conv, 1, ts);
            var (r, newest) := InputSegment(m, s, NoAck, w, now);
            && r == s.(wnd := s.wnd.(rmt := 65535), rtt := r.rtt, sndBuf := r.sndBuf)
            && r.sndBuf == [s.sndBuf[0]] + RemoveSn(s.sndBuf[1..], 1) && newest == Newest(1, ts)
  {
    SmallNumbers(m, 0, 0);
    SmallNumbers(m, 1, 0);
    SmallNumbers(m, 1, s.sndNxt);
    hide UpdateAck, TimeDiff, Before, Add;
  }

  lemma AckCounts(m: Arith, s: State, ts: u32, now: u32)
    requires FrontFlying(s, ts)
    ensures var r := Input(m, s, [AckOf(s.conv, 1, ts)], now);
            Overtaken(s, r, 1) && FrontFlying(r, ts)
  {
    var w := AckOf(s.conv, 1, ts);
    AckRemoves(m, s, ts, now);
    InputSurvivors(m, s, [w], now);
    SmallNumbers(m, 0, 1);
    SmallNumbers(m, 0, 0);
    SmallNumbers(m, 1, 0);
    SmallNumbers(m, 1, s.sndNxt);
    assert [w][1..] == [];
    var (s1, newest) := InputSegment(m, s, NoAck, w, now);
    assert InputSegments(m, s, NoAck, [w], now) == (s1, newest);
    hide InputSegments, InputSegment, RemoveSn, TimeDiff, Before, After, Add, Survivors, GrowCwnd;
    assert BumpFastack(m, s1.sndBuf, 1, ts)[0] == BumpOne(s.sndBuf[0], ts);
  }

  function Acks(conv: u32, ts: u32, now: u32, k: nat): (r: seq<Op>)
    ensures |r| == k && forall i :: 0 <= i < k ==> r[i] == DoInput([AckOf(conv, 1, ts)], now)
  {
    seq(k, i => DoInput([AckOf(conv, 1, ts)], now))
  }

  /** Each copy of an acknowledgement counts. */
  lemma {:induction false} AcksRun(m: Arith, s: State, ts: u32, now: u32, k: nat)
    requires FrontFlying(s, ts)
    ensures var r := Run(m, s, Acks(s.conv, ts, now, k));
            FrontFlying(r, ts) && (k >= 1 ==> Overtaken(s, r, k))
  {
    if k > 0 {
      hide Input, FrontFlying;
      AcksRun(m, s, ts, now, k - 1);
      assert Acks(s.conv, ts, now, k)[..k - 1] == Acks(s.conv, ts, now, k - 1);
      var r1 := Run(m, s, Acks(s.conv, ts, now, k - 1));
      if k > 1 {
        AckCounts(m, r1, ts, now);
        OvertakenAgain(s, r1, Input(m, r1, [AckOf(s.conv, 1, ts)], now), k - 1);
      } else {
        assert r1 == s;
        AckCounts(m, s, ts, now);
      }
    }
  }

  lemma OvertakenAgain(s: State, r1: State, r: State, k: nat)
    requires Overtaken(s, r1, k) && Overtaken(r1, r, 1)
    ensures Overtaken(s, r, k + 1)
  {
    SurvivorsTransitive(r.sndBuf, r1.sndBuf, s.sndBuf);
    WrapShift(s.sndBuf[0].fastack + k, 1);
    hide Survivors, U;
  }

  lemma {:induction false} AcksNeverFail(m: Arith, s: State, conv: u32, ts: u32, now: u32, k: nat)
    ensures NeverFails(m, s, Acks(conv, ts, now, k))
  {
    if k > 0 {
      AcksNeverFail(m, s, conv, ts, now, k - 1);
      assert Acks(conv, ts, now, k)[..k - 1] == Acks(conv, ts, now, k - 1);
    }
  }

  // ---- Data that is expected ----

  /** What the next expected data segment leaves of a receiver with nothing in flight itself. */
  lemma PushArrives(m: Arith, s: State, w: Wire)
    requires w.conv == s.conv && w.cmd == CMD_PUSH && w.sn == s.rcvNxt && s.sndBuf == [] && s.sndUna == s.sndNxt
    ensures var (r, d) := (Input(m, s, [w], 0), MoveToRecvQueue(m, Store(s, s.rcvNxt, Frag(w.frg, w.data))));
            && r == s.(wnd := s.wnd.(rmt := w.wnd), ackList := s.ackList + [Ack(w.sn, w.ts)],
                       rcvNxt := d.rcvNxt, rcvBuf := d.rcvBuf, rcvQueue := d.rcvQueue)
  {
    assert [w][1..] == [];
    assert InputSegments(m, s, NoAck, [w], 0) == InputSegment(m, s, NoAck, w, 0);
    var s1 := s.(wnd := s.wnd.(rmt := w.wnd), ackList := s.ackList + [Ack(w.sn, w.ts)]);
    MoveSees(m, Store(s, w.sn, Frag(w.frg, w.data)), Store(s1, w.sn, Frag(w.frg, w.data)));
    InWindow(m, s.rcvNxt, s.rcvNxt, s.cfg.rcvWnd);
    hide Before, Add, After, MoveToRecvQueue;
  }

  /** What is moved does not depend on the rest of the state. */
  lemma {:induction false} MoveSees(m: Arith, s: State, r: State)
    requires r.cfg == s.cfg && r.rcvNxt == s.rcvNxt && r.rcvBuf == s.rcvBuf && r.rcvQueue == s.rcvQueue
    ensures var (a, b) := (MoveToRecvQueue(m, s), MoveToRecvQueue(m, r));
            b.rcvNxt == a.rcvNxt && b.rcvBuf == a.rcvBuf && b.rcvQueue == a.rcvQueue
    decreases |s.rcvBuf|
  {
    hide Add;
    if s.rcvNxt in s.rcvBuf && |s.rcvQueue| < s.cfg.rcvWnd { MoveSees(m, MoveOne(m, s), MoveOne(m, r)); }
  }

  lemma QueuesOne(m: Arith, s: State, frag: Frag)
    requires s.rcvBuf == map[] && |s.rcvQueue| < s.cfg.rcvWnd
    ensures var r := MoveToRecvQueue(m, Store(s, s.rcvNxt, frag));
            r.rcvNxt == Add(m, s.rcvNxt, 1) && r.rcvBuf == map[] && r.rcvQueue == s.rcvQueue + [frag]
  {
    var s2 := MoveOne(m, Store(s, s.rcvNxt, frag));
    hide Add;
    assert s2.rcvBuf == map[];
    assert MoveToRecvQueue(m, s2) == s2;
  }
}
