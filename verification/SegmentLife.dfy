/** The life of a segment between being numbered and being acknowledged: how often and when it was
    transmitted, what its fast retransmissions rest on, and when the link is declared dead. Runs
    are exact and carry real time that never goes back; the engine reads its low 32 bits. */
module SegmentLife {
  import opened Word
  import opened Protocol
  import opened EngineSpec
  import opened SendSide
  import opened Packing
  import opened EngineLoops
  import opened EngineRun
  import opened Deadlines
  import opened RoundTripTime
  import opened NetworkSafety

  /** One packet that acknowledged something later: the step it came in, the number and time stamp
      of its newest acknowledgement, and when the segment it overtook had last been sent. */
  datatype Credit = Credit(step: nat, sn: int, ts: u32, sentAt: u32)

  /** What happened to one number: time and timeout of its first transmission, time of the last,
      how many datagram segments carried it, how many of its transmissions were fast ones, and the
      packets that overtook it since its counter was last zeroed. */
  datatype Life = Life(first: nat, rto: u32, last: nat, sent: nat, fasts: nat, credits: seq<Credit>)

  /** An engine with the life of every number it gave out. */
  datatype Tracked = Tracked(eng: State, clock: nat, steps: nat, lives: seq<Life>)

  /** The segment with number `sn` in a buffer. */
  ghost function SegOf(buf: seq<Segment>, sn: int): (seg: Segment)
    requires Buffered(buf, sn)
    ensures seg in buf && seg.sn == sn
  {
    var i :| 0 <= i < |buf| && buf[i].sn == sn;
    buf[i]
  }

  /** How many of the segments carry data number `sn`. */
  function CountPush(ws: seq<Wire>, sn: int): nat {
    if ws == [] then 0
    else CountPush(ws[..|ws| - 1], sn) + (if ws[|ws| - 1].cmd == CMD_PUSH && ws[|ws| - 1].sn == sn then 1 else 0)
  }

  function Born(): Life {
    Life(0, 0, 0, 0, 0, [])
  }

  function LifeAfterMark(life: Life, mark: Mark, rto: u32, t: nat): Life {
    match mark
    case Idle => life
    case First => life.(first := t, rto := rto, last := t)
    case Timeout => life.(last := t)
    case Fast => life.(last := t, fasts := life.fasts + 1, credits := [])
  }

  /** A flush at real time `t`. */
  ghost function TrackFlush(x: Tracked, t: nat): Tracked {
    var now := U(t);
    var r := Flush(Exact, x.eng, now).0;
    var b := BeforeScan(Exact, x.eng, now);
    var wires := FlushWires(Exact, x.eng, now);
    var n := if b.sndNxt >= 0 then b.sndNxt else 0;
    Tracked(Drain(r), t, x.steps + 1,
            seq(n, sn requires 0 <= sn < n =>
              var life := if sn < |x.lives| then x.lives[sn] else Born();
              var life1 := life.(sent := life.sent + CountPush(wires, sn));
              if Buffered(b.sndBuf, sn)
                then LifeAfterMark(life1, MarkOf(b.cfg, SegOf(b.sndBuf, sn), now), b.rtt.rto, t) else life1))
  }

  /** The packet's newest acknowledgement `newest` overtakes the buffered segment `sn`. */
  ghost predicate Overtakes(buf: seq<Segment>, newest: Newest, una: int, nxt: int, sn: int) {
    newest.Newest? && una <= newest.sn < nxt && Buffered(buf, sn) && sn < newest.sn
      && TimeDiff(newest.ts, SegOf(buf, sn).ts) >= 0
  }

  ghost function TrackInput(x: Tracked, ws: seq<Wire>, t: nat): Tracked {
    var (s1, newest) := InputSegments(Exact, x.eng, NoAck, ws, U(t));
    var s2 := ShrinkBuf(s1);
    Tracked(Input(Exact, x.eng, ws, U(t)), t, x.steps + 1,
            seq(|x.lives|, sn requires 0 <= sn < |x.lives| =>
              if Overtakes(s2.sndBuf, newest, s2.sndUna, s2.sndNxt, sn)
              then x.lives[sn].(credits := x.lives[sn].credits
                + [Credit(x.steps, newest.sn, newest.ts, SegOf(s2.sndBuf, sn).ts)])
              else x.lives[sn]))
  }

  // ---- Powers of two ----

  function Pow2(n: nat): (r: nat)
    ensures r >= 1
  {
    if n == 0 then 1 else 2 * Pow2(n - 1)
  }

  lemma {:induction false} Pow2Grows(a: nat, b: nat)
    requires a <= b
    ensures Pow2(a) <= Pow2(b)
  {
    if a < b { Pow2Grows(a, b - 1); }
  }

  // ---- The invariant ----

  ghost predicate CreditsGood(credits: seq<Credit>, sn: int, steps: nat) {
    && (forall i :: 0 <= i < |credits| ==>
      credits[i].sn > sn && TimeDiff(credits[i].ts, credits[i].sentAt) >= 0 && credits[i].step < steps)
    && (forall i, j :: 0 <= i < j < |credits| ==> credits[i].step < credits[j].step)
  }

  /** The longest a timeout of `wait` ms can be backed off to. */
  function NextWait(cfg: Config, wait: nat): nat {
    if cfg.nodelay then wait + (if cfg.noCongestionControl then RTO_MAX else wait) / 2
    else wait + Max(wait, cfg.interval)
  }

  /** The longest timeout after `n` times backing off from `rto`. */
  function Waits(cfg: Config, rto: nat, n: nat): nat {
    if n == 0 then rto else NextWait(cfg, Waits(cfg, rto, n - 1))
  }

  /** Timeouts stay below half the circle for all transmissions up to the last. */
  predicate BackoffFits(cfg: Config, rto: u32) {
    Waits(cfg, rto, cfg.deadLink - 1) < HALF
  }

  /** What the first timeout has on top, without `nodelay`. */
  function FirstSlack(cfg: Config, xmit: u32, rto: u32): nat {
    if xmit == 1 && !cfg.nodelay then rto / 8 else 0
  }

  /** The timer of a segment is set from its last transmission, by a timeout no longer than its
      transmissions can have made it. In normal mode, without fast retransmissions, timeouts at least
      double from one to the next. */
  ghost predicate Timing(cfg: Config, seg: Segment, life: Life, clock: nat) {
    1 <= seg.xmit <= cfg.deadLink && BackoffFits(cfg, life.rto) ==>
      && 1 <= life.rto <= RTO_MAX && life.first <= life.last <= clock
      && 1 <= seg.rto <= Waits(cfg, life.rto, seg.xmit - 1)
      && seg.resendts == U(life.last + seg.rto + FirstSlack(cfg, seg.xmit, life.rto))
      && (!cfg.nodelay && life.fasts == 0 ==>
            && Pow2(seg.xmit - 1) * life.rto <= seg.rto
            && life.last >= life.first + (Pow2(seg.xmit - 1) - 1) * life.rto)
  }

  ghost predicate LifeInv(cfg: Config, seg: Segment, life: Life, clock: nat, steps: nat) {
    && 1 <= seg.xmit < cfg.deadLink && seg.xmit == life.sent && 1 <= life.rto <= RTO_MAX
    && life.fasts < seg.xmit && life.fasts <= FASTACK_LIMIT
    && seg.fastack == U(|life.credits|) && CreditsGood(life.credits, seg.sn, steps)
    && Timing(cfg, seg, life, clock)
  }

  ghost predicate TrackedInv(x: Tracked) {
    && SendInv(Exact, x.eng) && 0 <= x.eng.sndUna && |x.lives| == x.eng.sndNxt && RttInv(x.eng.rtt)
    && (forall i :: 0 <= i < |x.eng.sndBuf| ==> Lives(x, x.eng.sndBuf[i]))
  }

  ghost predicate Lives(x: Tracked, seg: Segment) {
    0 <= seg.sn < |x.lives| && LifeInv(x.eng.cfg, seg, x.lives[seg.sn], x.clock, x.steps)
  }

  // ---- One segment, one scan ----

  lemma PowTimes(k: nat, n: nat)
    requires k >= 1
    ensures Pow2(k) * n == 2 * (Pow2(k - 1) * n)
    ensures (Pow2(k) - 1) * n == (Pow2(k - 1) - 1) * n + Pow2(k - 1) * n
  {
    assert Pow2(k) == 2 * Pow2(k - 1);
  }

  lemma NextGrows(cfg: Config, a: nat, b: nat)
    requires a <= b
    ensures a <= NextWait(cfg, a) <= NextWait(cfg, b)
  {
  }

  lemma {:induction false} WaitsGrow(cfg: Config, rto: nat, a: nat, b: nat)
    requires a <= b
    ensures rto <= Waits(cfg, rto, a) <= Waits(cfg, rto, b)
  {
    hide NextWait;
    if b > 0 {
      NextGrows(cfg, Waits(cfg, rto, b - 1), Waits(cfg, rto, b - 1));
      if a < b { WaitsGrow(cfg, rto, a, b - 1); } else { WaitsGrow(cfg, rto, a - 1, b - 1); }
    }
  }

  /** Backing off a timeout once more stays within the bound for one more transmission. */
  lemma RoomToBackOff(cfg: Config, rto: u32, seg: Segment, life: Life)
    requires 1 <= seg.xmit < cfg.deadLink && BackoffFits(cfg, life.rto) && rto <= RTO_MAX
    requires 1 <= seg.rto <= Waits(cfg, life.rto, seg.xmit - 1)
    ensures var b := Backoff(cfg, rto, seg.rto);
            && 1 <= seg.rto <= b <= Waits(cfg, life.rto, seg.xmit) < HALF
            && (!cfg.nodelay ==> 2 * seg.rto <= b)
  {
    var k := seg.xmit;
    NextGrows(cfg, seg.rto, Waits(cfg, life.rto, k - 1));
    WaitsGrow(cfg, life.rto, k, cfg.deadLink - 1);
    hide Waits;
  }

  /** A timer that fires has run its time. */
  lemma FiresLate(t: nat, last: nat, wait: nat)
    requires last <= t && wait < HALF && TimeDiff(U(t), U(last + wait)) >= 0
    ensures t >= last + wait
  {
    if t < last + wait { SerialComparison(t, last + wait); }
  }

  /** A timeout of a live segment stays below half the circle with the slack of the first. */
  lemma WaitIsShort(cfg: Config, seg: Segment, life: Life, clock: nat)
    requires Timing(cfg, seg, life, clock) && 1 <= seg.xmit < cfg.deadLink && BackoffFits(cfg, life.rto)
    ensures 1 <= seg.rto <= seg.rto + FirstSlack(cfg, seg.xmit, life.rto) < HALF
  {
    WaitsGrow(cfg, life.rto, seg.xmit - 1, cfg.deadLink - 1);
    hide Pow2;
  }

  lemma TimeoutTiming(cfg: Config, rto: u32, seg: Segment, life: Life, clock: nat, t: nat)
    requires Timing(cfg, seg, life, clock) && clock <= t && 1 <= seg.xmit < cfg.deadLink && rto <= RTO_MAX
    requires MarkOf(cfg, seg, U(t)).Timeout?
    ensures Timing(cfg, Marked(cfg, rto, seg, U(t)), life.(last := t), t)
  {
    hide Pow2, TimeDiff, BackoffFits, U, Waits, Backoff;
    if BackoffFits(cfg, life.rto) {
      var k := seg.xmit;
      WaitIsShort(cfg, seg, life, clock);
      FiresLate(t, life.last, seg.rto + FirstSlack(cfg, k, life.rto));
      RoomToBackOff(cfg, rto, seg, life);
      PowTimes(k, life.rto);
      WrapShift(t, Backoff(cfg, rto, seg.rto));
      WithinWord(k);
    }
  }

  lemma WithinWord(k: nat)
    requires k + 1 < M32
    ensures U(k + 1) == k + 1
  {
  }

  lemma FastTiming(cfg: Config, rto: u32, seg: Segment, life: Life, clock: nat, t: nat)
    requires Timing(cfg, seg, life, clock) && clock <= t && 1 <= seg.xmit < cfg.deadLink
    requires MarkOf(cfg, seg, U(t)).Fast?
    ensures Timing(cfg, Marked(cfg, rto, seg, U(t)), life.(last := t, fasts := life.fasts + 1, credits := []), t)
  {
    hide Pow2, TimeDiff, BackoffFits, U, Waits, Backoff;
    WrapShift(t, seg.rto);
    WithinWord(seg.xmit);
    WaitsGrow(cfg, life.rto, seg.xmit - 1, seg.xmit);
  }

  lemma PowZero()
    ensures Pow2(0) == 1
  {
  }

  lemma FirstTiming(cfg: Config, rto: u32, seg: Segment, life: Life, t: nat)
    requires seg.xmit == 0 && 1 <= rto <= RTO_MAX
    ensures Timing(cfg, Marked(cfg, rto, seg, U(t)), life.(first := t, rto := rto, last := t), t)
  {
    hide TimeDiff, U, Pow2, BackoffFits;
    PowZero();
    WrapShift(t, rto);
    WrapShift(t + rto, if cfg.nodelay then 0 else rto / 8);
  }

  /** A segment scanned at `t`, and transmitted if it is due, goes on with its life. */
  lemma MarkKeepsLife(cfg: Config, rto: u32, seg: Segment, life: Life, clock: nat, steps: nat, t: nat)
    requires clock <= t && 1 <= rto <= RTO_MAX
    requires LifeInv(cfg, seg, life, clock, steps) || (seg.xmit == 0 && seg.fastack == 0 && life == Born())
    ensures var (mark, r) := (MarkOf(cfg, seg, U(t)), Marked(cfg, rto, seg, U(t)));
            var life1 := LifeAfterMark(life.(sent := life.sent + if mark.Idle? then 0 else 1), mark, rto, t);
            && Timing(cfg, r, life1, t) && r.xmit <= cfg.deadLink
              && (r.xmit >= cfg.deadLink ==> r.xmit == cfg.deadLink && life1.last == t)
            && (r.xmit < cfg.deadLink ==> LifeInv(cfg, r, life1, t, steps + 1))
  {
    hide TimeDiff, Backoff, Pow2, BackoffFits, CreditsGood, Timing;
    var sent := life.(sent := life.sent + 1);
    match MarkOf(cfg, seg, U(t))
    case First =>
      FirstTiming(cfg, rto, seg, sent, t);
      NoCredits(seg.sn, steps + 1);
    case Timeout =>
      SentIsNotTimed(cfg, seg, life, clock);
      TimeoutTiming(cfg, rto, seg, sent, clock, t);
      CreditsLast(life.credits, seg.sn, steps, steps + 1);
    case Fast =>
      SentIsNotTimed(cfg, seg, life, clock);
      FastTiming(cfg, rto, seg, sent, clock, t);
      NoCredits(seg.sn, steps + 1);
    case Idle =>
      LaterTiming(cfg, seg, life, clock, t);
      CreditsLast(life.credits, seg.sn, steps, steps + 1);
  }

  lemma NoCredits(sn: int, steps: nat)
    ensures CreditsGood([], sn, steps)
  {
  }

  lemma CreditsLast(credits: seq<Credit>, sn: int, steps: nat, steps1: nat)
    requires CreditsGood(credits, sn, steps) && steps <= steps1
    ensures CreditsGood(credits, sn, steps1)
  {
    hide TimeDiff;
  }

  lemma SentIsNotTimed(cfg: Config, seg: Segment, life: Life, clock: nat)
    requires Timing(cfg, seg, life, clock)
    ensures Timing(cfg, seg, life.(sent := life.sent + 1), clock)
  {
    hide Pow2, BackoffFits;
  }

  lemma LaterTiming(cfg: Config, seg: Segment, life: Life, clock: nat, t: nat)
    requires Timing(cfg, seg, life, clock) && clock <= t
    ensures Timing(cfg, seg, life.(sent := life.sent + 0), t)
  {
    hide Pow2, BackoffFits;
  }

  // ---- A flush carries each due segment once ----

  ghost predicate Distinct(buf: seq<Segment>) {
    forall i, j :: 0 <= i < j < |buf| ==> buf[i].sn != buf[j].sn
  }

  lemma {:induction false} CountAppend(a: seq<Wire>, b: seq<Wire>, sn: int)
    ensures CountPush(a + b, sn) == CountPush(a, sn) + CountPush(b, sn)
    decreases |b|
  {
    if b == [] {
      assert a + b == a;
    } else {
      assert (a + b)[..|a + b| - 1] == a + b[..|b| - 1];
      CountAppend(a, b[..|b| - 1], sn);
    }
  }

  lemma {:induction false} CountNone(ws: seq<Wire>, sn: int)
    requires forall w :: w in ws ==> w.cmd != CMD_PUSH
    ensures CountPush(ws, sn) == 0
  {
    if ws != [] {
      var init := ws[..|ws| - 1];
      assert forall w :: w in init ==> w in ws;
      CountNone(init, sn);
    }
  }

  /** The number of times the data of `sn` goes out in a scan of `buf`: once if it is due. */
  lemma {:induction false} CountSent(s: State, cfg: Config, rto: u32, buf: seq<Segment>, now: u32, sn: int)
    requires Distinct(buf)
    ensures var n := CountPush(DataWires(s, ToSend(cfg, rto, buf, now)), sn);
            && (forall i :: 0 <= i < |buf| && buf[i].sn == sn ==> n == if MarkOf(cfg, buf[i], now).Idle? then 0 else 1)
            && (!Buffered(buf, sn) ==> n == 0)
    decreases |buf|
  {
    hide MarkOf, Marked, ToSend, DataWires, CountPush;
    if buf == [] {
      NothingDue(s, cfg, rto, now, sn);
    } else {
      var k := |buf| - 1;
      var init, last := buf[..k], buf[k];
      CountSent(s, cfg, rto, init, now, sn);
      MarkedKeeps(cfg, rto, last, now);
      ToSendSnoc(cfg, rto, buf, now, k);
      assert buf[..k + 1] == buf && buf == init + [last];
      var b := if MarkOf(cfg, last, now).Idle? then [] else [Marked(cfg, rto, last, now)];
      CountMore(s, ToSend(cfg, rto, init, now), b, sn);
      BufferedSnoc(init, last, sn);
    }
  }

  lemma NothingDue(s: State, cfg: Config, rto: u32, now: u32, sn: int)
    ensures CountPush(DataWires(s, ToSend(cfg, rto, [], now)), sn) == 0
  {
  }

  lemma CountMore(s: State, a: seq<Segment>, b: seq<Segment>, sn: int)
    requires |b| <= 1
    ensures CountPush(DataWires(s, a + b), sn) == CountPush(DataWires(s, a), sn) + if b != [] && b[0].sn == sn then 1
            else 0
  {
    hide CountPush, DataWire;
    assert DataWires(s, a + b) == DataWires(s, a) + DataWires(s, b);
    CountAppend(DataWires(s, a), DataWires(s, b), sn);
    CountOne(s, b, sn);
  }

  lemma CountOne(s: State, b: seq<Segment>, sn: int)
    requires |b| <= 1
    ensures CountPush(DataWires(s, b), sn) == if b != [] && b[0].sn == sn then 1 else 0
  {
    if b != [] {
      var ws := DataWires(s, b);
      assert ws[..0] == [];
    }
  }

  lemma BufferedSnoc(init: seq<Segment>, last: Segment, sn: int)
    ensures Buffered(init + [last], sn) <==> Buffered(init, sn) || last.sn == sn
  {
    var buf := init + [last];
    if Buffered(init, sn) {
      var i :| 0 <= i < |init| && init[i].sn == sn;
      assert buf[i].sn == sn;
    }
    if last.sn == sn { assert buf[|init|].sn == sn; }
    if Buffered(buf, sn) {
      var i :| 0 <= i < |buf| && buf[i].sn == sn;
      if i < |init| { assert init[i].sn == sn; }
    }
  }

  /** The life a flush finds for number `sn`. */
  function PriorLife(x: Tracked, sn: int): Life {
    if 0 <= sn < |x.lives| then x.lives[sn] else Born()
  }

  lemma DistinctNumbers(s: State)
    requires SendInv(Exact, s)
    ensures Distinct(s.sndBuf)
  {
  }

  lemma SegOfAt(buf: seq<Segment>, i: nat)
    requires i < |buf| && Distinct(buf)
    ensures Buffered(buf, buf[i].sn) && SegOf(buf, buf[i].sn) == buf[i]
  {
    assert Buffered(buf, buf[i].sn);
    var seg := SegOf(buf, buf[i].sn);
    var j :| 0 <= j < |buf| && buf[j] == seg;
  }

  /** Every scanned segment is one with a life, or one just numbered. */
  lemma ScannedLife(x: Tracked, t: nat) returns (k: nat)
    requires TrackedInv(x)
    ensures var b := BeforeScan(Exact, x.eng, U(t));
            && |x.lives| <= b.sndNxt == x.eng.sndNxt + k && b.cfg == x.eng.cfg && Distinct(b.sndBuf)
            && 1 <= b.rtt.rto <= RTO_MAX
            && forall i :: 0 <= i < |b.sndBuf| ==>
                 && 0 <= b.sndBuf[i].sn < b.sndNxt
                 && Scannable(x, b.sndBuf[i])
  {
    k := FlushNumbers(x.eng, U(t));
    FlushKeepsSendInv(Exact, x.eng, U(t));
    var b, r := BeforeScan(Exact, x.eng, U(t)), Flush(Exact, x.eng, U(t)).0;
    DistinctNumbers(r);
    BeforeScanFrame(x.eng, U(t));
    ScanStart(Exact, x.eng, U(t));
    BeforeScanNumber(x.eng, U(t), r);
    hide Flush, BeforeScan, LifeInv, Ascending;
    forall i | 0 <= i < |b.sndBuf| ensures 0 <= b.sndBuf[i].sn < b.sndNxt && Scannable(x, b.sndBuf[i]) {
      if i < |x.eng.sndBuf| {
        assert b.sndBuf[i] == x.eng.sndBuf[i];
        assert Lives(x, x.eng.sndBuf[i]);
      }
    }
  }

  lemma BeforeScanNumber(s: State, now: u32, r: State)
    requires r == Flush(Exact, s, now).0
    ensures BeforeScan(Exact, s, now).sndNxt == r.sndNxt
  {
    hide MoveToSendBuf, HandleWindowProbe, FlushAcks, ToSend, ThroughDead, CloseDatagram, OutputAll, AnyDead, AnyMark,
         MarkAll;
  }

  ghost predicate Scannable(x: Tracked, seg: Segment) {
    LifeInv(x.eng.cfg, seg, PriorLife(x, seg.sn), x.clock, x.steps)
    || (seg.xmit == 0 && seg.fastack == 0 && PriorLife(x, seg.sn) == Born())
  }

  /** What a scanned segment becomes. */
  lemma ScannedBecomes(x: Tracked, t: nat, seg: Segment, rto: u32)
    requires Scannable(x, seg) && x.clock <= t && 1 <= rto <= RTO_MAX
    ensures var (mark, r) := (MarkOf(x.eng.cfg, seg, U(t)), Marked(x.eng.cfg, rto, seg, U(t)));
            var life := PriorLife(x, seg.sn);
            var life1 := LifeAfterMark(life.(sent := life.sent + if mark.Idle? then 0 else 1), mark, rto, t);
            && Timing(x.eng.cfg, r, life1, t) && r.xmit <= x.eng.cfg.deadLink && r.sn == seg.sn
            && (r.xmit >= x.eng.cfg.deadLink ==> r.xmit == x.eng.cfg.deadLink && life1.last == t)
            && (r.xmit < x.eng.cfg.deadLink ==> LifeInv(x.eng.cfg, r, life1, t, x.steps + 1))
  {
    hide LifeInv, Timing, Marked, MarkOf;
    MarkKeepsLife(x.eng.cfg, rto, seg, PriorLife(x, seg.sn), x.clock, x.steps, t);
    MarkedKeeps(x.eng.cfg, rto, seg, U(t));
  }

  lemma OnlyDataIsPush(s: State, now: u32)
    ensures forall w :: w in AckWires(s) + ProbeWires(s.(probe := ProbeTimer(s.probe, s.wnd.rmt, now)), now) ==>
            w.cmd != CMD_PUSH
  {
    hide ProbeTimer;
  }

  /** In a flush that succeeds every due segment goes out exactly once, and no other. */
  lemma FlushCounts(s: State, now: u32, sn: int)
    requires Flush(Exact, s, now).1 && Distinct(BeforeScan(Exact, s, now).sndBuf)
    ensures var (b, n) := (BeforeScan(Exact, s, now), CountPush(FlushWires(Exact, s, now), sn));
            && (forall i :: 0 <= i < |b.sndBuf| && b.sndBuf[i].sn == sn ==>
              n == if MarkOf(b.cfg, b.sndBuf[i], now).Idle? then 0 else 1)
            && (!Buffered(b.sndBuf, sn) ==> n == 0)
  {
    var b := BeforeScan(Exact, s, now);
    SucceedsAlive(s, now);
    OnlyDataIsPush(s, now);
    hide Flush, BeforeScan, MarkOf, AckWires, ProbeWires, ToSend, ThroughDead;
    var head := AckWires(s) + ProbeWires(s.(probe := ProbeTimer(s.probe, s.wnd.rmt, now)), now);
    CountNone(head, sn);
    CountAppend(head, DataWires(b, Sending(Exact, s, now)), sn);
    CountSent(b, b.cfg, b.rtt.rto, b.sndBuf, now, sn);
  }

  lemma SucceedsAlive(s: State, now: u32)
    requires Flush(Exact, s, now).1
    ensures var b := BeforeScan(Exact, s, now);
            var sending := ToSend(b.cfg, b.rtt.rto, b.sndBuf, now);
            AllAlive(sending, b.cfg.deadLink) && Sending(Exact, s, now) == sending
  {
    hide MoveToSendBuf, HandleWindowProbe, FlushAcks, ToSend, ThroughDead, CloseDatagram, OutputAll, AnyMark, MarkAll,
         DataWires, AnyDead;
    var b := BeforeScan(Exact, s, now);
    var sending := ToSend(b.cfg, b.rtt.rto, b.sndBuf, now);
    AliveOrDead(sending, b.cfg.deadLink);
    hide AllAlive;
    ThroughDeadNone(sending, b.cfg.deadLink);
  }

  /** The life recorded by a flush for the `i`-th segment scanned. */
  lemma LifeRecorded(x: Tracked, t: nat, i: nat)
    requires var b := BeforeScan(Exact, x.eng, U(t));
             i < |b.sndBuf| && 0 <= b.sndBuf[i].sn < b.sndNxt && Distinct(b.sndBuf) && |x.lives| <= b.sndNxt
    ensures var b := BeforeScan(Exact, x.eng, U(t));
            var (seg, y) := (b.sndBuf[i], TrackFlush(x, t));
            var life := PriorLife(x, seg.sn);
            && |y.lives| == b.sndNxt
            && y.lives[seg.sn] == LifeAfterMark(life.(sent := life.sent
              + CountPush(FlushWires(Exact, x.eng, U(t)), seg.sn)),
                                                MarkOf(b.cfg, seg, U(t)), b.rtt.rto, t)
  {
    hide Flush, BeforeScan, FlushWires, MarkOf, LifeAfterMark, CountPush;
    SegOfAt(BeforeScan(Exact, x.eng, U(t)).sndBuf, i);
  }

  lemma FlushedLife(x: Tracked, t: nat, i: nat)
    requires TrackedInv(x) && x.clock <= t && Flush(Exact, x.eng, U(t)).1 && i < |BeforeScan(Exact, x.eng, U(t)).sndBuf|
    ensures var b := BeforeScan(Exact, x.eng, U(t));
            Lives(TrackFlush(x, t), Marked(b.cfg, b.rtt.rto, b.sndBuf[i], U(t)))
  {
    hide Flush, BeforeScan, LifeInv, FlushWires, MarkOf, Marked, AllAlive, Sending, Scannable, TrackedInv,
         LifeAfterMark, TrackFlush, Distinct, CountPush, Timing, ToSend, PriorLife, Drain;
    var k := ScannedLife(x, t);
    var b := BeforeScan(Exact, x.eng, U(t));
    var seg := b.sndBuf[i];
    assert Scannable(x, seg);
    SucceedsAlive(x.eng, U(t));
    StaysAlive(b, U(t), i);
    FlushCounts(x.eng, U(t), seg.sn);
    LifeRecorded(x, t, i);
    ScannedBecomes(x, t, seg, b.rtt.rto);
    if MarkOf(b.cfg, seg, U(t)).Idle? { IdleIsAlive(x, t, seg); }
    TrackFrame(x, t);
  }

  /** A segment that is not transmitted was alive before. */
  lemma IdleIsAlive(x: Tracked, t: nat, seg: Segment)
    requires Scannable(x, seg) && MarkOf(x.eng.cfg, seg, U(t)).Idle?
    ensures seg.xmit < x.eng.cfg.deadLink
  {
    hide Timing, CreditsGood;
  }

  lemma TrackFrame(x: Tracked, t: nat)
    ensures var y := TrackFlush(x, t);
            && y.eng == Drain(Flush(Exact, x.eng, U(t)).0) && y.eng.cfg == x.eng.cfg && y.clock == t
              && y.steps == x.steps + 1
  {
    hide Flush, BeforeScan, FlushWires, CountPush;
  }

  /** A successful flush keeps the books: every buffered segment has been transmitted as often as
      its counter says, and less often than the dead-link limit. */
  lemma FlushKeepsTracked(x: Tracked, t: nat)
    requires TrackedInv(x) && x.clock <= t && Flush(Exact, x.eng, U(t)).1
    ensures TrackedInv(TrackFlush(x, t))
  {
    var now, y := U(t), TrackFlush(x, t);
    var k := ScannedLife(x, t);
    FlushKeepsSendInv(Exact, x.eng, now);
    FlushFacts(Exact, x.eng, now);
    var b, r := BeforeScan(Exact, x.eng, now), Flush(Exact, x.eng, now).0;
    BeforeScanNumber(x.eng, now, r);
    TrackFrame(x, t);
    forall i | 0 <= i < |b.sndBuf| ensures Lives(y, Marked(b.cfg, b.rtt.rto, b.sndBuf[i], now)) {
      FlushedLife(x, t, i);
    }
    hide Flush, BeforeScan, SendInv, Lives, FlushWires, Marked, CountPush, LifeAfterMark;
    DrainKeeps(r);
  }

  lemma DrainKeeps(r: State)
    requires SendInv(Exact, r)
    ensures SendInv(Exact, Drain(r))
  {
  }

  lemma StaysAlive(b: State, now: u32, i: nat)
    requires i < |b.sndBuf| && AllAlive(ToSend(b.cfg, b.rtt.rto, b.sndBuf, now), b.cfg.deadLink)
    ensures !MarkOf(b.cfg, b.sndBuf[i], now).Idle? ==> Marked(b.cfg, b.rtt.rto, b.sndBuf[i], now).xmit < b.cfg.deadLink
    ensures MarkOf(b.cfg, b.sndBuf[i], now).Idle? ==> Marked(b.cfg, b.rtt.rto, b.sndBuf[i], now) == b.sndBuf[i]
  {
    ToSendIsDue(b.cfg, b.rtt.rto, b.sndBuf, now);
    hide MarkOf;
    var seg := Marked(b.cfg, b.rtt.rto, b.sndBuf[i], now);
    if !MarkOf(b.cfg, b.sndBuf[i], now).Idle? {
      hide Marked;
      var sending := ToSend(b.cfg, b.rtt.rto, b.sndBuf, now);
      assert seg in sending;
      var j :| 0 <= j < |sending| && sending[j] == seg;
    }
  }

  // ---- The link is declared dead ----

  /** A segment has used up its transmissions, and how long ago it was first sent. */
  ghost predicate UsedUp(cfg: Config, seg: Segment, life: Life, t: nat) {
    && seg.xmit == cfg.deadLink && life.last == t
    && (!cfg.nodelay && life.fasts == 0 && BackoffFits(cfg, life.rto) ==>
          t >= life.first + (Pow2(cfg.deadLink - 1) - 1) * life.rto)
  }

  lemma DeadIsBuffered(s: State, now: u32) returns (i: nat)
    requires !Flush(Exact, s, now).1
    ensures var b := BeforeScan(Exact, s, now);
            i < |b.sndBuf| && Marked(b.cfg, b.rtt.rto, b.sndBuf[i], now).xmit >= b.cfg.deadLink
  {
    hide MoveToSendBuf, HandleWindowProbe, FlushAcks, ToSend, ThroughDead, CloseDatagram, OutputAll, AnyMark, MarkAll,
         DataWires, Marked, MarkOf;
    var b := BeforeScan(Exact, s, now);
    var sending := ToSend(b.cfg, b.rtt.rto, b.sndBuf, now);
    var j :| 0 <= j < |sending| && sending[j].xmit >= b.cfg.deadLink;
    ToSendIsDue(b.cfg, b.rtt.rto, b.sndBuf, now);
    assert sending[j] in sending;
    i :| 0 <= i < |b.sndBuf| && sending[j] == Marked(b.cfg, b.rtt.rto, b.sndBuf[i], now);
  }

  /** A flush that reports a lost connection has transmitted some segment for the `deadLink`-th
      time; in normal mode, if that segment was never fast-retransmitted, it was first sent at
      least (2^(deadLink-1) - 1) initial timeouts ago. */
  lemma LossIsDeclaredLate(x: Tracked, t: nat) returns (i: nat)
    requires TrackedInv(x) && x.clock <= t && !Flush(Exact, x.eng, U(t)).1
    ensures var (r, y) := (Flush(Exact, x.eng, U(t)).0, TrackFlush(x, t));
            && i < |r.sndBuf| && 0 <= r.sndBuf[i].sn < |y.lives|
            && UsedUp(x.eng.cfg, r.sndBuf[i], y.lives[r.sndBuf[i].sn], t)
  {
    hide Flush, BeforeScan, LifeInv, FlushWires, MarkOf, Marked, Scannable, TrackedInv, TrackFlush, Distinct,
         CountPush, Timing, ToSend, PriorLife, BackoffFits, Pow2;
    i := DeadIsBuffered(x.eng, U(t));
    var k := ScannedLife(x, t);
    FlushFacts(Exact, x.eng, U(t));
    var b := BeforeScan(Exact, x.eng, U(t));
    assert Scannable(x, b.sndBuf[i]);
    ScannedBecomes(x, t, b.sndBuf[i], b.rtt.rto);
    LifeRecorded(x, t, i);
    var life := PriorLife(x, b.sndBuf[i].sn);
    var mark := MarkOf(b.cfg, b.sndBuf[i], U(t));
    var n1, n2 := life.sent + (if mark.Idle? then 0 else 1),
      life.sent + CountPush(FlushWires(Exact, x.eng, U(t)), b.sndBuf[i].sn);
    SameButSent(life, mark, b.rtt.rto, t, n1, n2);
    TimedOut(b.cfg, Marked(b.cfg, b.rtt.rto, b.sndBuf[i], U(t)),
      LifeAfterMark(life.(sent := n1), mark, b.rtt.rto, t), t);
  }

  lemma SameButSent(life: Life, mark: Mark, rto: u32, t: nat, n1: nat, n2: nat)
    ensures LifeAfterMark(life.(sent := n2), mark, rto, t)
            == LifeAfterMark(life.(sent := n1), mark, rto, t).(sent := n2)
  {
  }

  lemma TimedOut(cfg: Config, seg: Segment, life: Life, t: nat)
    requires Timing(cfg, seg, life, t) && seg.xmit == cfg.deadLink && life.last == t
    ensures UsedUp(cfg, seg, life, t)
  {
    hide BackoffFits, Pow2, U;
  }

  // ---- Input ----

  /** Before the fast-acknowledgement count, a packet only takes segments out of the buffer. */
  lemma SegmentOnlyRemoves(s: State, newest: Newest, w: Wire, now: u32)
    ensures forall seg :: seg in InputSegment(Exact, s, newest, w, now).0.sndBuf ==> seg in s.sndBuf
  {
    DropOnlyRemoves(s.sndBuf, w.una);
    RemoveOnlyRemoves(DropUna(Exact, s.sndBuf, w.una), w.sn);
    hide UpdateAck, InputPush, DropUna, RemoveSn, InFlight, TrackNewest;
  }

  lemma DropOnlyRemoves(buf: seq<Segment>, una: int)
    ensures forall seg :: seg in DropUna(Exact, buf, una) ==> seg in buf
  {
    var k := DropUnaPops(Exact, buf, una);
    hide DropUna;
  }

  lemma RemoveOnlyRemoves(buf: seq<Segment>, sn: int)
    ensures forall seg :: seg in RemoveSn(buf, sn) ==> seg in buf
  {
    var k := RemoveSnAt(buf, sn);
    hide RemoveSn;
  }

  lemma {:induction false} SegmentsOnlyRemove(s: State, newest: Newest, ws: seq<Wire>, now: u32)
    ensures forall seg :: seg in InputSegments(Exact, s, newest, ws, now).0.sndBuf ==> seg in s.sndBuf
    decreases |ws|
  {
    if ws != [] {
      SegmentOnlyRemoves(s, newest, ws[0], now);
      var (s1, newest1) := InputSegment(Exact, s, newest, ws[0], now);
      hide InputSegment;
      SegmentsOnlyRemove(s1, newest1, ws[1..], now);
    }
  }

  /** The newest acknowledgement is that of an ACK segment in the packet. */
  lemma {:induction false} NewestIsAnAck(s: State, newest: Newest, ws: seq<Wire>, now: u32)
    ensures var r := InputSegments(Exact, s, newest, ws, now).1;
            r == newest ||
            (r.Newest? && exists w :: w in ws && w.cmd == CMD_ACK && w.conv == s.conv && w.sn == r.sn && w.ts == r.ts)
    decreases |ws|
  {
    if ws != [] {
      var (s1, newest1) := InputSegment(Exact, s, newest, ws[0], now);
      assert newest1 == newest
        || (newest1 == Newest(ws[0].sn, ws[0].ts) && ws[0].cmd == CMD_ACK && ws[0].conv == s.conv);
      hide InputSegment;
      NewestIsAnAck(s1, newest1, ws[1..], now);
      assert ws[0] in ws;
      assert forall w :: w in ws[1..] ==> w in ws;
    }
  }

  /** In an ascending buffer the count reaches exactly the segments before the acknowledged number. */
  lemma {:induction false} BumpReaches(buf: seq<Segment>, sn: int, ts: u32)
    requires forall i, j :: 0 <= i < j < |buf| ==> buf[i].sn < buf[j].sn
    ensures var r := BumpFastack(Exact, buf, sn, ts);
            |r| == |buf| && forall i :: 0 <= i < |buf| ==> r[i] == if buf[i].sn < sn then BumpOne(buf[i], ts)
              else buf[i]
    decreases |buf|
  {
    hide BumpOne;
    if buf != [] && buf[0].sn < sn {
      BumpReaches(buf[1..], sn, ts);
      var r, r1 := BumpFastack(Exact, buf, sn, ts), BumpFastack(Exact, buf[1..], sn, ts);
      forall i | 0 <= i < |buf| ensures r[i] == if buf[i].sn < sn then BumpOne(buf[i], ts) else buf[i] {
        if i > 0 { assert r[i] == r1[i - 1] && buf[i] == buf[1..][i - 1]; }
      }
    }
  }

  lemma AscendingExact(s: State)
    requires SendInv(Exact, s)
    ensures forall i, j :: 0 <= i < j < |s.sndBuf| ==> s.sndBuf[i].sn < s.sndBuf[j].sn
    ensures s.sndUna <= s.sndNxt && forall i :: 0 <= i < |s.sndBuf| ==> s.sndUna <= s.sndBuf[i].sn < s.sndNxt
  {
  }

  lemma CreditEarned(cfg: Config, seg: Segment, life: Life, clock: nat, steps: nat, t: nat, sn: int, ts: u32)
    requires LifeInv(cfg, seg, life, clock, steps) && clock <= t && seg.sn < sn && TimeDiff(ts, seg.ts) >= 0
    ensures LifeInv(cfg, seg.(fastack := U(seg.fastack + 1)),
            life.(credits := life.credits + [Credit(steps, sn, ts, seg.ts)]), t, steps + 1)
  {
    WrapShift(|life.credits|, 1);
    hide TimeDiff, U, Pow2, BackoffFits;
  }

  lemma LifeLasts(cfg: Config, seg: Segment, life: Life, clock: nat, steps: nat, t: nat)
    requires LifeInv(cfg, seg, life, clock, steps) && clock <= t
    ensures LifeInv(cfg, seg, life, t, steps + 1)
  {
    hide TimeDiff, U, Pow2, BackoffFits;
  }

  /** The buffer of a packet's final state: the remaining segments, those overtaken counted once. */
  lemma InputBuffer(s: State, ws: seq<Wire>, now: u32)
    requires SendInv(Exact, s)
    ensures var (s1, newest) := InputSegments(Exact, s, NoAck, ws, now);
            var (s2, r) := (ShrinkBuf(s1), Input(Exact, s, ws, now));
            && SendInv(Exact, s2) && s2.sndUna >= s.sndUna && s2.sndNxt == s.sndNxt && s2.cfg == s.cfg
            && r.sndUna == s2.sndUna && r.sndNxt == s2.sndNxt && |r.sndBuf| == |s2.sndBuf|
            && (forall i :: 0 <= i < |s2.sndBuf| ==> s2.sndBuf[i] in s.sndBuf)
            && (forall i :: 0 <= i < |r.sndBuf| ==>
                  r.sndBuf[i] == if newest.Newest? && s2.sndUna <= newest.sn < s2.sndNxt && s2.sndBuf[i].sn < newest.sn
                                 then BumpOne(s2.sndBuf[i], newest.ts) else s2.sndBuf[i])
  {
    SegmentsKeepSendCore(Exact, s, NoAck, ws, now);
    SegmentsOnlyRemove(s, NoAck, ws, now);
    var (s1, newest) := InputSegments(Exact, s, NoAck, ws, now);
    ShrinkMakesSendInv(Exact, s1);
    var s2 := ShrinkBuf(s1);
    AscendingExact(s2);
    if newest.Newest? { BumpReaches(s2.sndBuf, newest.sn, newest.ts); }
    hide SendInv, SendCore, InputSegments, BumpOne, UpdateCwnd, BumpFastack;
  }

  /** The buffer and the newest acknowledgement after a packet's segments. */
  function Shrunk(x: Tracked, ws: seq<Wire>, t: nat): (State, Newest) {
    var (s1, newest) := InputSegments(Exact, x.eng, NoAck, ws, U(t));
    (ShrinkBuf(s1), newest)
  }

  predicate Counts(s2: State, newest: Newest, seg: Segment) {
    newest.Newest? && s2.sndUna <= newest.sn < s2.sndNxt && seg.sn < newest.sn
  }

  /** The life recorded by a packet for the `i`-th segment it leaves. */
  lemma LifeCredited(x: Tracked, ws: seq<Wire>, t: nat, i: nat)
    requires var s2 := Shrunk(x, ws, t).0;
             Distinct(s2.sndBuf) && i < |s2.sndBuf| && 0 <= s2.sndBuf[i].sn < |x.lives|
    ensures var (s2, newest) := Shrunk(x, ws, t);
            var (seg, y) := (s2.sndBuf[i], TrackInput(x, ws, t));
            && |y.lives| == |x.lives|
            && y.lives[seg.sn] ==
                 if Counts(s2, newest, seg) && TimeDiff(newest.ts, seg.ts) >= 0
                 then x.lives[seg.sn].(credits := x.lives[seg.sn].credits
                   + [Credit(x.steps, newest.sn, newest.ts, seg.ts)])
                 else x.lives[seg.sn]
  {
    SegOfAt(Shrunk(x, ws, t).0.sndBuf, i);
    hide InputSegments, Input, ShrinkBuf, TimeDiff, U;
  }

  lemma InputFrameOf(x: Tracked, ws: seq<Wire>, t: nat)
    ensures var y := TrackInput(x, ws, t);
            && y.eng == Input(Exact, x.eng, ws, U(t)) && y.eng.cfg == x.eng.cfg
            && y.clock == t && y.steps == x.steps + 1 && |y.lives| == |x.lives|
  {
    hide InputSegments, Input, ShrinkBuf, TimeDiff, U;
  }

  lemma InputLife(x: Tracked, ws: seq<Wire>, t: nat, i: nat)
    requires TrackedInv(x) && x.clock <= t && i < |Input(Exact, x.eng, ws, U(t)).sndBuf|
    ensures Lives(TrackInput(x, ws, t), Input(Exact, x.eng, ws, U(t)).sndBuf[i])
  {
    InputBuffer(x.eng, ws, U(t));
    var (s2, newest) := Shrunk(x, ws, t);
    DistinctNumbers(s2);
    var seg := s2.sndBuf[i];
    assert seg in x.eng.sndBuf;
    SegmentLives(x, seg);
    hide TrackedInv, SendInv, InputSegments, Input, LifeInv, BumpOne, ShrinkBuf, Distinct, TimeDiff, TrackInput;
    InputFrameOf(x, ws, t);
    LifeCredited(x, ws, t, i);
    BumpedLife(x, seg, newest, t);
    BumpKeepsNumber(seg, newest);
    UnbumpedSame(seg, newest);
  }

  lemma SegmentLives(x: Tracked, seg: Segment)
    requires TrackedInv(x) && seg in x.eng.sndBuf
    ensures Lives(x, seg)
  {
    hide SendInv, LifeInv;
  }

  lemma UnbumpedSame(seg: Segment, newest: Newest)
    ensures newest.Newest? && TimeDiff(newest.ts, seg.ts) < 0 ==> BumpOne(seg, newest.ts) == seg
  {
  }

  /** A packet keeps the books: each segment's fast-acknowledgement counter is the number of packets
      recorded to have overtaken it. */
  lemma InputKeepsTracked(x: Tracked, ws: seq<Wire>, t: nat)
    requires TrackedInv(x) && x.clock <= t
    ensures TrackedInv(TrackInput(x, ws, t))
  {
    InputKeepsSendInv(Exact, x.eng, ws, U(t));
    StepKeepsRttInv(Exact, x.eng, DoInput(ws, U(t)));
    var y := TrackInput(x, ws, t);
    forall i | 0 <= i < |y.eng.sndBuf| ensures Lives(y, y.eng.sndBuf[i]) {
      InputFrameOf(x, ws, t);
      InputLife(x, ws, t, i);
    }
    InputFrameOf(x, ws, t);
    hide SendInv, Input, Lives, TrackInput, RttInv;
  }

  lemma BumpKeepsNumber(seg: Segment, newest: Newest)
    ensures newest.Newest? ==> BumpOne(seg, newest.ts).sn == seg.sn
  {
  }

  lemma BumpedLife(x: Tracked, seg: Segment, newest: Newest, t: nat)
    requires Lives(x, seg) && x.clock <= t
    ensures LifeInv(x.eng.cfg, seg, x.lives[seg.sn], t, x.steps + 1)
    ensures newest.Newest? && seg.sn < newest.sn ==>
              var life := x.lives[seg.sn];
              LifeInv(x.eng.cfg, BumpOne(seg, newest.ts),
                      if TimeDiff(newest.ts, seg.ts) >= 0
                      then life.(credits := life.credits + [Credit(x.steps, newest.sn, newest.ts, seg.ts)])
                      else life,
                      t, x.steps + 1)
  {
    var life := x.lives[seg.sn];
    LifeLasts(x.eng.cfg, seg, life, x.clock, x.steps, t);
    if newest.Newest? && seg.sn < newest.sn && TimeDiff(newest.ts, seg.ts) >= 0 {
      CreditEarned(x.eng.cfg, seg, life, x.clock, x.steps, t, newest.sn, newest.ts);
    }
    hide LifeInv, TimeDiff, U;
  }

  // ---- Every run ----

  datatype LiveOp =
    | LiveSend(data: Bytes)
    | LiveRecv
    | LiveInput(ws: seq<Wire>, t: nat)
    | LiveFlush(t: nat)
    | LiveKeepAlive(t: nat)

  ghost function TrackStep(x: Tracked, op: LiveOp): Tracked {
    match op
    case LiveSend(data) => x.(eng := Send(x.eng, data).0, steps := x.steps + 1)
    case LiveRecv => x.(eng := Recv(Exact, x.eng).0, steps := x.steps + 1)
    case LiveInput(ws, t) => TrackInput(x, ws, t)
    case LiveFlush(t) => TrackFlush(x, t)
    case LiveKeepAlive(t) => TrackFlush(x.(eng := x.eng.(probe := x.eng.probe.(askSend := true))), t)
  }

  /** Time does not go back, and the operation does not report a lost connection. */
  ghost predicate GoesOn(x: Tracked, op: LiveOp) {
    match op
    case LiveSend(data) => true
    case LiveRecv => true
    case LiveInput(ws, t) => x.clock <= t
    case LiveFlush(t) => x.clock <= t && Flush(Exact, x.eng, U(t)).1
    case LiveKeepAlive(t) => x.clock <= t && KeepAliveProbe(Exact, x.eng, U(t)).1
  }

  ghost function TrackRun(conv: u32, cfg: Config, ops: seq<LiveOp>): Tracked
    decreases |ops|
  {
    if ops == [] then Tracked(Init(conv, cfg), 0, 0, [])
    else TrackStep(TrackRun(conv, cfg, ops[..|ops| - 1]), ops[|ops| - 1])
  }

  ghost predicate RunGoesOn(conv: u32, cfg: Config, ops: seq<LiveOp>)
    decreases |ops|
  {
    ops == [] || (RunGoesOn(conv, cfg, ops[..|ops| - 1])
      && GoesOn(TrackRun(conv, cfg, ops[..|ops| - 1]), ops[|ops| - 1]))
  }

  lemma SameBufferTracked(x: Tracked, y: Tracked)
    requires TrackedInv(x) && y.clock == x.clock && y.steps >= x.steps && y.lives == x.lives
    requires y.eng.cfg == x.eng.cfg && y.eng.rtt == x.eng.rtt && y.eng.sndBuf == x.eng.sndBuf
    requires y.eng.sndUna == x.eng.sndUna && y.eng.sndNxt == x.eng.sndNxt
    ensures TrackedInv(y)
  {
    forall i | 0 <= i < |y.eng.sndBuf| ensures Lives(y, y.eng.sndBuf[i]) {
      var seg := x.eng.sndBuf[i];
      assert Lives(x, seg);
      CreditsLast(x.lives[seg.sn].credits, seg.sn, x.steps, y.steps);
      hide Timing, CreditsGood;
    }
    hide LifeInv;
  }

  lemma StepKeepsTracked(x: Tracked, op: LiveOp)
    requires TrackedInv(x) && GoesOn(x, op)
    ensures TrackedInv(TrackStep(x, op))
  {
    hide TrackedInv, Send, Flush, TrackFlush, TrackInput;
    match op
    case LiveSend(data) => SameBufferTracked(x, TrackStep(x, op));
    case LiveRecv =>
      RecvFrame(x.eng);
      hide Recv;
      SameBufferTracked(x, TrackStep(x, op));
    case LiveInput(ws, t) => InputKeepsTracked(x, ws, t);
    case LiveFlush(t) => FlushKeepsTracked(x, t);
    case LiveKeepAlive(t) =>
      var x1 := x.(eng := x.eng.(probe := x.eng.probe.(askSend := true)));
      SameBufferTracked(x, x1);
      FlushKeepsTracked(x1, t);
  }

  /** While no flush has reported a lost connection: each buffered segment's counter is the number of
      times its data was put out, below the limit; so the link is not dead; and at most 5 of the
      transmissions were fast ones. */
  lemma {:induction false} BooksAreKept(conv: u32, cfg: Config, ops: seq<LiveOp>)
    requires RunGoesOn(conv, cfg, ops)
    ensures var x := TrackRun(conv, cfg, ops);
            && TrackedInv(x)
            && !IsDead(x.eng)
            && forall i :: 0 <= i < |x.eng.sndBuf| ==>
                 var (seg, life) := (x.eng.sndBuf[i], x.lives[x.eng.sndBuf[i].sn]);
                 seg.xmit == life.sent < x.eng.cfg.deadLink && life.fasts <= FASTACK_LIMIT
    decreases |ops|
  {
    var x := TrackRun(conv, cfg, ops);
    if ops != [] {
      var init := ops[..|ops| - 1];
      BooksAreKept(conv, cfg, init);
      hide TrackStep, TrackedInv;
      StepKeepsTracked(TrackRun(conv, cfg, init), ops[|ops| - 1]);
    }
    BooksOf(x);
  }

  lemma BooksOf(x: Tracked)
    requires TrackedInv(x)
    ensures !IsDead(x.eng)
    ensures forall i :: 0 <= i < |x.eng.sndBuf| ==>
              var (seg, life) := (x.eng.sndBuf[i], x.lives[x.eng.sndBuf[i].sn]);
              seg.xmit == life.sent < x.eng.cfg.deadLink && life.fasts <= FASTACK_LIMIT
  {
    forall i | 0 <= i < |x.eng.sndBuf|
      ensures x.eng.sndBuf[i].xmit == x.lives[x.eng.sndBuf[i].sn].sent < x.eng.cfg.deadLink
           && x.lives[x.eng.sndBuf[i].sn].fasts <= FASTACK_LIMIT
    {
      assert Lives(x, x.eng.sndBuf[i]);
      hide Timing, CreditsGood;
    }
    hide Lives;
  }

  /** A fast retransmission of a segment at time `t` is backed by at least the threshold's number of
      packets, all different, each of which acknowledged a later number with a time stamp no older
      than the segment's then last transmission; and fewer than 5 fast ones went before. */
  lemma FastResendIsJustified(x: Tracked, t: nat, i: nat)
    requires TrackedInv(x) && i < |x.eng.sndBuf| && MarkOf(x.eng.cfg, x.eng.sndBuf[i], U(t)).Fast?
    ensures var (seg, life) := (x.eng.sndBuf[i], x.lives[x.eng.sndBuf[i].sn]);
            && |life.credits| >= ResendThreshold(x.eng.cfg) && life.fasts < FASTACK_LIMIT
            && CreditsGood(life.credits, seg.sn, x.steps)
  {
    assert Lives(x, x.eng.sndBuf[i]);
    hide Timing, CreditsGood, TimeDiff;
  }

  // ---- The timers of a live connection fit ----

  /** The timer of a live segment whose back-off fits can only not fit by the millisecond: a running
      one that was set exactly half the circle ago. */
  lemma LivingTimerFits(cfg: Config, rto: u32, seg: Segment, life: Life, clock: nat, steps: nat, t: nat)
    requires LifeInv(cfg, seg, life, clock, steps) && BackoffFits(cfg, life.rto) && rto <= RTO_MAX
    ensures TimerFits(cfg, rto, seg, U(t)) <==>
            (MarkOf(cfg, seg, U(t)).Idle? ==> TimeDiff(U(t), seg.resendts) != -HALF)
  {
    RoomToBackOff(cfg, rto, seg, life);
    hide Pow2, BackoffFits, CreditsGood, U, TimeDiff, Backoff, Waits;
  }
}
