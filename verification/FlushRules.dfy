/** The rules of a flush, on the engine's fields: how many queued segments it numbers, which segments it
    transmits and when each is due again, what becomes of the congestion window, and when it fails. */
module FlushRules {
  import opened Word
  import opened Protocol
  import opened EngineSpec
  import opened SendSide
  import opened Packing
  import opened Deadlines
  import opened AckTiming

  // ---- Numbering ----

  /** The window a flush sends in: the smallest of its own, the peer's and, unless congestion control is
      off, the congestion window. */
  function SendingWindow(s: State): nat {
    var w := if s.cfg.sndWnd < s.wnd.rmt then s.cfg.sndWnd else s.wnd.rmt;
    if !s.cfg.noCongestionControl && s.wnd.cwnd < w then s.wnd.cwnd else w
  }

  /** How many numbers are in flight. */
  function InFlightCount(m: Arith, s: State): int {
    Off(m, s.sndNxt, s.sndUna)
  }

  lemma WindowIsEffective(s: State)
    ensures EffectiveWindow(s) == SendingWindow(s)
  {
  }

  lemma OneMoreInFlight(m: Arith, s: State, now: u32)
    requires SendInv(m, s) && s.sndQueue != [] && InFlightCount(m, s) < SendingWindow(s)
    ensures InFlightCount(m, NumberOne(m, s, now)) == InFlightCount(m, s) + 1
  {
    OffAdd(m, s.sndNxt, 1, s.sndUna);
    hide Off, Add;
  }

  /** How many of what is queued a flush numbers. */
  function NewCount(m: Arith, s: State): nat {
    Min(|s.sndQueue|, Max(SendingWindow(s) - InFlightCount(m, s), 0))
  }

  /** `n` queued fragments have been put into the buffer, in order and not transmitted yet. */
  ghost predicate Numbers(s: State, r: State, n: nat) {
    && n <= |s.sndQueue| && r.sndQueue == s.sndQueue[n..] && |r.sndBuf| == |s.sndBuf| + n && s.sndBuf <= r.sndBuf
    && forall k :: |s.sndBuf| <= k < |r.sndBuf| ==> IsNew(r.sndBuf[k], s.sndQueue[k - |s.sndBuf|])
  }

  predicate IsNew(seg: Segment, frag: Frag) {
    seg.frag == frag && seg.xmit == 0 && seg.fastack == 0
  }

  lemma {:induction false} MoveCounts(m: Arith, s: State, now: u32)
    requires SendInv(m, s)
    ensures var (r, n) := (MoveToSendBuf(m, s, now), NewCount(m, s));
            Numbers(s, r, n) && InFlightCount(m, r) == InFlightCount(m, s) + n
    decreases |s.sndQueue|
  {
    hide SendInv, Before, Add, Off, EffectiveWindow, SendingWindow, IsNew;
    OpenIff(m, s);
    WindowIsEffective(s);
    if s.sndQueue != [] && InFlightCount(m, s) < SendingWindow(s) {
      var s1 := NumberOne(m, s, now);
      NumberOneKeepsSendInv(m, s, now);
      OneMoreInFlight(m, s, now);
      SameWindowAfter(m, s, now);
      MoveCounts(m, s1, now);
      CountOn(m, s, MoveToSendBuf(m, s1, now), now, NewCount(m, s1));
    }
  }

  lemma SameWindowAfter(m: Arith, s: State, now: u32)
    requires s.sndQueue != []
    ensures SendingWindow(NumberOne(m, s, now)) == SendingWindow(s)
  {
  }

  lemma CountOn(m: Arith, s: State, r: State, now: u32, n: nat)
    requires s.sndQueue != [] && Numbers(NumberOne(m, s, now), r, n)
    ensures Numbers(s, r, n + 1)
  {
    var s1 := NumberOne(m, s, now);
    hide Add;
    assert s1.sndQueue[n..] == s.sndQueue[n + 1..];
    forall k | |s.sndBuf| <= k < |r.sndBuf| ensures IsNew(r.sndBuf[k], s.sndQueue[k - |s.sndBuf|]) {
      if k == |s.sndBuf| {
        assert r.sndBuf[k] == s1.sndBuf[k];
      } else {
        assert IsNew(r.sndBuf[k], s1.sndQueue[k - |s1.sndBuf|]);
      }
    }
  }

  lemma NumberedAre(m: Arith, s: State, now: u32)
    requires SendInv(m, s)
    ensures var (b, n) := (BeforeScan(m, s, now), NewCount(m, s));
            && Numbers(s, b, n) && InFlightCount(m, b) == InFlightCount(m, s) + n
            && b.cfg == s.cfg && b.rtt == s.rtt && b.wnd == s.wnd
  {
    hide SendInv, MoveToSendBuf, HandleWindowProbe, FlushAcks, SendingWindow, InFlightCount, IsNew;
    SendInvOfProbe(m, s, now);
    ProbingKeeps(m, s, now);
    var s1 := HandleWindowProbe(FlushAcks(s), now);
    MoveCounts(m, s1, now);
    assert MoveToSendBuf(m, s1, now) == BeforeScan(m, s, now);
  }

  /** What comes before the numbering does not touch what it goes by. */
  lemma ProbingKeeps(m: Arith, s: State, now: u32)
    ensures var r := HandleWindowProbe(FlushAcks(s), now);
            && r.cfg == s.cfg && r.rtt == s.rtt && r.wnd == s.wnd && r.sndQueue == s.sndQueue && r.sndBuf == s.sndBuf
            && SendingWindow(r) == SendingWindow(s) && InFlightCount(m, r) == InFlightCount(m, s)
  {
    hide ProbeTimer, OutputAll, AckWires, ProbeWires, Off;
  }

  // ---- Transmission ----

  /** What a timeout of `old` adds to its time-out. */
  function BackoffStep(cfg: Config, rto: u32, waited: u32): nat {
    if cfg.nodelay then (if cfg.noCongestionControl then rto / 2 else waited / 2)
    else if waited < cfg.interval then cfg.interval
    else waited
  }

  /** A segment that was never sent is sent, and waits its timeout, in normal mode an eighth longer; one
      whose deadline has come is sent again, and waits longer; one overtaken often enough, at most 5
      times sent, is sent again before its deadline, and waits as long as before, counted from zero;
      any other is left as it is. */
  ghost predicate Transmits(cfg: Config, rto: u32, was: Segment, seg: Segment, now: u32) {
    && seg.sn == was.sn && seg.frag == was.frag
    && if was.xmit == 0 then
         && seg.ts == now && seg.xmit == 1 && seg.fastack == was.fastack && seg.rto == rto
         && seg.resendts == (now + rto + (if cfg.nodelay then 0 else rto / 8)) % M32
       else if Age(was.resendts, now) < HALF then
         && seg.ts == now && seg.xmit == (was.xmit + 1) % M32 && seg.fastack == was.fastack
         && seg.rto == (was.rto + BackoffStep(cfg, rto, was.rto)) % M32 && seg.resendts == (now + seg.rto) % M32
       else if was.fastack >= (if cfg.resend > 0 then cfg.resend else 0xFFFF_FFFF) && was.xmit <= 5 then
         && seg.ts == now && seg.xmit == (was.xmit + 1) % M32 && seg.fastack == 0
         && seg.rto == was.rto && seg.resendts == (now + was.rto) % M32
       else seg == was
  }

  lemma MarkedTransmits(cfg: Config, rto: u32, was: Segment, now: u32)
    ensures Transmits(cfg, rto, was, Marked(cfg, rto, was, now), now)
  {
    AgeIsDiff(was.resendts, now);
    WrapShift(now + rto, if cfg.nodelay then 0 else rto / 8);
    hide Age, TimeDiff;
  }

  /** The segment is transmitted: for the first time, on timeout, or fast. */
  predicate IsDue(cfg: Config, was: Segment, now: u32) {
    || was.xmit == 0 || Age(was.resendts, now) < HALF
    || (was.fastack >= (if cfg.resend > 0 then cfg.resend else 0xFFFF_FFFF) && was.xmit <= 5)
  }

  lemma DueIsMarked(cfg: Config, was: Segment, now: u32)
    ensures IsDue(cfg, was, now) <==> !MarkOf(cfg, was, now).Idle?
    ensures MarkOf(cfg, was, now).Timeout? <==> was.xmit != 0 && Age(was.resendts, now) < HALF
    ensures MarkOf(cfg, was, now).Fast? <==> IsDue(cfg, was, now) && was.xmit != 0 && Age(was.resendts, now) >= HALF
  {
    AgeIsDiff(was.resendts, now);
    hide Age, TimeDiff;
  }

  /** A segment just numbered is sent for the first time. */
  ghost predicate FreshlySent(cfg: Config, rto: u32, seg: Segment, frag: Frag, now: u32) {
    && seg.frag == frag && seg.ts == now && seg.xmit == 1 && seg.fastack == 0 && seg.rto == rto
    && seg.resendts == (now + rto + (if cfg.nodelay then 0 else rto / 8)) % M32
  }

  lemma FreshTransmits(cfg: Config, rto: u32, was: Segment, seg: Segment, now: u32)
    requires Transmits(cfg, rto, was, seg, now) && was.xmit == 0 && was.fastack == 0
    ensures FreshlySent(cfg, rto, seg, was.frag, now)
  {
  }

  lemma ScanTransmits(m: Arith, s: State, now: u32)
    ensures var (b, r) := (BeforeScan(m, s, now), Flush(m, s, now).0);
            && |r.sndBuf| == |b.sndBuf| && r.sndQueue == b.sndQueue && r.sndNxt == b.sndNxt && r.sndUna == b.sndUna
            && forall i :: 0 <= i < |b.sndBuf| ==> Transmits(b.cfg, b.rtt.rto, b.sndBuf[i], r.sndBuf[i], now)
  {
    FlushFacts(m, s, now);
    FlushNumbering(m, s, now);
    var (b, r) := (BeforeScan(m, s, now), Flush(m, s, now).0);
    hide Flush, BeforeScan, Marked, Transmits;
    forall i | 0 <= i < |b.sndBuf| ensures Transmits(b.cfg, b.rtt.rto, b.sndBuf[i], r.sndBuf[i], now) {
      MarkedTransmits(b.cfg, b.rtt.rto, b.sndBuf[i], now);
    }
  }

  /** A flush numbers as much of what is queued as the window has room for, in order, and then transmits
      what is due, old and new. */
  lemma FlushTransmits(m: Arith, s: State, now: u32)
    requires SendInv(m, s)
    ensures var (r, n, k) := (Flush(m, s, now).0, NewCount(m, s), |s.sndBuf|);
            && r.sndQueue == s.sndQueue[n..] && InFlightCount(m, r) == InFlightCount(m, s) + n && |r.sndBuf| == k + n
            && (forall i :: 0 <= i < k ==> Transmits(s.cfg, s.rtt.rto, s.sndBuf[i], r.sndBuf[i], now))
            && (forall i :: k <= i < k + n ==> FreshlySent(s.cfg, s.rtt.rto, r.sndBuf[i], s.sndQueue[i - k], now))
  {
    hide Flush, BeforeScan, SendInv, SendingWindow, Transmits, FreshlySent;
    NumberedAre(m, s, now);
    ScanTransmits(m, s, now);
    var (b, r, n, k) := (BeforeScan(m, s, now), Flush(m, s, now).0, NewCount(m, s), |s.sndBuf|);
    forall i | 0 <= i < k ensures Transmits(s.cfg, s.rtt.rto, s.sndBuf[i], r.sndBuf[i], now) {
      assert b.sndBuf[i] == s.sndBuf[i];
    }
    forall i | k <= i < k + n ensures FreshlySent(s.cfg, s.rtt.rto, r.sndBuf[i], s.sndQueue[i - k], now) {
      assert IsNew(b.sndBuf[i], s.sndQueue[i - k]);
      FreshTransmits(s.cfg, s.rtt.rto, b.sndBuf[i], r.sndBuf[i], now);
    }
  }

  /** What a new engine sends at first: as much as its send window allows, and the 128 segments it
      supposes the peer to have room for; each waits 200 ms, in normal mode an eighth longer. */
  lemma FirstFlight(m: Arith, conv: u32, cfg: Config, queue: seq<Frag>, now: u32)
    ensures var r := Flush(m, Init(conv, cfg).(sndQueue := queue), now).0;
            var n := Min(|queue|, Min(cfg.sndWnd, 128));
            && r.sndQueue == queue[n..] && InFlightCount(m, r) == |r.sndBuf| == n
            && (forall i :: 0 <= i < n ==> FreshlySent(cfg, 200, r.sndBuf[i], queue[i], now))
            && r.rtt == Rtt(0, 0, 200, if cfg.nodelay then 30 else 100)
            && (cfg.deadLink > 1 ==> r.wnd == Window(128, cfg.sndWnd, 2, 0))
  {
    hide Flush, Transmits, FreshlySent, SendInv, InFlightCount, NewCount;
    var s := Init(conv, cfg).(sndQueue := queue);
    NewEngine(m, s);
    FlushTransmits(m, s, now);
    FlushFailsIff(m, s, now);
    if cfg.deadLink > 1 { FlushSetsWindow(m, s, now); }
  }

  lemma NewEngine(m: Arith, s: State)
    requires s == Init(s.conv, s.cfg).(sndQueue := s.sndQueue)
    ensures SendInv(m, s) && InFlightCount(m, s) == 0
    ensures NewCount(m, s) == Min(|s.sndQueue|, Min(s.cfg.sndWnd, 128))
  {
  }

  // ---- What goes out, and when a flush fails ----

  /** The data segment that carries `seg`. */
  predicate Carries(w: Wire, seg: Segment) {
    w.cmd == CMD_PUSH && w.sn == seg.sn && w.frg == seg.frag.frg && w.data == seg.frag.data && w.ts == seg.ts
  }

  /** What the scan transmits is what is due, as it is afterwards. */
  lemma DueAfterScan(m: Arith, s: State, now: u32)
    ensures var (b, r) := (BeforeScan(m, s, now), Flush(m, s, now).0);
            && |b.sndBuf| == |r.sndBuf| && b.cfg == s.cfg
            && forall seg :: seg in ToSend(b.cfg, b.rtt.rto, b.sndBuf, now) <==>
                 exists i :: 0 <= i < |r.sndBuf| && IsDue(s.cfg, b.sndBuf[i], now) && seg == r.sndBuf[i]
  {
    ScanStart(m, s, now);
    FlushFacts(m, s, now);
    var (b, r) := (BeforeScan(m, s, now), Flush(m, s, now).0);
    ToSendIsDue(b.cfg, b.rtt.rto, b.sndBuf, now);
    hide Flush, BeforeScan, ToSend, MarkOf, Marked, IsDue;
    forall i | 0 <= i < |b.sndBuf| ensures IsDue(s.cfg, b.sndBuf[i], now) <==> !MarkOf(b.cfg, b.sndBuf[i], now).Idle? {
      DueIsMarked(s.cfg, b.sndBuf[i], now);
    }
    forall seg ensures seg in ToSend(b.cfg, b.rtt.rto, b.sndBuf, now) <==>
        exists i :: 0 <= i < |r.sndBuf| && IsDue(s.cfg, b.sndBuf[i], now) && seg == r.sndBuf[i]
    {
      if i :| 0 <= i < |b.sndBuf| && !MarkOf(b.cfg, b.sndBuf[i], now).Idle?
              && seg == Marked(b.cfg, b.rtt.rto, b.sndBuf[i], now) {
        assert seg == r.sndBuf[i];
      }
      if i :| 0 <= i < |r.sndBuf| && IsDue(s.cfg, b.sndBuf[i], now) && seg == r.sndBuf[i] {
        assert seg == Marked(b.cfg, b.rtt.rto, b.sndBuf[i], now);
      }
    }
  }

  lemma SucceedsIff(m: Arith, s: State, now: u32)
    ensures var (b, r) := (BeforeScan(m, s, now), Flush(m, s, now).0);
            |b.sndBuf| == |r.sndBuf|
            && (Flush(m, s, now).1 <==>
                forall i :: 0 <= i < |r.sndBuf| && IsDue(s.cfg, b.sndBuf[i], now) ==> r.sndBuf[i].xmit < s.cfg.deadLink)
  {
    DueAfterScan(m, s, now);
    SucceedsUnlessDead(m, s, now);
    var (b, r) := (BeforeScan(m, s, now), Flush(m, s, now).0);
    var due := ToSend(b.cfg, b.rtt.rto, b.sndBuf, now);
    hide Flush, BeforeScan, ToSend, IsDue;
    forall i | 0 <= i < |r.sndBuf| && IsDue(s.cfg, b.sndBuf[i], now) ensures r.sndBuf[i] in due {}
    if AnyDead(due, s.cfg.deadLink) {
      var k :| 0 <= k < |due| && due[k].xmit >= s.cfg.deadLink;
      assert due[k] in due;
    } else {
      forall i | 0 <= i < |r.sndBuf| && IsDue(s.cfg, b.sndBuf[i], now) ensures r.sndBuf[i].xmit < s.cfg.deadLink {
        var k :| 0 <= k < |due| && due[k] == r.sndBuf[i];
      }
    }
  }

  /** Position `i` of the buffer after a flush was transmitted by it: it was due, or is new. */
  predicate GoesOut(s: State, i: nat, now: u32) {
    i >= |s.sndBuf| || IsDue(s.cfg, s.sndBuf[i], now)
  }

  lemma GoesOutIfDue(m: Arith, s: State, i: nat, now: u32)
    requires SendInv(m, s) && i < |BeforeScan(m, s, now).sndBuf|
    ensures GoesOut(s, i, now) <==> IsDue(s.cfg, BeforeScan(m, s, now).sndBuf[i], now)
  {
    NumberedAre(m, s, now);
    var b := BeforeScan(m, s, now);
    hide BeforeScan, SendInv, NewCount, InFlightCount;
    if i < |s.sndBuf| {
      assert b.sndBuf[i] == s.sndBuf[i];
    } else {
      assert IsNew(b.sndBuf[i], s.sndQueue[i - |s.sndBuf|]);
    }
  }

  /** A flush that succeeds puts out just what is due and what is new. */
  lemma FlushSendsDue(m: Arith, s: State, now: u32, w: Wire)
    requires SendInv(m, s) && Flush(m, s, now).1
    ensures var r := Flush(m, s, now).0;
            && (forall i :: 0 <= i < |r.sndBuf| && GoesOut(s, i, now) ==> IsSent(m, s, now, r.sndBuf[i]))
            && (w in FlushWires(m, s, now) && w.cmd == CMD_PUSH ==>
                exists i :: 0 <= i < |r.sndBuf| && GoesOut(s, i, now) && Carries(w, r.sndBuf[i]))
  {
    DueAfterScan(m, s, now);
    SuccessSendsAll(m, s, now);
    var (b, r, sending) := (BeforeScan(m, s, now), Flush(m, s, now).0, Sending(m, s, now));
    forall i: nat | i < |b.sndBuf| ensures GoesOut(s, i, now) <==> IsDue(s.cfg, b.sndBuf[i], now) {
      GoesOutIfDue(m, s, i, now);
    }
    hide Flush, BeforeScan, ToSend, IsDue, Sending, SendInv, GoesOut;
    forall i | 0 <= i < |r.sndBuf| && GoesOut(s, i, now) ensures IsSent(m, s, now, r.sndBuf[i]) {
      assert r.sndBuf[i] in sending;
      SendingIsSent(m, s, now, r.sndBuf[i]);
    }
    if w in FlushWires(m, s, now) && w.cmd == CMD_PUSH {
      var seg := SentIsSending(m, s, now, w);
      assert seg in sending;
    }
  }

  ghost predicate IsSent(m: Arith, s: State, now: u32, seg: Segment) {
    exists w :: w in FlushWires(m, s, now) && Carries(w, seg)
  }

  lemma SendingIsSent(m: Arith, s: State, now: u32, seg: Segment)
    requires seg in Sending(m, s, now)
    ensures IsSent(m, s, now, seg)
  {
    var b, sending := BeforeScan(m, s, now), Sending(m, s, now);
    hide BeforeScan, Sending, ProbeTimer;
    var i :| 0 <= i < |sending| && sending[i] == seg;
    var w := DataWires(b, sending)[i];
    assert w in FlushWires(m, s, now) && Carries(w, seg);
  }

  lemma SentIsSending(m: Arith, s: State, now: u32, w: Wire) returns (seg: Segment)
    requires w in FlushWires(m, s, now) && w.cmd == CMD_PUSH
    ensures seg in Sending(m, s, now) && Carries(w, seg)
  {
    var b, sending := BeforeScan(m, s, now), Sending(m, s, now);
    hide BeforeScan, Sending, ProbeTimer;
    var data := DataWires(b, sending);
    assert w in data;
    var i :| 0 <= i < |data| && data[i] == w;
    seg := sending[i];
  }

  /** A flush uses up the transmissions of a segment: of one that is due, or, if a single one is
      allowed, of one it numbers. */
  ghost predicate UsesUp(m: Arith, s: State, now: u32) {
    || (exists i :: 0 <= i < |s.sndBuf| && IsDue(s.cfg, s.sndBuf[i], now) && s.sndBuf[i].xmit + 1 >= s.cfg.deadLink)
    || (s.cfg.deadLink == 1 && NewCount(m, s) > 0)
  }

  lemma SucceedsIffFew(m: Arith, s: State, now: u32)
    requires SendInv(m, s)
    ensures var r := Flush(m, s, now).0;
            Flush(m, s, now).1 <==>
            forall i :: 0 <= i < |r.sndBuf| && GoesOut(s, i, now) ==> r.sndBuf[i].xmit < s.cfg.deadLink
  {
    SucceedsIff(m, s, now);
    var b := BeforeScan(m, s, now);
    forall i: nat | i < |b.sndBuf| ensures GoesOut(s, i, now) <==> IsDue(s.cfg, b.sndBuf[i], now) {
      GoesOutIfDue(m, s, i, now);
    }
    hide Flush, BeforeScan, IsDue, SendInv, GoesOut;
  }

  lemma GoingOutCounts(m: Arith, s: State, now: u32, i: nat)
    requires SendInv(m, s) && !IsDead(s) && i < |Flush(m, s, now).0.sndBuf| && GoesOut(s, i, now)
    ensures |Flush(m, s, now).0.sndBuf| == |s.sndBuf| + NewCount(m, s)
    ensures Flush(m, s, now).0.sndBuf[i].xmit == if i < |s.sndBuf| then s.sndBuf[i].xmit + 1 else 1
  {
    hide Flush, IsDue, Transmits, FreshlySent, SendInv, NewCount, InFlightCount;
    FlushTransmits(m, s, now);
    var r, k := Flush(m, s, now).0, |s.sndBuf|;
    if i < k {
      OneMoreTransmission(s.cfg, s.rtt.rto, s.sndBuf[i], r.sndBuf[i], now);
    } else {
      CountIsBounded(m, s);
      FreshIsOne(s.cfg, s.rtt.rto, r.sndBuf[i], s.sndQueue[i - k], now);
    }
  }

  lemma CountIsBounded(m: Arith, s: State)
    ensures NewCount(m, s) <= |s.sndQueue|
  {
  }

  /** A flush of a living link fails if and only if it uses up the transmissions of a segment. */
  lemma FlushFailsIff(m: Arith, s: State, now: u32)
    requires SendInv(m, s) && !IsDead(s)
    ensures Flush(m, s, now).1 <==> !UsesUp(m, s, now)
  {
    hide Flush, IsDue, SendInv, NewCount, IsDead, GoesOut, InFlightCount;
    SucceedsIffFew(m, s, now);
    BufferGrows(m, s, now);
    var r, k := Flush(m, s, now).0, |s.sndBuf|;
    forall i: nat | i < |r.sndBuf| && GoesOut(s, i, now)
      ensures r.sndBuf[i].xmit == if i < k then s.sndBuf[i].xmit + 1 else 1
    {
      GoingOutCounts(m, s, now, i);
    }
    UsedUpGoesOut(m, s, now, |r.sndBuf|);
  }

  lemma BufferGrows(m: Arith, s: State, now: u32)
    requires SendInv(m, s)
    ensures |Flush(m, s, now).0.sndBuf| == |s.sndBuf| + NewCount(m, s)
  {
    hide Flush, SendInv, NewCount, InFlightCount, Transmits, FreshlySent;
    FlushTransmits(m, s, now);
  }

  lemma UsedUpGoesOut(m: Arith, s: State, now: u32, n: nat)
    requires n == |s.sndBuf| + NewCount(m, s)
    ensures UsesUp(m, s, now) <==>
            exists i: nat :: i < n && GoesOut(s, i, now)
                             && s.cfg.deadLink <= if i < |s.sndBuf| then s.sndBuf[i].xmit + 1 else 1
  {
    hide IsDue, NewCount;
    var k := |s.sndBuf|;
    if i :| 0 <= i < k && IsDue(s.cfg, s.sndBuf[i], now) && s.sndBuf[i].xmit + 1 >= s.cfg.deadLink {
      assert GoesOut(s, i, now);
    }
    if NewCount(m, s) > 0 { assert GoesOut(s, k, now); }
  }

  lemma FreshIsOne(cfg: Config, rto: u32, seg: Segment, frag: Frag, now: u32)
    requires FreshlySent(cfg, rto, seg, frag, now)
    ensures seg.xmit == 1
  {
  }

  lemma OneMoreTransmission(cfg: Config, rto: u32, was: Segment, seg: Segment, now: u32)
    requires Transmits(cfg, rto, was, seg, now) && IsDue(cfg, was, now) && was.xmit < cfg.deadLink
    ensures seg.xmit == was.xmit + 1
  {
    hide Age;
  }

  /** While the link lives, a flush fails if and only if it is what kills it. */
  lemma FlushFailsIffDead(m: Arith, s: State, now: u32)
    requires !IsDead(s) && s.cfg.deadLink >= 1
    ensures Flush(m, s, now).1 <==> !IsDead(Flush(m, s, now).0)
  {
    SucceedsIff(m, s, now);
    ScanTransmits(m, s, now);
    ScanStart(m, s, now);
    var (b, r) := (BeforeScan(m, s, now), Flush(m, s, now).0);
    hide Flush, BeforeScan, IsDue, Transmits;
    forall i | 0 <= i < |r.sndBuf| && !IsDue(s.cfg, b.sndBuf[i], now) ensures r.sndBuf[i].xmit < s.cfg.deadLink {
      NotDueStays(s.cfg, b.rtt.rto, b.sndBuf[i], r.sndBuf[i], now);
      assert b.sndBuf[i] == s.sndBuf[i];
    }
  }

  lemma NotDueStays(cfg: Config, rto: u32, was: Segment, seg: Segment, now: u32)
    requires Transmits(cfg, rto, was, seg, now) && !IsDue(cfg, was, now)
    ensures seg == was && was.xmit != 0
  {
    hide Age;
  }

  // ---- The congestion window ----

  /** The window after a fast loss with `inflight` numbers in flight. */
  function FastWindow(cfg: Config, inflight: int): int {
    ((if inflight / 2 > 2 then inflight / 2 else 2) + (if cfg.resend > 0 then cfg.resend else 0xFFFF_FFFF)) % M32
  }

  /** Some segment the scan finds has timed out, or is resent fast. */
  ghost predicate TimedOut(buf: seq<Segment>, now: u32) {
    exists i :: 0 <= i < |buf| && buf[i].xmit != 0 && Age(buf[i].resendts, now) < HALF
  }

  ghost predicate ResentFast(cfg: Config, buf: seq<Segment>, now: u32) {
    exists i :: 0 <= i < |buf| && buf[i].xmit != 0 && Age(buf[i].resendts, now) >= HALF && IsDue(cfg, buf[i], now)
  }

  /** How a flush that succeeds leaves the window: one segment after a timeout, with half of what the
      window was, or would have been after a fast loss at the same time, as threshold; after a fast loss
      alone half of what is in flight as threshold, and that plus `resend` as window; and otherwise as
      it was. */
  ghost predicate WindowAfter(m: Arith, s: State, r: State, now: u32) {
    var (lost, fast) := (TimedOut(s.sndBuf, now), ResentFast(s.cfg, s.sndBuf, now));
    var inflight := InFlightCount(m, r);
    var cwnd := if fast then FastWindow(s.cfg, inflight) else s.wnd.cwnd;
    if lost then
      r.wnd == s.wnd.(cwnd := 1, incr := Mss(s.cfg), ssthresh := if cwnd / 2 > 2 then cwnd / 2 else 2)
    else if fast then
      && r.wnd.rmt == s.wnd.rmt && r.wnd.ssthresh == (if inflight / 2 > 2 then inflight / 2 else 2)
      && (if cwnd >= 1 then r.wnd.cwnd == cwnd && r.wnd.incr == cwnd * Mss(s.cfg) % M32
          else r.wnd.cwnd == 1 && r.wnd.incr == Mss(s.cfg))
    else r.wnd == s.wnd
  }

  lemma MarksAre(cfg: Config, buf: seq<Segment>, now: u32)
    ensures AnyMark(cfg, buf, now, Timeout) <==> TimedOut(buf, now)
    ensures AnyMark(cfg, buf, now, Fast) <==> ResentFast(cfg, buf, now)
  {
    forall i | 0 <= i < |buf|
      ensures MarkOf(cfg, buf[i], now).Timeout? <==> buf[i].xmit != 0 && Age(buf[i].resendts, now) < HALF
      ensures MarkOf(cfg, buf[i], now).Fast? <==>
              IsDue(cfg, buf[i], now) && buf[i].xmit != 0 && Age(buf[i].resendts, now) >= HALF
    {
      DueIsMarked(cfg, buf[i], now);
    }
    hide MarkOf, Age, IsDue;
    if AnyMark(cfg, buf, now, Timeout) {
      var i :| 0 <= i < |buf| && MarkOf(cfg, buf[i], now) == Timeout;
      assert Age(buf[i].resendts, now) < HALF;
    }
    if TimedOut(buf, now) {
      var i :| 0 <= i < |buf| && buf[i].xmit != 0 && Age(buf[i].resendts, now) < HALF;
      assert MarkOf(cfg, buf[i], now) == Timeout;
    }
    if AnyMark(cfg, buf, now, Fast) {
      var i :| 0 <= i < |buf| && MarkOf(cfg, buf[i], now) == Fast;
      assert IsDue(cfg, buf[i], now);
    }
    if ResentFast(cfg, buf, now) {
      var i :| 0 <= i < |buf| && buf[i].xmit != 0 && Age(buf[i].resendts, now) >= HALF && IsDue(cfg, buf[i], now);
      assert MarkOf(cfg, buf[i], now) == Fast;
    }
  }

  /** Segments just numbered are neither. */
  lemma NewIsNeither(cfg: Config, was: seq<Segment>, buf: seq<Segment>, now: u32)
    requires was <= buf && forall i :: |was| <= i < |buf| ==> buf[i].xmit == 0
    ensures TimedOut(buf, now) == TimedOut(was, now) && ResentFast(cfg, buf, now) == ResentFast(cfg, was, now)
  {
    hide Age, IsDue;
    assert forall i :: 0 <= i < |was| ==> buf[i] == was[i];
  }

  lemma LossLaw(m: Arith, s: State, lost: bool, change: bool)
    requires s.wnd.cwnd >= 1 && 0 <= InFlightCount(m, s) <= 65535
    ensures var (r, inflight) := (UpdateCongestionOnLoss(m, s, lost, change), InFlightCount(m, s));
            var cwnd := if change then FastWindow(s.cfg, inflight) else s.wnd.cwnd;
            if lost then
              r.wnd == s.wnd.(cwnd := 1, incr := Mss(s.cfg), ssthresh := if cwnd / 2 > 2 then cwnd / 2 else 2)
            else if change then
              && r.wnd.rmt == s.wnd.rmt && r.wnd.ssthresh == (if inflight / 2 > 2 then inflight / 2 else 2)
              && (if cwnd >= 1 then r.wnd.cwnd == cwnd && r.wnd.incr == cwnd * Mss(s.cfg) % M32
                  else r.wnd.cwnd == 1 && r.wnd.incr == Mss(s.cfg))
            else r.wnd == s.wnd
  {
    InflightIsOffset(m, s);
    hide Off, Mss;
  }

  /** The rule of the congestion window, over a whole flush. */
  lemma FlushSetsWindow(m: Arith, s: State, now: u32)
    requires SendInv(m, s) && s.wnd.cwnd >= 1 && Flush(m, s, now).1
    ensures WindowAfter(m, s, Flush(m, s, now).0, now)
  {
    hide Flush, BeforeScan, SendInv, AnyMark, UpdateCongestionOnLoss, TimedOut, ResentFast, FastWindow, Mss;
    FlushWindow(m, s, now);
    ScanStart(m, s, now);
    NumberedAre(m, s, now);
    WindowWasFull(m, s, now);
    var b := BeforeScan(m, s, now);
    MarksAre(b.cfg, b.sndBuf, now);
    NewIsNeither(s.cfg, s.sndBuf, b.sndBuf, now);
    LossLaw(m, b, AnyMark(b.cfg, b.sndBuf, now, Timeout), AnyMark(b.cfg, b.sndBuf, now, Fast));
  }

  // ---- Probes ----

  /** A keep-alive puts out a probe, whatever the peer's window, and is otherwise a flush. */
  lemma KeepAliveProbes(m: Arith, s: State, now: u32)
    ensures var (before, after) := (Emitted(s.out), Emitted(KeepAliveProbe(m, s, now).0.out));
            before <= after && exists i :: |before| <= i < |after| && after[i].cmd == CMD_WASK
  {
    hide Flush, FlushWires, Emitted, Packing.WellPacked;
    var s1 := s.(probe := s.probe.(askSend := true));
    FlushEmits(m, s1, now);
    AskedIsSent(m, s1, now);
    var ws := FlushWires(m, s1, now);
    var i :| 0 <= i < |ws| && ws[i].cmd == CMD_WASK;
    var before := Emitted(s.out);
    assert Emitted(KeepAliveProbe(m, s, now).0.out) == before + ws;
    assert (before + ws)[|before| + i].cmd == CMD_WASK;
  }

  lemma AskedIsSent(m: Arith, s: State, now: u32)
    requires s.probe.askSend
    ensures exists i :: 0 <= i < |FlushWires(m, s, now)| && FlushWires(m, s, now)[i].cmd == CMD_WASK
  {
    var s1 := s.(probe := ProbeTimer(s.probe, s.wnd.rmt, now));
    assert s1.probe.askSend by { hide TimeDiff; }
    hide BeforeScan, Sending, ProbeTimer;
    var n := |AckWires(s)|;
    assert ProbeWires(s1, now)[0] == ProbeWire(s1, CMD_WASK, now);
    assert FlushWires(m, s, now)[n].cmd == CMD_WASK;
  }

  /** The probe interval after `n` probes that found the window closed: 7 s, half as much again each
      time, two minutes at most. */
  function ProbeWait(n: nat): nat {
    if n == 0 then 7000
    else
      var longer := ProbeWait(n - 1) + ProbeWait(n - 1) / 2;
      if longer < 120000 then longer else 120000
  }

  lemma {:induction false} ProbeWaitsAre()
    ensures ProbeWait(1) == 10500 && ProbeWait(2) == 15750 && ProbeWait(7) == 119598
  {
    assert ProbeWait(3) == 23625;
    assert ProbeWait(5) == 53155;
  }

  lemma {:induction false} ProbeWaitLimit(n: nat)
    requires n >= 8
    ensures ProbeWait(n) == 120000
  {
    ProbeWaitsAre();
    if n > 8 { ProbeWaitLimit(n - 1); }
  }

  /** With the peer's window closed a flush starts the timer at 7 s, lengthens the interval each time it
      goes off, and then sends a probe; in between it changes nothing; with the window open it stops it. */
  lemma ProbeBacksOff(m: Arith, s: State, now: u32, n: nat)
    ensures var r := Flush(m, s, now).0;
            && (s.wnd.rmt != 0 ==> r.probe.wait == 0 && r.probe.ts == 0)
            && (s.wnd.rmt == 0 && s.probe.wait == 0 ==>
                  r.probe.wait == ProbeWait(0) && r.probe.ts == (now + 7000) % M32)
            && (s.wnd.rmt == 0 && s.probe.wait == ProbeWait(n) && Age(s.probe.ts, now) < HALF ==>
                  && r.probe.wait == ProbeWait(n + 1) && r.probe.ts == (now + r.probe.wait) % M32
                  && SendsProbe(m, s, now))
            && (s.wnd.rmt == 0 && s.probe.wait != 0 && Age(s.probe.ts, now) >= HALF ==>
                  r.probe.wait == s.probe.wait && r.probe.ts == s.probe.ts)
  {
    hide Flush, TimeDiff, Age, SendsProbe, ProbeTimer, ProbeWait;
    FlushProbe(m, s, now);
    TimerBacksOff(s.probe, s.wnd.rmt, now, n);
    if s.wnd.rmt == 0 && s.probe.wait == ProbeWait(n) && Age(s.probe.ts, now) < HALF {
      IntervalPositive(n);
      AgeIsDiff(s.probe.ts, now);
      FiringSends(m, s, now);
    }
  }

  lemma TimerBacksOff(p: Probe, rmt: u16, now: u32, n: nat)
    ensures var r := ProbeTimer(p, rmt, now);
            && (rmt != 0 ==> r.wait == 0 && r.ts == 0)
            && (rmt == 0 && p.wait == 0 ==> r.wait == ProbeWait(0) && r.ts == (now + 7000) % M32)
            && (rmt == 0 && p.wait == ProbeWait(n) && Age(p.ts, now) < HALF ==>
                  r.wait == ProbeWait(n + 1) && r.ts == (now + r.wait) % M32)
            && (rmt == 0 && p.wait != 0 && Age(p.ts, now) >= HALF ==> r.wait == p.wait && r.ts == p.ts)
  {
    AgeIsDiff(p.ts, now);
    IntervalPositive(n);
    hide TimeDiff, Age;
  }

  lemma {:induction false} IntervalPositive(n: nat)
    ensures 7000 <= ProbeWait(n) <= 120000
  {
    if n > 0 { IntervalPositive(n - 1); }
  }

  lemma FiringSends(m: Arith, s: State, now: u32)
    requires s.wnd.rmt == 0 && s.probe.wait != 0 && TimeDiff(now, s.probe.ts) >= 0
    ensures SendsProbe(m, s, now)
  {
    var s1 := s.(probe := ProbeTimer(s.probe, s.wnd.rmt, now));
    hide BeforeScan, Sending, TimeDiff;
    assert ProbeWire(s1, CMD_WASK, now) in ProbeWires(s1, now);
    assert ProbeWire(s1, CMD_WASK, now) in FlushWires(m, s, now);
  }
}
