/** The engine on wrapping 32-bit sequence numbers makes, step by step, the decisions of the engine
    on unbounded integers, as long as the numbers in arriving packets are within half the circle
    of where the engine stands. */
module Refinement {
  import opened Word
  import opened Protocol
  import opened EngineSpec
  import opened SendSide
  import opened RecvSide

  /** Two windows' worth of numbers. */
  const SLACK: int := 0x2_0000

  // ---- Images under wrapping ----

  function WrapSegment(seg: Segment): Segment {
    seg.(sn := U(seg.sn))
  }

  function WrapBuffer(buf: seq<Segment>): (r: seq<Segment>)
    ensures |r| == |buf|
    ensures forall i :: 0 <= i < |r| ==> r[i] == WrapSegment(buf[i])
  {
    seq(|buf|, i requires 0 <= i < |buf| => WrapSegment(buf[i]))
  }

  function WrapAcks(acks: seq<Ack>): (r: seq<Ack>)
    ensures |r| == |acks|
    ensures forall i :: 0 <= i < |r| ==> r[i] == Ack(U(acks[i].sn), acks[i].ts)
  {
    seq(|acks|, i requires 0 <= i < |acks| => Ack(U(acks[i].sn), acks[i].ts))
  }

  function WrapQueue(queue: seq<seq<Wire>>): (r: seq<seq<Wire>>)
    ensures |r| == |queue|
    ensures forall i :: 0 <= i < |r| ==> r[i] == WrapWires(queue[i])
  {
    seq(|queue|, i requires 0 <= i < |queue| => WrapWires(queue[i]))
  }

  function WrapOutput(out: Output): Output {
    Output(WrapQueue(out.queue), WrapWires(out.pending))
  }

  function WrapNewest(newest: Newest): Newest {
    if newest.NoAck? then NoAck else Newest(U(newest.sn), newest.ts)
  }

  /** `c` holds the same fragments as `n`, under wrapped numbers. */
  ghost predicate BufSim(c: map<int, Frag>, n: map<int, Frag>) {
    && (forall k :: k in n ==> U(k) in c && c[U(k)] == n[k])
    && (forall w :: w in c ==> IsImage(w, n))
  }

  ghost predicate IsImage(w: int, n: map<int, Frag>) {
    exists k :: k in n && U(k) == w
  }

  /** `c` is what `n` looks like in 32 bits, but for the reorder buffer. */
  function Wrapped(n: State, rcvBuf: map<int, Frag>): State {
    n.(sndUna := U(n.sndUna), sndNxt := U(n.sndNxt), rcvNxt := U(n.rcvNxt),
       sndBuf := WrapBuffer(n.sndBuf), rcvBuf := rcvBuf, ackList := WrapAcks(n.ackList), out := WrapOutput(n.out))
  }

  /** The 32-bit engine state `c` stands for the exact state `n`. */
  ghost predicate Sim(c: State, n: State) {
    c == Wrapped(n, c.rcvBuf) && BufSim(c.rcvBuf, n.rcvBuf)
  }

  // ---- Arithmetic ----

  lemma DiffWraps(x: int, y: int)
    requires -HALF <= x - y < HALF
    ensures Diff(Wrapping, U(x), U(y)) == Diff(Exact, x, y)
  {
    SerialComparison(x, y);
  }

  lemma AddWraps(x: int, n: int)
    ensures Add(Wrapping, U(x), n) == U(Add(Exact, x, n))
  {
    WrapShift(x, n);
  }

  lemma WrapInjective(x: int, y: int)
    requires U(x) == U(y) && -M32 < x - y < M32
    ensures x == y
  {
  }

  /** `x` is within half the circle of `base`, with room for two windows. */
  predicate Near(x: int, base: int) {
    base - HALF + SLACK <= x <= base + HALF - SLACK
  }

  lemma NearDiff(x: int, base: int, y: int)
    requires Near(x, base) && base - SLACK < y < base + SLACK
    ensures Diff(Wrapping, U(x), U(y)) == Diff(Exact, x, y)
    ensures Diff(Wrapping, U(y), U(x)) == Diff(Exact, y, x)
  {
    DiffWraps(x, y);
    DiffWraps(y, x);
  }

  // ---- The scans over the send buffer ----

  /** All numbers of the buffer lie within a window of `una`. */
  ghost predicate Windowed(buf: seq<Segment>, una: int) {
    forall i :: 0 <= i < |buf| ==> una <= buf[i].sn < una + 65536
  }

  lemma WrapBufferTail(buf: seq<Segment>)
    requires buf != []
    ensures WrapBuffer(buf)[1..] == WrapBuffer(buf[1..]) && WrapBuffer(buf)[0] == WrapSegment(buf[0])
  {
    assert WrapBuffer(buf)[1..] == WrapBuffer(buf[1..]);
  }

  lemma {:induction false} DropUnaWraps(buf: seq<Segment>, base: int, una: int)
    requires Windowed(buf, base) && Near(una, base)
    ensures DropUna(Wrapping, WrapBuffer(buf), U(una)) == WrapBuffer(DropUna(Exact, buf, una))
    decreases |buf|
  {
    if buf != [] {
      NearDiff(una, base, buf[0].sn);
      WrapBufferTail(buf);
      hide WrapBuffer, U, Diff, Near;
      DropUnaWraps(buf[1..], base, una);
    }
  }

  lemma {:induction false} RemoveSnWraps(buf: seq<Segment>, base: int, sn: int)
    requires Windowed(buf, base) && Near(sn, base)
    ensures RemoveSn(WrapBuffer(buf), U(sn)) == WrapBuffer(RemoveSn(buf, sn))
    decreases |buf|
  {
    if buf != [] {
      if U(buf[0].sn) == U(sn) { WrapInjective(buf[0].sn, sn); }
      WrapBufferTail(buf);
      if buf[0].sn != sn {
        assert WrapBuffer(RemoveSn(buf, sn)) == [WrapSegment(buf[0])] + WrapBuffer(RemoveSn(buf[1..], sn));
        hide WrapBuffer, U, Near;
        RemoveSnWraps(buf[1..], base, sn);
      }
    }
  }

  lemma {:induction false} BumpWraps(buf: seq<Segment>, base: int, sn: int, ts: u32)
    requires Windowed(buf, base) && Near(sn, base)
    ensures BumpFastack(Wrapping, WrapBuffer(buf), U(sn), ts) == WrapBuffer(BumpFastack(Exact, buf, sn, ts))
    decreases |buf|
  {
    if buf != [] {
      NearDiff(sn, base, buf[0].sn);
      WrapBufferTail(buf);
      BumpOneWraps(buf[0], ts);
      if Before(Exact, buf[0].sn, sn) {
        assert WrapBuffer(BumpFastack(Exact, buf, sn, ts))
            == [WrapSegment(BumpOne(buf[0], ts))] + WrapBuffer(BumpFastack(Exact, buf[1..], sn, ts));
        hide WrapBuffer, WrapSegment, U, Diff, Near, BumpOne;
        BumpWraps(buf[1..], base, sn, ts);
      }
    }
  }

  lemma BumpOneWraps(seg: Segment, ts: u32)
    ensures BumpOne(WrapSegment(seg), ts) == WrapSegment(BumpOne(seg, ts))
  {
  }

  lemma InFlightWraps(c: State, n: State, sn: int)
    requires Sim(c, n) && n.sndUna <= n.sndNxt < n.sndUna + 65536 && Near(sn, n.sndUna)
    ensures InFlight(Wrapping, c, U(sn)) == InFlight(Exact, n, sn)
  {
    NearDiff(sn, n.sndUna, n.sndUna);
    NearDiff(sn, n.sndUna, n.sndNxt);
    hide U, Diff, Near, BufSim;
  }

  // ---- The receive side ----

  /** The reorder buffer's keys lie within a window of the next expected number. */
  ghost predicate KeysNear(s: State) {
    forall k :: k in s.rcvBuf ==> s.rcvNxt <= k < s.rcvNxt + 65536
  }

  lemma KeyWraps(c: map<int, Frag>, s: State, sn: int)
    requires BufSim(c, s.rcvBuf) && KeysNear(s) && s.rcvNxt - HALF <= sn < s.rcvNxt + HALF
    ensures U(sn) in c <==> sn in s.rcvBuf
  {
    if U(sn) in c {
      assert IsImage(U(sn), s.rcvBuf);
      var k :| k in s.rcvBuf && U(k) == U(sn);
      WrapInjective(k, sn);
    }
  }

  lemma BufSimInsert(c: map<int, Frag>, n: map<int, Frag>, sn: int, frag: Frag)
    requires BufSim(c, n) && (forall k :: k in n ==> -M32 < k - sn < M32) && sn !in n
    ensures BufSim(c[U(sn) := frag], n[sn := frag])
  {
    var c1, n1 := c[U(sn) := frag], n[sn := frag];
    forall k | k in n1 ensures U(k) in c1 && c1[U(k)] == n1[k] {
      if k != sn && U(k) == U(sn) { WrapInjective(k, sn); }
    }
    forall w | w in c1 ensures IsImage(w, n1) {
      if w == U(sn) {
        assert sn in n1;
      } else {
        assert IsImage(w, n);
        var k :| k in n && U(k) == w;
        assert k in n1;
      }
    }
  }

  lemma BufSimRemove(c: map<int, Frag>, n: map<int, Frag>, sn: int)
    requires BufSim(c, n) && (forall k :: k in n ==> -M32 < k - sn < M32)
    ensures BufSim(c - {U(sn)}, n - {sn})
  {
    var c1, n1 := c - {U(sn)}, n - {sn};
    forall k | k in n1 ensures U(k) in c1 && c1[U(k)] == n1[k] {
      if U(k) == U(sn) { WrapInjective(k, sn); }
    }
    forall w | w in c1 ensures IsImage(w, n1) {
      assert IsImage(w, n);
      var k :| k in n && U(k) == w;
      assert k in n1;
    }
  }

  lemma MoveOneWraps(c: State, n: State)
    requires Sim(c, n) && KeysNear(n) && n.rcvNxt in n.rcvBuf
    ensures c.rcvNxt in c.rcvBuf && Sim(MoveOne(Wrapping, c), MoveOne(Exact, n))
  {
    BufSimRemove(c.rcvBuf, n.rcvBuf, n.rcvNxt);
    AddWraps(n.rcvNxt, 1);
    hide U, Add, IsImage;
  }

  lemma {:induction false} MoveToRecvQueueWraps(c: State, n: State)
    requires Sim(c, n) && KeysNear(n)
    ensures Sim(MoveToRecvQueue(Wrapping, c), MoveToRecvQueue(Exact, n))
    decreases |n.rcvBuf|
  {
    KeyWraps(c.rcvBuf, n, n.rcvNxt);
    if n.rcvNxt in n.rcvBuf && |n.rcvQueue| < n.cfg.rcvWnd {
      MoveOneWraps(c, n);
      assert KeysNear(MoveOne(Exact, n));
      hide U, BufSim, Add, MoveOne, KeysNear;
      MoveToRecvQueueWraps(MoveOne(Wrapping, c), MoveOne(Exact, n));
    }
  }

  lemma StoreWraps(c: State, n: State, sn: int, frag: Frag)
    requires Sim(c, n) && KeysNear(n) && n.rcvNxt <= sn < n.rcvNxt + 65536
    ensures Sim(Store(c, U(sn), frag), Store(n, sn, frag)) && KeysNear(Store(n, sn, frag))
  {
    KeyWraps(c.rcvBuf, n, sn);
    if sn !in n.rcvBuf { BufSimInsert(c.rcvBuf, n.rcvBuf, sn, frag); }
    hide U, IsImage;
  }

  lemma AckPushWraps(c: State, n: State, sn: int, ts: u32)
    requires Sim(c, n)
    ensures Sim(c.(ackList := c.ackList + [Ack(U(sn), ts)]), n.(ackList := n.ackList + [Ack(sn, ts)]))
  {
    hide U, BufSim, WrapBuffer, WrapOutput;
    assert WrapAcks(n.ackList + [Ack(sn, ts)]) == WrapAcks(n.ackList) + [Ack(U(sn), ts)];
  }

  /** The acceptance tests for a data segment come out the same. */
  lemma PushDecisionsWrap(n: State, sn: int)
    requires Near(sn, n.rcvNxt - |n.rcvQueue|) && |n.rcvQueue| <= n.cfg.rcvWnd
    ensures Before(Wrapping, U(sn), U(n.rcvNxt)) == Before(Exact, sn, n.rcvNxt)
    ensures Before(Wrapping, U(sn), Add(Wrapping, U(n.rcvNxt), n.cfg.rcvWnd))
            == Before(Exact, sn, Add(Exact, n.rcvNxt, n.cfg.rcvWnd))
  {
    var nxt, wnd, base := n.rcvNxt, n.cfg.rcvWnd, n.rcvNxt - |n.rcvQueue|;
    AddWraps(nxt, wnd);
    NearDiff(sn, base, nxt);
    NearDiff(sn, base, nxt + wnd);
    hide U, Near;
  }

  lemma PushWraps(c: State, n: State, sn: int, ts: u32, frag: Frag)
    requires Sim(c, n) && KeysNear(n) && Near(sn, n.rcvNxt - |n.rcvQueue|) && |n.rcvQueue| <= n.cfg.rcvWnd
    ensures Sim(InputPush(Wrapping, c, U(sn), ts, frag), InputPush(Exact, n, sn, ts, frag))
  {
    hide U, Diff, Before, Add, Near, Store, BufSim, WrapAcks, WrapBuffer, WrapOutput;
    PushDecisionsWrap(n, sn);
    assert c.rcvNxt == U(n.rcvNxt) && c.cfg == n.cfg;
    hide Sim;
    AckPushWraps(c, n, sn, ts);
    var c1 := c.(ackList := c.ackList + [Ack(U(sn), ts)]);
    var n1 := n.(ackList := n.ackList + [Ack(sn, ts)]);
    if Before(Exact, sn, Add(Exact, n.rcvNxt, n.cfg.rcvWnd)) && !Before(Exact, sn, n.rcvNxt) {
      WindowOfDiffs(sn, n.rcvNxt, n.cfg.rcvWnd);
      StoreWraps(c1, n1, sn, frag);
      MoveToRecvQueueWraps(Store(c1, U(sn), frag), Store(n1, sn, frag));
    }
  }

  lemma WindowOfDiffs(sn: int, nxt: int, wnd: int)
    requires Before(Exact, sn, Add(Exact, nxt, wnd)) && !Before(Exact, sn, nxt)
    ensures nxt <= sn < nxt + wnd
  {
  }

  // ---- Input ----

  /** Everything the engine holds lies within a window of where it stands. */
  ghost predicate Within(n: State) {
    && Windowed(n.sndBuf, n.sndUna) && n.sndUna <= n.sndNxt < n.sndUna + 65536
    && KeysNear(n) && |n.rcvQueue| <= n.cfg.rcvWnd
  }

  lemma WindowsAreWithin(n: State)
    requires SendCore(Exact, n) && RecvInv(Exact, n)
    ensures Within(n)
  {
  }

  /** An arriving segment is within half the circle: acknowledgements of where the engine sends,
      data of what it has handed to its reader. */
  ghost predicate InRange(n: State, w: Wire) {
    && Near(w.una, n.sndUna)
    && (w.cmd == CMD_ACK ==> Near(w.sn, n.sndUna))
    && (w.cmd == CMD_PUSH ==> Near(w.sn, n.rcvNxt - |n.rcvQueue|))
  }

  /** Acknowledged numbers can be compared with each other. */
  ghost predicate Comparable(newest: Newest, w: Wire) {
    newest.Newest? && w.cmd == CMD_ACK ==> -HALF <= w.sn - newest.sn < HALF
  }

  lemma UnaWraps(c: State, n: State, w: Wire)
    requires Sim(c, n) && Within(n) && Near(w.una, n.sndUna)
    ensures Sim(ParseUna(Wrapping, c.(wnd := c.wnd.(rmt := w.wnd)), U(w.una)),
            ParseUna(Exact, n.(wnd := n.wnd.(rmt := w.wnd)), w.una))
  {
    hide U, Near, BufSim, WrapAcks, WrapOutput;
    DropUnaWraps(n.sndBuf, n.sndUna, w.una);
  }

  lemma AckWraps(c: State, n: State, sn: int, ts: u32, now: u32)
    requires Sim(c, n) && Within(n) && Near(sn, n.sndUna)
    ensures Sim(InputAck(Wrapping, c, U(sn), ts, now), InputAck(Exact, n, sn, ts, now))
  {
    hide U, Near, BufSim, WrapAcks, WrapOutput, UpdateAck, InFlight;
    RemoveSnWraps(n.sndBuf, n.sndUna, sn);
    var rtt := if TimeDiff(now, ts) >= 0 then UpdateAck(n.rtt, n.cfg.interval, TimeDiff(now, ts)) else n.rtt;
    InFlightWraps(c.(rtt := rtt), n.(rtt := rtt), sn);
  }

  lemma TrackWraps(newest: Newest, w: Wire)
    requires Comparable(newest, w) && w.cmd == CMD_ACK
    ensures TrackNewest(Wrapping, WrapNewest(newest), U(w.sn), w.ts)
            == WrapNewest(TrackNewest(Exact, newest, w.sn, w.ts))
  {
    if newest.Newest? { DiffWraps(w.sn, newest.sn); }
    hide U, Diff;
  }

  lemma SegmentWraps(c: State, n: State, newest: Newest, w: Wire, now: u32)
    requires Sim(c, n) && Within(n) && InRange(n, w) && Comparable(newest, w)
    ensures var (c1, newest1) := InputSegment(Wrapping, c, WrapNewest(newest), WrapWire(w), now);
            && Sim(c1, InputSegment(Exact, n, newest, w, now).0)
            && newest1 == WrapNewest(InputSegment(Exact, n, newest, w, now).1)
  {
    assert c.conv == n.conv && c.wnd == n.wnd && WrapWire(w).sn == U(w.sn) && WrapWire(w).una == U(w.una);
    var n1 := ParseUna(Exact, n.(wnd := n.wnd.(rmt := w.wnd)), w.una);
    var c1 := ParseUna(Wrapping, c.(wnd := c.wnd.(rmt := w.wnd)), U(w.una));
    AfterUna(n, w);
    hide U, Near, Sim, Within, ParseUna, InputAck, InputPush, TrackNewest, WrapNewest, Comparable;
    UnaWraps(c, n, w);
    assert n1.rcvNxt == n.rcvNxt && n1.rcvQueue == n.rcvQueue && n1.sndUna == n.sndUna && n1.cfg == n.cfg;
    if w.conv == n.conv {
      if w.cmd == CMD_ACK {
        AckWraps(c1, n1, w.sn, w.ts, now);
        TrackWraps(newest, w);
      } else if w.cmd == CMD_PUSH {
        WithinRecv(n1);
        PushWraps(c1, n1, w.sn, w.ts, Frag(w.frg, w.data));
      } else {
        ProbeFlagWraps(c1, n1);
      }
    }
  }

  lemma ProbeFlagWraps(c: State, n: State)
    requires Sim(c, n)
    ensures Sim(c.(probe := c.probe.(askTell := true)), n.(probe := n.probe.(askTell := true)))
    ensures Sim(c.(probe := c.probe.(askSend := true)), n.(probe := n.probe.(askSend := true)))
  {
    hide U, BufSim, WrapBuffer, WrapAcks, WrapOutput;
  }

  lemma WithinRecv(n: State)
    requires Within(n)
    ensures KeysNear(n) && |n.rcvQueue| <= n.cfg.rcvWnd
  {
  }

  lemma AfterUna(n: State, w: Wire)
    requires Within(n)
    ensures var r := ParseUna(Exact, n.(wnd := n.wnd.(rmt := w.wnd)), w.una);
            Within(r) && r.rcvNxt == n.rcvNxt && r.rcvQueue == n.rcvQueue && r.sndUna == n.sndUna && r.cfg == n.cfg
  {
    var k := DropUnaPops(Exact, n.sndBuf, w.una);
  }

  /** The position of the reader does not move while a packet is processed. */
  lemma {:induction false} MoveKeepsReader(n: State)
    ensures var r := MoveToRecvQueue(Exact, n);
            r.rcvNxt - |r.rcvQueue| == n.rcvNxt - |n.rcvQueue|
    decreases |n.rcvBuf|
  {
    if n.rcvNxt in n.rcvBuf && |n.rcvQueue| < n.cfg.rcvWnd { MoveKeepsReader(MoveOne(Exact, n)); }
  }

  lemma SegmentKeepsReader(n: State, newest: Newest, w: Wire, now: u32)
    ensures var r := InputSegment(Exact, n, newest, w, now).0;
            r.rcvNxt - |r.rcvQueue| == n.rcvNxt - |n.rcvQueue| && r.sndUna == n.sndUna
  {
    hide UpdateAck, InFlight, DropUna, RemoveSn;
    var n1 := ParseUna(Exact, n.(wnd := n.wnd.(rmt := w.wnd)), w.una);
    MoveKeepsReader(Store(n1.(ackList := n1.ackList + [Ack(w.sn, w.ts)]), w.sn, Frag(w.frg, w.data)));
    hide MoveToRecvQueue;
  }

  /** A datagram within range of the engine, whose acknowledgements are also comparable with each other. */
  ghost predicate FreshFor(n: State, ws: seq<Wire>) {
    && (forall i :: 0 <= i < |ws| ==> InRange(n, ws[i]))
    && (forall i, j :: 0 <= i < |ws| && 0 <= j < |ws| && ws[i].cmd == CMD_ACK && ws[j].cmd == CMD_ACK ==>
          -HALF <= ws[i].sn - ws[j].sn < HALF)
  }

  ghost predicate ComparableAll(newest: Newest, ws: seq<Wire>) {
    forall i :: 0 <= i < |ws| ==> Comparable(newest, ws[i])
  }

  ghost predicate NewestNear(n: State, newest: Newest) {
    newest.Newest? ==> Near(newest.sn, n.sndUna)
  }

  lemma SegmentKeepsFresh(n: State, newest: Newest, ws: seq<Wire>, now: u32)
    requires ws != [] && FreshFor(n, ws) && ComparableAll(newest, ws) && NewestNear(n, newest)
    ensures var (n1, newest1) := InputSegment(Exact, n, newest, ws[0], now);
            FreshFor(n1, ws[1..]) && ComparableAll(newest1, ws[1..]) && NewestNear(n1, newest1)
  {
    SegmentKeepsReader(n, newest, ws[0], now);
    var (n1, newest1) := InputSegment(Exact, n, newest, ws[0], now);
    assert InRange(n, ws[0]);
    assert newest1 == newest || (ws[0].cmd == CMD_ACK && newest1 == Newest(ws[0].sn, ws[0].ts));
    hide InputSegment, Near;
    forall i | 0 <= i < |ws[1..]| ensures InRange(n1, ws[1..][i]) && Comparable(newest1, ws[1..][i]) {
      assert InRange(n, ws[i + 1]) && Comparable(newest, ws[i + 1]);
    }
  }

  lemma {:induction false} SegmentsWrap(c: State, n: State, newest: Newest, ws: seq<Wire>, now: u32)
    requires Sim(c, n) && SendCore(Exact, n) && RecvInv(Exact, n)
    requires FreshFor(n, ws) && ComparableAll(newest, ws) && NewestNear(n, newest)
    requires forall i :: 0 <= i < |ws| ==> Arrives(Exact, ws[i])
    ensures var (c1, newest1) := InputSegments(Wrapping, c, WrapNewest(newest), WrapWires(ws), now);
            && Sim(c1, InputSegments(Exact, n, newest, ws, now).0)
            && newest1 == WrapNewest(InputSegments(Exact, n, newest, ws, now).1)
            && NewestNear(n, InputSegments(Exact, n, newest, ws, now).1)
    decreases |ws|
  {
    hide Sim, SendCore, RecvInv, FreshFor, ComparableAll, NewestNear, WrapNewest, InputSegment, Arrives;
    if ws != [] {
      FreshHead(n, newest, ws);
      WindowsAreWithin(n);
      SegmentWraps(c, n, newest, ws[0], now);
      SegmentKeepsFresh(n, newest, ws, now);
      SegmentKeepsSendCore(Exact, n, newest, ws[0], now);
      SegmentKeepsRecvInv(Exact, n, newest, ws[0], now);
      var (n1, newest1) := InputSegment(Exact, n, newest, ws[0], now);
      var c1 := InputSegment(Wrapping, c, WrapNewest(newest), WrapWire(ws[0]), now).0;
      assert WrapWires(ws)[1..] == WrapWires(ws[1..]);
      SegmentsWrap(c1, n1, newest1, ws[1..], now);
      SameUnaNear(n, n1, InputSegments(Exact, n1, newest1, ws[1..], now).1);
    }
  }

  lemma SameUnaNear(n: State, n1: State, newest: Newest)
    requires NewestNear(n1, newest) && n1.sndUna == n.sndUna
    ensures NewestNear(n, newest)
  {
  }

  lemma FreshHead(n: State, newest: Newest, ws: seq<Wire>)
    requires ws != [] && FreshFor(n, ws) && ComparableAll(newest, ws)
    ensures InRange(n, ws[0]) && Comparable(newest, ws[0])
  {
  }

  lemma ShrinkWraps(c: State, n: State)
    requires Sim(c, n)
    ensures Sim(ShrinkBuf(c), ShrinkBuf(n))
  {
    hide U, BufSim, WrapAcks, WrapOutput;
  }

  lemma FastackWraps(c: State, n: State, sn: int, ts: u32)
    requires Sim(c, n) && Windowed(n.sndBuf, n.sndUna) && n.sndUna <= n.sndNxt < n.sndUna + 65536
    requires -HALF + 65536 <= sn - n.sndUna < HALF
    ensures Sim(ParseFastack(Wrapping, c, U(sn), ts), ParseFastack(Exact, n, sn, ts))
  {
    DiffWraps(sn, n.sndUna);
    DiffWraps(sn, n.sndNxt);
    assert InFlight(Wrapping, c, U(sn)) == InFlight(Exact, n, sn)
      by { hide U, BufSim, WrapAcks, WrapOutput, WrapBuffer; }
    if InFlight(Exact, n, sn) {
      BumpWraps(n.sndBuf, n.sndUna, sn, ts);
    }
    hide U, BufSim, WrapAcks, WrapOutput, InFlight, BumpFastack;
  }

  lemma CwndWraps(c: State, n: State, prevUna: int)
    requires Sim(c, n) && -HALF <= n.sndUna - prevUna < HALF
    ensures Sim(UpdateCwnd(Wrapping, c, U(prevUna)), UpdateCwnd(Exact, n, prevUna))
  {
    DiffWraps(n.sndUna, prevUna);
    hide U, Diff, BufSim, WrapAcks, WrapOutput, WrapBuffer, GrowCwnd;
  }

  /** Fed with a fresh datagram, the 32-bit engine goes where the exact engine goes. */
  lemma InputWraps(c: State, n: State, ws: seq<Wire>, now: u32)
    requires Sim(c, n) && SendInv(Exact, n) && RecvInv(Exact, n) && FreshFor(n, ws)
    requires forall i :: 0 <= i < |ws| ==> Arrives(Exact, ws[i])
    ensures Sim(Input(Wrapping, c, WrapWires(ws), now), Input(Exact, n, ws, now))
  {
    var (n1, newest) := InputSegments(Exact, n, NoAck, ws, now);
    SegmentsKeepSendCore(Exact, n, NoAck, ws, now);
    ShrinkMakesSendInv(Exact, n1);
    SegmentsWrap(c, n, NoAck, ws, now);
    var c1 := InputSegments(Wrapping, c, NoAck, WrapWires(ws), now).0;
    assert c.sndUna == U(n.sndUna);
    var n2 := ShrinkBuf(n1);
    NearAfterShrink(n, n2, newest);
    assert n2.sndUna - n.sndUna < HALF;
    hide Sim, InputSegments, ShrinkBuf, ParseFastack, UpdateCwnd, SendInv, RecvInv, Near, U;
    ShrinkWraps(c1, n1);
    if newest.Newest? { FastackWraps(ShrinkBuf(c1), n2, newest.sn, newest.ts); }
    var n3 := if newest.Newest? then ParseFastack(Exact, n2, newest.sn, newest.ts) else n2;
    var c3 := if newest.Newest? then ParseFastack(Wrapping, ShrinkBuf(c1), U(newest.sn), newest.ts) else ShrinkBuf(c1);
    FastackKeepsUna(n2, newest);
    CwndWraps(c3, n3, n.sndUna);
  }

  lemma FastackKeepsUna(n: State, newest: Newest)
    ensures newest.Newest? ==> ParseFastack(Exact, n, newest.sn, newest.ts).sndUna == n.sndUna
  {
  }

  lemma NearAfterShrink(n: State, n2: State, newest: Newest)
    requires NewestNear(n, newest) && SendInv(Exact, n2) && n.sndUna <= n2.sndUna < n.sndUna + 65536
    ensures Windowed(n2.sndBuf, n2.sndUna) && n2.sndUna <= n2.sndNxt < n2.sndUna + 65536
    ensures newest.Newest? ==> -HALF + 65536 <= newest.sn - n2.sndUna < HALF
  {
  }

  // ---- The other operations ----

  lemma SendWraps(c: State, n: State, data: Bytes)
    requires Sim(c, n)
    ensures Sim(Send(c, data).0, Send(n, data).0) && Send(c, data).1 == Send(n, data).1
  {
    SendReadsQueue(c, n, data);
    hide Send, U, BufSim, WrapBuffer, WrapAcks, WrapOutput;
  }

  lemma SendReadsQueue(c: State, n: State, data: Bytes)
    requires c.cfg == n.cfg && c.sndQueue == n.sndQueue
    ensures Send(c, data).0.sndQueue == Send(n, data).0.sndQueue && Send(c, data).1 == Send(n, data).1
  {
    hide Fragment, MergeIntoLast, FragmentCount;
    assert MergeLength(c, data) == MergeLength(n, data);
  }

  lemma RecvWraps(c: State, n: State)
    requires Sim(c, n) && RecvInv(Exact, n)
    ensures Sim(Recv(Wrapping, c).0, Recv(Exact, n).0) && Recv(Wrapping, c).1 == Recv(Exact, n).1
  {
    assert KeysNear(n) && c.rcvQueue == n.rcvQueue && c.cfg == n.cfg;
    hide U, BufSim, WrapBuffer, WrapAcks, WrapOutput, PeekSize, TakeMessage, MoveToRecvQueue, KeysNear;
    var (data, rest) := TakeMessage(n.rcvQueue, PeekSize(n.rcvQueue));
    MoveToRecvQueueWraps(c.(rcvQueue := rest), n.(rcvQueue := rest));
  }

  lemma DrainWraps(c: State, n: State)
    requires Sim(c, n)
    ensures Sim(Drain(c), Drain(n)) && c.out.queue == WrapQueue(n.out.queue)
  {
    hide U, BufSim, WrapBuffer, WrapAcks, WrapWires;
  }

  // ---- Flush ----

  lemma {:induction false} DatagramSizeWraps(ws: seq<Wire>)
    ensures DatagramSize(WrapWires(ws)) == DatagramSize(ws)
  {
    hide U;
    if ws != [] {
      assert WrapWires(ws)[..|ws| - 1] == WrapWires(ws[..|ws| - 1]);
      DatagramSizeWraps(ws[..|ws| - 1]);
    }
  }

  lemma OutputSegmentWraps(out: Output, mtu: int, w: Wire)
    ensures OutputSegment(WrapOutput(out), mtu, WrapWire(w)) == WrapOutput(OutputSegment(out, mtu, w))
  {
    hide U, DatagramSize, WrapWire;
    DatagramSizeWraps(out.pending);
    assert WrapWires(out.pending + [w]) == WrapWires(out.pending) + [WrapWire(w)];
    assert WrapWires([w]) == [WrapWire(w)];
    assert WrapQueue(out.queue + [out.pending]) == WrapQueue(out.queue) + [WrapWires(out.pending)];
    SameSize(w);
  }

  lemma SameSize(w: Wire)
    ensures WireSize(WrapWire(w)) == WireSize(w)
  {
  }

  lemma {:induction false} OutputAllWraps(out: Output, mtu: int, ws: seq<Wire>)
    ensures OutputAll(WrapOutput(out), mtu, WrapWires(ws)) == WrapOutput(OutputAll(out, mtu, ws))
    decreases |ws|
  {
    hide OutputSegment, WrapOutput, WrapWire;
    if ws != [] {
      var init := ws[..|ws| - 1];
      assert WrapWires(ws)[..|ws| - 1] == WrapWires(init);
      OutputAllWraps(out, mtu, init);
      OutputSegmentWraps(OutputAll(out, mtu, init), mtu, ws[|ws| - 1]);
    }
  }

  lemma CloseDatagramWraps(out: Output)
    ensures CloseDatagram(WrapOutput(out)) == WrapOutput(CloseDatagram(out))
  {
    hide U;
    assert WrapQueue(out.queue + [out.pending]) == WrapQueue(out.queue) + [WrapWires(out.pending)];
    assert WrapWires([]) == [];
  }

  lemma EmitWraps(c: State, n: State, ws: seq<Wire>)
    requires Sim(c, n)
    ensures Sim(Emit(c, WrapWires(ws)), Emit(n, ws))
  {
    hide U, BufSim, WrapBuffer, WrapAcks, WrapOutput, WrapWires, OutputAll;
    OutputAllWraps(n.out, n.cfg.mtu, ws);
  }

  lemma FlushAcksWraps(c: State, n: State)
    requires Sim(c, n)
    ensures Sim(FlushAcks(c), FlushAcks(n))
  {
    var acks := AckWires(n);
    assert AckWires(c) == WrapWires(acks) by { hide U, BufSim, WrapOutput, WrapBuffer; }
    hide U, BufSim, WrapBuffer, WrapOutput, WrapWires, OutputAll, AckWires;
    EmitWraps(c, n, acks);
    assert WrapAcks([]) == [];
  }

  lemma ProbeWraps(c: State, n: State, now: u32)
    requires Sim(c, n)
    ensures Sim(HandleWindowProbe(c, now), HandleWindowProbe(n, now))
  {
    hide BufSim, WrapBuffer, WrapOutput, WrapAcks, ProbeTimer, OutputAll;
    var n1, c1 := n.(probe := ProbeTimer(n.probe, n.wnd.rmt, now)), c.(probe := ProbeTimer(c.probe, c.wnd.rmt, now));
    assert Sim(c1, n1);
    var ws := ProbeWires(n1, now);
    assert ProbeWires(c1, now) == WrapWires(ws);
    hide ProbeWires, WrapWires, U;
    EmitWraps(c1, n1, ws);
  }

  lemma NumberOneWraps(c: State, n: State, now: u32)
    requires Sim(c, n) && n.sndQueue != []
    ensures Sim(NumberOne(Wrapping, c, now), NumberOne(Exact, n, now))
  {
    AddWraps(n.sndNxt, 1);
    var seg := Segment(n.sndNxt, n.sndQueue[0], now, now, n.rtt.rto, 0, 0);
    assert WrapBuffer(n.sndBuf + [seg]) == WrapBuffer(n.sndBuf) + [WrapSegment(seg)];
    hide U, Add, BufSim, WrapAcks, WrapOutput, WrapBuffer;
  }

  lemma WindowTestWraps(c: State, n: State)
    requires Sim(c, n) && 0 <= n.sndNxt - n.sndUna <= 65535
    ensures Before(Wrapping, c.sndNxt, Add(Wrapping, c.sndUna, EffectiveWindow(c)))
            == Before(Exact, n.sndNxt, Add(Exact, n.sndUna, EffectiveWindow(n)))
  {
    var w := EffectiveWindow(n);
    assert EffectiveWindow(c) == w && 0 <= w <= 65535;
    AddWraps(n.sndUna, w);
    DiffWraps(n.sndNxt, n.sndUna + w);
    hide U, Diff, BufSim, WrapBuffer, WrapAcks, WrapOutput, EffectiveWindow;
  }

  lemma {:induction false} MoveToSendBufWraps(c: State, n: State, now: u32)
    requires Sim(c, n) && SendInv(Exact, n)
    ensures Sim(MoveToSendBuf(Wrapping, c, now), MoveToSendBuf(Exact, n, now))
    decreases |n.sndQueue|
  {
    WindowTestWraps(c, n);
    assert c.sndQueue == n.sndQueue;
    hide Sim, Before, Add, EffectiveWindow;
    if n.sndQueue != [] && Before(Exact, n.sndNxt, Add(Exact, n.sndUna, EffectiveWindow(n))) {
      NumberOneWraps(c, n, now);
      NumberOneKeepsSendInv(Exact, n, now);
      hide NumberOne, SendInv;
      MoveToSendBufWraps(NumberOne(Wrapping, c, now), NumberOne(Exact, n, now), now);
    }
  }

  lemma MarkedWraps(cfg: Config, rto: u32, seg: Segment, now: u32)
    ensures MarkOf(cfg, WrapSegment(seg), now) == MarkOf(cfg, seg, now)
    ensures Marked(cfg, rto, WrapSegment(seg), now) == WrapSegment(Marked(cfg, rto, seg, now))
  {
    hide U, Backoff, TimeDiff;
  }

  lemma MarkAllWraps(cfg: Config, rto: u32, buf: seq<Segment>, now: u32)
    ensures MarkAll(cfg, rto, WrapBuffer(buf), now) == WrapBuffer(MarkAll(cfg, rto, buf, now))
    ensures forall mark :: AnyMark(cfg, WrapBuffer(buf), now, mark) == AnyMark(cfg, buf, now, mark)
  {
    hide MarkOf, Marked, WrapSegment;
    forall i | 0 <= i < |buf|
      ensures Marked(cfg, rto, WrapBuffer(buf)[i], now) == WrapSegment(Marked(cfg, rto, buf[i], now))
           && MarkOf(cfg, WrapBuffer(buf)[i], now) == MarkOf(cfg, buf[i], now)
    {
      MarkedWraps(cfg, rto, buf[i], now);
    }
    assert forall i :: 0 <= i < |buf| ==> MarkOf(cfg, WrapBuffer(buf)[i], now) == MarkOf(cfg, buf[i], now);
  }

  lemma {:induction false} ToSendWraps(cfg: Config, rto: u32, buf: seq<Segment>, now: u32)
    ensures ToSend(cfg, rto, WrapBuffer(buf), now) == WrapBuffer(ToSend(cfg, rto, buf, now))
  {
    hide MarkOf, Marked, WrapSegment;
    if buf != [] {
      var init, last := buf[..|buf| - 1], buf[|buf| - 1];
      assert WrapBuffer(buf)[..|buf| - 1] == WrapBuffer(init);
      ToSendWraps(cfg, rto, init, now);
      MarkedWraps(cfg, rto, last, now);
    }
  }

  lemma {:induction false} ThroughDeadWraps(segs: seq<Segment>, deadLink: u32)
    ensures ThroughDead(WrapBuffer(segs), deadLink) == WrapBuffer(ThroughDead(segs, deadLink))
    ensures AnyDead(WrapBuffer(segs), deadLink) == AnyDead(segs, deadLink)
  {
    SameXmit(segs);
    hide U;
    if segs != [] {
      assert WrapBuffer(segs)[1..] == WrapBuffer(segs[1..]);
      ThroughDeadWraps(segs[1..], deadLink);
    }
  }

  lemma SameXmit(segs: seq<Segment>)
    ensures forall i :: 0 <= i < |segs| ==> WrapBuffer(segs)[i].xmit == segs[i].xmit
  {
  }

  lemma DataWiresWrap(c: State, n: State, segs: seq<Segment>)
    requires Sim(c, n)
    ensures DataWires(c, WrapBuffer(segs)) == WrapWires(DataWires(n, segs))
  {
    hide U, BufSim, WrapAcks, WrapOutput;
  }

  lemma LossWraps(c: State, n: State, lost: bool, change: bool)
    requires Sim(c, n)
    ensures Sim(UpdateCongestionOnLoss(Wrapping, c, lost, change), UpdateCongestionOnLoss(Exact, n, lost, change))
  {
    hide U, BufSim, WrapBuffer, WrapAcks, WrapOutput, OnFastLoss, OnTimeoutLoss, ResetCwnd;
    WrapShift(n.sndUna, U(n.sndNxt));
    WrapShift(n.sndNxt, -n.sndUna);
    assert U(c.sndNxt - c.sndUna) == U(n.sndNxt - n.sndUna);
  }

  lemma MarkingWraps(c: State, n: State, now: u32)
    requires Sim(c, n)
    ensures Sim(c.(sndBuf := MarkAll(c.cfg, c.rtt.rto, c.sndBuf, now)),
            n.(sndBuf := MarkAll(n.cfg, n.rtt.rto, n.sndBuf, now)))
  {
    hide U, BufSim, WrapAcks, WrapOutput, MarkAll;
    MarkAllWraps(n.cfg, n.rtt.rto, n.sndBuf, now);
  }

  lemma FlushDataWraps(c: State, n: State, now: u32)
    requires Sim(c, n)
    ensures Sim(FlushDataSegments(Wrapping, c, now).0, FlushDataSegments(Exact, n, now).0)
    ensures FlushDataSegments(Wrapping, c, now).1 == FlushDataSegments(Exact, n, now).1
  {
    var cfg, rto := n.cfg, n.rtt.rto;
    assert c.cfg == cfg && c.rtt == n.rtt && c.sndBuf == WrapBuffer(n.sndBuf);
    hide Sim, MarkAll, ToSend, ThroughDead, AnyDead, AnyMark, DataWires, WrapWires, WrapBuffer, Emit,
         UpdateCongestionOnLoss;
    var sending := ToSend(cfg, rto, n.sndBuf, now);
    var out := ThroughDead(sending, cfg.deadLink);
    MarkingWraps(c, n, now);
    MarkAllWraps(cfg, rto, n.sndBuf, now);
    ToSendWraps(cfg, rto, n.sndBuf, now);
    ThroughDeadWraps(sending, cfg.deadLink);
    DataWiresWrap(c, n, out);
    var c1 := c.(sndBuf := MarkAll(cfg, rto, c.sndBuf, now));
    var n1 := n.(sndBuf := MarkAll(cfg, rto, n.sndBuf, now));
    EmitWraps(c1, n1, DataWires(n, out));
    LossWraps(Emit(c1, WrapWires(DataWires(n, out))), Emit(n1, DataWires(n, out)),
              AnyMark(cfg, n.sndBuf, now, Timeout), AnyMark(cfg, n.sndBuf, now, Fast));
  }

  /** A flush at the same time takes both engines to states that stand for each other. */
  lemma FlushWraps(c: State, n: State, now: u32)
    requires Sim(c, n) && SendInv(Exact, n)
    ensures Sim(Flush(Wrapping, c, now).0, Flush(Exact, n, now).0)
            && Flush(Wrapping, c, now).1 == Flush(Exact, n, now).1
  {
    var n1 := HandleWindowProbe(FlushAcks(n), now);
    assert SendInv(Exact, n1) by { hide ProbeTimer, OutputAll, Ascending; }
    hide Sim, SendInv, FlushAcks, HandleWindowProbe, MoveToSendBuf, FlushDataSegments;
    FlushAcksWraps(c, n);
    ProbeWraps(FlushAcks(c), FlushAcks(n), now);
    var c1 := HandleWindowProbe(FlushAcks(c), now);
    MoveToSendBufWraps(c1, n1, now);
    FlushDataWraps(MoveToSendBuf(Wrapping, c1, now), MoveToSendBuf(Exact, n1, now), now);
    var c2 := FlushDataSegments(Wrapping, MoveToSendBuf(Wrapping, c1, now), now).0;
    var n2 := FlushDataSegments(Exact, MoveToSendBuf(Exact, n1, now), now).0;
    CloseWraps(c2, n2);
  }

  lemma CloseWraps(c: State, n: State)
    requires Sim(c, n)
    ensures Sim(c.(out := CloseDatagram(c.out)), n.(out := CloseDatagram(n.out)))
  {
    hide U, BufSim, WrapBuffer, WrapAcks, WrapOutput;
    CloseDatagramWraps(n.out);
  }

  lemma InitWraps(conv: u32, cfg: Config)
    ensures Sim(Init(conv, cfg), Init(conv, cfg))
  {
    var s := Init(conv, cfg);
    assert WrapBuffer([]) == [] && WrapAcks([]) == [] && WrapQueue([]) == [] && WrapWires([]) == [];
  }
}
