/** Safety of two engines over an unreliable network, in every reachable state: no segment is lost
    between the peers, acknowledgements tell the truth, and what is received is what was sent. */
module NetworkSafety {
  import opened Word
  import opened Protocol
  import opened EngineSpec
  import opened SendSide
  import opened RecvSide
  import opened Fragments
  import opened Packing
  import opened Network

  // ---- What the invariant says ----

  /** The engine holds segment `sn`: delivered, queued for reading, or in the reorder buffer. */
  predicate Held(s: State, sn: int) {
    0 <= sn && (sn < s.rcvNxt || sn in s.rcvBuf)
  }

  predicate Buffered(buf: seq<Segment>, sn: int) {
    exists i :: 0 <= i < |buf| && buf[i].sn == sn
  }

  /** What a transmitted segment may claim: data as numbered, acknowledgements of held segments only. */
  ghost predicate Truthful(s: State, hist: seq<Frag>, w: Wire) {
    && w.conv == s.conv
    && 0 <= w.una <= s.rcvNxt
    && |w.data| <= 65511
    && (w.cmd == CMD_ACK ==> Held(s, w.sn))
    && (w.cmd == CMD_PUSH ==> 0 <= w.sn < |hist| && hist[w.sn] == Frag(w.frg, w.data))
  }

  ghost predicate AllTruthful(s: State, hist: seq<Frag>, ws: seq<Wire>) {
    forall w :: w in ws ==> Truthful(s, hist, w)
  }

  ghost predicate AcksHeld(s: State) {
    forall i :: 0 <= i < |s.ackList| ==> Held(s, s.ackList[i].sn)
  }

  /** The send buffer holds the fragments as they were numbered. */
  ghost predicate BufferMatches(buf: seq<Segment>, hist: seq<Frag>) {
    forall i :: 0 <= i < |buf| ==> 0 <= buf[i].sn < |hist| && hist[buf[i].sn] == buf[i].frag
  }

  function Singles(frags: seq<Frag>): (r: seq<seq<Frag>>)
    ensures |r| == |frags|
    ensures forall i :: 0 <= i < |r| ==> r[i] == [frags[i]]
  {
    seq(|frags|, i requires 0 <= i < |frags| => [frags[i]])
  }

  function FragmentEach(msgs: seq<Bytes>, mss: int): (r: seq<seq<Frag>>)
    requires mss > 0
    ensures |r| == |msgs|
    ensures forall i :: 0 <= i < |r| ==> r[i] == Fragment(msgs[i], mss, false)
  {
    seq(|msgs|, i requires 0 <= i < |msgs| => Fragment(msgs[i], mss, false))
  }

  /** The units the peer's `recv` returns: accepted messages, or single segments in stream mode. */
  function Units(n: Node): seq<seq<Frag>> {
    if n.eng.cfg.streamMode then Singles(n.hist + n.eng.sndQueue)
    else FragmentEach(n.accepted, Mss(n.eng.cfg))
  }

  ghost predicate GoodUnit(g: seq<Frag>, cfg: Config) {
    Countdown(g) && |g| <= MaxFragments(cfg) && |DataOf(g)| < HALF
  }

  /** What each engine keeps with its own history. */
  ghost predicate NodeInv(n: Node) {
    && SendInv(Exact, n.eng) && RecvInv(Exact, n.eng) && SizesInv(n.eng)
    && 0 <= n.eng.sndUna && 0 <= n.eng.rcvNxt
    && |n.hist| == n.eng.sndNxt
    && BufferMatches(n.eng.sndBuf, n.hist)
    && AcksHeld(n.eng)
    && AllTruthful(n.eng, n.hist, Emitted(n.eng.out))
    && (forall d :: d in n.net ==> AllTruthful(n.eng, n.hist, d))
    && UnitsInv(n)
  }

  ghost predicate UnitsInv(n: Node) {
    && n.hist + n.eng.sndQueue == Join(Units(n))
    && DataOf(n.hist + n.eng.sndQueue) == n.queued
    && (forall i :: 0 <= i < |Units(n)| ==> GoodUnit(Units(n)[i], n.eng.cfg))
  }

  /** The reorder buffer holds segments as the sender numbered them. */
  ghost predicate ReceivesFrom(s: State, hist: seq<Frag>) {
    && 0 <= s.rcvNxt <= |hist|
    && forall k :: k in s.rcvBuf ==> 0 <= k < |hist| && s.rcvBuf[k] == hist[k]
  }

  /** The receive queue is the history from position `base` up to the next expected number. */
  ghost predicate QueueIs(s: State, hist: seq<Frag>, base: int) {
    0 <= base <= s.rcvNxt <= |hist| && s.rcvQueue == hist[base..s.rcvNxt]
  }

  /** Every number given out is still in the send buffer or held by the peer. */
  ghost predicate NoLoss(s: State, peer: State) {
    forall sn :: 0 <= sn < s.sndNxt && !Buffered(s.sndBuf, sn) ==> Held(peer, sn)
  }

  /** The peer has been handed whole units, in order, and reads on where they end. */
  ghost predicate Delivers(x: Node, y: Node) {
    && |y.delivered| <= |Units(x)|
    && (forall i :: 0 <= i < |y.delivered| ==> y.delivered[i] == DataOf(Units(x)[i]))
    && QueueIs(y.eng, x.hist, |Join(Units(x)[..|y.delivered|])|)
  }

  /** What sender `x` and receiver `y` keep together. */
  ghost predicate PairInv(x: Node, y: Node) {
    ReceivesFrom(y.eng, x.hist) && NoLoss(x.eng, y.eng) && Delivers(x, y) && x.eng.conv == y.eng.conv
  }

  ghost predicate SystemInv(sys: System) {
    NodeInv(sys.left) && NodeInv(sys.right) && PairInv(sys.left, sys.right) && PairInv(sys.right, sys.left)
  }

  // ---- Held segments stay held, so claims stay true ----

  ghost predicate Grows(s: State, hist: seq<Frag>, s1: State, hist1: seq<Frag>) {
    s.conv == s1.conv && s.rcvNxt <= s1.rcvNxt && hist <= hist1 && forall sn :: Held(s, sn) ==> Held(s1, sn)
  }

  lemma TruthLasts(s: State, hist: seq<Frag>, s1: State, hist1: seq<Frag>, ws: seq<Wire>)
    requires Grows(s, hist, s1, hist1) && AllTruthful(s, hist, ws)
    ensures AllTruthful(s1, hist1, ws)
  {
    hide Held;
    forall w | w in ws ensures Truthful(s1, hist1, w) {
      assert Truthful(s, hist, w);
    }
  }

  // ---- Input: the receiving side ----

  lemma {:induction false} MoveReceives(s: State, hist: seq<Frag>, base: int)
    requires ReceivesFrom(s, hist) && QueueIs(s, hist, base)
    ensures var r := MoveToRecvQueue(Exact, s);
            ReceivesFrom(r, hist) && QueueIs(r, hist, base) && Grows(s, hist, r, hist)
    decreases |s.rcvBuf|
  {
    if s.rcvNxt in s.rcvBuf && |s.rcvQueue| < s.cfg.rcvWnd {
      var s1 := s.(rcvQueue := s.rcvQueue + [s.rcvBuf[s.rcvNxt]], rcvBuf := s.rcvBuf - {s.rcvNxt},
        rcvNxt := s.rcvNxt + 1);
      assert hist[base..s.rcvNxt + 1] == hist[base..s.rcvNxt] + [hist[s.rcvNxt]];
      MoveReceives(s1, hist, base);
      assert Grows(s, hist, s1, hist);
    }
  }

  lemma PushReceives(s: State, sn: int, ts: u32, frag: Frag, hist: seq<Frag>, base: int)
    requires ReceivesFrom(s, hist) && QueueIs(s, hist, base) && AcksHeld(s)
    requires 0 <= sn < |hist| && hist[sn] == frag
    ensures var r := InputPush(Exact, s, sn, ts, frag);
            ReceivesFrom(r, hist) && QueueIs(r, hist, base) && Grows(s, hist, r, hist) && AcksHeld(r)
  {
    if sn < s.rcvNxt + s.cfg.rcvWnd {
      var s1 := s.(ackList := s.ackList + [Ack(sn, ts)]);
      if sn >= s.rcvNxt {
        var s2 := if sn in s1.rcvBuf then s1 else s1.(rcvBuf := s1.rcvBuf[sn := frag]);
        MoveReceives(s2, hist, base);
        assert Grows(s1, hist, s2, hist) && Held(s2, sn);
      }
    }
  }

  lemma SegmentReceives(s: State, newest: Newest, w: Wire, now: u32, peer: State, hist: seq<Frag>, base: int)
    requires ReceivesFrom(s, hist) && QueueIs(s, hist, base) && AcksHeld(s)
    requires Truthful(peer, hist, w)
    ensures var r := InputSegment(Exact, s, newest, w, now).0;
            ReceivesFrom(r, hist) && QueueIs(r, hist, base) && Grows(s, hist, r, hist) && AcksHeld(r)
  {
    var s1 := ParseUna(Exact, s.(wnd := s.wnd.(rmt := w.wnd)), w.una);
    if w.cmd == CMD_PUSH { PushReceives(s1, w.sn, w.ts, Frag(w.frg, w.data), hist, base); }
    hide DropUna, UpdateAck, Before, InputPush;
  }

  lemma {:induction false} SegmentsReceive(s: State, newest: Newest, ws: seq<Wire>, now: u32, peer: State,
      hist: seq<Frag>, base: int)
    requires ReceivesFrom(s, hist) && QueueIs(s, hist, base) && AcksHeld(s)
    requires AllTruthful(peer, hist, ws)
    ensures var r := InputSegments(Exact, s, newest, ws, now).0;
            ReceivesFrom(r, hist) && QueueIs(r, hist, base) && Grows(s, hist, r, hist) && AcksHeld(r)
    decreases |ws|
  {
    if ws != [] {
      var (s1, newest1) := InputSegment(Exact, s, newest, ws[0], now);
      assert Truthful(peer, hist, ws[0]);
      SegmentReceives(s, newest, ws[0], now, peer, hist, base);
      hide InputSegment, ReceivesFrom, QueueIs, Truthful, AcksHeld, Held;
      SegmentsReceive(s1, newest1, ws[1..], now, peer, hist, base);
    }
  }

  // ---- Input: the sending side ----

  lemma DropKeeps(buf: seq<Segment>, una: int, sn: int)
    requires Buffered(buf, sn) && una <= sn
    ensures Buffered(DropUna(Exact, buf, una), sn)
  {
    var k := DropUnaPops(Exact, buf, una);
    var i :| 0 <= i < |buf| && buf[i].sn == sn;
    assert !Before(Exact, buf[i].sn, una);
    assert buf[k..][i - k].sn == sn;
  }

  lemma RemoveKeeps(buf: seq<Segment>, gone: int, sn: int)
    requires Buffered(buf, sn) && gone != sn
    ensures Buffered(RemoveSn(buf, gone), sn)
  {
    var j := RemoveSnAt(buf, gone);
    var i :| 0 <= i < |buf| && buf[i].sn == sn;
    if j < |buf| {
      assert RemoveSn(buf, gone)[if i < j then i else i - 1].sn == sn;
    }
  }

  /** An incoming segment takes out of the send buffer only what it acknowledges: the numbers
      before its `una` and, if it is an ACK, its own. */
  lemma OnlyAcknowledgedLeave(s: State, newest: Newest, w: Wire, now: u32, sn: int)
    requires Buffered(s.sndBuf, sn) && w.una <= sn && !(w.cmd == CMD_ACK && w.sn == sn)
    ensures Buffered(InputSegment(Exact, s, newest, w, now).0.sndBuf, sn)
  {
    DropKeeps(s.sndBuf, w.una, sn);
    if w.sn != sn { RemoveKeeps(DropUna(Exact, s.sndBuf, w.una), w.sn, sn); }
    hide UpdateAck, InputPush, Buffered, DropUna, RemoveSn, TrackNewest, InFlight;
  }

  lemma SegmentLosesNothing(s: State, newest: Newest, w: Wire, now: u32, peer: State, hist: seq<Frag>)
    requires NoLoss(s, peer) && Truthful(peer, hist, w)
    ensures NoLoss(InputSegment(Exact, s, newest, w, now).0, peer)
  {
    hide Held, Buffered;
    var r := InputSegment(Exact, s, newest, w, now).0;
    forall sn | 0 <= sn < s.sndNxt && !Buffered(r.sndBuf, sn) ensures Held(peer, sn) {
      if sn < w.una {
        HeldBelow(peer, sn);
      } else if Buffered(s.sndBuf, sn) && !(w.cmd == CMD_ACK && w.sn == sn) {
        OnlyAcknowledgedLeave(s, newest, w, now, sn);
      }
    }
    hide InputSegment;
  }

  lemma HeldBelow(s: State, sn: int)
    requires 0 <= sn < s.rcvNxt
    ensures Held(s, sn)
  {
  }

  lemma {:induction false} SegmentsLoseNothing(s: State, newest: Newest, ws: seq<Wire>, now: u32, peer: State,
      hist: seq<Frag>)
    requires NoLoss(s, peer) && AllTruthful(peer, hist, ws)
    ensures NoLoss(InputSegments(Exact, s, newest, ws, now).0, peer)
    decreases |ws|
  {
    if ws != [] {
      var (s1, newest1) := InputSegment(Exact, s, newest, ws[0], now);
      assert Truthful(peer, hist, ws[0]);
      SegmentLosesNothing(s, newest, ws[0], now, peer, hist);
      hide InputSegment, NoLoss, Truthful;
      SegmentsLoseNothing(s1, newest1, ws[1..], now, peer, hist);
    }
  }

  lemma SameNumbersNoLoss(s: State, r: State, peer: State)
    requires NoLoss(s, peer) && r.sndNxt == s.sndNxt && SameNumbers(s.sndBuf, r.sndBuf)
    ensures NoLoss(r, peer)
  {
    hide Held, Buffered;
    forall sn | 0 <= sn < r.sndNxt && !Buffered(r.sndBuf, sn) ensures Held(peer, sn) {
      if Buffered(s.sndBuf, sn) { BufferedSame(s.sndBuf, r.sndBuf, sn); }
    }
  }

  lemma BufferedSame(a: seq<Segment>, b: seq<Segment>, sn: int)
    requires SameNumbers(a, b) && Buffered(a, sn)
    ensures Buffered(b, sn)
  {
    var i :| 0 <= i < |a| && a[i].sn == sn;
    assert b[i].sn == sn;
  }

  /** An engine fed with truthful segments keeps everything it shares with its peer. */
  lemma InputIsSafe(s: State, ws: seq<Wire>, now: u32, peer: State, hist: seq<Frag>, base: int)
    requires ReceivesFrom(s, hist) && QueueIs(s, hist, base) && AcksHeld(s) && NoLoss(s, peer)
    requires AllTruthful(peer, hist, ws)
    ensures var r := Input(Exact, s, ws, now);
            && ReceivesFrom(r, hist) && QueueIs(r, hist, base) && AcksHeld(r) && NoLoss(r, peer)
            && Grows(s, hist, r, hist)
  {
    SegmentsReceive(s, NoAck, ws, now, peer, hist, base);
    SegmentsLoseNothing(s, NoAck, ws, now, peer, hist);
    var (s1, newest) := InputSegments(Exact, s, NoAck, ws, now);
    var r := Input(Exact, s, ws, now);
    if newest.Newest? { BumpKeepsNumbers(Exact, s1.sndBuf, newest.sn, newest.ts); }
    hide InputSegments, BumpFastack, UpdateCwnd, Held, NoLoss, Truthful;
    assert SameNumbers(s1.sndBuf, r.sndBuf);
    SameNumbersNoLoss(s1, r, peer);
    assert Grows(s, hist, s1, hist);
    SameReceiver(s1, r, hist, base);
  }

  lemma SameReceiver(s: State, r: State, hist: seq<Frag>, base: int)
    requires ReceivesFrom(s, hist) && QueueIs(s, hist, base) && AcksHeld(s)
    requires r.conv == s.conv && r.rcvNxt == s.rcvNxt && r.rcvBuf == s.rcvBuf && r.rcvQueue == s.rcvQueue
             && r.ackList == s.ackList
    ensures ReceivesFrom(r, hist) && QueueIs(r, hist, base) && AcksHeld(r) && Grows(s, hist, r, hist)
  {
  }

  // ---- Flush ----

  /** The fresh segments of a flush: queued fragments under consecutive numbers. */
  function Numbered(first: int, frags: seq<Frag>, now: u32, rto: u32): (r: seq<Segment>)
    ensures |r| == |frags|
    ensures forall i :: 0 <= i < |r| ==> r[i] == Segment(first + i, frags[i], now, now, rto, 0, 0)
  {
    seq(|frags|, i requires 0 <= i < |frags| => Segment(first + i, frags[i], now, now, rto, 0, 0))
  }

  lemma {:induction false} MoveNumbers(s: State, now: u32) returns (k: nat)
    ensures k <= |s.sndQueue|
    ensures MoveToSendBuf(Exact, s, now) ==
            s.(sndQueue := s.sndQueue[k..], sndNxt := s.sndNxt + k,
               sndBuf := s.sndBuf + Numbered(s.sndNxt, s.sndQueue[..k], now, s.rtt.rto))
    decreases |s.sndQueue|
  {
    if s.sndQueue != [] && Before(Exact, s.sndNxt, Add(Exact, s.sndUna, EffectiveWindow(s))) {
      var first := Segment(s.sndNxt, s.sndQueue[0], now, now, s.rtt.rto, 0, 0);
      var s1 := s.(sndQueue := s.sndQueue[1..], sndBuf := s.sndBuf + [first], sndNxt := s.sndNxt + 1);
      assert MoveToSendBuf(Exact, s, now) == MoveToSendBuf(Exact, s1, now);
      hide MoveToSendBuf, EffectiveWindow, Before;
      var k1 := MoveNumbers(s1, now);
      k := k1 + 1;
      assert s1.sndQueue[k1..] == s.sndQueue[k..];
      assert Numbered(s.sndNxt, s.sndQueue[..k], now, s.rtt.rto)
          == [first] + Numbered(s1.sndNxt, s1.sndQueue[..k1], now, s.rtt.rto);
    } else {
      k := 0;
      assert s.sndBuf + Numbered(s.sndNxt, [], now, s.rtt.rto) == s.sndBuf;
    }
  }

  /** What a flush does to the numbering: `k` fragments get numbers, and nothing leaves the buffer. */
  lemma FlushNumbers(s: State, now: u32) returns (k: nat)
    ensures k <= |s.sndQueue|
    ensures var r := Flush(Exact, s, now).0;
            && r.sndNxt == s.sndNxt + k && r.sndQueue == s.sndQueue[k..]
            && SameNumbers(BeforeScan(Exact, s, now).sndBuf, r.sndBuf)
            && (forall i :: 0 <= i < |r.sndBuf| ==> r.sndBuf[i].frag == BeforeScan(Exact, s, now).sndBuf[i].frag)
    ensures BeforeScan(Exact, s, now).sndBuf == s.sndBuf + Numbered(s.sndNxt, s.sndQueue[..k], now, s.rtt.rto)
  {
    var s1 := HandleWindowProbe(FlushAcks(s), now);
    k := MoveNumbers(s1, now);
    var s2 := MoveToSendBuf(Exact, s1, now);
    MarkKeepsNumbers(s2.cfg, s2.rtt.rto, s2.sndBuf, now);
    hide MoveToSendBuf, Marked, ToSend, ThroughDead, ProbeTimer, AckWires, ProbeWires, OutputAll, DataWires,
         CloseDatagram;
  }

  lemma BufferMatchesAfterFlush(s: State, hist: seq<Frag>, k: nat, now: u32)
    requires k <= |s.sndQueue| && |hist| == s.sndNxt && BufferMatches(s.sndBuf, hist)
    ensures BufferMatches(s.sndBuf + Numbered(s.sndNxt, s.sndQueue[..k], now, s.rtt.rto), hist + s.sndQueue[..k])
  {
  }

  lemma AckWiresTruthful(s: State, hist: seq<Frag>)
    requires AcksHeld(s) && 0 <= s.rcvNxt
    ensures AllTruthful(s, hist, AckWires(s))
  {
    hide Held;
  }

  lemma ProbeWiresTruthful(s: State, hist: seq<Frag>, now: u32)
    requires 0 <= s.rcvNxt
    ensures AllTruthful(s, hist, ProbeWires(s, now))
  {
    hide Held;
  }

  lemma DataWiresTruthful(s: State, hist: seq<Frag>, segs: seq<Segment>)
    requires 0 <= s.rcvNxt && BufferMatches(segs, hist)
    requires forall i :: 0 <= i < |segs| ==> |segs[i].frag.data| <= 65511
    ensures AllTruthful(s, hist, DataWires(s, segs))
  {
    hide Held;
  }

  /** Everything a flush transmits is true of the state it leaves. */
  lemma FlushIsTruthful(s: State, hist: seq<Frag>, now: u32, k: nat)
    requires k <= |s.sndQueue| && |hist| == s.sndNxt && 0 <= s.rcvNxt
    requires BufferMatches(s.sndBuf, hist) && AcksHeld(s) && SizesInv(s)
    requires BeforeScan(Exact, s, now).sndBuf == s.sndBuf + Numbered(s.sndNxt, s.sndQueue[..k], now, s.rtt.rto)
    ensures AllTruthful(Flush(Exact, s, now).0, hist + s.sndQueue[..k], FlushWires(Exact, s, now))
  {
    var hist1 := hist + s.sndQueue[..k];
    var s1 := s.(probe := ProbeTimer(s.probe, s.wnd.rmt, now));
    var s2 := BeforeScan(Exact, s, now);
    var sending := Sending(Exact, s, now);
    SendingMatches(s, hist, now, k);
    BeforeScanFrame(s, now);
    AckWiresTruthful(s, hist1);
    ProbeWiresTruthful(s1, hist1, now);
    DataWiresTruthful(s2, hist1, sending);
    var r := Flush(Exact, s, now).0;
    hide BeforeScan, Flush, Sending, AckWires, ProbeWires, DataWires, Truthful, BufferMatches, SizesInv, ProbeTimer;
    TruthLasts(s, hist1, r, hist1, AckWires(s));
    TruthLasts(s1, hist1, r, hist1, ProbeWires(s1, now));
    TruthLasts(s2, hist1, r, hist1, DataWires(s2, sending));
  }

  lemma SendingMatches(s: State, hist: seq<Frag>, now: u32, k: nat)
    requires k <= |s.sndQueue| && |hist| == s.sndNxt && BufferMatches(s.sndBuf, hist) && SizesInv(s)
    requires BeforeScan(Exact, s, now).sndBuf == s.sndBuf + Numbered(s.sndNxt, s.sndQueue[..k], now, s.rtt.rto)
    ensures var sending := Sending(Exact, s, now);
            && BufferMatches(sending, hist + s.sndQueue[..k])
            && forall i :: 0 <= i < |sending| ==> |sending[i].frag.data| <= 65511
  {
    hide BeforeScan, Sending, WellPacked;
    var hist1 := hist + s.sndQueue[..k];
    BufferMatchesAfterFlush(s, hist, k, now);
    SendingIsBuffered(Exact, s, now);
    var buf, sending := BeforeScan(Exact, s, now).sndBuf, Sending(Exact, s, now);
    assert BufferMatches(buf, hist1);
    assert forall i :: 0 <= i < |buf| ==> FitsSegment(buf[i].frag, Mss(s.cfg));
    hide SizesInv;
    forall i | 0 <= i < |sending|
      ensures 0 <= sending[i].sn < |hist1| && hist1[sending[i].sn] == sending[i].frag && |sending[i].frag.data| <= 65511
    {
      assert sending[i] in sending;
      var j :| 0 <= j < |buf| && sending[i].sn == buf[j].sn && sending[i].frag == buf[j].frag;
    }
  }

  lemma BeforeScanFrame(s: State, now: u32)
    ensures var r := BeforeScan(Exact, s, now);
            r.conv == s.conv && r.rcvNxt == s.rcvNxt && r.rcvBuf == s.rcvBuf && r.rcvQueue == s.rcvQueue
              && r.cfg == s.cfg
  {
    hide MoveToSendBuf, ProbeTimer, OutputAll;
  }

  lemma {:induction false} FlattenContains(queue: seq<seq<Wire>>, d: seq<Wire>, w: Wire)
    requires d in queue && w in d
    ensures w in Flatten(queue)
  {
    var init, last := queue[..|queue| - 1], queue[|queue| - 1];
    assert queue == init + [last];
    if d != last { FlattenContains(init, d, w); }
  }

  lemma DatagramsTruthful(s: State, hist: seq<Frag>, out: Output)
    requires AllTruthful(s, hist, Emitted(out))
    ensures forall d :: d in out.queue ==> AllTruthful(s, hist, d)
    ensures AllTruthful(s, hist, Emitted(out.(queue := [])))
  {
    hide Truthful;
    forall d | d in out.queue ensures AllTruthful(s, hist, d) {
      forall w | w in d ensures Truthful(s, hist, w) { FlattenContains(out.queue, d, w); }
    }
  }

  /** What of the engine the pair invariant reads, besides the send window. */
  ghost predicate SameReceiveSide(s: State, r: State) {
    r.conv == s.conv && r.cfg == s.cfg && r.rcvNxt == s.rcvNxt && r.rcvBuf == s.rcvBuf && r.rcvQueue == s.rcvQueue
  }

  lemma FlushedOutput(s: State, hist: seq<Frag>, now: u32, k: nat)
    requires k <= |s.sndQueue| && |hist| == s.sndNxt && 0 <= s.rcvNxt
    requires BufferMatches(s.sndBuf, hist) && AcksHeld(s) && SizesInv(s) && AllTruthful(s, hist, Emitted(s.out))
    requires BeforeScan(Exact, s, now).sndBuf == s.sndBuf + Numbered(s.sndNxt, s.sndQueue[..k], now, s.rtt.rto)
    ensures var e := Flush(Exact, s, now).0;
            AllTruthful(e, hist + s.sndQueue[..k], Emitted(e.out))
  {
    var e, hist1 := Flush(Exact, s, now).0, hist + s.sndQueue[..k];
    FlushEmits(Exact, s, now);
    FlushIsTruthful(s, hist, now, k);
    hide Flush, BeforeScan, SizesInv, BufferMatches, Truthful, Emitted, FlushWires;
    TruthLasts(s, hist, e, hist1, Emitted(s.out));
  }

  /** The fragments a flush numbers follow, in the buffer, those that were there. */
  ghost predicate Extends(s: State, r: State, k: nat) {
    && |r.sndBuf| == |s.sndBuf| + k && r.sndNxt == s.sndNxt + k
    && (forall i :: 0 <= i < |r.sndBuf| ==>
          r.sndBuf[i].sn == if i < |s.sndBuf| then s.sndBuf[i].sn else s.sndNxt + i - |s.sndBuf|)
  }

  lemma FlushedBuffer(s: State, hist: seq<Frag>, now: u32) returns (k: nat)
    requires |hist| == s.sndNxt && BufferMatches(s.sndBuf, hist)
    ensures k <= |s.sndQueue|
    ensures BeforeScan(Exact, s, now).sndBuf == s.sndBuf + Numbered(s.sndNxt, s.sndQueue[..k], now, s.rtt.rto)
    ensures var e := Flush(Exact, s, now).0;
            Extends(s, e, k) && e.sndQueue == s.sndQueue[k..] && BufferMatches(e.sndBuf, hist + s.sndQueue[..k])
  {
    k := FlushNumbers(s, now);
    BufferMatchesAfterFlush(s, hist, k, now);
    var b := BeforeScan(Exact, s, now).sndBuf;
    hide Flush, BeforeScan;
    var e, hist1 := Flush(Exact, s, now).0, hist + s.sndQueue[..k];
    forall i | 0 <= i < |e.sndBuf|
      ensures e.sndBuf[i].sn == if i < |s.sndBuf| then s.sndBuf[i].sn else s.sndNxt + i - |s.sndBuf|
      ensures 0 <= e.sndBuf[i].sn < |hist1| && hist1[e.sndBuf[i].sn] == e.sndBuf[i].frag
    {
      assert e.sndBuf[i].sn == b[i].sn && e.sndBuf[i].frag == b[i].frag;
    }
  }

  /** The engine after a flush that numbered `k` fragments. */
  lemma FlushedEngine(s: State, hist: seq<Frag>, now: u32) returns (k: nat)
    requires SendInv(Exact, s) && SizesInv(s) && 0 <= s.rcvNxt && |hist| == s.sndNxt
    requires BufferMatches(s.sndBuf, hist) && AcksHeld(s) && AllTruthful(s, hist, Emitted(s.out))
    ensures k <= |s.sndQueue|
    ensures var (e, hist1) := (Flush(Exact, s, now).0, hist + s.sndQueue[..k]);
            && SendInv(Exact, e) && SizesInv(e) && e.sndUna == s.sndUna
            && Extends(s, e, k) && e.sndQueue == s.sndQueue[k..]
            && BufferMatches(e.sndBuf, hist1)
            && AllTruthful(e, hist1, Emitted(e.out))
  {
    hide Flush, BeforeScan, SendInv, SizesInv, Truthful, Emitted, AcksHeld, Extends, BufferMatches, AllTruthful;
    k := FlushedBuffer(s, hist, now);
    FlushKeepsSendInv(Exact, s, now);
    FlushKeepsSizes(Exact, s, now);
    FlushedOutput(s, hist, now, k);
  }

  lemma FlushKeepsNode(n: Node, now: u32)
    requires NodeInv(n)
    ensures NodeInv(NodeFlush(n, now))
    ensures NodeFlush(n, now).hist + NodeFlush(n, now).eng.sndQueue == n.hist + n.eng.sndQueue
    ensures n.hist <= NodeFlush(n, now).hist
  {
    hide Flush, SendInv, RecvInv, SizesInv, Truthful, Emitted, UnitsInv;
    var s, e, r := n.eng, Flush(Exact, n.eng, now).0, NodeFlush(n, now);
    var k := FlushedEngine(s, n.hist, now);
    assert r.hist == n.hist + s.sndQueue[..k];
    assert r.hist + r.eng.sndQueue == n.hist + s.sndQueue;
    DatagramsTruthful(e, r.hist, e.out);
    DrainedNode(n, e, r);
  }

  /** The node after a flush, from what the engine had before handing its datagrams over. */
  lemma DrainedNode(n: Node, e: State, r: Node)
    requires NodeInv(n) && r.eng == Drain(e) && r.net == n.net + e.out.queue
    requires r.accepted == n.accepted && r.queued == n.queued
    requires SendInv(Exact, e) && SizesInv(e) && SameReceiveSide(n.eng, e) && e.ackList == []
    requires 0 <= e.sndUna && |r.hist| == e.sndNxt && BufferMatches(e.sndBuf, r.hist)
    requires n.hist <= r.hist && r.hist + e.sndQueue == n.hist + n.eng.sndQueue
    requires forall d :: d in e.out.queue ==> AllTruthful(e, r.hist, d)
    requires AllTruthful(e, r.hist, Emitted(e.out.(queue := [])))
    ensures NodeInv(r)
  {
    assert SendInv(Exact, r.eng);
    RecvInvFrame(Exact, n.eng, r.eng);
    assert SizesInv(r.eng);
    assert Units(r) == Units(n);
    hide SendInv, RecvInv, SizesInv, Truthful, Emitted, Join, Singles, FragmentEach, GoodUnit;
    assert Grows(n.eng, n.hist, r.eng, r.hist) && Grows(e, r.hist, r.eng, r.hist);
    TruthLasts(e, r.hist, r.eng, r.hist, Emitted(r.eng.out));
    forall d | d in r.net ensures AllTruthful(r.eng, r.hist, d) {
      if d in n.net { TruthLasts(n.eng, n.hist, r.eng, r.hist, d); }
      else { TruthLasts(e, r.hist, r.eng, r.hist, d); }
    }
  }

  /** Numbers given out by a flush are in the buffer, and those that were there still are. */
  lemma FlushLosesNothing(s: State, r: State, k: nat, peer: State)
    requires NoLoss(s, peer) && Extends(s, r, k)
    ensures NoLoss(r, peer)
  {
    forall sn | 0 <= sn < r.sndNxt && !Buffered(r.sndBuf, sn) ensures Held(peer, sn) {
      if sn >= s.sndNxt || Buffered(s.sndBuf, sn) { StillBuffered(s, r, k, sn); }
    }
  }

  lemma StillBuffered(s: State, r: State, k: nat, sn: int)
    requires Extends(s, r, k)
    requires Buffered(s.sndBuf, sn) || s.sndNxt <= sn < s.sndNxt + k
    ensures Buffered(r.sndBuf, sn)
  {
    if Buffered(s.sndBuf, sn) {
      var i :| 0 <= i < |s.sndBuf| && s.sndBuf[i].sn == sn;
      assert r.sndBuf[i].sn == sn;
    } else {
      var i := |s.sndBuf| + sn - s.sndNxt;
      assert r.sndBuf[i].sn == sn;
    }
  }

  lemma FlushKeepsPairs(x: Node, y: Node, now: u32)
    requires NodeInv(x) && PairInv(x, y) && PairInv(y, x)
    ensures PairInv(NodeFlush(x, now), y) && PairInv(y, NodeFlush(x, now))
  {
    hide NodeInv, Flush, Truthful, Emitted, Units, Join, NoLoss, Extends, ReceivesFrom, Delivers, Clamp;
    FlushKeepsNode(x, now);
    var k := FlushExtends(x, now);
    FlushLosesNothing(x.eng, NodeFlush(x, now).eng, k, y.eng);
    FlushSameUnits(x, now);
    SenderAdvanced(x, NodeFlush(x, now), y);
    ReceiverSame(y, x, NodeFlush(x, now));
  }

  lemma FlushExtends(n: Node, now: u32) returns (k: nat)
    requires NodeInv(n)
    ensures Extends(n.eng, NodeFlush(n, now).eng, k)
  {
    hide Flush;
    k := FlushedBuffer(n.eng, n.hist, now);
  }

  lemma FlushSameUnits(n: Node, now: u32)
    requires NodeInv(n)
    ensures Units(NodeFlush(n, now)) == Units(n)
  {
    hide NodeInv, Flush;
    FlushKeepsNode(n, now);
  }

  lemma SenderAdvanced(x: Node, r: Node, y: Node)
    requires PairInv(x, y) && NoLoss(r.eng, y.eng)
    requires x.hist <= r.hist && r.eng.conv == x.eng.conv
    requires |Units(x)| <= |Units(r)| && forall i :: 0 <= i < |y.delivered| ==> Units(r)[i] == Units(x)[i]
    ensures PairInv(r, y)
  {
    hide NoLoss, Units, Held, Join;
    assert Units(r)[..|y.delivered|] == Units(x)[..|y.delivered|];
  }

  lemma ReceiverSame(x: Node, y: Node, r: Node)
    requires PairInv(x, y) && SameReceiveSide(y.eng, r.eng) && r.delivered == y.delivered
    ensures PairInv(x, r)
  {
    hide Units, Join;
  }

  // ---- Send ----

  lemma {:induction false} JoinSingles(frags: seq<Frag>)
    ensures Join(Singles(frags)) == frags
  {
    if frags != [] {
      var init := frags[..|frags| - 1];
      assert Singles(frags)[..|frags| - 1] == Singles(init);
      JoinSingles(init);
    }
  }

  lemma SingleIsUnit(f: Frag, cfg: Config)
    requires f.frg == 0 && FitsSegment(f, Mss(cfg))
    ensures GoodUnit([f], cfg)
  {
    assert [f][1..] == [];
    assert DataOf([f]) == f.data + DataOf([f][1..]);
  }

  lemma MessageIsShort(len: nat, cfg: Config)
    requires FragmentCount(len, Mss(cfg)) <= MaxFragments(cfg)
    ensures len <= 128 * 65511
  {
    var mss, max := Mss(cfg), MaxFragments(cfg);
    CountBound(len, mss, max);
    TimesMonotone(max, 128, mss);
    hide FragmentCount;
  }

  lemma MessageIsUnit(data: Bytes, cfg: Config)
    requires data != [] && FragmentCount(|data|, Mss(cfg)) <= MaxFragments(cfg)
    ensures GoodUnit(Fragment(data, Mss(cfg), false), cfg) && DataOf(Fragment(data, Mss(cfg), false)) == data
  {
    assert MaxFragments(cfg) <= 128;
    hide Fragment, FragmentCount, Mss, DataOf, Countdown, MaxFragments;
    MessageIsShort(|data|, cfg);
    FragmentShape(data, Mss(cfg), false);
    FragmentCountsDown(data, Mss(cfg));
  }

  lemma SendKeepsUnits(n: Node, msg: Bytes)
    requires UnitsInv(n) && SizesInv(n.eng)
    ensures UnitsInv(NodeSend(n, msg))
    ensures |Units(n)| <= |Units(NodeSend(n, msg))|
    ensures forall i :: 0 <= i < |Units(n)| && (n.eng.cfg.streamMode ==> i < |n.hist|) ==>
            Units(NodeSend(n, msg))[i] == Units(n)[i]
  {
    hide SizesInv, GoodUnit, MergeLength, MergeIntoLast, Join, Units, DataOf, Fragment, FragmentCount;
    var s, r := n.eng, NodeSend(n, msg);
    SendAppends(s, msg);
    DataOfAppend(n.hist, s.sndQueue);
    DataOfAppend(n.hist, r.eng.sndQueue);
    assert DataOf(n.hist) + (DataOf(s.sndQueue) + Queued(s, msg)) == n.queued + Queued(s, msg);
    if s.cfg.streamMode { StreamSendUnits(n, msg); } else { MessageSendUnits(n, msg); }
    hide Send;
  }

  lemma JoinOne(g: seq<Frag>)
    ensures Join([g]) == g
  {
    assert [g][..0] == [];
  }

  lemma MessageSendUnits(n: Node, msg: Bytes)
    requires UnitsInv(n) && !n.eng.cfg.streamMode
    ensures var r := NodeSend(n, msg);
            && r.hist + r.eng.sndQueue == Join(Units(r))
            && (forall i :: 0 <= i < |Units(r)| ==> GoodUnit(Units(r)[i], r.eng.cfg))
            && Units(n) <= Units(r)
  {
    var s, r := n.eng, NodeSend(n, msg);
    assert MergeLength(s, msg) == 0 && msg[..0] == [] && msg[0..] == msg && MergeIntoLast(s.sndQueue, []) == s.sndQueue;
    hide Fragment, FragmentCount, GoodUnit, Join, DataOf, MergeLength, MergeIntoLast, MaxFragments;
    if Send(s, msg).1 && msg != [] {
      var unit := Fragment(msg, Mss(s.cfg), false);
      MessageIsUnit(msg, s.cfg);
      assert r.eng.sndQueue == s.sndQueue + unit;
      OneMoreUnit(n, r, msg, unit);
    } else {
      assert r.eng == s && r.accepted == n.accepted;
    }
  }

  lemma OneMoreUnit(n: Node, r: Node, msg: Bytes, unit: seq<Frag>)
    requires UnitsInv(n) && !n.eng.cfg.streamMode && unit == Fragment(msg, Mss(n.eng.cfg), false)
    requires r.eng.cfg == n.eng.cfg && r.hist == n.hist && r.accepted == n.accepted + [msg]
    requires r.eng.sndQueue == n.eng.sndQueue + unit && GoodUnit(unit, n.eng.cfg)
    ensures r.hist + r.eng.sndQueue == Join(Units(r))
    ensures forall i :: 0 <= i < |Units(r)| ==> GoodUnit(Units(r)[i], r.eng.cfg)
    ensures Units(n) <= Units(r)
  {
    hide Fragment, GoodUnit, Join, DataOf, Mss;
    assert Units(r) == Units(n) + [unit];
    hide Units;
    JoinAppend(Units(n), [unit]);
    JoinOne(unit);
    assert n.hist + (n.eng.sndQueue + unit) == (n.hist + n.eng.sndQueue) + unit;
  }

  lemma StreamSendUnits(n: Node, msg: Bytes)
    requires UnitsInv(n) && SizesInv(n.eng) && n.eng.cfg.streamMode
    ensures var r := NodeSend(n, msg);
            && r.hist + r.eng.sndQueue == Join(Units(r))
            && (forall i :: 0 <= i < |Units(r)| ==> GoodUnit(Units(r)[i], r.eng.cfg))
            && |Units(n)| <= |Units(r)|
            && forall i :: 0 <= i < |n.hist| ==> Units(r)[i] == Units(n)[i]
  {
    hide Send, GoodUnit, SizesInv, Join, MergeLength;
    var s, r := n.eng, NodeSend(n, msg);
    var all := r.hist + r.eng.sndQueue;
    JoinSingles(all);
    SendKeepsSizes(s, msg);
    StreamSendIsUnnumbered(n, msg);
    forall i | 0 <= i < |all| ensures GoodUnit([all[i]], s.cfg) {
      if i < |n.hist| {
        assert GoodUnit(Units(n)[i], s.cfg);
      } else {
        assert all[i] == r.eng.sndQueue[i - |n.hist|];
        QueuedFits(r.eng, i - |n.hist|);
        SingleIsUnit(all[i], s.cfg);
      }
    }
  }

  lemma QueuedFits(s: State, i: nat)
    requires SizesInv(s) && i < |s.sndQueue|
    ensures FitsSegment(s.sndQueue[i], Mss(s.cfg))
  {
  }

  /** In stream mode every queued fragment ends a message, before and after a `send`. */
  lemma StreamSendIsUnnumbered(n: Node, msg: Bytes)
    requires UnitsInv(n) && n.eng.cfg.streamMode
    ensures var q := Send(n.eng, msg).0.sndQueue;
            |q| >= |n.eng.sndQueue| && forall i :: 0 <= i < |q| ==> q[i].frg == 0
  {
    var s := n.eng;
    forall i | 0 <= i < |s.sndQueue| ensures s.sndQueue[i].frg == 0 {
      var j := |n.hist| + i;
      assert (n.hist + s.sndQueue)[j] == s.sndQueue[i];
      assert GoodUnit(Units(n)[j], s.cfg);
    }
    var k := MergeLength(s, msg);
    if msg[k..] != [] { FragmentShape(msg[k..], Mss(s.cfg), true); }
    hide Fragment, FragmentCount, UnitsInv, MergeLength;
  }

  /** Histories and claims survive a change that touches neither the receive side's claims nor the history. */
  lemma ClaimsLast(n: Node, r: Node)
    requires Grows(n.eng, n.hist, r.eng, r.hist) && r.net == n.net && r.eng.out == n.eng.out
    requires AllTruthful(n.eng, n.hist, Emitted(n.eng.out))
    requires forall d :: d in n.net ==> AllTruthful(n.eng, n.hist, d)
    ensures AllTruthful(r.eng, r.hist, Emitted(r.eng.out))
    ensures forall d :: d in r.net ==> AllTruthful(r.eng, r.hist, d)
  {
    hide Truthful, Emitted, Grows, AllTruthful;
    TruthLasts(n.eng, n.hist, r.eng, r.hist, Emitted(n.eng.out));
    forall d | d in r.net ensures AllTruthful(r.eng, r.hist, d) {
      TruthLasts(n.eng, n.hist, r.eng, r.hist, d);
    }
  }

  lemma SendKeepsNode(n: Node, msg: Bytes)
    requires NodeInv(n)
    ensures NodeInv(NodeSend(n, msg))
  {
    hide Send, Truthful, Emitted, UnitsInv, MergeLength, SizesInv;
    var r := NodeSend(n, msg);
    SendKeepsUnits(n, msg);
    SendKeepsSizes(n.eng, msg);
    assert Grows(n.eng, n.hist, r.eng, r.hist);
    ClaimsLast(n, r);
    RecvInvFrame(Exact, n.eng, r.eng);
    hide RecvInv, Ascending;
  }

  lemma SendKeepsPairs(x: Node, y: Node, msg: Bytes)
    requires NodeInv(x) && PairInv(x, y) && PairInv(y, x)
    ensures PairInv(NodeSend(x, msg), y) && PairInv(y, NodeSend(x, msg))
  {
    hide Send, UnitsInv, SizesInv, SendInv, RecvInv, Truthful, Emitted, Held, Buffered, Join, MergeLength;
    var r := NodeSend(x, msg);
    SendKeepsUnits(x, msg);
    if x.eng.cfg.streamMode { DeliveredIsNumbered(x, y); }
    SenderAdvanced(x, r, y);
    ReceiverSame(y, x, r);
  }

  lemma {:induction false} JoinOfSinglesLength(frags: seq<Frag>, k: nat)
    requires k <= |frags|
    ensures |Join(Singles(frags)[..k])| == k
  {
    assert Singles(frags)[..k] == Singles(frags[..k]);
    JoinSingles(frags[..k]);
  }

  /** In stream mode every delivered segment has a number already. */
  lemma DeliveredIsNumbered(x: Node, y: Node)
    requires Delivers(x, y) && x.eng.cfg.streamMode
    ensures |y.delivered| <= |x.hist|
  {
    JoinOfSinglesLength(x.hist + x.eng.sndQueue, |y.delivered|);
  }

  // ---- Recv ----

  lemma JoinAround(a: seq<seq<Frag>>, g: seq<Frag>, b: seq<seq<Frag>>)
    ensures Join(a + [g]) == Join(a) + g
    ensures Join((a + [g]) + b) == Join(a) + (g + Join(b))
  {
    hide Join;
    JoinAppend(a, [g]);
    JoinOne(g);
    JoinAppend(a + [g], b);
  }

  /** The unit at a position of the joined units, and what follows it. */
  lemma UnitAt(units: seq<seq<Frag>>, k: nat) returns (rest: seq<Frag>)
    requires k < |units|
    ensures Join(units) == Join(units[..k]) + (units[k] + rest)
    ensures Join(units[..k + 1]) == Join(units[..k]) + units[k]
  {
    hide Join;
    var a, b := units[..k], units[k + 1..];
    assert units[..k + 1] == a + [units[k]];
    assert units == (a + [units[k]]) + b;
    JoinAround(a, units[k], b);
    rest := Join(b);
  }

  /** What `recv` does to a queue that is a stretch of well-formed units: it returns the first unit
      if it is complete, and otherwise nothing. */
  lemma TakeUnit(queue: seq<Frag>, g: seq<Frag>, rest: seq<Frag>)
    requires Countdown(g) && |DataOf(g)| < HALF && queue != [] && queue <= g + rest
    ensures |queue| >= |g| ==>
            PeekSize(queue) == |DataOf(g)| > 0 && TakeMessage(queue, PeekSize(queue)) == (DataOf(g), queue[|g|..])
    ensures |queue| < |g| ==> PeekSize(queue) == -1
  {
    assert queue[0] == (g + rest)[0] == g[0];
    if |queue| >= |g| {
      assert queue == g + queue[|g|..];
      HeadMessage(g, queue[|g|..]);
    }
  }

  /** The head of a non-empty receive queue is a prefix of the next undelivered unit. */
  lemma QueueHead(x: Node, y: Node) returns (g: seq<Frag>, rest: seq<Frag>)
    requires NodeInv(x) && PairInv(x, y) && y.eng.rcvQueue != []
    ensures |y.delivered| < |Units(x)| && g == Units(x)[|y.delivered|] && GoodUnit(g, x.eng.cfg)
    ensures y.eng.rcvQueue <= g + rest
    ensures |Join(Units(x)[..|y.delivered| + 1])| == |Join(Units(x)[..|y.delivered|])| + |g|
    ensures |y.eng.rcvQueue| + |Join(Units(x)[..|y.delivered|])| <= |x.hist|
  {
    hide Units, GoodUnit, SendInv, RecvInv, SizesInv, Truthful, Join, NoLoss, ReceivesFrom;
    var units, k := Units(x), |y.delivered|;
    var base := |Join(units[..k])|;
    var all := x.hist + x.eng.sndQueue;
    assert units[..|units|] == units;
    assert k < |units|;
    g := units[k];
    rest := UnitAt(units, k);
    assert all == Join(units[..k]) + (g + rest);
    assert all[base..] == g + rest;
    assert y.eng.rcvQueue == all[base..y.eng.rcvNxt];
  }

  lemma RecvKeepsNode(n: Node, hist: seq<Frag>, base: int)
    requires NodeInv(n) && ReceivesFrom(n.eng, hist) && QueueIs(n.eng, hist, base)
    ensures NodeInv(NodeRecv(n))
    ensures Grows(n.eng, hist, NodeRecv(n).eng, hist)
  {
    hide Recv, Truthful, Emitted, Held, SendInv, RecvInv, SizesInv, UnitsInv, AllTruthful, BufferMatches, Units;
    var r := NodeRecv(n);
    RecvFrame(n.eng);
    RecvKeepsRecvInv(Exact, n.eng);
    RecvGrows(n.eng, hist, base);
    NextIsPositive(r.eng, hist);
    UnitsInvFrame(n, r);
    SendInvFrame(n.eng, r.eng);
    assert Grows(n.eng, n.hist, r.eng, r.hist);
    ClaimsLast(n, r);
  }

  lemma RecvFrame(s: State)
    ensures var r := Recv(Exact, s).0;
            r == s.(rcvNxt := r.rcvNxt, rcvQueue := r.rcvQueue, rcvBuf := r.rcvBuf, probe := r.probe)
  {
    hide PeekSize, TakeMessage;
  }

  lemma SendInvFrame(s: State, r: State)
    requires SendInv(Exact, s) && SizesInv(s)
    requires r.cfg == s.cfg && r.sndUna == s.sndUna && r.sndNxt == s.sndNxt && r.sndBuf == s.sndBuf
    requires r.sndQueue == s.sndQueue && r.out == s.out
    ensures SendInv(Exact, r) && SizesInv(r)
  {
  }

  /** `recv` keeps every held segment, and what it leaves in the queue is the rest of the history. */
  lemma RecvGrows(s: State, hist: seq<Frag>, base: int)
    requires ReceivesFrom(s, hist) && QueueIs(s, hist, base)
    ensures var r := Recv(Exact, s).0;
            Grows(s, hist, r, hist) && ReceivesFrom(r, hist)
    ensures var (data, rest) := TakeMessage(s.rcvQueue, PeekSize(s.rcvQueue));
            PeekSize(s.rcvQueue) > 0 ==> QueueIs(Recv(Exact, s).0, hist, base + |s.rcvQueue| - |rest|)
  {
    hide PeekSize, TakeMessage, MoveToRecvQueue;
    var (data, rest) := TakeMessage(s.rcvQueue, PeekSize(s.rcvQueue));
    var base1 := base + |s.rcvQueue| - |rest|;
    var s1 := s.(rcvQueue := rest);
    if PeekSize(s.rcvQueue) > 0 {
      assert rest == hist[base1..s.rcvNxt];
      MoveReceives(s1, hist, base1);
      assert Grows(s, hist, s1, hist);
    }
  }

  lemma RecvReturns(s: State, data: Bytes, rest: seq<Frag>)
    requires PeekSize(s.rcvQueue) > 0 && TakeMessage(s.rcvQueue, PeekSize(s.rcvQueue)) == (data, rest) && data != []
    ensures Recv(Exact, s).1 == Some(data)
  {
    hide PeekSize, TakeMessage, MoveToRecvQueue;
  }

  lemma RecvWaits(s: State)
    requires PeekSize(s.rcvQueue) <= 0
    ensures Recv(Exact, s) == (s, None)
  {
  }

  /** With a complete unit at the head, `recv` returns it and the queue goes on after it. */
  lemma RecvDeliversUnit(x: Node, y: Node, g: seq<Frag>, rest: seq<Frag>)
    requires NodeInv(x) && PairInv(x, y) && y.eng.rcvQueue != []
    requires |y.delivered| < |Units(x)| && g == Units(x)[|y.delivered|] && Countdown(g) && |DataOf(g)| < HALF
    requires y.eng.rcvQueue <= g + rest && |y.eng.rcvQueue| >= |g|
    requires |Join(Units(x)[..|y.delivered| + 1])| == |Join(Units(x)[..|y.delivered|])| + |g|
    ensures NodeRecv(y).delivered == y.delivered + [DataOf(g)]
    ensures Delivers(x, NodeRecv(y)) && ReceivesFrom(NodeRecv(y).eng, x.hist)
  {
    hide NodeInv, NoLoss, Units, PeekSize, TakeMessage, Join, DataOf, Countdown, Recv;
    RecvGrows(y.eng, x.hist, |Join(Units(x)[..|y.delivered|])|);
    TakeUnit(y.eng.rcvQueue, g, rest);
    assert DataOf(g) != [];
    RecvReturns(y.eng, DataOf(g), y.eng.rcvQueue[|g|..]);
    hide ReceivesFrom;
  }

  /** `recv` hands over the next unit once it is complete, and otherwise nothing. */
  lemma RecvDelivers(x: Node, y: Node)
    requires NodeInv(x) && PairInv(x, y)
    ensures Delivers(x, NodeRecv(y)) && ReceivesFrom(NodeRecv(y).eng, x.hist)
  {
    hide NodeInv, NoLoss, Units, TakeMessage, Join, DataOf, ReceivesFrom, QueueIs, Recv, HeadLength;
    if y.eng.rcvQueue == [] {
      RecvWaits(y.eng);
    } else {
      var g, rest := QueueHead(x, y);
      if |y.eng.rcvQueue| >= |g| {
        RecvDeliversUnit(x, y, g, rest);
      } else {
        TakeUnit(y.eng.rcvQueue, g, rest);
        RecvWaits(y.eng);
      }
    }
  }

  lemma RecvKeepsPairs(x: Node, y: Node)
    requires NodeInv(x) && NodeInv(y) && PairInv(x, y) && PairInv(y, x)
    ensures PairInv(x, NodeRecv(y)) && PairInv(NodeRecv(y), x)
  {
    RecvDelivers(x, y);
    RecvKeepsNode(y, x.hist, |Join(Units(x)[..|y.delivered|])|);
    RecvFrame(y.eng);
    var r := NodeRecv(y);
    assert Units(r) == Units(y);
    hide NodeInv, Recv, Units, Join, Held, Buffered, ReceivesFrom, QueueIs;
    assert NoLoss(x.eng, r.eng);
    assert NoLoss(r.eng, x.eng);
    SenderAdvanced(y, r, x);
  }

  // ---- Input ----

  lemma BufferMatchesAfterInput(s: State, hist: seq<Frag>, ws: seq<Wire>, now: u32)
    requires BufferMatches(s.sndBuf, hist)
    ensures BufferMatches(Input(Exact, s, ws, now).sndBuf, hist)
  {
    hide Input;
    InputSurvivors(Exact, s, ws, now);
    var r := Input(Exact, s, ws, now);
    forall i | 0 <= i < |r.sndBuf|
      ensures 0 <= r.sndBuf[i].sn < |hist| && hist[r.sndBuf[i].sn] == r.sndBuf[i].frag
    {
      assert SurvivorOf(r.sndBuf[i], s.sndBuf);
      var j :| 0 <= j < |s.sndBuf| && SameContent(r.sndBuf[i], s.sndBuf[j]);
    }
  }

  lemma InputKeepsWindows(s: State, peer: State, hist: seq<Frag>, ws: seq<Wire>, now: u32)
    requires SendInv(Exact, s) && RecvInv(Exact, s) && SizesInv(s) && 0 <= s.sndUna && AllTruthful(peer, hist, ws)
    ensures var r := Input(Exact, s, ws, now);
            SendInv(Exact, r) && RecvInv(Exact, r) && SizesInv(r) && 0 <= r.sndUna && r.sndNxt == s.sndNxt
  {
    hide Input, SendInv, RecvInv, SizesInv;
    InputKeepsSendInv(Exact, s, ws, now);
    forall i | 0 <= i < |ws| ensures Arrives(Exact, ws[i]) {
      assert Truthful(peer, hist, ws[i]);
    }
    InputKeepsRecvInv(Exact, s, ws, now);
    InputKeepsSizes(Exact, s, ws, now);
  }

  lemma InputKeepsNode(x: Node, y: Node, d: seq<Wire>, now: u32, base: int)
    requires NodeInv(x) && AllTruthful(y.eng, y.hist, d) && NoLoss(x.eng, y.eng)
    requires ReceivesFrom(x.eng, y.hist) && QueueIs(x.eng, y.hist, base)
    ensures var r := NodeInput(x, d, now);
            && NodeInv(r) && NoLoss(r.eng, y.eng)
            && ReceivesFrom(r.eng, y.hist) && QueueIs(r.eng, y.hist, base) && Grows(x.eng, y.hist, r.eng, y.hist)
  {
    hide Input, Truthful, Emitted, UnitsInv, SendInv, RecvInv, SizesInv, Held, NoLoss, BufferMatches, ReceivesFrom,
         QueueIs;
    var r := NodeInput(x, d, now);
    InputIsSafe(x.eng, d, now, y.eng, y.hist, base);
    InputKeepsWindows(x.eng, y.eng, y.hist, d, now);
    BufferMatchesAfterInput(x.eng, x.hist, d, now);
    assert Grows(x.eng, x.hist, r.eng, r.hist);
    ClaimsLast(x, r);
    UnitsInvFrame(x, r);
    hide AllTruthful, Grows, AcksHeld;
    NextIsPositive(r.eng, y.hist);
  }

  lemma NextIsPositive(s: State, hist: seq<Frag>)
    requires ReceivesFrom(s, hist)
    ensures 0 <= s.rcvNxt
  {
  }

  lemma UnitsInvFrame(n: Node, r: Node)
    requires UnitsInv(n) && r.eng.cfg == n.eng.cfg && r.eng.sndQueue == n.eng.sndQueue
    requires r.hist == n.hist && r.accepted == n.accepted && r.queued == n.queued
    ensures UnitsInv(r) && Units(r) == Units(n)
  {
    assert Units(r) == Units(n);
  }

  lemma InputKeepsAll(x: Node, y: Node, d: seq<Wire>, now: u32)
    requires NodeInv(x) && PairInv(x, y) && PairInv(y, x) && AllTruthful(y.eng, y.hist, d)
    ensures var r := NodeInput(x, d, now);
            NodeInv(r) && PairInv(r, y) && PairInv(y, r)
  {
    var r, base := NodeInput(x, d, now), |Join(Units(y)[..|x.delivered|])|;
    hide Input, Truthful, AllTruthful, Held, Buffered, Units, Join, ReceivesFrom, QueueIs;
    InputKeepsNode(x, y, d, now, base);
    assert UnitsInv(x);
    hide NodeInv, UnitsInv;
    UnitsInvFrame(x, r);
    SenderAdvanced(x, r, y);
    assert NoLoss(y.eng, r.eng);
  }

  lemma BufferedIsUnacked(s: State, sn: int)
    requires SendInv(Exact, s) && Buffered(s.sndBuf, sn)
    ensures s.sndUna <= sn < s.sndNxt
  {
  }

  // ---- Every reachable state ----

  lemma ApplyIsSafe(sys: System, a: Action)
    requires SystemInv(sys)
    ensures SystemInv(Apply(sys, a))
  {
    hide NodeInv, PairInv, NodeSend, NodeRecv, NodeFlush, NodeInput;
    var x, y := At(sys, a.who), At(sys, Other(a.who));
    match a
    case Submit(who, msg) =>
      SendKeepsNode(x, msg);
      SendKeepsPairs(x, y, msg);
    case Read(who) =>
      RecvKeepsBoth(y, x);
    case Transmit(who, now) =>
      FlushKeepsNode(x, now);
      FlushKeepsPairs(x, y, now);
    case KeepAlive(who, now) =>
      AskingKeepsAll(x, y);
      var x1 := x.(eng := x.eng.(probe := x.eng.probe.(askSend := true)));
      FlushKeepsNode(x1, now);
      FlushKeepsPairs(x1, y, now);
    case Deliver(who, index, now) =>
      if index < |y.net| {
        NetIsTruthful(y, index);
        InputKeepsAll(x, y, y.net[index], now);
      }
  }

  lemma NetIsTruthful(n: Node, index: nat)
    requires NodeInv(n) && index < |n.net|
    ensures AllTruthful(n.eng, n.hist, n.net[index])
  {
    assert n.net[index] in n.net;
  }

  lemma RecvKeepsBoth(x: Node, y: Node)
    requires NodeInv(x) && NodeInv(y) && PairInv(x, y) && PairInv(y, x)
    ensures NodeInv(NodeRecv(y)) && PairInv(x, NodeRecv(y)) && PairInv(NodeRecv(y), x)
  {
    RecvKeepsNode(y, x.hist, |Join(Units(x)[..|y.delivered|])|);
    RecvKeepsPairs(x, y);
  }

  lemma AskingKeepsAll(x: Node, y: Node)
    requires NodeInv(x) && PairInv(x, y) && PairInv(y, x)
    ensures var x1 := x.(eng := x.eng.(probe := x.eng.probe.(askSend := true)));
            NodeInv(x1) && PairInv(x1, y) && PairInv(y, x1)
  {
    var x1 := x.(eng := x.eng.(probe := x.eng.probe.(askSend := true)));
    hide Truthful, Emitted, GoodUnit, Join, WellPacked, Ascending, FitsSegment, Units, Buffered, BufferMatches;
    assert Grows(x.eng, x.hist, x1.eng, x1.hist);
    ClaimsLast(x, x1);
    UnitsInvFrame(x, x1);
    RecvInvFrame(Exact, x.eng, x1.eng);
    SenderAdvanced(x, x1, y);
    ReceiverSame(y, x, x1);
  }

  lemma InitIsSafe(conv: u32, left: Config, right: Config)
    ensures SystemInv(InitSystem(conv, left, right))
  {
    InitNodeInv(conv, left);
    InitNodeInv(conv, right);
    hide NodeInv, Units;
    assert forall cfg :: Units(InitNode(conv, cfg))[..0] == [];
  }

  lemma InitNodeInv(conv: u32, cfg: Config)
    ensures NodeInv(InitNode(conv, cfg))
  {
    var n := InitNode(conv, cfg);
    assert Emitted(n.eng.out) == [];
    assert Units(n) == [];
  }

  lemma {:induction false} EveryRunIsSafe(conv: u32, left: Config, right: Config, actions: seq<Action>)
    ensures SystemInv(RunSystem(InitSystem(conv, left, right), actions))
    decreases |actions|
  {
    hide SystemInv;
    if actions == [] {
      InitIsSafe(conv, left, right);
    } else {
      EveryRunIsSafe(conv, left, right, actions[..|actions| - 1]);
      ApplyIsSafe(RunSystem(InitSystem(conv, left, right), actions[..|actions| - 1]), actions[|actions| - 1]);
    }
  }
}
