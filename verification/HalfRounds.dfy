/** Half a round: one side flushes and the other gets what that hands over. Between matched windows
    whatever the flush transmitted is then acknowledged, so nothing is transmitted twice. */
module HalfRounds {
  import opened Word
  import opened Protocol
  import opened EngineSpec
  import opened EngineRun
  import opened SendSide
  import opened Packing
  import opened Congestion
  import opened Deadlines
  import opened Network
  import opened NetworkSafety
  import opened Progress
  import opened WindowProbe

  // ---- Transmissions left ----

  /** Every segment can still be transmitted `k` times without the link being declared dead. */
  ghost predicate Spare(s: State, k: nat) {
    k < s.cfg.deadLink && forall i :: 0 <= i < |s.sndBuf| ==> s.sndBuf[i].xmit + k < s.cfg.deadLink
  }

  lemma MarkedOnceMore(cfg: Config, rto: u32, seg: Segment, now: u32)
    requires seg.xmit + 1 < M32
    ensures Marked(cfg, rto, seg, now).xmit <= seg.xmit + 1
  {
    hide TimeDiff, Backoff;
  }

  /** A flush then succeeds, and leaves one transmission less. */
  lemma SpareFlush(m: Arith, s: State, now: u32, k: nat)
    requires Spare(s, k) && k >= 1
    ensures Flush(m, s, now).1 && Spare(Flush(m, s, now).0, k - 1)
  {
    ScanStart(m, s, now);
    SucceedsUnlessDead(m, s, now);
    FlushFacts(m, s, now);
    var (b, r) := (BeforeScan(m, s, now), Flush(m, s, now).0);
    ToSendIsDue(b.cfg, b.rtt.rto, b.sndBuf, now);
    var sending := ToSend(b.cfg, b.rtt.rto, b.sndBuf, now);
    hide Flush, BeforeScan, ToSend, MarkOf, Marked;
    forall i | 0 <= i < |b.sndBuf| ensures Marked(b.cfg, b.rtt.rto, b.sndBuf[i], now).xmit + k - 1 < b.cfg.deadLink {
      if i < |s.sndBuf| { assert b.sndBuf[i] == s.sndBuf[i]; }
      MarkedOnceMore(b.cfg, b.rtt.rto, b.sndBuf[i], now);
    }
    forall i | 0 <= i < |sending| ensures sending[i].xmit < b.cfg.deadLink {
      assert sending[i] in sending;
    }
  }

  lemma SpareInput(s: State, ws: seq<Wire>, now: u32, k: nat)
    requires Spare(s, k)
    ensures Spare(Input(Exact, s, ws, now), k)
  {
    InputSurvivors(Exact, s, ws, now);
    var r := Input(Exact, s, ws, now);
    hide Input;
    forall i | 0 <= i < |r.sndBuf| ensures r.sndBuf[i].xmit + k < s.cfg.deadLink {
      assert SurvivorOf(r.sndBuf[i], s.sndBuf);
      var j :| 0 <= j < |s.sndBuf| && SameContent(r.sndBuf[i], s.sndBuf[j]);
      SameCount(r.sndBuf[i], s.sndBuf[j]);
    }
  }

  lemma SameCount(a: Segment, b: Segment)
    requires SameContent(a, b)
    ensures a.xmit == b.xmit && a.sn == b.sn
  {
    assert a.(fastack := 0).xmit == b.(fastack := 0).xmit && a.(fastack := 0).sn == b.(fastack := 0).sn;
  }

  lemma {:induction false} SpareInputs(n: Node, ds: seq<seq<Wire>>, now: u32, k: nat)
    requires Spare(n.eng, k)
    ensures Spare(NodeInputs(n, ds, now).eng, k)
    decreases |ds|
  {
    if ds != [] {
      SpareInput(n.eng, ds[0], now, k);
      hide Input, Spare;
      SpareInputs(NodeInput(n, ds[0], now), ds[1..], now, k);
    }
  }

  lemma SpareNodeFlush(n: Node, now: u32, k: nat)
    requires Spare(n.eng, k) && k >= 1
    ensures Flush(Exact, n.eng, now).1 && Spare(NodeFlush(n, now).eng, k - 1)
  {
    SpareFlush(Exact, n.eng, now, k);
    hide Flush;
  }

  // ---- The congestion window stays open ----

  lemma {:induction false} InputsKeepOpen(n: Node, ds: seq<seq<Wire>>, now: u32)
    requires n.eng.wnd.cwnd >= 1
    ensures var r := NodeInputs(n, ds, now);
            r.eng.wnd.cwnd >= 1 && r.eng.cfg == n.eng.cfg && r.delivered == n.delivered
    decreases |ds|
  {
    if ds != [] {
      StepKeepsWindowOpen(Exact, n.eng, DoInput(ds[0], now));
      hide Input;
      InputsKeepOpen(NodeInput(n, ds[0], now), ds[1..], now);
    }
  }

  lemma FlushKeepsOpen(n: Node, now: u32)
    requires n.eng.wnd.cwnd >= 1
    ensures var r := NodeFlush(n, now);
            r.eng.wnd.cwnd >= 1 && r.eng.cfg == n.eng.cfg && r.delivered == n.delivered
            && r.eng.rcvQueue == n.eng.rcvQueue
  {
    StepKeepsWindowOpen(Exact, n.eng, DoFlush(now));
    hide Flush;
  }

  // ---- What has been acknowledged, though the sender does not know yet ----

  ghost predicate Listed(acks: seq<Ack>, sn: int) {
    exists i :: 0 <= i < |acks| && acks[i].sn == sn
  }

  /** Every segment can be transmitted once more, or the peer has its acknowledgement ready. */
  ghost predicate Assured(s: State, acks: seq<Ack>) {
    1 < s.cfg.deadLink
    && forall i :: 0 <= i < |s.sndBuf| ==> s.sndBuf[i].xmit + 1 < s.cfg.deadLink || Listed(acks, s.sndBuf[i].sn)
  }

  // ---- The receiver lists what it gets ----

  lemma ListedLonger(acks: seq<Ack>, a: Ack, sn: int)
    requires Listed(acks, sn) || a.sn == sn
    ensures Listed(acks + [a], sn)
  {
    if a.sn == sn {
      assert (acks + [a])[|acks|].sn == sn;
    } else {
      var i :| 0 <= i < |acks| && acks[i].sn == sn;
      assert (acks + [a])[i].sn == sn;
    }
  }

  /** A number below the end of the receive window, and what is listed, stay so. */
  lemma SegmentLists(s: State, newest: Newest, w: Wire, now: u32, sn: int)
    requires sn < s.rcvNxt + s.cfg.rcvWnd && w.conv == s.conv
    ensures var r := InputSegment(Exact, s, newest, w, now).0;
            && sn < r.rcvNxt + r.cfg.rcvWnd
            && (Listed(s.ackList, sn) || (w.cmd == CMD_PUSH && w.sn == sn) ==> Listed(r.ackList, sn))
  {
    hide DropUna, UpdateAck, RemoveSn, InFlight, MoveToRecvQueue, Listed;
    var s1 := ParseUna(Exact, s.(wnd := s.wnd.(rmt := w.wnd)), w.una);
    var s2 := s1.(ackList := s1.ackList + [Ack(w.sn, w.ts)]);
    MoveGoesOn(Store(s2, w.sn, Frag(w.frg, w.data)));
    if Listed(s.ackList, sn) || w.sn == sn { ListedLonger(s.ackList, Ack(w.sn, w.ts), sn); }
  }

  lemma {:induction false} SegmentsList(s: State, newest: Newest, ws: seq<Wire>, now: u32, sn: int)
    requires sn < s.rcvNxt + s.cfg.rcvWnd && forall i :: 0 <= i < |ws| ==> ws[i].conv == s.conv
    ensures var r := InputSegments(Exact, s, newest, ws, now).0;
            && sn < r.rcvNxt + r.cfg.rcvWnd
            && (Listed(s.ackList, sn) || (exists w :: w in ws && w.cmd == CMD_PUSH && w.sn == sn)
                ==> Listed(r.ackList, sn))
    decreases |ws|
  {
    if ws != [] {
      SegmentLists(s, newest, ws[0], now, sn);
      var (s1, newest1) := InputSegment(Exact, s, newest, ws[0], now);
      hide InputSegment, Listed;
      SegmentsList(s1, newest1, ws[1..], now, sn);
      if w :| w in ws && w.cmd == CMD_PUSH && w.sn == sn {
        if w != ws[0] { assert w in ws[1..]; }
      }
    }
  }

  lemma InputLists(s: State, ws: seq<Wire>, now: u32, sn: int)
    requires sn < s.rcvNxt + s.cfg.rcvWnd && forall i :: 0 <= i < |ws| ==> ws[i].conv == s.conv
    ensures var r := Input(Exact, s, ws, now);
            && sn < r.rcvNxt + r.cfg.rcvWnd
            && (Listed(s.ackList, sn) || (exists w :: w in ws && w.cmd == CMD_PUSH && w.sn == sn)
                ==> Listed(r.ackList, sn))
  {
    SegmentsList(s, NoAck, ws, now, sn);
    hide InputSegments, BumpFastack, InFlight, UpdateCwnd, Listed;
  }

  ghost predicate Carried(ds: seq<seq<Wire>>, cmd: byte, sn: int) {
    exists d, w :: d in ds && w in d && w.cmd == cmd && w.sn == sn
  }

  lemma CarriedOn(ds: seq<seq<Wire>>, cmd: byte, sn: int)
    requires Carried(ds, cmd, sn)
    ensures ds != []
    ensures (exists w :: w in ds[0] && w.cmd == cmd && w.sn == sn) || Carried(ds[1..], cmd, sn)
  {
    var d, w :| d in ds && w in d && w.cmd == cmd && w.sn == sn;
    if d != ds[0] { assert d in ds[1..]; }
  }

  /** A data segment among datagrams delivered in turn, not beyond the window, is listed at the end. */
  lemma {:induction false} InputsList(x: Node, y: Node, ds: seq<seq<Wire>>, now: u32, sn: int)
    requires sn < y.eng.rcvNxt + y.eng.cfg.rcvWnd && x.eng.conv == y.eng.conv
    requires forall d :: d in ds ==> AllTruthful(x.eng, x.hist, d)
    ensures Listed(y.eng.ackList, sn) || Carried(ds, CMD_PUSH, sn) ==> Listed(NodeInputs(y, ds, now).eng.ackList, sn)
    decreases |ds|
  {
    if ds != [] {
      assert AllTruthful(x.eng, x.hist, ds[0]);
      ConvOf(x, y.eng.conv, ds[0]);
      InputLists(y.eng, ds[0], now, sn);
      hide Input, Listed, AllTruthful, Carried;
      if Carried(ds, CMD_PUSH, sn) { CarriedOn(ds, CMD_PUSH, sn); }
      InputsList(x, NodeInput(y, ds[0], now), ds[1..], now, sn);
    } else {
      assert !Carried(ds, CMD_PUSH, sn);
    }
  }

  // ---- The sender drops what is listed ----

  lemma RemovedIsGone(s: State, buf: seq<Segment>, sn: int)
    requires Ascending(Exact, buf, s.sndUna, s.sndNxt)
    ensures !Buffered(if InFlight(Exact, s, sn) then RemoveSn(buf, sn) else buf, sn)
  {
    var j := RemoveSnAt(buf, sn);
    hide RemoveSn;
  }

  /** An acknowledgement takes its number out of the send buffer. */
  lemma AckClears(s: State, newest: Newest, w: Wire, now: u32)
    requires SendCore(Exact, s) && w.conv == s.conv && w.cmd == CMD_ACK
    ensures !Buffered(InputSegment(Exact, s, newest, w, now).0.sndBuf, w.sn)
  {
    var k := DropUnaPops(Exact, s.sndBuf, w.una);
    AscendingSuffix(Exact, s.sndBuf, k, s.sndUna, s.sndNxt);
    RemovedIsGone(s, s.sndBuf[k..], w.sn);
    hide UpdateAck, DropUna, RemoveSn, Ascending, TrackNewest, Buffered, Before;
  }

  lemma SurvivorsWereThere(buf: seq<Segment>, r: seq<Segment>, sn: int)
    requires Survivors(r, buf)
    ensures Buffered(r, sn) ==> Buffered(buf, sn)
  {
    if Buffered(r, sn) {
      var i :| 0 <= i < |r| && r[i].sn == sn;
      assert SurvivorOf(r[i], buf);
      var j :| 0 <= j < |buf| && SameContent(r[i], buf[j]);
      SameCount(r[i], buf[j]);
      assert buf[j].sn == sn;
    }
  }

  lemma {:induction false} SegmentsClear(s: State, newest: Newest, ws: seq<Wire>, now: u32, sn: int)
    requires SendCore(Exact, s) && forall i :: 0 <= i < |ws| ==> ws[i].conv == s.conv
    requires !Buffered(s.sndBuf, sn) || exists w :: w in ws && w.cmd == CMD_ACK && w.sn == sn
    ensures !Buffered(InputSegments(Exact, s, newest, ws, now).0.sndBuf, sn)
    decreases |ws|
  {
    if ws != [] {
      var (s1, newest1) := InputSegment(Exact, s, newest, ws[0], now);
      SegmentKeepsSendCore(Exact, s, newest, ws[0], now);
      SegmentSurvivors(Exact, s, newest, ws[0], now);
      SurvivorsWereThere(s.sndBuf, s1.sndBuf, sn);
      if ws[0].cmd == CMD_ACK && ws[0].sn == sn { AckClears(s, newest, ws[0], now); }
      hide InputSegment, SendCore, Buffered;
      SegmentsClear(s1, newest1, ws[1..], now, sn);
    }
  }

  lemma InputClears(s: State, ws: seq<Wire>, now: u32, sn: int)
    requires SendInv(Exact, s) && forall i :: 0 <= i < |ws| ==> ws[i].conv == s.conv
    requires !Buffered(s.sndBuf, sn) || exists w :: w in ws && w.cmd == CMD_ACK && w.sn == sn
    ensures !Buffered(Input(Exact, s, ws, now).sndBuf, sn)
  {
    SegmentsClear(s, NoAck, ws, now, sn);
    var (s1, newest) := InputSegments(Exact, s, NoAck, ws, now);
    if newest.Newest? {
      BumpSurvives(Exact, s1.sndBuf, newest.sn, newest.ts);
      SurvivorsWereThere(s1.sndBuf, BumpFastack(Exact, s1.sndBuf, newest.sn, newest.ts), sn);
    }
    hide InputSegments, BumpFastack, InFlight, UpdateCwnd, Buffered;
  }

  /** After datagrams delivered in turn, no number acknowledged in one of them is buffered. */
  lemma {:induction false} InputsClear(x: Node, y: Node, ds: seq<seq<Wire>>, now: u32, sn: int)
    requires NodeInv(x) && PairInv(x, y) && PairInv(y, x)
    requires forall d :: d in ds ==> AllTruthful(y.eng, y.hist, d)
    requires !Buffered(x.eng.sndBuf, sn) || Carried(ds, CMD_ACK, sn)
    ensures !Buffered(NodeInputs(x, ds, now).eng.sndBuf, sn)
    decreases |ds|
  {
    if ds != [] {
      assert AllTruthful(y.eng, y.hist, ds[0]);
      ConvOf(y, x.eng.conv, ds[0]);
      NetworkSafety.InputKeepsAll(x, y, ds[0], now);
      InputSurvivors(Exact, x.eng, ds[0], now);
      assert SendInv(Exact, x.eng);
      hide Input, NodeInv, PairInv, SendInv, Buffered, AllTruthful, Carried;
      if Carried(ds, CMD_ACK, sn) { CarriedOn(ds, CMD_ACK, sn); }
      if !Buffered(x.eng.sndBuf, sn) || exists w :: w in ds[0] && w.cmd == CMD_ACK && w.sn == sn {
        InputClears(x.eng, ds[0], now, sn);
      }
      InputsClear(NodeInput(x, ds[0], now), y, ds[1..], now, sn);
    } else {
      assert !Carried(ds, CMD_ACK, sn);
    }
  }

  lemma {:induction false} InputsSurvivors(n: Node, ds: seq<seq<Wire>>, now: u32)
    ensures Survivors(NodeInputs(n, ds, now).eng.sndBuf, n.eng.sndBuf)
    decreases |ds|
  {
    if ds == [] {
      SuffixSurvives(n.eng.sndBuf, 0);
      assert n.eng.sndBuf[0..] == n.eng.sndBuf;
    } else {
      hide Input, Survivors;
      InputSurvivors(Exact, n.eng, ds[0], now);
      var n1 := NodeInput(n, ds[0], now);
      InputsSurvivors(n1, ds[1..], now);
      SurvivorsTransitive(NodeInputs(n1, ds[1..], now).eng.sndBuf, n1.eng.sndBuf, n.eng.sndBuf);
    }
  }

  // ---- What a flush hands over ----

  /** After a flush that succeeds a segment is as it was before, or was transmitted. */
  lemma UntouchedOrSent(s: State, now: u32, i: nat)
    requires Spare(s, 1) && Flush(Exact, s, now).1 && i < |Flush(Exact, s, now).0.sndBuf|
    ensures var seg := Flush(Exact, s, now).0.sndBuf[i];
            seg.xmit + 1 < s.cfg.deadLink
            || exists w :: w in FlushWires(Exact, s, now) && w.cmd == CMD_PUSH && w.sn == seg.sn
  {
    FlushFacts(Exact, s, now);
    ScanStart(Exact, s, now);
    SuccessSendsAll(Exact, s, now);
    var (r, b) := (Flush(Exact, s, now).0, BeforeScan(Exact, s, now));
    ToSendIsDue(b.cfg, b.rtt.rto, b.sndBuf, now);
    var was, seg, sending := b.sndBuf[i], r.sndBuf[i], Sending(Exact, s, now);
    assert seg == Marked(b.cfg, b.rtt.rto, was, now);
    hide Flush, BeforeScan, MarkOf, Marked, AckWires, ProbeWires, ToSend, Sending;
    if MarkOf(b.cfg, was, now).Idle? {
      UntouchedIfIdle(b.cfg, b.rtt.rto, was, now);
      assert was == s.sndBuf[i];
    } else {
      assert seg in sending;
      var j :| 0 <= j < |sending| && sending[j] == seg;
      assert DataWires(b, sending)[j] == DataWire(b, seg);
      assert DataWire(b, seg) in FlushWires(Exact, s, now);
    }
  }

  lemma UntouchedIfIdle(cfg: Config, rto: u32, seg: Segment, now: u32)
    requires MarkOf(cfg, seg, now).Idle?
    ensures Marked(cfg, rto, seg, now) == seg && seg.xmit >= 1
  {
    hide TimeDiff;
  }

  /** Every acknowledgement that is listed goes out. */
  lemma ListedGoesOut(n: Node, now: u32, sn: int)
    requires NodeInv(n) && Flush(Exact, n.eng, now).1 && Listed(n.eng.ackList, sn)
    ensures Carried(Handed(n, now), CMD_ACK, sn)
  {
    HandsOver(n, now);
    var i :| 0 <= i < |n.eng.ackList| && n.eng.ackList[i].sn == sn;
    var w := AckWires(n.eng)[i];
    assert w.cmd == CMD_ACK && w.sn == sn;
    assert w in FlushWires(Exact, n.eng, now) by { hide BeforeScan, Sending, ProbeTimer; }
    hide FlushWires, Flush, NodeInv;
    var d :| d in Handed(n, now) && w in d;
  }

  /** And every segment that cannot be transmitted once more has just been. */
  lemma SparedOrHanded(n: Node, now: u32, i: nat)
    requires NodeInv(n) && Spare(n.eng, 1) && Flush(Exact, n.eng, now).1 && i < |NodeFlush(n, now).eng.sndBuf|
    ensures var seg := NodeFlush(n, now).eng.sndBuf[i];
            seg.xmit + 1 < n.eng.cfg.deadLink || Carried(Handed(n, now), CMD_PUSH, seg.sn)
  {
    HandsOver(n, now);
    UntouchedOrSent(n.eng, now, i);
    hide FlushWires, Flush, NodeInv, Spare;
    var seg := NodeFlush(n, now).eng.sndBuf[i];
    if w :| w in FlushWires(Exact, n.eng, now) && w.cmd == CMD_PUSH && w.sn == seg.sn {
      var d :| d in Handed(n, now) && w in d;
    }
  }

  // ---- Half a round ----

  predicate Room(s: State) {
    |s.rcvQueue| < s.cfg.rcvWnd
  }

  /** What the sender has in flight is not beyond the window of a receiver with room. */
  lemma FlightFits(x: Node, y: Node, i: nat)
    requires NodeInv(x) && NodeInv(y) && PairInv(x, y) && Room(y.eng) && i < |x.eng.sndBuf|
    requires x.eng.cfg.sndWnd <= y.eng.cfg.rcvWnd
    ensures x.eng.sndBuf[i].sn < y.eng.rcvNxt + y.eng.cfg.rcvWnd
  {
    FrontIsWanted(x, y);
    assert SendInv(Exact, x.eng);
    hide NodeInv, PairInv;
  }

  /** The sender's half: each segment still buffered can be transmitted once more, or its
      acknowledgement waits at the receiver. */
  lemma SentIsListed(x: Node, y: Node, now: u32, later: u32)
    requires NodeInv(x) && NodeInv(y) && PairInv(x, y) && PairInv(y, x)
    requires Spare(x.eng, 1) && Room(y.eng) && x.eng.cfg.sndWnd <= y.eng.cfg.rcvWnd
    ensures Assured(NodeFlush(x, now).eng, NodeInputs(y, Handed(x, now), later).eng.ackList)
  {
    SpareNodeFlush(x, now, 1);
    assert NodeFlush(x, now).eng.cfg == x.eng.cfg by { hide Flush; }
    SenderOfRound(x, y, now);
    HandedTruthful(x, now);
    var x1 := NodeFlush(x, now);
    var y1 := NodeInputs(y, Handed(x, now), later);
    hide NodeInv, PairInv, Flush, NodeFlush, NodeInputs, AllTruthful, Listed, Carried, Room, Handed, Spare;
    forall i | 0 <= i < |x1.eng.sndBuf|
      ensures x1.eng.sndBuf[i].xmit + 1 < x.eng.cfg.deadLink || Listed(y1.eng.ackList, x1.eng.sndBuf[i].sn)
    {
      SparedOrHanded(x, now, i);
      FlightFits(x1, y, i);
      InputsList(x1, y, Handed(x, now), later, x1.eng.sndBuf[i].sn);
    }
  }

  /** The receiver's half: what it had in flight and was listed is gone. */
  lemma ListedIsDropped(x: Node, y: Node, now: u32, later: u32)
    requires NodeInv(x) && NodeInv(y) && PairInv(x, y) && PairInv(y, x)
    requires Flush(Exact, x.eng, now).1 && Assured(y.eng, x.eng.ackList)
    ensures Spare(NodeInputs(y, Handed(x, now), later).eng, 1)
  {
    SenderOfRound(x, y, now);
    HandedTruthful(x, now);
    var x1, y1 := NodeFlush(x, now), NodeInputs(y, Handed(x, now), later);
    InputsSurvivors(y, Handed(x, now), later);
    Progress.InputsKeepConfig(y, Handed(x, now), later);
    hide NodeInv, PairInv, Flush, NodeFlush, NodeInputs, AllTruthful, Listed, Carried, Handed, Buffered;
    forall i | 0 <= i < |y1.eng.sndBuf| ensures y1.eng.sndBuf[i].xmit + 1 < y.eng.cfg.deadLink {
      assert SurvivorOf(y1.eng.sndBuf[i], y.eng.sndBuf);
      var j :| 0 <= j < |y.eng.sndBuf| && SameContent(y1.eng.sndBuf[i], y.eng.sndBuf[j]);
      SameCount(y1.eng.sndBuf[i], y.eng.sndBuf[j]);
      var sn := y.eng.sndBuf[j].sn;
      IsBuffered(y1.eng.sndBuf, i);
      if Listed(x.eng.ackList, sn) {
        ListedGoesOut(x, now, sn);
        InputsClear(y, x1, Handed(x, now), later, sn);
      }
    }
  }

  lemma IsBuffered(buf: seq<Segment>, i: nat)
    requires i < |buf|
    ensures Buffered(buf, buf[i].sn)
  {
  }
}
