/** Progress of two engines over the network: a round trip of the oldest unacknowledged segment
    always acknowledges it, and rounds cannot go on for ever. */
module Progress {
  import opened Word
  import opened Protocol
  import opened EngineSpec
  import opened SendSide
  import opened RecvSide
  import opened Packing
  import opened Fragments
  import opened Deadlines
  import opened Network
  import opened NetworkSafety
  import opened Delivery

  // ---- The receiver wants the oldest segment ----

  /** With nothing in flight and room at the receiver, the receiver holds all that was ever sent. */
  lemma AllReceived(x: Node, y: Node)
    requires NodeInv(x) && NodeInv(y) && PairInv(x, y) && x.eng.sndBuf == [] && |y.eng.rcvQueue| < y.eng.cfg.rcvWnd
    ensures y.eng.rcvNxt == |x.hist|
  {
    assert !Buffered(x.eng.sndBuf, y.eng.rcvNxt);
    assert !Held(y.eng, y.eng.rcvNxt);
    hide SendInv, RecvCore, SizesInv, AllTruthful, UnitsInv, Delivers, AcksHeld, BufferMatches;
  }

  /** So its queue is as long as what it has not yet been read. */
  lemma QueueOf(x: Node, y: Node)
    requires PairInv(x, y) && y.eng.rcvNxt == |x.hist|
    ensures |y.delivered| <= |Units(x)|
    ensures |y.eng.rcvQueue| == |x.hist| - |Join(Units(x)[..|y.delivered|])|
  {
    hide Units, NoLoss, ReceivesFrom, Join;
  }

  /** A receiver with room in its queue expects nothing older than the sender's oldest segment. */
  lemma FrontIsWanted(x: Node, y: Node)
    requires NodeInv(x) && NodeInv(y) && PairInv(x, y) && |y.eng.rcvQueue| < y.eng.cfg.rcvWnd
    ensures x.eng.sndUna <= y.eng.rcvNxt
  {
    var nxt := y.eng.rcvNxt;
    if nxt < x.eng.sndUna {
      assert !Held(y.eng, nxt);
      assert nxt < x.eng.sndNxt;
      hide NodeInv;
      assert Buffered(x.eng.sndBuf, nxt);
      BufferedBelow(x, nxt);
    }
  }

  lemma BufferedBelow(x: Node, sn: int)
    requires NodeInv(x) && Buffered(x.eng.sndBuf, sn)
    ensures x.eng.sndUna <= sn
  {
    BufferedIsUnacked(x.eng, sn);
  }

  /** The receiver has got past `sn`, or `sn` is the next it expects and there is room for it. */
  predicate Open(s: State, sn: int) {
    s.rcvNxt > sn || (s.rcvNxt == sn && |s.rcvQueue| < s.cfg.rcvWnd)
  }

  predicate Past(s: State, sn: int) {
    s.rcvNxt > sn && s.ackList != []
  }

  lemma {:induction false} MoveGoesOn(s: State)
    ensures var r := MoveToRecvQueue(Exact, s);
            && r.rcvNxt >= s.rcvNxt
            && (r.rcvNxt == s.rcvNxt ==> r == s)
            && (s.rcvNxt in s.rcvBuf && |s.rcvQueue| < s.cfg.rcvWnd ==> r.rcvNxt > s.rcvNxt)
    decreases |s.rcvBuf|
  {
    if s.rcvNxt in s.rcvBuf && |s.rcvQueue| < s.cfg.rcvWnd {
      MoveGoesOn(s.(rcvQueue := s.rcvQueue + [s.rcvBuf[s.rcvNxt]], rcvBuf := s.rcvBuf - {s.rcvNxt},
        rcvNxt := s.rcvNxt + 1));
    }
  }

  lemma SegmentOpens(s: State, newest: Newest, w: Wire, now: u32, sn: int)
    requires Open(s, sn) && w.conv == s.conv
    ensures var r := InputSegment(Exact, s, newest, w, now).0;
            && Open(r, sn)
            && (Past(s, sn) || (w.cmd == CMD_PUSH && w.sn == sn) ==> Past(r, sn))
  {
    hide DropUna, UpdateAck, RemoveSn, InFlight, MoveToRecvQueue;
    var s1 := ParseUna(Exact, s.(wnd := s.wnd.(rmt := w.wnd)), w.una);
    var frag := Frag(w.frg, w.data);
    var s2 := s1.(ackList := s1.ackList + [Ack(w.sn, w.ts)]);
    MoveGoesOn(if w.sn in s2.rcvBuf then s2 else s2.(rcvBuf := s2.rcvBuf[w.sn := frag]));
  }

  /** A datagram with segment `sn` in it takes an open receiver past `sn`, and leaves an
      acknowledgement to be sent. */
  lemma {:induction false} DatagramOpens(s: State, newest: Newest, ws: seq<Wire>, now: u32, sn: int)
    requires Open(s, sn) && forall i :: 0 <= i < |ws| ==> ws[i].conv == s.conv
    ensures var r := InputSegments(Exact, s, newest, ws, now).0;
            && Open(r, sn)
            && (Past(s, sn) || (exists i :: 0 <= i < |ws| && ws[i].cmd == CMD_PUSH && ws[i].sn == sn) ==> Past(r, sn))
    decreases |ws|
  {
    if ws != [] {
      SegmentOpens(s, newest, ws[0], now, sn);
      var (s1, newest1) := InputSegment(Exact, s, newest, ws[0], now);
      hide InputSegment, Open, Past;
      var rest := ws[1..];
      DatagramOpens(s1, newest1, rest, now, sn);
      if i :| 0 <= i < |ws| && ws[i].cmd == CMD_PUSH && ws[i].sn == sn {
        if i > 0 { assert rest[i - 1] == ws[i]; }
      }
    }
  }

  lemma InputOpens(s: State, ws: seq<Wire>, now: u32, sn: int)
    requires Open(s, sn) && forall i :: 0 <= i < |ws| ==> ws[i].conv == s.conv
    ensures var r := Input(Exact, s, ws, now);
            && Open(r, sn)
            && (Past(s, sn) || (exists i :: 0 <= i < |ws| && ws[i].cmd == CMD_PUSH && ws[i].sn == sn) ==> Past(r, sn))
  {
    DatagramOpens(s, NoAck, ws, now, sn);
    hide InputSegments, BumpFastack, InFlight, UpdateCwnd;
  }

  // ---- Its acknowledgement advances the sender ----

  /** Every segment a flush puts out carries the receiver's next expected number. */
  lemma FlushTellsNext(s: State, now: u32)
    ensures forall w :: w in FlushWires(Exact, s, now) ==> w.una == s.rcvNxt && w.conv == s.conv
    ensures s.ackList != [] ==> FlushWires(Exact, s, now) != []
  {
    BeforeScanFrame(s, now);
    hide BeforeScan, Sending, ProbeTimer;
  }

  /** `una` may be that of a segment still to come: all buffered numbers are at least `una`. */
  ghost predicate AllFrom(buf: seq<Segment>, una: int) {
    forall i :: 0 <= i < |buf| ==> una <= buf[i].sn
  }

  lemma DropLeavesFrom(s: State, una: int)
    requires SendCore(Exact, s)
    ensures AllFrom(DropUna(Exact, s.sndBuf, una), una)
  {
    var k := DropUnaPops(Exact, s.sndBuf, una);
    hide DropUna;
    forall i | k <= i < |s.sndBuf| ensures una <= s.sndBuf[i].sn {
      assert !Before(Exact, s.sndBuf[k].sn, una);
    }
  }

  lemma RemoveKeepsFrom(buf: seq<Segment>, sn: int, una: int)
    requires AllFrom(buf, una)
    ensures AllFrom(RemoveSn(buf, sn), una)
  {
    var j := RemoveSnAt(buf, sn);
    hide RemoveSn;
  }

  lemma UnaClears(s: State, newest: Newest, w: Wire, now: u32)
    requires SendCore(Exact, s) && w.conv == s.conv
    ensures AllFrom(InputSegment(Exact, s, newest, w, now).0.sndBuf, w.una)
  {
    DropLeavesFrom(s, w.una);
    RemoveKeepsFrom(DropUna(Exact, s.sndBuf, w.una), w.sn, w.una);
    hide UpdateAck, InputPush, DropUna, RemoveSn, InFlight, TrackNewest, SendCore, AllFrom;
  }

  lemma SegmentKeepsFrom(s: State, newest: Newest, w: Wire, now: u32, una: int)
    requires AllFrom(s.sndBuf, una)
    ensures AllFrom(InputSegment(Exact, s, newest, w, now).0.sndBuf, una)
  {
    SegmentSurvivors(Exact, s, newest, w, now);
    hide InputSegment;
    var r := InputSegment(Exact, s, newest, w, now).0;
    forall i | 0 <= i < |r.sndBuf| ensures una <= r.sndBuf[i].sn {
      assert SurvivorOf(r.sndBuf[i], s.sndBuf);
    }
  }

  lemma {:induction false} SegmentsKeepFrom(s: State, newest: Newest, ws: seq<Wire>, now: u32, una: int)
    requires SendCore(Exact, s) && forall i :: 0 <= i < |ws| ==> ws[i].conv == s.conv
    requires AllFrom(s.sndBuf, una) || exists i :: 0 <= i < |ws| && ws[i].una >= una
    ensures AllFrom(InputSegments(Exact, s, newest, ws, now).0.sndBuf, una)
    decreases |ws|
  {
    if ws != [] {
      var (s1, newest1) := InputSegment(Exact, s, newest, ws[0], now);
      var rest := ws[1..];
      SegmentKeepsSendCore(Exact, s, newest, ws[0], now);
      if AllFrom(s.sndBuf, una) {
        SegmentKeepsFrom(s, newest, ws[0], now, una);
      } else if ws[0].una >= una {
        UnaClears(s, newest, ws[0], now);
      } else {
        var i :| 0 <= i < |ws| && ws[i].una >= una;
        assert rest[i - 1].una >= una;
      }
      hide InputSegment, SendCore;
      SegmentsKeepFrom(s1, newest1, rest, now, una);
    }
  }

  /** A datagram that says `una` moves `snd_una` at least to `una`. */
  lemma InputReaches(s: State, ws: seq<Wire>, now: u32, una: int)
    requires SendInv(Exact, s) && una <= s.sndNxt && forall i :: 0 <= i < |ws| ==> ws[i].conv == s.conv
    requires exists i :: 0 <= i < |ws| && ws[i].una >= una
    ensures Input(Exact, s, ws, now).sndUna >= una
  {
    SegmentsKeepFrom(s, NoAck, ws, now, una);
    hide InputSegments, BumpFastack, InFlight, UpdateCwnd;
  }

  // ---- A round ----

  function NodeInputs(n: Node, ds: seq<seq<Wire>>, now: u32): Node
    decreases |ds|
  {
    if ds == [] then n else NodeInputs(NodeInput(n, ds[0], now), ds[1..], now)
  }

  /** What a flush hands over to the network. */
  function Handed(n: Node, now: u32): seq<seq<Wire>> {
    Flush(Exact, n.eng, now).0.out.queue
  }

  /** The sender flushes, the receiver gets that and flushes, the sender gets that. */
  function Round(x: Node, y: Node, t1: u32, t2: u32, t3: u32, t4: u32): (Node, Node) {
    var y1 := NodeInputs(y, Handed(x, t1), t2);
    (NodeInputs(NodeFlush(x, t1), Handed(y1, t3), t4), NodeFlush(y1, t3))
  }

  /** What is neither numbered nor acknowledged yet. */
  function Outstanding(s: State): nat {
    |s.sndQueue| + |s.sndBuf|
  }

  lemma HandedTruthful(x: Node, now: u32)
    requires NodeInv(x)
    ensures forall d :: d in Handed(x, now) ==> AllTruthful(NodeFlush(x, now).eng, NodeFlush(x, now).hist, d)
  {
    hide Flush;
    FlushKeepsNode(x, now);
    var r := NodeFlush(x, now);
    assert forall d :: d in Handed(x, now) ==> d in r.net;
  }

  /** Delivering truthful datagrams keeps the invariants, and `snd_una` only advances. */
  lemma {:induction false} InputsKeepAll(x: Node, y: Node, ds: seq<seq<Wire>>, now: u32)
    requires NodeInv(x) && PairInv(x, y) && PairInv(y, x)
    requires forall d :: d in ds ==> AllTruthful(y.eng, y.hist, d)
    ensures var r := NodeInputs(x, ds, now);
            && NodeInv(r) && PairInv(r, y) && PairInv(y, r)
            && r.eng.sndUna >= x.eng.sndUna && r.eng.sndNxt == x.eng.sndNxt && r.eng.sndQueue == x.eng.sndQueue
            && Shortened(x.eng.sndBuf, r.eng.sndBuf) && r.hist == x.hist
    decreases |ds|
  {
    hide NodeInv, PairInv, Input, AllTruthful, Shortened;
    if ds != [] {
      var r := NodeInput(x, ds[0], now);
      InputKeepsAll(x, y, ds[0], now);
      InputAdvances(x, ds[0], now);
      InputsKeepAll(r, y, ds[1..], now);
      ShortenedTransitive(x.eng.sndBuf, r.eng.sndBuf, NodeInputs(r, ds[1..], now).eng.sndBuf);
    } else {
      ShortenedSame(x.eng.sndBuf);
    }
  }

  lemma ShortenedSame(buf: seq<Segment>)
    ensures Shortened(buf, buf)
  {
  }

  lemma ShortenedTransitive(a: seq<Segment>, b: seq<Segment>, c: seq<Segment>)
    requires Shortened(a, b) && Shortened(b, c)
    ensures Shortened(a, c)
  {
  }

  lemma InputAdvances(x: Node, d: seq<Wire>, now: u32)
    requires NodeInv(x)
    ensures NodeInput(x, d, now).eng.sndUna >= x.eng.sndUna
    ensures Shortened(x.eng.sndBuf, NodeInput(x, d, now).eng.sndBuf)
  {
    hide Input, Shortened;
    InputKeepsSendInv(Exact, x.eng, d, now);
    InputShortens(x.eng, d, now);
  }

  /** Segments have left the buffer, or it is numbered as before. */
  ghost predicate Shortened(before: seq<Segment>, after: seq<Segment>) {
    |after| < |before| || SameNumbers(before, after)
  }

  lemma SegmentShortens(s: State, newest: Newest, w: Wire, now: u32)
    ensures Shortened(s.sndBuf, InputSegment(Exact, s, newest, w, now).0.sndBuf)
  {
    var k := DropUnaPops(Exact, s.sndBuf, w.una);
    var j := RemoveSnAt(s.sndBuf[k..], w.sn);
    hide UpdateAck, InputPush, DropUna, InFlight;
  }

  lemma {:induction false} SegmentsShorten(s: State, newest: Newest, ws: seq<Wire>, now: u32)
    ensures Shortened(s.sndBuf, InputSegments(Exact, s, newest, ws, now).0.sndBuf)
    decreases |ws|
  {
    if ws != [] {
      SegmentShortens(s, newest, ws[0], now);
      var (s1, newest1) := InputSegment(Exact, s, newest, ws[0], now);
      SegmentsShorten(s1, newest1, ws[1..], now);
    }
  }

  lemma InputShortens(s: State, ws: seq<Wire>, now: u32)
    ensures Shortened(s.sndBuf, Input(Exact, s, ws, now).sndBuf)
  {
    SegmentsShorten(s, NoAck, ws, now);
    var (s1, newest) := InputSegments(Exact, s, NoAck, ws, now);
    if newest.Newest? { BumpKeepsNumbers(Exact, s1.sndBuf, newest.sn, newest.ts); }
    hide InputSegments, BumpFastack, InFlight, UpdateCwnd;
  }

  /** Among datagrams delivered in turn, one with segment `sn` takes an open receiver past it. */
  lemma {:induction false} InputsOpen(x: Node, y: Node, ds: seq<seq<Wire>>, now: u32, sn: int)
    requires Open(y.eng, sn) && x.eng.conv == y.eng.conv
    requires forall d :: d in ds ==> AllTruthful(x.eng, x.hist, d)
    ensures Open(NodeInputs(y, ds, now).eng, sn)
    ensures Past(y.eng, sn) || (exists d, w :: d in ds && w in d && w.cmd == CMD_PUSH && w.sn == sn)
            ==> Past(NodeInputs(y, ds, now).eng, sn)
    decreases |ds|
  {
    if ds != [] {
      var d0, y1 := ds[0], NodeInput(y, ds[0], now);
      assert AllTruthful(x.eng, x.hist, d0);
      ConvOf(x, y.eng.conv, d0);
      InputOpens(y.eng, d0, now, sn);
      hide Input, Open, Past, AllTruthful;
      InputsOpen(x, y1, ds[1..], now, sn);
      if d, w :| d in ds && w in d && w.cmd == CMD_PUSH && w.sn == sn {
        if d == d0 {
          var i :| 0 <= i < |d0| && d0[i] == w;
          assert d0[i].cmd == CMD_PUSH && d0[i].sn == sn;
        } else {
          assert d in ds[1..];
        }
      }
    }
  }

  lemma ConvOf(x: Node, conv: u32, d: seq<Wire>)
    requires AllTruthful(x.eng, x.hist, d) && x.eng.conv == conv
    ensures forall i :: 0 <= i < |d| ==> d[i].conv == conv
  {
    forall i | 0 <= i < |d| ensures d[i].conv == conv {
      assert Truthful(x.eng, x.hist, d[i]);
    }
  }

  /** Among datagrams delivered in turn, one that says `una` moves the sender there. */
  lemma {:induction false} InputsReach(x: Node, y: Node, ds: seq<seq<Wire>>, now: u32, una: int)
    requires NodeInv(x) && PairInv(x, y) && PairInv(y, x) && una <= x.eng.sndNxt
    requires forall d :: d in ds ==> AllTruthful(y.eng, y.hist, d)
    requires exists d, w :: d in ds && w in d && w.una >= una
    ensures NodeInputs(x, ds, now).eng.sndUna >= una
    decreases |ds|
  {
    var d0, r := ds[0], NodeInput(x, ds[0], now);
    assert AllTruthful(y.eng, y.hist, d0);
    InputKeepsAll(x, y, d0, now);
    ConvOf(y, x.eng.conv, d0);
    assert SendInv(Exact, x.eng);
    hide NodeInv, PairInv, Input, AllTruthful, SendInv;
    var d, w :| d in ds && w in d && w.una >= una;
    if d == d0 {
      var i :| 0 <= i < |d0| && d0[i] == w;
      assert d0[i].una >= una;
      InputReaches(x.eng, d0, now, una);
      InputsKeepAll(r, y, ds[1..], now);
    } else {
      assert d in ds[1..];
      InputsReach(r, y, ds[1..], now, una);
    }
  }

  /** The flush of `x` puts its oldest unacknowledged segment on the network. */
  ghost predicate SendsFront(x: Node, now: u32) {
    exists d, w :: d in Handed(x, now) && w in d && w.cmd == CMD_PUSH && w.sn == x.eng.sndUna
  }

  /** A round in which the flushes succeed and the oldest segment is transmitted. */
  ghost predicate GoodRound(x: Node, y: Node, t1: u32, t2: u32, t3: u32) {
    && SendsFront(x, t1)
    && Flush(Exact, NodeInputs(y, Handed(x, t1), t2).eng, t3).1
  }

  lemma FlushKeepsOutstanding(s: State, now: u32)
    ensures var r := Flush(Exact, s, now).0;
            Outstanding(r) == Outstanding(s) && (r.sndUna == s.sndUna) && r.conv == s.conv && r.rcvNxt == s.rcvNxt
  {
    var k := FlushNumbers(s, now);
    hide Flush, BeforeScan;
  }

  lemma {:induction false} WireIsHanded(queue: seq<seq<Wire>>, w: Wire)
    requires w in Flatten(queue)
    ensures exists d :: d in queue && w in d
  {
    var init, last := queue[..|queue| - 1], queue[|queue| - 1];
    if w in last {
      assert last in queue;
    } else {
      WireIsHanded(init, w);
      var d :| d in init && w in d;
      assert d in queue;
    }
  }

  /** A successful flush with acknowledgements to send hands over a datagram that tells `rcv_nxt`. */
  lemma AckingFlushTells(y: Node, now: u32)
    requires Flush(Exact, y.eng, now).1 && y.eng.ackList != []
    ensures exists d, w :: d in Handed(y, now) && w in d && w.una >= y.eng.rcvNxt
  {
    var wires := FlushWires(Exact, y.eng, now);
    FlushTellsNext(y.eng, now);
    FlushEmits(Exact, y.eng, now);
    var r := Flush(Exact, y.eng, now).0;
    hide Flush, FlushWires;
    assert Flatten(r.out.queue) == Emitted(r.out) == Emitted(y.eng.out) + wires;
    var w := wires[0];
    assert w in Flatten(r.out.queue);
    WireIsHanded(r.out.queue, w);
    var d :| d in r.out.queue && w in d;
    assert d in Handed(y, now);
  }

  /** A round trip of the oldest segment to a receiver with room acknowledges it: `snd_una`
      strictly advances and there is strictly less outstanding, whatever was in flight before. */
  lemma RoundAdvances(x: Node, y: Node, t1: u32, t2: u32, t3: u32, t4: u32)
    requires NodeInv(x) && NodeInv(y) && PairInv(x, y) && PairInv(y, x)
    requires |y.eng.rcvQueue| < y.eng.cfg.rcvWnd && GoodRound(x, y, t1, t2, t3)
    ensures var (x2, y2) := Round(x, y, t1, t2, t3, t4);
            && NodeInv(x2) && NodeInv(y2) && PairInv(x2, y2) && PairInv(y2, x2)
            && x2.eng.sndUna > x.eng.sndUna
            && Outstanding(x2.eng) < Outstanding(x.eng)
  {
    hide NodeInv, PairInv, Flush, AllTruthful, NodeInput, NodeFlush;
    var una := x.eng.sndUna;
    FrontIsWanted(x, y);
    SenderOfRound(x, y, t1);
    var x1 := NodeFlush(x, t1);
    HandedTruthful(x, t1);
    var y1 := NodeInputs(y, Handed(x, t1), t2);
    InputsKeepAll(y, x1, Handed(x, t1), t2);
    InputsOpen(x1, y, Handed(x, t1), t2, una);
    assert Past(y1.eng, una);
    AckingFlushTells(y1, t3);
    FlushKeepsNode(y1, t3);
    FlushKeepsPairs(y1, x1, t3);
    HandedTruthful(y1, t3);
    var y2 := NodeFlush(y1, t3);
    ReceivedIsNumbered(x1, y1);
    InputsKeepAll(x1, y2, Handed(y1, t3), t4);
    InputsReach(x1, y2, Handed(y1, t3), t4, una + 1);
    LessOutstanding(x1, NodeInputs(x1, Handed(y1, t3), t4));
  }

  lemma SenderOfRound(x: Node, y: Node, t1: u32)
    requires NodeInv(x) && PairInv(x, y) && PairInv(y, x)
    ensures var x1 := NodeFlush(x, t1);
            && NodeInv(x1) && PairInv(x1, y) && PairInv(y, x1) && x1.eng.conv == y.eng.conv
            && x1.eng.sndUna == x.eng.sndUna && Outstanding(x1.eng) == Outstanding(x.eng)
  {
    FlushKeepsNode(x, t1);
    FlushKeepsPairs(x, y, t1);
    FlushKeepsOutstanding(x.eng, t1);
    hide NodeInv, Flush, NoLoss, ReceivesFrom, Delivers;
  }

  lemma ReceivedIsNumbered(x: Node, y: Node)
    requires NodeInv(x) && PairInv(x, y)
    ensures y.eng.rcvNxt <= x.eng.sndNxt
  {
  }

  /** If `snd_una` moved, a segment has left the buffer. */
  lemma LessOutstanding(x: Node, r: Node)
    requires NodeInv(x) && NodeInv(r) && r.eng.sndNxt == x.eng.sndNxt && r.eng.sndUna > x.eng.sndUna
    requires Shortened(x.eng.sndBuf, r.eng.sndBuf) && r.eng.sndQueue == x.eng.sndQueue
    ensures Outstanding(r.eng) < Outstanding(x.eng)
  {
  }

  // ---- Rounds cannot go on for ever ----

  datatype Pair = Pair(x: Node, y: Node)

  ghost predicate PairOk(p: Pair) {
    NodeInv(p.x) && NodeInv(p.y) && PairInv(p.x, p.y) && PairInv(p.y, p.x)
  }

  function ReadAll(y: Node, times: nat): Node
    decreases times
  {
    if times == 0 then y else ReadAll(NodeRecv(y), times - 1)
  }

  lemma {:induction false} ReadAllSnoc(n: Node, times: nat)
    requires times > 0
    ensures ReadAll(n, times) == NodeRecv(ReadAll(n, times - 1))
    decreases times
  {
    hide NodeRecv;
    if times > 1 { ReadAllSnoc(NodeRecv(n), times - 1); }
  }

  /** The receiver's application reads until nothing is left to return, then a good round takes place. */
  ghost predicate ReadAndRound(p: Pair, q: Pair) {
    exists times: nat, t1: u32, t2: u32, t3: u32, t4: u32 :: RoundAfter(p, ReadAll(p.y, times), q, t1, t2, t3, t4)
  }

  ghost predicate RoundAfter(p: Pair, y: Node, q: Pair, t1: u32, t2: u32, t3: u32, t4: u32) {
    && Recv(Exact, y.eng).1.None? && GoodRound(p.x, y, t1, t2, t3)
    && (q.x, q.y) == Round(p.x, y, t1, t2, t3, t4)
  }

  lemma {:induction false} ReadAllKeeps(x: Node, y: Node, times: nat)
    requires PairOk(Pair(x, y))
    ensures PairOk(Pair(x, ReadAll(y, times))) && ReadAll(y, times).eng.cfg == y.eng.cfg
    decreases times
  {
    hide NodeInv, PairInv, Recv;
    if times > 0 {
      RecvKeepsBoth(x, y);
      RecvFrame(y.eng);
      ReadAllKeeps(x, NodeRecv(y), times - 1);
    }
  }

  /** After the application has read everything there is, the receive queue has room. */
  lemma DrainedHasRoom(x: Node, y: Node)
    requires NodeInv(x) && PairInv(x, y) && MessagesFit(x.eng.cfg, y.eng.cfg) && Recv(Exact, y.eng).1.None?
    ensures |y.eng.rcvQueue| < y.eng.cfg.rcvWnd
  {
    hide NodeInv, PairInv, Recv, Units, MessagesFit;
    if y.eng.rcvQueue != [] {
      ReadableIff(x, y);
      UnitFits(x, |y.delivered|, y.eng.cfg);
    }
  }

  lemma ReadAndRoundAdvances(p: Pair, q: Pair)
    requires PairOk(p) && ReadAndRound(p, q) && MessagesFit(p.x.eng.cfg, p.y.eng.cfg)
    ensures PairOk(q) && Outstanding(q.x.eng) < Outstanding(p.x.eng)
    ensures q.x.eng.cfg == p.x.eng.cfg && q.y.eng.cfg == p.y.eng.cfg
  {
    var times: nat, t1: u32, t2: u32, t3: u32, t4: u32 :| RoundAfter(p, ReadAll(p.y, times), q, t1, t2, t3, t4);
    var y := ReadAll(p.y, times);
    hide NodeInv, PairInv, Recv, GoodRound, Round, ReadAll, Outstanding;
    ReadAllKeeps(p.x, p.y, times);
    DrainedHasRoom(p.x, y);
    RoundAdvances(p.x, y, t1, t2, t3, t4);
    RoundKeepsConfigs(p.x, y, t1, t2, t3, t4);
  }

  lemma {:induction false} InputsKeepConfig(n: Node, ds: seq<seq<Wire>>, now: u32)
    ensures NodeInputs(n, ds, now).eng.cfg == n.eng.cfg
    decreases |ds|
  {
    if ds != [] {
      hide Input;
      InputsKeepConfig(NodeInput(n, ds[0], now), ds[1..], now);
    }
  }

  lemma RoundKeepsConfigs(x: Node, y: Node, t1: u32, t2: u32, t3: u32, t4: u32)
    ensures var (x2, y2) := Round(x, y, t1, t2, t3, t4);
            x2.eng.cfg == x.eng.cfg && y2.eng.cfg == y.eng.cfg
  {
    hide Flush, NodeInputs;
    var y1 := NodeInputs(y, Handed(x, t1), t2);
    InputsKeepConfig(y, Handed(x, t1), t2);
    InputsKeepConfig(NodeFlush(x, t1), Handed(y1, t3), t4);
  }

  /** A chain of `n` read-and-round steps leaves at least `n` fewer segments outstanding: after as
      many rounds as there were segments, `has_unsent_data` is false. */
  lemma {:induction false} RoundsFinish(chain: seq<Pair>)
    requires |chain| >= 1 && PairOk(chain[0]) && MessagesFit(chain[0].x.eng.cfg, chain[0].y.eng.cfg)
    requires forall i :: 0 <= i < |chain| - 1 ==> ReadAndRound(chain[i], chain[i + 1])
    ensures var last := chain[|chain| - 1];
            && PairOk(last) && last.x.eng.cfg == chain[0].x.eng.cfg && last.y.eng.cfg == chain[0].y.eng.cfg
            && Outstanding(last.x.eng) + |chain| - 1 <= Outstanding(chain[0].x.eng)
            && (|chain| > Outstanding(chain[0].x.eng) ==> !HasUnsentData(last.x.eng))
    decreases |chain|
  {
    hide PairOk, ReadAndRound;
    if |chain| > 1 {
      var init := chain[..|chain| - 1];
      RoundsFinish(init);
      assert ReadAndRound(chain[|chain| - 2], chain[|chain| - 1]);
      ReadAndRoundAdvances(chain[|chain| - 2], chain[|chain| - 1]);
    }
  }

  // ---- When a flush transmits the oldest segment ----

  lemma {:induction false} ToSendStartsWith(cfg: Config, rto: u32, buf: seq<Segment>, now: u32)
    requires buf != [] && !MarkOf(cfg, buf[0], now).Idle?
    ensures var sending := ToSend(cfg, rto, buf, now);
            sending != [] && sending[0] == Marked(cfg, rto, buf[0], now)
  {
    hide MarkOf, Marked;
    if |buf| > 1 {
      ToSendStartsWith(cfg, rto, buf[..|buf| - 1], now);
    } else {
      assert ToSend(cfg, rto, buf[..0], now) == [];
    }
  }

  /** The oldest unacknowledged segment is due: it is in the buffer, new, timed out or overtaken often
      enough; or nothing is in the buffer, and the window lets the first queued fragment in. */
  predicate FrontDue(s: State, now: u32) {
    if s.sndBuf != [] then !MarkOf(s.cfg, s.sndBuf[0], now).Idle?
    else s.sndQueue != [] && EffectiveWindow(s) > 0
  }

  /** Then it is the first segment of the scan, and due there. */
  lemma FrontIsScanned(s: State, now: u32)
    requires SendInv(Exact, s) && FrontDue(s, now)
    ensures var b := BeforeScan(Exact, s, now);
            b.sndBuf != [] && b.sndBuf[0].sn == s.sndUna && !MarkOf(b.cfg, b.sndBuf[0], now).Idle?
  {
    var k := FlushNumbers(s, now);
    BeforeScanFrame(s, now);
    var b := BeforeScan(Exact, s, now);
    if s.sndBuf != [] {
      assert b.sndBuf[0] == s.sndBuf[0];
    } else {
      FlushNumbersIff(Exact, s, now);
    }
    hide Flush, BeforeScan, MarkOf, Ascending;
    hide EffectiveWindow;
    if s.sndBuf == [] { assert b.sndBuf[0].xmit == 0; FirstIsOne(b.cfg, b.rtt.rto, b.sndBuf[0], now); }
  }

  /** A flush that succeeds transmits the oldest segment when it is due, also for the first time: with
      `RoundAdvances`, every timeout and every new segment is a chance to make progress. */
  lemma DueFrontIsSent(x: Node, now: u32)
    requires NodeInv(x) && Flush(Exact, x.eng, now).1 && FrontDue(x.eng, now)
    ensures SendsFront(x, now)
  {
    hide MarkOf, Marked, EffectiveWindow;
    var s := x.eng;
    FrontIsScanned(s, now);
    var w := FrontWire(s, now);
    assert w.sn == s.sndUna;
    FlushEmits(Exact, s, now);
    hide NodeInv, Flush, FlushWires, BeforeScan;
    var r := Flush(Exact, s, now).0;
    assert Flatten(r.out.queue) == Emitted(r.out);
    assert w in Flatten(r.out.queue);
    WireIsHanded(r.out.queue, w);
    var d :| d in r.out.queue && w in d;
    assert d in Handed(x, now);
  }

  lemma FrontWire(s: State, now: u32) returns (w: Wire)
    requires var b := BeforeScan(Exact, s, now);
             b.sndBuf != [] && !MarkOf(b.cfg, b.sndBuf[0], now).Idle?
    ensures w in FlushWires(Exact, s, now) && w.cmd == CMD_PUSH && w.sn == BeforeScan(Exact, s, now).sndBuf[0].sn
  {
    hide MarkOf, Marked, Flush, BeforeScan, ToSend, ThroughDead, ProbeWires, AckWires, ProbeTimer;
    var s1 := BeforeScan(Exact, s, now);
    FrontFirst(s1, now);
    var sending := Sending(Exact, s, now);
    MarkedKeeps(s1.cfg, s1.rtt.rto, s1.sndBuf[0], now);
    w := DataWires(s1, sending)[0];
    assert w in DataWires(s1, sending);
  }

  lemma FrontFirst(s1: State, now: u32)
    requires s1.sndBuf != [] && !MarkOf(s1.cfg, s1.sndBuf[0], now).Idle?
    ensures var sending := ThroughDead(ToSend(s1.cfg, s1.rtt.rto, s1.sndBuf, now), s1.cfg.deadLink);
            sending != [] && sending[0] == Marked(s1.cfg, s1.rtt.rto, s1.sndBuf[0], now)
  {
    ToSendStartsWith(s1.cfg, s1.rtt.rto, s1.sndBuf, now);
    hide ToSend, MarkOf, Marked;
  }
}
