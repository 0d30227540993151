/** From every reachable state in which a transmission is left, some continuation delivers and
    acknowledges everything: nothing that can have happened makes the rest impossible. */
module Continuation {
  import opened Word
  import opened Protocol
  import opened EngineSpec
  import opened EngineRun
  import opened SendSide
  import opened Packing
  import opened Fragments
  import opened Congestion
  import opened Deadlines
  import opened Network
  import opened NetworkSafety
  import opened Delivery
  import opened Progress
  import opened WindowProbe
  import opened HalfRounds

  // ---- Both sides ----

  /** Neither side has more in flight than the other's receive window, and messages fit that too. */
  predicate Matched(a: Config, b: Config) {
    a.sndWnd <= b.rcvWnd && b.sndWnd <= a.rcvWnd && MessagesFit(a, b) && MessagesFit(b, a)
  }

  /** The transmissions left: `k` at either side; or, between matched windows, just one, but for
      segments whose acknowledgement is ready. */
  ghost predicate Budget(p: Pair, k: nat) {
    || (Spare(p.x.eng, k) && Spare(p.y.eng, k))
    || (Matched(p.x.eng.cfg, p.y.eng.cfg) && Spare(p.x.eng, 1) && Assured(p.y.eng, p.x.eng.ackList))
  }

  /** Two engines as a run leaves them, with transmissions left. */
  ghost predicate Ready(p: Pair, k: nat) {
    && PairOk(p) && MessagesFit(p.x.eng.cfg, p.y.eng.cfg)
    && Budget(p, k) && p.x.eng.wnd.cwnd >= 1 && p.y.eng.wnd.cwnd >= 1
  }

  /** The applications have read enough for a round. */
  ghost predicate Drained(p: Pair) {
    Room(p.y.eng) && (Matched(p.x.eng.cfg, p.y.eng.cfg) ==> Room(p.x.eng))
  }

  // ---- Reading ----

  /** What reading does not touch. */
  ghost predicate SameSender(s: State, r: State) {
    r == s.(rcvNxt := r.rcvNxt, rcvQueue := r.rcvQueue, rcvBuf := r.rcvBuf, probe := r.probe)
  }

  lemma DeliveredIsBounded(x: Node, y: Node)
    requires NodeInv(x) && PairInv(x, y)
    ensures |y.delivered| <= |Units(x)|
  {
    hide NodeInv, Units;
  }

  lemma ReadOnce(x: Node, y: Node)
    requires PairOk(Pair(x, y))
    ensures PairOk(Pair(x, NodeRecv(y))) && SameSender(y.eng, NodeRecv(y).eng)
    ensures |y.delivered| <= |Units(x)| && |NodeRecv(y).delivered| <= |Units(x)|
    ensures Recv(Exact, y.eng).1.Some? ==> |NodeRecv(y).delivered| == |y.delivered| + 1
  {
    RecvFrame(y.eng);
    hide NodeInv, PairInv, Units, Recv;
    RecvKeepsBoth(x, y);
    DeliveredIsBounded(x, y);
    DeliveredIsBounded(x, NodeRecv(y));
  }

  /** An application that goes on reading comes to an end. */
  lemma {:induction false} ReadsToTheEnd(x: Node, y: Node) returns (times: nat)
    requires PairOk(Pair(x, y))
    ensures var r := ReadAll(y, times);
            PairOk(Pair(x, r)) && SameSender(y.eng, r.eng) && Recv(Exact, r.eng).1.None?
    decreases |Units(x)| - |y.delivered|
  {
    hide PairOk, Units, Recv, NodeRecv;
    ReadOnce(x, y);
    if Recv(Exact, y.eng).1.None? {
      times := 0;
    } else {
      var rest := ReadsToTheEnd(x, NodeRecv(y));
      times := rest + 1;
    }
  }

  lemma Swapped(p: Pair)
    ensures PairOk(p) <==> PairOk(Pair(p.y, p.x))
  {
    hide NodeInv, PairInv;
  }

  /** Both applications read to the end. */
  lemma ReadsAtBoth(p: Pair, k: nat) returns (atX: nat, atY: nat)
    requires Ready(p, k)
    ensures var q := Pair(ReadAll(p.x, atX), ReadAll(p.y, atY));
            Ready(q, k) && Drained(q) && SameSender(p.x.eng, q.x.eng)
  {
    hide PairOk, ReadAll, Spare, Assured, Recv, MessagesFit, Matched, Budget;
    var x, y := p.x, p.y;
    atY := ReadsToTheEnd(x, y);
    var y0 := ReadAll(y, atY);
    Swapped(Pair(x, y0));
    atX := ReadsToTheEnd(y0, x);
    var x0 := ReadAll(x, atX);
    Swapped(Pair(y0, x0));
    SameBudget(p, Pair(x0, y0), k);
    NowDrained(x0, y0);
  }

  lemma NowDrained(x: Node, y: Node)
    requires PairOk(Pair(x, y)) && Recv(Exact, x.eng).1.None? && Recv(Exact, y.eng).1.None?
    requires MessagesFit(x.eng.cfg, y.eng.cfg)
    ensures Drained(Pair(x, y))
  {
    hide NodeInv, PairInv, Recv, MessagesFit;
    DrainedHasRoom(x, y);
    if Matched(x.eng.cfg, y.eng.cfg) { DrainedHasRoom(y, x); }
  }

  lemma SameBudget(p: Pair, q: Pair, k: nat)
    requires Budget(p, k) && SameSender(p.x.eng, q.x.eng) && SameSender(p.y.eng, q.y.eng)
    ensures Budget(q, k) && q.x.eng.cfg == p.x.eng.cfg && q.y.eng.cfg == p.y.eng.cfg && q.x.eng.wnd == p.x.eng.wnd
    ensures q.y.eng.wnd == p.y.eng.wnd
  {
    hide Listed, Matched;
  }

  // ---- A round ----

  /** A round keeps all that a run keeps; between matched windows it uses nothing up, and otherwise
      one transmission at each side. */
  lemma RoundKeepsReady(p: Pair, t1: u32, t2: u32, t3: u32, t4: u32, k: nat)
    requires Ready(p, k) && k >= 1 && Drained(p)
    ensures var (x2, y2) := Round(p.x, p.y, t1, t2, t3, t4);
            Ready(Pair(x2, y2), k - 1) && Outstanding(x2.eng) <= Outstanding(p.x.eng)
    ensures Flush(Exact, p.x.eng, t1).1
    ensures Flush(Exact, NodeInputs(p.y, Handed(p.x, t1), t2).eng, t3).1
  {
    hide NodeInv, PairInv, Spare, Flush, AllTruthful, NodeFlush, NodeInputs, Outstanding, Shortened, Handed, Budget,
         MessagesFit, Drained;
    var x, y := p.x, p.y;
    FlushKeepsOpen(x, t1);
    SenderOfRound(x, y, t1);
    HandedTruthful(x, t1);
    var x1 := NodeFlush(x, t1);
    InputsKeepOpen(y, Handed(x, t1), t2);
    InputsKeepAll(y, x1, Handed(x, t1), t2);
    var y1 := NodeInputs(y, Handed(x, t1), t2);
    FlushKeepsOpen(y1, t3);
    SenderOfRound(y1, x1, t3);
    HandedTruthful(y1, t3);
    var y2 := NodeFlush(y1, t3);
    InputsKeepOpen(x1, Handed(y1, t3), t4);
    InputsKeepAll(x1, y2, Handed(y1, t3), t4);
    NotMoreOutstanding(x1, NodeInputs(x1, Handed(y1, t3), t4));
    RoundKeepsBudget(p, t1, t2, t3, t4, k);
  }

  lemma RoundKeepsBudget(p: Pair, t1: u32, t2: u32, t3: u32, t4: u32, k: nat)
    requires PairOk(p) && Budget(p, k) && k >= 1 && Drained(p)
    ensures var (x2, y2) := Round(p.x, p.y, t1, t2, t3, t4);
            Budget(Pair(x2, y2), k - 1)
    ensures Flush(Exact, p.x.eng, t1).1
    ensures Flush(Exact, NodeInputs(p.y, Handed(p.x, t1), t2).eng, t3).1
  {
    hide NodeInv, PairInv, Spare, Flush, NodeFlush, NodeInputs, Handed, Assured, Matched, Room;
    var x, y := p.x, p.y;
    if Spare(x.eng, k) && Spare(y.eng, k) {
      SpareNodeFlush(x, t1, k);
      SpareInputs(y, Handed(x, t1), t2, k);
      var y1 := NodeInputs(y, Handed(x, t1), t2);
      SpareNodeFlush(y1, t3, k);
      SpareInputs(NodeFlush(x, t1), Handed(y1, t3), t4, k - 1);
    } else {
      MatchedRound(x, y, t1, t2, t3, t4);
    }
  }

  /** Between matched windows: what the first half transmits the second half acknowledges, and what
      the second transmits is acknowledged by the first half of the next round. */
  lemma MatchedRound(x: Node, y: Node, t1: u32, t2: u32, t3: u32, t4: u32)
    requires PairOk(Pair(x, y)) && Matched(x.eng.cfg, y.eng.cfg) && Room(x.eng) && Room(y.eng)
    requires Spare(x.eng, 1) && Assured(y.eng, x.eng.ackList)
    ensures var (x2, y2) := Round(x, y, t1, t2, t3, t4);
            && Matched(x2.eng.cfg, y2.eng.cfg) && Spare(x2.eng, 1) && Assured(y2.eng, x2.eng.ackList)
    ensures Flush(Exact, x.eng, t1).1
    ensures Flush(Exact, NodeInputs(y, Handed(x, t1), t2).eng, t3).1
  {
    hide NodeInv, PairInv, Spare, Flush, AllTruthful, NodeFlush, NodeInputs, Handed, Assured, MessagesFit;
    SpareNodeFlush(x, t1, 1);
    SenderOfRound(x, y, t1);
    HandedTruthful(x, t1);
    FlushFrame(x, t1);
    var x1 := NodeFlush(x, t1);
    SentIsListed(x, y, t1, t2);
    ListedIsDropped(x, y, t1, t2);
    InputsKeepAll(y, x1, Handed(x, t1), t2);
    Progress.InputsKeepConfig(y, Handed(x, t1), t2);
    var y1 := NodeInputs(y, Handed(x, t1), t2);
    SpareNodeFlush(y1, t3, 1);
    FlushFrame(y1, t3);
    SentIsListed(y1, x1, t3, t4);
    ListedIsDropped(y1, x1, t3, t4);
    Progress.InputsKeepConfig(x1, Handed(y1, t3), t4);
  }

  lemma FlushFrame(n: Node, now: u32)
    ensures NodeFlush(n, now).eng.cfg == n.eng.cfg && NodeFlush(n, now).eng.rcvQueue == n.eng.rcvQueue
  {
    hide Flush;
  }

  lemma NotMoreOutstanding(x: Node, r: Node)
    requires Shortened(x.eng.sndBuf, r.eng.sndBuf) && r.eng.sndQueue == x.eng.sndQueue
    ensures Outstanding(r.eng) <= Outstanding(x.eng)
  {
  }

  // ---- A sender stopped by a closed window ----

  function Ask(n: Node): Node {
    n.(eng := n.eng.(probe := n.eng.probe.(askSend := true)))
  }

  lemma AskKeepsReady(p: Pair, k: nat)
    requires Ready(p, k) && Drained(p)
    ensures Ready(Pair(Ask(p.x), p.y), k) && Drained(Pair(Ask(p.x), p.y))
  {
    AskingKeepsAll(p.x, p.y);
    hide NodeInv, PairInv, Listed, MessagesFit;
  }

  lemma NothingNumbered(x: Node, now: u32)
    requires NodeInv(x) && x.eng.sndBuf == [] && EffectiveWindow(x.eng) <= 0
    ensures var r := NodeFlush(x, now);
            r.eng.sndBuf == [] && r.hist == x.hist && r.eng.sndQueue == x.eng.sndQueue && Units(r) == Units(x)
  {
    FlushSameUnits(x, now);
    var k := FlushNumbers(x.eng, now);
    assert SendInv(Exact, x.eng);
    FlushNumbersIff(Exact, x.eng, now);
    hide NodeInv, Flush, Units, BeforeScan;
  }

  /** A probe round gives a stopped sender an open window. */
  lemma ProbeRoundOpens(p: Pair, k: nat)
    requires Ready(p, k) && k >= 1 && p.x.eng.probe.askSend
    requires p.x.eng.sndBuf == [] && EffectiveWindow(p.x.eng) <= 0 && Drained(p)
    ensures var (x2, y2) := Round(p.x, p.y, 0, 0, 0, 0);
            && Ready(Pair(x2, y2), k - 1) && x2.eng.sndBuf == [] && EffectiveWindow(x2.eng) > 0
            && x2.eng.sndQueue == p.x.eng.sndQueue
  {
    RoundKeepsReady(p, 0, 0, 0, 0, k);
    WindowReported(p, k);
    NothingAppears(p);
    hide NodeInv, PairInv, Spare, Flush, Round, EffectiveWindow;
    OpenWindow(Round(p.x, p.y, 0, 0, 0, 0).0.eng);
  }

  lemma WindowReported(p: Pair, k: nat)
    requires Ready(p, k) && k >= 1 && p.x.eng.probe.askSend
    requires p.x.eng.sndBuf == [] && EffectiveWindow(p.x.eng) <= 0 && Drained(p)
    ensures Round(p.x, p.y, 0, 0, 0, 0).0.eng.wnd.rmt > 0
  {
    hide NodeInv, PairInv, Spare, Flush, AllTruthful, NodeFlush, NodeInputs, Units, EffectiveWindow, Round, ProbeTimer,
         Handed;
    var x, y := p.x, p.y;
    RoundKeepsReady(p, 0, 0, 0, 0, k);
    AskedProbe(x.eng);
    ProbeFindsWindow(x, y, 0, 0, 0, 0);
    NothingNumbered(x, 0);
    SenderOfRound(x, y, 0);
    HandedTruthful(x, 0);
    InputsKeepAll(y, NodeFlush(x, 0), Handed(x, 0), 0);
    InputsKeepOpen(y, Handed(x, 0), 0);
    InputsOpen(NodeFlush(x, 0), y, Handed(x, 0), 0, y.eng.rcvNxt);
    RoomStays(x, y, NodeFlush(x, 0), NodeInputs(y, Handed(x, 0), 0));
  }

  lemma NothingAppears(p: Pair)
    requires PairOk(p) && p.x.eng.sndBuf == [] && EffectiveWindow(p.x.eng) <= 0
    ensures var x2 := Round(p.x, p.y, 0, 0, 0, 0).0;
            x2.eng.sndBuf == [] && x2.eng.sndQueue == p.x.eng.sndQueue
  {
    var x, y := p.x, p.y;
    NothingNumbered(x, 0);
    hide NodeInv, PairInv, Flush, AllTruthful, NodeFlush, NodeInputs, Units, EffectiveWindow, Handed;
    SenderOfRound(x, y, 0);
    HandedTruthful(x, 0);
    InputsKeepAll(y, NodeFlush(x, 0), Handed(x, 0), 0);
    StillNothing(NodeFlush(x, 0), NodeInputs(y, Handed(x, 0), 0));
  }

  lemma AskedProbe(s: State)
    requires s.probe.askSend
    ensures ProbeTimer(s.probe, s.wnd.rmt, 0).askSend
  {
    hide TimeDiff;
  }

  lemma OpenWindow(s: State)
    requires s.wnd.rmt > 0 && s.wnd.cwnd >= 1
    ensures EffectiveWindow(s) > 0
  {
  }

  lemma RoomStays(x: Node, y: Node, x1: Node, y1: Node)
    requires NodeInv(x) && NodeInv(y) && PairInv(x, y) && NodeInv(x1) && NodeInv(y1) && PairInv(x1, y1)
    requires x.eng.sndBuf == [] && x1.eng.sndBuf == [] && |y.eng.rcvQueue| < y.eng.cfg.rcvWnd
    requires x1.hist == x.hist && Units(x1) == Units(x) && y1.delivered == y.delivered && y1.eng.cfg == y.eng.cfg
    requires y.eng.rcvNxt <= y1.eng.rcvNxt
    ensures WndUnused(y1.eng) > 0
  {
    AllReceived(x, y);
    QueueOf(x, y);
    NotBeyond(x1, y1);
    QueueOf(x1, y1);
    hide NodeInv, PairInv, Units, Join;
  }

  lemma NotBeyond(x: Node, y: Node)
    requires NodeInv(x) && PairInv(x, y)
    ensures y.eng.rcvNxt <= |x.hist|
  {
    hide NodeInv, NoLoss, Delivers;
  }

  lemma StillNothing(x1: Node, y1: Node)
    requires NodeInv(x1) && NodeInv(y1) && PairInv(x1, y1) && PairInv(y1, x1) && x1.eng.sndBuf == []
    ensures var x2 := NodeInputs(x1, Handed(y1, 0), 0);
            x2.eng.sndBuf == [] && x2.eng.sndQueue == x1.eng.sndQueue
  {
    hide NodeInv, PairInv, Flush, AllTruthful, NodeFlush, NodeInputs;
    SenderOfRound(y1, x1, 0);
    HandedTruthful(y1, 0);
    InputsKeepAll(x1, NodeFlush(y1, 0), Handed(y1, 0), 0);
  }

  // ---- Rounds as actions ----

  function Deliveries(who: Side, first: nat, n: nat, now: u32): seq<Action> {
    seq(n, i requires 0 <= i => Action.Deliver(who, first + i, now))
  }

  lemma {:induction false} RunAppend(sys: System, a: seq<Action>, b: seq<Action>)
    ensures RunSystem(sys, a + b) == RunSystem(RunSystem(sys, a), b)
    decreases |b|
  {
    if b == [] {
      assert a + b == a;
    } else {
      assert (a + b)[..|a + b| - 1] == a + b[..|b| - 1];
      hide Apply;
      RunAppend(sys, a, b[..|b| - 1]);
    }
  }

  lemma RunOne(sys: System, a: Action)
    ensures RunSystem(sys, [a]) == Apply(sys, a)
  {
    var one := [a];
    assert one[..0] == [] && RunSystem(sys, one[..0]) == sys;
    hide Apply;
  }

  lemma {:induction false} ReadsRun(sys: System, who: Side, times: nat)
    ensures RunSystem(sys, Reads(who, times)) == With(sys, who, ReadAll(At(sys, who), times))
  {
    hide NodeRecv;
    if times > 0 {
      ReadsRun(sys, who, times - 1);
      ReadAllSnoc(At(sys, who), times);
      assert Reads(who, times)[..times - 1] == Reads(who, times - 1);
    }
  }

  lemma {:induction false} InputsSnoc(n: Node, ds: seq<seq<Wire>>, d: seq<Wire>, now: u32)
    ensures NodeInputs(n, ds + [d], now) == NodeInput(NodeInputs(n, ds, now), d, now)
    decreases |ds|
  {
    hide NodeInput;
    if ds == [] {
      assert ds + [d] == [d] && [d][1..] == [];
      assert NodeInputs(NodeInput(n, d, now), [], now) == NodeInput(n, d, now);
    } else {
      assert (ds + [d])[1..] == ds[1..] + [d];
      InputsSnoc(NodeInput(n, ds[0], now), ds[1..], d, now);
    }
  }

  /** Datagrams delivered one after the other. */
  lemma {:induction false} DeliveriesRun(sys: System, who: Side, first: nat, n: nat, now: u32)
    requires first + n <= |At(sys, Other(who)).net|
    ensures RunSystem(sys, Deliveries(who, first, n, now))
         == With(sys, who, NodeInputs(At(sys, who), At(sys, Other(who)).net[first..first + n], now))
    decreases n
  {
    var net := At(sys, Other(who)).net;
    hide NodeInput, Apply;
    if n > 0 {
      DeliveriesRun(sys, who, first, n - 1, now);
      assert Deliveries(who, first, n, now)[..n - 1] == Deliveries(who, first, n - 1, now);
      assert net[first..first + n] == net[first..first + n - 1] + [net[first + n - 1]];
      InputsSnoc(At(sys, who), net[first..first + n - 1], net[first + n - 1], now);
      DeliverOne(sys, who, NodeInputs(At(sys, who), net[first..first + n - 1], now), first + n - 1, now);
    }
  }

  lemma DeliverOne(sys: System, who: Side, n: Node, index: nat, now: u32)
    requires index < |At(sys, Other(who)).net|
    ensures Apply(With(sys, who, n), Action.Deliver(who, index, now))
         == With(sys, who, NodeInput(n, At(sys, Other(who)).net[index], now))
  {
    hide NodeInput;
  }

  lemma FlushedNet(n: Node, now: u32)
    ensures var (r, k) := (NodeFlush(n, now), |Handed(n, now)|);
            |r.net| == |n.net| + k && r.net[|n.net|..|n.net| + k] == Handed(n, now)
  {
    hide Flush;
  }

  /** One half of a round: `who` flushes, and the other side gets what that hands over. */
  function Half(sys: System, who: Side, probe: bool, now: u32, later: u32): seq<Action> {
    var n := if probe then Ask(At(sys, who)) else At(sys, who);
    [if probe then KeepAlive(who, now) else Transmit(who, now)]
    + Deliveries(Other(who), |n.net|, |Handed(n, now)|, later)
  }

  lemma HalfRuns(sys: System, who: Side, probe: bool, now: u32, later: u32)
    ensures var n := if probe then Ask(At(sys, who)) else At(sys, who);
            RunSystem(sys, Half(sys, who, probe, now, later))
            == With(With(sys, who, NodeFlush(n, now)), Other(who),
              NodeInputs(At(sys, Other(who)), Handed(n, now), later))
  {
    hide NodeFlush, NodeInputs, RunSystem;
    var n := if probe then Ask(At(sys, who)) else At(sys, who);
    var a := if probe then KeepAlive(who, now) else Transmit(who, now);
    var sys1 := With(sys, who, NodeFlush(n, now));
    RunOne(sys, a);
    FlushedNet(n, now);
    var k := |Handed(n, now)|;
    RunAppend(sys, [a], Deliveries(Other(who), |n.net|, k, later));
    DeliveriesRun(sys1, Other(who), |n.net|, k, later);
  }

  /** Reading to the end, and a round, as actions. */
  lemma RoundRuns(sys: System, from: Side, times: nat, probe: bool, t1: u32) returns (actions: seq<Action>)
    ensures var x := if probe then Ask(At(sys, from)) else At(sys, from);
            var (x2, y2) := Round(x, ReadAll(At(sys, Other(from)), times), t1, 0, 0, 0);
            RunSystem(sys, actions) == With(With(sys, from, x2), Other(from), y2)
  {
    hide NodeFlush, NodeInputs, RunSystem, ReadAll, Handed, Half;
    var to := Other(from);
    var x := if probe then Ask(At(sys, from)) else At(sys, from);
    var sys1 := With(sys, to, ReadAll(At(sys, to), times));
    ReadsRun(sys, to, times);
    HalfRuns(sys1, from, probe, t1, 0);
    var sys2 := RunSystem(sys1, Half(sys1, from, probe, t1, 0));
    HalfRuns(sys2, to, false, 0, 0);
    RunAppend(sys, Reads(to, times), Half(sys1, from, probe, t1, 0));
    RunAppend(sys, Reads(to, times) + Half(sys1, from, probe, t1, 0), Half(sys2, to, false, 0, 0));
    actions := Reads(to, times) + Half(sys1, from, probe, t1, 0) + Half(sys2, to, false, 0, 0);
    hide Round;
    TwoHalves(sys, from, x, ReadAll(At(sys, to), times), t1);
  }

  lemma TwoHalves(sys: System, from: Side, x: Node, y: Node, t1: u32)
    ensures var y1 := NodeInputs(y, Handed(x, t1), 0);
            var (x2, y2) := Round(x, y, t1, 0, 0, 0);
            x2 == NodeInputs(NodeFlush(x, t1), Handed(y1, 0), 0) && y2 == NodeFlush(y1, 0)
  {
    hide NodeFlush, NodeInputs, Handed;
  }

  // ---- The continuation ----

  ghost predicate ReadySystem(sys: System, from: Side, k: nat) {
    Ready(Pair(At(sys, from), At(sys, Other(from))), k)
  }

  /** When the oldest segment is due: at its own deadline, or at once. */
  function DueTime(s: State): u32 {
    if s.sndBuf != [] then s.sndBuf[0].resendts else 0
  }

  lemma DueAtDeadline(s: State)
    requires HasUnsentData(s) && (s.sndBuf == [] ==> EffectiveWindow(s) > 0)
    ensures FrontDue(s, DueTime(s))
  {
    hide EffectiveWindow;
  }

  /** Reading at both sides and a round, as actions. */
  lemma ReadingRoundRuns(sys: System, from: Side, atX: nat, atY: nat, probe: bool, t1: u32)
    returns (actions: seq<Action>)
    ensures var x0 := ReadAll(At(sys, from), atX);
            var x := if probe then Ask(x0) else x0;
            var (x2, y2) := Round(x, ReadAll(At(sys, Other(from)), atY), t1, 0, 0, 0);
            RunSystem(sys, actions) == With(With(sys, from, x2), Other(from), y2)
  {
    hide RunSystem, ReadAll, Round;
    ReadsRun(sys, from, atX);
    var sys1 := With(sys, from, ReadAll(At(sys, from), atX));
    var rest := RoundRuns(sys1, from, atY, probe, t1);
    RunAppend(sys, Reads(from, atX), rest);
    actions := Reads(from, atX) + rest;
  }

  /** One advance: the applications read, and the oldest segment makes a round trip. */
  lemma Advance(sys: System, from: Side, k: nat) returns (actions: seq<Action>)
    requires ReadySystem(sys, from, k) && k >= 1 && HasUnsentData(At(sys, from).eng)
    requires At(sys, from).eng.sndBuf == [] ==> EffectiveWindow(At(sys, from).eng) > 0
    ensures var r := RunSystem(sys, actions);
            ReadySystem(r, from, k - 1) && Outstanding(At(r, from).eng) < Outstanding(At(sys, from).eng)
  {
    hide NodeInv, PairInv, Budget, Recv, Flush, EffectiveWindow, FrontDue, Outstanding, SendsFront, RunSystem, Round,
         ReadAll, MessagesFit;
    var atX, atY := ReadsAtBoth(Pair(At(sys, from), At(sys, Other(from))), k);
    var x, y := ReadAll(At(sys, from), atX), ReadAll(At(sys, Other(from)), atY);
    SameOutstanding(At(sys, from).eng, x.eng);
    var t1 := DueTime(x.eng);
    DueAtDeadline(x.eng);
    RoundKeepsReady(Pair(x, y), t1, 0, 0, 0, k);
    DueFrontIsSent(x, t1);
    RoundAdvances(x, y, t1, 0, 0, 0);
    actions := ReadingRoundRuns(sys, from, atX, atY, false, t1);
  }

  lemma SameOutstanding(s: State, r: State)
    requires SameSender(s, r)
    ensures Outstanding(r) == Outstanding(s) && HasUnsentData(r) == HasUnsentData(s) && r.sndBuf == s.sndBuf
    ensures EffectiveWindow(r) == EffectiveWindow(s) && r.sndQueue == s.sndQueue
  {
  }

  /** A sender with nothing in flight and a closed window gets an open one. */
  lemma Unstop(sys: System, from: Side, k: nat) returns (actions: seq<Action>)
    requires ReadySystem(sys, from, k) && k >= 1
    requires At(sys, from).eng.sndBuf == [] && EffectiveWindow(At(sys, from).eng) <= 0
    ensures var r := RunSystem(sys, actions);
            && ReadySystem(r, from, k - 1) && At(r, from).eng.sndBuf == [] && EffectiveWindow(At(r, from).eng) > 0
            && At(r, from).eng.sndQueue == At(sys, from).eng.sndQueue
  {
    var p := Pair(At(sys, from), At(sys, Other(from)));
    hide NodeInv, PairInv, Budget, Recv, Flush, RunSystem, Round, ReadAll, EffectiveWindow, MessagesFit, Drained;
    var atX, atY := ReadsAtBoth(p, k);
    var x, y := ReadAll(p.x, atX), ReadAll(p.y, atY);
    SameOutstanding(p.x.eng, x.eng);
    AskKeepsReady(Pair(x, y), k);
    SameOutstanding(x.eng, Ask(x).eng);
    ProbeRoundOpens(Pair(Ask(x), y), k);
    actions := ReadingRoundRuns(sys, from, atX, atY, true, 0);
  }

  /** At most two rounds for each segment outstanding. */
  lemma {:induction false} Finishes(sys: System, from: Side, k: nat) returns (actions: seq<Action>)
    requires ReadySystem(sys, from, k) && k >= 2 * Outstanding(At(sys, from).eng)
    ensures !HasUnsentData(At(RunSystem(sys, actions), from).eng)
    decreases Outstanding(At(sys, from).eng)
  {
    hide NodeInv, PairInv, Spare, EffectiveWindow, RunSystem, ReadySystem;
    var s := At(sys, from).eng;
    if !HasUnsentData(s) {
      actions := [];
      RunNothing(sys);
    } else {
      var sys1, first, j := sys, [], k;
      RunNothing(sys);
      if s.sndBuf == [] && EffectiveWindow(s) <= 0 {
        first := Unstop(sys, from, k);
        sys1, j := RunSystem(sys, first), k - 1;
      }
      var second := Advance(sys1, from, j);
      var sys2 := RunSystem(sys1, second);
      var rest := Finishes(sys2, from, j - 1);
      RunAppend(sys, first, second);
      RunAppend(sys, first + second, rest);
      actions := first + second + rest;
    }
  }

  lemma RunNothing(sys: System)
    ensures RunSystem(sys, []) == sys
  {
  }

  // ---- From every reachable state ----

  lemma ApplyKeepsWindowOpen(sys: System, a: Action, who: Side)
    requires At(sys, who).eng.wnd.cwnd >= 1
    ensures At(Apply(sys, a), who).eng.wnd.cwnd >= 1
  {
    hide Send, Recv, Flush, Input;
    var s := At(sys, who).eng;
    match a
    case Submit(w, msg) => StepKeepsWindowOpen(Exact, s, DoSend(msg));
    case Read(w) => StepKeepsWindowOpen(Exact, s, DoRecv);
    case Transmit(w, now) => StepKeepsWindowOpen(Exact, s, DoFlush(now));
    case KeepAlive(w, now) => StepKeepsWindowOpen(Exact, s, DoProbe(now));
    case Deliver(w, index, now) =>
      var net := At(sys, Other(w)).net;
      if index < |net| { StepKeepsWindowOpen(Exact, s, DoInput(net[index], now)); }
  }

  lemma {:induction false} EveryRunKeepsWindowsOpen(conv: u32, left: Config, right: Config, actions: seq<Action>,
      who: Side)
    ensures At(Reached(conv, left, right, actions), who).eng.wnd.cwnd >= 1
    decreases |actions|
  {
    if actions != [] {
      hide Apply;
      EveryRunKeepsWindowsOpen(conv, left, right, actions[..|actions| - 1], who);
      ApplyKeepsWindowOpen(Reached(conv, left, right, actions[..|actions| - 1]), actions[|actions| - 1], who);
    }
  }

  lemma ReadyInRun(conv: u32, left: Config, right: Config, actions: seq<Action>, from: Side, k: nat)
    requires var sys := Reached(conv, left, right, actions);
             var (x, y) := (At(sys, from), At(sys, Other(from)));
             MessagesFit(x.eng.cfg, y.eng.cfg) && Budget(Pair(x, y), k)
    ensures ReadySystem(Reached(conv, left, right, actions), from, k)
  {
    hide RunSystem, NodeInv, PairInv, Budget, MessagesFit;
    Invariants(conv, left, right, actions, from);
    EveryRunKeepsWindowsOpen(conv, left, right, actions, from);
    EveryRunKeepsWindowsOpen(conv, left, right, actions, Other(from));
  }

  /** From every reachable state of two engines with matched windows, whatever was sent, lost,
      duplicated, reordered or is still under way, however much is queued and in flight, with every
      window open or closed: if each segment in flight can be transmitted once more before the link
      counts as dead, some continuation ends with `has_unsent_data` false. (One transmission must be
      left: with a limit of one no engine sends anything, see `FreshFlushSucceedsIff`.) */
  lemma SomeContinuationFinishes(conv: u32, left: Config, right: Config, actions: seq<Action>, from: Side)
    returns (more: seq<Action>)
    requires var sys := Reached(conv, left, right, actions);
             var (x, y) := (At(sys, from).eng, At(sys, Other(from)).eng);
             Matched(x.cfg, y.cfg) && Spare(x, 1) && Spare(y, 1)
    ensures !HasUnsentData(At(Reached(conv, left, right, actions + more), from).eng)
  {
    hide RunSystem, Spare, Outstanding, MessagesFit;
    var sys := Reached(conv, left, right, actions);
    SpareIsAssured(At(sys, Other(from)).eng, At(sys, from).eng.ackList);
    var k := 2 * Outstanding(At(sys, from).eng);
    ReadyInRun(conv, left, right, actions, from, k);
    hide ReadySystem;
    more := Finishes(sys, from, k);
    RunAppend(InitSystem(conv, left, right), actions, more);
  }

  lemma SpareIsAssured(s: State, acks: seq<Ack>)
    requires Spare(s, 1)
    ensures Assured(s, acks)
  {
    hide Listed;
  }

  /** With windows that do not match, as long as the messages of `from` fit the window of its peer: if
      each segment in flight at either side can be transmitted twice for each segment outstanding. */
  lemma NarrowContinuationFinishes(conv: u32, left: Config, right: Config, actions: seq<Action>, from: Side)
    returns (more: seq<Action>)
    requires var sys := Reached(conv, left, right, actions);
             var (x, y) := (At(sys, from).eng, At(sys, Other(from)).eng);
             && MessagesFit(x.cfg, y.cfg)
             && Spare(x, 2 * Outstanding(x)) && Spare(y, 2 * Outstanding(x))
    ensures !HasUnsentData(At(Reached(conv, left, right, actions + more), from).eng)
  {
    hide RunSystem, Spare, Outstanding, MessagesFit;
    var sys := Reached(conv, left, right, actions);
    var k := 2 * Outstanding(At(sys, from).eng);
    ReadyInRun(conv, left, right, actions, from, k);
    hide ReadySystem;
    more := Finishes(sys, from, k);
    RunAppend(InitSystem(conv, left, right), actions, more);
  }
}
