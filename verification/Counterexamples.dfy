/** Inputs on which a guarantee one might expect fails: each is one the code can be given, and shows
    that the condition proved elsewhere cannot be dropped. */
module Counterexamples {
  import opened Word
  import opened Protocol
  import opened EngineSpec
  import opened Fragments
  import opened Packing
  import opened Deadlines
  import opened Network
  import opened NetworkSafety
  import opened Delivery
  import opened Progress
  import opened ByteNetwork
  import opened ActorSpec
  import opened StreamSpec
  import opened Shell
  import opened ShellSafety

  // ---- A stream-mode error that changes the engine ----

  /** In stream mode, after one byte, a message one segment too long is rejected and part of it stays
      queued, whatever the configuration. */
  lemma StreamErrorLeavesPrefix(conv: u32, cfg: Config, b: byte, data: Bytes)
    requires cfg.streamMode && |data| == (MaxFragments(cfg) + 1) * Mss(cfg)
    ensures var s := Send(Init(conv, cfg), [b]).0;
            && !Send(s, data).1 && Send(s, data).0 != s
            && DataOf(Send(s, data).0.sndQueue) == [b] + data[..Mss(cfg) - 1]
  {
    var s0, mss, max := Init(conv, cfg), Mss(cfg), MaxFragments(cfg);
    var s := Send(s0, [b]).0;
    assert s.sndQueue == [Frag(0, [b])];
    assert MergeLength(s, data) == mss - 1 by { TimesMonotone(1, max + 1, mss); }
    assert (max + 1) * mss == max * mss + mss;
    SendAccepts(s, data);
    RejectionChangesNothingIff(s, data);
    SendAppends(s, data);
    assert DataOf(s.sndQueue) == [b] by { assert s.sndQueue[1..] == [] && [b] + [] == [b]; }
  }

  // ---- A full receive queue with nothing to return ----

  lemma SubmitOne(conv: u32, cfg: Config, msg: Bytes)
    requires msg != [] && !cfg.streamMode && FragmentCount(|msg|, Mss(cfg)) <= MaxFragments(cfg)
    ensures var x := NodeSend(InitNode(conv, cfg), msg);
            && x.accepted == [msg] && x.eng == Init(conv, cfg).(sndQueue := Fragment(msg, Mss(cfg), false))
  {
    assert msg[0..] == msg;
    hide Fragment, FragmentCount;
  }

  lemma RunThree(sys: System, a: Action, b: Action, c: Action)
    ensures RunSystem(sys, [a, b, c]) == Apply(Apply(Apply(sys, a), b), c)
  {
    var three, two, one := [a, b, c], [a, b], [a];
    assert three[..2] == two && two[..1] == one && one[..0] == [];
    assert RunSystem(sys, one[..0]) == sys;
    assert RunSystem(sys, one) == Apply(sys, a);
    hide Apply;
  }

  /** What is known of the peer after the oldest segment has reached it and nothing has been read. */
  lemma OneSegmentQueued(x: Node, y: Node)
    requires NodeInv(x) && NodeInv(y) && PairInv(x, y) && y.eng.rcvNxt >= 1 && y.delivered == []
    ensures |y.eng.rcvQueue| >= 1
  {
    assert Units(x)[..0] == [] && Join([]) == [];
    hide Units, SizesInv, Truthful, NoLoss, ReceivesFrom, AcksHeld, BufferMatches;
  }

  /** Submitting a message, flushing, and delivering one datagram of that flush. */
  lemma SubmitTransmitDeliver(sys: System, msg: Bytes, index: nat)
    requires index < |NodeFlush(NodeSend(sys.left, msg), 0).net|
    ensures var x := NodeFlush(NodeSend(sys.left, msg), 0);
            RunSystem(sys, [Submit(Left, msg), Transmit(Left, 0), Action.Deliver(Right, index, 0)])
            == System(x, NodeInput(sys.right, x.net[index], 0))
  {
    hide NodeSend, NodeFlush, NodeInput, RunSystem;
    RunThree(sys, Submit(Left, msg), Transmit(Left, 0), Action.Deliver(Right, index, 0));
  }

  /** Two new engines, one of which has been given a message. */
  lemma FreshPair(conv: u32, left: Config, right: Config, msg: Bytes)
    requires msg != [] && !left.streamMode && FragmentCount(|msg|, Mss(left)) <= MaxFragments(left)
    ensures var (x, y) := (NodeSend(InitNode(conv, left), msg), InitNode(conv, right));
            && NodeInv(x) && NodeInv(y) && PairInv(x, y) && PairInv(y, x)
            && x.accepted == [msg] && x.eng.cfg == left && x.eng.sndBuf == [] && x.eng.sndUna == 0 && FrontDue(x.eng, 0)
            && y.eng.cfg == right && y.eng.rcvNxt == 0 && y.eng.rcvQueue == [] && y.delivered == []
  {
    FreshFront(conv, left, msg);
    InitIsSafe(conv, left, right);
    hide NodeInv, PairInv, NodeSend, Mss, FrontDue;
    SendKeepsNode(InitNode(conv, left), msg);
    SendKeepsPairs(InitNode(conv, left), InitNode(conv, right), msg);
  }

  lemma FreshFront(conv: u32, cfg: Config, msg: Bytes)
    requires msg != [] && !cfg.streamMode && FragmentCount(|msg|, Mss(cfg)) <= MaxFragments(cfg)
    ensures var x := NodeSend(InitNode(conv, cfg), msg);
            x.accepted == [msg] && x.eng.cfg == cfg && x.eng.sndBuf == [] && x.eng.sndUna == 0 && FrontDue(x.eng, 0)
  {
    SubmitOne(conv, cfg, msg);
    FragmentShape(msg, Mss(cfg), false);
    hide FragmentCount, Fragment, NodeSend;
  }

  /** The first flush puts the first segment on the network. */
  lemma FirstSegmentIsSent(x: Node, y: Node) returns (index: nat)
    requires NodeInv(x) && NodeInv(y) && PairInv(x, y) && PairInv(y, x)
    requires x.eng.sndBuf == [] && x.eng.sndUna == 0 && FrontDue(x.eng, 0) && x.eng.cfg.deadLink >= 2
    requires y.eng.rcvNxt == 0 && y.eng.rcvQueue == []
    ensures var x2 := NodeFlush(x, 0);
            && index < |x2.net| && NodeInv(x2) && x2.accepted == x.accepted && x2.eng.cfg == x.eng.cfg
            && var r := NodeInput(y, x2.net[index], 0);
               && NodeInv(r) && PairInv(x2, r) && r.eng.rcvNxt >= 1
               && r.delivered == y.delivered && r.eng.cfg == y.eng.cfg
  {
    hide NodeInv, PairInv, Flush, AllTruthful, FrontDue, NodeFlush, NodeInput;
    FreshFlushSucceedsIff(Exact, x.eng, 0);
    DueFrontIsSent(x, 0);
    SenderOfRound(x, y, 0);
    HandedTruthful(x, 0);
    FlushKeepsAccepted(x, 0);
    var d, w :| d in Handed(x, 0) && w in d && w.cmd == CMD_PUSH && w.sn == x.eng.sndUna;
    index := HandedIsSent(x, 0, d);
    WideAfterDelivery(NodeFlush(x, 0), y, d, w);
  }

  lemma WideMessageFills(conv: u32, left: Config, right: Config, msg: Bytes) returns (index: nat)
    requires !left.streamMode && left.deadLink >= 2 && right.rcvWnd == 1
    requires 2 <= FragmentCount(|msg|, Mss(left)) <= MaxFragments(left)
    ensures var sys := Reached(conv, left, right,
            [Submit(Left, msg), Transmit(Left, 0), Action.Deliver(Right, index, 0)]);
            && sys.left.accepted == [msg] && sys.left.eng.cfg == left && sys.right.eng.cfg == right
            && |sys.right.eng.rcvQueue| >= 1 && Recv(Exact, sys.right.eng).1.None?
  {
    FragmentShape(msg, Mss(left), false);
    hide FragmentCount, Fragment, NodeInv, PairInv, NodeSend, NodeFlush, NodeInput, InitNode, FrontDue, Recv,
         RunSystem, Mss, MaxFragments, Units;
    var x1, y0 := NodeSend(InitNode(conv, left), msg), InitNode(conv, right);
    FreshPair(conv, left, right, msg);
    index := FirstSegmentIsSent(x1, y0);
    SubmitTransmitDeliver(InitSystem(conv, left, right), msg, index);
    FirstUnit(x1, NodeFlush(x1, 0), msg);
    NextMessageIsWide(NodeFlush(x1, 0), NodeInput(y0, NodeFlush(x1, 0).net[index], 0));
  }

  /** With a receive window of 2 or more at the sender and 1 at the receiver, a first message of two
      fragments or more fills the receiver's queue and is never returned: it is accepted, transmitted
      and delivered, the queue is full, and whatever happens from then on, `recv` has nothing. */
  lemma WideMessageBlocks(conv: u32, left: Config, right: Config, msg: Bytes) returns (actions: seq<Action>)
    requires !left.streamMode && left.deadLink >= 2 && right.rcvWnd == 1
    requires 2 <= FragmentCount(|msg|, Mss(left)) <= MaxFragments(left)
    ensures var sys := Reached(conv, left, right, actions);
            && sys.left.accepted == [msg]
            && |sys.right.eng.rcvQueue| >= sys.right.eng.cfg.rcvWnd
            && Recv(Exact, sys.right.eng).1.None?
    ensures forall more: seq<Action> :: Reached(conv, left, right, actions + more).right.delivered == []
  {
    hide RunSystem, FragmentCount, Mss, MaxFragments, Recv;
    var index := WideMessageFills(conv, left, right, msg);
    actions := [Submit(Left, msg), Transmit(Left, 0), Action.Deliver(Right, index, 0)];
    forall more: seq<Action> ensures Reached(conv, left, right, actions + more).right.delivered == [] {
      StaysBlocked(conv, left, right, actions, more, msg);
    }
  }

  lemma {:induction false} AcceptedGrowsAlong(sys: System, actions: seq<Action>, more: seq<Action>, who: Side)
    ensures At(RunSystem(sys, actions), who).accepted <= At(RunSystem(sys, actions + more), who).accepted
    ensures At(RunSystem(sys, actions + more), who).eng.cfg == At(RunSystem(sys, actions), who).eng.cfg
    decreases |more|
  {
    hide Apply;
    if more == [] {
      assert actions + more == actions;
    } else {
      var init, all := more[..|more| - 1], actions + more;
      assert all[..|all| - 1] == actions + init;
      AcceptedGrowsAlong(sys, actions, init, who);
      AcceptedOnlyGrows(RunSystem(sys, actions + init), more[|more| - 1], who);
    }
  }

  lemma StaysBlocked(conv: u32, left: Config, right: Config, actions: seq<Action>, more: seq<Action>, msg: Bytes)
    requires var sys := Reached(conv, left, right, actions);
             sys.left.accepted == [msg] && sys.left.eng.cfg == left && sys.right.eng.cfg == right
    requires !left.streamMode && FragmentCount(|msg|, Mss(left)) > right.rcvWnd
    ensures Reached(conv, left, right, actions + more).right.delivered == []
  {
    hide RunSystem, FragmentCount, Mss;
    AcceptedGrowsAlong(InitSystem(conv, left, right), actions, more, Left);
    AcceptedGrowsAlong(InitSystem(conv, left, right), actions, more, Right);
    var sys := Reached(conv, left, right, actions + more);
    assert sys.left.accepted[0] == msg;
    assert TooWide(sys.left, 0, sys.right);
    WideMessageIsNeverDelivered(conv, left, right, actions + more, Left, 0);
  }

  lemma FlushKeepsAccepted(n: Node, now: u32)
    ensures NodeFlush(n, now).accepted == n.accepted && NodeFlush(n, now).eng.cfg == n.eng.cfg
  {
    hide Flush;
  }

  lemma HandedIsSent(n: Node, now: u32, d: seq<Wire>) returns (index: nat)
    requires d in Handed(n, now)
    ensures index < |NodeFlush(n, now).net| && NodeFlush(n, now).net[index] == d
  {
    hide Flush;
    var ds := Handed(n, now);
    var i :| 0 <= i < |ds| && ds[i] == d;
    index := |n.net| + i;
  }

  lemma FirstUnit(x1: Node, x2: Node, msg: Bytes)
    requires x1.accepted == [msg] && !x1.eng.cfg.streamMode && x2.accepted == x1.accepted && x2.eng.cfg == x1.eng.cfg
    requires |Fragment(msg, Mss(x1.eng.cfg), false)| >= 2
    ensures |Units(x2)[0]| >= 2
  {
  }

  lemma WideAfterDelivery(x: Node, y: Node, d: seq<Wire>, w: Wire)
    requires NodeInv(x) && NodeInv(y) && PairInv(x, y) && PairInv(y, x) && AllTruthful(x.eng, x.hist, d)
    requires w in d && w.cmd == CMD_PUSH && w.sn == 0 && y.eng.rcvNxt == 0 && y.eng.rcvQueue == []
    ensures var r := NodeInput(y, d, 0);
            && NodeInv(r) && PairInv(x, r) && PairInv(r, x) && r.eng.rcvNxt >= 1
            && r.delivered == y.delivered && r.eng.cfg == y.eng.cfg
  {
    InputKeepsAll(y, x, d, 0);
    assert x.eng.conv == y.eng.conv;
    hide NodeInv, PairInv, AllTruthful;
    ConvOf(x, y.eng.conv, d);
    var i :| 0 <= i < |d| && d[i] == w;
    assert d[i].cmd == CMD_PUSH && d[i].sn == 0;
    InputOpens(y.eng, d, 0, 0);
    hide Input;
  }

  lemma NextMessageIsWide(x: Node, y: Node)
    requires NodeInv(x) && NodeInv(y) && PairInv(x, y) && y.eng.rcvNxt >= 1 && y.delivered == []
             && y.eng.cfg.rcvWnd == 1
    requires |Units(x)| > 0 ==> |Units(x)[0]| >= 2
    ensures |y.eng.rcvQueue| >= 1 && Recv(Exact, y.eng).1.None?
  {
    hide NodeInv, PairInv, Units, Recv;
    OneSegmentQueued(x, y);
    FullQueueIsReadableIff(x, y);
  }

  // ---- A write that is misreported ----

  /** `n` calls writing the byte `b`, which the caller takes to be its whole buffer. */
  function Writes(b: byte, n: nat): seq<Move> {
    seq(n, i => WriteCall(Left, [b]))
  }

  function Copies(b: byte, n: nat): seq<Bytes> {
    seq(n, i => [b])
  }

  /** The channel fills up. */
  lemma {:induction false} WritesFill(conv: u32, left: Config, right: Config, b: byte, n: nat)
    requires n <= SEND_CAPACITY
    ensures var (w0, w) := (NewWorld(conv, left, right), ShellRun(NewWorld(conv, left, right), Writes(b, n)));
            && DisciplinedRun(w0, Writes(b, n))
            && w.left.actor == w0.left.actor.(sendRx := Copies(b, n))
            && w.left.stream.pendingWrite.None? && !w.left.stream.closed && w.left.stream.mss == Mss(left)
  {
    if n > 0 {
      WritesFill(conv, left, right, b, n - 1);
      assert Writes(b, n)[..n - 1] == Writes(b, n - 1);
      assert Copies(b, n) == Copies(b, n - 1) + [[b]];
      assert [b][..1] == [b];
    }
  }

  /** What absorbing leaves of the channel and the send buffer. */
  lemma {:induction false} AbsorbShrinks(a: Actor, all: bool)
    ensures var r := Absorb(a, all);
            |r.sendRx| <= |a.sendRx| && r.end.eng.sndBuf == a.end.eng.sndBuf && r.end.eng.cfg == a.end.eng.cfg
    decreases |a.sendRx|
  {
    hide Send;
    if a.sendRx != [] && (all || |a.end.eng.sndQueue| < SendHighWater(a.end.eng.cfg)) {
      AbsorbShrinks(TakeOne(a), all);
    }
  }

  /** A new actor that takes what is in the channel makes room in it and goes on. */
  lemma OutboundMakesRoom(a: Actor)
    requires Enabled(a, Outbound(0)) && a.end.eng.sndBuf == [] && a.end.eng.cfg.deadLink >= 2 && !a.closing
    ensures var r := Turn(a, Outbound(0), 0, false);
            r.exit.Running? && |r.sendRx| < |a.sendRx|
  {
    hide Send, EndFlush, Absorb, Flush;
    var a1 := Absorb(TakeOne(a), false);
    AbsorbShrinks(TakeOne(a), false);
    FreshFlushSucceedsIff(Wrapping, a1.end.eng, 0);
  }

  /** The next write is parked. */
  lemma WriteParks(conv: u32, left: Config, right: Config, b: byte)
    ensures var (w0, moves) := (NewWorld(conv, left, right), Writes(b, SEND_CAPACITY + 1));
            var w := ShellRun(w0, moves);
            && DisciplinedRun(w0, moves)
            && w.left.actor == w0.left.actor.(sendRx := Copies(b, SEND_CAPACITY))
            && w.left.stream.pendingWrite == Some([b]) && !w.left.stream.closed
  {
    WritesFill(conv, left, right, b, SEND_CAPACITY);
    assert Writes(b, SEND_CAPACITY + 1)[..SEND_CAPACITY] == Writes(b, SEND_CAPACITY);
    assert [b][..1] == [b];
  }

  lemma RunThenTurn(w0: World, moves: seq<Move>, turn: Move)
    requires turn.ActorTurn? && DisciplinedRun(w0, moves)
    ensures ShellRun(w0, moves + [turn]) == ShellStep(ShellRun(w0, moves), turn)
    ensures DisciplinedRun(w0, moves + [turn])
  {
    assert (moves + [turn])[..|moves|] == moves;
    hide ShellStep;
  }

  lemma LeftTurn(w: World, ev: Event)
    requires Enabled(w.left.actor, ev) && !ev.Packet?
    ensures ShellStep(w, ActorTurn(Left, ev, 0, false)).left == w.left.(actor := Turn(w.left.actor, ev, 0, false))
  {
    hide Turn, Enabled, OnEvent, EventActions, CheckActions;
  }

  /** Then the actor takes what is in the channel. */
  lemma RoomAgain(conv: u32, left: Config, right: Config, b: byte)
    requires left.deadLink >= 2
    ensures var (w0, moves) := (NewWorld(conv, left, right), Writes(b, SEND_CAPACITY + 1));
            var turn := ActorTurn(Left, Outbound(0), 0, false);
            var p := ShellRun(w0, moves + [turn]).left;
            && DisciplinedRun(w0, moves + [turn])
            && p.actor.exit.Running? && |p.actor.sendRx| < SEND_CAPACITY
            && p.stream.pendingWrite == Some([b]) && !p.stream.closed
  {
    var w0, moves := NewWorld(conv, left, right), Writes(b, SEND_CAPACITY + 1);
    var turn := ActorTurn(Left, Outbound(0), 0, false);
    hide Turn, ShellRun, ShellStep, DisciplinedRun, NewActor, Enabled;
    WriteParks(conv, left, right, b);
    RunThenTurn(w0, moves, turn);
    var a := ShellRun(w0, moves).left.actor;
    NewActorIsIdle(conv, left, a, Copies(b, SEND_CAPACITY));
    LeftTurn(ShellRun(w0, moves), Outbound(0));
    OutboundMakesRoom(a);
  }

  lemma NewActorIsIdle(conv: u32, cfg: Config, a: Actor, chan: seq<Bytes>)
    requires a == NewActor(conv, cfg).(sendRx := chan) && chan != []
    ensures Enabled(a, Outbound(0)) && a.end.eng.sndBuf == [] && a.end.eng.cfg == cfg && !a.closing
  {
  }

  /** A parked write, reported to a caller that polls again with another byte: the caller is told
      that its second byte was written, and the first one goes out. */
  lemma MisreportedWrite(conv: u32, left: Config, right: Config, a: byte, b: byte)
    requires left.deadLink >= 2 && a != b
    ensures var moves := Writes(a, SEND_CAPACITY + 1) + [ActorTurn(Left, Outbound(0), 0, false)];
            var p := ShellRun(NewWorld(conv, left, right), moves).left;
            var (q, r) := PeerWrite(p, [b]);
            && DisciplinedRun(NewWorld(conv, left, right), moves)
            && ViewInv(p.stream) && r == Wrote(1) && !ViewInv(q.stream)
  {
    var moves := Writes(a, SEND_CAPACITY + 1) + [ActorTurn(Left, Outbound(0), 0, false)];
    RoomAgain(conv, left, right, a);
    hide ShellRun, DisciplinedRun, ViewInv, PeerInv, PeerWrite;
    EveryRunKeepsView(conv, left, right, moves);
    EveryRunKeepsWorld(conv, left, right, moves);
    OtherByteIsReported(ShellRun(NewWorld(conv, left, right), moves).left, a, b);
  }

  lemma OtherByteIsReported(p: Peer, a: byte, b: byte)
    requires PeerInv(p) && ViewInv(p.stream) && a != b
    requires p.stream.pendingWrite == Some([a]) && !p.stream.closed
    requires p.actor.exit.Running? && |p.actor.sendRx| < SEND_CAPACITY
    ensures PeerWrite(p, [b]).1 == Wrote(1) && !ViewInv(PeerWrite(p, [b]).0.stream)
  {
    hide ViewInv, PeerInv;
    ReportIsTrueIff(p, [b]);
    var one, other := [a], [b];
    assert one[0] != other[0];
  }
}
