/** What the assumption that no datagram comes 2^31 numbers late is for: a run of the engines as they
    are in which the network delivers a datagram once more after 2^32 segments, and an application is
    handed a message that was not sent to it again. */
module StaleRuns {
  import opened Word
  import opened Protocol
  import opened EngineSpec
  import opened Fragments
  import opened Deadlines
  import opened Network
  import opened Delivery
  import opened Refinement
  import opened ByteNetwork
  import opened WindowProbe
  import Congestion
  import EngineRun
  import ShellTrace
  import opened Scripts

  // ---- One message there, its acknowledgement back ----

  /** Nothing is queued, in flight, held or pending; `snd` numbers were given out, `rcv` expected next. */
  ghost predicate Quiet(s: State, conv: u32, cfg: Config, snd: int, rcv: int) {
    && s.conv == conv && s.cfg == cfg && s.sndUna == snd && s.sndNxt == snd && s.rcvNxt == rcv
    && s.sndQueue == [] && s.sndBuf == [] && s.rcvQueue == [] && s.rcvBuf == map[] && s.ackList == []
    && !s.probe.askSend && !s.probe.askTell && s.wnd.rmt >= 1 && s.wnd.cwnd >= 1 && s.out == Output([], [])
  }

  function DataOne(conv: u32, cfg: Config, sn: int, b: byte): Wire {
    Wire(conv, CMD_PUSH, 0, cfg.rcvWnd, 0, sn, 0, [b])
  }

  function AckOne(conv: u32, cfg: Config, sn: int): Wire {
    Wire(conv, CMD_ACK, 0, cfg.rcvWnd, 0, sn, sn + 1, [])
  }

  lemma QueueOne(s: State, conv: u32, cfg: Config, snd: int, b: byte)
    requires Quiet(s, conv, cfg, snd, 0)
    ensures Send(s, [b]) == (s.(sndQueue := [Frag(0, [b])]), true)
  {
    assert [b][0..] == [b] && [b][..0] == [];
    assert Fragment([b], Mss(cfg), cfg.streamMode) == [Frag(0, [b])];
    assert s.sndQueue + [Frag(0, [b])] == [Frag(0, [b])];
    hide Fragment;
  }

  lemma OneFits(out: Output, mtu: int, w: Wire)
    requires out == Output([], [])
    ensures OutputAll(out, mtu, [w]) == Output([], [w])
  {
    assert [w][..0] == [];
    assert OutputAll(out, mtu, [w][..0]) == out;
  }

  /** The segment as the flush finds it, and as it marks it. */
  function Fresh(s: State, b: byte): Segment {
    Segment(s.sndNxt, Frag(0, [b]), 0, 0, s.rtt.rto, 0, 0)
  }

  lemma NumbersOne(s: State, b: byte)
    requires s.sndUna == s.sndNxt && s.sndBuf == [] && s.sndQueue == [Frag(0, [b])] && EffectiveWindow(s) >= 1
    ensures var r := MoveToSendBuf(Exact, s, 0);
            r == s.(sndQueue := [], sndBuf := [Fresh(s, b)], sndNxt := s.sndNxt + 1)
  {
    var s1 := NumberOne(Exact, s, 0);
    assert s1.sndQueue == [] && s1.sndBuf == [Fresh(s, b)];
    assert MoveToSendBuf(Exact, s1, 0) == s1;
    hide EffectiveWindow;
  }

  /** Acknowledgements and probes first: here there is at most one acknowledgement, and no probe. */
  lemma NothingAsked(s: State)
    requires s.ackList == [] && !s.probe.askSend && !s.probe.askTell && s.wnd.rmt >= 1
    ensures HandleWindowProbe(FlushAcks(s), 0) == s.(probe := Probe(false, false, 0, 0))
  {
    assert AckWires(s) == [];
  }

  lemma SendsFresh(s: State, b: byte)
    requires s.sndBuf == [Fresh(s.(sndNxt := s.sndNxt - 1), b)] && s.out == Output([], []) && s.cfg.deadLink >= 2
    requires s.wnd.cwnd >= 1
    ensures var (r, ok) := FlushDataSegments(Exact, s, 0);
            && ok && r.out == Output([], [DataWire(s, r.sndBuf[0])])
            && |r.sndBuf| == 1 && r.sndBuf[0].sn == s.sndNxt - 1 && r.sndBuf[0].frag == Frag(0, [b])
            && r.sndBuf[0].ts == 0
            && r == s.(sndBuf := r.sndBuf, out := r.out)
  {
    var seg := s.sndBuf[0];
    var marked := Marked(s.cfg, s.rtt.rto, seg, 0);
    FirstIsOne(s.cfg, s.rtt.rto, seg, 0);
    assert s.sndBuf[..0] == [];
    assert ToSend(s.cfg, s.rtt.rto, s.sndBuf[..0], 0) == [];
    assert ToSend(s.cfg, s.rtt.rto, s.sndBuf, 0) == [marked];
    MarkedNow(s.cfg, s.rtt.rto, seg);
    hide MarkOf, Marked, ToSend, OutputAll, Mss;
    assert [marked][1..] == [];
    assert ThroughDead([marked], s.cfg.deadLink) == [marked] + [];
    assert MarkAll(s.cfg, s.rtt.rto, s.sndBuf, 0) == [marked];
    assert DataWires(s, [marked]) == [DataWire(s, marked)];
    OneFits(s.out, s.cfg.mtu, DataWire(s, marked));
  }

  lemma MarkedNow(cfg: Config, rto: u32, seg: Segment)
    requires seg.xmit == 0
    ensures var r := Marked(cfg, rto, seg, 0);
            r.ts == 0 && r.sn == seg.sn && r.frag == seg.frag
  {
  }

  /** The sender between its flush and the acknowledgement. */
  ghost predicate Awaiting(s: State, conv: u32, cfg: Config, snd: int) {
    && |s.sndBuf| == 1 && s.sndBuf[0].sn == snd && s.sndUna == snd && s.sndNxt == snd + 1
    && Quiet(s.(sndBuf := [], sndNxt := snd), conv, cfg, snd, 0)
  }

  /** A flush puts the one queued message out, in one datagram. */
  lemma FlushOne(s: State, conv: u32, cfg: Config, snd: int, b: byte)
    requires Quiet(s.(sndQueue := []), conv, cfg, snd, 0) && s.sndQueue == [Frag(0, [b])] && cfg.deadLink >= 2
    ensures var r := Flush(Exact, s, 0).0;
            && r.out.queue == [[DataOne(conv, cfg, snd, b)]] && Awaiting(Drain(r), conv, cfg, snd)
  {
    NothingAsked(s);
    var s1 := s.(probe := Probe(false, false, 0, 0));
    NumbersOne(s1, b);
    var s2 := s1.(sndQueue := [], sndBuf := [Fresh(s1, b)], sndNxt := s1.sndNxt + 1);
    SendsFresh(s2, b);
    hide FlushAcks, HandleWindowProbe, MoveToSendBuf, FlushDataSegments;
    var r := FlushDataSegments(Exact, s2, 0).0;
    assert DataWire(s2, r.sndBuf[0]) == DataOne(conv, cfg, snd, b);
    assert [] + [[DataOne(conv, cfg, snd, b)]] == [[DataOne(conv, cfg, snd, b)]];
  }

  /** The receiver with the message queued, and with it read. */
  ghost predicate Answering(s: State, conv: u32, cfg: Config, rcv: int, queue: seq<Frag>) {
    && s.ackList == [Ack(rcv, 0)] && s.rcvNxt == rcv + 1 && s.rcvQueue == queue
    && Quiet(s.(ackList := [], rcvQueue := []), conv, cfg, 0, rcv + 1)
  }

  lemma InputOne(s: State, conv: u32, cfg: Config, rcv: int, peer: Config, b: byte)
    requires Quiet(s, conv, cfg, 0, rcv)
    ensures Answering(Input(Exact, s, [DataOne(conv, peer, rcv, b)], 0), conv, cfg, rcv, [Frag(0, [b])])
  {
    PushArrives(Exact, s, DataOne(conv, peer, rcv, b));
    QueuesOne(Exact, s, Frag(0, [b]));
    hide Input, MoveToRecvQueue, Store;
  }

  lemma ReadOne(s: State, conv: u32, cfg: Config, rcv: int, b: byte)
    requires Answering(s, conv, cfg, rcv, [Frag(0, [b])]) && cfg.rcvWnd >= 2
    ensures var (r, got) := Recv(Exact, s);
            Answering(r, conv, cfg, rcv, []) && got == Some([b])
  {
    assert PeekSize(s.rcvQueue) == 1;
    assert TakeMessage(s.rcvQueue, 1) == ([b], []);
    assert MoveToRecvQueue(Exact, s.(rcvQueue := [])) == s.(rcvQueue := []);
    hide PeekSize, TakeMessage, MoveToRecvQueue;
  }

  lemma AcksOne(s: State, conv: u32, cfg: Config, rcv: int)
    requires Answering(s, conv, cfg, rcv, [])
    ensures HandleWindowProbe(FlushAcks(s), 0)
         == s.(ackList := [], out := Output([], [AckOne(conv, cfg, rcv)]), probe := Probe(false, false, 0, 0))
  {
    assert AckWires(s) == [AckOne(conv, cfg, rcv)];
    OneFits(s.out, cfg.mtu, AckOne(conv, cfg, rcv));
    NothingAsked(s.(ackList := [], out := Output([], [AckOne(conv, cfg, rcv)])));
    hide OutputAll;
    FlushNothing(s.(ackList := [], out := Output([], [AckOne(conv, cfg, rcv)])));
  }

  lemma FlushNothing(s: State)
    requires s.ackList == []
    ensures FlushAcks(s) == s
  {
    assert AckWires(s) == [];
  }

  lemma ScansNothing(s: State)
    requires s.sndBuf == [] && s.wnd.cwnd >= 1
    ensures FlushDataSegments(Exact, s, 0) == (s, true)
  {
    assert ToSend(s.cfg, s.rtt.rto, [], 0) == [];
    assert DataWires(s, []) == [];
    assert MarkAll(s.cfg, s.rtt.rto, [], 0) == [];
    hide Mss;
  }

  /** Its flush puts the acknowledgement out, in one datagram. */
  lemma FlushAck(s: State, conv: u32, cfg: Config, rcv: int)
    requires Answering(s, conv, cfg, rcv, [])
    ensures var r := Flush(Exact, s, 0).0;
            r.out.queue == [[AckOne(conv, cfg, rcv)]] && Quiet(Drain(r), conv, cfg, 0, rcv + 1)
  {
    AcksOne(s, conv, cfg, rcv);
    var s1 := s.(ackList := [], out := Output([], [AckOne(conv, cfg, rcv)]), probe := Probe(false, false, 0, 0));
    assert MoveToSendBuf(Exact, s1, 0) == s1;
    ScansNothing(s1);
    hide FlushAcks, HandleWindowProbe, MoveToSendBuf, FlushDataSegments;
    assert [] + [[AckOne(conv, cfg, rcv)]] == [[AckOne(conv, cfg, rcv)]];
  }

  /** The acknowledgement empties the send buffer. */
  lemma InputAckOne(s: State, conv: u32, cfg: Config, snd: int, peer: Config)
    requires Awaiting(s, conv, cfg, snd)
    ensures Quiet(Input(Exact, s, [AckOne(conv, peer, snd)], 0), conv, cfg, snd + 1, 0)
  {
    var w := AckOne(conv, peer, snd);
    assert [w][1..] == [] && s.sndBuf[1..] == [];
    var s1 := s.(wnd := s.wnd.(rmt := w.wnd));
    assert DropUna(Exact, s.sndBuf[1..], snd + 1) == [];
    assert ParseUna(Exact, s1, snd + 1) == s1.(sndBuf := []);
    var (s2, newest) := InputSegment(Exact, s, NoAck, w, 0);
    assert InputSegments(Exact, s, NoAck, [w], 0) == (s2, newest);
    assert s2 == s1.(sndBuf := [], rtt := s2.rtt) by { hide UpdateAck, TimeDiff; }
    hide InputSegments, InputSegment, BumpFastack, GrowCwnd, UpdateAck;
    Congestion.StepKeepsWindowOpen(Exact, s, EngineRun.DoInput([w], 0));
    CwndKeepsRemote(s, [w], 0);
    hide InFlight, UpdateCwnd;
  }

  // ---- The whole run ----

  function OneRound(n: nat, b: byte): seq<Action> {
    [Submit(Left, [b]), Transmit(Left, 0), Action.Deliver(Right, n, 0), Action.Read(Right), Transmit(Right, 0),
     Action.Deliver(Left, n, 0)]
  }

  function Rounds(n: nat, b: byte): seq<Action> {
    if n == 0 then [] else Rounds(n - 1, b) + OneRound(n - 1, b)
  }

  function Repeated(b: byte, n: nat): (r: seq<Bytes>)
    ensures |r| == n && forall i :: 0 <= i < n ==> r[i] == [b]
  {
    seq(n, i => [b])
  }

  /** After `n` rounds: `n` messages sent, received and acknowledged, one datagram each. */
  ghost predicate Done(sys: System, conv: u32, left: Config, right: Config, n: nat, b: byte) {
    && Quiet(sys.left.eng, conv, left, n, 0) && Quiet(sys.right.eng, conv, right, 0, n)
    && |sys.left.net| == n && |sys.right.net| == n && (n > 0 ==> sys.left.net[0] == [DataOne(conv, left, 0, b)])
    && sys.left.accepted == Repeated(b, n) && sys.right.delivered == Repeated(b, n) && |sys.left.queued| == n
  }

  lemma RepeatedMore(b: byte, n: nat)
    ensures Repeated(b, n) + [[b]] == Repeated(b, n + 1)
  {
  }

  /** The sender's half of a round. */
  ghost predicate Sent(sys: System, conv: u32, left: Config, right: Config, n: nat, b: byte) {
    && Awaiting(sys.left.eng, conv, left, n) && Quiet(sys.right.eng, conv, right, 0, n)
    && |sys.left.net| == n + 1 && |sys.right.net| == n && sys.left.net[n] == [DataOne(conv, left, n, b)]
    && sys.left.net[0] == [DataOne(conv, left, 0, b)]
    && sys.left.accepted == Repeated(b, n + 1) && sys.right.delivered == Repeated(b, n) && |sys.left.queued| == n + 1
  }

  lemma SubmitAndSend(sys: System, conv: u32, left: Config, right: Config, n: nat, b: byte)
    requires Done(sys, conv, left, right, n, b) && left.deadLink >= 2
    ensures Sent(Apply(Apply(sys, Submit(Left, [b])), Transmit(Left, 0)), conv, left, right, n, b)
  {
    QueueOne(sys.left.eng, conv, left, n, b);
    hide Send, Flush, DataOne;
    var x1 := NodeSend(sys.left, [b]);
    FlushOne(x1.eng, conv, left, n, b);
    RepeatedMore(b, n);
    hide Awaiting;
  }

  /** The receiver's half. */
  ghost predicate Answered(sys: System, conv: u32, left: Config, right: Config, n: nat, b: byte) {
    && Awaiting(sys.left.eng, conv, left, n) && Quiet(sys.right.eng, conv, right, 0, n + 1)
    && |sys.left.net| == n + 1 && |sys.right.net| == n + 1 && sys.right.net[n] == [AckOne(conv, right, n)]
    && sys.left.net[0] == [DataOne(conv, left, 0, b)]
    && sys.left.accepted == Repeated(b, n + 1) && sys.right.delivered == Repeated(b, n + 1)
    && |sys.left.queued| == n + 1
  }

  lemma ReceiveAndAnswer(sys: System, conv: u32, left: Config, right: Config, n: nat, b: byte)
    requires Sent(sys, conv, left, right, n, b) && right.rcvWnd >= 2
    ensures var sys1 := Apply(sys, Action.Deliver(Right, n, 0));
            var sys2 := Apply(sys1, Action.Read(Right));
            Answered(Apply(sys2, Transmit(Right, 0)), conv, left, right, n, b)
  {
    hide Awaiting, Quiet, Answering, Input, Recv, Flush, DataOne, AckOne;
    InputOne(sys.right.eng, conv, right, n, left, b);
    var e1 := Input(Exact, sys.right.eng, [DataOne(conv, left, n, b)], 0);
    ReadOne(e1, conv, right, n, b);
    var e2 := Recv(Exact, e1).0;
    FlushAck(e2, conv, right, n);
    RepeatedMore(b, n);
  }

  lemma AcknowledgedOne(sys: System, conv: u32, left: Config, right: Config, n: nat, b: byte)
    requires Answered(sys, conv, left, right, n, b)
    ensures Done(Apply(sys, Action.Deliver(Left, n, 0)), conv, left, right, n + 1, b)
  {
    hide Awaiting, Quiet, Input, DataOne, AckOne;
    InputAckOne(sys.left.eng, conv, left, n, right);
  }

  lemma RunThen(sys: System, actions: seq<Action>, a: Action)
    requires TimelyRun(sys, actions) && TimelyAction(RunSystem(sys, actions), a)
    ensures TimelyRun(sys, actions + [a])
    ensures RunSystem(sys, actions + [a]) == Apply(RunSystem(sys, actions), a)
  {
    var all := actions + [a];
    assert all[..|all| - 1] == actions && all[|all| - 1] == a;
    hide Apply, TimelyAction;
  }

  /** The two deliveries of a round are of datagrams just sent. */
  lemma DeliveriesAreTimely(sys: System, conv: u32, left: Config, right: Config, n: nat, b: byte)
    ensures Sent(sys, conv, left, right, n, b) ==> TimelyAction(sys, Action.Deliver(Right, n, 0))
    ensures Answered(sys, conv, left, right, n, b) ==> TimelyAction(sys, Action.Deliver(Left, n, 0))
  {
    hide Repeated;
  }

  lemma RoundDone(sys: System, actions: seq<Action>, conv: u32, left: Config, right: Config, n: nat, b: byte)
    requires left.deadLink >= 2 && right.rcvWnd >= 2 && TimelyRun(sys, actions)
    requires Done(RunSystem(sys, actions), conv, left, right, n, b)
    ensures TimelyRun(sys, actions + OneRound(n, b))
    ensures Done(RunSystem(sys, actions + OneRound(n, b)), conv, left, right, n + 1, b)
  {
    hide Done, Sent, Answered, RunSystem, TimelyRun, Apply;
    var a1 := actions + [Submit(Left, [b])];
    RunThen(sys, actions, Submit(Left, [b]));
    var a2 := a1 + [Transmit(Left, 0)];
    RunThen(sys, a1, Transmit(Left, 0));
    SubmitAndSend(RunSystem(sys, actions), conv, left, right, n, b);
    DeliveriesAreTimely(RunSystem(sys, a2), conv, left, right, n, b);
    var a3 := a2 + [Action.Deliver(Right, n, 0)];
    RunThen(sys, a2, Action.Deliver(Right, n, 0));
    var a4 := a3 + [Action.Read(Right)];
    RunThen(sys, a3, Action.Read(Right));
    var a5 := a4 + [Transmit(Right, 0)];
    RunThen(sys, a4, Transmit(Right, 0));
    ReceiveAndAnswer(RunSystem(sys, a2), conv, left, right, n, b);
    DeliveriesAreTimely(RunSystem(sys, a5), conv, left, right, n, b);
    RunThen(sys, a5, Action.Deliver(Left, n, 0));
    AcknowledgedOne(RunSystem(sys, a5), conv, left, right, n, b);
    assert a5 + [Action.Deliver(Left, n, 0)] == actions + OneRound(n, b);
  }

  lemma NothingDone(conv: u32, left: Config, right: Config, b: byte)
    ensures Done(InitSystem(conv, left, right), conv, left, right, 0, b)
  {
    assert Repeated(b, 0) == [];
  }

  lemma {:induction false} RoundsDone(conv: u32, left: Config, right: Config, n: nat, b: byte)
    requires left.deadLink >= 2 && right.rcvWnd >= 2
    ensures TimelyRun(InitSystem(conv, left, right), Rounds(n, b))
    ensures Done(Reached(conv, left, right, Rounds(n, b)), conv, left, right, n, b)
  {
    hide Done, OneRound;
    if n == 0 {
      NothingDone(conv, left, right, b);
    } else {
      RoundsDone(conv, left, right, n - 1, b);
      hide RunSystem, TimelyRun;
      RoundDone(InitSystem(conv, left, right), Rounds(n - 1, b), conv, left, right, n - 1, b);
    }
  }

  // ---- And the first datagram once more ----

  /** The engine on 32-bit numbers, when as many segments have come as there are numbers. */
  lemma ImageOfQuiet(c: State, n: State, conv: u32, cfg: Config)
    requires Sim(c, n) && Quiet(n, conv, cfg, 0, M32)
    ensures c.conv == conv && c.cfg == cfg && c.rcvNxt == 0 && c.rcvBuf == map[] && c.rcvQueue == []
    ensures c.sndBuf == [] && c.sndUna == 0 && c.sndNxt == 0
  {
    WholeTurns(0, 1);
    NothingWaits(c.rcvBuf, n.rcvBuf);
  }

  lemma NothingWaits(c: map<int, Frag>, n: map<int, Frag>)
    requires BufSim(c, n) && n == map[]
    ensures c == map[]
  {
    assert forall w :: !IsImage(w, n);
    assert forall w :: w !in c;
  }

  lemma StaleInput(e: Endpoint, conv: u32, cfg: Config, peer: Config, b: byte)
    requires e.eng.conv == conv && e.eng.cfg == cfg && e.eng.rcvNxt == 0 && e.eng.rcvBuf == map[]
    requires e.eng.rcvQueue == [] && e.eng.sndBuf == [] && e.eng.sndUna == 0 && e.eng.sndNxt == 0
    ensures var r := EndRecv(EndInput(e, EncodeDatagram([DataOne(conv, peer, 0, b)]), 0));
            r.delivered == e.delivered + [[b]]
  {
    var w := DataOne(conv, peer, 0, b);
    DatagramRoundTrip([w]);
    EncodedIsLong([w]);
    assert WrapWires([w]) == [w] by { assert WrapWire(w) == w; }
    PushArrives(Wrapping, e.eng, w);
    QueuesOne(Wrapping, e.eng, Frag(0, [b]));
    hide EncodeDatagram, ParseDatagram, Input, MoveToRecvQueue, Store, WrapWires;
    var s := EndInput(e, EncodeDatagram([w]), 0).eng;
    assert s == Input(Wrapping, e.eng, [w], 0);
    assert s.rcvQueue == [Frag(0, [b])];
    ReadsTheOne(s, b);
    hide Recv;
  }

  lemma ReadsTheOne(s: State, b: byte)
    requires s.rcvQueue == [Frag(0, [b])]
    ensures Recv(Wrapping, s).1 == Some([b])
  {
    assert PeekSize(s.rcvQueue) == 1;
    assert TakeMessage(s.rcvQueue, 1) == ([b], []);
    hide PeekSize, TakeMessage, MoveToRecvQueue;
  }

  function StaleRun(b: byte): seq<Action> {
    Rounds(M32, b) + [Action.Deliver(Right, 0, 0), Action.Read(Right)]
  }

  lemma StaleStep(sys: ByteSystem, b: byte)
    requires |sys.left.net| > 0
    ensures var r := RunBytes(sys, [Action.Deliver(Right, 0, 0), Action.Read(Right)]);
            r.right == EndRecv(EndInput(sys.right, sys.left.net[0], 0)) && r.left == sys.left
  {
    hide EndRecv, EndInput;
    var two, one := [Action.Deliver(Right, 0, 0), Action.Read(Right)], [Action.Deliver(Right, 0, 0)];
    assert two[..1] == one && one[..0] == [];
    assert RunBytes(sys, one[..0]) == sys;
    assert RunBytes(sys, one) == ApplyBytes(sys, one[0]);
  }

  lemma {:induction false} BytesOfRepeated(b: byte, msgs: seq<Bytes>)
    requires forall i :: 0 <= i < |msgs| ==> msgs[i] == [b]
    ensures |Concat(msgs)| == |msgs|
  {
    if msgs != [] { BytesOfRepeated(b, msgs[1..]); }
  }

  /** Without the assumption delivery over bytes fails. 2^32 one-byte messages are sent, received, read
      and acknowledged one by one; all of it is timely, and each application has been handed what the
      other sent. Then the network delivers the very first datagram once more: the 32-bit engine takes
      it for the next one, and `recv` returns a message more than was ever accepted. */
  lemma StaleDataIsDelivered(conv: u32, left: Config, right: Config, b: byte)
    requires left.deadLink >= 2 && right.rcvWnd >= 2
    ensures TimelyRun(InitSystem(conv, left, right), Rounds(M32, b))
    ensures var r := RunBytes(InitBytes(conv, left, right), StaleRun(b));
            && |r.left.accepted| == |r.left.queued| == M32 && |r.right.delivered| == M32 + 1
            && !(r.right.delivered <= r.left.accepted) && !(Concat(r.right.delivered) <= r.left.queued)
  {
    hide RunBytes, RunSystem, TimelyRun, Rounds, Done, Sim, EncodeDatagram, EndRecv, EndInput;
    RoundsDone(conv, left, right, M32, b);
    ByteRunIsImage(conv, left, right, Rounds(M32, b));
    var sys := Reached(conv, left, right, Rounds(M32, b));
    var bytes := RunBytes(InitBytes(conv, left, right), Rounds(M32, b));
    LastOfDone(sys, conv, left, right, b);
    ImageOfQuiet(bytes.right.eng, sys.right.eng, conv, right);
    StaleInput(bytes.right, conv, right, left, b);
    ShellTrace.RunBytesAppend(InitBytes(conv, left, right), Rounds(M32, b),
      [Action.Deliver(Right, 0, 0), Action.Read(Right)]);
    StaleStep(bytes, b);
    var r := RunBytes(InitBytes(conv, left, right), StaleRun(b));
    RepeatedMore(b, M32);
    BytesOfRepeated(b, r.right.delivered);
  }

  lemma LastOfDone(sys: System, conv: u32, left: Config, right: Config, b: byte)
    requires Done(sys, conv, left, right, M32, b)
    ensures Quiet(sys.right.eng, conv, right, 0, M32) && |sys.left.net| > 0
    ensures sys.left.net[0] == [DataOne(conv, left, 0, b)]
    ensures sys.left.accepted == Repeated(b, M32) && sys.right.delivered == Repeated(b, M32)
    ensures |sys.left.queued| == M32
  {
    hide Quiet;
  }
}
