/** The two engines as they run: 32-bit sequence numbers, and bytes on the network. Their runs are
    the images of exact runs, so everything proved of those holds of them. */
module ByteNetwork {
  import opened Word
  import opened Protocol
  import opened EngineSpec
  import opened Fragments
  import opened Packing
  import opened SendSide
  import opened RecvSide
  import opened Network
  import opened NetworkSafety
  import opened Delivery
  import opened Refinement

  datatype Endpoint = Endpoint(eng: State, net: seq<Bytes>, accepted: seq<Bytes>, queued: Bytes, delivered: seq<Bytes>)

  datatype ByteSystem = ByteSystem(left: Endpoint, right: Endpoint)

  function EndSend(e: Endpoint, msg: Bytes): Endpoint {
    var (s, ok) := Send(e.eng, msg);
    e.(eng := s,
       accepted := if ok && msg != [] then e.accepted + [msg] else e.accepted,
       queued := e.queued + (if ok then msg else msg[..MergeLength(e.eng, msg)]))
  }

  function EndRecv(e: Endpoint): Endpoint {
    var (s, got) := Recv(Wrapping, e.eng);
    e.(eng := s, delivered := if got.Some? then e.delivered + [got.value] else e.delivered)
  }

  function EndFlush(e: Endpoint, now: u32): Endpoint {
    var s := Flush(Wrapping, e.eng, now).0;
    e.(eng := Drain(s), net := e.net + EncodeAll(s.out.queue))
  }

  function EndKeepAlive(e: Endpoint, now: u32): Endpoint {
    EndFlush(e.(eng := e.eng.(probe := e.eng.probe.(askSend := true))), now)
  }

  function EndInput(e: Endpoint, data: Bytes, now: u32): Endpoint {
    e.(eng := InputDatagram(Wrapping, e.eng, data, now).0)
  }

  function EndAt(sys: ByteSystem, side: Side): Endpoint {
    if side.Left? then sys.left else sys.right
  }

  function EndWith(sys: ByteSystem, side: Side, e: Endpoint): ByteSystem {
    if side.Left? then sys.(left := e) else sys.(right := e)
  }

  function ApplyBytes(sys: ByteSystem, a: Action): ByteSystem {
    var e := EndAt(sys, a.who);
    match a
    case Submit(who, msg) => EndWith(sys, who, EndSend(e, msg))
    case Read(who) => EndWith(sys, who, EndRecv(e))
    case Transmit(who, now) => EndWith(sys, who, EndFlush(e, now))
    case KeepAlive(who, now) => EndWith(sys, who, EndKeepAlive(e, now))
    case Deliver(who, index, now) =>
      var net := EndAt(sys, Other(who)).net;
      if index < |net| then EndWith(sys, who, EndInput(e, net[index], now)) else sys
  }

  function InitBytes(conv: u32, left: Config, right: Config): ByteSystem {
    ByteSystem(Endpoint(Init(conv, left), [], [], [], []), Endpoint(Init(conv, right), [], [], [], []))
  }

  function RunBytes(sys: ByteSystem, actions: seq<Action>): ByteSystem
    decreases |actions|
  {
    if actions == [] then sys
    else ApplyBytes(RunBytes(sys, actions[..|actions| - 1]), actions[|actions| - 1])
  }

  // ---- Datagrams that are not ages old ----

  /** No number in the datagram lies 2^31 less two windows or more behind where the receiving engine is. */
  ghost predicate Timely(n: State, ws: seq<Wire>) {
    forall i :: 0 <= i < |ws| ==>
      && ws[i].una >= n.sndUna - HALF + SLACK
      && (ws[i].cmd == CMD_ACK ==> ws[i].sn >= n.sndUna - HALF + SLACK)
      && (ws[i].cmd == CMD_PUSH ==> ws[i].sn >= n.rcvNxt - |n.rcvQueue| - HALF + SLACK)
  }

  ghost predicate TimelyAction(sys: System, a: Action) {
    a.Deliver? ==>
      var net := At(sys, Other(a.who)).net;
      a.index < |net| ==> Timely(At(sys, a.who).eng, net[a.index])
  }

  /** In the run, counted exactly, no datagram is delivered ages after it was sent. */
  ghost predicate TimelyRun(sys: System, actions: seq<Action>)
    decreases |actions|
  {
    actions == [] ||
    (var init := actions[..|actions| - 1];
     TimelyRun(sys, init) && TimelyAction(RunSystem(sys, init), actions[|actions| - 1]))
  }

  /** How far apart the two ends of a direction can be. */
  lemma NumbersAhead(x: Node, y: Node)
    requires NodeInv(x) && NodeInv(y) && PairInv(x, y)
    ensures |x.hist| == x.eng.sndNxt <= x.eng.sndUna + 65535
    ensures y.eng.rcvNxt <= x.eng.sndNxt <= y.eng.rcvNxt + 2 * 65535
    ensures |y.eng.rcvQueue| <= 65535
    ensures forall sn :: Held(y.eng, sn) ==> sn < x.eng.sndNxt
  {
    var sn := x.eng.sndUna - 1;
    if sn >= 0 {
      if Buffered(x.eng.sndBuf, sn) { BufferedIsUnacked(x.eng, sn); }
      assert Held(y.eng, sn);
    }
    hide SizesInv, UnitsInv, AllTruthful, Delivers, NoLoss;
  }

  lemma TimelySegmentIsNear(x: Node, y: Node, d: seq<Wire>, i: nat)
    requires NodeInv(x) && NodeInv(y) && PairInv(x, y) && PairInv(y, x)
    requires AllTruthful(y.eng, y.hist, d) && Timely(x.eng, d) && i < |d|
    ensures InRange(x.eng, d[i])
    ensures d[i].cmd == CMD_ACK ==> x.eng.sndUna - HALF + SLACK <= d[i].sn <= x.eng.sndUna + 65535
  {
    hide NodeInv, PairInv, Held;
    NumbersAhead(x, y);
    NumbersAhead(y, x);
    assert Truthful(y.eng, y.hist, d[i]);
  }

  /** True datagrams are never ahead of the engine, so a timely one is fresh in both directions. */
  lemma TimelyIsFresh(x: Node, y: Node, d: seq<Wire>)
    requires NodeInv(x) && NodeInv(y) && PairInv(x, y) && PairInv(y, x)
    requires AllTruthful(y.eng, y.hist, d) && Timely(x.eng, d)
    ensures FreshFor(x.eng, d)
  {
    hide NodeInv, PairInv, AllTruthful, Timely, InRange;
    forall i | 0 <= i < |d|
      ensures InRange(x.eng, d[i])
      ensures d[i].cmd == CMD_ACK ==> x.eng.sndUna - HALF + SLACK <= d[i].sn <= x.eng.sndUna + 65535
    {
      TimelySegmentIsNear(x, y, d, i);
    }
  }

  // ---- Every timely run of bytes is the image of an exact run ----

  ghost predicate EndSim(e: Endpoint, n: Node) {
    && Sim(e.eng, n.eng)
    && |e.net| == |n.net| && (forall i :: 0 <= i < |e.net| ==> e.net[i] == EncodeDatagram(n.net[i]))
    && e.accepted == n.accepted && e.queued == n.queued && e.delivered == n.delivered
  }

  lemma {:induction false} EncodeWraps(ws: seq<Wire>)
    ensures EncodeDatagram(WrapWires(ws)) == EncodeDatagram(ws)
  {
    if ws != [] {
      var init, last := ws[..|ws| - 1], ws[|ws| - 1];
      assert WrapWires(ws)[..|ws| - 1] == WrapWires(init);
      EncodeWraps(init);
      assert HeaderOf(WrapWire(last)) == HeaderOf(last);
      hide HeaderOf, EncodeHeader;
    }
  }

  lemma SendSim(e: Endpoint, n: Node, msg: Bytes)
    requires EndSim(e, n)
    ensures EndSim(EndSend(e, msg), NodeSend(n, msg))
  {
    SendWraps(e.eng, n.eng, msg);
    assert MergeLength(e.eng, msg) == MergeLength(n.eng, msg) by { hide BufSim, WrapBuffer, WrapAcks, WrapOutput; }
    hide Sim, Send, EncodeDatagram, MergeLength;
  }

  lemma RecvSim(e: Endpoint, n: Node)
    requires EndSim(e, n) && NodeInv(n)
    ensures EndSim(EndRecv(e), NodeRecv(n))
  {
    hide Sim, Recv, EncodeDatagram;
    RecvWraps(e.eng, n.eng);
    hide NodeInv;
  }

  lemma FlushSim(e: Endpoint, n: Node, now: u32)
    requires EndSim(e, n) && NodeInv(n)
    ensures EndSim(EndFlush(e, now), NodeFlush(n, now))
  {
    hide Sim, Flush, EncodeDatagram, Drain, WrapWires;
    FlushWraps(e.eng, n.eng, now);
    hide NodeInv;
    var c1, n1 := Flush(Wrapping, e.eng, now).0, Flush(Exact, n.eng, now).0;
    DrainWraps(c1, n1);
    forall i | 0 <= i < |n1.out.queue| ensures EncodeAll(c1.out.queue)[i] == EncodeDatagram(n1.out.queue[i]) {
      EncodeWraps(n1.out.queue[i]);
    }
  }

  lemma EmptyInputIsNothing(n: State, now: u32)
    requires SendInv(Exact, n)
    ensures Input(Exact, n, [], now) == n
  {
  }

  lemma {:induction false} EncodedIsLong(ws: seq<Wire>)
    requires ws != []
    ensures |EncodeDatagram(ws)| >= 24
  {
    assert DatagramSize(ws) >= WireSize(ws[|ws| - 1]);
  }

  lemma DataIsShort(y: Node, d: seq<Wire>)
    requires AllTruthful(y.eng, y.hist, d)
    ensures forall w :: w in d ==> |w.data| <= 65511
  {
    forall w | w in d ensures |w.data| <= 65511 { assert Truthful(y.eng, y.hist, w); }
  }

  lemma InputSim(e: Endpoint, n: Node, d: seq<Wire>, now: u32, y: Node)
    requires EndSim(e, n) && NodeInv(n) && FreshFor(n.eng, d) && AllTruthful(y.eng, y.hist, d)
    ensures EndSim(EndInput(e, EncodeDatagram(d), now), NodeInput(n, d, now))
  {
    DataIsShort(y, d);
    hide AllTruthful, Sim, Input, EncodeDatagram, ParseDatagram, FreshFor, Truthful, WrapWires;
    if d == [] {
      assert EncodeDatagram(d) == [] by { EmptyEncoding(); }
      EmptyInputIsNothing(n.eng, now);
    } else {
      EncodedIsLong(d);
      DatagramRoundTrip(d);
      assert forall i :: 0 <= i < |d| ==> Arrives(Exact, d[i]);
      InputWraps(e.eng, n.eng, d, now);
    }
    hide NodeInv;
  }

  lemma EmptyEncoding()
    ensures EncodeDatagram([]) == []
  {
  }

  lemma AskSim(e: Endpoint, n: Node)
    requires EndSim(e, n)
    ensures EndSim(e.(eng := e.eng.(probe := e.eng.probe.(askSend := true))),
            n.(eng := n.eng.(probe := n.eng.probe.(askSend := true))))
  {
    ProbeFlagWraps(e.eng, n.eng);
    assert e.eng.probe == n.eng.probe by { hide BufSim, WrapBuffer, WrapAcks, WrapOutput; }
    hide Sim, EncodeDatagram;
  }

  ghost predicate SystemSim(b: ByteSystem, sys: System) {
    EndSim(b.left, sys.left) && EndSim(b.right, sys.right)
  }

  lemma ApplySim(b: ByteSystem, sys: System, a: Action)
    requires SystemSim(b, sys) && SystemInv(sys) && TimelyAction(sys, a)
    ensures SystemSim(ApplyBytes(b, a), Apply(sys, a))
  {
    hide EndSim, NodeInv, PairInv, Timely, EndSend, EndRecv, EndFlush, EndInput, NodeSend, NodeRecv, NodeFlush,
         NodeInput;
    var e, n, y := EndAt(b, a.who), At(sys, a.who), At(sys, Other(a.who));
    match a
    case Submit(who, msg) => SendSim(e, n, msg);
    case Read(who) => RecvSim(e, n);
    case Transmit(who, now) => FlushSim(e, n, now);
    case KeepAlive(who, now) =>
      AskSim(e, n);
      AskingKeepsAll(n, y);
      FlushSim(e.(eng := e.eng.(probe := e.eng.probe.(askSend := true))),
        n.(eng := n.eng.(probe := n.eng.probe.(askSend := true))), now);
    case Deliver(who, index, now) =>
      SameNet(EndAt(b, Other(who)), y);
      if index < |y.net| {
        NetIsTruthful(y, index);
        TimelyIsFresh(n, y, y.net[index]);
        InputSim(e, n, y.net[index], now, y);
      }
  }

  lemma SameNet(e: Endpoint, n: Node)
    requires EndSim(e, n)
    ensures |e.net| == |n.net| && forall i :: 0 <= i < |e.net| ==> e.net[i] == EncodeDatagram(n.net[i])
  {
  }

  /** The engines on 32-bit numbers and bytes do, action by action, what the engines on integers do. */
  lemma {:induction false} ByteRunIsImage(conv: u32, left: Config, right: Config, actions: seq<Action>)
    requires TimelyRun(InitSystem(conv, left, right), actions)
    ensures SystemSim(RunBytes(InitBytes(conv, left, right), actions), Reached(conv, left, right, actions))
    decreases |actions|
  {
    hide SystemSim, SystemInv, TimelyAction, ApplyBytes, Apply;
    if actions == [] {
      InitSim(conv, left, right);
    } else {
      var init := actions[..|actions| - 1];
      ByteRunIsImage(conv, left, right, init);
      EveryRunIsSafe(conv, left, right, init);
      ApplySim(RunBytes(InitBytes(conv, left, right), init), Reached(conv, left, right, init), actions[|actions| - 1]);
    }
  }

  lemma InitSim(conv: u32, left: Config, right: Config)
    ensures SystemSim(InitBytes(conv, left, right), InitSystem(conv, left, right))
  {
    InitWraps(conv, left);
    InitWraps(conv, right);
    hide Sim;
  }

  // ---- Reading ----

  function EndReads(e: Endpoint, times: nat): Endpoint {
    if times == 0 then e else EndRecv(EndReads(e, times - 1))
  }

  lemma SimReadable(e: Endpoint, n: Node)
    requires EndSim(e, n) && NodeInv(n)
    ensures Recv(Wrapping, e.eng).1 == Recv(Exact, n.eng).1
  {
    hide Sim, Recv, NodeInv;
    RecvAnswersAlike(e.eng, n.eng);
  }

  lemma RecvAnswersAlike(c: State, n: State)
    requires Sim(c, n)
    ensures Recv(Wrapping, c).1 == Recv(Exact, n).1
  {
    hide BufSim, WrapBuffer, WrapAcks, WrapOutput, PeekSize, TakeMessage, MoveToRecvQueue;
  }

  // ---- The guarantee, of the engines as they run ----

  /** Two engines on 32-bit sequence numbers, exchanging bytes over a network that loses,
      duplicates, reorders and delays them, and that does not deliver a datagram 2^31 numbers late:
      what each application reads is a prefix of what the other wrote, message by message, and in
      stream mode byte by byte. */
  lemma DeliveryOverBytes(conv: u32, left: Config, right: Config, actions: seq<Action>, from: Side)
    requires TimelyRun(InitSystem(conv, left, right), actions)
    ensures var sys := RunBytes(InitBytes(conv, left, right), actions);
            var (x, y) := (EndAt(sys, from), EndAt(sys, Other(from)));
            && (!x.eng.cfg.streamMode ==> y.delivered <= x.accepted)
            && Concat(y.delivered) <= x.queued
  {
    hide RunSystem, RunBytes, Concat, TimelyRun;
    ByteRunIsImage(conv, left, right, actions);
    DeliveryIsInOrder(conv, left, right, actions, from);
    var b, sys := RunBytes(InitBytes(conv, left, right), actions), Reached(conv, left, right, actions);
    SameLogs(EndAt(b, from), At(sys, from));
    SameLogs(EndAt(b, Other(from)), At(sys, Other(from)));
  }

  lemma SameLogs(e: Endpoint, n: Node)
    requires EndSim(e, n)
    ensures e.accepted == n.accepted && e.queued == n.queued && e.delivered == n.delivered && e.eng.cfg == n.eng.cfg
    ensures HasUnsentData(e.eng) == HasUnsentData(n.eng)
  {
  }

  // ---- When the assumption holds, and that it is needed ----

  /** While neither side has numbered 2^31 segments less two windows, every datagram ever sent is timely. */
  lemma ShortRunsAreTimely(x: Node, y: Node, d: seq<Wire>)
    requires NodeInv(x) && NodeInv(y) && PairInv(x, y) && PairInv(y, x) && AllTruthful(y.eng, y.hist, d)
    requires |x.hist| <= HALF - SLACK && |y.hist| <= HALF - SLACK
    ensures Timely(x.eng, d)
  {
    hide NodeInv, PairInv;
    NumbersAhead(x, y);
    NumbersAhead(y, x);
    UnaIsNumbered(x);
    forall i | 0 <= i < |d| ensures d[i].una >= 0 && (d[i].cmd == CMD_ACK || d[i].cmd == CMD_PUSH ==> d[i].sn >= 0) {
      assert Truthful(y.eng, y.hist, d[i]);
    }
  }

  lemma UnaIsNumbered(n: Node)
    requires NodeInv(n)
    ensures n.eng.sndUna <= n.eng.sndNxt
  {
  }

  /** A run in which neither side numbers more is timely throughout. */
  lemma {:induction false} ShortRunIsTimely(conv: u32, left: Config, right: Config, actions: seq<Action>)
    requires var sys := Reached(conv, left, right, actions);
             |sys.left.hist| <= HALF - SLACK && |sys.right.hist| <= HALF - SLACK
    ensures TimelyRun(InitSystem(conv, left, right), actions)
    decreases |actions|
  {
    hide SystemInv, Apply, TimelyAction;
    if actions != [] {
      var init, a := actions[..|actions| - 1], actions[|actions| - 1];
      var sys := Reached(conv, left, right, init);
      HistoryOnlyGrows(sys, a, Left);
      HistoryOnlyGrows(sys, a, Right);
      ShortRunIsTimely(conv, left, right, init);
      EveryRunIsSafe(conv, left, right, init);
      ShortStepIsTimely(sys, a);
    }
  }

  lemma ShortStepIsTimely(sys: System, a: Action)
    requires SystemInv(sys) && |sys.left.hist| <= HALF - SLACK && |sys.right.hist| <= HALF - SLACK
    ensures TimelyAction(sys, a)
  {
    hide NodeInv, PairInv, Timely;
    if a.Deliver? {
      var x, y := At(sys, a.who), At(sys, Other(a.who));
      if a.index < |y.net| {
        NetIsTruthful(y, a.index);
        ShortRunsAreTimely(x, y, y.net[a.index]);
      }
    }
  }

  /** The bytes an application submits in a run. */
  function Submitted(actions: seq<Action>, who: Side): nat {
    if actions == [] then 0
    else
      var last := actions[|actions| - 1];
      Submitted(actions[..|actions| - 1], who) + if last.Submit? && last.who == who then |last.msg| else 0
  }

  lemma {:induction false} QueuedIsSubmitted(sys: System, actions: seq<Action>, who: Side)
    ensures |At(RunSystem(sys, actions), who).queued| <= |At(sys, who).queued| + Submitted(actions, who)
    decreases |actions|
  {
    if actions != [] {
      QueuedIsSubmitted(sys, actions[..|actions| - 1], who);
      hide Send, Recv, Flush, Input, MergeLength;
    }
  }

  lemma {:induction false} BytesOfUnits(units: seq<seq<Frag>>, cfg: Config)
    requires forall i :: 0 <= i < |units| ==> GoodUnit(units[i], cfg)
    ensures |Join(units)| <= |DataOf(Join(units))|
    decreases |units|
  {
    if units != [] {
      var init, last := units[..|units| - 1], units[|units| - 1];
      assert GoodUnit(last, cfg);
      hide GoodUnit, DataOf, Join;
      assert Join(units) == Join(init) + last
        by { JoinAppend(init, [last]); JoinOne(last); assert units == init + [last]; }
      BytesOfUnits(init, cfg);
      DataOfAppend(Join(init), last);
      BytesOfFrags(last);
    }
  }

  lemma JoinOne(g: seq<Frag>)
    ensures Join([g]) == g
  {
    var one := [g];
    assert one[..0] == [] && Join(one[..0]) == [];
  }

  lemma {:induction false} BytesOfFrags(frags: seq<Frag>)
    requires forall i :: 0 <= i < |frags| ==> frags[i].data != []
    ensures |frags| <= |DataOf(frags)|
  {
    if frags != [] { BytesOfFrags(frags[1..]); }
  }

  /** No number is given to nothing. */
  lemma NumberedIsQueued(n: Node)
    requires NodeInv(n)
    ensures |n.hist| <= |n.queued|
  {
    hide SendInv, RecvInv, SizesInv, AllTruthful, AcksHeld, BufferMatches, Units, GoodUnit, DataOf;
    BytesOfUnits(Units(n), n.eng.cfg);
  }

  lemma QueuedOnlyGrows(sys: ByteSystem, a: Action, who: Side)
    ensures |EndAt(sys, who).queued| <= |EndAt(ApplyBytes(sys, a), who).queued|
  {
    hide Send, Recv, Flush, InputDatagram, EncodeAll;
  }

  /** A run of bytes in which neither side queues 2 GiB less two windows is timely. */
  lemma {:induction false} ShortBytesAreTimely(conv: u32, left: Config, right: Config, actions: seq<Action>)
    requires var b := RunBytes(InitBytes(conv, left, right), actions);
             |b.left.queued| <= HALF - SLACK && |b.right.queued| <= HALF - SLACK
    ensures TimelyRun(InitSystem(conv, left, right), actions)
    decreases |actions|
  {
    hide SystemInv, ApplyBytes, Apply, TimelyAction, EndSim;
    if actions != [] {
      var init, a := actions[..|actions| - 1], actions[|actions| - 1];
      var b, sys := RunBytes(InitBytes(conv, left, right), init), Reached(conv, left, right, init);
      QueuedOnlyGrows(b, a, Left);
      QueuedOnlyGrows(b, a, Right);
      ShortBytesAreTimely(conv, left, right, init);
      ByteRunIsImage(conv, left, right, init);
      SameLogs(b.left, sys.left);
      SameLogs(b.right, sys.right);
      EveryRunIsSafe(conv, left, right, init);
      FewNumbers(sys);
      ShortStepIsTimely(sys, a);
    }
  }

  lemma FewNumbers(sys: System)
    requires SystemInv(sys)
    ensures |sys.left.hist| <= |sys.left.queued| && |sys.right.hist| <= |sys.right.queued|
  {
    hide NodeInv, PairInv;
    NumberedIsQueued(sys.left);
    NumberedIsQueued(sys.right);
  }

  /** Without any assumption on the network: until either application has written 2 GiB less two
      windows, whatever is lost, duplicated, reordered and delayed, and for however long, what each
      reads is a prefix of what the other wrote. */
  lemma DeliveryOfTwoGigabytes(conv: u32, left: Config, right: Config, actions: seq<Action>, from: Side)
    requires Submitted(actions, Left) <= HALF - SLACK && Submitted(actions, Right) <= HALF - SLACK
    ensures var sys := RunBytes(InitBytes(conv, left, right), actions);
            var (x, y) := (EndAt(sys, from), EndAt(sys, Other(from)));
            && (!x.eng.cfg.streamMode ==> y.delivered <= x.accepted)
            && Concat(y.delivered) <= x.queued
  {
    hide RunSystem, RunBytes, Concat, TimelyRun, NodeInv, PairInv;
    Invariants(conv, left, right, actions, Left);
    var init := InitSystem(conv, left, right);
    QueuedIsSubmitted(init, actions, Left);
    QueuedIsSubmitted(init, actions, Right);
    NumberedIsQueued(Reached(conv, left, right, actions).left);
    NumberedIsQueued(Reached(conv, left, right, actions).right);
    ShortRunIsTimely(conv, left, right, actions);
    DeliveryOverBytes(conv, left, right, actions, from);
  }

  /** Exactly which old data segments the 32-bit acceptance tests take for new: those whose distance
      behind the next expected number is, in 32 bits, within the window. The exact engine takes none. */
  lemma StaleAcceptedIff(c: State, n: State, sn: int)
    requires Sim(c, n) && sn < n.rcvNxt
    ensures Before(Exact, sn, n.rcvNxt)
    ensures !Before(Wrapping, U(sn), c.rcvNxt) && Before(Wrapping, U(sn), Add(Wrapping, c.rcvNxt, c.cfg.rcvWnd))
            <==> U(sn - n.rcvNxt) < n.cfg.rcvWnd
  {
    InWindow(Wrapping, U(sn), c.rcvNxt, n.cfg.rcvWnd);
    WrapShift(sn, -c.rcvNxt);
    WrapShift(n.rcvNxt, sn);
    assert c.rcvNxt == U(n.rcvNxt) && c.cfg == n.cfg;
    hide BufSim, WrapBuffer, WrapAcks, WrapOutput, U, Before, Add;
  }

  /** A data segment one full turn of the numbers old is taken for the next expected one: the
      32-bit engine queues it for reading, where the exact engine knows it for a duplicate. */
  lemma StaleDataIsMistaken(c: State, n: State, ts: u32, frag: Frag)
    requires Sim(c, n) && RecvInv(Exact, n) && n.rcvNxt !in n.rcvBuf && |n.rcvQueue| < n.cfg.rcvWnd
    ensures InputPush(Exact, n, n.rcvNxt - M32, ts, frag).rcvQueue == n.rcvQueue
    ensures var q := InputPush(Wrapping, c, U(n.rcvNxt - M32), ts, frag).rcvQueue;
            |q| > |c.rcvQueue| && q[|c.rcvQueue|] == frag
  {
    WholeTurns(n.rcvNxt, -1);
    assert c.rcvNxt == U(n.rcvNxt - M32) && c.rcvQueue == n.rcvQueue && c.cfg == n.cfg;
    var wnd := n.cfg.rcvWnd;
    KeyWraps(c.rcvBuf, n, n.rcvNxt);
    InWindow(Wrapping, c.rcvNxt, c.rcvNxt, wnd);
    hide Sim, Before, Add, RecvInv;
    MoveKeepsPrefix(MoveOne(Wrapping, Store(c.(ackList := c.ackList + [Ack(c.rcvNxt, ts)]), c.rcvNxt, frag)));
  }

  lemma {:induction false} MoveKeepsPrefix(s: State)
    ensures s.rcvQueue <= MoveToRecvQueue(Wrapping, s).rcvQueue
    decreases |s.rcvBuf|
  {
    if s.rcvNxt in s.rcvBuf && |s.rcvQueue| < s.cfg.rcvWnd { MoveKeepsPrefix(MoveOne(Wrapping, s)); }
  }
}
