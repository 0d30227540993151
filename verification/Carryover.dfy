/** What is proved of engines on integers, carried over to the engines as they run: 32-bit sequence
    numbers, and bytes on the network. */
module Carryover {
  import opened Word
  import opened Protocol
  import opened EngineSpec
  import opened EngineRun
  import opened SendSide
  import opened RecvSide
  import opened Packing
  import opened Deadlines
  import opened Network
  import opened NetworkSafety
  import opened Delivery
  import opened Progress
  import opened Refinement
  import opened ByteNetwork
  import opened SegmentLife
  import opened NoStall

  // ---- One engine ----

  function WrapOp(op: Op): Op {
    match op
    case DoInput(ws, now) => DoInput(WrapWires(ws), now)
    case _ => op
  }

  function WrapOps(ops: seq<Op>): (r: seq<Op>)
    ensures |r| == |ops|
    ensures forall i :: 0 <= i < |ops| ==> r[i] == WrapOp(ops[i])
  {
    seq(|ops|, i requires 0 <= i < |ops| => WrapOp(ops[i]))
  }

  /** A packet whose numbers are within half the circle of where the engine stands. */
  ghost predicate FreshOp(s: State, op: Op) {
    op.DoInput? ==> FreshFor(s, op.ws) && forall i :: 0 <= i < |op.ws| ==> Arrives(Exact, op.ws[i])
  }

  /** Every packet of the run is fresh when it arrives. */
  ghost predicate FreshRun(s: State, ops: seq<Op>)
    decreases |ops|
  {
    ops == [] ||
    (var init := ops[..|ops| - 1];
     FreshRun(s, init) && FreshOp(Run(Exact, s, init), ops[|ops| - 1]))
  }

  lemma StepWraps(c: State, n: State, op: Op)
    requires Sim(c, n) && SendInv(Exact, n) && RecvInv(Exact, n) && FreshOp(n, op)
    ensures Sim(Step(Wrapping, c, WrapOp(op)), Step(Exact, n, op))
  {
    hide Sim, SendInv, RecvInv, FreshFor, Send, Recv, Input, Flush, Drain, Arrives, WrapWires;
    match op
    case DoSend(data) => SendWraps(c, n, data);
    case DoRecv => RecvWraps(c, n);
    case DoInput(ws, now) => InputWraps(c, n, ws, now);
    case DoFlush(now) => FlushWraps(c, n, now);
    case DoProbe(now) =>
      var c1, n1 := c.(probe := c.probe.(askSend := true)), n.(probe := n.probe.(askSend := true));
      SimProbe(c, n);
      ProbeFlagWraps(c, n);
      AskKeepsSending(n);
      FlushWraps(c1, n1, now);
    case DoDrain => DrainWraps(c, n);
  }

  lemma AskKeepsSending(n: State)
    requires SendInv(Exact, n)
    ensures SendInv(Exact, n.(probe := n.probe.(askSend := true)))
  {
  }

  lemma SimProbe(c: State, n: State)
    requires Sim(c, n)
    ensures c.probe == n.probe
  {
  }

  /** Fed with fresh packets, an engine on 32-bit numbers runs through the images of the states of an
      engine on integers. */
  lemma {:induction false} RunWraps(conv: u32, cfg: Config, ops: seq<Op>)
    requires FreshRun(Init(conv, cfg), ops)
    ensures Sim(Run(Wrapping, Init(conv, cfg), WrapOps(ops)), Run(Exact, Init(conv, cfg), ops))
    ensures RecvInv(Exact, Run(Exact, Init(conv, cfg), ops))
    decreases |ops|
  {
    hide Sim, SendInv, RecvInv, Step, FreshFor, Arrives, Init;
    if ops == [] {
      InitWraps(conv, cfg);
      EveryRunKeepsRecvInv(Exact, conv, cfg, []);
    } else {
      var init, op := ops[..|ops| - 1], ops[|ops| - 1];
      RunWraps(conv, cfg, init);
      EveryRunKeepsSendInv(Exact, conv, cfg, init);
      assert WrapOps(ops)[..|ops| - 1] == WrapOps(init);
      StepWraps(Run(Wrapping, Init(conv, cfg), WrapOps(init)), Run(Exact, Init(conv, cfg), init), op);
      StepKeepsRecvInv(Exact, Run(Exact, Init(conv, cfg), init), op);
    }
  }

  lemma SameBuffer(c: State, n: State)
    requires Sim(c, n)
    ensures c.cfg == n.cfg && |c.sndBuf| == |n.sndBuf|
    ensures forall i :: 0 <= i < |c.sndBuf| ==> c.sndBuf[i] == WrapSegment(n.sndBuf[i])
    ensures HasUnsentData(c) == HasUnsentData(n) && |c.sndQueue| == |n.sndQueue|
  {
  }

  /** The books of the engine as it runs: while no flush has reported a lost connection, each buffered
      segment's counter is the number of times its data was put out, below the limit; so the link is
      not dead; and at most 5 transmissions were fast ones. */
  lemma BooksAreKeptWrapped(conv: u32, cfg: Config, ops: seq<LiveOp>)
    requires RunGoesOn(conv, cfg, ops) && FreshRun(Init(conv, cfg), AllEngineOps(ops))
    ensures var (c, x) := (Run(Wrapping, Init(conv, cfg), WrapOps(AllEngineOps(ops))), TrackRun(conv, cfg, ops));
            && !IsDead(c) && |c.sndBuf| == |x.eng.sndBuf|
            && forall i :: 0 <= i < |c.sndBuf| ==>
                 var (seg, sn) := (c.sndBuf[i], x.eng.sndBuf[i].sn);
                 && 0 <= sn < |x.lives| && seg.sn == U(sn)
                 && seg.xmit == x.lives[sn].sent < c.cfg.deadLink && x.lives[sn].fasts <= FASTACK_LIMIT
  {
    hide Run, Init, TrackRun, RunGoesOn, FreshRun, Sim;
    BooksAreKept(conv, cfg, ops);
    TrackIsRun(conv, cfg, ops);
    RunWraps(conv, cfg, AllEngineOps(ops));
    var x := TrackRun(conv, cfg, ops);
    SameBuffer(Run(Wrapping, Init(conv, cfg), WrapOps(AllEngineOps(ops))), x.eng);
    BuffersHaveLives(x);
    hide TrackedInv;
  }

  lemma BuffersHaveLives(x: Tracked)
    requires TrackedInv(x)
    ensures forall i :: 0 <= i < |x.eng.sndBuf| ==> 0 <= x.eng.sndBuf[i].sn < |x.lives|
  {
    hide LifeInv, SendInv;
    forall i | 0 <= i < |x.eng.sndBuf| ensures 0 <= x.eng.sndBuf[i].sn < |x.lives| {
      assert Lives(x, x.eng.sndBuf[i]);
    }
  }

  lemma SameDeadlines(c: State, n: State, now: u32)
    requires Sim(c, n)
    ensures AllAhead(c, now) <==> AllAhead(n, now)
    ensures HasUnsentData(c) == HasUnsentData(n) && (c.sndBuf == [] <==> n.sndBuf == []) && c.wnd == n.wnd
  {
    SameBuffer(c, n);
    hide Ahead;
    assert AllRunning(c.sndBuf, now) <==> AllRunning(n.sndBuf, now) by {
      if AllRunning(c.sndBuf, now) {
        forall i | 0 <= i < |n.sndBuf| ensures Running(n.sndBuf[i], now) { assert Running(c.sndBuf[i], now); }
      }
    }
    hide AllRunning;
  }

  /** No silent stall, of the engine as it runs. */
  lemma NoSilentStallWrapped(conv: u32, cfg: Config, ops: seq<LiveOp>, t: nat)
    requires RunGoesOn(conv, cfg, ops) && Prompt(ops) && FreshRun(Init(conv, cfg), AllEngineOps(ops))
    requires TrackRun(conv, cfg, ops).clock <= t < LastFlush(ops) + HALF
    requires AllBackoffFits(TrackRun(conv, cfg, ops))
    ensures var r := Flush(Wrapping, Run(Wrapping, Init(conv, cfg), WrapOps(AllEngineOps(ops))), U(t)).0;
            AllAhead(r, U(t)) && (HasUnsentData(r) ==> r.sndBuf != [] || r.wnd.rmt == 0)
  {
    hide Run, Init, TrackRun, RunGoesOn, FreshRun, Sim, Flush, AllAhead, AllBackoffFits, Prompt, SendInv;
    NoSilentStall(conv, cfg, ops, t);
    TrackIsRun(conv, cfg, ops);
    EveryRunKeepsSendInv(Exact, conv, cfg, AllEngineOps(ops));
    RunWraps(conv, cfg, AllEngineOps(ops));
    var c, n := Run(Wrapping, Init(conv, cfg), WrapOps(AllEngineOps(ops))), TrackRun(conv, cfg, ops).eng;
    FlushWraps(c, n, U(t));
    SameDeadlines(Flush(Wrapping, c, U(t)).0, Flush(Exact, n, U(t)).0, U(t));
  }

  // ---- Rounds over bytes ----

  function EndInputs(e: Endpoint, ds: seq<Bytes>, now: u32): Endpoint
    decreases |ds|
  {
    if ds == [] then e else EndInputs(EndInput(e, ds[0], now), ds[1..], now)
  }

  function EndHanded(e: Endpoint, now: u32): seq<Bytes> {
    EncodeAll(Flush(Wrapping, e.eng, now).0.out.queue)
  }

  /** How many reads the receiver's application makes, and when the four halves of a round take place. */
  datatype Times = Times(count: nat, t1: u32, t2: u32, t3: u32, t4: u32)

  /** The receiver's application reads; the sender flushes, the receiver gets that and flushes, the
      sender gets that. */
  function EndRound(ex: Endpoint, ey: Endpoint, r: Times): (Endpoint, Endpoint) {
    var ey1 := EndInputs(EndReads(ey, r.count), EndHanded(ex, r.t1), r.t2);
    (EndInputs(EndFlush(ex, r.t1), EndHanded(ey1, r.t3), r.t4), EndFlush(ey1, r.t3))
  }

  /** Nothing is left to read, the oldest segment is due, and both flushes succeed. */
  ghost predicate GoodEndRound(ex: Endpoint, ey: Endpoint, r: Times) {
    var ey0 := EndReads(ey, r.count);
    && Recv(Wrapping, ey0.eng).1.None? && FrontDue(ex.eng, r.t1) && Flush(Wrapping, ex.eng, r.t1).1
    && Flush(Wrapping, EndInputs(ey0, EndHanded(ex, r.t1), r.t2).eng, r.t3).1
  }

  /** No datagram delivered in turn is ages late. */
  ghost predicate TimelyInputs(n: Node, ds: seq<seq<Wire>>, now: u32)
    decreases |ds|
  {
    ds == [] || (Timely(n.eng, ds[0]) && TimelyInputs(NodeInput(n, ds[0], now), ds[1..], now))
  }

  ghost predicate TimelyRound(x: Node, y: Node, r: Times) {
    var y0 := ReadAll(y, r.count);
    var y1 := NodeInputs(y0, Handed(x, r.t1), r.t2);
    TimelyInputs(y0, Handed(x, r.t1), r.t2) && TimelyInputs(NodeFlush(x, r.t1), Handed(y1, r.t3), r.t4)
  }

  function EncodeEach(ds: seq<seq<Wire>>): (r: seq<Bytes>)
    ensures |r| == |ds| && forall i :: 0 <= i < |r| ==> r[i] == EncodeDatagram(ds[i])
  {
    seq(|ds|, i requires 0 <= i < |ds| => EncodeDatagram(ds[i]))
  }

  lemma {:induction false} InputsSim(e: Endpoint, n: Node, y: Node, ds: seq<seq<Wire>>, now: u32)
    requires EndSim(e, n) && NodeInv(n) && NodeInv(y) && PairInv(n, y) && PairInv(y, n)
    requires (forall d :: d in ds ==> AllTruthful(y.eng, y.hist, d)) && TimelyInputs(n, ds, now)
    ensures EndSim(EndInputs(e, EncodeEach(ds), now), NodeInputs(n, ds, now))
    decreases |ds|
  {
    hide EndSim, NodeInv, PairInv, AllTruthful, Timely, EndInput, NodeInput, EncodeDatagram;
    if ds != [] {
      assert AllTruthful(y.eng, y.hist, ds[0]);
      TimelyIsFresh(n, y, ds[0]);
      InputSim(e, n, ds[0], now, y);
      NetworkSafety.InputKeepsAll(n, y, ds[0], now);
      assert EncodeEach(ds)[1..] == EncodeEach(ds[1..]);
      InputsSim(EndInput(e, EncodeDatagram(ds[0]), now), NodeInput(n, ds[0], now), y, ds[1..], now);
    }
  }

  lemma HandedWraps(e: Endpoint, n: Node, now: u32)
    requires EndSim(e, n) && NodeInv(n)
    ensures EndHanded(e, now) == EncodeEach(Handed(n, now))
    ensures Flush(Wrapping, e.eng, now).1 == Flush(Exact, n.eng, now).1
  {
    FlushWraps(e.eng, n.eng, now);
    hide NodeInv, Sim, Flush, EncodeDatagram, WrapWires;
    var c1, n1 := Flush(Wrapping, e.eng, now).0, Flush(Exact, n.eng, now).0;
    DrainWraps(c1, n1);
    forall i | 0 <= i < |n1.out.queue| ensures EncodeAll(c1.out.queue)[i] == EncodeDatagram(n1.out.queue[i]) {
      EncodeWraps(n1.out.queue[i]);
    }
  }

  lemma {:induction false} ReadsSim(e: Endpoint, n: Node, x: Node, times: nat)
    requires EndSim(e, n) && PairOk(Pair(x, n))
    ensures EndSim(EndReads(e, times), ReadAll(n, times))
    decreases times
  {
    hide EndSim, NodeInv, PairInv, EndRecv, NodeRecv;
    if times > 0 {
      ReadsSim(e, n, x, times - 1);
      ReadAllKeeps(x, n, times - 1);
      ReadAllSnoc(n, times);
      RecvSim(EndReads(e, times - 1), ReadAll(n, times - 1));
    }
  }

  lemma FrontDueWraps(e: Endpoint, n: Node, now: u32)
    requires EndSim(e, n)
    ensures FrontDue(e.eng, now) <==> FrontDue(n.eng, now)
  {
    SameBuffer(e.eng, n.eng);
    SameWindow(e.eng, n.eng);
    if e.eng.sndBuf != [] { MarkedWraps(n.eng.cfg, 0, n.eng.sndBuf[0], now); }
    hide Sim, MarkOf, EffectiveWindow, Marked;
  }

  lemma SameWindow(c: State, n: State)
    requires Sim(c, n)
    ensures EffectiveWindow(c) == EffectiveWindow(n) && (c.sndQueue == [] <==> n.sndQueue == [])
  {
  }

  /** A round of the engines as they run is, step by step, one of the engines on integers. */
  lemma RoundSim(ex: Endpoint, ey: Endpoint, x: Node, y: Node, r: Times)
    requires EndSim(ex, x) && EndSim(ey, y) && PairOk(Pair(x, y)) && TimelyRound(x, y, r)
    ensures var (ex2, ey2) := EndRound(ex, ey, r);
            var (x2, y2) := Round(x, ReadAll(y, r.count), r.t1, r.t2, r.t3, r.t4);
            EndSim(ex2, x2) && EndSim(ey2, y2)
    ensures GoodEndRound(ex, ey, r) ==>
            RoundAfter(Pair(x, y), ReadAll(y, r.count),
                       Pair(Round(x, ReadAll(y, r.count), r.t1, r.t2, r.t3, r.t4).0,
                            Round(x, ReadAll(y, r.count), r.t1, r.t2, r.t3, r.t4).1), r.t1, r.t2, r.t3, r.t4)
  {
    hide EndSim, NodeInv, PairInv, EndReads, ReadAll, EndFlush, NodeFlush, EndHanded, Handed, EndInputs, NodeInputs,
         TimelyInputs, Flush, Recv, FrontDue, AllTruthful, SendsFront;
    var y0, ey0 := ReadAll(y, r.count), EndReads(ey, r.count);
    ReadAllKeeps(x, y, r.count);
    ReadsSim(ey, y, x, r.count);
    SimReadable(ey0, y0);
    HandedWraps(ex, x, r.t1);
    FlushSim(ex, x, r.t1);
    SenderOfRound(x, y0, r.t1);
    HandedTruthful(x, r.t1);
    var x1 := NodeFlush(x, r.t1);
    InputsSim(ey0, y0, x1, Handed(x, r.t1), r.t2);
    Progress.InputsKeepAll(y0, x1, Handed(x, r.t1), r.t2);
    var y1, ey1 := NodeInputs(y0, Handed(x, r.t1), r.t2), EndInputs(ey0, EndHanded(ex, r.t1), r.t2);
    HandedWraps(ey1, y1, r.t3);
    FlushSim(ey1, y1, r.t3);
    SenderOfRound(y1, x1, r.t3);
    HandedTruthful(y1, r.t3);
    InputsSim(EndFlush(ex, r.t1), x1, NodeFlush(y1, r.t3), Handed(y1, r.t3), r.t4);
    FrontDueWraps(ex, x, r.t1);
    if GoodEndRound(ex, ey, r) { DueFrontIsSent(x, r.t1); }
  }

  function EndRounds(ex: Endpoint, ey: Endpoint, rounds: seq<Times>): (Endpoint, Endpoint)
    decreases |rounds|
  {
    if rounds == [] then (ex, ey)
    else
      var (ex1, ey1) := EndRound(ex, ey, rounds[0]);
      EndRounds(ex1, ey1, rounds[1..])
  }

  ghost predicate GoodEndRounds(ex: Endpoint, ey: Endpoint, rounds: seq<Times>)
    decreases |rounds|
  {
    rounds == [] ||
    (GoodEndRound(ex, ey, rounds[0])
     && GoodEndRounds(EndRound(ex, ey, rounds[0]).0, EndRound(ex, ey, rounds[0]).1, rounds[1..]))
  }

  ghost predicate TimelyRounds(x: Node, y: Node, rounds: seq<Times>)
    decreases |rounds|
  {
    rounds == [] ||
    (var r := rounds[0];
     var (x2, y2) := Round(x, ReadAll(y, r.count), r.t1, r.t2, r.t3, r.t4);
     TimelyRound(x, y, r) && TimelyRounds(x2, y2, rounds[1..]))
  }

  lemma {:induction false} RoundsWrap(ex: Endpoint, ey: Endpoint, x: Node, y: Node, rounds: seq<Times>)
    requires EndSim(ex, x) && EndSim(ey, y) && PairOk(Pair(x, y)) && MessagesFit(x.eng.cfg, y.eng.cfg)
    requires GoodEndRounds(ex, ey, rounds) && TimelyRounds(x, y, rounds)
    ensures Outstanding(EndRounds(ex, ey, rounds).0.eng) + |rounds| <= Outstanding(ex.eng)
    decreases |rounds|
  {
    hide EndSim, PairOk, EndRound, Round, GoodEndRound, TimelyRound, Outstanding, ReadAll, RoundAfter;
    if rounds != [] {
      var r := rounds[0];
      var (ex1, ey1) := EndRound(ex, ey, r);
      var (x1, y1) := Round(x, ReadAll(y, r.count), r.t1, r.t2, r.t3, r.t4);
      RoundSim(ex, ey, x, y, r);
      assert ReadAndRound(Pair(x, y), Pair(x1, y1));
      ReadAndRoundAdvances(Pair(x, y), Pair(x1, y1));
      SameOutstanding(ex, x);
      SameOutstanding(ex1, x1);
      RoundsWrap(ex1, ey1, x1, y1, rounds[1..]);
    }
  }

  lemma SameOutstanding(e: Endpoint, n: Node)
    requires EndSim(e, n)
    ensures Outstanding(e.eng) == Outstanding(n.eng)
  {
    SameBuffer(e.eng, n.eng);
    hide Sim;
  }

  /** Progress of the engines as they run. From every state a timely run reaches, whatever was lost and
      is still under way: rounds in which the receiver's application has read all there is, the oldest
      segment is due, and both flushes succeed and arrive, end with `has_unsent_data` false after as
      many as there were segments. */
  lemma RoundsFinishOverBytes(conv: u32, left: Config, right: Config, actions: seq<Action>, from: Side,
      rounds: seq<Times>)
    requires TimelyRun(InitSystem(conv, left, right), actions)
    requires var sys := Reached(conv, left, right, actions);
             TimelyRounds(At(sys, from), At(sys, Other(from)), rounds)
    requires var b := RunBytes(InitBytes(conv, left, right), actions);
             && GoodEndRounds(EndAt(b, from), EndAt(b, Other(from)), rounds)
             && MessagesFit(EndAt(b, from).eng.cfg, EndAt(b, Other(from)).eng.cfg)
    ensures var b := RunBytes(InitBytes(conv, left, right), actions);
            var last := EndRounds(EndAt(b, from), EndAt(b, Other(from)), rounds).0;
            && Outstanding(last.eng) + |rounds| <= Outstanding(EndAt(b, from).eng)
            && (|rounds| >= Outstanding(EndAt(b, from).eng) ==> !HasUnsentData(last.eng))
  {
    hide RunBytes, RunSystem, TimelyRun, EndSim, NodeInv, PairInv, GoodEndRounds, TimelyRounds, EndRounds;
    ByteRunIsImage(conv, left, right, actions);
    Invariants(conv, left, right, actions, from);
    var b, sys := RunBytes(InitBytes(conv, left, right), actions), Reached(conv, left, right, actions);
    SameLogs(EndAt(b, from), At(sys, from));
    SameLogs(EndAt(b, Other(from)), At(sys, Other(from)));
    RoundsWrap(EndAt(b, from), EndAt(b, Other(from)), At(sys, from), At(sys, Other(from)), rounds);
  }
}
