/** What two engines over an unreliable network guarantee, as theorems over every run. */
module Delivery {
  import opened Word
  import opened Protocol
  import opened EngineSpec
  import opened Fragments
  import opened Network
  import opened NetworkSafety
  import opened SendSide
  import opened RecvSide

  function Reached(conv: u32, left: Config, right: Config, actions: seq<Action>): System {
    RunSystem(InitSystem(conv, left, right), actions)
  }

  lemma Invariants(conv: u32, left: Config, right: Config, actions: seq<Action>, who: Side)
    ensures var sys := Reached(conv, left, right, actions);
            && NodeInv(At(sys, who)) && NodeInv(At(sys, Other(who)))
            && PairInv(At(sys, who), At(sys, Other(who))) && PairInv(At(sys, Other(who)), At(sys, who))
  {
    hide NodeInv, PairInv, RunSystem;
    EveryRunIsSafe(conv, left, right, actions);
  }

  // ---- In order, byte for byte ----

  lemma MessageOfUnit(x: Node, i: nat)
    requires NodeInv(x) && !x.eng.cfg.streamMode && i < |x.accepted|
    ensures DataOf(Units(x)[i]) == x.accepted[i]
  {
    var mss := Mss(x.eng.cfg);
    assert GoodUnit(Units(x)[i], x.eng.cfg);
    hide Mss, DataOf, NodeInv;
    assert Units(x)[i] == Fragment(x.accepted[i], mss, false);
    assert x.accepted[i] != [];
    FragmentShape(x.accepted[i], mss, false);
  }

  lemma DeliveredMessages(x: Node, y: Node)
    requires NodeInv(x) && PairInv(x, y) && !x.eng.cfg.streamMode
    ensures y.delivered <= x.accepted
  {
    hide NodeInv, NoLoss, ReceivesFrom, DataOf, QueueIs;
    forall i | 0 <= i < |y.delivered| ensures y.delivered[i] == x.accepted[i] {
      MessageOfUnit(x, i);
    }
  }

  lemma {:induction false} ConcatOfUnits(msgs: seq<Bytes>, units: seq<seq<Frag>>)
    requires |msgs| == |units| && forall i :: 0 <= i < |msgs| ==> msgs[i] == DataOf(units[i])
    ensures Concat(msgs) == DataOf(Join(units))
    decreases |msgs|
  {
    if msgs != [] {
      var k := |msgs| - 1;
      ConcatOfUnits(msgs[..k], units[..k]);
      assert msgs == msgs[..k] + [msgs[k]];
      ConcatAppend(msgs[..k], [msgs[k]]);
      DataOfAppend(Join(units[..k]), units[k]);
      var one: seq<Bytes> := [msgs[k]];
      assert one[1..] == [] && msgs[k] + [] == msgs[k];
    }
  }

  lemma DeliveredBytes(x: Node, y: Node)
    requires NodeInv(x) && PairInv(x, y)
    ensures Concat(y.delivered) <= x.queued
  {
    hide NodeInv, DataOf, QueueIs, Units, Concat, Join;
    var units, k := Units(x), |y.delivered|;
    QueuedIsJoined(x);
    assert Delivers(x, y);
    hide PairInv;
    ConcatOfUnits(y.delivered, units[..k]);
    JoinAppend(units[..k], units[k..]);
    assert units == units[..k] + units[k..];
    DataOfAppend(Join(units[..k]), Join(units[k..]));
  }

  lemma QueuedIsJoined(x: Node)
    requires NodeInv(x)
    ensures DataOf(Join(Units(x))) == x.queued
  {
    hide Units, Join, DataOf;
  }

  /** Over a network that loses, duplicates, reorders and delays at will, in every reachable state
      and in both directions: the messages `recv` returned are the first messages `send` accepted,
      in order and unchanged; in stream mode the same holds of the bytes. */
  lemma DeliveryIsInOrder(conv: u32, left: Config, right: Config, actions: seq<Action>, from: Side)
    ensures var sys := Reached(conv, left, right, actions);
            var (x, y) := (At(sys, from), At(sys, Other(from)));
            && (!x.eng.cfg.streamMode ==> y.delivered <= x.accepted)
            && Concat(y.delivered) <= x.queued
  {
    hide NodeInv, PairInv, RunSystem, Concat;
    Invariants(conv, left, right, actions, from);
    var sys := Reached(conv, left, right, actions);
    var x, y := At(sys, from), At(sys, Other(from));
    DeliveredBytes(x, y);
    if !x.eng.cfg.streamMode { DeliveredMessages(x, y); }
  }

  // ---- No segment is lost, no acknowledgement lies ----

  /** What is queued for reading is the latest stretch of what was numbered, up to what is expected. */
  lemma QueueIsRecent(x: Node, y: Node)
    requires PairInv(x, y)
    ensures var (s, n) := (y.eng, |y.eng.rcvQueue|);
            n <= s.rcvNxt <= |x.hist| && s.rcvQueue == x.hist[s.rcvNxt - n..s.rcvNxt]
  {
    hide Units, Join, NoLoss, ReceivesFrom;
  }

  /** In every reachable state every number given out is still buffered or held by the peer, with
      the content it was given, in the reorder buffer and in the receive queue; and every
      acknowledgement ever put on the network, however old, names only segments its sender holds. */
  lemma NoSegmentIsLost(conv: u32, left: Config, right: Config, actions: seq<Action>, from: Side)
    ensures var sys := Reached(conv, left, right, actions);
            var (x, y) := (At(sys, from), At(sys, Other(from)));
            && |x.hist| == x.eng.sndNxt
            && (forall sn :: 0 <= sn < x.eng.sndNxt ==> Buffered(x.eng.sndBuf, sn) || Held(y.eng, sn))
            && (forall i :: 0 <= i < |x.eng.sndBuf| ==>
                  0 <= x.eng.sndBuf[i].sn < |x.hist| && x.eng.sndBuf[i].frag == x.hist[x.eng.sndBuf[i].sn])
            && (forall k :: k in y.eng.rcvBuf ==> 0 <= k < |x.hist| && y.eng.rcvBuf[k] == x.hist[k])
            && |y.eng.rcvQueue| <= y.eng.rcvNxt <= |x.hist|
            && y.eng.rcvQueue == x.hist[y.eng.rcvNxt - |y.eng.rcvQueue|..y.eng.rcvNxt]
            && (forall d, w :: d in y.net && w in d ==>
                  0 <= w.una <= y.eng.rcvNxt && (w.cmd == CMD_ACK ==> Held(y.eng, w.sn)))
            && (forall d, w :: d in x.net && w in d && w.cmd == CMD_PUSH ==>
                  0 <= w.sn < |x.hist| && Frag(w.frg, w.data) == x.hist[w.sn])
  {
    Invariants(conv, left, right, actions, from);
    var sys := Reached(conv, left, right, actions);
    var x, y := At(sys, from), At(sys, Other(from));
    QueueIsRecent(x, y);
    hide RunSystem, SendInv, RecvInv, UnitsInv, Delivers;
    forall d, w | d in y.net && w in d ensures Truthful(y.eng, y.hist, w) {
      assert AllTruthful(y.eng, y.hist, d);
    }
    forall d, w | d in x.net && w in d ensures Truthful(x.eng, x.hist, w) {
      assert AllTruthful(x.eng, x.hist, d);
    }
  }

  lemma HistoryOnlyGrows(sys: System, a: Action, who: Side)
    ensures At(sys, who).hist <= At(Apply(sys, a), who).hist
  {
    hide Flush, Send, Recv, Input;
  }

  lemma {:induction false} HistoryGrowsAlong(sys: System, actions: seq<Action>, more: seq<Action>, who: Side)
    ensures At(RunSystem(sys, actions), who).hist <= At(RunSystem(sys, actions + more), who).hist
    decreases |more|
  {
    hide Apply;
    if more == [] {
      assert actions + more == actions;
    } else {
      var init, all := more[..|more| - 1], actions + more;
      assert all[..|all| - 1] == actions + init;
      HistoryGrowsAlong(sys, actions, init, who);
      HistoryOnlyGrows(RunSystem(sys, actions + init), more[|more| - 1], who);
    }
  }

  /** What carries number `sn` at `x` or `y`, or ever went from `x` to the network, carries `frag`. */
  ghost predicate CarriesOnly(x: Node, y: Node, sn: int, frag: Frag) {
    && (forall i :: 0 <= i < |x.eng.sndBuf| && x.eng.sndBuf[i].sn == sn ==> x.eng.sndBuf[i].frag == frag)
    && (forall d, w :: d in x.net && w in d && w.cmd == CMD_PUSH && w.sn == sn ==> Frag(w.frg, w.data) == frag)
    && (sn in y.eng.rcvBuf ==> y.eng.rcvBuf[sn] == frag)
  }

  /** The payload and `frg` of a number never change once it is given: whatever is transmitted,
      buffered or received under it at any later time, retransmissions included, is the fragment it
      was given to. */
  lemma PayloadNeverChanges(conv: u32, left: Config, right: Config, actions: seq<Action>, more: seq<Action>,
      from: Side, sn: nat)
    requires sn < |At(Reached(conv, left, right, actions), from).hist|
    ensures var frag := At(Reached(conv, left, right, actions), from).hist[sn];
            var later := Reached(conv, left, right, actions + more);
            CarriesOnly(At(later, from), At(later, Other(from)), sn, frag)
  {
    hide RunSystem;
    HistoryGrowsAlong(InitSystem(conv, left, right), actions, more, from);
    NoSegmentIsLost(conv, left, right, actions + more, from);
  }

  // ---- The receive queue cannot wedge ----

  /** Every message one side accepts fits the receive window of the other: `send` goes by its own
      receive window, and by no more than 128 fragments; in stream mode every segment is a message. */
  predicate MessagesFit(sender: Config, receiver: Config) {
    sender.streamMode || MaxFragments(sender) <= receiver.rcvWnd
  }

  lemma UnitFits(x: Node, k: nat, receiver: Config)
    requires NodeInv(x) && k < |Units(x)| && MessagesFit(x.eng.cfg, receiver)
    ensures |Units(x)[k]| <= receiver.rcvWnd
  {
    hide SendInv, RecvInv, AllTruthful, AcksHeld, BufferMatches, Join, DataOf;
    assert GoodUnit(Units(x)[k], x.eng.cfg);
  }

  /** The fragment bound of `send` is what keeps a full receive queue readable: if every message the
      sender accepts fits the receiver's window, which equal windows give, and any of 128 or more, then
      a receiver whose queue is full always has a complete message to return. */
  lemma FullQueueIsReadable(conv: u32, left: Config, right: Config, actions: seq<Action>, from: Side)
    ensures var sys := Reached(conv, left, right, actions);
            var (x, y) := (At(sys, from), At(sys, Other(from)));
            MessagesFit(x.eng.cfg, y.eng.cfg) && |y.eng.rcvQueue| >= y.eng.cfg.rcvWnd
            ==> Recv(Exact, y.eng).1.Some?
  {
    hide NodeInv, PairInv, RunSystem, Recv, Units, MessagesFit;
    Invariants(conv, left, right, actions, from);
    var sys := Reached(conv, left, right, actions);
    var x, y := At(sys, from), At(sys, Other(from));
    if MessagesFit(x.eng.cfg, y.eng.cfg) && |y.eng.rcvQueue| >= y.eng.cfg.rcvWnd {
      ReadableIff(x, y);
      UnitFits(x, |y.delivered|, y.eng.cfg);
    }
  }

  /** In general `recv` returns something exactly when the queue holds all fragments of the next
      message. */
  lemma ReadableIff(x: Node, y: Node)
    requires NodeInv(x) && PairInv(x, y) && y.eng.rcvQueue != []
    ensures |y.delivered| < |Units(x)|
    ensures Recv(Exact, y.eng).1.Some? <==> |y.eng.rcvQueue| >= |Units(x)[|y.delivered|]|
    ensures |Units(x)[|y.delivered|]| <= MaxFragments(x.eng.cfg)
  {
    var g, rest := QueueHead(x, y);
    hide NodeInv, PairInv, Units, DataOf, Recv, PeekSize, TakeMessage;
    TakeUnit(y.eng.rcvQueue, g, rest);
    if |y.eng.rcvQueue| >= |g| {
      assert DataOf(g) != [];
      RecvReturns(y.eng, DataOf(g), y.eng.rcvQueue[|g|..]);
    } else {
      RecvWaits(y.eng);
    }
  }

  /** Exactly when a full queue is readable: when the next message fits the receiver's window. */
  lemma FullQueueIsReadableIff(x: Node, y: Node)
    requires NodeInv(x) && NodeInv(y) && PairInv(x, y) && |y.eng.rcvQueue| >= y.eng.cfg.rcvWnd
    ensures |y.delivered| < |Units(x)|
    ensures Recv(Exact, y.eng).1.Some? <==> |Units(x)[|y.delivered|]| <= y.eng.cfg.rcvWnd
  {
    QueueFits(y);
    hide NodeInv, PairInv, Units, Recv;
    ReadableIff(x, y);
  }

  lemma QueueFits(y: Node)
    requires NodeInv(y)
    ensures |y.eng.rcvQueue| <= y.eng.cfg.rcvWnd
  {
  }

  // ---- A message wider than the window ----

  /** The `k`-th message of `x` has more fragments than the receive window of `y`. */
  ghost predicate TooWide(x: Node, k: nat, y: Node) {
    !x.eng.cfg.streamMode && k < |x.accepted| && FragmentCount(|x.accepted[k]|, Mss(x.eng.cfg)) > y.eng.cfg.rcvWnd
  }

  /** Then `recv` does not return it. */
  lemma WideMessageWaits(x: Node, y: Node, k: nat)
    requires NodeInv(x) && NodeInv(y) && PairInv(x, y) && TooWide(x, k, y) && |y.delivered| <= k
    ensures |NodeRecv(y).delivered| <= k
  {
    hide NodeInv, PairInv, Units, Recv;
    if |y.delivered| == k && Recv(Exact, y.eng).1.Some? {
      NothingFromNothing(y.eng);
      ReadableIff(x, y);
      QueueFits(y);
      WideUnit(x, k, y);
    }
  }

  lemma NothingFromNothing(s: State)
    requires Recv(Exact, s).1.Some?
    ensures s.rcvQueue != []
  {
  }

  lemma WideUnit(x: Node, k: nat, y: Node)
    requires TooWide(x, k, y)
    ensures k < |Units(x)| && |Units(x)[k]| > y.eng.cfg.rcvWnd
  {
    FragmentShape(x.accepted[k], Mss(x.eng.cfg), false);
    hide Fragment, FragmentCount, Mss;
  }

  lemma AcceptedOnlyGrows(sys: System, a: Action, who: Side)
    ensures At(sys, who).accepted <= At(Apply(sys, a), who).accepted
    ensures At(Apply(sys, a), who).eng.cfg == At(sys, who).eng.cfg
  {
    hide Flush, PeekSize, TakeMessage, MoveToRecvQueue, Input, Mss, MergeLength, MergeIntoLast, FragmentCount, Fragment;
  }

  lemma DeliveredOnlyByReading(sys: System, a: Action, who: Side)
    requires !(a.Read? && a.who == who)
    ensures At(Apply(sys, a), who).delivered == At(sys, who).delivered
  {
    hide Flush, Recv, Send, Input;
  }

  /** A message of more fragments than the receiver's window stops its direction for good: whatever is
      sent, delivered and read, `recv` never returns it, nor anything after it. */
  lemma {:induction false} WideMessageIsNeverDelivered(conv: u32, left: Config, right: Config, actions: seq<Action>,
      from: Side, k: nat)
    requires var sys := Reached(conv, left, right, actions);
             TooWide(At(sys, from), k, At(sys, Other(from)))
    ensures |At(Reached(conv, left, right, actions), Other(from)).delivered| <= k
    decreases |actions|
  {
    hide Apply, NodeInv, PairInv, TooWide, FragmentCount, Mss;
    if actions != [] {
      var init, a, to := actions[..|actions| - 1], actions[|actions| - 1], Other(from);
      var sys := Reached(conv, left, right, init);
      var x, y := At(sys, from), At(sys, to);
      Invariants(conv, left, right, init, from);
      AcceptedOnlyGrows(sys, a, from);
      AcceptedOnlyGrows(sys, a, to);
      WasTooWide(x, y, At(Apply(sys, a), from), At(Apply(sys, a), to), k);
      if k < |x.accepted| { WideMessageIsNeverDelivered(conv, left, right, init, from, k); }
      else { NothingAhead(x, y); }
      if a.Read? && a.who == to {
        if k < |x.accepted| { WideMessageWaits(x, y, k); } else { ReadOfNothing(x, y); }
        ReadIsRecv(sys, to);
      } else {
        DeliveredOnlyByReading(sys, a, to);
      }
    }
  }

  lemma WasTooWide(x: Node, y: Node, x1: Node, y1: Node, k: nat)
    requires TooWide(x1, k, y1) && x.accepted <= x1.accepted && x.eng.cfg == x1.eng.cfg && y.eng.cfg == y1.eng.cfg
    ensures !x.eng.cfg.streamMode && (k < |x.accepted| ==> TooWide(x, k, y))
  {
    if k < |x.accepted| { assert x1.accepted[k] == x.accepted[k]; }
  }

  /** No more messages are delivered than were accepted, before a read and after it. */
  lemma NothingAhead(x: Node, y: Node)
    requires PairInv(x, y) && !x.eng.cfg.streamMode
    ensures |y.delivered| <= |x.accepted|
  {
    hide NoLoss, ReceivesFrom, QueueIs;
  }

  lemma ReadOfNothing(x: Node, y: Node)
    requires NodeInv(x) && NodeInv(y) && PairInv(x, y) && PairInv(y, x) && !x.eng.cfg.streamMode
    ensures |NodeRecv(y).delivered| <= |x.accepted|
  {
    hide NodeInv, PairInv, NodeRecv;
    RecvKeepsBoth(x, y);
    NothingAhead(x, NodeRecv(y));
  }

  lemma ReadIsRecv(sys: System, who: Side)
    ensures At(Apply(sys, Action.Read(who)), who) == NodeRecv(At(sys, who))
  {
    hide NodeRecv;
  }
}
