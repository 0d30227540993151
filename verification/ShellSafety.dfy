/** What the shell adds to the engine's guarantees: nothing between the application and the engine
    is lost, reordered or refused; the queues stay bounded; and a clean close means delivery. */
module ShellSafety {
  import opened Word
  import opened Protocol
  import opened EngineSpec
  import opened Fragments
  import opened Packing
  import opened RecvSide
  import opened Network
  import opened ByteNetwork
  import opened ActorSpec
  import opened StreamSpec
  import opened Shell
  import opened ShellTrace

  function NonEmpty(msgs: seq<Bytes>): seq<Bytes> {
    if msgs == [] then []
    else
      var last := msgs[|msgs| - 1];
      NonEmpty(msgs[..|msgs| - 1]) + (if last == [] then [] else [last])
  }

  function MaxMessage(cfg: Config): nat {
    Mss(cfg) * MaxFragments(cfg)
  }

  /** How long the send queue can be before a close: one message past the high-water mark. */
  function QueueBound(cfg: Config): nat {
    SendHighWater(cfg) - 1 + MaxFragments(cfg)
  }

  ghost predicate AllWithin(msgs: seq<Bytes>, max: nat) {
    forall i :: 0 <= i < |msgs| ==> |msgs[i]| <= max
  }

  /** The engine's queue has taken exactly what the actor gave it. */
  ghost predicate TakenIsQueued(a: Actor) {
    a.end.queued == Concat(a.taken) && a.end.accepted == NonEmpty(a.taken)
  }

  ghost predicate ActorCore(a: Actor) {
    && TakenIsQueued(a)
    && AllWithin(a.sendRx, MaxMessage(a.end.eng.cfg))
    && |a.sendRx| <= SEND_CAPACITY && |a.dataTx| <= DATA_CAPACITY
    && (forall i :: 0 <= i < |a.dataTx| ==> a.dataTx[i] != [])
  }

  ghost predicate ActorInv(a: Actor) {
    && ActorCore(a)
    && (!a.closing ==> |a.end.eng.sndQueue| <= QueueBound(a.end.eng.cfg))
    && (a.exit.Acknowledged? ==> !HasUnsentData(a.end.eng))
  }

  /** A part of a turn: `sendRx` is only taken from, and what `recv` returned is in `dataTx`. */
  ghost predicate Hands(a: Actor, b: Actor) {
    && b.end.eng.cfg == a.end.eng.cfg
    && b.taken + b.sendRx == a.taken + a.sendRx
    && a.end.delivered <= b.end.delivered
    && b.dataTx == a.dataTx + b.end.delivered[|a.end.delivered|..]
  }

  lemma HandsOn(a: Actor, b: Actor, c: Actor)
    requires Hands(a, b) && Hands(b, c)
    ensures Hands(a, c)
  {
    var d0, d1, d2 := a.end.delivered, b.end.delivered, c.end.delivered;
    assert d2[|d0|..] == d1[|d0|..] + d2[|d1|..];
  }

  // ---- Engine calls and the send queue ----

  lemma SendGrows(s: State, msg: Bytes)
    ensures |Send(s, msg).0.sndQueue| <= |s.sndQueue| + MaxFragments(s.cfg)
  {
    var rest := msg[MergeLength(s, msg)..];
    if rest != [] { FragmentShape(rest, Mss(s.cfg), s.cfg.streamMode); }
    hide Fragment, FragmentCount;
  }

  lemma {:induction false} MoveShrinks(s: State, now: u32)
    ensures |MoveToSendBuf(Wrapping, s, now).sndQueue| <= |s.sndQueue|
    ensures s.sndQueue == [] ==> MoveToSendBuf(Wrapping, s, now) == s
    decreases |s.sndQueue|
  {
    hide Before, Add, EffectiveWindow;
    if s.sndQueue != [] { MoveShrinks(NumberOne(Wrapping, s, now), now); }
  }

  lemma FlushShrinks(s: State, now: u32)
    ensures var r := Flush(Wrapping, s, now).0;
            |r.sndQueue| <= |s.sndQueue| && r.cfg == s.cfg && (!HasUnsentData(s) ==> !HasUnsentData(r))
  {
    hide OutputAll, ProbeTimer, MoveToSendBuf, ToSend, ThroughDead, AnyDead, UpdateCongestionOnLoss;
    var s1 := HandleWindowProbe(FlushAcks(s), now);
    MoveShrinks(s1, now);
  }

  lemma InputKeepsQueue(e: Endpoint, data: Bytes, now: u32)
    ensures var r := EndInput(e, data, now);
            r == e.(eng := r.eng) && r.eng.sndQueue == e.eng.sndQueue && r.eng.cfg == e.eng.cfg
  {
    hide Input, ParseDatagram;
  }

  lemma RecvKeepsQueue(s: State)
    ensures var (r, got) := Recv(Wrapping, s);
            r.sndQueue == s.sndQueue && r.sndBuf == s.sndBuf && r.cfg == s.cfg && (got.Some? ==> got.value != [])
  {
    hide MoveToRecvQueue, TakeMessage, PeekSize;
  }

  lemma FlushKeepsActor(a: Actor, now: u32)
    requires ActorInv(a)
    ensures var b := a.(end := EndFlush(a.end, now));
            ActorInv(b) && Hands(a, b) && (!HasUnsentData(a.end.eng) ==> !HasUnsentData(b.end.eng))
  {
    hide Flush, EncodeAll, Concat, NonEmpty;
    FlushShrinks(a.end.eng, now);
  }

  // ---- Parts of a turn ----

  lemma TakenOne(taken: seq<Bytes>, msg: Bytes)
    ensures Concat(taken + [msg]) == Concat(taken) + msg
    ensures NonEmpty(taken + [msg]) == NonEmpty(taken) + (if msg == [] then [] else [msg])
  {
    ConcatAppend(taken, [msg]);
    var one: seq<Bytes> := [msg];
    assert one[1..] == [] && msg + [] == msg;
    assert (taken + [msg])[..|taken|] == taken;
  }

  /** What the stream lets through is never refused: the engine takes all of it. */
  lemma EngineTakes(e: Endpoint, msg: Bytes)
    requires |msg| <= MaxMessage(e.eng.cfg)
    ensures Send(e.eng, msg).1
    ensures var r := EndSend(e, msg);
            && r == e.(eng := r.eng, accepted := r.accepted, queued := e.queued + msg)
            && r.accepted == e.accepted + (if msg == [] then [] else [msg])
            && r.eng.cfg == e.eng.cfg && r.eng.sndBuf == e.eng.sndBuf
            && |r.eng.sndQueue| <= |e.eng.sndQueue| + MaxFragments(e.eng.cfg)
  {
    hide Send, MergeLength, MaxFragments, Mss;
    SendAccepts(e.eng, msg);
    SendGrows(e.eng, msg);
  }

  lemma TakeOneKeeps(a: Actor)
    requires ActorCore(a) && a.sendRx != []
    ensures Send(a.end.eng, a.sendRx[0]).1
    ensures var b := TakeOne(a);
            ActorCore(b) && Hands(a, b)
            && |b.end.eng.sndQueue| <= |a.end.eng.sndQueue| + MaxFragments(a.end.eng.cfg)
  {
    var msg := a.sendRx[0];
    hide EndSend, Send, Concat, NonEmpty, MaxMessage, MaxFragments;
    EngineTakes(a.end, msg);
    TakenOne(a.taken, msg);
    assert a.taken + [msg] + a.sendRx[1..] == a.taken + a.sendRx;
  }

  lemma {:induction false} AbsorbKeeps(a: Actor, all: bool)
    requires ActorCore(a)
    ensures var b := Absorb(a, all);
            && ActorCore(b) && Hands(a, b)
            && (!all && |a.end.eng.sndQueue| <= QueueBound(a.end.eng.cfg)
                ==> |b.end.eng.sndQueue| <= QueueBound(b.end.eng.cfg))
            && (all || |b.end.eng.sndQueue| < SendHighWater(b.end.eng.cfg) ==> b.sendRx == [])
    decreases |a.sendRx|
  {
    hide ActorCore, Hands, SendHighWater, MaxFragments, EndSend;
    if a.sendRx != [] && (all || |a.end.eng.sndQueue| < SendHighWater(a.end.eng.cfg)) {
      var a1 := TakeOne(a);
      TakeOneKeeps(a);
      AbsorbKeeps(a1, all);
      HandsOn(a, a1, Absorb(a1, all));
      SameConfig(a, a1);
    } else {
      HandsNothing(a);
    }
  }

  lemma SameConfig(a: Actor, b: Actor)
    requires Hands(a, b)
    ensures b.end.eng.cfg == a.end.eng.cfg
  {
  }

  lemma HandsNothing(a: Actor)
    ensures Hands(a, a)
  {
  }

  /** A slot is reserved before `recv` is called, so what it returns is never dropped. */
  lemma {:induction false} DrainKeeps(a: Actor)
    requires ActorCore(a)
    ensures var b := DrainRecv(a);
            && ActorCore(b) && Hands(a, b)
            && b.end.eng.sndQueue == a.end.eng.sndQueue && b.end.eng.sndBuf == a.end.eng.sndBuf
    decreases DATA_CAPACITY - |a.dataTx|
  {
    hide ActorCore, Hands, Recv;
    if a.readerGone || |a.dataTx| >= DATA_CAPACITY {
      HandsNothing(a);
    } else {
      var got := Recv(Wrapping, a.end.eng).1;
      var a1 := a.(end := EndRecv(a.end), dataTx := if got.Some? then a.dataTx + [got.value] else a.dataTx);
      DrainOneKeeps(a);
      if got.Some? {
        DrainKeeps(a1);
        HandsOn(a, a1, DrainRecv(a1));
      }
    }
  }

  lemma DrainOneKeeps(a: Actor)
    requires ActorCore(a) && |a.dataTx| < DATA_CAPACITY
    ensures var got := Recv(Wrapping, a.end.eng).1;
            var b := a.(end := EndRecv(a.end), dataTx := if got.Some? then a.dataTx + [got.value] else a.dataTx);
            && ActorCore(b) && Hands(a, b)
            && b.end.eng.sndQueue == a.end.eng.sndQueue && b.end.eng.sndBuf == a.end.eng.sndBuf
  {
    hide Recv, Concat, NonEmpty;
    RecvKeepsQueue(a.end.eng);
    var got := Recv(Wrapping, a.end.eng).1;
    var d := a.end.delivered;
    if got.Some? { assert (d + [got.value])[|d|..] == [got.value]; } else { assert a.dataTx + d[|d|..] == a.dataTx; }
  }

  // ---- Whole turns ----

  lemma DrainKeepsActor(a: Actor)
    requires ActorInv(a)
    ensures ActorInv(DrainRecv(a)) && Hands(a, DrainRecv(a))
  {
    hide ActorCore, Hands, DrainRecv;
    DrainKeeps(a);
    SameConfig(a, DrainRecv(a));
  }

  lemma FlushDrainKeeps(a: Actor, now: u32)
    requires ActorInv(a)
    ensures var b := DrainRecv(a.(end := EndFlush(a.end, now)));
            ActorInv(b) && Hands(a, b)
  {
    hide ActorInv, Hands, DrainRecv, EndFlush;
    var b := a.(end := EndFlush(a.end, now));
    FlushKeepsActor(a, now);
    DrainKeepsActor(b);
    HandsOn(a, b, DrainRecv(b));
  }

  lemma FailKeeps(a: Actor)
    requires ActorInv(a)
    ensures ActorInv(Fail(a)) && Hands(a, Fail(a))
  {
    hide Concat, NonEmpty;
  }

  lemma TimerKeeps(a: Actor, now: u32, silence: Silence)
    requires ActorInv(a)
    ensures ActorInv(OnTimer(a, now, silence)) && Hands(a, OnTimer(a, now, silence))
  {
    hide ActorInv, Hands, DrainRecv, Flush, EncodeAll;
    FailKeeps(a);
    var (e1, ok1) := FlushOnly(a.end, now);
    FlushDrainKeeps(a, now);
    assert HandOver(e1) == EndFlush(a.end, now);
    if silence.Due? {
      HandOverTogether(a.end, now);
      ProbeKeeps(a, now);
    }
  }

  lemma ProbeKeeps(a: Actor, now: u32)
    requires ActorInv(a)
    ensures var b := DrainRecv(a.(end := EndKeepAlive(EndFlush(a.end, now), now)));
            ActorInv(b) && Hands(a, b)
  {
    hide ActorInv, Hands, DrainRecv, EndFlush;
    var b := a.(end := EndFlush(a.end, now));
    FlushKeepsActor(a, now);
    var c := b.(end := b.end.(eng := b.end.eng.(probe := b.end.eng.probe.(askSend := true))));
    AskKeeps(b);
    FlushDrainKeeps(c, now);
    HandsOn(a, b, c);
    HandsOn(a, c, DrainRecv(c.(end := EndFlush(c.end, now))));
  }

  lemma AskKeeps(a: Actor)
    requires ActorInv(a)
    ensures var b := a.(end := a.end.(eng := a.end.eng.(probe := a.end.eng.probe.(askSend := true))));
            ActorInv(b) && Hands(a, b)
  {
    hide Concat, NonEmpty;
  }

  lemma CloseKeeps(a: Actor, now: u32)
    requires ActorInv(a) && a.exit.Running?
    ensures var b := OnClose(a, now);
            ActorInv(b) && Hands(a, b) && b.sendRx == []
  {
    hide ActorCore, Hands, Absorb, EndFlush;
    AbsorbKeeps(a, true);
    var a1 := Absorb(a, true);
    var a2 := a1.(sendClosed := true, closing := true);
    FlagsKeep(a1, a2);
    FlushKeepsActor(a2, now);
    HandsOn(a, a1, a2);
    HandsOn(a, a2, a2.(end := EndFlush(a2.end, now)));
  }

  lemma FlagsKeep(a: Actor, b: Actor)
    requires ActorCore(a) && b == a.(sendClosed := b.sendClosed, closing := b.closing)
    ensures ActorCore(b) && Hands(a, b)
  {
    hide Concat, NonEmpty;
  }

  lemma InputKeeps(a: Actor, data: Bytes, now: u32)
    requires ActorInv(a) && a.exit.Running?
    ensures var b := a.(end := EndInput(a.end, data, now));
            ActorInv(b) && Hands(a, b)
  {
    hide EndInput, Concat, NonEmpty;
    InputKeepsQueue(a.end, data, now);
  }

  lemma PacketKeeps(a: Actor, data: Bytes, now: u32)
    requires ActorInv(a) && a.exit.Running?
    ensures ActorInv(OnPacket(a, data, now)) && Hands(a, OnPacket(a, data, now))
  {
    hide ActorInv, Hands, DrainRecv, EndFlush, EndInput, FlushOnly;
    InputKeeps(a, data, now);
    var a1 := a.(end := EndInput(a.end, data, now));
    FlushDrainKeeps(a1, now);
    FailKeeps(a1);
    HandsOn(a, a1, OnPacket(a, data, now));
  }

  lemma OutboundKeeps(a: Actor, now: u32)
    requires ActorInv(a) && Enabled(a, Outbound(now))
    ensures ActorInv(OnOutbound(a, now)) && Hands(a, OnOutbound(a, now))
  {
    hide ActorCore, Hands, Absorb, EndFlush, EndSend, FlushOnly, MaxFragments, SendHighWater;
    var a0 := TakeOne(a);
    var a1 := Absorb(a0, false);
    TakeOneKeeps(a);
    SameConfig(a, a0);
    AbsorbKeeps(a0, false);
    HandsOn(a, a0, a1);
    FlushKeepsActor(a1, now);
    FailKeeps(a1);
    HandsOn(a, a1, OnOutbound(a, now));
  }

  lemma EventKeeps(a: Actor, ev: Event)
    requires ActorInv(a) && Enabled(a, ev)
    ensures ActorInv(OnEvent(a, ev)) && Hands(a, OnEvent(a, ev))
  {
    hide ActorInv, Hands, EndFlush, OnTimer, OnClose, OnPacket, OnOutbound;
    match ev
    case Timer(now, silence) => TimerKeeps(a, now, silence);
    case FlushCommand(now) => FlushKeepsActor(a, now);
    case CloseCommand(now) => CloseKeeps(a, now);
    case Packet(data, now) => PacketKeeps(a, data, now);
    case InputClosed => FailKeeps(a);
    case Outbound(now) => OutboundKeeps(a, now);
    case WritersGone => SendClosedKeeps(a);
  }

  lemma SendClosedKeeps(a: Actor)
    requires ActorInv(a)
    ensures ActorInv(a.(sendClosed := true)) && Hands(a, a.(sendClosed := true))
  {
    hide Concat, NonEmpty;
  }

  lemma CheckKeeps(a: Actor, now: u32, late: bool)
    requires ActorInv(a)
    ensures ActorInv(CloseCheck(a, now, late)) && Hands(a, CloseCheck(a, now, late))
  {
    hide EndFlush, Concat, NonEmpty;
    FlushKeepsActor(a, now);
    HandsNothing(a);
  }

  /** A turn of the actor loses nothing on either side of the engine, and keeps its bounds. */
  lemma TurnKeeps(a: Actor, ev: Event, now: u32, late: bool)
    requires ActorInv(a)
    ensures ActorInv(Turn(a, ev, now, late)) && Hands(a, Turn(a, ev, now, late))
  {
    hide ActorInv, Hands, OnEvent, CloseCheck;
    if Enabled(a, ev) {
      EventKeeps(a, ev);
      CheckKeeps(OnEvent(a, ev), now, late);
      HandsOn(a, OnEvent(a, ev), Turn(a, ev, now, late));
    } else {
      HandsNothing(a);
    }
  }

  // ---- Nothing is left behind ----

  /** No complete message waits in the engine while the data channel could take it. */
  ghost predicate Drained(a: Actor) {
    a.readerGone || |a.dataTx| >= DATA_CAPACITY || Recv(Wrapping, a.end.eng).1.None?
  }

  lemma NothingMeansNothing(s: State)
    requires RecvInv(Wrapping, s) && Recv(Wrapping, s).1.None?
    ensures Recv(Wrapping, s).0 == s
  {
    if PeekSize(s.rcvQueue) > 0 { PeekTakes(Wrapping, s); }
    hide MoveToRecvQueue, RecvInv, PeekSize;
  }

  lemma {:induction false} DrainLeavesNothing(a: Actor)
    requires RecvInv(Wrapping, a.end.eng)
    ensures Drained(DrainRecv(a)) && RecvInv(Wrapping, DrainRecv(a).end.eng)
    decreases DATA_CAPACITY - |a.dataTx|
  {
    hide RecvInv, Recv;
    if !a.readerGone && |a.dataTx| < DATA_CAPACITY {
      var got := Recv(Wrapping, a.end.eng).1;
      RecvKeepsRecvInv(Wrapping, a.end.eng);
      if got.Some? {
        DrainLeavesNothing(a.(end := EndRecv(a.end), dataTx := a.dataTx + [got.value]));
      } else {
        NothingMeansNothing(a.end.eng);
      }
    }
  }

  lemma FlushKeepsReceiving(e: Endpoint, now: u32)
    requires RecvInv(Wrapping, e.eng)
    ensures RecvInv(Wrapping, HandOver(FlushOnly(e, now).0).eng)
    ensures RecvInv(Wrapping, HandOver(ProbeOnly(FlushOnly(e, now).0, now).0).eng)
  {
    hide Flush, RecvInv;
    var s := Flush(Wrapping, e.eng, now).0;
    RecvInvFrame(Wrapping, e.eng, Drain(s));
    RecvInvFrame(Wrapping, e.eng, Drain(KeepAliveProbe(Wrapping, s, now).0));
  }

  /** After a timer turn that goes on, no complete message is left in an engine that could hand it over. */
  lemma TimerDrains(a: Actor, now: u32, silence: Silence)
    requires RecvInv(Wrapping, a.end.eng) && a.exit.Running? && OnTimer(a, now, silence).exit.Running?
    ensures Drained(OnTimer(a, now, silence))
  {
    hide RecvInv, DrainRecv, Drained, FlushOnly, ProbeOnly, HandOver;
    FlushKeepsReceiving(a.end, now);
    var e1 := FlushOnly(a.end, now).0;
    if silence.Live? {
      DrainLeavesNothing(a.(end := HandOver(e1)));
    } else {
      DrainLeavesNothing(a.(end := HandOver(ProbeOnly(e1, now).0)));
    }
  }

  lemma {:induction false} ParsedArrives(b: Bytes)
    requires |b| <= 65536
    ensures forall i :: 0 <= i < |ParseDatagram(b)| ==> Arrives(Wrapping, ParseDatagram(b)[i])
    decreases |b|
  {
    hide ParseDatagram, HoldsSegment, EncodeWire;
    if HoldsSegment(b) {
      var w, rest := TakeFront(b);
      TakenArrives(b);
      ParsedArrives(rest);
      assert ParseDatagram(b)[0] == w;
    } else {
      ParseEnds(b);
    }
  }

  lemma TakenArrives(b: Bytes)
    requires |b| <= 65536 && ParseDatagram(b) != []
    ensures Arrives(Wrapping, ParseDatagram(b)[0])
  {
    hide GetU32, GetU16;
  }

  /** So after a packet's turn that goes on, for any packet a transport delivers. */
  lemma PacketDrains(a: Actor, data: Bytes, now: u32)
    requires RecvInv(Wrapping, a.end.eng) && |data| <= 65536 && OnPacket(a, data, now).exit.Running?
    requires a.exit.Running?
    ensures Drained(OnPacket(a, data, now))
  {
    hide RecvInv, DrainRecv, Drained, Flush, Input, ParseDatagram;
    ParsedArrives(data);
    var a1 := a.(end := EndInput(a.end, data, now));
    if |data| >= 24 { InputKeepsRecvInv(Wrapping, a.end.eng, ParseDatagram(data), now); }
    FlushKeepsReceiving(a1.end, now);
    assert HandOver(FlushOnly(a1.end, now).0) == EndFlush(a1.end, now);
    DrainLeavesNothing(a1.(end := EndFlush(a1.end, now)));
  }

  // ---- The stream's calls ----

  /** The channels lose nothing: what was pushed is taken or waiting, what was delivered is pulled
      or waiting, and every message fits the engine. */
  ghost predicate PeerInv(p: Peer) {
    && ActorInv(p.actor)
    && p.stream.mss == Mss(p.actor.end.eng.cfg) && p.stream.maxMsg == MaxMessage(p.actor.end.eng.cfg)
    && p.stream.pushed == p.actor.taken + p.actor.sendRx
    && p.actor.end.delivered == p.stream.pulled + p.actor.dataTx
    && (p.stream.pendingWrite.Some? ==> |p.stream.pendingWrite.value| <= p.stream.mss)
  }

  /** A writer that re-polls offers the same bytes again, and a reader takes no whole message while
      bytes of the last are left over. */
  ghost predicate Disciplined(p: Peer, mv: Move) {
    && (mv.WriteCall? && p.stream.pendingWrite.Some? ==> p.stream.pendingWrite.value <= mv.buf)
    && (mv.ReceiveCall? ==> p.stream.readBuf == [])
  }

  /** The application's own view: the counts it was told, and the bytes it was handed, are right. */
  ghost predicate ViewInv(st: Stream) {
    st.reported == Concat(st.pushed) && st.read + st.readBuf == Concat(st.pulled)
  }

  lemma MssIsOneMessage(cfg: Config)
    ensures Mss(cfg) <= MaxMessage(cfg)
  {
    TimesMonotone(1, MaxFragments(cfg), Mss(cfg));
  }

  /** `poll_write`'s count tells the truth exactly when the buffer begins with the parked chunk. */
  lemma ReportIsTrueIff(p: Peer, buf: Bytes)
    requires PeerInv(p) && ViewInv(p.stream) && PeerWrite(p, buf).1.Wrote?
    ensures var (q, r) := PeerWrite(p, buf);
            ViewInv(q.stream) <==>
            (p.stream.pendingWrite.Some? ==> p.stream.pendingWrite.value <= buf)
  {
    hide Concat, ActorInv;
    var q := PeerWrite(p, buf).0;
    var chunk := if p.stream.pendingWrite.Some? then p.stream.pendingWrite.value else buf[..Min(|buf|, p.stream.mss)];
    ConcatOne(p.stream.pushed, chunk);
    var said := buf[..Min(|chunk|, |buf|)];
    assert q.stream.reported == p.stream.reported + said;
    SamePrefix(p.stream.reported, said, chunk);
  }

  lemma SamePrefix(a: Bytes, b: Bytes, c: Bytes)
    ensures a + b == a + c <==> b == c
  {
    if a + b == a + c { assert b == (a + b)[|a|..] && c == (a + c)[|a|..]; }
  }

  lemma ConcatOne(msgs: seq<Bytes>, msg: Bytes)
    ensures Concat(msgs + [msg]) == Concat(msgs) + msg
  {
    ConcatAppend(msgs, [msg]);
    var one: seq<Bytes> := [msg];
    assert one[1..] == [] && msg + [] == msg;
  }

  lemma PushKeeps(p: Peer, msg: Bytes)
    requires PeerInv(p) && |msg| <= MaxMessage(p.actor.end.eng.cfg) && |p.actor.sendRx| < SEND_CAPACITY
    ensures ActorInv(p.actor.(sendRx := p.actor.sendRx + [msg]))
    ensures p.stream.pushed + [msg] == p.actor.taken + (p.actor.sendRx + [msg])
  {
    hide Concat, NonEmpty, MaxMessage, QueueBound;
  }

  lemma WriteKeeps(p: Peer, buf: Bytes)
    requires PeerInv(p)
    ensures PeerInv(PeerWrite(p, buf).0)
  {
    hide ActorInv, MaxMessage, Mss;
    MssIsOneMessage(p.actor.end.eng.cfg);
    if |p.actor.sendRx| < SEND_CAPACITY {
      PushKeeps(p, if p.stream.pendingWrite.Some? then p.stream.pendingWrite.value
        else buf[..Min(|buf|, p.stream.mss)]);
    }
  }

  lemma SendKeeps(p: Peer, msg: Bytes)
    requires PeerInv(p)
    ensures PeerInv(PeerSend(p, msg).0)
  {
    hide ActorInv, MaxMessage, Mss;
    if |p.actor.sendRx| < SEND_CAPACITY && |msg| <= p.stream.maxMsg { PushKeeps(p, msg); }
  }

  lemma PullKeeps(p: Peer)
    requires PeerInv(p) && p.actor.dataTx != []
    ensures ActorInv(p.actor.(dataTx := p.actor.dataTx[1..]))
    ensures p.actor.end.delivered == (p.stream.pulled + [p.actor.dataTx[0]]) + p.actor.dataTx[1..]
  {
    hide Concat, NonEmpty, MaxMessage, QueueBound;
  }

  lemma ReadKeeps(p: Peer, room: nat)
    requires PeerInv(p)
    ensures PeerInv(PeerRead(p, room).0)
  {
    hide ActorInv, MaxMessage, Mss;
    if p.actor.dataTx != [] { PullKeeps(p); }
  }

  lemma ReceiveKeeps(p: Peer)
    requires PeerInv(p)
    ensures PeerInv(PeerReceive(p).0)
  {
    hide ActorInv, MaxMessage, Mss;
    if p.actor.dataTx != [] { PullKeeps(p); }
  }

  lemma DropKeeps(p: Peer)
    requires PeerInv(p)
    ensures PeerInv(p.(actor := p.actor.(readerGone := true), stream := p.stream.(closed := true)))
  {
    hide Concat, NonEmpty, MaxMessage, Mss, QueueBound;
  }

  lemma MoveKeeps(p: Peer, mv: Move)
    requires PeerInv(p) && !mv.ActorTurn? && !mv.Arrival?
    ensures PeerInv(PeerMove(p, mv))
  {
    hide PeerWrite, PeerSend, PeerRead, PeerReceive, ActorInv, MaxMessage, Mss;
    match mv
    case WriteCall(_, buf) => WriteKeeps(p, buf);
    case SendCall(_, msg) => SendKeeps(p, msg);
    case ReadCall(_, room) => ReadKeeps(p, room);
    case ReceiveCall(_) => ReceiveKeeps(p);
    case CloseCall(_) =>
    case DropCall(_) => DropKeeps(p);
  }

  lemma TurnKeepsPeer(p: Peer, ev: Event, now: u32, late: bool)
    requires PeerInv(p)
    ensures PeerInv(p.(actor := Turn(p.actor, ev, now, late)))
  {
    hide ActorInv, Turn, MaxMessage, Mss;
    TurnKeeps(p.actor, ev, now, late);
    var d, d1 := p.actor.end.delivered, Turn(p.actor, ev, now, late).end.delivered;
    assert d1 == d + d1[|d|..];
  }

  ghost predicate WorldInv(w: World) {
    PeerInv(w.left) && PeerInv(w.right)
  }

  lemma StepKeeps(w: World, mv: Move)
    requires WorldInv(w)
    ensures WorldInv(ShellStep(w, mv))
  {
    hide PeerInv, Turn, PeerMove, EventActions, PacketActions, CheckActions;
    var p := PeerAt(w, mv.who);
    match mv
    case ActorTurn(who, ev, now, late) => TurnKeepsPeer(p, ev, now, late);
    case Arrival(who, index, now, late) =>
      var net := EndAt(Ends(w), Other(who)).net;
      if index < |net| { TurnKeepsPeer(p, Packet(net[index], now), now, late); }
    case _ => MoveKeeps(p, mv);
  }

  /** In every run of the shell, with any calls in any order and any packets: `engine.send` refuses
      nothing it is given, `drain_recv` drops nothing it takes out, and the queues stay bounded. */
  lemma {:induction false} EveryRunKeepsWorld(conv: u32, left: Config, right: Config, moves: seq<Move>)
    ensures WorldInv(ShellRun(NewWorld(conv, left, right), moves))
    decreases |moves|
  {
    hide WorldInv, ShellStep;
    if moves == [] {
      NewWorldInv(conv, left, right);
    } else {
      EveryRunKeepsWorld(conv, left, right, moves[..|moves| - 1]);
      StepKeeps(ShellRun(NewWorld(conv, left, right), moves[..|moves| - 1]), moves[|moves| - 1]);
    }
  }

  lemma NewWorldInv(conv: u32, left: Config, right: Config)
    ensures WorldInv(NewWorld(conv, left, right))
  {
  }

  /** Before a close the send queue never holds more than the high-water mark and one message. */
  lemma BackpressureBound(conv: u32, left: Config, right: Config, moves: seq<Move>, who: Side)
    ensures var a := PeerAt(ShellRun(NewWorld(conv, left, right), moves), who).actor;
            && |a.sendRx| <= 16 && |a.dataTx| <= 256
            && (!a.closing ==>
                  |a.end.eng.sndQueue| <= Max(4 * a.end.eng.cfg.sndWnd, 64) - 1 + Min(a.end.eng.cfg.rcvWnd, 128))
  {
    hide ShellRun, TakenIsQueued, MaxMessage, Mss;
    EveryRunKeepsWorld(conv, left, right, moves);
  }

  // ---- The application's view ----

  lemma ReadViewKeeps(p: Peer, room: nat)
    requires ViewInv(p.stream)
    ensures ViewInv(PeerRead(p, room).0.stream)
  {
    var st := p.stream;
    var pulled := if st.readBuf == [] && p.actor.dataTx != []
                  then st.(readBuf := p.actor.dataTx[0], pulled := st.pulled + [p.actor.dataTx[0]])
                  else st;
    if p.actor.dataTx != [] { ConcatOne(st.pulled, p.actor.dataTx[0]); }
    hide Concat;
    var n := Min(room, |pulled.readBuf|);
    assert pulled.read + pulled.readBuf[..n] + pulled.readBuf[n..] == pulled.read + pulled.readBuf;
  }

  lemma MoveKeepsView(p: Peer, mv: Move)
    requires PeerInv(p) && ViewInv(p.stream) && Disciplined(p, mv) && !mv.ActorTurn? && !mv.Arrival?
    ensures ViewInv(PeerMove(p, mv).stream)
  {
    hide Concat, ActorInv, Mss, MaxMessage;
    match mv
    case WriteCall(_, buf) =>
      if PeerWrite(p, buf).1.Wrote? { ReportIsTrueIff(p, buf); }
    case SendCall(_, msg) => ConcatOne(p.stream.pushed, msg);
    case ReadCall(_, room) => ReadViewKeeps(p, room);
    case ReceiveCall(_) =>
      if p.actor.dataTx != [] { ConcatOne(p.stream.pulled, p.actor.dataTx[0]); }
    case CloseCall(_) =>
    case DropCall(_) =>
  }

  ghost predicate DisciplinedRun(w: World, moves: seq<Move>)
    decreases |moves|
  {
    moves == [] ||
    (var init := moves[..|moves| - 1];
     DisciplinedRun(w, init) && Disciplined(PeerAt(ShellRun(w, init), moves[|moves| - 1].who), moves[|moves| - 1]))
  }

  lemma {:induction false} EveryRunKeepsView(conv: u32, left: Config, right: Config, moves: seq<Move>)
    requires DisciplinedRun(NewWorld(conv, left, right), moves)
    ensures var w := ShellRun(NewWorld(conv, left, right), moves);
            ViewInv(w.left.stream) && ViewInv(w.right.stream)
    decreases |moves|
  {
    hide ViewInv, PeerInv, Turn, Disciplined, PeerMove, EventActions, PacketActions, CheckActions;
    if moves == [] {
      NewView(left);
      NewView(right);
    } else {
      var init, mv := moves[..|moves| - 1], moves[|moves| - 1];
      EveryRunKeepsView(conv, left, right, init);
      EveryRunKeepsWorld(conv, left, right, init);
      var w := ShellRun(NewWorld(conv, left, right), init);
      if !mv.ActorTurn? && !mv.Arrival? { MoveKeepsView(PeerAt(w, mv.who), mv); }
    }
  }

  lemma NewView(cfg: Config)
    ensures ViewInv(NewStream(cfg))
  {
  }

  /** A read of no bytes into a non-empty buffer means what callers take it for: the end. */
  lemma ZeroReadIsEof(p: Peer, room: nat)
    requires PeerInv(p) && room > 0
    ensures PeerRead(p, room).1 == Got([]) <==>
            p.stream.readBuf == [] && (p.stream.closed || (p.actor.dataTx == [] && ActorGone(p)))
  {
    hide Concat, NonEmpty, MaxMessage, Mss, QueueBound;
  }
}
