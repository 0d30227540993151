/** The task that owns an engine: one turn of its event loop as a function. `select!` is a choice
    among the enabled events; times are parameters. */
module ActorSpec {
  import opened Word
  import opened EngineSpec
  import opened Packing
  import opened ByteNetwork

  const DATA_CAPACITY := 256
  const SEND_CAPACITY := 16

  /** Why the loop ended: everything was acknowledged, the linger deadline passed, or the
      connection failed (lost, silent for too long, or cut off from the network). */
  datatype Exit = Running | Acknowledged | Expired | Failed

  /** `sendRx` holds what the stream wrote and the actor has not taken, `dataTx` the messages the
      stream has not pulled; `taken` is every message ever taken from `sendRx`. When the loop ends
      on a fatal error the engine goes down with the actor: `end` stays as it last was. */
  datatype Actor = Actor(
    end: Endpoint, sendRx: seq<Bytes>, dataTx: seq<Bytes>, readerGone: bool,
    sendClosed: bool, closing: bool, exit: Exit, taken: seq<Bytes>)

  /** What the timer branch finds when keep-alive is on: a live peer, one due for a probe, or one
      silent for three windows. */
  datatype Silence = Live | Due | Dead

  datatype Event =
    | Timer(now: u32, silence: Silence)
    | FlushCommand(now: u32)
    | CloseCommand(now: u32)
    | Packet(data: Bytes, now: u32)
    | InputClosed
    | Outbound(now: u32)
    | WritersGone

  function SendHighWater(cfg: Config): nat {
    Max(4 * cfg.sndWnd, 64)
  }

  /** The guard of the branch that takes application data. */
  predicate TakesData(a: Actor) {
    !a.sendClosed && |a.end.eng.sndQueue| < SendHighWater(a.end.eng.cfg)
  }

  predicate Enabled(a: Actor, ev: Event) {
    && a.exit.Running?
    && match ev
       case FlushCommand(_) => !a.closing
       case CloseCommand(_) => !a.closing
       case Outbound(_) => TakesData(a) && a.sendRx != []
       case WritersGone => TakesData(a) && a.sendRx == []
       case _ => true
  }

  // ---- Pieces of a turn ----

  /** A flush whose datagrams are not handed to the transport yet. */
  function FlushOnly(e: Endpoint, now: u32): (Endpoint, bool) {
    var (s, ok) := Flush(Wrapping, e.eng, now);
    (e.(eng := s), ok)
  }

  function ProbeOnly(e: Endpoint, now: u32): (Endpoint, bool) {
    var (s, ok) := KeepAliveProbe(Wrapping, e.eng, now);
    (e.(eng := s), ok)
  }

  function HandOver(e: Endpoint): Endpoint {
    e.(eng := Drain(e.eng), net := e.net + EncodeAll(e.eng.out.queue))
  }

  /** Moves complete messages from the engine to the stream while a slot can be reserved. */
  function DrainRecv(a: Actor): (r: Actor)
    ensures r == a.(end := r.end, dataTx := r.dataTx)
    decreases DATA_CAPACITY - |a.dataTx|
  {
    if a.readerGone || |a.dataTx| >= DATA_CAPACITY then a
    else
      var got := Recv(Wrapping, a.end.eng).1;
      var a1 := a.(end := EndRecv(a.end));
      if got.Some? then DrainRecv(a1.(dataTx := a1.dataTx + [got.value])) else a1
  }

  function TakeOne(a: Actor): Actor
    requires a.sendRx != []
  {
    a.(end := EndSend(a.end, a.sendRx[0]), sendRx := a.sendRx[1..], taken := a.taken + [a.sendRx[0]])
  }

  /** Takes what the stream has written, up to the high-water mark, or all of it on a close. */
  function Absorb(a: Actor, all: bool): (r: Actor)
    ensures r == a.(end := r.end, sendRx := r.sendRx, taken := r.taken)
    decreases |a.sendRx|
  {
    if a.sendRx != [] && (all || |a.end.eng.sndQueue| < SendHighWater(a.end.eng.cfg)) then Absorb(TakeOne(a), all)
    else a
  }

  function Fail(a: Actor): Actor {
    a.(exit := Failed)
  }

  // ---- The branches ----

  function OnTimer(a: Actor, now: u32, silence: Silence): Actor {
    var (e1, ok1) := FlushOnly(a.end, now);
    if !ok1 || silence.Dead? then Fail(a)
    else if silence.Live? then DrainRecv(a.(end := HandOver(e1)))
    else
      var (e2, ok2) := ProbeOnly(e1, now);
      if !ok2 then Fail(a) else DrainRecv(a.(end := HandOver(e2)))
  }

  function OnFlush(a: Actor, now: u32): Actor {
    a.(end := EndFlush(a.end, now))
  }

  function OnClose(a: Actor, now: u32): Actor {
    var a1 := Absorb(a, true);
    a1.(sendClosed := true, closing := true, end := EndFlush(a1.end, now))
  }

  function OnPacket(a: Actor, data: Bytes, now: u32): Actor {
    var a1 := a.(end := EndInput(a.end, data, now));
    if FlushOnly(a1.end, now).1 then DrainRecv(a1.(end := EndFlush(a1.end, now))) else Fail(a1)
  }

  function OnOutbound(a: Actor, now: u32): Actor
    requires a.sendRx != []
  {
    var a1 := Absorb(TakeOne(a), false);
    if FlushOnly(a1.end, now).1 then a1.(end := EndFlush(a1.end, now)) else Fail(a1)
  }

  function OnEvent(a: Actor, ev: Event): Actor
    requires Enabled(a, ev)
  {
    match ev
    case Timer(now, silence) => OnTimer(a, now, silence)
    case FlushCommand(now) => OnFlush(a, now)
    case CloseCommand(now) => OnClose(a, now)
    case Packet(data, now) => OnPacket(a, data, now)
    case InputClosed => Fail(a)
    case Outbound(now) => OnOutbound(a, now)
    case WritersGone => a.(sendClosed := true)
  }

  /** After the event: a closing actor leaves when nothing is unsent or the deadline has passed. */
  function CloseCheck(a: Actor, now: u32, late: bool): Actor {
    if a.exit.Running? && a.closing && (!HasUnsentData(a.end.eng) || late) then
      a.(end := EndFlush(a.end, now), exit := if HasUnsentData(a.end.eng) then Expired else Acknowledged)
    else a
  }

  /** One turn of the loop. `late` says whether the linger deadline has passed by its end. */
  function Turn(a: Actor, ev: Event, now: u32, late: bool): Actor {
    if Enabled(a, ev) then CloseCheck(OnEvent(a, ev), now, late) else a
  }
}
