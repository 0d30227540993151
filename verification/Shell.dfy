/** Two connections end to end: at each side an application, its stream, the actor and the engine,
    and between them a network that loses, duplicates, reorders and delays. */
module Shell {
  import opened Word
  import opened EngineSpec
  import opened Network
  import opened ByteNetwork
  import opened ActorSpec
  import opened StreamSpec

  datatype Peer = Peer(actor: Actor, stream: Stream)

  /** `trace` records the engine calls made so far, as actions of the two-engine system. */
  datatype World = World(left: Peer, right: Peer, trace: seq<Action>)

  /** A turn of an actor, or a call of the application. A packet is any datagram the other side
      ever handed to the network. */
  datatype Move =
    | ActorTurn(who: Side, ev: Event, now: u32, late: bool)
    | Arrival(who: Side, index: nat, now: u32, late: bool)
    | WriteCall(who: Side, buf: Bytes)
    | SendCall(who: Side, msg: Bytes)
    | ReadCall(who: Side, room: nat)
    | ReceiveCall(who: Side)
    | CloseCall(who: Side)
    | DropCall(who: Side)

  function PeerAt(w: World, side: Side): Peer {
    if side.Left? then w.left else w.right
  }

  function PutPeer(w: World, side: Side, p: Peer): World {
    if side.Left? then w.(left := p) else w.(right := p)
  }

  function Ends(w: World): ByteSystem {
    ByteSystem(w.left.actor.end, w.right.actor.end)
  }

  predicate ActorGone(p: Peer) {
    !p.actor.exit.Running?
  }

  function PeerWrite(p: Peer, buf: Bytes): (Peer, Write) {
    var (st, chan, r) := PollWrite(p.stream, p.actor.sendRx, ActorGone(p), buf);
    (Peer(p.actor.(sendRx := chan), st), r)
  }

  function PeerSend(p: Peer, msg: Bytes): (Peer, Submission) {
    var (st, chan, r) := SendMessage(p.stream, p.actor.sendRx, ActorGone(p), msg);
    (Peer(p.actor.(sendRx := chan), st), r)
  }

  function PeerRead(p: Peer, room: nat): (Peer, Read) {
    var (st, chan, r) := PollRead(p.stream, p.actor.dataTx, ActorGone(p), room);
    (Peer(p.actor.(dataTx := chan), st), r)
  }

  function PeerReceive(p: Peer): (Peer, Read) {
    var (st, chan, r) := ReceiveMessage(p.stream, p.actor.dataTx, ActorGone(p));
    (Peer(p.actor.(dataTx := chan), st), r)
  }

  function PeerMove(p: Peer, mv: Move): Peer
    requires !mv.ActorTurn? && !mv.Arrival?
  {
    match mv
    case WriteCall(_, buf) => PeerWrite(p, buf).0
    case SendCall(_, msg) => PeerSend(p, msg).0
    case ReadCall(_, room) => PeerRead(p, room).0
    case ReceiveCall(_) => PeerReceive(p).0
    case CloseCall(_) => p.(stream := p.stream.(closed := true))
    case DropCall(_) => p.(actor := p.actor.(readerGone := true), stream := p.stream.(closed := true))
  }

  // ---- The engine calls of a turn ----

  function DrainActions(who: Side, a: Actor): seq<Action>
    decreases DATA_CAPACITY - |a.dataTx|
  {
    if a.readerGone || |a.dataTx| >= DATA_CAPACITY then []
    else
      var got := Recv(Wrapping, a.end.eng).1;
      [Action.Read(who)] +
      (if got.Some? then DrainActions(who, a.(end := EndRecv(a.end), dataTx := a.dataTx + [got.value])) else [])
  }

  function AbsorbActions(who: Side, a: Actor, all: bool): seq<Action>
    decreases |a.sendRx|
  {
    if a.sendRx != [] && (all || |a.end.eng.sndQueue| < SendHighWater(a.end.eng.cfg)) then
      [Submit(who, a.sendRx[0])] + AbsorbActions(who, TakeOne(a), all)
    else []
  }

  function EventActions(who: Side, a: Actor, ev: Event): seq<Action>
    requires Enabled(a, ev) && !ev.Packet?
  {
    match ev
    case Timer(now, silence) =>
      var (e1, ok1) := FlushOnly(a.end, now);
      if !ok1 || silence.Dead? then []
      else if silence.Live? then [Transmit(who, now)] + DrainActions(who, a.(end := HandOver(e1)))
      else
        var (e2, ok2) := ProbeOnly(e1, now);
        if !ok2 then [] else [Transmit(who, now), KeepAlive(who, now)] + DrainActions(who, a.(end := HandOver(e2)))
    case FlushCommand(now) => [Transmit(who, now)]
    case CloseCommand(now) => AbsorbActions(who, a, true) + [Transmit(who, now)]
    case InputClosed => []
    case Outbound(now) =>
      var a1 := Absorb(TakeOne(a), false);
      [Submit(who, a.sendRx[0])] + AbsorbActions(who, TakeOne(a), false)
      + (if FlushOnly(a1.end, now).1 then [Transmit(who, now)] else [])
    case WritersGone => []
  }

  /** A packet's arrival, by its position among the datagrams of the other side. */
  function PacketActions(who: Side, a: Actor, data: Bytes, index: nat, now: u32): seq<Action> {
    var a1 := a.(end := EndInput(a.end, data, now));
    [Action.Deliver(who, index, now)]
    + (if FlushOnly(a1.end, now).1
       then [Transmit(who, now)] + DrainActions(who, a1.(end := EndFlush(a1.end, now)))
       else [])
  }

  function CheckActions(who: Side, a: Actor, now: u32, late: bool): seq<Action> {
    if a.exit.Running? && a.closing && (!HasUnsentData(a.end.eng) || late) then [Transmit(who, now)] else []
  }

  function ShellStep(w: World, mv: Move): World {
    var p := PeerAt(w, mv.who);
    var a := p.actor;
    match mv
    case ActorTurn(who, ev, now, late) =>
      if !Enabled(a, ev) || ev.Packet? then w
      else
        PutPeer(w, who, p.(actor := Turn(a, ev, now, late)))
        .(trace := w.trace + EventActions(who, a, ev) + CheckActions(who, OnEvent(a, ev), now, late))
    case Arrival(who, index, now, late) =>
      var net := EndAt(Ends(w), Other(who)).net;
      if index >= |net| || !a.exit.Running? then w
      else
        var ev := Packet(net[index], now);
        PutPeer(w, who, p.(actor := Turn(a, ev, now, late)))
        .(trace := w.trace + PacketActions(who, a, net[index], index, now)
                   + CheckActions(who, OnEvent(a, ev), now, late))
    case _ => PutPeer(w, mv.who, PeerMove(p, mv))
  }

  function NewActor(conv: u32, cfg: Config): Actor {
    Actor(Endpoint(Init(conv, cfg), [], [], [], []), [], [], false, false, false, Running, [])
  }

  function NewWorld(conv: u32, left: Config, right: Config): World {
    World(Peer(NewActor(conv, left), NewStream(left)), Peer(NewActor(conv, right), NewStream(right)), [])
  }

  function ShellRun(w: World, moves: seq<Move>): World
    decreases |moves|
  {
    if moves == [] then w
    else ShellStep(ShellRun(w, moves[..|moves| - 1]), moves[|moves| - 1])
  }
}
