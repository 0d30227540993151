/** Two engines and a network that may lose, duplicate, reorder and delay datagrams, with segments
    numbered by unbounded integers. Refinement.dfy carries the results over to 32-bit numbers. */
module Network {
  import opened Word
  import opened Protocol
  import opened EngineSpec

  /** An engine with its history. `hist[sn]` is the fragment that got number `sn`; `net` is every
      datagram ever handed to the network; `accepted` the messages `send` took, `queued` their
      bytes (with the prefixes merged from rejected ones); `delivered` what `recv` returned. */
  datatype Node = Node(
    eng: State, hist: seq<Frag>, net: seq<seq<Wire>>,
    accepted: seq<Bytes>, queued: Bytes, delivered: seq<Bytes>)

  datatype Side = Left | Right

  datatype System = System(left: Node, right: Node)

  /** A datagram is delivered by its position in the peer's `net`: any datagram, at any time, any
      number of times or never. */
  datatype Action =
    | Submit(who: Side, msg: Bytes)
    | Read(who: Side)
    | Transmit(who: Side, now: u32)
    | KeepAlive(who: Side, now: u32)
    | Deliver(who: Side, index: nat, now: u32)

  function InitNode(conv: u32, cfg: Config): Node {
    Node(Init(conv, cfg), [], [], [], [], [])
  }

  function NodeSend(n: Node, msg: Bytes): Node {
    var (e, ok) := Send(n.eng, msg);
    n.(eng := e,
       accepted := if ok && msg != [] then n.accepted + [msg] else n.accepted,
       queued := n.queued + (if ok then msg else msg[..MergeLength(n.eng, msg)]))
  }

  function NodeRecv(n: Node): Node {
    var (e, got) := Recv(Exact, n.eng);
    n.(eng := e, delivered := if got.Some? then n.delivered + [got.value] else n.delivered)
  }

  /** A flush and the hand-over of the finished datagrams. */
  function NodeFlush(n: Node, now: u32): Node {
    var e := Flush(Exact, n.eng, now).0;
    var moved := Clamp(e.sndNxt - n.eng.sndNxt, 0, |n.eng.sndQueue|);
    n.(eng := Drain(e), hist := n.hist + n.eng.sndQueue[..moved], net := n.net + e.out.queue)
  }

  function NodeKeepAlive(n: Node, now: u32): Node {
    NodeFlush(n.(eng := n.eng.(probe := n.eng.probe.(askSend := true))), now)
  }

  function NodeInput(n: Node, datagram: seq<Wire>, now: u32): Node {
    n.(eng := Input(Exact, n.eng, datagram, now))
  }

  function At(sys: System, side: Side): Node {
    if side.Left? then sys.left else sys.right
  }

  function Other(side: Side): Side {
    if side.Left? then Right else Left
  }

  function With(sys: System, side: Side, n: Node): System {
    if side.Left? then sys.(left := n) else sys.(right := n)
  }

  function Apply(sys: System, a: Action): System {
    var n := At(sys, a.who);
    match a
    case Submit(who, msg) => With(sys, who, NodeSend(n, msg))
    case Read(who) => With(sys, who, NodeRecv(n))
    case Transmit(who, now) => With(sys, who, NodeFlush(n, now))
    case KeepAlive(who, now) => With(sys, who, NodeKeepAlive(n, now))
    case Deliver(who, index, now) =>
      var net := At(sys, Other(who)).net;
      if index < |net| then With(sys, who, NodeInput(n, net[index], now)) else sys
  }

  function InitSystem(conv: u32, left: Config, right: Config): System {
    System(InitNode(conv, left), InitNode(conv, right))
  }

  /** An application reading on, as actions. */
  function Reads(who: Side, times: nat): seq<Action> {
    seq(times, i => Action.Read(who))
  }

  function RunSystem(sys: System, actions: seq<Action>): System
    decreases |actions|
  {
    if actions == [] then sys
    else Apply(RunSystem(sys, actions[..|actions| - 1]), actions[|actions| - 1])
  }
}
