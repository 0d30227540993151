/** Runs of one engine: any sequence of its operations, on any data, packets and clock readings. */
module EngineRun {
  import opened Word
  import opened Protocol
  import opened EngineSpec

  datatype Op =
    | DoSend(data: Bytes)
    | DoRecv
    | DoInput(ws: seq<Wire>, now: u32)
    | DoFlush(now: u32)
    | DoProbe(now: u32)
    | DoDrain

  function Step(m: Arith, s: State, op: Op): State {
    match op
    case DoSend(data) => Send(s, data).0
    case DoRecv => Recv(m, s).0
    case DoInput(ws, now) => Input(m, s, ws, now)
    case DoFlush(now) => Flush(m, s, now).0
    case DoProbe(now) => KeepAliveProbe(m, s, now).0
    case DoDrain => Drain(s)
  }

  function Run(m: Arith, s: State, ops: seq<Op>): State
    decreases |ops|
  {
    if ops == [] then s else Step(m, Run(m, s, ops[..|ops| - 1]), ops[|ops| - 1])
  }
}
