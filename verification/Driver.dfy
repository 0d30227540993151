/** The stream and the actor as the program has them: objects that share two bounded channels, the
    actor driving an engine. Every method is proved to do what ActorSpec and StreamSpec say. */
module Driver {
  import opened Word
  import opened Protocol
  import opened EngineSpec
  import opened Packing
  import opened SendSide
  import opened ByteNetwork
  import opened ActorSpec
  import opened StreamSpec
  import opened KcpEngine

  datatype SendOutcome = Accepted | Full | Disconnected

  /** A bounded channel with one receiver. */
  class Channel {
    const capacity: nat
    var queue: seq<Bytes>
    var receiverGone: bool
    var senderGone: bool

    constructor (capacity: nat)
      ensures this.capacity == capacity && queue == [] && !receiverGone && !senderGone
    {
      this.capacity := capacity;
      queue, receiverGone, senderGone := [], false, false;
    }

    method TrySend(msg: Bytes) returns (r: SendOutcome)
      modifies this`queue
      ensures r == if receiverGone then Disconnected else if |old(queue)| < capacity then Accepted else Full
      ensures queue == if r.Accepted? then old(queue) + [msg] else old(queue)
    {
      if receiverGone { return Disconnected; }
      if |queue| >= capacity { return Full; }
      queue := queue + [msg];
      return Accepted;
    }

    method TryRecv() returns (msg: Option<Bytes>)
      modifies this`queue
      ensures old(queue) == [] ==> msg == None && queue == []
      ensures old(queue) != [] ==> msg == Some(old(queue)[0]) && queue == old(queue)[1..]
    {
      if queue == [] { return None; }
      msg := Some(queue[0]);
      queue := queue[1..];
    }
  }

  class EngineActor {
    const engine: Engine
    const sendRx: Channel
    const dataTx: Channel

    var sent: seq<Bytes>
    var sendClosed: bool
    var closing: bool
    var exit: Exit

    // The engine with its logs, and the messages taken from sendRx.
    ghost var end: Endpoint
    ghost var taken: seq<Bytes>

    ghost function Abs(): Actor
      reads this, sendRx, dataTx
    {
      Actor(end, sendRx.queue, dataTx.queue, dataTx.receiverGone, sendClosed, closing, exit, taken)
    }

    /** While the loop runs, `end` is the engine and `sent` what it put on the network. */
    ghost predicate Valid()
      reads this, engine, sendRx, dataTx
    {
      && engine.Valid() && sendRx != dataTx && dataTx.capacity == DATA_CAPACITY
      && sent == end.net
      && (exit.Running? ==> end.eng == engine.Abs())
      && sendRx.receiverGone == dataTx.senderGone == !exit.Running?
    }

    constructor (engine: Engine, sendRx: Channel, dataTx: Channel)
      requires engine.Valid() && sendRx != dataTx && dataTx.capacity == DATA_CAPACITY
      requires !sendRx.receiverGone && !dataTx.senderGone
      ensures Valid() && this.engine == engine && this.sendRx == sendRx && this.dataTx == dataTx
      ensures Abs() == Actor(Endpoint(engine.Abs(), [], [], [], []), sendRx.queue, dataTx.queue,
                             dataTx.receiverGone, false, false, Running, [])
    {
      this.engine, this.sendRx, this.dataTx := engine, sendRx, dataTx;
      sent, sendClosed, closing, exit, taken := [], false, false, Running, [];
      end := Endpoint(engine.Abs(), [], [], [], []);
    }

    // ---- Pieces of a turn ----

    /** The task ends and drops its halves of the channels. */
    method Leave(reason: Exit)
      requires Valid() && exit.Running? && !reason.Running?
      modifies this`exit, sendRx`receiverGone, dataTx`senderGone
      ensures Valid() && Abs() == old(Abs()).(exit := reason)
    {
      exit := reason;
      sendRx.receiverGone, dataTx.senderGone := true, true;
    }

    method FlushOutput()
      requires Valid() && exit.Running?
      modifies this`sent, this`end, engine
      ensures Valid() && Abs() == old(Abs()).(end := HandOver(old(end)))
    {
      hide EncodeAll, EncodeDatagram;
      var out := engine.DrainOutput();
      for i := 0 to |out|
        invariant sent == old(sent) + out[..i]
        invariant engine.Valid() && engine.Abs() == Drain(old(end.eng)) && end == old(end)
      {
        sent := sent + [out[i]];
      }
      end := HandOver(end);
    }

    method DrainRecv()
      requires Valid() && exit.Running?
      modifies this`end, engine, dataTx`queue
      ensures Valid() && Abs() == ActorSpec.DrainRecv(old(Abs()))
    {
      hide EncodeDatagram, EngineSpec.Recv;
      ghost var final := ActorSpec.DrainRecv(Abs());
      while true
        invariant Valid() && exit.Running? && ActorSpec.DrainRecv(Abs()) == final
        decreases DATA_CAPACITY - |dataTx.queue|
      {
        if dataTx.receiverGone || |dataTx.queue| >= dataTx.capacity { break; }
        var msg := engine.Recv();
        end := EndRecv(end);
        if msg.None? { break; }
        dataTx.queue := dataTx.queue + [msg.value];
      }
    }

    /** `engine.send` on a message just taken from the channel. */
    method Take(msg: Bytes)
      requires Valid() && exit.Running?
      modifies this`end, this`taken, engine`sndQueue
      ensures Valid() && Abs() == old(Abs()).(end := EndSend(old(end), msg), taken := old(taken) + [msg])
    {
      hide EngineSpec.Send;
      var _ := engine.Send(msg);
      end := EndSend(end, msg);
      taken := taken + [msg];
    }

    method FlushEngine(now: u32) returns (ok: bool)
      requires Valid() && exit.Running?
      modifies this`end, engine
      ensures Valid() && Abs() == old(Abs()).(end := end) && (end, ok) == FlushOnly(old(end), now)
    {
      hide EngineSpec.Flush;
      ok := engine.Flush(now);
      end := FlushOnly(end, now).0;
    }

    method ProbeEngine(now: u32) returns (ok: bool)
      requires Valid() && exit.Running?
      modifies this`end, engine
      ensures Valid() && Abs() == old(Abs()).(end := end) && (end, ok) == ProbeOnly(old(end), now)
    {
      hide EngineSpec.KeepAliveProbe;
      ok := engine.KeepAliveProbe(now);
      end := ProbeOnly(end, now).0;
    }

    /** Flushes and hands over, or leaves if the connection is lost. */
    method FlushOrLeave(now: u32) returns (ok: bool)
      requires Valid() && exit.Running?
      modifies this, engine, dataTx`senderGone, sendRx`receiverGone
      ensures Valid() && ok == FlushOnly(old(end), now).1
      ensures Abs() == if ok then old(Abs()).(end := EndFlush(old(end), now)) else Fail(old(Abs()))
    {
      hide EngineSpec.Flush, EncodeAll, EncodeDatagram;
      ok := FlushEngine(now);
      if !ok {
        Leave(Failed);
        end := old(end);
        return;
      }
      FlushOutput();
    }

    /** Absorbs what else the channel holds, up to the high-water mark. */
    method AbsorbMore()
      requires Valid() && exit.Running?
      modifies this`end, this`taken, engine`sndQueue, sendRx`queue
      ensures Valid() && Abs() == Absorb(old(Abs()), false)
    {
      hide EndSend, EncodeAll, EncodeDatagram;
      ghost var final := Absorb(Abs(), false);
      while engine.SendQueueLen() < SendHighWater(engine.cfg)
        invariant Valid() && exit.Running? && Absorb(Abs(), false) == final
        decreases |sendRx.queue|
      {
        var msg := sendRx.TryRecv();
        if msg.None? { break; }
        Take(msg.value);
      }
    }

    /** Absorbs all the channel holds. */
    method AbsorbAll()
      requires Valid() && exit.Running?
      modifies this`end, this`taken, engine`sndQueue, sendRx`queue
      ensures Valid() && Abs() == Absorb(old(Abs()), true)
    {
      hide EndSend, EncodeAll, EncodeDatagram;
      ghost var final := Absorb(Abs(), true);
      while true
        invariant Valid() && exit.Running? && Absorb(Abs(), true) == final
        decreases |sendRx.queue|
      {
        var msg := sendRx.TryRecv();
        if msg.None? { break; }
        Take(msg.value);
      }
    }

    // ---- The branches ----

    method OnTimer(now: u32, silence: Silence)
      requires Valid() && exit.Running?
      modifies this, engine, dataTx, sendRx
      ensures Valid() && Abs() == ActorSpec.OnTimer(old(Abs()), now, silence)
    {
      hide FlushOnly, ProbeOnly, HandOver, ActorSpec.DrainRecv, EncodeAll, EncodeDatagram, SendInv;
      var ok := FlushEngine(now);
      if !ok || silence == Dead {
        Leave(Failed);
        end := old(end);
        return;
      }
      if silence == Due {
        ok := ProbeEngine(now);
        if !ok {
          Leave(Failed);
          end := old(end);
          return;
        }
      }
      FlushOutput();
      DrainRecv();
    }

    method OnFlush(now: u32) returns (ok: bool)
      requires Valid() && exit.Running?
      modifies this, engine
      ensures Valid() && Abs() == ActorSpec.OnFlush(old(Abs()), now) && ok == FlushOnly(old(end), now).1
    {
      hide EngineSpec.Flush, EncodeAll;
      ok := FlushEngine(now);
      FlushOutput();
    }

    method OnClose(now: u32)
      requires Valid() && exit.Running?
      modifies this, engine, sendRx
      ensures Valid() && Abs() == ActorSpec.OnClose(old(Abs()), now)
    {
      hide Absorb, EngineSpec.Flush, EncodeAll, EncodeDatagram;
      AbsorbAll();
      sendClosed, closing := true, true;
      var _ := FlushEngine(now);
      FlushOutput();
    }

    method OnPacket(data: Bytes, now: u32)
      requires Valid() && exit.Running?
      modifies this, engine, dataTx, sendRx
      ensures Valid() && Abs() == ActorSpec.OnPacket(old(Abs()), data, now)
    {
      hide InputDatagram, EndFlush, FlushOnly, ActorSpec.DrainRecv, EncodeAll, EncodeDatagram;
      var _ := engine.Input(data, now);
      end := EndInput(end, data, now);
      var ok := FlushOrLeave(now);
      if ok { DrainRecv(); }
    }

    method OnOutbound(now: u32)
      requires Valid() && exit.Running? && sendRx.queue != []
      modifies this, engine, sendRx, dataTx
      ensures Valid() && Abs() == ActorSpec.OnOutbound(old(Abs()), now)
    {
      hide Absorb, EndSend, EndFlush, FlushOnly, EncodeAll, EncodeDatagram;
      var first := sendRx.TryRecv();
      Take(first.value);
      AbsorbMore();
      var _ := FlushOrLeave(now);
    }

    method CloseCheck(now: u32, late: bool)
      requires Valid()
      modifies this, engine, sendRx, dataTx
      ensures Valid() && Abs() == ActorSpec.CloseCheck(old(Abs()), now, late)
    {
      hide EngineSpec.Flush, EncodeAll, EncodeDatagram;
      if exit == Running && closing && (!engine.HasUnsentData() || late) {
        var reason := if engine.HasUnsentData() then Expired else Acknowledged;
        var _ := FlushEngine(now);
        FlushOutput();
        Leave(reason);
      }
    }

    /** One turn of the event loop. */
    method Turn(ev: Event, now: u32, late: bool)
      requires Valid() && Enabled(Abs(), ev)
      modifies this, engine, sendRx, dataTx
      ensures Valid() && Abs() == ActorSpec.Turn(old(Abs()), ev, now, late)
    {
      hide ActorSpec.OnTimer, ActorSpec.OnFlush, ActorSpec.OnClose, ActorSpec.OnPacket, ActorSpec.OnOutbound,
           ActorSpec.CloseCheck;
      match ev {
        case Timer(t, silence) => OnTimer(t, silence);
        case FlushCommand(t) => var _ := OnFlush(t);
        case CloseCommand(t) => OnClose(t);
        case Packet(data, t) => OnPacket(data, t);
        case InputClosed => Leave(Failed);
        case Outbound(t) => OnOutbound(t);
        case WritersGone => sendClosed := true;
      }
      CloseCheck(now, late);
    }
  }

  class KcpStream {
    const mss: nat
    const maxMsg: nat
    const sendTx: Channel
    const dataRx: Channel

    var readBuf: Bytes
    var pendingWrite: Option<Bytes>
    var closed: bool

    // What went over the channels, and what the application was told and handed.
    ghost var pushed: seq<Bytes>
    ghost var reported: Bytes
    ghost var pulled: seq<Bytes>
    ghost var read: Bytes

    ghost function Abs(): Stream
      reads this
    {
      Stream(mss, maxMsg, readBuf, pendingWrite, closed, pushed, reported, pulled, read)
    }

    constructor (cfg: Config, sendTx: Channel, dataRx: Channel)
      requires sendTx != dataRx && sendTx.capacity == SEND_CAPACITY
      ensures Abs() == NewStream(cfg) && this.sendTx == sendTx && this.dataRx == dataRx
    {
      mss, maxMsg := Mss(cfg), Mss(cfg) * Min(cfg.rcvWnd, WND_RCV);
      this.sendTx, this.dataRx := sendTx, dataRx;
      readBuf, pendingWrite, closed := [], None, false;
      pushed, reported, pulled, read := [], [], [], [];
    }

    method PollWrite(buf: Bytes) returns (r: Write)
      requires sendTx.capacity == SEND_CAPACITY
      modifies this, sendTx`queue
      ensures (Abs(), sendTx.queue, r) == StreamSpec.PollWrite(old(Abs()), old(sendTx.queue), sendTx.receiverGone, buf)
    {
      if closed { return BrokenPipe; }
      if pendingWrite.None? {
        var len := Min(|buf|, mss);
        var outcome := sendTx.TrySend(buf[..len]);
        match outcome {
          case Accepted =>
            pushed, reported := pushed + [buf[..len]], reported + buf[..len];
            return Wrote(len);
          case Disconnected =>
            return BrokenPipe;
          case Full =>
            pendingWrite := Some(buf[..len]);
        }
      }
      var chunk := pendingWrite.value;
      var outcome := sendTx.TrySend(chunk);
      if outcome == Full { return WritePending; }
      pendingWrite := None;
      if outcome == Disconnected { return BrokenPipe; }
      pushed, reported := pushed + [chunk], reported + buf[..Min(|chunk|, |buf|)];
      return Wrote(|chunk|);
    }

    method Send(msg: Bytes) returns (r: Submission)
      requires sendTx.capacity == SEND_CAPACITY
      modifies this, sendTx`queue
      ensures (Abs(), sendTx.queue, r)
              == StreamSpec.SendMessage(old(Abs()), old(sendTx.queue), sendTx.receiverGone, msg)
    {
      if closed { return Closed; }
      if |msg| > maxMsg { return TooLong; }
      var outcome := sendTx.TrySend(msg);
      if outcome == Disconnected { return Closed; }
      if outcome == Full { return Waits; }
      pushed, reported := pushed + [msg], reported + msg;
      return Submitted;
    }

    /** Copies left-over bytes into the caller's buffer. */
    method CopyOut(room: nat) returns (data: Bytes)
      modifies this`readBuf, this`read
      ensures (Abs(), Got(data)) == StreamSpec.CopyOut(old(Abs()), room)
    {
      var n := Min(room, |readBuf|);
      data := readBuf[..n];
      readBuf, read := readBuf[n..], read + readBuf[..n];
    }

    method PollRead(room: nat) returns (r: Read)
      modifies this, dataRx`queue
      ensures (Abs(), dataRx.queue, r) == StreamSpec.PollRead(old(Abs()), old(dataRx.queue), dataRx.senderGone, room)
    {
      if readBuf != [] {
        var data := CopyOut(room);
        return Got(data);
      }
      if closed { return Got([]); }
      var msg := dataRx.TryRecv();
      if msg.None? { return if dataRx.senderGone then Got([]) else ReadPending; }
      assert readBuf + msg.value == msg.value;
      readBuf, pulled := readBuf + msg.value, pulled + [msg.value];
      var data := CopyOut(room);
      return Got(data);
    }

    method Recv() returns (r: Read)
      modifies this, dataRx`queue
      ensures (Abs(), dataRx.queue, r) == StreamSpec.ReceiveMessage(old(Abs()), old(dataRx.queue), dataRx.senderGone)
    {
      if closed { return Got([]); }
      var msg := dataRx.TryRecv();
      if msg.None? { return if dataRx.senderGone then Got([]) else ReadPending; }
      pulled, read := pulled + [msg.value], read + msg.value;
      return Got(msg.value);
    }
  }
}
