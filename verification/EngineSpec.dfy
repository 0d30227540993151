/** The protocol engine as functions on a value: what each engine operation does to the state.

    `m` chooses the arithmetic of sequence numbers; the program is `Wrapping`. All other
    arithmetic is 32-bit in both. Output is kept as lists of segments; the class in
    KcpEngine.dfy holds the bytes they encode to. */
module EngineSpec {
  import opened Word
  import opened Protocol

  // ---- State ----

  type Mtu = x: int | 64 <= x <= 65535 witness 1400
  type WindowSize = x: int | 1 <= x <= 65535 witness 32
  type Positive = x: int | 1 <= x < 0x1_0000_0000 witness 1

  /** A configuration that passed validation. `deadLink` is `max_retries`. */
  datatype Config = Config(
    mtu: Mtu, sndWnd: WindowSize, rcvWnd: WindowSize,
    nodelay: bool, interval: Positive, resend: u32, noCongestionControl: bool,
    deadLink: Positive, streamMode: bool)

  /** What a data segment carries for the reader: its remaining-fragments number and its data. */
  datatype Frag = Frag(frg: byte, data: Bytes)

  /** A segment in the send buffer. Its `wnd` and `una` header fields are rewritten on every
      transmission and read nowhere else, so they appear in the transmitted `Wire` only. */
  datatype Segment = Segment(sn: int, frag: Frag, ts: u32, resendts: u32, rto: u32, fastack: u32, xmit: u32)

  datatype Ack = Ack(sn: int, ts: u32)

  datatype Rtt = Rtt(avg: u32, variance: u32, rto: u32, minRto: u32)

  datatype Window = Window(rmt: u16, cwnd: u32, ssthresh: u32, incr: u32)

  datatype Probe = Probe(askSend: bool, askTell: bool, wait: u32, ts: u32)

  /** Finished datagrams, and the segments waiting to be packed into the next one. */
  datatype Output = Output(queue: seq<seq<Wire>>, pending: seq<Wire>)

  datatype State = State(
    conv: u32, cfg: Config,
    sndUna: int, sndNxt: int, rcvNxt: int,
    rtt: Rtt, wnd: Window, probe: Probe,
    sndQueue: seq<Frag>, rcvQueue: seq<Frag>, sndBuf: seq<Segment>, rcvBuf: map<int, Frag>,
    ackList: seq<Ack>, out: Output)

  function Mss(cfg: Config): (r: int)
    ensures 40 <= r <= 65511
  {
    cfg.mtu - OVERHEAD
  }

  function Init(conv: u32, cfg: Config): State {
    State(conv, cfg, 0, 0, 0,
          Rtt(0, 0, RTO_DEF, if cfg.nodelay then RTO_NDL else RTO_MIN),
          Window(WND_RCV, cfg.sndWnd, THRESH_INIT, 0),
          Probe(false, false, 0, 0),
          [], [], [], map[], [], Output([], []))
  }

  // ---- Sending: fragmentation ----

  /** Fragments of `data` in message mode count down to 0; in stream mode all are 0. */
  function Fragment(data: Bytes, mss: int, streamMode: bool): (r: seq<Frag>)
    requires mss > 0
    decreases |data|
  {
    if |data| <= mss then [Frag(0, data)]
    else
      var rest := Fragment(data[mss..], mss, streamMode);
      [Frag(if streamMode then 0 else |rest| % 0x100, data[..mss])] + rest
  }

  function FragmentCount(len: nat, mss: int): nat
    requires mss > 0
  {
    if len <= mss then 1 else DivCeil(len, mss)
  }

  function MaxFragments(cfg: Config): nat {
    Min(cfg.rcvWnd, WND_RCV)
  }

  /** How many bytes of `data` a stream-mode engine appends to its last queued segment. */
  function MergeLength(s: State, data: Bytes): (r: nat)
    ensures r <= |data|
  {
    if s.cfg.streamMode && s.sndQueue != [] && |s.sndQueue[|s.sndQueue| - 1].data| < Mss(s.cfg) then
      Min(|data|, Mss(s.cfg) - |s.sndQueue[|s.sndQueue| - 1].data|)
    else 0
  }

  function MergeIntoLast(queue: seq<Frag>, data: Bytes): seq<Frag> {
    if data == [] || queue == [] then queue
    else
      var last := queue[|queue| - 1];
      queue[..|queue| - 1] + [last.(data := last.data + data)]
  }

  /** `send`: the new state, and whether the message was accepted. */
  function Send(s: State, data: Bytes): (r: (State, bool))
    ensures r.0 == s.(sndQueue := r.0.sndQueue)
  {
    if data == [] then (s, true)
    else
      var merged := MergeLength(s, data);
      var s1 := s.(sndQueue := MergeIntoLast(s.sndQueue, data[..merged]));
      var rest := data[merged..];
      if rest == [] then (s1, true)
      else if FragmentCount(|rest|, Mss(s.cfg)) > MaxFragments(s.cfg) then (s1, false)
      else (s1.(sndQueue := s1.sndQueue + Fragment(rest, Mss(s.cfg), s.cfg.streamMode)), true)
  }

  // ---- Receiving: reassembly ----

  /** Total data of the segments up to and including the first with `frg` 0. */
  function HeadLength(queue: seq<Frag>): nat {
    if queue == [] then 0
    else if queue[0].frg == 0 then |queue[0].data|
    else |queue[0].data| + HeadLength(queue[1..])
  }

  function PeekSize(queue: seq<Frag>): int {
    if queue == [] then -1
    else if queue[0].frg == 0 then Signed(|queue[0].data|)
    else if |queue| < queue[0].frg + 1 then -1
    else Signed(HeadLength(queue))
  }

  /** Pops segments while they fit into `room` bytes, through the first with `frg` 0. */
  function TakeMessage(queue: seq<Frag>, room: int): (r: (Bytes, seq<Frag>))
    ensures |r.1| <= |queue| && r.1 == queue[|queue| - |r.1|..]
  {
    if queue == [] || |queue[0].data| > room then ([], queue)
    else if queue[0].frg == 0 then (queue[0].data, queue[1..])
    else
      var (data, rest) := TakeMessage(queue[1..], room - |queue[0].data|);
      (queue[0].data + data, rest)
  }

  /** The next expected segment goes from the reorder buffer to the receive queue. */
  function MoveOne(m: Arith, s: State): State
    requires s.rcvNxt in s.rcvBuf
  {
    s.(rcvQueue := s.rcvQueue + [s.rcvBuf[s.rcvNxt]],
       rcvBuf := s.rcvBuf - {s.rcvNxt},
       rcvNxt := Add(m, s.rcvNxt, 1))
  }

  /** Moves consecutive segments from the reorder buffer to the receive queue while it has room. */
  function MoveToRecvQueue(m: Arith, s: State): (r: State)
    ensures r == s.(rcvQueue := r.rcvQueue, rcvBuf := r.rcvBuf, rcvNxt := r.rcvNxt)
    decreases |s.rcvBuf|
  {
    if s.rcvNxt in s.rcvBuf && |s.rcvQueue| < s.cfg.rcvWnd then MoveToRecvQueue(m, MoveOne(m, s)) else s
  }

  /** `recv`: the new state, and the message if a complete one is there. */
  function Recv(m: Arith, s: State): (State, Option<Bytes>) {
    var peek := PeekSize(s.rcvQueue);
    if peek <= 0 then (s, None)
    else
      var recovered := |s.rcvQueue| >= s.cfg.rcvWnd;
      var (data, rest) := TakeMessage(s.rcvQueue, peek);
      var s1 := s.(rcvQueue := rest);
      if data == [] then (s1, None)
      else
        var s2 := MoveToRecvQueue(m, s1);
        var tell := recovered && |s2.rcvQueue| < s.cfg.rcvWnd;
        (s2.(probe := s2.probe.(askTell := s2.probe.askTell || tell)), Some(data))
  }

  // ---- Input ----

  function DropUna(m: Arith, buf: seq<Segment>, una: int): seq<Segment> {
    if buf != [] && Before(m, buf[0].sn, una) then DropUna(m, buf[1..], una) else buf
  }

  /** `buf` without its first segment numbered `sn`, found by a scan. */
  function RemoveSn(buf: seq<Segment>, sn: int): seq<Segment> {
    if buf == [] then []
    else if buf[0].sn == sn then buf[1..]
    else [buf[0]] + RemoveSn(buf[1..], sn)
  }

  /** `sn` is one of the numbers sent and not known to be acknowledged when the packet arrived. */
  predicate InFlight(m: Arith, s: State, sn: int) {
    !Before(m, sn, s.sndUna) && Before(m, sn, s.sndNxt)
  }

  function ParseUna(m: Arith, s: State, una: int): State {
    s.(sndBuf := DropUna(m, s.sndBuf, una))
  }

  function ParseAck(m: Arith, s: State, sn: int): State {
    if InFlight(m, s, sn) then s.(sndBuf := RemoveSn(s.sndBuf, sn)) else s
  }

  function BumpOne(seg: Segment, ts: u32): Segment {
    if TimeDiff(ts, seg.ts) >= 0 then seg.(fastack := U(seg.fastack + 1)) else seg
  }

  /** One more acknowledgement overtook each leading segment numbered before `sn` and not sent after `ts`. */
  function BumpFastack(m: Arith, buf: seq<Segment>, sn: int, ts: u32): seq<Segment> {
    if buf == [] || !Before(m, buf[0].sn, sn) then buf
    else [BumpOne(buf[0], ts)] + BumpFastack(m, buf[1..], sn, ts)
  }

  function ParseFastack(m: Arith, s: State, sn: int, ts: u32): State {
    if InFlight(m, s, sn) then s.(sndBuf := BumpFastack(m, s.sndBuf, sn, ts)) else s
  }

  /** A segment already there is not replaced. */
  function Store(s: State, sn: int, frag: Frag): State {
    if sn in s.rcvBuf then s else s.(rcvBuf := s.rcvBuf[sn := frag])
  }

  function ParseData(m: Arith, s: State, sn: int, frag: Frag): (r: State)
    ensures r == s.(rcvQueue := r.rcvQueue, rcvBuf := r.rcvBuf, rcvNxt := r.rcvNxt)
  {
    if !Before(m, sn, Add(m, s.rcvNxt, s.cfg.rcvWnd)) || Before(m, sn, s.rcvNxt) then s
    else MoveToRecvQueue(m, Store(s, sn, frag))
  }

  function InputPush(m: Arith, s: State, sn: int, ts: u32, frag: Frag): (r: State)
    ensures r == s.(ackList := r.ackList, rcvQueue := r.rcvQueue, rcvBuf := r.rcvBuf, rcvNxt := r.rcvNxt)
  {
    if Before(m, sn, Add(m, s.rcvNxt, s.cfg.rcvWnd)) then
      var s1 := s.(ackList := s.ackList + [Ack(sn, ts)]);
      if Before(m, sn, s.rcvNxt) then s1 else ParseData(m, s1, sn, frag)
    else s
  }

  function Clamp(x: int, lo: int, hi: int): int
    requires lo <= hi
  {
    if x < lo then lo else if x > hi then hi else x
  }

  /** One RTT sample, in the program's u32 arithmetic. */
  function UpdateAck(r: Rtt, interval: u32, sample: int): Rtt {
    var rtt := Clamp(sample, 0, RTO_MAX);
    var avg0 := Signed(r.avg);
    var var1: u32 :=
      if r.avg == 0 then rtt / 2
      else U(3 * r.variance + (if rtt > avg0 then rtt - avg0 else avg0 - rtt)) / 4;
    var avg1: u32 :=
      if r.avg == 0 then rtt
      else Max(U(7 * r.avg + rtt) / 8, 1);
    var rto := U(avg1 + Max(interval, U(4 * var1)));
    Rtt(avg1, var1, if rto < r.minRto then r.minRto else if rto > RTO_MAX then RTO_MAX else rto, r.minRto)
  }

  /** The newest acknowledgement of a packet, by timestamp. */
  datatype Newest = NoAck | Newest(sn: int, ts: u32)

  function TrackNewest(m: Arith, newest: Newest, sn: int, ts: u32): Newest {
    if newest.NoAck? || (After(m, sn, newest.sn) && TimeDiff(ts, newest.ts) > 0) then Newest(sn, ts) else newest
  }

  function InputAck(m: Arith, s: State, sn: int, ts: u32, now: u32): State {
    var s1 := if TimeDiff(now, ts) >= 0
              then s.(rtt := UpdateAck(s.rtt, s.cfg.interval, TimeDiff(now, ts)))
              else s;
    ParseAck(m, s1, sn)
  }

  /** The parts of the state an incoming packet may change. */
  function InputFrame(s: State, r: State): State {
    s.(rtt := r.rtt, wnd := r.wnd, probe := r.probe, sndUna := r.sndUna, sndBuf := r.sndBuf,
       rcvNxt := r.rcvNxt, rcvQueue := r.rcvQueue, rcvBuf := r.rcvBuf, ackList := r.ackList)
  }

  function InputSegment(m: Arith, s: State, newest: Newest, w: Wire, now: u32): (r: (State, Newest))
    ensures r.0 == InputFrame(s, r.0) && r.0.sndUna == s.sndUna
  {
    if w.conv != s.conv then (s, newest)
    else
      var s1 := ParseUna(m, s.(wnd := s.wnd.(rmt := w.wnd)), w.una);
      if w.cmd == CMD_ACK then (InputAck(m, s1, w.sn, w.ts, now), TrackNewest(m, newest, w.sn, w.ts))
      else if w.cmd == CMD_PUSH then (InputPush(m, s1, w.sn, w.ts, Frag(w.frg, w.data)), newest)
      else if w.cmd == CMD_WASK then (s1.(probe := s1.probe.(askTell := true)), newest)
      else (s1, newest)
  }

  function InputSegments(m: Arith, s: State, newest: Newest, ws: seq<Wire>, now: u32): (r: (State, Newest))
    ensures r.0 == InputFrame(s, r.0) && r.0.sndUna == s.sndUna
    decreases |ws|
  {
    if ws == [] then (s, newest)
    else
      var (s1, newest1) := InputSegment(m, s, newest, ws[0], now);
      InputSegments(m, s1, newest1, ws[1..], now)
  }

  function ShrinkBuf(s: State): State {
    s.(sndUna := if s.sndBuf != [] then s.sndBuf[0].sn else s.sndNxt)
  }

  /** Congestion-window growth, in the program's u32 arithmetic. */
  function GrowCwnd(w: Window, mss: int): Window
    requires 40 <= mss <= 65511
  {
    var w1 :=
      if w.cwnd < w.ssthresh then
        w.(cwnd := U(w.cwnd + 1), incr := U(w.incr + mss))
      else
        var incr0 := Max(w.incr, mss);
        var incr1 := U(incr0 + U(mss * mss) / incr0 + mss / 16);
        w.(incr := incr1,
           cwnd := if U(U(w.cwnd + 1) * mss) <= incr1 then U(DivCeil(incr1, mss)) else w.cwnd);
    if w1.cwnd > w1.rmt then w1.(cwnd := w1.rmt, incr := U(w1.rmt * mss)) else w1
  }

  function UpdateCwnd(m: Arith, s: State, prevUna: int): (r: State)
    ensures r == s.(wnd := r.wnd)
  {
    if After(m, s.sndUna, prevUna) && s.wnd.cwnd < s.wnd.rmt
    then s.(wnd := GrowCwnd(s.wnd, Mss(s.cfg)))
    else s
  }

  /** `input` on the segments of one datagram. */
  function Input(m: Arith, s: State, ws: seq<Wire>, now: u32): (r: State)
    ensures r == InputFrame(s, r)
  {
    var (s1, newest) := InputSegments(m, s, NoAck, ws, now);
    var s2 := ShrinkBuf(s1);
    var s3 := if newest.Newest? then ParseFastack(m, s2, newest.sn, newest.ts) else s2;
    UpdateCwnd(m, s3, s.sndUna)
  }

  /** `input` on the bytes of a datagram: too short a packet is an error and changes nothing. */
  function InputDatagram(m: Arith, s: State, data: Bytes, now: u32): (State, bool) {
    if |data| < 24 then (s, false) else (Input(m, s, ParseDatagram(data), now), true)
  }

  // ---- Output ----

  /** Appends a segment to the pending datagram, closing that one first if the segment would not fit. */
  function OutputSegment(out: Output, mtu: int, w: Wire): Output {
    if DatagramSize(out.pending) + WireSize(w) > mtu && out.pending != [] then
      Output(out.queue + [out.pending], [w])
    else
      Output(out.queue, out.pending + [w])
  }

  function OutputAll(out: Output, mtu: int, ws: seq<Wire>): Output {
    if ws == [] then out
    else OutputSegment(OutputAll(out, mtu, ws[..|ws| - 1]), mtu, ws[|ws| - 1])
  }

  function CloseDatagram(out: Output): Output {
    if out.pending == [] then out else Output(out.queue + [out.pending], [])
  }

  function Emit(s: State, ws: seq<Wire>): State {
    s.(out := OutputAll(s.out, s.cfg.mtu, ws))
  }

  // ---- Flush ----

  function WndUnused(s: State): u16 {
    if |s.rcvQueue| < s.cfg.rcvWnd then s.cfg.rcvWnd - |s.rcvQueue| else 0
  }

  function AckWire(s: State, a: Ack): Wire {
    Wire(s.conv, CMD_ACK, 0, WndUnused(s), a.ts, a.sn, s.rcvNxt, [])
  }

  function AckWires(s: State): (r: seq<Wire>)
    ensures |r| == |s.ackList|
    ensures forall i :: 0 <= i < |r| ==> r[i] == AckWire(s, s.ackList[i])
  {
    seq(|s.ackList|, i requires 0 <= i < |s.ackList| => AckWire(s, s.ackList[i]))
  }

  function FlushAcks(s: State): State {
    Emit(s, AckWires(s)).(ackList := [])
  }

  function ProbeWire(s: State, cmd: byte, now: u32): Wire {
    Wire(s.conv, cmd, 0, WndUnused(s), now, 0, s.rcvNxt, [])
  }

  /** The probe timer: armed while the remote window is closed, backing off by half each time it fires. */
  function ProbeTimer(p: Probe, rmt: u16, now: u32): Probe {
    if rmt != 0 then p.(wait := 0, ts := 0)
    else if p.wait == 0 then p.(wait := PROBE_INIT, ts := U(now + PROBE_INIT))
    else if TimeDiff(now, p.ts) >= 0 then
      var wait0: u32 := Max(p.wait, PROBE_INIT);
      var wait1: u32 := Min(U(wait0 + wait0 / 2), PROBE_LIMIT);
      p.(wait := wait1, ts := U(now + wait1), askSend := true)
    else p
  }

  function ProbeWires(s: State, now: u32): seq<Wire> {
    (if s.probe.askSend then [ProbeWire(s, CMD_WASK, now)] else [])
    + (if s.probe.askTell then [ProbeWire(s, CMD_WINS, now)] else [])
  }

  function HandleWindowProbe(s: State, now: u32): State {
    var s1 := s.(probe := ProbeTimer(s.probe, s.wnd.rmt, now));
    Emit(s1, ProbeWires(s1, now)).(probe := s1.probe.(askSend := false, askTell := false))
  }

  function EffectiveWindow(s: State): int {
    var w := Min(s.cfg.sndWnd, s.wnd.rmt);
    if s.cfg.noCongestionControl then w else Min(s.wnd.cwnd, w)
  }

  /** The oldest queued fragment gets the next number and goes to the send buffer. */
  function NumberOne(m: Arith, s: State, now: u32): State
    requires s.sndQueue != []
  {
    s.(sndQueue := s.sndQueue[1..],
       sndBuf := s.sndBuf + [Segment(s.sndNxt, s.sndQueue[0], now, now, s.rtt.rto, 0, 0)],
       sndNxt := Add(m, s.sndNxt, 1))
  }

  /** Numbers queued fragments and moves them into the send buffer while the window has room. */
  function MoveToSendBuf(m: Arith, s: State, now: u32): (r: State)
    ensures r == s.(sndQueue := r.sndQueue, sndBuf := r.sndBuf, sndNxt := r.sndNxt)
    decreases |s.sndQueue|
  {
    if s.sndQueue != [] && Before(m, s.sndNxt, Add(m, s.sndUna, EffectiveWindow(s))) then
      MoveToSendBuf(m, NumberOne(m, s, now), now)
    else s
  }

  datatype Mark = Idle | First | Timeout | Fast

  function ResendThreshold(cfg: Config): u32 {
    if cfg.resend > 0 then cfg.resend else U32_MAX
  }

  /** Why a segment is transmitted by a flush at `now`, if it is. */
  function MarkOf(cfg: Config, seg: Segment, now: u32): Mark {
    if seg.xmit == 0 then First
    else if TimeDiff(now, seg.resendts) >= 0 then Timeout
    else if seg.fastack >= ResendThreshold(cfg) && seg.xmit <= FASTACK_LIMIT then Fast
    else Idle
  }

  /** The retransmission timeout after backing off: nothing caps it. */
  function Backoff(cfg: Config, rto: u32, segRto: u32): u32 {
    if cfg.nodelay then U(segRto + (if cfg.noCongestionControl then rto else segRto) / 2)
    else U(segRto + Max(segRto, cfg.interval))
  }

  function Marked(cfg: Config, rto: u32, seg: Segment, now: u32): Segment {
    match MarkOf(cfg, seg, now)
    case Idle => seg
    case First =>
      seg.(ts := now, xmit := 1, rto := rto,
           resendts := U(U(now + rto) + (if cfg.nodelay then 0 else rto / 8)))
    case Timeout =>
      var rto1 := Backoff(cfg, rto, seg.rto);
      seg.(ts := now, xmit := U(seg.xmit + 1), rto := rto1, resendts := U(now + rto1))
    case Fast =>
      seg.(ts := now, xmit := U(seg.xmit + 1), fastack := 0, resendts := U(now + seg.rto))
  }

  function MarkAll(cfg: Config, rto: u32, buf: seq<Segment>, now: u32): (r: seq<Segment>)
    ensures |r| == |buf|
    ensures forall i :: 0 <= i < |buf| ==> r[i] == Marked(cfg, rto, buf[i], now)
  {
    seq(|buf|, i requires 0 <= i < |buf| => Marked(cfg, rto, buf[i], now))
  }

  predicate AnyMark(cfg: Config, buf: seq<Segment>, now: u32, mark: Mark) {
    exists i :: 0 <= i < |buf| && MarkOf(cfg, buf[i], now) == mark
  }

  /** The segments to transmit, as marked, in buffer order. */
  function ToSend(cfg: Config, rto: u32, buf: seq<Segment>, now: u32): seq<Segment> {
    if buf == [] then []
    else
      var last := buf[|buf| - 1];
      ToSend(cfg, rto, buf[..|buf| - 1], now)
      + (if MarkOf(cfg, last, now).Idle? then [] else [Marked(cfg, rto, last, now)])
  }

  /** The leading segments up to and including the first whose transmissions are used up. */
  function ThroughDead(segs: seq<Segment>, deadLink: u32): (r: seq<Segment>)
    ensures r <= segs
  {
    if segs == [] then []
    else if segs[0].xmit >= deadLink then [segs[0]]
    else [segs[0]] + ThroughDead(segs[1..], deadLink)
  }

  predicate AnyDead(segs: seq<Segment>, deadLink: u32) {
    exists i :: 0 <= i < |segs| && segs[i].xmit >= deadLink
  }

  function DataWire(s: State, seg: Segment): Wire {
    Wire(s.conv, CMD_PUSH, seg.frag.frg, WndUnused(s), seg.ts, seg.sn, s.rcvNxt, seg.frag.data)
  }

  function DataWires(s: State, segs: seq<Segment>): (r: seq<Wire>)
    ensures |r| == |segs|
    ensures forall i :: 0 <= i < |segs| ==> r[i] == DataWire(s, segs[i])
  {
    seq(|segs|, i requires 0 <= i < |segs| => DataWire(s, segs[i]))
  }

  function OnFastLoss(w: Window, inflight: u32, resend: u32, mss: int): Window {
    var ssthresh: u32 := Max(inflight / 2, THRESH_MIN);
    var cwnd := U(ssthresh + resend);
    w.(ssthresh := ssthresh, cwnd := cwnd, incr := U(cwnd * mss))
  }

  function ResetCwnd(w: Window, mss: int): Window
    requires 40 <= mss <= 65511
  {
    w.(cwnd := 1, incr := mss)
  }

  function OnTimeoutLoss(w: Window, mss: int): Window
    requires 40 <= mss <= 65511
  {
    ResetCwnd(w.(ssthresh := Max(w.cwnd / 2, THRESH_MIN)), mss)
  }

  function UpdateCongestionOnLoss(m: Arith, s: State, lost: bool, change: bool): (r: State)
    ensures r == s.(wnd := r.wnd)
  {
    var mss := Mss(s.cfg);
    var w1 := if change then OnFastLoss(s.wnd, U(s.sndNxt - s.sndUna), ResendThreshold(s.cfg), mss) else s.wnd;
    var w2 := if lost then OnTimeoutLoss(w1, mss) else w1;
    s.(wnd := if w2.cwnd < 1 then ResetCwnd(w2, mss) else w2)
  }

  /** Transmits what is due; `false` means a segment used up its transmissions: the connection is lost. */
  function FlushDataSegments(m: Arith, s: State, now: u32): (State, bool) {
    var rto := s.rtt.rto;
    var sending := ToSend(s.cfg, rto, s.sndBuf, now);
    var s1 := Emit(s.(sndBuf := MarkAll(s.cfg, rto, s.sndBuf, now)),
                   DataWires(s, ThroughDead(sending, s.cfg.deadLink)));
    if AnyDead(sending, s.cfg.deadLink) then (s1, false)
    else
      (UpdateCongestionOnLoss(m, s1, AnyMark(s.cfg, s.sndBuf, now, Timeout), AnyMark(s.cfg, s.sndBuf, now, Fast)), true)
  }

  /** `flush` at time `now`: the new state, and whether it succeeded. */
  function Flush(m: Arith, s: State, now: u32): (r: (State, bool))
    ensures r.0 == s.(wnd := r.0.wnd, probe := r.0.probe, sndQueue := r.0.sndQueue, sndBuf := r.0.sndBuf,
                      sndNxt := r.0.sndNxt, ackList := [], out := r.0.out)
  {
    var s1 := MoveToSendBuf(m, HandleWindowProbe(FlushAcks(s), now), now);
    var (s2, ok) := FlushDataSegments(m, s1, now);
    if ok then (s2.(out := CloseDatagram(s2.out)), true) else (s2, false)
  }

  function KeepAliveProbe(m: Arith, s: State, now: u32): (State, bool) {
    Flush(m, s.(probe := s.probe.(askSend := true)), now)
  }

  /** `drain_output`: hands the finished datagrams over. */
  function Drain(s: State): State {
    s.(out := s.out.(queue := []))
  }

  // ---- Queries ----

  function Until(deadline: u32, now: u32): (r: u32) {
    Max(TimeDiff(deadline, now), 0)
  }

  /** The soonest retransmission deadline of `buf`, `U32_MAX` if there is none. */
  function SoonestResend(buf: seq<Segment>, now: u32): u32 {
    if buf == [] then U32_MAX
    else Min(SoonestResend(buf[..|buf| - 1], now), Until(buf[|buf| - 1].resendts, now))
  }

  /** `check`: milliseconds until the next flush is needed. */
  function Check(s: State, now: u32): u32 {
    if s.ackList != [] || s.probe.askSend || s.probe.askTell then 0
    else
      var resend := SoonestResend(s.sndBuf, now);
      var next := if s.wnd.rmt == 0 && s.probe.ts != 0 then Min(resend, Until(s.probe.ts, now)) else resend;
      if next == U32_MAX then 30000 else next
  }

  predicate HasUnsentData(s: State) {
    s.sndQueue != [] || s.sndBuf != []
  }

  predicate IsDead(s: State) {
    AnyDead(s.sndBuf, s.cfg.deadLink)
  }
}
