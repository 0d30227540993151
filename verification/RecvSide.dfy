/** The receive window: what every operation keeps of `rcv_nxt`, the reorder buffer and the
    receive queue, in either arithmetic and whatever packets arrive. */
module RecvSide {
  import opened Word
  import opened Protocol
  import opened EngineSpec
  import opened EngineRun

  /** The most data a segment of one datagram can carry: the transports read at most 65536 bytes. */
  const MAX_DATA: int := 65512

  ghost predicate Arrives(m: Arith, w: Wire) {
    Canonical(m, w.sn) && |w.data| <= MAX_DATA
  }

  /** The numbers waiting in the reorder buffer lie within a window of the next expected one. */
  ghost predicate RecvWindow(m: Arith, s: State) {
    && Canonical(m, s.rcvNxt)
    && |s.rcvQueue| <= s.cfg.rcvWnd
    && (forall k :: k in s.rcvBuf ==> Canonical(m, k) && 0 <= Off(m, k, s.rcvNxt) < s.cfg.rcvWnd)
  }

  /** The next expected number waits in the reorder buffer only for want of queue space. */
  predicate Settled(s: State) {
    s.rcvNxt in s.rcvBuf ==> |s.rcvQueue| == s.cfg.rcvWnd
  }

  /** What came in packets of transport size. */
  ghost predicate DataFits(s: State) {
    && (forall k :: k in s.rcvBuf ==> |s.rcvBuf[k].data| <= MAX_DATA)
    && (forall i :: 0 <= i < |s.rcvQueue| ==> |s.rcvQueue[i].data| <= MAX_DATA)
  }

  ghost predicate RecvCore(m: Arith, s: State) {
    RecvWindow(m, s) && DataFits(s)
  }

  /** The receive window between operations, fed with packets of transport size. */
  ghost predicate RecvInv(m: Arith, s: State) {
    RecvCore(m, s) && Settled(s)
  }

  lemma {:induction false} MoveSettles(m: Arith, s: State)
    requires RecvWindow(m, s)
    ensures var r := MoveToRecvQueue(m, s);
            && RecvWindow(m, r) && Settled(r)
            && |s.rcvQueue| <= |r.rcvQueue|
            && Off(m, r.rcvNxt, s.rcvNxt) == |r.rcvQueue| - |s.rcvQueue|
    decreases |s.rcvBuf|
  {
    if s.rcvNxt in s.rcvBuf && |s.rcvQueue| < s.cfg.rcvWnd {
      var nxt1 := Add(m, s.rcvNxt, 1);
      var s1 := s.(rcvQueue := s.rcvQueue + [s.rcvBuf[s.rcvNxt]], rcvBuf := s.rcvBuf - {s.rcvNxt}, rcvNxt := nxt1);
      OffAdd(m, s.rcvNxt, 1, s.rcvNxt);
      forall k | k in s1.rcvBuf ensures Off(m, k, nxt1) == Off(m, k, s.rcvNxt) - 1 >= 0 {
        if Off(m, k, s.rcvNxt) == 0 { OffInjective(m, k, s.rcvNxt, s.rcvNxt); }
        OffRebase(m, k, nxt1, s.rcvNxt);
      }
      hide Add, Canonical;
      MoveSettles(m, s1);
      var r := MoveToRecvQueue(m, s1);
      assert Off(m, r.rcvNxt, nxt1) == |r.rcvQueue| - |s1.rcvQueue|;
      Advance(m, r.rcvNxt, s.rcvNxt, nxt1, |r.rcvQueue| - |s1.rcvQueue|);
    }
  }

  lemma {:induction false} MoveKeepsData(m: Arith, s: State)
    requires DataFits(s)
    ensures DataFits(MoveToRecvQueue(m, s))
    decreases |s.rcvBuf|
  {
    if s.rcvNxt in s.rcvBuf && |s.rcvQueue| < s.cfg.rcvWnd { MoveKeepsData(m, MoveOne(m, s)); }
  }

  lemma Advance(m: Arith, x: int, base: int, base1: int, n: nat)
    requires n < HALF && base1 == Add(m, base, 1) && Off(m, x, base1) == n
    ensures Off(m, x, base) == n + 1
  {
    if m.Wrapping? {
      WrapShift(base + 1, x);
      WholeTurns(x - base - 1, 1);
    }
  }

  // ---- Input ----

  lemma ParseDataKeepsWindow(m: Arith, s: State, sn: int, frag: Frag)
    requires RecvWindow(m, s) && Canonical(m, sn)
    ensures var r := ParseData(m, s, sn, frag);
            RecvWindow(m, r) && (Settled(s) ==> Settled(r)) && |s.rcvQueue| <= |r.rcvQueue|
  {
    InWindow(m, sn, s.rcvNxt, s.cfg.rcvWnd);
    hide Before, Canonical, Off, Add, MoveToRecvQueue;
    if !Before(m, sn, s.rcvNxt) && Before(m, sn, Add(m, s.rcvNxt, s.cfg.rcvWnd)) {
      MoveSettles(m, if sn in s.rcvBuf then s else s.(rcvBuf := s.rcvBuf[sn := frag]));
    }
  }

  lemma ParseDataKeepsData(m: Arith, s: State, sn: int, frag: Frag)
    requires DataFits(s) && |frag.data| <= MAX_DATA
    ensures DataFits(ParseData(m, s, sn, frag))
  {
    hide Before, Add, MoveToRecvQueue;
    MoveKeepsData(m, Store(s, sn, frag));
  }

  lemma SegmentKeepsWindow(m: Arith, s: State, newest: Newest, w: Wire, now: u32)
    requires RecvWindow(m, s) && Canonical(m, w.sn)
    ensures var r := InputSegment(m, s, newest, w, now).0;
            && RecvWindow(m, r) && (Settled(s) ==> Settled(r)) && |s.rcvQueue| <= |r.rcvQueue|
            && (DataFits(s) && |w.data| <= MAX_DATA ==> DataFits(r))
  {
    hide Before, Canonical, Off, Add, UpdateAck, ParseData;
    var s1 := ParseUna(m, s.(wnd := s.wnd.(rmt := w.wnd)), w.una);
    var s2 := s1.(ackList := s1.ackList + [Ack(w.sn, w.ts)]);
    ParseDataKeepsWindow(m, s2, w.sn, Frag(w.frg, w.data));
    if DataFits(s) && |w.data| <= MAX_DATA { ParseDataKeepsData(m, s2, w.sn, Frag(w.frg, w.data)); }
  }

  lemma SegmentKeepsRecvInv(m: Arith, s: State, newest: Newest, w: Wire, now: u32)
    requires RecvInv(m, s) && Arrives(m, w)
    ensures RecvInv(m, InputSegment(m, s, newest, w, now).0)
    ensures |s.rcvQueue| <= |InputSegment(m, s, newest, w, now).0.rcvQueue|
  {
    hide RecvWindow, DataFits, Canonical, InputSegment;
    SegmentKeepsWindow(m, s, newest, w, now);
  }

  lemma {:induction false} SegmentsKeepRecvInv(m: Arith, s: State, newest: Newest, ws: seq<Wire>, now: u32)
    requires RecvInv(m, s) && forall i :: 0 <= i < |ws| ==> Arrives(m, ws[i])
    ensures RecvInv(m, InputSegments(m, s, newest, ws, now).0)
    ensures |s.rcvQueue| <= |InputSegments(m, s, newest, ws, now).0.rcvQueue|
    decreases |ws|
  {
    if ws != [] {
      SegmentKeepsRecvInv(m, s, newest, ws[0], now);
      var (s1, newest1) := InputSegment(m, s, newest, ws[0], now);
      SegmentsKeepRecvInv(m, s1, newest1, ws[1..], now);
    }
  }

  lemma {:induction false} SegmentsKeepWindow(m: Arith, s: State, newest: Newest, ws: seq<Wire>, now: u32)
    requires RecvWindow(m, s) && forall i :: 0 <= i < |ws| ==> Canonical(m, ws[i].sn)
    ensures var r := InputSegments(m, s, newest, ws, now).0;
            RecvWindow(m, r) && (Settled(s) ==> Settled(r)) && |s.rcvQueue| <= |r.rcvQueue|
    decreases |ws|
  {
    hide RecvWindow, Settled, Canonical, InputSegment;
    if ws != [] {
      SegmentKeepsWindow(m, s, newest, ws[0], now);
      var (s1, newest1) := InputSegment(m, s, newest, ws[0], now);
      SegmentsKeepWindow(m, s1, newest1, ws[1..], now);
    }
  }

  // ---- Reassembly ----

  lemma {:induction false} HeadLengthBound(queue: seq<Frag>)
    requires forall i :: 0 <= i < |queue| ==> |queue[i].data| <= MAX_DATA
    ensures HeadLength(queue) <= |queue| * MAX_DATA
  {
    if queue != [] && queue[0].frg != 0 {
      HeadLengthBound(queue[1..]);
    }
  }

  /** Given the room that was peeked, popping takes just what was counted. */
  lemma {:induction false} TakeWhatWasPeeked(queue: seq<Frag>)
    ensures |TakeMessage(queue, HeadLength(queue)).0| == HeadLength(queue)
  {
    if queue != [] && queue[0].frg != 0 {
      TakeWhatWasPeeked(queue[1..]);
    }
  }

  /** While the head message is shorter than 2^32 bytes, a size that was peeked is what will be
      popped, and is not empty. */
  lemma PeekTakesShort(queue: seq<Frag>)
    requires PeekSize(queue) > 0 && HeadLength(queue) < M32
    ensures var (data, rest) := TakeMessage(queue, PeekSize(queue));
            |data| == PeekSize(queue) && data != [] && |rest| < |queue|
  {
    PeekIsLength(queue);
    TakeWhatWasPeeked(queue);
    TakesSomething(queue, PeekSize(queue));
    hide PeekSize, HeadLength, TakeMessage;
  }

  lemma PeekIsLength(queue: seq<Frag>)
    requires PeekSize(queue) > 0 && HeadLength(queue) < M32
    ensures PeekSize(queue) == HeadLength(queue)
  {
  }

  lemma TakesSomething(queue: seq<Frag>, room: int)
    requires TakeMessage(queue, room).0 != []
    ensures |TakeMessage(queue, room).1| < |queue|
  {
  }

  /** Packets of transport size cannot queue 2^32 bytes. */
  lemma QueueIsShort(m: Arith, s: State)
    requires RecvCore(m, s)
    ensures HeadLength(s.rcvQueue) < M32
  {
    HeadLengthBound(s.rcvQueue);
    var n := |s.rcvQueue|;
    assert n * MAX_DATA <= 65535 * MAX_DATA;
  }

  lemma PeekTakes(m: Arith, s: State)
    requires RecvCore(m, s) && PeekSize(s.rcvQueue) > 0
    ensures var (data, rest) := TakeMessage(s.rcvQueue, PeekSize(s.rcvQueue));
            |data| == PeekSize(s.rcvQueue) && data != [] && |rest| < |s.rcvQueue|
  {
    QueueIsShort(m, s);
    PeekTakesShort(s.rcvQueue);
  }

  /** `recv` takes segments off the queue and returns nothing: the peeked size wrapped, and only
      empty segments fitted into it. */
  predicate Swallows(s: State) {
    var (data, rest) := TakeMessage(s.rcvQueue, PeekSize(s.rcvQueue));
    PeekSize(s.rcvQueue) > 0 && data == [] && rest != s.rcvQueue
  }

  lemma ShortQueueIsNotSwallowed(s: State)
    requires HeadLength(s.rcvQueue) < M32
    ensures !Swallows(s)
  {
    if PeekSize(s.rcvQueue) > 0 { PeekTakesShort(s.rcvQueue); }
    hide PeekSize, TakeMessage, HeadLength;
  }

  /** `recv` keeps the window on any queue; and it leaves nothing waiting that the queue has room for
      if and only if it does not swallow segments while the next one waits. */
  lemma RecvKeepsWindow(m: Arith, s: State)
    requires RecvWindow(m, s)
    ensures var r := Recv(m, s).0;
            RecvWindow(m, r) && (Settled(s) ==> (Settled(r) <==> !(Swallows(s) && s.rcvNxt in s.rcvBuf)))
  {
    hide Off, Canonical, Add, PeekSize, MoveToRecvQueue;
    var (data, rest) := TakeMessage(s.rcvQueue, PeekSize(s.rcvQueue));
    MoveSettles(m, s.(rcvQueue := rest));
    hide TakeMessage;
  }

  lemma RecvKeepsData(m: Arith, s: State)
    requires DataFits(s)
    ensures DataFits(Recv(m, s).0)
  {
    hide PeekSize, MoveToRecvQueue;
    var (data, rest) := TakeMessage(s.rcvQueue, PeekSize(s.rcvQueue));
    MoveKeepsData(m, s.(rcvQueue := rest));
    hide TakeMessage;
  }

  lemma RecvKeepsRecvInv(m: Arith, s: State)
    requires RecvInv(m, s)
    ensures RecvInv(m, Recv(m, s).0)
  {
    QueueIsShort(m, s);
    ShortQueueIsNotSwallowed(s);
    hide RecvWindow, DataFits, Recv, Swallows;
    RecvKeepsWindow(m, s);
    RecvKeepsData(m, s);
  }

  /** A queue of more than 2^32 bytes that starts with an empty segment is swallowed in part. */
  lemma HugeQueueIsSwallowed(s: State, big: Bytes, last: Bytes)
    requires s.rcvQueue == [Frag(2, []), Frag(1, big), Frag(0, last)]
    requires |big| < M32 && |last| < M32 && M32 < |big| + |last| < M32 + |big| && |big| + |last| < M32 + HALF
    ensures Swallows(s)
  {
    var queue := s.rcvQueue;
    assert queue[1..] == [Frag(1, big), Frag(0, last)] && queue[1..][1..] == [Frag(0, last)];
    assert HeadLength(queue[1..][1..]) == |last|;
    assert HeadLength(queue[1..]) == |big| + |last|;
    assert HeadLength(queue) == |big| + |last|;
    var n := |big| + |last| - M32;
    assert U(M32 + n) == n by { WholeTurns(n, 1); }
    assert PeekSize(queue) == n;
    assert TakeMessage(queue[1..], n) == ([], queue[1..]);
  }

  /** A packet as the operation takes it. */
  ghost predicate OpArrives(m: Arith, op: Op) {
    op.DoInput? ==> forall i :: 0 <= i < |op.ws| ==> Arrives(m, op.ws[i])
  }

  lemma RecvInvFrame(m: Arith, s: State, r: State)
    requires RecvInv(m, s)
    requires r.cfg == s.cfg && r.rcvNxt == s.rcvNxt && r.rcvQueue == s.rcvQueue && r.rcvBuf == s.rcvBuf
    ensures RecvInv(m, r)
  {
  }

  lemma InputKeepsRecvInv(m: Arith, s: State, ws: seq<Wire>, now: u32)
    requires RecvInv(m, s) && forall i :: 0 <= i < |ws| ==> Arrives(m, ws[i])
    ensures RecvInv(m, Input(m, s, ws, now))
    ensures |s.rcvQueue| <= |Input(m, s, ws, now).rcvQueue|
  {
    SegmentsKeepRecvInv(m, s, NoAck, ws, now);
    hide RecvInv, InputSegments, BumpFastack, InFlight, UpdateCwnd;
    RecvInvFrame(m, InputSegments(m, s, NoAck, ws, now).0, Input(m, s, ws, now));
  }

  lemma InputKeepsWindow(m: Arith, s: State, ws: seq<Wire>, now: u32)
    requires RecvWindow(m, s) && forall i :: 0 <= i < |ws| ==> Canonical(m, ws[i].sn)
    ensures var r := Input(m, s, ws, now);
            RecvWindow(m, r) && (Settled(s) ==> Settled(r)) && |s.rcvQueue| <= |r.rcvQueue|
  {
    SegmentsKeepWindow(m, s, NoAck, ws, now);
    hide RecvWindow, InputSegments, BumpFastack, InFlight, UpdateCwnd;
    WindowFrame(m, InputSegments(m, s, NoAck, ws, now).0, Input(m, s, ws, now));
  }

  lemma WindowFrame(m: Arith, s: State, r: State)
    requires RecvWindow(m, s)
    requires r.cfg == s.cfg && r.rcvNxt == s.rcvNxt && r.rcvQueue == s.rcvQueue && r.rcvBuf == s.rcvBuf
    ensures RecvWindow(m, r)
  {
  }

  // ---- Every operation ----

  /** The sequence numbers of a packet fit their field. */
  ghost predicate OpNumbers(m: Arith, op: Op) {
    op.DoInput? ==> forall i :: 0 <= i < |op.ws| ==> Canonical(m, op.ws[i].sn)
  }

  /** Whatever is sent, received or flushed, on packets of any size: the receive window stays sound,
      and nothing waits that the queue has room for, but after a `recv` that swallowed segments. */
  lemma StepKeepsWindow(m: Arith, s: State, op: Op)
    requires RecvWindow(m, s) && OpNumbers(m, op)
    ensures RecvWindow(m, Step(m, s, op))
    ensures Settled(s) ==> (Settled(Step(m, s, op)) <==> !(op.DoRecv? && Swallows(s) && s.rcvNxt in s.rcvBuf))
  {
    hide RecvWindow, Recv, Input, Flush, Canonical, Swallows;
    match op
    case DoSend(data) => WindowFrame(m, s, Send(s, data).0);
    case DoRecv => RecvKeepsWindow(m, s);
    case DoInput(ws, now) => InputKeepsWindow(m, s, ws, now);
    case DoFlush(now) => WindowFrame(m, s, Flush(m, s, now).0);
    case DoProbe(now) => WindowFrame(m, s, KeepAliveProbe(m, s, now).0);
    case DoDrain => WindowFrame(m, s, Drain(s));
  }

  /** No `recv` of the run swallowed segments. */
  ghost predicate NothingSwallowed(m: Arith, s: State, ops: seq<Op>)
    decreases |ops|
  {
    ops == [] ||
    (var init := ops[..|ops| - 1];
     NothingSwallowed(m, s, init) && (ops[|ops| - 1].DoRecv? ==> !Swallows(Run(m, s, init))))
  }

  /** In every run, on packets of any size: `rcv_buf` lies in the window and the queue within its
      bound; and while no `recv` has swallowed segments, `rcv_nxt` waits only for want of room. */
  lemma {:induction false} EveryRunKeepsWindow(m: Arith, conv: u32, cfg: Config, ops: seq<Op>)
    requires forall i :: 0 <= i < |ops| ==> OpNumbers(m, ops[i])
    ensures var s := Run(m, Init(conv, cfg), ops);
            RecvWindow(m, s) && (NothingSwallowed(m, Init(conv, cfg), ops) ==> Settled(s))
    decreases |ops|
  {
    if ops != [] {
      hide RecvWindow, Settled, Step, Swallows, Canonical;
      EveryRunKeepsWindow(m, conv, cfg, ops[..|ops| - 1]);
      StepKeepsWindow(m, Run(m, Init(conv, cfg), ops[..|ops| - 1]), ops[|ops| - 1]);
    }
  }

  /** With packets of transport size nothing is ever swallowed. */
  lemma StepKeepsRecvInv(m: Arith, s: State, op: Op)
    requires RecvInv(m, s) && OpArrives(m, op)
    ensures RecvInv(m, Step(m, s, op)) && !Swallows(s)
  {
    QueueIsShort(m, s);
    ShortQueueIsNotSwallowed(s);
    hide RecvInv, Recv, Input, Flush, Arrives, Swallows;
    match op
    case DoSend(data) => RecvInvFrame(m, s, Send(s, data).0);
    case DoRecv => RecvKeepsRecvInv(m, s);
    case DoInput(ws, now) => InputKeepsRecvInv(m, s, ws, now);
    case DoFlush(now) => RecvInvFrame(m, s, Flush(m, s, now).0);
    case DoProbe(now) => RecvInvFrame(m, s, KeepAliveProbe(m, s, now).0);
    case DoDrain => RecvInvFrame(m, s, Drain(s));
  }

  lemma {:induction false} EveryRunKeepsRecvInv(m: Arith, conv: u32, cfg: Config, ops: seq<Op>)
    requires forall i :: 0 <= i < |ops| ==> OpArrives(m, ops[i])
    ensures RecvInv(m, Run(m, Init(conv, cfg), ops)) && NothingSwallowed(m, Init(conv, cfg), ops)
    decreases |ops|
  {
    if ops != [] {
      hide RecvInv, Step, Swallows, Arrives;
      var init := ops[..|ops| - 1];
      EveryRunKeepsRecvInv(m, conv, cfg, init);
      StepKeepsRecvInv(m, Run(m, Init(conv, cfg), init), ops[|ops| - 1]);
    }
  }

  // ---- Reopening the window ----

  /** The advertised window rises from zero only in `recv`, and an announcement is pending then if
      and only if `recv` returned a message or one was pending before: so always, unless it swallowed
      segments. */
  lemma ReopeningIsAnnounced(m: Arith, s: State, op: Op)
    requires RecvWindow(m, s) && OpNumbers(m, op)
    requires WndUnused(s) == 0 < WndUnused(Step(m, s, op))
    ensures op.DoRecv?
    ensures Step(m, s, op).probe.askTell <==> s.probe.askTell || !Swallows(s)
  {
    hide Input, Flush, Canonical, RecvWindow;
    match op
    case DoSend(data) =>
    case DoRecv => hide TakeMessage, PeekSize, MoveToRecvQueue;
    case DoInput(ws, now) => InputKeepsWindow(m, s, ws, now);
    case DoFlush(now) =>
    case DoProbe(now) =>
    case DoDrain =>
  }

  /** Of all it does to the probes, `recv` makes an announcement pending, and does so if and only if it
      returns a message, the queue was full, and it is not any more. */
  lemma RecvAnnouncesIff(m: Arith, s: State)
    ensures var (r, got) := Recv(m, s);
            && r.probe == s.probe.(askTell := r.probe.askTell)
            && (r.probe.askTell <==>
                s.probe.askTell || (got.Some? && |s.rcvQueue| >= s.cfg.rcvWnd && |r.rcvQueue| < s.cfg.rcvWnd))
  {
    hide TakeMessage, PeekSize, MoveToRecvQueue;
  }

  // ---- When a message is there ----

  /** With less than 2^31 bytes at the head, `recv` finds nothing exactly if the queue is empty or the
      first segment says that more are to come than there are behind it; otherwise it finds all up to the
      first that is the last of its message. */
  lemma PeekIsExact(queue: seq<Frag>)
    requires HeadLength(queue) < HALF
    ensures PeekSize(queue) == if queue == [] || queue[0].frg >= |queue| then -1 else HeadLength(queue)
  {
    if queue != [] && queue[0].frg == 0 { assert HeadLength(queue) == |queue[0].data|; }
  }
}
