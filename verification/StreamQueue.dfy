/** How stream mode cuts what is written into segments: the send queue is always full segments and one
    more, however the writes were cut, so a write is merged into the last segment as far as there is room. */
module StreamQueue {
  import opened Word
  import opened EngineSpec
  import opened EngineRun
  import opened Fragments
  import opened Packing

  /** Full segments but for the last, which is not empty. */
  ghost predicate Dense(queue: seq<Frag>, mss: int) {
    && (forall i :: 0 <= i < |queue| - 1 ==> |queue[i].data| == mss)
    && (queue != [] ==> 1 <= |queue[|queue| - 1].data| <= mss)
  }

  /** How many bytes the last queued segment has room for. */
  function RoomInLast(queue: seq<Frag>, mss: int): nat {
    if queue == [] || |queue[|queue| - 1].data| >= mss then 0 else mss - |queue[|queue| - 1].data|
  }

  lemma MergesWhatFits(s: State, data: Bytes)
    requires s.cfg.streamMode
    ensures MergeLength(s, data) == Min(|data|, RoomInLast(s.sndQueue, Mss(s.cfg)))
  {
    hide Mss;
  }

  lemma MergeKeepsDense(queue: seq<Frag>, data: Bytes, mss: int)
    requires Dense(queue, mss) && |data| <= RoomInLast(queue, mss)
    ensures var r := MergeIntoLast(queue, data);
            Dense(r, mss) && |r| == |queue|
    ensures data != [] ==> RoomInLast(MergeIntoLast(queue, data), mss) == RoomInLast(queue, mss) - |data|
  {
  }

  lemma AppendKeepsDense(queue: seq<Frag>, data: Bytes, mss: int)
    requires mss > 0 && data != [] && Dense(queue, mss) && RoomInLast(queue, mss) == 0
    ensures var r := queue + Fragment(data, mss, true);
            Dense(r, mss) && |r| == |queue| + DivCeil(|data|, mss)
  {
    FragmentShape(data, mss, true);
    CeilIsCount(|data|, mss);
    hide Fragment, FragmentCount, DivCeil;
  }

  lemma CeilIsCount(len: nat, mss: int)
    requires mss > 0 && len > 0
    ensures FragmentCount(len, mss) == DivCeil(len, mss)
  {
    if len <= mss {
      if len < mss { QuotientIs(len, mss, 0, len); } else { QuotientIs(len, mss, 1, 0); }
    }
  }

  /** What a write does to the queue in stream mode: as much of it as the last segment has room for goes
      there, and the rest, if it is within the bound, takes as many segments as it fills; otherwise it
      is refused, the merged part stays, and no segment is added. */
  lemma WriteFillsUp(s: State, data: Bytes)
    requires s.cfg.streamMode && Dense(s.sndQueue, Mss(s.cfg))
    ensures var (q, r, ok) := (s.sndQueue, Send(s, data).0.sndQueue, Send(s, data).1);
            var (mss, room) := (Mss(s.cfg), RoomInLast(s.sndQueue, Mss(s.cfg)));
            var rest := if |data| > room then |data| - room else 0;
            && Dense(r, mss)
            && (ok <==> rest <= Min(s.cfg.rcvWnd, 128) * mss)
            && |r| == |q| + (if ok then DivCeil(rest, mss) else 0)
            && DataOf(r) == DataOf(q) + (if ok then data else data[..room])
  {
    hide Send, MergeLength, MergeIntoLast, Mss, Fragment, DataOf, DivCeil, RoomInLast;
    var mss, n := Mss(s.cfg), MergeLength(s, data);
    MergesWhatFits(s, data);
    SendAppends(s, data);
    SendAccepts(s, data);
    SendIsMergeAndCut(s, data);
    MergeKeepsDense(s.sndQueue, data[..n], mss);
    CeilOfNothing(mss);
    if n < |data| { AfterMerging(s, data, n); }
  }

  /** A rejected write has filled the last segment up, so has an accepted one that goes on. */
  lemma AfterMerging(s: State, data: Bytes, n: nat)
    requires s.cfg.streamMode && Dense(s.sndQueue, Mss(s.cfg)) && n < |data|
    requires n == Min(|data|, RoomInLast(s.sndQueue, Mss(s.cfg)))
    ensures var (q1, mss) := (MergeIntoLast(s.sndQueue, data[..n]), Mss(s.cfg));
            var r := q1 + Fragment(data[n..], mss, true);
            Dense(r, mss) && |r| == |s.sndQueue| + DivCeil(|data| - n, mss)
  {
    var mss := Mss(s.cfg);
    hide Mss, MergeIntoLast, Fragment, DivCeil;
    MergeKeepsDense(s.sndQueue, data[..n], mss);
    if n == 0 { assert data[..n] == []; MergeNothing(s.sndQueue); }
    AppendKeepsDense(MergeIntoLast(s.sndQueue, data[..n]), data[n..], mss);
  }

  lemma MergeNothing(queue: seq<Frag>)
    ensures MergeIntoLast(queue, []) == queue
  {
  }

  lemma CeilOfNothing(mss: int)
    requires mss > 0
    ensures DivCeil(0, mss) == 0
  {
  }

  lemma SendIsMergeAndCut(s: State, data: Bytes)
    requires s.cfg.streamMode
    ensures var (r, n) := (Send(s, data).0.sndQueue, MergeLength(s, data));
            r == MergeIntoLast(s.sndQueue, data[..n])
              + (if Send(s, data).1 && n < |data| then Fragment(data[n..], Mss(s.cfg), true) else [])
  {
    if data == [] { MergeNothing(s.sndQueue); assert data[..0] == []; }
    hide MergeIntoLast, MergeLength, Fragment, FragmentCount, Mss;
    assert data[MergeLength(s, data)..] == [] <==> MergeLength(s, data) == |data|;
  }

  // ---- In every run ----

  lemma {:induction false} MoveKeepsDense(m: Arith, s: State, now: u32)
    requires Dense(s.sndQueue, Mss(s.cfg))
    ensures Dense(MoveToSendBuf(m, s, now).sndQueue, Mss(s.cfg))
    decreases |s.sndQueue|
  {
    hide Before, Add, EffectiveWindow, Mss;
    if s.sndQueue != [] { MoveKeepsDense(m, NumberOne(m, s, now), now); }
  }

  lemma FlushKeepsDense(m: Arith, s: State, now: u32)
    requires Dense(s.sndQueue, Mss(s.cfg))
    ensures Dense(Flush(m, s, now).0.sndQueue, Mss(s.cfg))
  {
    MoveKeepsDense(m, HandleWindowProbe(FlushAcks(s), now), now);
    BufferAfterFlush(m, s, now);
    hide Flush, MoveToSendBuf, OutputAll, ProbeTimer, AckWires, ProbeWires, Dense, Mss;
  }

  lemma StepKeepsDense(m: Arith, s: State, op: Op)
    requires s.cfg.streamMode && Dense(s.sndQueue, Mss(s.cfg))
    ensures var r := Step(m, s, op);
            r.cfg == s.cfg && Dense(r.sndQueue, Mss(s.cfg))
  {
    hide Send, Flush, Input, Dense, Mss;
    match op
    case DoSend(data) => WriteFillsUp(s, data);
    case DoRecv => hide PeekSize, TakeMessage, MoveToRecvQueue;
    case DoInput(ws, now) =>
    case DoFlush(now) => FlushKeepsDense(m, s, now);
    case DoProbe(now) => FlushKeepsDense(m, s.(probe := s.probe.(askSend := true)), now);
    case DoDrain =>
  }

  /** In every run in stream mode every queued segment is full but the last: small writes share
      segments, however many there are. */
  lemma {:induction false} EveryRunKeepsDense(m: Arith, conv: u32, cfg: Config, ops: seq<Op>)
    requires cfg.streamMode
    ensures var s := Run(m, Init(conv, cfg), ops);
            s.cfg == cfg && Dense(s.sndQueue, Mss(cfg))
    decreases |ops|
  {
    if ops != [] {
      hide Step, Dense, Mss;
      EveryRunKeepsDense(m, conv, cfg, ops[..|ops| - 1]);
      StepKeepsDense(m, Run(m, Init(conv, cfg), ops[..|ops| - 1]), ops[|ops| - 1]);
    }
  }
}
