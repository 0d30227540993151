/** Packing segments into datagrams: nothing is lost, added or reordered, and every datagram fits. */
module Packing {
  import opened Word
  import opened Protocol
  import opened EngineSpec
  import opened EngineRun
  import opened Fragments
  import SendSide

  function Flatten(queue: seq<seq<Wire>>): seq<Wire> {
    if queue == [] then [] else Flatten(queue[..|queue| - 1]) + queue[|queue| - 1]
  }

  /** Every segment put out and not drained yet, in order. */
  function Emitted(out: Output): seq<Wire> {
    Flatten(out.queue) + out.pending
  }

  /** Finished datagrams are not empty and fit into one transmission unit. */
  ghost predicate WellPacked(out: Output, mtu: int) {
    && (forall d :: d in out.queue ==> d != [] && DatagramSize(d) <= mtu)
    && DatagramSize(out.pending) <= mtu
  }

  lemma FlattenSnoc(queue: seq<seq<Wire>>, d: seq<Wire>)
    ensures Flatten(queue + [d]) == Flatten(queue) + d
  {
    assert (queue + [d])[..|queue|] == queue;
  }

  lemma OutputSegmentPacks(out: Output, mtu: int, w: Wire)
    ensures var r := OutputSegment(out, mtu, w);
            && Emitted(r) == Emitted(out) + [w]
            && (WellPacked(out, mtu) && WireSize(w) <= mtu ==> WellPacked(r, mtu))
  {
    FlattenSnoc(out.queue, out.pending);
    assert (out.pending + [w])[..|out.pending|] == out.pending;
    assert [w][..0] == [] && DatagramSize([w]) == WireSize(w);
    hide Flatten, WireSize;
  }

  lemma {:induction false} OutputAllPacks(out: Output, mtu: int, ws: seq<Wire>)
    ensures var r := OutputAll(out, mtu, ws);
            && Emitted(r) == Emitted(out) + ws
            && (WellPacked(out, mtu) && (forall w :: w in ws ==> WireSize(w) <= mtu) ==> WellPacked(r, mtu))
    decreases |ws|
  {
    hide WellPacked, Emitted;
    if ws != [] {
      var init, last := ws[..|ws| - 1], ws[|ws| - 1];
      OutputAllPacks(out, mtu, init);
      OutputSegmentPacks(OutputAll(out, mtu, init), mtu, last);
      assert ws == init + [last];
      assert Emitted(out) + ws == (Emitted(out) + init) + [last];
    } else {
      assert Emitted(out) + [] == Emitted(out);
    }
  }

  // ---- Datagrams are as full as they get ----

  /** What starts datagram `i + 1` would not have fitted into datagram `i`. */
  ghost predicate Full(queue: seq<seq<Wire>>, mtu: int) {
    forall i :: 0 < i < |queue| && queue[i] != [] ==> DatagramSize(queue[i - 1]) + WireSize(queue[i][0]) > mtu
  }

  /** The finished datagrams and the one being filled. */
  function AllDatagrams(out: Output): seq<seq<Wire>> {
    if out.pending == [] then out.queue else out.queue + [out.pending]
  }

  lemma OutputSegmentFills(out: Output, mtu: int, w: Wire)
    requires Full(AllDatagrams(out), mtu) && (out.pending == [] ==> out.queue == [])
    ensures Full(AllDatagrams(OutputSegment(out, mtu, w)), mtu) && OutputSegment(out, mtu, w).pending != []
  {
    hide DatagramSize, WireSize;
    var r := OutputSegment(out, mtu, w);
    if out.pending != [] {
      assert AllDatagrams(out) == out.queue + [out.pending];
      forall i | 0 < i < |AllDatagrams(r)| && AllDatagrams(r)[i] != []
        ensures DatagramSize(AllDatagrams(r)[i - 1]) + WireSize(AllDatagrams(r)[i][0]) > mtu
      {
        if i < |out.queue| {
          assert AllDatagrams(r)[i] == AllDatagrams(out)[i] && AllDatagrams(r)[i - 1] == AllDatagrams(out)[i - 1];
        } else if i == |out.queue| {
          assert AllDatagrams(r)[i - 1] == AllDatagrams(out)[i - 1];
          assert AllDatagrams(r)[i][0] == AllDatagrams(out)[i][0];
        }
      }
    }
  }

  /** Datagrams that could not be fewer, with the last one still being filled, if there is any. */
  ghost predicate Greedy(out: Output, mtu: int) {
    Full(AllDatagrams(out), mtu) && (out.pending == [] ==> out.queue == [])
  }

  lemma {:induction false} OutputAllFills(out: Output, mtu: int, ws: seq<Wire>)
    requires Greedy(out, mtu)
    ensures Greedy(OutputAll(out, mtu, ws), mtu)
    decreases |ws|
  {
    hide DatagramSize, WireSize, OutputSegment, Full;
    if ws != [] {
      OutputAllFills(out, mtu, ws[..|ws| - 1]);
      OutputSegmentFills(OutputAll(out, mtu, ws[..|ws| - 1]), mtu, ws[|ws| - 1]);
    }
  }

  lemma CloseDatagramPacks(out: Output, mtu: int)
    ensures var r := CloseDatagram(out);
            && Emitted(r) == Emitted(out) && r.pending == [] && Flatten(r.queue) == Emitted(out)
            && (WellPacked(out, mtu) ==> WellPacked(r, mtu))
  {
    FlattenSnoc(out.queue, out.pending);
  }

  // ---- Packing and parsing ----

  /** What the receiver's loop finds in a list of datagrams. */
  function ParseAll(datagrams: seq<Bytes>): seq<Wire> {
    if datagrams == [] then []
    else ParseAll(datagrams[..|datagrams| - 1]) + ParseDatagram(datagrams[|datagrams| - 1])
  }

  function EncodeAll(queue: seq<seq<Wire>>): (r: seq<Bytes>)
    ensures |r| == |queue|
    ensures forall i :: 0 <= i < |r| ==> r[i] == EncodeDatagram(queue[i])
  {
    seq(|queue|, i requires 0 <= i < |queue| => EncodeDatagram(queue[i]))
  }

  lemma {:induction false} ParseAllEncoded(queue: seq<seq<Wire>>)
    requires forall w :: w in Flatten(queue) ==> |w.data| < M32
    ensures ParseAll(EncodeAll(queue)) == WrapWires(Flatten(queue))
  {
    hide EncodeDatagram, ParseDatagram;
    if queue != [] {
      var init, last := queue[..|queue| - 1], queue[|queue| - 1];
      assert Flatten(queue) == Flatten(init) + last;
      assert forall w :: w in last ==> w in Flatten(queue);
      assert forall w :: w in Flatten(init) ==> w in Flatten(queue);
      ParseAllEncoded(init);
      DatagramRoundTrip(last);
      assert EncodeAll(queue)[..|queue| - 1] == EncodeAll(init);
      assert WrapWires(Flatten(queue)) == WrapWires(Flatten(init)) + WrapWires(last);
    }
  }

  /** Segments that fit go out in non-empty datagrams of at most `mtu` bytes, and the peer's
      parsing of those datagrams finds exactly the segments, in order. */
  lemma PackThenParse(ws: seq<Wire>, mtu: Mtu)
    requires forall w :: w in ws ==> WireSize(w) <= mtu
    ensures var datagrams := EncodeAll(CloseDatagram(OutputAll(Output([], []), mtu, ws)).queue);
            && (forall i :: 0 <= i < |datagrams| ==> 0 < |datagrams[i]| <= mtu)
            && ParseAll(datagrams) == WrapWires(ws)
  {
    hide EncodeDatagram, ParseDatagram, ParseAll, OutputAll, CloseDatagram, WrapWires;
    var out0 := Output([], []);
    OutputAllPacks(out0, mtu, ws);
    var out := OutputAll(out0, mtu, ws);
    CloseDatagramPacks(out, mtu);
    var queue := CloseDatagram(out).queue;
    assert Flatten(queue) == ws;
    ParseAllEncoded(queue);
    forall i | 0 <= i < |queue| ensures 0 < |EncodeAll(queue)[i]| <= mtu {
      assert queue[i] in queue;
      assert DatagramSize(queue[i]) >= WireSize(queue[i][|queue[i]| - 1]);
    }
  }

  // ---- What a flush puts out ----

  /** The state in which `flush` scans the send buffer. */
  function BeforeScan(m: Arith, s: State, now: u32): State {
    MoveToSendBuf(m, HandleWindowProbe(FlushAcks(s), now), now)
  }

  /** The data segments a flush transmits, as marked. */
  function Sending(m: Arith, s: State, now: u32): seq<Segment> {
    var s1 := BeforeScan(m, s, now);
    ThroughDead(ToSend(s1.cfg, s1.rtt.rto, s1.sndBuf, now), s1.cfg.deadLink)
  }

  /** Everything a flush transmits: acknowledgements, then probes, then data. */
  function FlushWires(m: Arith, s: State, now: u32): seq<Wire> {
    AckWires(s)
    + ProbeWires(s.(probe := ProbeTimer(s.probe, s.wnd.rmt, now)), now)
    + DataWires(BeforeScan(m, s, now), Sending(m, s, now))
  }

  /** A flush puts out exactly `FlushWires`, after what was waiting; if it succeeds nothing stays unpacked. */
  lemma FlushEmits(m: Arith, s: State, now: u32)
    ensures var (r, ok) := Flush(m, s, now);
            && Emitted(r.out) == Emitted(s.out) + FlushWires(m, s, now)
            && (ok ==> r.out.pending == [])
            && (WellPacked(s.out, s.cfg.mtu) && (forall w :: w in FlushWires(m, s, now) ==> WireSize(w) <= s.cfg.mtu)
                ==> WellPacked(r.out, s.cfg.mtu))
  {
    hide WellPacked, Emitted, OutputAll, AckWires, ProbeTimer, ProbeWires, DataWires, ThroughDead, ToSend, MarkAll,
         WireSize, MoveToSendBuf, CloseDatagram, UpdateCongestionOnLoss;
    var mtu := s.cfg.mtu;
    var a := AckWires(s);
    var p := ProbeWires(s.(probe := ProbeTimer(s.probe, s.wnd.rmt, now)), now);
    var d := DataWires(BeforeScan(m, s, now), Sending(m, s, now));
    var out1 := OutputAll(s.out, mtu, a);
    var out2 := OutputAll(out1, mtu, p);
    var out3 := OutputAll(out2, mtu, d);
    OutputAllPacks(s.out, mtu, a);
    OutputAllPacks(out1, mtu, p);
    OutputAllPacks(out2, mtu, d);
    CloseDatagramPacks(out3, mtu);
    ProbeWiresIgnoreOutput(s, now);
    assert Emitted(s.out) + FlushWires(m, s, now) == ((Emitted(s.out) + a) + p) + d;
  }

  /** Acknowledgements, probes and data share datagrams as far as they fit: no datagram of a flush could
      have taken the segment that starts the next one. */
  lemma FlushPacksGreedily(m: Arith, s: State, now: u32)
    requires s.out == Output([], [])
    ensures Full(AllDatagrams(Flush(m, s, now).0.out), s.cfg.mtu)
  {
    hide OutputAll, AckWires, ProbeTimer, ProbeWires, DataWires, ThroughDead, ToSend, MarkAll, MoveToSendBuf,
         UpdateCongestionOnLoss;
    var mtu := s.cfg.mtu;
    var out1 := OutputAll(s.out, mtu, AckWires(s));
    var out2 := OutputAll(out1, mtu, ProbeWires(s.(probe := ProbeTimer(s.probe, s.wnd.rmt, now)), now));
    OutputAllFills(s.out, mtu, AckWires(s));
    OutputAllFills(out1, mtu, ProbeWires(s.(probe := ProbeTimer(s.probe, s.wnd.rmt, now)), now));
    OutputAllFills(out2, mtu, DataWires(BeforeScan(m, s, now), Sending(m, s, now)));
    ProbeWiresIgnoreOutput(s, now);
    hide Full;
  }

  lemma {:induction false} OutputStaysOpen(out: Output, mtu: int, ws: seq<Wire>)
    ensures ws != [] ==> OutputAll(out, mtu, ws).pending != []
  {
  }

  /** A flush that succeeds leaves nothing unpacked; one that fails leaves the datagram with the segment
      that failed it unfinished. */
  lemma UnfinishedIff(m: Arith, s: State, now: u32)
    ensures Flush(m, s, now).0.out.pending == [] <==> Flush(m, s, now).1
  {
    hide FlushAcks, HandleWindowProbe, MoveToSendBuf, UpdateCongestionOnLoss, MarkAll, OutputAll, ToSend, ThroughDead,
         DataWires, AnyMark;
    var b := BeforeScan(m, s, now);
    OutputStaysOpen(b.out, b.cfg.mtu, DataWires(b, Sending(m, s, now)));
    DeadGoesOut(ToSend(b.cfg, b.rtt.rto, b.sndBuf, now), b.cfg.deadLink);
    OutputIgnoresBuffer(b, MarkAll(b.cfg, b.rtt.rto, b.sndBuf, now), DataWires(b, Sending(m, s, now)));
  }

  lemma OutputIgnoresBuffer(s: State, buf: seq<Segment>, ws: seq<Wire>)
    ensures Emit(s.(sndBuf := buf), ws).out == OutputAll(s.out, s.cfg.mtu, ws)
  {
  }

  lemma DeadGoesOut(segs: seq<Segment>, deadLink: u32)
    ensures AnyDead(segs, deadLink) ==> ThroughDead(segs, deadLink) != []
  {
  }

  lemma ProbeWiresIgnoreOutput(s: State, now: u32)
    ensures HandleWindowProbe(FlushAcks(s), now).out
            == OutputAll(OutputAll(s.out, s.cfg.mtu, AckWires(s)), s.cfg.mtu,
                         ProbeWires(s.(probe := ProbeTimer(s.probe, s.wnd.rmt, now)), now))
  {
    hide OutputAll, ProbeTimer, AckWires;
  }

  /** Every transmitted segment is one of the buffer that was due, as marked, and every one due is in the list. */
  lemma {:induction false} ToSendIsDue(cfg: Config, rto: u32, buf: seq<Segment>, now: u32)
    ensures forall seg :: seg in ToSend(cfg, rto, buf, now) <==>
              exists i :: 0 <= i < |buf| && !MarkOf(cfg, buf[i], now).Idle? && seg == Marked(cfg, rto, buf[i], now)
  {
    hide MarkOf, Marked;
    if buf != [] {
      var init, last := buf[..|buf| - 1], buf[|buf| - 1];
      ToSendIsDue(cfg, rto, init, now);
      var all, some := ToSend(cfg, rto, buf, now), ToSend(cfg, rto, init, now);
      forall seg
        ensures seg in all <==>
          exists i :: 0 <= i < |buf| && !MarkOf(cfg, buf[i], now).Idle? && seg == Marked(cfg, rto, buf[i], now)
      {
        if seg in some {
          var i :| 0 <= i < |init| && !MarkOf(cfg, init[i], now).Idle? && seg == Marked(cfg, rto, init[i], now);
          assert buf[i] == init[i];
        }
        if i :| 0 <= i < |buf| && !MarkOf(cfg, buf[i], now).Idle? && seg == Marked(cfg, rto, buf[i], now) {
          if i < |init| { assert init[i] == buf[i]; }
        }
      }
    }
  }

  lemma MarkedKeeps(cfg: Config, rto: u32, seg: Segment, now: u32)
    ensures Marked(cfg, rto, seg, now).sn == seg.sn && Marked(cfg, rto, seg, now).frag == seg.frag
  {
  }

  /** The number and content of every transmitted segment are those of a segment of the scanned buffer. */
  lemma SendingIsBuffered(m: Arith, s: State, now: u32)
    ensures var buf := BeforeScan(m, s, now).sndBuf;
            forall seg :: seg in Sending(m, s, now) ==>
              exists i :: 0 <= i < |buf| && seg.sn == buf[i].sn && seg.frag == buf[i].frag
  {
    var s1 := BeforeScan(m, s, now);
    ToSendIsDue(s1.cfg, s1.rtt.rto, s1.sndBuf, now);
    hide BeforeScan, MarkOf, Marked, ToSend, ThroughDead;
    forall seg | seg in Sending(m, s, now)
      ensures exists i :: 0 <= i < |s1.sndBuf| && seg.sn == s1.sndBuf[i].sn && seg.frag == s1.sndBuf[i].frag
    {
      assert seg in ToSend(s1.cfg, s1.rtt.rto, s1.sndBuf, now);
      var i :| 0 <= i < |s1.sndBuf| && !MarkOf(s1.cfg, s1.sndBuf[i], now).Idle?
        && seg == Marked(s1.cfg, s1.rtt.rto, s1.sndBuf[i], now);
      MarkedKeeps(s1.cfg, s1.rtt.rto, s1.sndBuf[i], now);
    }
  }

  // ---- Every datagram of every run fits ----

  ghost predicate FitsSegment(f: Frag, mss: int) {
    1 <= |f.data| <= mss
  }

  /** Everything queued or in flight fits a segment, everything put out fits a datagram. */
  ghost predicate SizesInv(s: State) {
    && (forall i :: 0 <= i < |s.sndQueue| ==> FitsSegment(s.sndQueue[i], Mss(s.cfg)))
    && (forall i :: 0 <= i < |s.sndBuf| ==> FitsSegment(s.sndBuf[i].frag, Mss(s.cfg)))
    && WellPacked(s.out, s.cfg.mtu)
  }

  lemma SendKeepsSizes(s: State, data: Bytes)
    requires SizesInv(s)
    ensures SizesInv(Send(s, data).0)
  {
    var n := MergeLength(s, data);
    assert SizesInv(s.(sndQueue := MergeIntoLast(s.sndQueue, data[..n])));
    if data[n..] != [] { FragmentShape(data[n..], Mss(s.cfg), s.cfg.streamMode); }
    hide Fragment, FragmentCount, MergeIntoLast, MergeLength, WellPacked, Mss;
  }

  lemma {:induction false} MoveToSendBufKeepsSizes(m: Arith, s: State, now: u32)
    requires SizesInv(s)
    ensures SizesInv(MoveToSendBuf(m, s, now))
    decreases |s.sndQueue|
  {
    if s.sndQueue != [] && Before(m, s.sndNxt, Add(m, s.sndUna, EffectiveWindow(s))) {
      var s1 := s.(sndQueue := s.sndQueue[1..],
                   sndBuf := s.sndBuf + [Segment(s.sndNxt, s.sndQueue[0], now, now, s.rtt.rto, 0, 0)],
                   sndNxt := Add(m, s.sndNxt, 1));
      hide Before, Add, EffectiveWindow, WellPacked, Mss;
      assert SizesInv(s1);
      MoveToSendBufKeepsSizes(m, s1, now);
    }
  }

  lemma FlushWiresFit(m: Arith, s: State, now: u32)
    requires SizesInv(s)
    ensures forall w :: w in FlushWires(m, s, now) ==> WireSize(w) <= s.cfg.mtu
  {
    var s1 := HandleWindowProbe(FlushAcks(s), now);
    MoveToSendBufKeepsSizes(m, s1.(out := s.out), now);
    MoveIgnoresOutput(m, s1, s.out, now);
    SendingIsBuffered(m, s, now);
    hide MoveToSendBuf, HandleWindowProbe, FlushAcks, Sending, ProbeTimer, WellPacked;
    var sending := Sending(m, s, now);
    forall i | 0 <= i < |sending| ensures |sending[i].frag.data| <= Mss(s.cfg) {
      assert sending[i] in sending;
    }
    DataWiresFit(BeforeScan(m, s, now), sending, Mss(s.cfg));
    hide BeforeScan, DataWires;
  }

  lemma DataWiresFit(s: State, segs: seq<Segment>, mss: int)
    requires forall i :: 0 <= i < |segs| ==> |segs[i].frag.data| <= mss
    ensures forall w :: w in DataWires(s, segs) ==> WireSize(w) <= mss + OVERHEAD
  {
  }

  lemma {:induction false} MoveIgnoresOutput(m: Arith, s: State, out: Output, now: u32)
    ensures MoveToSendBuf(m, s.(out := out), now) == MoveToSendBuf(m, s, now).(out := out)
    decreases |s.sndQueue|
  {
    if s.sndQueue != [] && Before(m, s.sndNxt, Add(m, s.sndUna, EffectiveWindow(s))) {
      hide Before, Add;
      MoveIgnoresOutput(m, s.(sndQueue := s.sndQueue[1..],
                              sndBuf := s.sndBuf + [Segment(s.sndNxt, s.sndQueue[0], now, now, s.rtt.rto, 0, 0)],
                              sndNxt := Add(m, s.sndNxt, 1)), out, now);
    }
  }

  lemma FlushKeepsSizes(m: Arith, s: State, now: u32)
    requires SizesInv(s)
    ensures SizesInv(Flush(m, s, now).0)
  {
    FlushWiresFit(m, s, now);
    FlushEmits(m, s, now);
    BufferAfterFlush(m, s, now);
    var s1 := HandleWindowProbe(FlushAcks(s), now);
    MoveToSendBufKeepsSizes(m, s1.(out := s.out), now);
    MoveIgnoresOutput(m, s1, s.out, now);
    hide Flush, MoveToSendBuf, WellPacked, FlushWires, ProbeTimer, OutputAll, Mss;
  }

  /** A flush leaves the queue and the contents of the buffer as they were before the scan. */
  lemma BufferAfterFlush(m: Arith, s: State, now: u32)
    ensures var (r, s2) := (Flush(m, s, now).0, BeforeScan(m, s, now));
            && r.sndQueue == s2.sndQueue && |r.sndBuf| == |s2.sndBuf|
            && forall i :: 0 <= i < |r.sndBuf| ==>
              r.sndBuf[i].frag == s2.sndBuf[i].frag && r.sndBuf[i].sn == s2.sndBuf[i].sn
  {
    hide Marked, MoveToSendBuf, HandleWindowProbe, FlushAcks, ToSend, ThroughDead, CloseDatagram, OutputAll, AnyDead,
         AnyMark;
    var s2 := BeforeScan(m, s, now);
    assert Flush(m, s, now).0.sndBuf == MarkAll(s2.cfg, s2.rtt.rto, s2.sndBuf, now);
    hide Flush;
    forall i | 0 <= i < |s2.sndBuf|
      ensures Marked(s2.cfg, s2.rtt.rto, s2.sndBuf[i], now).frag == s2.sndBuf[i].frag
           && Marked(s2.cfg, s2.rtt.rto, s2.sndBuf[i], now).sn == s2.sndBuf[i].sn
    {
      MarkedKeeps(s2.cfg, s2.rtt.rto, s2.sndBuf[i], now);
    }
  }

  lemma InputKeepsSizes(m: Arith, s: State, ws: seq<Wire>, now: u32)
    requires SizesInv(s)
    ensures SizesInv(Input(m, s, ws, now))
  {
    SendSide.InputSurvivors(m, s, ws, now);
    hide WellPacked, Mss, Input;
    var r := Input(m, s, ws, now);
    forall i | 0 <= i < |r.sndBuf| ensures FitsSegment(r.sndBuf[i].frag, Mss(s.cfg)) {
      assert SendSide.SurvivorOf(r.sndBuf[i], s.sndBuf);
      var j :| 0 <= j < |s.sndBuf| && SendSide.SameContent(r.sndBuf[i], s.sndBuf[j]);
    }
  }

  lemma StepKeepsSizes(m: Arith, s: State, op: Op)
    requires SizesInv(s)
    ensures SizesInv(Step(m, s, op))
  {
    match op
    case DoSend(data) => SendKeepsSizes(s, data);
    case DoRecv => hide Mss, WellPacked;
    case DoInput(ws, now) => InputKeepsSizes(m, s, ws, now);
    case DoFlush(now) => FlushKeepsSizes(m, s, now);
    case DoProbe(now) =>
      hide Flush;
      FlushKeepsSizes(m, s.(probe := s.probe.(askSend := true)), now);
    case DoDrain =>
  }

  /** In every run, every finished datagram is non-empty and at most `mtu` bytes. */
  lemma {:induction false} EveryRunKeepsSizes(m: Arith, conv: u32, cfg: Config, ops: seq<Op>)
    ensures SizesInv(Run(m, Init(conv, cfg), ops))
    decreases |ops|
  {
    if ops != [] {
      EveryRunKeepsSizes(m, conv, cfg, ops[..|ops| - 1]);
      StepKeepsSizes(m, Run(m, Init(conv, cfg), ops[..|ops| - 1]), ops[|ops| - 1]);
    }
  }
}
