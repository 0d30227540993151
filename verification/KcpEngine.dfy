/** The engine as the program has it: an object whose methods update its fields in place, on 32-bit
    sequence numbers and bytes. Every method is proved to do what EngineSpec says. */
module KcpEngine {
  import opened Word
  import opened Protocol
  import opened EngineSpec
  import opened SendSide
  import opened Packing
  import opened EngineLoops

  class Engine {
    const conv: u32
    const cfg: Config

    var sndUna: u32
    var sndNxt: u32
    var rcvNxt: u32
    var rtt: Rtt
    var wnd: Window
    var probe: Probe
    var sndQueue: seq<Frag>
    var rcvQueue: seq<Frag>
    var sndBuf: seq<Segment>
    var rcvBuf: map<int, Frag>
    var ackList: seq<Ack>
    var outputQueue: seq<Bytes>
    var outBuf: Bytes

    // The segments that outputQueue and outBuf encode.
    ghost var datagrams: seq<seq<Wire>>
    ghost var pending: seq<Wire>

    ghost function Abs(): State
      reads this
    {
      State(conv, cfg, sndUna, sndNxt, rcvNxt, rtt, wnd, probe, sndQueue, rcvQueue, sndBuf, rcvBuf, ackList,
            Output(datagrams, pending))
    }

    /** The bytes put out are the encoding of the segments put out. */
    ghost predicate OutputMatches()
      reads this
    {
      outputQueue == EncodeAll(datagrams) && outBuf == EncodeDatagram(pending)
    }

    ghost predicate Valid()
      reads this
    {
      OutputMatches() && SendInv(Wrapping, Abs())
    }

    constructor (conv: u32, cfg: Config)
      ensures Valid() && Abs() == Init(conv, cfg)
    {
      this.conv, this.cfg := conv, cfg;
      sndUna, sndNxt, rcvNxt := 0, 0, 0;
      rtt := Rtt(0, 0, RTO_DEF, if cfg.nodelay then RTO_NDL else RTO_MIN);
      wnd := Window(WND_RCV, cfg.sndWnd, THRESH_INIT, 0);
      probe := Probe(false, false, 0, 0);
      sndQueue, rcvQueue, sndBuf, rcvBuf, ackList := [], [], [], map[], [];
      outputQueue, outBuf, datagrams, pending := [], [], [], [];
    }

    // ---- send ----

    method Send(data: Bytes) returns (ok: bool)
      requires Valid()
      modifies this`sndQueue
      ensures Valid() && (Abs(), ok) == EngineSpec.Send(old(Abs()), data)
    {
      hide SendInv, EncodeDatagram, Fragment;
      if data == [] { return true; }
      var mss, rest := Mss(cfg), data;
      assert data[0..] == data && data[..0] == [];
      if cfg.streamMode && sndQueue != [] {
        var last := sndQueue[|sndQueue| - 1];
        if |last.data| < mss {
          var extend := Min(|rest|, mss - |last.data|);
          sndQueue := sndQueue[..|sndQueue| - 1] + [last.(data := last.data + rest[..extend])];
          rest := rest[extend..];
          SendInvIgnoresQueue(old(Abs()), Abs());
          if rest == [] { return true; }
        }
      }
      var count := if |rest| <= mss then 1 else DivCeil(|rest|, mss);
      if count > Min(cfg.rcvWnd, WND_RCV) { return false; }
      label merged:
      QueueFragments(rest, count, mss);
      SendInvIgnoresQueue(old@merged(Abs()), Abs());
      return true;
    }

    method QueueFragments(data: Bytes, count: nat, mss: int)
      requires data != [] && mss > 0 && count == FragmentCount(|data|, mss)
      modifies this`sndQueue
      ensures sndQueue == old(sndQueue) + Fragment(data, mss, cfg.streamMode)
    {
      hide FragmentCount, Fragment;
      var offset := 0;
      ghost var all := old(sndQueue) + Fragment(data, mss, cfg.streamMode);
      assert data[0..] == data;
      CountPositive(|data|, mss);
      for i := 0 to count
        invariant 0 <= offset <= |data|
        invariant i < count ==> offset < |data| && FragmentCount(|data| - offset, mss) == count - i
        invariant i < count ==> sndQueue + Fragment(data[offset..], mss, cfg.streamMode) == all
        invariant i == count ==> sndQueue == all
      {
        var size := Min(mss, |data| - offset);
        var frag := Frag(if cfg.streamMode then 0 else (count - i - 1) % 0x100, data[offset..offset + size]);
        ghost var left := data[offset..];
        CountLeft(|left|, mss, count - i);
        FragmentFront(left, mss, cfg.streamMode);
        assert |left| > mss ==> left[..mss] == frag.data && left[mss..] == data[offset + size..];
        assert |left| <= mss ==> left == frag.data;
        assert (sndQueue + [frag]) + Fragment(data[offset + size..], mss, cfg.streamMode)
            == sndQueue + ([frag] + Fragment(data[offset + size..], mss, cfg.streamMode));
        sndQueue := sndQueue + [frag];
        offset := offset + size;
      }
    }

    // ---- recv ----

    method PeekSize() returns (size: int)
      ensures size == EngineSpec.PeekSize(rcvQueue)
    {
      if rcvQueue == [] { return -1; }
      var seg := rcvQueue[0];
      if seg.frg == 0 { return Signed(|seg.data|); }
      if |rcvQueue| < seg.frg + 1 { return -1; }
      var length, i := 0, 0;
      assert rcvQueue[0..] == rcvQueue;
      while i < |rcvQueue|
        invariant 0 <= i <= |rcvQueue|
        invariant length + HeadLength(rcvQueue[i..]) == HeadLength(rcvQueue)
      {
        length := length + |rcvQueue[i].data|;
        if rcvQueue[i].frg == 0 { return Signed(length); }
        assert rcvQueue[i..][1..] == rcvQueue[i + 1..];
        i := i + 1;
      }
      return Signed(length);
    }

    method MoveToRecvQueue()
      modifies this`rcvQueue, this`rcvBuf, this`rcvNxt
      ensures Abs() == EngineSpec.MoveToRecvQueue(Wrapping, old(Abs()))
    {
      hide EngineSpec.MoveToRecvQueue;
      while (rcvNxt as int) in rcvBuf
        invariant EngineSpec.MoveToRecvQueue(Wrapping, Abs()) == EngineSpec.MoveToRecvQueue(Wrapping, old(Abs()))
        decreases |rcvBuf|
      {
        MoveStep(Abs());
        TakeOut(rcvBuf, rcvNxt);
        var segment := rcvBuf[rcvNxt];
        ghost var before := Abs();
        rcvBuf := rcvBuf - {rcvNxt as int};
        if |rcvQueue| >= cfg.rcvWnd {
          rcvBuf := rcvBuf[(rcvNxt as int) := segment];
          break;
        }
        rcvQueue := rcvQueue + [segment];
        rcvNxt := U(rcvNxt + 1);
        assert Abs() == MoveOne(Wrapping, before);
      }
      MoveStep(Abs());
    }

    method Recv() returns (msg: Option<Bytes>)
      requires Valid()
      modifies this`rcvQueue, this`rcvBuf, this`rcvNxt, this`probe
      ensures Valid() && (Abs(), msg) == EngineSpec.Recv(Wrapping, old(Abs()))
    {
      hide SendInv, EncodeDatagram, TakeMessage, EngineSpec.MoveToRecvQueue;
      if rcvQueue == [] { return None; }
      var peek := PeekSize();
      hide EngineSpec.PeekSize;
      if peek <= 0 { return None; }
      var recovered := |rcvQueue| >= cfg.rcvWnd;
      var data := TakeSegments(peek);
      if data == [] {
        SendInvReads(old(Abs()), Abs());
        return None;
      }
      MoveToRecvQueue();
      if recovered && |rcvQueue| < cfg.rcvWnd { probe := probe.(askTell := true); }
      SendInvReads(old(Abs()), Abs());
      return Some(data);
    }

    method TakeSegments(peek: int) returns (data: Bytes)
      modifies this`rcvQueue
      ensures (data, rcvQueue) == TakeMessage(old(rcvQueue), peek)
    {
      hide TakeMessage;
      data := [];
      ghost var all := TakeMessage(rcvQueue, peek);
      assert [] + all.0 == all.0;
      while rcvQueue != []
        invariant data + TakeMessage(rcvQueue, peek - |data|).0 == all.0
        invariant TakeMessage(rcvQueue, peek - |data|).1 == all.1
        decreases |rcvQueue|
      {
        var segment := rcvQueue[0];
        TakeStep(rcvQueue, peek - |data|);
        if |data| + |segment.data| > peek {
          assert data + [] == data;
          return;
        }
        ghost var more := TakeMessage(rcvQueue[1..], peek - |data| - |segment.data|).0;
        assert data + (segment.data + more) == (data + segment.data) + more;
        rcvQueue := rcvQueue[1..];
        data := data + segment.data;
        if segment.frg == 0 { return; }
      }
      TakeStep(rcvQueue, peek - |data|);
      assert data + [] == data;
    }

    // ---- input ----

    method ParseUna(una: int)
      modifies this`sndBuf
      ensures Abs() == EngineSpec.ParseUna(Wrapping, old(Abs()), una)
    {
      while sndBuf != [] && SeqBefore(sndBuf[0].sn, una)
        invariant DropUna(Wrapping, sndBuf, una) == DropUna(Wrapping, old(sndBuf), una)
      {
        sndBuf := sndBuf[1..];
      }
    }

    /** Searches by bisection, as the library's `binary_search_by` does, for distance 0 from `sn`. */
    method BinarySearch(sn: int) returns (found: bool, pos: nat)
      requires forall i, j :: 0 <= i < j < |sndBuf| ==> TimeDiff(sndBuf[i].sn, sn) < TimeDiff(sndBuf[j].sn, sn)
      ensures found ==> pos < |sndBuf| && TimeDiff(sndBuf[pos].sn, sn) == 0
      ensures !found ==> forall i :: 0 <= i < |sndBuf| ==> TimeDiff(sndBuf[i].sn, sn) != 0
    {
      hide TimeDiff;
      var low, high := 0, |sndBuf|;
      while low < high
        invariant 0 <= low <= high <= |sndBuf|
        invariant forall i :: 0 <= i < low ==> TimeDiff(sndBuf[i].sn, sn) < 0
        invariant forall i :: high <= i < |sndBuf| ==> TimeDiff(sndBuf[i].sn, sn) > 0
      {
        var mid := (low + high) / 2;
        var d := TimeDiff(sndBuf[mid].sn, sn);
        if d < 0 {
          low := mid + 1;
        } else if d > 0 {
          high := mid;
        } else {
          return true, mid;
        }
      }
      return false, 0;
    }

    /** The bisection removes exactly what a scan for the number would. */
    method ParseAck(sn: u32)
      requires SendCore(Wrapping, Abs())
      modifies this`sndBuf
      ensures Abs() == EngineSpec.ParseAck(Wrapping, old(Abs()), sn)
    {
      if SeqBefore(sn, sndUna) || !SeqBefore(sn, sndNxt) { return; }
      DistancesAscend(Abs(), sn);
      var found, pos := BinarySearch(sn);
      hide SendCore, TimeDiff;
      ScanAgrees(sndBuf, sn, found, pos);
      if found { sndBuf := sndBuf[..pos] + sndBuf[pos + 1..]; }
    }

    method ParseFastack(sn: int, ts: u32)
      modifies this`sndBuf
      ensures Abs() == EngineSpec.ParseFastack(Wrapping, old(Abs()), sn, ts)
    {
      if SeqBefore(sn, sndUna) || !SeqBefore(sn, sndNxt) { return; }
      hide TimeDiff, BumpFastack, BumpOne;
      var i := 0;
      ghost var was := sndBuf;
      ghost var done: seq<Segment> := [];
      ghost var all := BumpFastack(Wrapping, was, sn, ts);
      assert was[0..] == was && sndBuf == done + was && done + all == all;
      while i < |sndBuf|
        invariant 0 <= i <= |was| && |done| == i && sndBuf == done + was[i..]
        invariant done + BumpFastack(Wrapping, was[i..], sn, ts) == all
      {
        var segment := sndBuf[i];
        BumpStep(was, i, sn, ts);
        if !SeqBefore(segment.sn, sn) { return; }
        Bump(i, ts);
        ReplaceHead(done, was[i..], BumpOne(segment, ts));
        Regroup(done, BumpOne(segment, ts), BumpFastack(Wrapping, was[i + 1..], sn, ts));
        assert was[i..][1..] == was[i + 1..];
        done, i := done + [BumpOne(segment, ts)], i + 1;
      }
      BumpNothing(sn, ts);
      assert was[i..] == [];
    }

    method Bump(i: nat, ts: u32)
      requires i < |sndBuf|
      modifies this`sndBuf
      ensures sndBuf == old(sndBuf)[i := BumpOne(old(sndBuf)[i], ts)]
    {
      hide TimeDiff;
      var segment := sndBuf[i];
      if TimeDiff(ts, segment.ts) >= 0 {
        sndBuf := sndBuf[i := segment.(fastack := U(segment.fastack + 1))];
      }
    }

    method ParseData(sn: u32, frag: Frag)
      modifies this`rcvQueue, this`rcvBuf, this`rcvNxt
      ensures Abs() == EngineSpec.ParseData(Wrapping, old(Abs()), sn, frag)
    {
      if !SeqBefore(sn, U(rcvNxt + cfg.rcvWnd)) || SeqBefore(sn, rcvNxt) { return; }
      if (sn as int) !in rcvBuf { rcvBuf := rcvBuf[(sn as int) := frag]; }
      MoveToRecvQueue();
    }

    method UpdateAck(sample: int)
      modifies this`rtt
      ensures rtt == EngineSpec.UpdateAck(old(rtt), cfg.interval, sample)
    {
      var r := Clamp(sample, 0, RTO_MAX);
      var avg, variance := rtt.avg, rtt.variance;
      if avg == 0 {
        avg, variance := r, r / 2;
      } else {
        var delta := if r > Signed(avg) then r - Signed(avg) else Signed(avg) - r;
        variance := U(3 * variance + delta) / 4;
        avg := U(7 * avg + r) / 8;
        if avg < 1 { avg := 1; }
      }
      var rto := U(avg + Max(cfg.interval, U(4 * variance)));
      rtt := Rtt(avg, variance,
                 if rto < rtt.minRto then rtt.minRto else if rto > RTO_MAX then RTO_MAX else rto,
                 rtt.minRto);
    }

    method UpdateCwnd(prevUna: u32)
      modifies this`wnd
      ensures Abs() == EngineSpec.UpdateCwnd(Wrapping, old(Abs()), prevUna)
    {
      hide TimeDiff;
      if SeqAfter(sndUna, prevUna) && wnd.cwnd < wnd.rmt {
        var mss := Mss(cfg);
        if wnd.cwnd < wnd.ssthresh {
          wnd := wnd.(cwnd := U(wnd.cwnd + 1), incr := U(wnd.incr + mss));
        } else {
          if wnd.incr < mss { wnd := wnd.(incr := mss); }
          wnd := wnd.(incr := U(wnd.incr + U(mss * mss) / wnd.incr + mss / 16));
          if U(U(wnd.cwnd + 1) * mss) <= wnd.incr { wnd := wnd.(cwnd := U(DivCeil(wnd.incr, mss))); }
        }
        if wnd.cwnd > wnd.rmt { wnd := wnd.(cwnd := wnd.rmt, incr := U(wnd.rmt * mss)); }
      }
    }

    method InputAck(sn: u32, ts: u32, now: u32)
      requires SendCore(Wrapping, Abs())
      modifies this`rtt, this`sndBuf
      ensures Abs() == EngineSpec.InputAck(Wrapping, old(Abs()), sn, ts, now)
    {
      hide EngineSpec.UpdateAck, TimeDiff;
      var sample := TimeDiff(now, ts);
      if sample >= 0 { UpdateAck(sample); }
      CoreReads(old(Abs()), Abs());
      hide SendCore;
      ParseAck(sn);
    }

    method InputPush(sn: u32, ts: u32, frag: Frag)
      modifies this`rcvQueue, this`rcvBuf, this`rcvNxt, this`ackList
      ensures Abs() == EngineSpec.InputPush(Wrapping, old(Abs()), sn, ts, frag)
    {
      hide EngineSpec.ParseData, TimeDiff;
      if SeqBefore(sn, U(rcvNxt + cfg.rcvWnd)) {
        ackList := ackList + [Ack(sn, ts)];
        if !SeqBefore(sn, rcvNxt) { ParseData(sn, frag); }
      }
    }

    /** One segment of a packet; `newest` is the newest acknowledgement seen in the packet so far. */
    method InputSegment(w: Wire, newest: Newest, now: u32) returns (newest': Newest)
      requires OutputMatches() && SendCore(Wrapping, Abs()) && 0 <= w.sn < M32
      modifies this`wnd, this`rtt, this`probe, this`sndBuf, this`rcvQueue, this`rcvBuf, this`rcvNxt, this`ackList
      ensures OutputMatches() && SendCore(Wrapping, Abs())
      ensures (Abs(), newest') == EngineSpec.InputSegment(Wrapping, old(Abs()), newest, w, now)
    {
      newest' := newest;
      if w.conv != conv { return; }
      SegmentKeepsSendCore(Wrapping, Abs(), newest, w, now);
      hide EncodeDatagram, TimeDiff, EngineSpec.InputAck, EngineSpec.InputPush, DropUna, Ascending;
      wnd := wnd.(rmt := w.wnd);
      CoreReads(old(Abs()), Abs());
      CoreAfterUna(Abs(), w);
      hide SendCore;
      ParseUna(w.una);
      if w.cmd == CMD_ACK {
        InputAck(w.sn, w.ts, now);
        if newest.NoAck? {
          newest' := Newest(w.sn, w.ts);
        } else if SeqAfter(w.sn, newest.sn) && TimeDiff(w.ts, newest.ts) > 0 {
          newest' := Newest(w.sn, w.ts);
        }
      } else if w.cmd == CMD_PUSH {
        InputPush(w.sn, w.ts, Frag(w.frg, w.data));
      } else if w.cmd == CMD_WASK {
        probe := probe.(askTell := true);
      }
    }

    /** Processes the segments of a packet one by one; a tail that holds no complete segment is ignored. */
    method InputSegments(data: Bytes, now: u32) returns (newest: Newest)
      requires OutputMatches() && SendCore(Wrapping, Abs())
      modifies this`wnd, this`rtt, this`probe, this`sndBuf, this`rcvQueue, this`rcvBuf, this`rcvNxt, this`ackList
      ensures OutputMatches() && SendCore(Wrapping, Abs())
      ensures (Abs(), newest) == EngineSpec.InputSegments(Wrapping, old(Abs()), NoAck, ParseDatagram(data), now)
    {
      hide EncodeDatagram, SendCore, ParseDatagram, DecodeWire, DecodeHeader, HoldsSegment, EngineSpec.InputSegments,
           EngineSpec.InputSegment;
      newest := NoAck;
      var buf := data;
      ghost var all := EngineSpec.InputSegments(Wrapping, Abs(), NoAck, ParseDatagram(data), now);
      while |buf| >= 24
        invariant OutputMatches() && SendCore(Wrapping, Abs())
        invariant EngineSpec.InputSegments(Wrapping, Abs(), newest, ParseDatagram(buf), now) == all
        decreases |buf|
      {
        var header := DecodeHeader(buf);
        PeekHeader(buf);
        var segLen := 24 + header.value.len;
        if |buf| < segLen {
          NothingLeft(Abs(), newest, buf, now);
          return;
        }
        var segment := DecodeWire(buf[..segLen]);
        OneSegment(Abs(), newest, buf, now);
        var w := segment.value;
        newest := InputSegment(w, newest, now);
        buf := buf[segLen..];
      }
      NothingLeft(Abs(), newest, buf, now);
    }

    method Input(data: Bytes, now: u32) returns (ok: bool)
      requires Valid()
      modifies this
      ensures Valid() && (Abs(), ok) == InputDatagram(Wrapping, old(Abs()), data, now)
      ensures unchanged(this`outputQueue) && unchanged(this`outBuf)
    {
      hide EncodeDatagram, ParseDatagram, Ascending, EngineSpec.InputSegments, EngineSpec.ParseFastack,
           EngineSpec.UpdateCwnd;
      if |data| < 24 { return false; }
      InputKeepsSendInv(Wrapping, Abs(), ParseDatagram(data), now);
      var prevUna := sndUna;
      var newest := InputSegments(data, now);
      hide SendInv, SendCore;
      ShrinkBuf();
      if newest.Newest? { ParseFastack(newest.sn, newest.ts); }
      UpdateCwnd(prevUna);
      return true;
    }

    method ShrinkBuf()
      requires SendCore(Wrapping, Abs())
      modifies this`sndUna
      ensures Abs() == EngineSpec.ShrinkBuf(old(Abs()))
    {
      if sndBuf != [] {
        sndUna := sndBuf[0].sn;
      } else {
        sndUna := sndNxt;
      }
    }

    // ---- output ----

    function WndUnused(): (r: u16)
      reads this
      ensures r == EngineSpec.WndUnused(Abs())
    {
      if |rcvQueue| < cfg.rcvWnd then cfg.rcvWnd - |rcvQueue| else 0
    }

    /** Packs a segment behind the pending ones, sending those off first if it would not fit. */
    method OutputSegment(w: Wire)
      requires OutputMatches()
      modifies this`outputQueue, this`outBuf, this`datagrams, this`pending
      ensures OutputMatches()
      ensures Abs() == old(Abs()).(out := EngineSpec.OutputSegment(old(Abs()).out, cfg.mtu, w))
    {
      hide EncodeWire, EncodeDatagram, DatagramSize, WireSize;
      EncodeSnoc(pending, w);
      EncodeOne(w);
      EmptyDatagram(pending);
      EmptyDatagram([]);
      if |outBuf| + WireSize(w) > cfg.mtu && outBuf != [] {
        EncodeAllSnoc(datagrams, pending);
        outputQueue := outputQueue + [outBuf];
        datagrams, pending := datagrams + [pending], [];
        outBuf := [];
        assert [] + [w] == [w] && [] + EncodeWire(w) == EncodeWire(w);
      }
      outBuf := outBuf + EncodeWire(w);
      pending := pending + [w];
    }

    method FlushOutBuf()
      requires OutputMatches()
      modifies this`outputQueue, this`outBuf, this`datagrams, this`pending
      ensures OutputMatches() && Abs() == old(Abs()).(out := CloseDatagram(old(Abs()).out))
    {
      EmptyDatagram(pending);
      EmptyDatagram([]);
      hide EncodeDatagram;
      if outBuf != [] {
        EncodeAllSnoc(datagrams, pending);
        outputQueue := outputQueue + [outBuf];
        datagrams, pending, outBuf := datagrams + [pending], [], [];
      }
    }

    method DrainOutput() returns (out: seq<Bytes>)
      requires Valid()
      modifies this`outputQueue, this`datagrams
      ensures Valid() && Abs() == Drain(old(Abs()))
      ensures out == EncodeAll(old(datagrams))
    {
      hide SendInv, EncodeDatagram;
      out := outputQueue;
      outputQueue, datagrams := [], [];
      SendInvReads(old(Abs()), Abs());
    }

    // ---- flush ----

    method FlushAcks()
      requires OutputMatches()
      modifies this`ackList, this`outputQueue, this`outBuf, this`datagrams, this`pending
      ensures OutputMatches() && Abs() == EngineSpec.FlushAcks(old(Abs()))
    {
      hide EncodeDatagram, EngineSpec.OutputSegment, OutputAll;
      ghost var s := Abs();
      ghost var ws := AckWires(s);
      EmptyOutput(s.out, cfg.mtu);
      var acks, window, una := ackList, WndUnused(), rcvNxt;
      ackList := [];
      assert ws[..0] == [];
      for i := 0 to |acks|
        invariant OutputMatches()
        invariant Abs() == s.(ackList := [], out := OutputAll(s.out, cfg.mtu, ws[..i]))
      {
        assert ws[..i + 1] == ws[..i] + [ws[i]];
        OutputAllSnoc(s.out, cfg.mtu, ws[..i], ws[i]);
        OutputSegment(Wire(conv, CMD_ACK, 0, window, acks[i].ts, acks[i].sn, una, []));
      }
      assert ws[..|acks|] == ws;
    }

    method HandleWindowProbe(now: u32)
      requires OutputMatches()
      modifies this`probe, this`outputQueue, this`outBuf, this`datagrams, this`pending
      ensures OutputMatches() && Abs() == EngineSpec.HandleWindowProbe(old(Abs()), now)
    {
      hide EncodeDatagram, EngineSpec.OutputSegment, OutputAll, TimeDiff;
      TimeProbe(now);
      ghost var s := Abs();
      EmptyOutput(s.out, cfg.mtu);
      ghost var ask := ProbeWire(s, CMD_WASK, now);
      ghost var asked := if probe.askSend then [ask] else [];
      if probe.askSend {
        OutputAllSnoc(s.out, cfg.mtu, [], ask);
        assert [] + [ask] == [ask];
        OutputSegment(Wire(conv, CMD_WASK, 0, WndUnused(), now, 0, rcvNxt, []));
      }
      if probe.askTell {
        OutputAllSnoc(s.out, cfg.mtu, asked, ProbeWire(s, CMD_WINS, now));
        OutputSegment(Wire(conv, CMD_WINS, 0, WndUnused(), now, 0, rcvNxt, []));
      }
      assert asked + [] == asked;
      probe := probe.(askSend := false, askTell := false);
    }

    method TimeProbe(now: u32)
      modifies this`probe
      ensures probe == ProbeTimer(old(probe), wnd.rmt, now)
    {
      hide TimeDiff;
      if wnd.rmt == 0 {
        if probe.wait == 0 {
          probe := probe.(wait := PROBE_INIT, ts := U(now + PROBE_INIT));
        } else if TimeDiff(now, probe.ts) >= 0 {
          if probe.wait < PROBE_INIT { probe := probe.(wait := PROBE_INIT); }
          probe := probe.(wait := U(probe.wait + probe.wait / 2));
          if probe.wait > PROBE_LIMIT { probe := probe.(wait := PROBE_LIMIT); }
          probe := probe.(ts := U(now + probe.wait), askSend := true);
        }
      } else {
        probe := probe.(ts := 0, wait := 0);
      }
    }

    method MoveToSendBuf(now: u32)
      modifies this`sndQueue, this`sndBuf, this`sndNxt
      ensures Abs() == EngineSpec.MoveToSendBuf(Wrapping, old(Abs()), now)
    {
      hide TimeDiff, EngineSpec.MoveToSendBuf;
      var w := Min(cfg.sndWnd, wnd.rmt);
      var cwnd := if cfg.noCongestionControl then w else Min(wnd.cwnd, w);
      while TimeDiff(sndNxt, U(sndUna + cwnd)) < 0
        invariant cwnd == EffectiveWindow(Abs())
        invariant EngineSpec.MoveToSendBuf(Wrapping, Abs(), now) == EngineSpec.MoveToSendBuf(Wrapping, old(Abs()), now)
        decreases |sndQueue|
      {
        NumberStep(Abs(), now);
        if sndQueue == [] { return; }
        sndBuf := sndBuf + [Segment(sndNxt, sndQueue[0], now, now, rtt.rto, 0, 0)];
        sndQueue, sndNxt := sndQueue[1..], U(sndNxt + 1);
      }
      NumberStep(Abs(), now);
    }

    /** Scans the send buffer, marking what is due in place, and returns the positions to transmit. */
    method MarkSegmentsForSend(now: u32) returns (indices: seq<nat>, lost: bool, change: bool)
      modifies this`sndBuf
      ensures sndBuf == MarkAll(cfg, rtt.rto, old(sndBuf), now)
      ensures forall k :: k in indices ==> k < |sndBuf|
      ensures Pick(sndBuf, indices) == ToSend(cfg, rtt.rto, old(sndBuf), now)
      ensures lost == AnyMark(cfg, old(sndBuf), now, Timeout) && change == AnyMark(cfg, old(sndBuf), now, Fast)
    {
      hide MarkOf, Marked, ToSend;
      ghost var was, rto := sndBuf, rtt.rto;
      ghost var marked := MarkAll(cfg, rto, was, now);
      indices, lost, change := [], false, false;
      NothingToSend(cfg, rto, was, now);
      for i := 0 to |sndBuf|
        invariant |sndBuf| == |was|
        invariant forall k :: 0 <= k < i ==> sndBuf[k] == marked[k]
        invariant forall k :: i <= k < |was| ==> sndBuf[k] == was[k]
        invariant forall k :: k in indices ==> k < i
        invariant Pick(marked, indices) == ToSend(cfg, rto, was[..i], now)
        invariant lost == AnyMark(cfg, was[..i], now, Timeout) && change == AnyMark(cfg, was[..i], now, Fast)
      {
        var needSend, timedOut, fast := MarkSegment(i, now);
        ToSendSnoc(cfg, rto, was, now, i);
        AnyMarkSnoc(cfg, was, now, i, Timeout);
        AnyMarkSnoc(cfg, was, now, i, Fast);
        lost, change := lost || timedOut, change || fast;
        if needSend {
          PickSnoc(marked, indices, i);
          indices := indices + [i];
        }
      }
      assert was[..|was|] == was;
      assert sndBuf == marked;
    }

    method MarkSegment(i: nat, now: u32) returns (needSend: bool, timedOut: bool, fast: bool)
      requires i < |sndBuf|
      modifies this`sndBuf
      ensures sndBuf == old(sndBuf)[i := Marked(cfg, rtt.rto, old(sndBuf)[i], now)]
      ensures needSend == !MarkOf(cfg, old(sndBuf)[i], now).Idle?
      ensures timedOut == MarkOf(cfg, old(sndBuf)[i], now).Timeout? && fast == MarkOf(cfg, old(sndBuf)[i], now).Fast?
    {
      hide TimeDiff;
      var segment := sndBuf[i];
      needSend, timedOut, fast := false, false, false;
      var resend: u32 := if cfg.resend > 0 then cfg.resend else U32_MAX;
      if segment.xmit == 0 {
        needSend := true;
        var rtomin := if cfg.nodelay then 0 else rtt.rto / 8;
        segment := segment.(xmit := 1, rto := rtt.rto, resendts := U(U(now + rtt.rto) + rtomin));
      } else if TimeDiff(now, segment.resendts) >= 0 {
        needSend, timedOut := true, true;
        if cfg.nodelay {
          var step := if cfg.noCongestionControl then rtt.rto else segment.rto;
          segment := segment.(rto := U(segment.rto + step / 2));
        } else {
          segment := segment.(rto := U(segment.rto + Max(segment.rto, cfg.interval)));
        }
        segment := segment.(xmit := U(segment.xmit + 1), resendts := U(now + segment.rto));
      } else if segment.fastack >= resend && segment.xmit <= FASTACK_LIMIT {
        needSend, fast := true, true;
        segment := segment.(xmit := U(segment.xmit + 1), fastack := 0, resendts := U(now + segment.rto));
      }
      if needSend { segment := segment.(ts := now); }
      sndBuf := sndBuf[i := segment];
    }

    method UpdateCongestionOnLoss(lost: bool, change: bool)
      modifies this`wnd
      ensures Abs() == EngineSpec.UpdateCongestionOnLoss(Wrapping, old(Abs()), lost, change)
    {
      var mss := Mss(cfg);
      if change {
        var inflight := U(sndNxt - sndUna);
        var ssthresh := inflight / 2;
        if ssthresh < THRESH_MIN { ssthresh := THRESH_MIN; }
        wnd := wnd.(ssthresh := ssthresh, cwnd := U(ssthresh + ResendThreshold(cfg)));
        wnd := wnd.(incr := U(wnd.cwnd * mss));
      }
      if lost {
        wnd := wnd.(ssthresh := Max(wnd.cwnd / 2, THRESH_MIN), cwnd := 1, incr := mss);
      }
      if wnd.cwnd < 1 { wnd := wnd.(cwnd := 1, incr := mss); }
    }

    method FlushDataSegments(now: u32) returns (ok: bool)
      requires OutputMatches()
      modifies this`sndBuf, this`wnd, this`outputQueue, this`outBuf, this`datagrams, this`pending
      ensures OutputMatches() && (Abs(), ok) == EngineSpec.FlushDataSegments(Wrapping, old(Abs()), now)
    {
      hide EncodeDatagram, MarkAll, ToSend, ThroughDead, AnyMark, AnyDead, EngineSpec.OutputSegment, OutputAll,
           EngineSpec.UpdateCongestionOnLoss, AllAlive;
      ghost var s := Abs();
      ghost var sending := ToSend(cfg, rtt.rto, sndBuf, now);
      var indices, lost, change := MarkSegmentsForSend(now);
      ghost var s1 := Abs();
      ghost var ws := DataWires(s, sending);
      EmptyOutput(s.out, cfg.mtu);
      NoneYet(sending, cfg.deadLink);
      assert ws[..0] == [];
      for j := 0 to |indices|
        invariant OutputMatches() && AllAlive(sending[..j], cfg.deadLink)
        invariant Abs() == s1.(out := OutputAll(s.out, cfg.mtu, ws[..j]))
      {
        assert indices[j] in indices;
        var segment := sndBuf[indices[j]];
        assert segment == Pick(sndBuf, indices)[j] == sending[j];
        assert ws[..j + 1] == ws[..j] + [ws[j]];
        OutputAllSnoc(s.out, cfg.mtu, ws[..j], ws[j]);
        OutputSegment(Wire(conv, CMD_PUSH, segment.frag.frg, WndUnused(), segment.ts, segment.sn, rcvNxt,
          segment.frag.data));
        if segment.xmit >= cfg.deadLink {
          DeadAt(s, sending, cfg.deadLink, j);
          return false;
        }
        StillAlive(sending, cfg.deadLink, j);
      }
      assert sending[..|indices|] == sending && ws[..|indices|] == ws;
      AliveOrDead(sending, cfg.deadLink);
      ThroughDeadNone(sending, cfg.deadLink);
      UpdateCongestionOnLoss(lost, change);
      return true;
    }

    method Flush(now: u32) returns (ok: bool)
      requires Valid()
      modifies this
      ensures Valid() && (Abs(), ok) == EngineSpec.Flush(Wrapping, old(Abs()), now)
    {
      hide EncodeDatagram, SendInv, EngineSpec.FlushAcks, EngineSpec.HandleWindowProbe, EngineSpec.MoveToSendBuf,
           EngineSpec.FlushDataSegments, CloseDatagram;
      FlushKeepsSendInv(Wrapping, Abs(), now);
      FlushAcks();
      HandleWindowProbe(now);
      MoveToSendBuf(now);
      ok := FlushDataSegments(now);
      if !ok { return; }
      FlushOutBuf();
    }

    method KeepAliveProbe(now: u32) returns (ok: bool)
      requires Valid()
      modifies this
      ensures Valid() && (Abs(), ok) == EngineSpec.KeepAliveProbe(Wrapping, old(Abs()), now)
    {
      hide EncodeDatagram, SendInv, EngineSpec.Flush;
      probe := probe.(askSend := true);
      SendInvReads(old(Abs()), Abs());
      ok := Flush(now);
    }

    // ---- queries ----

    method Check(now: u32) returns (ms: u32)
      ensures ms == EngineSpec.Check(Abs(), now)
    {
      hide TimeDiff;
      if ackList != [] || probe.askSend || probe.askTell { return 0; }
      var next: u32 := U32_MAX;
      assert sndBuf[..0] == [];
      for i := 0 to |sndBuf|
        invariant next == SoonestResend(sndBuf[..i], now)
      {
        assert sndBuf[..i + 1][..i] == sndBuf[..i];
        var d: u32 := Max(TimeDiff(sndBuf[i].resendts, now), 0);
        next := Min(next, d);
      }
      assert sndBuf[..|sndBuf|] == sndBuf;
      if wnd.rmt == 0 && probe.ts != 0 {
        var d: u32 := Max(TimeDiff(probe.ts, now), 0);
        next := Min(next, d);
      }
      if next == U32_MAX { return 30000; } else { return next; }
    }

    method IsDead() returns (dead: bool)
      ensures dead == EngineSpec.IsDead(Abs())
    {
      for i := 0 to |sndBuf|
        invariant forall k :: 0 <= k < i ==> sndBuf[k].xmit < cfg.deadLink
      {
        if sndBuf[i].xmit >= cfg.deadLink { return true; }
      }
      return false;
    }

    function SendQueueLen(): (r: nat)
      reads this
    {
      |sndQueue|
    }

    predicate HasUnsentData()
      reads this
    {
      sndQueue != [] || sndBuf != []
    }
  }
}
